/** Remote method invocation payloads of the `ComfoConnect` session layer
    (aiocomfoconnect/comfoconnect.py): reading and writing node properties,
    and turning a property reply into a value by its type code. */
module Rmi {
  import opened Results
  import opened Bytes
  import opened Util
  import Const
  import Utf8

  // ---------------------------------------------------------------------
  // Request payloads

  /** The three property requests the session layer builds. */
  datatype PropertyRequest =
    | ReadProperty(unit: int, subunit: int, propertyId: int)
    | ReadProperties(unit: int, subunit: int, propertyIds: seq<int>)
    | WriteProperty(unit: int, subunit: int, propertyId: int, value: int)

  /** `0x10 | n`: sets bit 4 of n. */
  function Or0x10(n: nat): (r: nat)
    ensures r == n || r == n + 16
    ensures n < 16 ==> r == 0x10 + n
    ensures r < 256 <==> n < 256
  {
    if (n / 16) % 2 == 1 then n else n + 16
  }

  /** The payload sent with `cmd_rmi_request`: [0x01, unit, subunit, 0x10,
      id] to read one property, [0x02, unit, subunit, 0x01, 0x10 | n] and
      the n ids to read several, [0x03, unit, subunit, id, value] to write
      one. Every byte must be in 0..255, otherwise `bytes` raises
      ValueError. */
  function Payload(req: PropertyRequest): (r: Result<seq<Byte>, ValueError>)
    ensures req.ReadProperty? ==>
      (r.Success? <==> InByteRange(req.unit) && InByteRange(req.subunit) && InByteRange(req.propertyId))
    ensures req.WriteProperty? ==>
      (r.Success? <==> InByteRange(req.unit) && InByteRange(req.subunit)
                       && InByteRange(req.propertyId) && InByteRange(req.value))
    ensures req.ReadProperties? ==>
      (r.Success? <==> InByteRange(req.unit) && InByteRange(req.subunit) && |req.propertyIds| < 256
                       && forall i :: 0 <= i < |req.propertyIds| ==> InByteRange(req.propertyIds[i]))
    ensures r.Success? && req.ReadProperties? ==> |r.value| == 5 + |req.propertyIds|
    ensures r.Success? && !req.ReadProperties? ==> |r.value| == 5
  {
    match req
    case ReadProperty(unit, subunit, pid) =>
      BytesOfFive(0x01, unit, subunit, 0x10, pid);
      BytesOf([0x01, unit, subunit, 0x10, pid])
    case WriteProperty(unit, subunit, pid, value) =>
      BytesOfFive(0x03, unit, subunit, pid, value);
      BytesOf([0x03, unit, subunit, pid, value])
    case ReadProperties(unit, subunit, ids) =>
      match BytesOf(ids)
      case Failure(e) => Failure(e)
      case Success(idBytes) =>
        var head := [0x02, unit, subunit, 0x01, Or0x10(|ids|)];
        BytesOfFive(0x02, unit, subunit, 0x01, Or0x10(|ids|));
        BytestringAppend(Ints(head), [BytesItem(idBytes)]);
        BytestringOfInts(head);
        BytestringSingle(BytesItem(idBytes));
        Bytestring(Ints(head) + [BytesItem(idBytes)])
  }

  lemma BytesOfFive(a: int, b: int, c: int, d: int, e: int)
    ensures BytesOf([a, b, c, d, e]).Success? <==>
      InByteRange(a) && InByteRange(b) && InByteRange(c) && InByteRange(d) && InByteRange(e)
  {
    var l := [a, b, c, d, e];
    if InByteRange(a) && InByteRange(b) && InByteRange(c) && InByteRange(d) && InByteRange(e) {
      assert forall i :: 0 <= i < |l| ==> InByteRange(l[i]);
    } else {
      assert !InByteRange(l[0]) || !InByteRange(l[1]) || !InByteRange(l[2])
        || !InByteRange(l[3]) || !InByteRange(l[4]);
    }
  }

  /** A reader for the payloads above: the reference that pins down what
      each byte of a payload means. */
  function ParsePayload(b: seq<Byte>): (r: Option<PropertyRequest>)
  {
    if |b| < 5 then None
    else if b[0] == 0x01 && |b| == 5 && b[3] == 0x10 then Some(ReadProperty(b[1], b[2], b[4]))
    else if b[0] == 0x03 && |b| == 5 then Some(WriteProperty(b[1], b[2], b[3], b[4]))
    else if b[0] == 0x02 && b[3] == 0x01 && b[4] == Or0x10(|b| - 5) then
      Some(ReadProperties(b[1], b[2], b[5..]))
    else None
  }

  /** Every payload reads back as the request it was built from. */
  lemma ParsePayloadRoundTrip(req: PropertyRequest)
    requires Payload(req).Success?
    ensures ParsePayload(Payload(req).value) == Some(req)
  {
    var b := Payload(req).value;
    match req
    case ReadProperty(unit, subunit, pid) =>
      assert b == [0x01, unit, subunit, 0x10, pid];
    case WriteProperty(unit, subunit, pid, value) =>
      assert b == [0x03, unit, subunit, pid, value];
    case ReadProperties(unit, subunit, ids) =>
      var idBytes := BytesOf(ids).value;
      var head := [0x02, unit, subunit, 0x01, Or0x10(|ids|)];
      BytestringAppend(Ints(head), [BytesItem(idBytes)]);
      BytestringOfInts(head);
      BytestringSingle(BytesItem(idBytes));
      assert b == head + ids;
      assert b[5..] == ids;
      assert b[..5] == head;
  }

  /** With fewer than 16 ids the fifth byte is 0x10 + n, so the count is
      its low nibble. */
  lemma ReadPropertiesCount(unit: int, subunit: int, ids: seq<int>)
    requires Payload(ReadProperties(unit, subunit, ids)).Success?
    requires |ids| < 16
    ensures Payload(ReadProperties(unit, subunit, ids)).value[4] == 0x10 + |ids|
  {
    ParsePayloadRoundTrip(ReadProperties(unit, subunit, ids));
  }

  // ---------------------------------------------------------------------
  // Property values

  /** A decoded property value. */
  datatype PropertyValue = Text(s: string) | Integer(n: int) | Flag(b: bool) | Raw(bytes: seq<Byte>)

  /** Errors the decoding raises: a STRING reply that is not UTF-8, or a
      BOOL reply with no byte at all. */
  datatype DecodeFailure = UnicodeDecodeError | IndexError

  predicate IsSignedType(t: int)
  {
    t == Const.TYPE_CN_INT8 || t == Const.TYPE_CN_INT16 || t == Const.TYPE_CN_INT64
  }

  predicate IsUnsignedType(t: int)
  {
    t == Const.TYPE_CN_UINT8 || t == Const.TYPE_CN_UINT16 || t == Const.TYPE_CN_UINT32
  }

  /** `get_single_property`'s conversion of the reply by type code; no
      code (None) or any other code returns the bytes unchanged. */
  function DecodeProperty(propertyType: Option<int>, message: seq<Byte>): (r: Result<PropertyValue, DecodeFailure>)
    ensures propertyType.None? ==> r == Success(Raw(message))
    ensures r.Failure? && r.error == IndexError <==>
      propertyType == Some(Const.TYPE_CN_BOOL) && |message| == 0
    ensures r.Failure? && r.error == UnicodeDecodeError <==>
      propertyType == Some(Const.TYPE_CN_STRING) && Utf8.Decode(message).None?
    ensures r.Success? && propertyType.Some? && IsSignedType(propertyType.value) ==>
      r.value.Integer? && (|message| > 0 ==> (r.value.n < 0 <==> message[|message| - 1] >= 128))
    ensures r.Success? && propertyType.Some? && IsUnsignedType(propertyType.value) ==>
      r.value.Integer? && 0 <= r.value.n < Pow256(|message|)
    ensures r.Success? && propertyType == Some(Const.TYPE_CN_STRING) ==>
      r.value.Text? && |r.value.s| <= |message|
  {
    match propertyType
    case None => Success(Raw(message))
    case Some(t) =>
      if t == Const.TYPE_CN_STRING then
        match Utf8.Decode(message)
        case None => Failure(UnicodeDecodeError)
        case Some(s) => Success(Text(Utf8.RStripNul(s)))
      else if IsSignedType(t) then Success(Integer(SignedLE(message)))
      else if IsUnsignedType(t) then Success(Integer(UnsignedLE(message)))
      else if t == Const.TYPE_CN_BOOL then
        if |message| == 0 then Failure(IndexError) else Success(Flag(message[0] == 1))
      else Success(Raw(message))
  }

  /** The type codes are pairwise distinct, so the dispatch above never has
      two candidates for one code. */
  lemma TypeCodesDistinct()
    ensures |{Const.TYPE_CN_BOOL, Const.TYPE_CN_UINT8, Const.TYPE_CN_UINT16, Const.TYPE_CN_UINT32,
              Const.TYPE_CN_INT8, Const.TYPE_CN_INT16, Const.TYPE_CN_INT64, Const.TYPE_CN_STRING,
              Const.TYPE_CN_TIME, Const.TYPE_CN_VERSION}| == 10
  {
  }

  /** A signed reply written by `to_bytes(n, "little", signed=True)` reads
      back as the same integer. */
  lemma SignedPropertyRoundTrip(t: int, v: int, n: nat)
    requires IsSignedType(t) && ToSignedLE(v, n).Success?
    ensures DecodeProperty(Some(t), ToSignedLE(v, n).value) == Success(Integer(v))
  {
    SignedLERoundTrip(v, n);
  }

  /** An unsigned reply written little-endian reads back as the same value. */
  lemma UnsignedPropertyRoundTrip(t: int, v: nat, n: nat)
    requires IsUnsignedType(t) && v < Pow256(n)
    ensures DecodeProperty(Some(t), PackLE(v, n)) == Success(Integer(v))
  {
    UnpackPackLE(v, n);
  }

  /** Two bytes FF FF as INT16 are -1; as UINT16 they are 65535; 00 00 as
      UINT16 is 0. */
  lemma SignednessExamples()
    ensures DecodeProperty(Some(Const.TYPE_CN_INT16), [0xFF, 0xFF]) == Success(Integer(-1))
    ensures DecodeProperty(Some(Const.TYPE_CN_UINT16), [0xFF, 0xFF]) == Success(Integer(65535))
    ensures DecodeProperty(Some(Const.TYPE_CN_UINT16), [0x00, 0x00]) == Success(Integer(0))
  {
    assert UnsignedLE([0xFF, 0xFF]) == 65535 by {
      assert [0xFF, 0xFF][1..] == [0xFF];
      assert [0xFF][1..] == [];
    }
    assert UnsignedLE([0x00, 0x00]) == 0 by {
      assert [0x00, 0x00][1..] == [0x00];
      assert [0x00][1..] == [];
    }
  }

  /** A string encoded as UTF-8 and padded with NULs reads back as the
      string, provided it does not itself end in NUL. */
  lemma StringPropertyRoundTrip(s: string, pad: nat)
    requires |s| == 0 || s[|s| - 1] != '\0'
    ensures DecodeProperty(Some(Const.TYPE_CN_STRING), Utf8.Encode(s) + seq(pad, _ => 0))
            == Success(Text(s))
  {
    var zeros: seq<Byte> := seq(pad, _ => 0);
    Utf8.DecodeEncode(s);
    Utf8.DecodeAscii(zeros);
    Utf8.DecodeAppend(Utf8.Encode(s), zeros);
    var nuls := Utf8.Decode(zeros).value;
    assert forall i :: 0 <= i < |nuls| ==> nuls[i] == '\0' by {
      forall i | 0 <= i < |nuls| ensures nuls[i] == '\0' {
        assert nuls[i] as int == zeros[i] == 0;
      }
    }
    StripPadding(s, nuls);
  }

  lemma {:induction false} StripPadding(s: string, nuls: string)
    requires |s| == 0 || s[|s| - 1] != '\0'
    requires forall i :: 0 <= i < |nuls| ==> nuls[i] == '\0'
    ensures Utf8.RStripNul(s + nuls) == s
  {
    if |nuls| > 0 {
      var t := s + nuls;
      assert t[..|t| - 1] == s + nuls[..|nuls| - 1];
      StripPadding(s, nuls[..|nuls| - 1]);
    } else {
      assert s + nuls == s;
    }
  }

  /** BOOL reads the first byte only: 1 is true, anything else false. */
  lemma BoolProperty(message: seq<Byte>)
    requires |message| > 0
    ensures DecodeProperty(Some(Const.TYPE_CN_BOOL), message) == Success(Flag(message[0] == 1))
  {
  }
}
