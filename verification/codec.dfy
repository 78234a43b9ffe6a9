/** The ComfoConnect LAN C frame (`Message.encode` / `Message.decode` in
    aiocomfoconnect/bridge.py):

      4-byte big-endian length L | 16-byte source id | 16-byte destination id |
      2-byte big-endian header length H | header (H bytes) | body

    where L counts everything after itself. Header and body are protocol
    buffers; their wire format is outside this model, so a `Catalog` of
    serialise/parse functions is passed in wherever they are needed. */
module Codec {
  import opened Results
  import opened Bytes
  import Hex

  /** Bytes between the length prefix and the header: two ids and the
      header length. */
  const IdsAndHeaderLength: nat := 16 + 16 + 2

  /** Gateway operation types. The ones the client sends or dispatches on are
      named; every other type listed in `REQUEST_MAPPING` is `OtherMapped`,
      and a type without an entry there is `Unmapped`. */
  datatype OpType =
    | StartSessionRequest
    | CloseSessionRequest
    | ListRegisteredAppsRequest
    | RegisterAppRequest
    | DeregisterAppRequest
    | VersionRequest
    | CnTimeRequest
    | CnRmiRequest
    | CnRmiResponse
    | CnRpdoRequest
    | KeepAlive
    | GatewayNotification
    | CnNodeNotification
    | CnRpdoNotification
    | CnAlarmNotification
    | OtherMapped(code: nat)
    | Unmapped(code: nat)

  /** `REQUEST_MAPPING.get(type)` is not None. */
  predicate HasBodyParser(t: OpType)
  {
    !t.Unmapped?
  }

  /** The result field of the header. The eight failure codes the reader
      distinguishes are named; any other value is `UnlistedStatus`. */
  datatype Status =
    | StatusOk
    | BadRequest
    | InternalError
    | NotReachable
    | OtherSession
    | NotAllowed
    | NoResources
    | NotExist
    | RmiError
    | UnlistedStatus(code: nat)

  /** The `GatewayOperation` header; an absent reference reads as 0. */
  datatype Header = Header(opType: OpType, result: Status, reference: nat)

  /** The bodies whose fields the client reads or sets; any other body is
      opaque. A request field left unset is None. */
  datatype Body =
    | RpdoNotification(pdid: nat, data: seq<Byte>)
    | AlarmNotification(nodeId: nat, swProgramVersion: nat, errors: seq<Byte>)
    | RmiResponse(message: seq<Byte>)
    | StartSessionBody(takeover: bool)
    | RegisterAppBody(appUuid: seq<Byte>, deviceName: string, pin: int)
    | DeregisterAppBody(appUuid: seq<Byte>)
    | RmiRequestBody(rmiNodeId: int, rmiMessage: seq<Byte>)
    | RpdoRequestBody(rpdoPdid: int, pdoType: int, zone: int, timeout: Option<int>)
    | EmptyBody
    | OtherBody(fields: seq<Byte>)

  /** A decoded message: header, body, and the two ids as hex text. */
  datatype Message = Message(header: Header, body: Body, src: string, dst: string)

  /** Protocol-buffer serialisation and parsing (`SerializeToString`,
      `ParseFromString`), one parser per body class the client reads; a
      parse that fails is a DecodeError. */
  datatype Catalog = Catalog(
    serializeHeader: Header -> seq<Byte>,
    parseHeader: seq<Byte> -> Option<Header>,
    serializeBody: Body -> seq<Byte>,
    parseRpdo: seq<Byte> -> Option<(nat, seq<Byte>)>,
    parseAlarm: seq<Byte> -> Option<(nat, nat, seq<Byte>)>,
    parseRmiResponse: seq<Byte> -> Option<seq<Byte>>,
    parseOther: (OpType, seq<Byte>) -> Option<seq<Byte>>)

  /** `REQUEST_MAPPING[t]().ParseFromString(buf)` for a mapped type: the
      body's class follows from the header's type. */
  function ParseBody(cat: Catalog, t: OpType, buf: seq<Byte>): (r: Option<Body>)
    ensures r.Some? && t == CnRpdoNotification ==> r.value.RpdoNotification?
    ensures r.Some? && t == CnAlarmNotification ==> r.value.AlarmNotification?
    ensures r.Some? && t == CnRmiResponse ==> r.value.RmiResponse?
  {
    match t
    case CnRpdoNotification =>
      (match cat.parseRpdo(buf) case None => None case Some((pdid, data)) => Some(RpdoNotification(pdid, data)))
    case CnAlarmNotification =>
      (match cat.parseAlarm(buf) case None => None
       case Some((node, version, errors)) => Some(AlarmNotification(node, version, errors)))
    case CnRmiResponse =>
      (match cat.parseRmiResponse(buf) case None => None case Some(m) => Some(RmiResponse(m)))
    case _ =>
      (match cat.parseOther(t, buf) case None => None case Some(f) => Some(OtherBody(f)))
  }

  // ---------------------------------------------------------------------
  // Byte layout

  /** What `encode` can raise: `struct.error` from either length field
      (header first), then ValueError from `bytes.fromhex` (source first). */
  datatype EncodeError = HeaderTooLong | FrameTooLong | BadSourceId | BadDestinationId

  /** The frame for the given serialised header and body. The declared
      length is always 34 + |header| + |body|; the ids are not checked to be
      16 bytes long. */
  function EncodeRaw(cmd: seq<Byte>, msg: seq<Byte>, src: string, dst: string): (r: Result<seq<Byte>, EncodeError>)
    ensures r.Success? <==>
      |cmd| < Pow256(2) && IdsAndHeaderLength + |cmd| + |msg| < Pow256(4)
      && Hex.FromHex(src).Some? && Hex.FromHex(dst).Some?
    ensures r.Failure? && r.error == HeaderTooLong <==> |cmd| >= Pow256(2)
    ensures r.Success? ==>
      var s, d := Hex.FromHex(src).value, Hex.FromHex(dst).value;
      && |r.value| == 4 + |s| + |d| + 2 + |cmd| + |msg|
      && UnsignedBE(r.value[..4]) == IdsAndHeaderLength + |cmd| + |msg|
      && r.value[4..4 + |s|] == s
      && r.value[4 + |s|..4 + |s| + |d|] == d
      && UnsignedBE(r.value[4 + |s| + |d|..4 + |s| + |d| + 2]) == |cmd|
      && r.value[4 + |s| + |d| + 2..] == cmd + msg
    // The declared length matches the bytes that follow it exactly when the
    // ids come to 32 bytes together; nothing checks that they do.
    ensures r.Success? ==>
      (UnsignedBE(r.value[..4]) == |r.value| - 4 <==>
        |Hex.FromHex(src).value| + |Hex.FromHex(dst).value| == 32)
  {
    if |cmd| >= Pow256(2) then Failure(HeaderTooLong)
    else if IdsAndHeaderLength + |cmd| + |msg| >= Pow256(4) then Failure(FrameTooLong)
    else match Hex.FromHex(src)
      case None => Failure(BadSourceId)
      case Some(s) =>
        match Hex.FromHex(dst)
        case None => Failure(BadDestinationId)
        case Some(d) =>
          var lenBuf := PackBE(IdsAndHeaderLength + |cmd| + |msg|, 4);
          var cmdLenBuf := PackBE(|cmd|, 2);
          var r := lenBuf + s + d + cmdLenBuf + cmd + msg;
          UnpackPackBE(IdsAndHeaderLength + |cmd| + |msg|, 4);
          UnpackPackBE(|cmd|, 2);
          assert r[..4] == lenBuf;
          assert r[4..4 + |s|] == s;
          assert r[4 + |s|..4 + |s| + |d|] == d;
          assert r[4 + |s| + |d|..4 + |s| + |d| + 2] == cmdLenBuf;
          assert r[4 + |s| + |d| + 2..] == cmd + msg;
          Success(r)
  }

  /** The four parts `decode` slices out of a frame (without its length
      prefix), ids already rendered as hex text. */
  datatype RawMessage = RawMessage(src: string, dst: string, cmd: seq<Byte>, msg: seq<Byte>)

  /** Why decoding a frame can fail: the header-length field is not two
      bytes long (`struct.error`), a protocol buffer does not parse
      (`DecodeError`), or the header's type has no body parser, so the code
      calls None (`TypeError`). */
  datatype DecodeError = Truncated | ProtobufError | NoBodyParser

  /** Python slicing `p[i:j]` for 0 <= i: both ends clamp to the length. */
  function Slice(p: seq<Byte>, i: nat, j: nat): (r: seq<Byte>)
    ensures |r| == if i <= j && i <= |p| then (if j <= |p| then j else |p|) - i else 0
  {
    var hi := if j <= |p| then j else |p|;
    if i <= hi then p[i..hi] else []
  }

  /** The slicing half of `decode`: fixed offsets 16, 32, 34 and
      34 + header length; a header or body cut short is simply shorter. */
  function DecodeRaw(packet: seq<Byte>): (r: Result<RawMessage, DecodeError>)
    ensures r.Failure? <==> |packet| < IdsAndHeaderLength
    ensures r.Failure? ==> r.error == Truncated
    ensures r.Success? ==>
      var n := UnsignedBE(packet[32..34]);
      && r.value.src == Hex.ToHex(packet[..16])
      && r.value.dst == Hex.ToHex(packet[16..32])
      && r.value.cmd + r.value.msg == packet[34..]
      && |r.value.cmd| == if 34 + n <= |packet| then n else |packet| - 34
  {
    if |packet| < IdsAndHeaderLength then Failure(Truncated)
    else
      var n := UnsignedBE(packet[32..34]);
      var cmd := Slice(packet, 34, 34 + n);
      var msg := Slice(packet, 34 + n, |packet|);
      assert cmd + msg == packet[34..];
      Success(RawMessage(Hex.ToHex(packet[..16]), Hex.ToHex(packet[16..32]), cmd, msg))
  }

  /** `Message.decode`: slice, parse the header, look up the body parser
      for its type, parse the body. */
  function Decode(cat: Catalog, packet: seq<Byte>): (r: Result<Message, DecodeError>)
    ensures r.Success? <==>
      && DecodeRaw(packet).Success?
      && cat.parseHeader(DecodeRaw(packet).value.cmd).Some?
      && HasBodyParser(cat.parseHeader(DecodeRaw(packet).value.cmd).value.opType)
      && ParseBody(cat, cat.parseHeader(DecodeRaw(packet).value.cmd).value.opType, DecodeRaw(packet).value.msg).Some?
    ensures r.Failure? && r.error == NoBodyParser <==>
      && DecodeRaw(packet).Success?
      && cat.parseHeader(DecodeRaw(packet).value.cmd).Some?
      && cat.parseHeader(DecodeRaw(packet).value.cmd).value.opType.Unmapped?
    ensures r.Success? ==>
      && r.value.src == DecodeRaw(packet).value.src
      && r.value.dst == DecodeRaw(packet).value.dst
      && Some(r.value.header) == cat.parseHeader(DecodeRaw(packet).value.cmd)
      && Some(r.value.body) == ParseBody(cat, r.value.header.opType, DecodeRaw(packet).value.msg)
  {
    match DecodeRaw(packet)
    case Failure(e) => Failure(e)
    case Success(raw) =>
      match cat.parseHeader(raw.cmd)
      case None => Failure(ProtobufError)
      case Some(h) =>
        if !HasBodyParser(h.opType) then Failure(NoBodyParser)
        else
          match ParseBody(cat, h.opType, raw.msg)
          case None => Failure(ProtobufError)
          case Some(b) => Success(Message(h, b, raw.src, raw.dst))
  }

  /** `Message.encode` */
  function Encode(cat: Catalog, m: Message): (r: Result<seq<Byte>, EncodeError>)
    ensures r.Success? ==> |r.value| >= 4 + 2 + |cat.serializeHeader(m.header)|
  {
    EncodeRaw(cat.serializeHeader(m.header), cat.serializeBody(m.body), m.src, m.dst)
  }

  // ---------------------------------------------------------------------
  // Properties

  /** An id the frame can carry unchanged: 32 lower-case hex digits. */
  predicate IsCanonicalId(id: string)
  {
    |id| == 32 && forall i :: 0 <= i < |id| ==> '0' <= id[i] <= '9' || 'a' <= id[i] <= 'f'
  }

  lemma CanonicalIdBytes(id: string)
    requires IsCanonicalId(id)
    ensures Hex.FromHex(id).Some? && |Hex.FromHex(id).value| == 16
    ensures Hex.ToHex(Hex.FromHex(id).value) == id
  {
    assert Hex.IsHexDigits(id) by {
      forall i | 0 <= i < |id| ensures Hex.DigitValue(id[i]).Some? {
        assert '0' <= id[i] <= '9' || 'a' <= id[i] <= 'f';
      }
    }
    Hex.ToHexFromHex(id);
    LowerOfLower(id);
  }

  lemma {:induction false} LowerOfLower(s: string)
    requires forall i :: 0 <= i < |s| ==> '0' <= s[i] <= '9' || 'a' <= s[i] <= 'f'
    ensures Hex.Lower(s) == s
  {
    if |s| > 0 {
      assert '0' <= s[0] <= '9' || 'a' <= s[0] <= 'f';
      LowerOfLower(s[1..]);
    }
  }

  /** Slicing a frame body (length prefix removed) written with 16-byte ids
      recovers the ids as lower-case hex and the header and body bytes. */
  lemma DecodeRawEncodeRaw(cmd: seq<Byte>, msg: seq<Byte>, src: string, dst: string)
    requires EncodeRaw(cmd, msg, src, dst).Success?
    requires |Hex.FromHex(src).value| == 16 && |Hex.FromHex(dst).value| == 16
    ensures var p := EncodeRaw(cmd, msg, src, dst).value[4..];
      DecodeRaw(p) == Success(RawMessage(
        Hex.ToHex(Hex.FromHex(src).value), Hex.ToHex(Hex.FromHex(dst).value), cmd, msg))
  {
    var r := EncodeRaw(cmd, msg, src, dst).value;
    var p := r[4..];
    assert p[..16] == r[4..20];
    assert p[16..32] == r[20..36];
    assert p[32..34] == r[36..38];
    assert p[34..] == cmd + msg;
    var raw := DecodeRaw(p).value;
    assert |raw.cmd| == |cmd|;
    assert raw.cmd == (cmd + msg)[..|cmd|] == cmd;
    assert raw.msg == (cmd + msg)[|cmd|..] == msg;
  }

  /** The message round trip: with canonical ids, a header and body the
      protocol-buffer layer reads back, and a type that has a body parser,
      decoding what `encode` wrote (length prefix removed) gives the message. */
  lemma DecodeEncode(cat: Catalog, m: Message)
    requires Encode(cat, m).Success?
    requires IsCanonicalId(m.src) && IsCanonicalId(m.dst)
    requires cat.parseHeader(cat.serializeHeader(m.header)) == Some(m.header)
    requires HasBodyParser(m.header.opType)
    requires ParseBody(cat, m.header.opType, cat.serializeBody(m.body)) == Some(m.body)
    ensures Decode(cat, Encode(cat, m).value[4..]) == Success(m)
  {
    CanonicalIdBytes(m.src);
    CanonicalIdBytes(m.dst);
    DecodeRawEncodeRaw(cat.serializeHeader(m.header), cat.serializeBody(m.body), m.src, m.dst);
  }

  /** A well-formed frame whose header names a type without a body parser
      fails with the call-on-None error, never with a DecodeError. */
  lemma UnmappedTypeIsNotDecodeError(cat: Catalog, m: Message)
    requires Encode(cat, m).Success?
    requires IsCanonicalId(m.src) && IsCanonicalId(m.dst)
    requires cat.parseHeader(cat.serializeHeader(m.header)) == Some(m.header)
    requires m.header.opType.Unmapped?
    ensures Decode(cat, Encode(cat, m).value[4..]) == Failure(NoBodyParser)
  {
    CanonicalIdBytes(m.src);
    CanonicalIdBytes(m.dst);
    DecodeRawEncodeRaw(cat.serializeHeader(m.header), cat.serializeBody(m.body), m.src, m.dst);
  }

  // ---------------------------------------------------------------------
  // Stream de-framing

  /** One length-prefixed frame from the front of a buffer: `read_message`
      in script/decode_pcap.py, and the two `readexactly` calls of
      `Bridge._read` over the bytes that arrive before the peer closes.
      None means not enough data; the buffer is then left as it was. */
  function Deframe(buffer: seq<Byte>): (r: Option<(seq<Byte>, seq<Byte>)>)
    ensures r.None? <==> |buffer| < 4 || |buffer| - 4 < UnsignedBE(buffer[..4])
    ensures r.Some? ==>
      var (frame, rest) := r.value;
      && |frame| == UnsignedBE(buffer[..4])
      && buffer == buffer[..4] + frame + rest
  {
    if |buffer| < 4 then None
    else
      var n := UnsignedBE(buffer[..4]);
      if |buffer| - 4 < n then None
      else
        assert buffer == buffer[..4] + buffer[4..n + 4] + buffer[n + 4..];
        Some((buffer[4..n + 4], buffer[n + 4..]))
  }

  /** A frame written by `encode` with 16-byte ids, followed by anything,
      de-frames to exactly that frame's content and leaves exactly the rest. */
  lemma DeframeEncoded(cmd: seq<Byte>, msg: seq<Byte>, src: string, dst: string, rest: seq<Byte>)
    requires EncodeRaw(cmd, msg, src, dst).Success?
    requires |Hex.FromHex(src).value| == 16 && |Hex.FromHex(dst).value| == 16
    ensures var f := EncodeRaw(cmd, msg, src, dst).value;
      Deframe(f + rest) == Some((f[4..], rest))
  {
    var f := EncodeRaw(cmd, msg, src, dst).value;
    assert (f + rest)[..4] == f[..4];
    var b := f + rest;
    assert b[4..|f|] == f[4..];
    assert b[|f|..] == rest;
  }
}
