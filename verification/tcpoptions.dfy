/** TCP option encoding and decoding of the vendored TCP session helper
    (script/tcpsession/tcpsession.py): the builders of the maximum segment
    size option (section 3.1 of RFC 793), the window scale option
    (sections 2.2 and 2.3 of RFC 1323) and the timestamps option (section
    3.2 of RFC 1323), the routine that packs options into the 40-byte,
    32-bit aligned option area, and the byte-level option parser. */
module TcpOptions {
  import opened Results
  import opened Bytes

  const EOL: Byte := 0
  const NOP: Byte := 1
  const KIND_MSS: Byte := 2
  const KIND_WSCALE: Byte := 3
  const KIND_TIMESTAMP: Byte := 8

  /** The option area of a TCP header holds at most 40 bytes. */
  const MAX_OPTIONS_LENGTH: nat := 40

  // ---------------------------------------------------------------------
  // Builders: each gives the empty string for a value out of its range.

  /** `tcp_option_window_scale_payload`: kind 3, length 3, the shift. */
  function WindowScaleOption(shift: int): (r: seq<Byte>)
    ensures 0 <= shift <= 14 ==> |r| == 3 && r[0] == KIND_WSCALE && r[1] == |r| && r[2] == shift
    ensures !(0 <= shift <= 14) ==> r == []
  {
    if 0 <= shift <= 14 then [3, 3, shift] else []
  }

  /** `tcp_option_mss_paylod`: kind 2, length 4, the size big-endian. */
  function MssOption(mss: int): (r: seq<Byte>)
    ensures 0 <= mss <= 0xFFFF ==> |r| == 4 && r[0] == KIND_MSS && r[1] == |r| && UnsignedBE(r[2..]) == mss
    ensures !(0 <= mss <= 0xFFFF) ==> r == []
  {
    if 0 <= mss <= 0xFFFF then
      assert Pow256(2) == 0x1_0000;
      UnpackPackBE(mss, 2);
      [2, 4] + PackBE(mss, 2)
    else []
  }

  /** `tcp_option_time_stamp_payload`: kind 8, length 10, then TSval and
      TSecr, each big-endian in four bytes. */
  function TimestampOption(tsVal: int, tsEcr: int): (r: seq<Byte>)
    ensures 0 <= tsVal <= 0xFFFF_FFFF && 0 <= tsEcr <= 0xFFFF_FFFF ==>
      |r| == 10 && r[0] == KIND_TIMESTAMP && r[1] == |r|
      && UnsignedBE(r[2..6]) == tsVal && UnsignedBE(r[6..]) == tsEcr
    ensures !(0 <= tsVal <= 0xFFFF_FFFF && 0 <= tsEcr <= 0xFFFF_FFFF) ==> r == []
  {
    if 0 <= tsVal <= 0xFFFF_FFFF && 0 <= tsEcr <= 0xFFFF_FFFF then
      assert Pow256(4) == 0x1_0000_0000;
      UnpackPackBE(tsVal, 4);
      UnpackPackBE(tsEcr, 4);
      var r := [8, 10] + PackBE(tsVal, 4) + PackBE(tsEcr, 4);
      assert r[2..6] == PackBE(tsVal, 4) && r[6..] == PackBE(tsEcr, 4);
      r
    else []
  }

  // ---------------------------------------------------------------------
  // Packing

  /** The options laid end to end. */
  function Concat(options: seq<seq<Byte>>): seq<Byte>
  {
    if |options| == 0 then [] else Concat(options[..|options| - 1]) + options[|options| - 1]
  }

  function Nops(n: nat): (r: seq<Byte>)
    ensures |r| == n && forall i :: 0 <= i < n ==> r[i] == NOP
  {
    if n == 0 then [] else [NOP] + Nops(n - 1)
  }

  /** The NOP padding: 4 - len % 4 of them, so four when already aligned. */
  function Padded(body: seq<Byte>): (r: seq<Byte>)
    ensures |r| % 4 == 0 && |body| < |r| <= |body| + 4
    ensures r[..|body|] == body && forall i :: |body| <= i < |r| ==> r[i] == NOP
  {
    body + Nops(4 - |body| % 4)
  }

  /** `tcp_option_payload_creation`: options are taken in order until the
      first one that would push the total past 40 bytes; that one and all
      after it are dropped, and the rest is padded with NOPs. `kept` is
      how many options were taken. */
  method PayloadCreation(options: seq<seq<Byte>>) returns (payload: seq<Byte>, kept: nat)
    ensures kept <= |options|
    ensures |Concat(options[..kept])| <= MAX_OPTIONS_LENGTH
    ensures kept < |options| ==> |Concat(options[..kept])| + |options[kept]| > MAX_OPTIONS_LENGTH
    ensures payload == Padded(Concat(options[..kept]))
    ensures |payload| % 4 == 0 && |payload| <= MAX_OPTIONS_LENGTH + 4
  {
    var body: seq<Byte> := [];
    kept := 0;
    while kept < |options|
      invariant kept <= |options|
      invariant body == Concat(options[..kept])
      invariant |body| <= MAX_OPTIONS_LENGTH
    {
      if |options[kept]| + |body| > MAX_OPTIONS_LENGTH {
        break;
      }
      assert options[..kept + 1][..kept] == options[..kept];
      body := body + options[kept];
      kept := kept + 1;
    }
    payload := Padded(body);
  }

  // ---------------------------------------------------------------------
  // Parsing

  /** The values of the `TCPOptions` enumeration, as dpkt numbers the
      option kinds (dpkt is not part of this model). */
  predicate KnownKind(kind: Byte)
  {
    kind <= 24 || kind == 26 || kind == 27 || kind == 255
  }

  /** A dictionary key: the enumeration member, or the string
      "UKNOWN_OPTION_<kind>" for a kind outside the enumeration. */
  datatype OptionKey = Named(kind: Byte) | Unknown(kind: Byte)

  function KeyOf(kind: Byte): (k: OptionKey)
    ensures k.kind == kind && (k.Named? <==> KnownKind(kind))
  {
    if KnownKind(kind) then Named(kind) else Unknown(kind)
  }

  /** `(length, data)`: EOL and NOP are recorded as `(0, None)`. */
  datatype OptionValue = OptionValue(length: int, data: Option<seq<Byte>>)

  /** The dictionary, or the loop never ending. */
  datatype Parse = Parsed(options: map<OptionKey, OptionValue>) | Diverges

  /** Python's `s[lo:hi]` for indices that are not negative. */
  function Slice(s: seq<Byte>, lo: nat, hi: nat): (r: seq<Byte>)
    requires lo <= |s|
    ensures lo <= hi <= |s| ==> r == s[lo..hi]
    ensures hi <= lo ==> r == []
    ensures |s| < hi ==> r == s[lo..]
  {
    if hi <= lo then [] else if hi <= |s| then s[lo..hi] else s[lo..]
  }

  /** The loop of `tcp_pkt_parse_options` from index `i` with the entries
      found so far. A kind other than EOL/NOP reads a length byte L and
      then moves the index to the kind's position plus L: a length of 1
      makes the length byte the next kind, and a length of 0 brings the
      index back to the same kind, forever. A kind in the last byte, with
      no room for a length, ends the loop. Later entries overwrite earlier
      ones of the same key. */
  function ParseFrom(options: seq<Byte>, i: nat, acc: map<OptionKey, OptionValue>): (r: Parse)
    ensures r.Parsed? ==> acc.Keys <= r.options.Keys
    decreases |options| - i
  {
    if i >= |options| then Parsed(acc)
    else
      var kind := options[i];
      if kind == EOL || kind == NOP then
        ParseFrom(options, i + 1, acc[Named(kind) := OptionValue(0, None)])
      else if i + 1 >= |options| then Parsed(acc)
      else
        var len := options[i + 1];
        var entry := OptionValue(len, Some(Slice(options, i + 2, i + len)));
        if len == 0 then Diverges
        else ParseFrom(options, i + len, acc[KeyOf(kind) := entry])
  }

  /** `tcp_pkt_parse_options` */
  function ParseOptions(options: seq<Byte>): (r: Parse)
    ensures (forall j :: 0 <= j < |options| ==> options[j] != 0) ==> r.Parsed?
  {
    DivergesOnlyAtZero(options, 0, map[]);
    ParseFrom(options, 0, map[])
  }

  /** The loop can only run forever on a zero byte at or after `i`. */
  lemma {:induction false} DivergesOnlyAtZero(options: seq<Byte>, i: nat, acc: map<OptionKey, OptionValue>)
    ensures ParseFrom(options, i, acc).Diverges? ==> exists j :: i <= j < |options| && options[j] == 0
    decreases |options| - i
  {
    if i < |options| {
      var kind := options[i];
      if kind == EOL || kind == NOP {
        DivergesOnlyAtZero(options, i + 1, acc[Named(kind) := OptionValue(0, None)]);
      } else if i + 1 < |options| {
        var len := options[i + 1];
        if len == 0 {
          assert options[i + 1] == 0;
        } else {
          DivergesOnlyAtZero(options, i + len, acc[KeyOf(kind) := OptionValue(len, Some(Slice(options, i + 2, i + len)))]);
        }
      }
    }
  }

  /** A kind whose length byte is 0 keeps the parser at that kind. */
  lemma ZeroLengthDiverges(kind: Byte, rest: seq<Byte>)
    requires kind != EOL && kind != NOP
    ensures ParseOptions([kind, 0] + rest) == Diverges
  {
  }

  /** A length byte of 1 records no data and is itself read as the next
      kind: 05 01 01 gives a SACK entry of length 1 and a NOP. */
  lemma LengthOneRereads()
    ensures ParseOptions([5, 1, 1]) ==
      Parsed(map[Named(5) := OptionValue(1, Some([])), Named(1) := OptionValue(0, None)])
  {
    var s: seq<Byte> := [5, 1, 1];
    var m1 := map[Named(5) := OptionValue(1, Some([]))];
    assert ParseFrom(s, 0, map[]) == ParseFrom(s, 1, m1);
    assert ParseFrom(s, 1, m1) == ParseFrom(s, 2, m1[Named(1) := OptionValue(0, None)]);
  }

  /** `rest` is what follows the first `off` bytes of `s`. */
  ghost predicate SuffixAt(s: seq<Byte>, off: nat, rest: seq<Byte>)
  {
    off + |rest| == |s| && forall k :: 0 <= k < |rest| ==> s[off + k] == rest[k]
  }

  /** Parsing past a prefix is parsing what follows it. */
  lemma {:induction false} ParseShift(s: seq<Byte>, off: nat, rest: seq<Byte>, j: nat, acc: map<OptionKey, OptionValue>)
    requires SuffixAt(s, off, rest)
    ensures ParseFrom(s, off + j, acc) == ParseFrom(rest, j, acc)
    decreases |rest| - j, 1
  {
    if j < |rest| {
      assert s[off + j] == rest[j];
      var kind := rest[j];
      if kind == EOL || kind == NOP {
        var acc' := acc[Named(kind) := OptionValue(0, None)];
        assert ParseFrom(s, off + j, acc) == ParseFrom(s, off + j + 1, acc');
        assert ParseFrom(rest, j, acc) == ParseFrom(rest, j + 1, acc');
        ParseShift(s, off, rest, j + 1, acc');
      } else if j + 1 < |rest| {
        ParseShiftOption(s, off, rest, j, acc);
      }
    }
  }

  /** The case of ParseShift where a kind with a length byte is read. */
  lemma {:induction false} ParseShiftOption(s: seq<Byte>, off: nat, rest: seq<Byte>, j: nat, acc: map<OptionKey, OptionValue>)
    requires SuffixAt(s, off, rest)
    requires j + 1 < |rest| && rest[j] != EOL && rest[j] != NOP
    ensures ParseFrom(s, off + j, acc) == ParseFrom(rest, j, acc)
    decreases |rest| - j, 0
  {
    var i := off + j;
    assert s[i] == rest[j] && s[i + 1] == rest[j + 1];
    var len := rest[j + 1];
    if len != 0 {
      SliceShift(s, off, rest, j + 2, j + len);
      var acc' := acc[KeyOf(rest[j]) := OptionValue(len, Some(Slice(rest, j + 2, j + len)))];
      OptionStep(s, i, acc);
      OptionStep(rest, j, acc);
      ParseShift(s, off, rest, j + len, acc');
    } else {
      ZeroStep(s, i, acc);
      ZeroStep(rest, j, acc);
    }
  }

  /** A kind with a zero length byte: the loop never ends. */
  lemma ZeroStep(options: seq<Byte>, i: nat, acc: map<OptionKey, OptionValue>)
    requires i + 1 < |options| && options[i] != EOL && options[i] != NOP && options[i + 1] == 0
    ensures ParseFrom(options, i, acc) == Diverges
  {
  }

  /** One step of the loop over a kind with a non-zero length byte. */
  lemma OptionStep(options: seq<Byte>, i: nat, acc: map<OptionKey, OptionValue>)
    requires i + 1 < |options| && options[i] != EOL && options[i] != NOP && options[i + 1] != 0
    ensures ParseFrom(options, i, acc) == ParseFrom(options, i + options[i + 1],
      acc[KeyOf(options[i]) := OptionValue(options[i + 1], Some(Slice(options, i + 2, i + options[i + 1])))])
  {
  }

  lemma SliceShift(s: seq<Byte>, off: nat, rest: seq<Byte>, lo: nat, hi: nat)
    requires SuffixAt(s, off, rest) && lo <= |rest|
    ensures Slice(s, off + lo, off + hi) == Slice(rest, lo, hi)
  {
    if lo < hi {
      if hi <= |rest| {
        assert s[off + lo..off + hi] == rest[lo..hi];
      } else {
        assert s[off + lo..] == rest[lo..];
      }
    }
  }

  /** A well-formed option (kind at least 2, length byte equal to its own
      length, at least 2) is recorded with its data, and the parser goes on
      right after it. */
  lemma ParseOne(o: seq<Byte>, rest: seq<Byte>, acc: map<OptionKey, OptionValue>)
    requires |o| >= 2 && o[0] >= 2 && o[1] == |o|
    ensures ParseFrom(o + rest, 0, acc)
      == ParseFrom(rest, 0, acc[KeyOf(o[0]) := OptionValue(|o|, Some(o[2..]))])
  {
    var s := o + rest;
    assert s[0] == o[0] && s[1] == o[1];
    assert Slice(s, 2, |o|) == o[2..];
    ParseShift(s, |o|, rest, 0, acc[KeyOf(o[0]) := OptionValue(|o|, Some(o[2..]))]);
  }

  /** Padding parses to a single NOP entry. */
  lemma {:induction false} ParseNops(n: nat, acc: map<OptionKey, OptionValue>)
    requires n >= 1
    ensures ParseFrom(Nops(n), 0, acc) == Parsed(acc[Named(NOP) := OptionValue(0, None)])
  {
    var s := Nops(n);
    assert s == [NOP] + Nops(n - 1);
    ParseShift(s, 1, Nops(n - 1), 0, acc[Named(NOP) := OptionValue(0, None)]);
    if n > 1 {
      ParseNops(n - 1, acc[Named(NOP) := OptionValue(0, None)]);
      assert acc[Named(NOP) := OptionValue(0, None)][Named(NOP) := OptionValue(0, None)]
        == acc[Named(NOP) := OptionValue(0, None)];
    }
  }

  /** The options of a SYN, built and padded, parse back to the values
      they were built from. */
  lemma SynOptionsRoundTrip(mss: int, shift: int, tsVal: int, tsEcr: int)
    requires 0 <= mss <= 0xFFFF && 0 <= shift <= 14
    requires 0 <= tsVal <= 0xFFFF_FFFF && 0 <= tsEcr <= 0xFFFF_FFFF
    ensures var r := ParseOptions(Padded(MssOption(mss) + WindowScaleOption(shift) + TimestampOption(tsVal, tsEcr)));
      && r.Parsed?
      && r.options.Keys == {Named(KIND_MSS), Named(KIND_WSCALE), Named(KIND_TIMESTAMP), Named(NOP)}
      && r.options[Named(KIND_MSS)].length == 4 && r.options[Named(KIND_MSS)].data.Some?
      && UnsignedBE(r.options[Named(KIND_MSS)].data.value) == mss
      && r.options[Named(KIND_WSCALE)] == OptionValue(3, Some([shift]))
      && r.options[Named(KIND_TIMESTAMP)].length == 10 && r.options[Named(KIND_TIMESTAMP)].data.Some?
      && |r.options[Named(KIND_TIMESTAMP)].data.value| == 8
      && UnsignedBE(r.options[Named(KIND_TIMESTAMP)].data.value[..4]) == tsVal
      && UnsignedBE(r.options[Named(KIND_TIMESTAMP)].data.value[4..]) == tsEcr
      && r.options[Named(NOP)] == OptionValue(0, None)
  {
    var m := MssOption(mss);
    var w := WindowScaleOption(shift);
    var t := TimestampOption(tsVal, tsEcr);
    var body := m + w + t;
    assert Padded(body) == m + (w + (t + Nops(3)));
    var a1 := map[Named(KIND_MSS) := OptionValue(4, Some(m[2..]))];
    var a2 := a1[Named(KIND_WSCALE) := OptionValue(3, Some([shift]))];
    var a3 := a2[Named(KIND_TIMESTAMP) := OptionValue(10, Some(t[2..]))];
    ParseOne(m, w + (t + Nops(3)), map[]);
    ParseOne(w, t + Nops(3), a1);
    assert w[2..] == [shift];
    ParseOne(t, Nops(3), a2);
    ParseNops(3, a3);
    assert t[2..][..4] == t[2..6] && t[2..][4..] == t[6..];
  }
}
