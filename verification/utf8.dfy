/** Strict UTF-8 decoding as `bytes.decode("utf-8")` performs it: every
    byte sequence must be well formed in the sense of Table 3-7 of the
    Unicode Standard (no overlong forms, no surrogates, nothing above
    U+10FFFF); anything else raises UnicodeDecodeError. */
module Utf8 {
  import opened Results
  import opened Bytes

  predicate IsCont(b: Byte)
  {
    0x80 <= b <= 0xBF
  }

  predicate IsScalar(cp: int)
  {
    (0 <= cp < 0xD800) || (0xE000 <= cp < 0x11_0000)
  }

  /** The code point encoded at the front of b and the number of bytes it
      takes, or None if b does not start with a well-formed sequence. */
  function Lead(b: seq<Byte>): (r: Option<(int, nat)>)
    ensures r.Some? ==> IsScalar(r.value.0) && 1 <= r.value.1 <= 4 && r.value.1 <= |b|
  {
    if |b| == 0 then None
    else
      var b0: int := b[0];
      if b0 <= 0x7F then Some((b0, 1))
      else if 0xC2 <= b0 <= 0xDF then
        if |b| >= 2 && IsCont(b[1]) then Some(((b0 - 0xC0) * 64 + (b[1] as int - 0x80), 2)) else None
      else if 0xE0 <= b0 <= 0xEF then
        var lo1 := if b0 == 0xE0 then 0xA0 else 0x80;
        var hi1 := if b0 == 0xED then 0x9F else 0xBF;
        if |b| >= 3 && lo1 <= b[1] <= hi1 && IsCont(b[2]) then
          Some(((b0 - 0xE0) * 4096 + (b[1] as int - 0x80) * 64 + (b[2] as int - 0x80), 3))
        else None
      else if 0xF0 <= b0 <= 0xF4 then
        var lo1 := if b0 == 0xF0 then 0x90 else 0x80;
        var hi1 := if b0 == 0xF4 then 0x8F else 0xBF;
        if |b| >= 4 && lo1 <= b[1] <= hi1 && IsCont(b[2]) && IsCont(b[3]) then
          Some(((b0 - 0xF0) * 262144 + (b[1] as int - 0x80) * 4096 + (b[2] as int - 0x80) * 64 + (b[3] as int - 0x80), 4))
        else None
      else None
  }

  /** `b.decode("utf-8")`; None is the UnicodeDecodeError. */
  function Decode(b: seq<Byte>): (r: Option<string>)
    ensures r.Some? ==> |r.value| <= |b|
    decreases |b|
  {
    if |b| == 0 then Some("")
    else
      match Lead(b)
      case None => None
      case Some((cp, n)) =>
        match Decode(b[n..])
        case None => None
        case Some(rest) => Some([cp as char] + rest)
  }

  /** The UTF-8 encoding of one character. */
  function EncodeChar(c: char): (r: seq<Byte>)
    ensures 1 <= |r| <= 4
  {
    var cp := c as int;
    if cp < 0x80 then [cp]
    else if cp < 0x800 then [0xC0 + cp / 64, 0x80 + cp % 64]
    else if cp < 0x1_0000 then [0xE0 + cp / 4096, 0x80 + (cp / 64) % 64, 0x80 + cp % 64]
    else [0xF0 + cp / 262144, 0x80 + (cp / 4096) % 64, 0x80 + (cp / 64) % 64, 0x80 + cp % 64]
  }

  /** `s.encode("utf-8")`, the partner used to state the decoder's meaning. */
  function Encode(s: string): (r: seq<Byte>)
    ensures |r| >= |s|
  {
    if |s| == 0 then [] else EncodeChar(s[0]) + Encode(s[1..])
  }

  lemma LeadEncodeChar(c: char, rest: seq<Byte>)
    ensures Lead(EncodeChar(c) + rest) == Some((c as int, |EncodeChar(c)|))
  {
    var cp := c as int;
    var e := EncodeChar(c);
    var b := e + rest;
    assert b[..|e|] == e;
    if cp < 0x80 {
    } else if cp < 0x800 {
      assert b[0] == 0xC0 + cp / 64 && b[1] == 0x80 + cp % 64;
      assert (cp / 64) * 64 + cp % 64 == cp;
    } else if cp < 0x1_0000 {
      var q := cp / 64;
      assert b[0] == 0xE0 + cp / 4096 && b[1] == 0x80 + q % 64 && b[2] == 0x80 + cp % 64;
      assert q / 64 == cp / 4096;
      assert (cp / 4096) * 4096 + (q % 64) * 64 + cp % 64 == cp;
    } else {
      var q := cp / 64;
      var p := cp / 4096;
      assert p == q / 64;
      assert cp / 262144 == p / 64;
      assert b[0] == 0xF0 + cp / 262144 && b[1] == 0x80 + p % 64;
      assert b[2] == 0x80 + q % 64 && b[3] == 0x80 + cp % 64;
      assert (cp / 262144) * 262144 + (p % 64) * 4096 + (q % 64) * 64 + cp % 64 == cp;
    }
  }

  /** Decoding an encoded string gives it back: strict decoding accepts
      exactly what the encoder writes, character by character. */
  lemma {:induction false} DecodeEncode(s: string)
    ensures Decode(Encode(s)) == Some(s)
  {
    if |s| > 0 {
      var e := EncodeChar(s[0]);
      var b := Encode(s);
      LeadEncodeChar(s[0], Encode(s[1..]));
      assert b[|e|..] == Encode(s[1..]);
      DecodeEncode(s[1..]);
      assert (s[0] as int) as char == s[0];
      assert [s[0]] + s[1..] == s;
    }
  }

  /** The bytes of a well-formed lead sequence are exactly the encoding of
      the code point they stand for: Table 3-7 admits no second spelling. */
  lemma LeadIsEncodeChar(b: seq<Byte>)
    requires Lead(b).Some?
    ensures EncodeChar(Lead(b).value.0 as char) == b[..Lead(b).value.1]
  {
    var n := Lead(b).value.1;
    if n == 2 {
      LeadTwo(b);
    } else if n == 3 {
      LeadThree(b);
    } else if n == 4 {
      LeadFour(b);
    }
  }

  lemma DivMod64(q: int, r: int)
    requires 0 <= r < 64
    ensures (q * 64 + r) / 64 == q && (q * 64 + r) % 64 == r
  {
  }

  lemma DivMod4096(q: int, r: int)
    requires 0 <= r < 4096
    ensures (q * 4096 + r) / 4096 == q
  {
  }

  lemma DivMod262144(q: int, r: int)
    requires 0 <= r < 262144
    ensures (q * 262144 + r) / 262144 == q
  {
  }

  lemma LeadTwo(b: seq<Byte>)
    requires Lead(b).Some? && Lead(b).value.1 == 2
    ensures EncodeChar(Lead(b).value.0 as char) == b[..2]
  {
    var cp := Lead(b).value.0;
    var x, y := b[0] as int - 0xC0, b[1] as int - 0x80;
    assert cp == x * 64 + y && 0 <= y < 64;
    DivMod64(x, y);
  }

  lemma LeadThree(b: seq<Byte>)
    requires Lead(b).Some? && Lead(b).value.1 == 3
    ensures EncodeChar(Lead(b).value.0 as char) == b[..3]
  {
    var cp := Lead(b).value.0;
    var x, y, z := b[0] as int - 0xE0, b[1] as int - 0x80, b[2] as int - 0x80;
    assert cp == (x * 64 + y) * 64 + z && 0 <= y < 64 && 0 <= z < 64;
    DivMod64(x * 64 + y, z);
    DivMod64(x, y);
    assert cp == x * 4096 + (y * 64 + z);
    DivMod4096(x, y * 64 + z);
  }

  lemma LeadFour(b: seq<Byte>)
    requires Lead(b).Some? && Lead(b).value.1 == 4
    ensures EncodeChar(Lead(b).value.0 as char) == b[..4]
  {
    var cp := Lead(b).value.0;
    var w, x, y, z := b[0] as int - 0xF0, b[1] as int - 0x80, b[2] as int - 0x80, b[3] as int - 0x80;
    assert 0 <= x < 64 && 0 <= y < 64 && 0 <= z < 64;
    assert cp == ((w * 64 + x) * 64 + y) * 64 + z;
    DivMod64((w * 64 + x) * 64 + y, z);
    DivMod64(w * 64 + x, y);
    assert cp == (w * 64 + x) * 4096 + (y * 64 + z);
    DivMod4096(w * 64 + x, y * 64 + z);
    DivMod64(w, x);
    assert cp == w * 262144 + (x * 4096 + y * 64 + z);
    DivMod262144(w, x * 4096 + y * 64 + z);
  }

  /** Conversely, whatever decodes is the encoding of what it decodes to:
      strict decoding accepts one spelling per string, so no overlong form
      or surrogate slips through. */
  lemma {:induction false} EncodeDecode(b: seq<Byte>)
    requires Decode(b).Some?
    ensures Encode(Decode(b).value) == b
    decreases |b|
  {
    if |b| > 0 {
      DecodeTail(b);
      var (cp, n) := Lead(b).value;
      var rest := Decode(b[n..]).value;
      DecodeCons(b, cp, n, rest);
      EncodeDecode(b[n..]);
      LeadIsEncodeChar(b);
      EncodeCons(cp as char, rest);
      assert b[..n] + b[n..] == b;
    }
  }

  /** Encoding works character by character. */
  lemma EncodeCons(c: char, rest: string)
    ensures Encode([c] + rest) == EncodeChar(c) + Encode(rest)
  {
    assert ([c] + rest)[0] == c && ([c] + rest)[1..] == rest;
  }

  /** A well-formed lead character followed by a decodable rest decodes
      to that character and the rest. */
  lemma DecodeCons(b: seq<Byte>, cp: int, n: nat, rest: string)
    requires |b| > 0 && Lead(b) == Some((cp, n)) && Decode(b[n..]) == Some(rest)
    ensures Decode(b) == Some([cp as char] + rest)
  {
  }

  /** Whatever decodes starts with a well-formed lead character whose
      remainder decodes as well. */
  lemma DecodeTail(b: seq<Byte>)
    requires |b| > 0 && Decode(b).Some?
    ensures Lead(b).Some? && Decode(b[Lead(b).value.1..]).Some?
  {
  }

  /** The lead sequence only looks at its own bytes. */
  lemma LeadPrefix(e: seq<Byte>, tail: seq<Byte>)
    requires Lead(e).Some?
    ensures Lead(e + tail) == Lead(e)
  {
    var b := e + tail;
    assert forall i :: 0 <= i < |e| ==> b[i] == e[i];
  }

  /** Decoding splits at a character boundary: a well-formed prefix decodes
      on its own, and the rest after it. */
  lemma {:induction false} DecodeAppend(e: seq<Byte>, tail: seq<Byte>)
    requires Decode(e).Some? && Decode(tail).Some?
    ensures Decode(e + tail) == Some(Decode(e).value + Decode(tail).value)
  {
    if |e| == 0 {
      assert e + tail == tail;
      assert Decode(e) == Some("");
      assert "" + Decode(tail).value == Decode(tail).value;
    } else {
      DecodeTail(e);
      var (cp, n) := Lead(e).value;
      var rest := Decode(e[n..]).value;
      var dt := Decode(tail).value;
      DecodeAppend(e[n..], tail);
      DecodeAppendStep(e, tail, cp, n, rest, dt);
    }
  }

  /** The inductive step of DecodeAppend, given the claim for the bytes
      after the first character. */
  lemma DecodeAppendStep(e: seq<Byte>, tail: seq<Byte>, cp: int, n: nat, rest: string, dt: string)
    requires |e| > 0 && Lead(e) == Some((cp, n))
    requires Decode(e[n..]) == Some(rest) && Decode(tail) == Some(dt)
    requires Decode(e[n..] + tail) == Some(rest + dt)
    ensures Decode(e) == Some([cp as char] + rest)
    ensures Decode(e + tail) == Some(([cp as char] + rest) + dt)
  {
    DecodeCons(e, cp, n, rest);
    LeadPrefix(e, tail);
    assert (e + tail)[n..] == e[n..] + tail;
    DecodeCons(e + tail, cp, n, rest + dt);
    ConsAppend(cp as char, rest, dt);
  }

  lemma ConsAppend(c: char, a: string, b: string)
    ensures [c] + (a + b) == ([c] + a) + b
  {
  }

  /** ASCII bytes decode to the characters with the same codes. */
  lemma {:induction false} DecodeAscii(b: seq<Byte>)
    requires forall i :: 0 <= i < |b| ==> b[i] < 0x80
    ensures Decode(b).Some? && |Decode(b).value| == |b|
    ensures forall i :: 0 <= i < |b| ==> Decode(b).value[i] as int == b[i]
  {
    if |b| > 0 {
      assert Lead(b) == Some((b[0], 1));
      DecodeAscii(b[1..]);
    }
  }

  /** `s.rstrip("\x00")`: drops the trailing NUL characters. */
  function RStripNul(s: string): (r: string)
    ensures |r| <= |s| && r == s[..|r|]
    ensures |r| > 0 ==> r[|r| - 1] != '\0'
    ensures forall i :: |r| <= i < |s| ==> s[i] == '\0'
  {
    if |s| > 0 && s[|s| - 1] == '\0' then RStripNul(s[..|s| - 1]) else s
  }
}
