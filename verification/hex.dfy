/** Hexadecimal text for device identifiers: `bytes.hex()` renders bytes as
    lower-case digit pairs; `bytes.fromhex()` reads digit pairs of either
    case and skips ASCII whitespace in front of each pair. */
module Hex {
  import opened Results
  import opened Bytes

  /** The lower-case digit `hex()` writes for a nibble. */
  function HexChar(k: int): (c: char)
    requires 0 <= k < 16
    ensures '0' <= c <= '9' || 'a' <= c <= 'f'
  {
    if k < 10 then ('0' as int + k) as char else ('a' as int + k - 10) as char
  }

  /** The value of one hexadecimal digit of either case. */
  function DigitValue(c: char): (r: Option<int>)
    ensures r.Some? ==> 0 <= r.value < 16
    ensures r.Some? <==> ('0' <= c <= '9' || 'a' <= c <= 'f' || 'A' <= c <= 'F')
  {
    if '0' <= c <= '9' then Some(c as int - '0' as int)
    else if 'a' <= c <= 'f' then Some(c as int - 'a' as int + 10)
    else if 'A' <= c <= 'F' then Some(c as int - 'A' as int + 10)
    else None
  }

  /** The ASCII whitespace `fromhex` skips: space, tab, LF, VT, FF, CR. */
  predicate IsAsciiSpace(c: char)
  {
    c == ' ' || c == '\t' || c == '\n' || c == '\r' || c == '\U{0B}' || c == '\U{0C}'
  }

  /** `bytes.hex()` */
  function ToHex(b: seq<Byte>): (s: string)
    ensures |s| == 2 * |b|
    ensures forall i :: 0 <= i < |s| ==> '0' <= s[i] <= '9' || 'a' <= s[i] <= 'f'
  {
    if |b| == 0 then ""
    else [HexChar(b[0] / 16), HexChar(b[0] % 16)] + ToHex(b[1..])
  }

  /** `bytes.fromhex(s)`; `None` is the ValueError it raises. */
  function FromHex(s: string): (r: Option<seq<Byte>>)
    ensures r.Some? ==> 2 * |r.value| <= |s|
  {
    if |s| == 0 then Some([])
    else if IsAsciiSpace(s[0]) then FromHex(s[1..])
    else if |s| < 2 then None
    else
      var hi, lo := DigitValue(s[0]), DigitValue(s[1]);
      if hi.None? || lo.None? then None
      else
        match FromHex(s[2..])
        case None => None
        case Some(rest) => Some([16 * hi.value + lo.value] + rest)
  }

  /** Reading back what `hex()` wrote gives the same bytes. */
  lemma {:induction false} FromHexToHex(b: seq<Byte>)
    ensures FromHex(ToHex(b)) == Some(b)
  {
    if |b| > 0 {
      var s := ToHex(b);
      var hi, lo := b[0] / 16, b[0] % 16;
      assert s == [HexChar(hi), HexChar(lo)] + ToHex(b[1..]);
      assert s[2..] == ToHex(b[1..]);
      assert DigitValue(s[0]) == Some(hi);
      assert DigitValue(s[1]) == Some(lo);
      assert !IsAsciiSpace(s[0]);
      FromHexToHex(b[1..]);
      assert FromHex(s) == Some([16 * hi + lo] + b[1..]);
      assert [16 * hi + lo] + b[1..] == b;
    }
  }

  /** The lower-case spelling of a character (only 'A'..'F' change). */
  function LowerChar(c: char): char
  {
    if 'A' <= c <= 'F' then (c as int + 32) as char else c
  }

  function Lower(s: string): (r: string)
    ensures |r| == |s|
  {
    if |s| == 0 then "" else [LowerChar(s[0])] + Lower(s[1..])
  }

  predicate IsHexDigits(s: string)
  {
    forall i :: 0 <= i < |s| ==> DigitValue(s[i]).Some?
  }

  lemma HexCharOfDigit(c: char)
    requires DigitValue(c).Some?
    ensures HexChar(DigitValue(c).value) == LowerChar(c)
  {
  }

  /** A plain digit string (no whitespace, even length) of either case is
      normalised by fromhex-then-hex to its lower-case spelling. */
  lemma {:induction false} ToHexFromHex(s: string)
    requires IsHexDigits(s) && |s| % 2 == 0
    ensures FromHex(s).Some?
    ensures |FromHex(s).value| == |s| / 2
    ensures ToHex(FromHex(s).value) == Lower(s)
  {
    if |s| > 0 {
      var hi := DigitValue(s[0]).value;
      var lo := DigitValue(s[1]).value;
      var t := s[2..];
      assert IsHexDigits(t) by {
        forall i | 0 <= i < |t| ensures DigitValue(t[i]).Some? {
          assert t[i] == s[i + 2];
        }
      }
      ToHexFromHex(t);
      var rest := FromHex(t).value;
      FromHexPair(s, hi, lo, rest);
      ToHexPair(hi, lo, rest);
      HexCharOfDigit(s[0]);
      HexCharOfDigit(s[1]);
      LowerPair(s);
    }
  }

  lemma FromHexPair(s: string, hi: int, lo: int, rest: seq<Byte>)
    requires |s| >= 2 && DigitValue(s[0]) == Some(hi) && DigitValue(s[1]) == Some(lo)
    requires FromHex(s[2..]) == Some(rest)
    ensures 0 <= 16 * hi + lo < 256
    ensures FromHex(s) == Some([16 * hi + lo] + rest)
  {
    assert !IsAsciiSpace(s[0]);
  }

  lemma ToHexPair(hi: int, lo: int, rest: seq<Byte>)
    requires 0 <= hi < 16 && 0 <= lo < 16
    ensures ToHex([16 * hi + lo] + rest) == [HexChar(hi), HexChar(lo)] + ToHex(rest)
  {
    var b := [16 * hi + lo] + rest;
    assert (16 * hi + lo) / 16 == hi;
    assert (16 * hi + lo) % 16 == lo;
    assert b[1..] == rest;
  }

  lemma LowerPair(s: string)
    requires |s| >= 2
    ensures Lower(s) == [LowerChar(s[0]), LowerChar(s[1])] + Lower(s[2..])
  {
    assert s[1..][1..] == s[2..];
  }
}
