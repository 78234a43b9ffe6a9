/** Byte strings and the fixed-width integer encodings the protocol uses:
    big-endian lengths (`struct.pack(">H")`, `struct.pack(">L")`,
    `int.from_bytes(..., "big")`) and little-endian property values
    (`int.from_bytes(..., "little", signed=...)`, `int.to_bytes`). */
module Bytes {
  import opened Results

  type Byte = b: int | 0 <= b < 256

  /** 256^n, the number of values an n-byte field can hold. */
  function Pow256(n: nat): (r: nat)
    ensures r >= 1
    ensures n >= 1 ==> r >= 256
  {
    if n == 0 then 1 else 256 * Pow256(n - 1)
  }

  lemma {:induction false} Pow256Add(a: nat, b: nat)
    ensures Pow256(a + b) == Pow256(a) * Pow256(b)
  {
    if a > 0 {
      Pow256Add(a - 1, b);
      assert Pow256(a + b) == 256 * Pow256(a - 1 + b);
    }
  }

  // ---------------------------------------------------------------------
  // Big-endian

  /** `int.from_bytes(b, byteorder="big")` */
  function UnsignedBE(b: seq<Byte>): (r: nat)
    ensures r < Pow256(|b|)
  {
    if |b| == 0 then 0
    else
      var hi := UnsignedBE(b[..|b| - 1]);
      assert hi <= Pow256(|b| - 1) - 1;
      assert hi * 256 <= Pow256(|b|) - 256;
      hi * 256 + b[|b| - 1]
  }

  /** The n-byte big-endian representation of v (`struct.pack(">H")` for
      n = 2, `struct.pack(">L")` for n = 4, once the range check passed). */
  function PackBE(v: nat, n: nat): (r: seq<Byte>)
    requires v < Pow256(n)
    ensures |r| == n
  {
    if n == 0 then []
    else
      assert v / 256 < Pow256(n - 1);
      PackBE(v / 256, n - 1) + [v % 256]
  }

  lemma {:induction false} UnpackPackBE(v: nat, n: nat)
    requires v < Pow256(n)
    ensures UnsignedBE(PackBE(v, n)) == v
  {
    if n > 0 {
      var p := PackBE(v, n);
      assert p[..n - 1] == PackBE(v / 256, n - 1);
      UnpackPackBE(v / 256, n - 1);
    }
  }

  lemma {:induction false} PackUnpackBE(b: seq<Byte>)
    ensures PackBE(UnsignedBE(b), |b|) == b
  {
    if |b| > 0 {
      var hi := UnsignedBE(b[..|b| - 1]);
      PackUnpackBE(b[..|b| - 1]);
      assert (hi * 256 + b[|b| - 1]) / 256 == hi;
      assert (hi * 256 + b[|b| - 1]) % 256 == b[|b| - 1];
    }
  }

  // ---------------------------------------------------------------------
  // Little-endian

  /** `int.from_bytes(b, byteorder="little", signed=False)`; the empty string is 0. */
  function UnsignedLE(b: seq<Byte>): (r: nat)
    ensures r < Pow256(|b|)
  {
    if |b| == 0 then 0
    else
      var rest := UnsignedLE(b[1..]);
      assert rest * 256 <= Pow256(|b|) - 256;
      b[0] + 256 * rest
  }

  /** The most significant byte dominates the little-endian value. */
  lemma {:induction false} UnsignedLETop(b: seq<Byte>)
    requires |b| > 0
    ensures UnsignedLE(b) == UnsignedLE(b[..|b| - 1]) + Pow256(|b| - 1) * b[|b| - 1]
  {
    if |b| > 1 {
      var rest := b[1..];
      var init := b[..|b| - 1];
      var top := b[|b| - 1];
      UnsignedLETop(rest);
      assert rest[..|rest| - 1] == init[1..];
      assert rest[|rest| - 1] == top;
      assert init[0] == b[0];
      assert UnsignedLE(b) == b[0] + 256 * UnsignedLE(rest);
      assert UnsignedLE(init) == b[0] + 256 * UnsignedLE(init[1..]);
      assert Pow256(|b| - 1) == 256 * Pow256(|b| - 2);
      Distribute256(b[0], UnsignedLE(init[1..]), Pow256(|b| - 2), top);
    }
  }

  lemma Distribute256(a: int, x: int, p: int, t: int)
    ensures a + 256 * (x + p * t) == (a + 256 * x) + (256 * p) * t
  {
  }

  /** Half the range of an n-byte field: signed n-byte values lie in
      [-Half(n), Half(n)). */
  function Half(n: nat): int
  {
    Pow256(n) / 2
  }

  lemma MulMono(p: nat, a: int, b: int)
    requires a <= b
    ensures p * a <= p * b
  {
  }

  /** The top byte decides whether the unsigned value reaches the upper half. */
  lemma TopByteSign(b: seq<Byte>)
    requires |b| > 0
    ensures Half(|b|) == 128 * Pow256(|b| - 1)
    ensures UnsignedLE(b) >= Half(|b|) <==> b[|b| - 1] >= 128
  {
    UnsignedLETop(b);
    var lo := UnsignedLE(b[..|b| - 1]);
    var p := Pow256(|b| - 1);
    var t := b[|b| - 1];
    assert Pow256(|b|) == 2 * (128 * p);
    assert Half(|b|) == 128 * p;
    assert UnsignedLE(b) == lo + p * t;
    if t >= 128 {
      MulMono(p, 128, t);
    } else {
      MulMono(p, t, 127);
      assert p * 127 + p == 128 * p;
    }
  }

  /** `int.from_bytes(b, byteorder="little", signed=True)`: two's complement
      over all |b| bytes; the empty string is 0. */
  function SignedLE(b: seq<Byte>): (r: int)
    ensures |b| == 0 ==> r == 0
    ensures |b| > 0 ==> -Half(|b|) <= r < Half(|b|)
    ensures |b| > 0 ==> (r < 0 <==> b[|b| - 1] >= 128)
    ensures r == UnsignedLE(b) || r == UnsignedLE(b) - Pow256(|b|)
  {
    if |b| == 0 then 0
    else
      TopByteSign(b);
      if b[|b| - 1] >= 128 then UnsignedLE(b) - Pow256(|b|) else UnsignedLE(b)
  }

  /** The n-byte little-endian representation of v, v < 256^n. */
  function PackLE(v: nat, n: nat): (r: seq<Byte>)
    requires v < Pow256(n)
    ensures |r| == n
  {
    if n == 0 then []
    else
      assert v / 256 < Pow256(n - 1);
      [v % 256] + PackLE(v / 256, n - 1)
  }

  lemma {:induction false} UnpackPackLE(v: nat, n: nat)
    requires v < Pow256(n)
    ensures UnsignedLE(PackLE(v, n)) == v
  {
    if n > 0 {
      var p := PackLE(v, n);
      assert p[1..] == PackLE(v / 256, n - 1);
      UnpackPackLE(v / 256, n - 1);
    }
  }

  /** Packing the value of a byte string gives the byte string back. */
  lemma {:induction false} PackUnpackLE(b: seq<Byte>)
    ensures PackLE(UnsignedLE(b), |b|) == b
  {
    if |b| > 0 {
      var v := UnsignedLE(b);
      var rest := UnsignedLE(b[1..]);
      assert v % 256 == b[0] && v / 256 == rest;
      PackUnpackLE(b[1..]);
      assert PackLE(v, |b|) == [b[0]] + PackLE(rest, |b| - 1);
      assert [b[0]] + b[1..] == b;
    }
  }

  /** Raised by `int.to_bytes` when the value does not fit. */
  datatype OverflowError = OverflowError

  /** `v.to_bytes(n, "little", signed=True)` */
  function ToSignedLE(v: int, n: nat): (r: Result<seq<Byte>, OverflowError>)
    ensures r.Success? <==> (n > 0 && -Half(n) <= v < Half(n)) || (n == 0 && v == 0)
    ensures r.Success? ==> |r.value| == n
  {
    if n == 0 then (if v == 0 then Success([]) else Failure(OverflowError))
    else if -Half(n) <= v < Half(n) then
      Success(PackLE(if v < 0 then v + Pow256(n) else v, n))
    else Failure(OverflowError)
  }

  /** Decoding what `to_bytes(..., signed=True)` produced gives the value back. */
  lemma SignedLERoundTrip(v: int, n: nat)
    requires ToSignedLE(v, n).Success?
    ensures SignedLE(ToSignedLE(v, n).value) == v
  {
    if n > 0 {
      var u := if v < 0 then v + Pow256(n) else v;
      UnpackPackLE(u, n);
    }
  }

  /** Every non-empty byte string is the signed encoding of its own signed
      value: `to_bytes` inverts `from_bytes` at the same width. */
  lemma SignedLEInverse(b: seq<Byte>)
    requires |b| > 0
    ensures ToSignedLE(SignedLE(b), |b|) == Success(b)
  {
    TopByteSign(b);
    PackUnpackLE(b);
  }
}
