/** `aiocomfoconnect.util.bytestring`: joins a list that mixes integers and
    byte strings into one byte string. */
module Util {
  import opened Results
  import opened Bytes

  /** One list element: an integer (one byte) or a `bytes` object. */
  datatype Item = IntItem(n: int) | BytesItem(b: seq<Byte>)

  /** `bytes([n])` raises ValueError unless 0 <= n < 256. */
  datatype ValueError = ValueError

  predicate InByteRange(n: int)
  {
    0 <= n < 256
  }

  predicate Encodable(arr: seq<Item>)
  {
    forall i :: 0 <= i < |arr| && arr[i].IntItem? ==> InByteRange(arr[i].n)
  }

  /** The output length promised for an encodable list: one byte per
      integer plus the length of every bytes element. */
  function OutputLength(arr: seq<Item>): nat
  {
    if |arr| == 0 then 0
    else (if arr[0].IntItem? then 1 else |arr[0].b|) + OutputLength(arr[1..])
  }

  function Bytestring(arr: seq<Item>): (r: Result<seq<Byte>, ValueError>)
    ensures r.Success? <==> Encodable(arr)
    ensures r.Success? ==> |r.value| == OutputLength(arr)
  {
    if |arr| == 0 then Success([])
    else
      var head: Result<seq<Byte>, ValueError> :=
        match arr[0]
        case IntItem(n) => if InByteRange(n) then Success([n]) else Failure(ValueError)
        case BytesItem(b) => Success(b);
      var tail := Bytestring(arr[1..]);
      assert Encodable(arr) <==> head.Success? && Encodable(arr[1..]) by {
        if head.Success? && Encodable(arr[1..]) {
          forall i | 0 <= i < |arr| && arr[i].IntItem? ensures InByteRange(arr[i].n) {
            if i > 0 { assert arr[i] == arr[1..][i - 1]; }
          }
        }
        if Encodable(arr) {
          forall i | 0 <= i < |arr[1..]| && arr[1..][i].IntItem? ensures InByteRange(arr[1..][i].n) {
            assert arr[1..][i] == arr[i + 1];
          }
        }
      }
      if head.Failure? then Failure(ValueError)
      else if tail.Failure? then Failure(ValueError)
      else Success(head.value + tail.value)
  }

  /** `bytes(ns)` for a list of integers. */
  function BytesOf(ns: seq<int>): (r: Result<seq<Byte>, ValueError>)
    ensures r.Success? <==> forall i :: 0 <= i < |ns| ==> InByteRange(ns[i])
    ensures r.Success? ==> r.value == ns
  {
    if forall i :: 0 <= i < |ns| ==> InByteRange(ns[i]) then Success(seq(|ns|, i requires 0 <= i < |ns| => ns[i]))
    else Failure(ValueError)
  }

  function Ints(ns: seq<int>): (r: seq<Item>)
    ensures |r| == |ns|
    ensures forall i :: 0 <= i < |ns| ==> r[i] == IntItem(ns[i])
  {
    seq(|ns|, i requires 0 <= i < |ns| => IntItem(ns[i]))
  }

  /** On a list of integers only, bytestring is `bytes(list)`. */
  lemma {:induction false} BytestringOfInts(ns: seq<int>)
    ensures Bytestring(Ints(ns)) == BytesOf(ns)
  {
    if |ns| > 0 {
      BytestringOfInts(ns[1..]);
      assert Ints(ns)[1..] == Ints(ns[1..]);
      if Bytestring(Ints(ns)).Success? {
        assert Bytestring(Ints(ns)).value == [ns[0]] + ns[1..] == ns;
      }
    }
  }

  /** bytestring distributes over list concatenation: the output is the
      in-order concatenation of the elements' encodings, and a bad element
      anywhere makes the whole call fail. */
  lemma {:induction false} BytestringAppend(a: seq<Item>, b: seq<Item>)
    ensures Bytestring(a + b).Success? <==> Bytestring(a).Success? && Bytestring(b).Success?
    ensures Bytestring(a + b).Success? ==>
              Bytestring(a + b).value == Bytestring(a).value + Bytestring(b).value
  {
    if |a| == 0 {
      assert a + b == b;
    } else {
      assert (a + b)[1..] == a[1..] + b;
      assert (a + b)[0] == a[0];
      BytestringAppend(a[1..], b);
    }
  }

  /** A bytes element is copied verbatim; an integer becomes that one byte. */
  lemma BytestringSingle(it: Item)
    ensures it.BytesItem? ==> Bytestring([it]) == Success(it.b)
    ensures it.IntItem? && InByteRange(it.n) ==> Bytestring([it]) == Success([it.n])
    ensures it.IntItem? && !InByteRange(it.n) ==> Bytestring([it]).Failure?
  {
    assert [it][1..] == [];
    assert Bytestring([]) == Success([]);
    if it.BytesItem? {
      assert it.b + [] == it.b;
    } else if InByteRange(it.n) {
      assert [it.n] + [] == [it.n];
    }
  }
}
