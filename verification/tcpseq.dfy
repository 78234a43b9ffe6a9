/** Modulo-2^32 sequence-number arithmetic of the vendored TCP session
    helper (script/tcpsession/tcpsession.py), after section 3.3 of RFC 793.
    Sequence numbers are Python integers: a negative one stands for "no
    sequence number yet" and makes the helpers answer None. */
module TcpSeq {
  import opened Results

  const MAX_SEQ_NUM: int := 0xFFFF_FFFF
  const SEQ_NUM_MOD: int := 0x1_0000_0000
  /** The largest window: 0xFFFF scaled by the largest shift, 14. */
  const MAX_WINDOW: int := 0xFFFF * 0x4000

  predicate InRange(x: int)
  {
    0 <= x < SEQ_NUM_MOD
  }

  /** `inc_tcp_seq_number`: the successor `step` steps ahead, wrapping
      modulo 2^32. Dafny's `%` agrees with Python's for the positive
      modulus. */
  function Inc(cur: int, step: int): (r: Option<int>)
    ensures r.None? <==> cur < 0
    ensures r.Some? ==> InRange(r.value)
    ensures r.Some? ==> exists k: int :: r.value == cur + step + k * SEQ_NUM_MOD
  {
    if cur < 0 then None
    else
      var v := (cur + step) % SEQ_NUM_MOD;
      assert v == cur + step + (-((cur + step) / SEQ_NUM_MOD)) * SEQ_NUM_MOD;
      Some(v)
  }

  /** `seq_numbers_diff`: how far `end` lies ahead of `start`, counting
      forward around the circle. */
  function Diff(start: int, end: int): (r: Option<int>)
    ensures r.None? <==> start < 0 || end < 0
    ensures r.Some? && InRange(start) && InRange(end) ==>
      InRange(r.value) && Inc(start, r.value) == Some(end)
  {
    if start < 0 || end < 0 then None
    else if start > end then
      var d := end + (SEQ_NUM_MOD - start);
      assert start + d == end + SEQ_NUM_MOD;
      Some(d)
    else Some(end - start)
  }

  /** The forward distance is the only one in range that reaches `end`. */
  lemma DiffUnique(start: int, end: int, d: int)
    requires InRange(start) && InRange(end) && InRange(d)
    requires Inc(start, d) == Some(end)
    ensures Diff(start, end) == Some(d)
  {
    var k: int :| end == start + d + k * SEQ_NUM_MOD;
    assert -2 * SEQ_NUM_MOD < k * SEQ_NUM_MOD < SEQ_NUM_MOD;
  }

  /** `tcp_seq_number_in_window`: None for an oversized window or a
      negative start; otherwise whether `inSeq` lies in the `win` numbers
      starting at `start`, split in two when the window wraps. */
  function InWindow(start: int, inSeq: int, win: int): (r: Option<bool>)
    ensures r.None? <==> win > MAX_WINDOW || start < 0
  {
    if win > MAX_WINDOW then None
    else
      match Inc(start, win)
      case None => None
      case Some(end) =>
        if end >= start then Some(start <= inSeq < end)
        else Some(start <= inSeq <= MAX_SEQ_NUM || inSeq < end)
  }

  /** For sequence numbers in range and a window that is not negative, the
      test is exactly "the forward distance from start is below the
      window", wrap-around included. */
  lemma InWindowIsForwardDistance(start: int, inSeq: int, win: int)
    requires InRange(start) && InRange(inSeq) && 0 <= win <= MAX_WINDOW
    ensures InWindow(start, inSeq, win) == Some(Diff(start, inSeq).value < win)
  {
    var end := Inc(start, win).value;
    if start + win < SEQ_NUM_MOD {
      assert end == start + win;
    } else {
      assert end == start + win - SEQ_NUM_MOD;
    }
  }

  /** An empty window holds nothing; the full default window holds the
      start itself. */
  lemma WindowHoldsStart(start: int, win: int)
    requires InRange(start) && 0 < win <= MAX_WINDOW
    ensures InWindow(start, start, win) == Some(true)
    ensures InWindow(start, start, 0) == Some(false)
  {
    InWindowIsForwardDistance(start, start, win);
    InWindowIsForwardDistance(start, start, 0);
  }
}
