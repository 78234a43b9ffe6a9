/** De-framing a captured byte stream (script/decode_pcap.py): each
    direction's payload bytes are appended to a buffer, and complete frames
    are cut off its front until one is missing or empty. */
module DecodePcap {
  import opened Results
  import opened Bytes
  import Codec

  /** `read_message(buffer)`: the frame content (or None) and the buffer
      as the call leaves it. */
  function ReadMessage(buffer: seq<Byte>): (r: (Option<seq<Byte>>, seq<Byte>))
    ensures r.0.None? <==> |buffer| < 4 || |buffer| - 4 < UnsignedBE(buffer[..4])
    ensures r.0.None? ==> r.1 == buffer
    ensures r.0.Some? ==> |r.0.value| == UnsignedBE(buffer[..4]) && buffer == buffer[..4] + r.0.value + r.1
  {
    match Codec.Deframe(buffer)
    case None => (None, buffer)
    case Some((frame, rest)) => (Some(frame), rest)
  }

  /** A frame content with its 4-byte big-endian length in front. */
  function Framed(m: seq<Byte>): (r: seq<Byte>)
    requires |m| < Pow256(4)
    ensures |r| == 4 + |m| && UnsignedBE(r[..4]) == |m| && r[4..] == m
  {
    UnpackPackBE(|m|, 4);
    assert (PackBE(|m|, 4) + m)[..4] == PackBE(|m|, 4);
    PackBE(|m|, 4) + m
  }

  predicate Fits(msgs: seq<seq<Byte>>)
  {
    forall i :: 0 <= i < |msgs| ==> |msgs[i]| < Pow256(4)
  }

  /** The frames of msgs, one after another. */
  function Join(msgs: seq<seq<Byte>>): (r: seq<Byte>)
    requires Fits(msgs)
    ensures |r| >= 4 * |msgs|
  {
    if |msgs| == 0 then [] else Join(msgs[..|msgs| - 1]) + Framed(msgs[|msgs| - 1])
  }

  lemma JoinSnoc(msgs: seq<seq<Byte>>, m: seq<Byte>)
    requires Fits(msgs) && |m| < Pow256(4)
    ensures Fits(msgs + [m]) && Join(msgs + [m]) == Join(msgs) + Framed(m)
  {
    assert (msgs + [m])[..|msgs|] == msgs;
  }

  /** One more frame moves from the unread rest to the collected list. */
  lemma TakeFrame(buffer: seq<Byte>, msgs: seq<seq<Byte>>, rest: seq<Byte>, m: seq<Byte>, after: seq<Byte>)
    requires Fits(msgs) && |m| < Pow256(4)
    requires buffer == Join(msgs) + rest && rest == Framed(m) + after
    ensures Fits(msgs + [m]) && buffer == Join(msgs + [m]) + after
  {
    JoinSnoc(msgs, m);
  }

  /** A buffer starting with a 4-byte prefix is that prefix's framing. */
  lemma PrefixIsFramed(buffer: seq<Byte>, m: seq<Byte>, rest: seq<Byte>)
    requires |buffer| >= 4 && |m| == UnsignedBE(buffer[..4]) && buffer == buffer[..4] + m + rest
    ensures buffer == Framed(m) + rest
  {
    PackUnpackBE(buffer[..4]);
  }

  /** What an empty frame leaves consumed when it stops the loop. */
  function StopMark(stoppedOnEmpty: bool): seq<Byte>
  {
    if stoppedOnEmpty then Framed([]) else []
  }

  lemma EmptyFrameStops(buffer: seq<Byte>, done: seq<Byte>, rest: seq<Byte>, m: seq<Byte>, after: seq<Byte>)
    requires |m| == 0 && buffer == done + rest && rest == Framed(m) + after
    ensures buffer == done + StopMark(true) + after
  {
    assert m == [];
  }

  /** The `while msg := read_message(buffer)` loop: collects the frames cut
      off the front, and stops at the first missing frame or at the first
      empty one, whose 4-byte prefix has then already been consumed. */
  method Drain(buffer: seq<Byte>) returns (msgs: seq<seq<Byte>>, rest: seq<Byte>, stoppedOnEmpty: bool)
    ensures Fits(msgs)
    ensures forall i :: 0 <= i < |msgs| ==> |msgs[i]| > 0
    ensures buffer == Join(msgs) + StopMark(stoppedOnEmpty) + rest
    ensures !stoppedOnEmpty ==> ReadMessage(rest).0.None?
  {
    msgs, rest, stoppedOnEmpty := [], buffer, false;
    while true
      invariant Fits(msgs)
      invariant forall i :: 0 <= i < |msgs| ==> |msgs[i]| > 0
      invariant buffer == Join(msgs) + rest
      invariant !stoppedOnEmpty
      decreases |rest|
    {
      var r := ReadMessage(rest);
      if r.0.None? {
        assert StopMark(false) == [];
        assert buffer == Join(msgs) + StopMark(false) + rest;
        return;
      }
      var m, after := r.0.value, r.1;
      PrefixIsFramed(rest, m, after);
      if |m| == 0 {
        EmptyFrameStops(buffer, Join(msgs), rest, m, after);
        rest, stoppedOnEmpty := after, true;
        return;
      }
      TakeFrame(buffer, msgs, rest, m, after);
      msgs, rest := msgs + [m], after;
    }
  }

  /** Reading back what was framed: a buffer of non-empty frames followed by
      an incomplete tail yields exactly those frames and keeps the tail. */
  lemma {:induction false} ReadJoined(msgs: seq<seq<Byte>>, tail: seq<Byte>)
    requires Fits(msgs) && |msgs| > 0
    ensures ReadMessage(Join(msgs) + tail) == (Some(msgs[0]), Join(msgs[1..]) + tail)
  {
    if |msgs| == 1 {
      assert msgs[1..] == [];
      assert Join(msgs) == Framed(msgs[0]);
      var b := Framed(msgs[0]) + tail;
      assert b[..4] == Framed(msgs[0])[..4];
      assert b[4..4 + |msgs[0]|] == msgs[0];
      assert b[4 + |msgs[0]|..] == tail;
      var r := ReadMessage(b);
      assert r.0.Some?;
      var v := r.0.value;
      assert b[..4] + v + r.1 == b;
      assert v == (b[..4] + v + r.1)[4..4 + |v|];
      assert r.1 == (b[..4] + v + r.1)[4 + |v|..];
      assert v == msgs[0];
      assert r.1 == tail;
      assert Join(msgs[1..]) == [];
      assert Join(msgs) + tail == b;
      assert Join(msgs[1..]) + tail == tail;
      assert r == (Some(msgs[0]), tail);
    } else {
      var init := msgs[..|msgs| - 1];
      var last := msgs[|msgs| - 1];
      assert Fits(init);
      assert Join(msgs) + tail == Join(init) + (Framed(last) + tail);
      ReadJoined(init, Framed(last) + tail);
      assert init[0] == msgs[0];
      assert init[1..] == msgs[1..][..|msgs| - 2];
      var tl := msgs[1..];
      assert tl[..|tl| - 1] == init[1..] && tl[|tl| - 1] == last;
      assert Join(tl) == Join(init[1..]) + Framed(last);
      assert Join(init[1..]) + (Framed(last) + tail) == Join(tl) + tail;
    }
  }
}
