/** Connection tracking of the vendored TCP session helper
    (script/tcpsession/tcpsession.py): the direction-insensitive
    `NetworkTuple`, and the opening part of `TCPSession._process` — reset,
    unacceptable SYN, a new session and the three-way handshake — together
    with the reset `process_pkts` applies once both sides are closed.
    Packets arrive already decoded; the data-transfer and teardown branches
    are outside this model and show up as `Beyond`. */
module TcpSession {
  import opened Results
  import opened Bytes
  import TcpSeq
  import TcpOptions

  // ---------------------------------------------------------------------
  // NetworkTuple

  /** Addresses are the packed 4-byte IPv4 addresses; ports and protocol
      are numbers. */
  datatype NetworkTuple = NetworkTuple(sip: seq<Byte>, dip: seq<Byte>, sp: int, dp: int, proto: int)

  /** The same connection seen from the other end. */
  function Reversed(t: NetworkTuple): NetworkTuple
  {
    NetworkTuple(t.dip, t.sip, t.dp, t.sp, t.proto)
  }

  /** `NetworkTuple.__eq__`: field by field, or with the two ends swapped. */
  predicate Equal(a: NetworkTuple, b: NetworkTuple)
    ensures Equal(a, b) ==> a.proto == b.proto
    ensures Equal(a, b) ==> multiset{a.sip, a.dip} == multiset{b.sip, b.dip}
  {
    || (a.sip == b.sip && a.dip == b.dip && a.sp == b.sp && a.dp == b.dp && a.proto == b.proto)
    || (a.sip == b.dip && a.dip == b.sip && a.sp == b.dp && a.dp == b.sp && a.proto == b.proto)
  }

  /** Two tuples are equal exactly when one is the other or its reverse;
      so equality is reflexive and symmetric. */
  lemma EqualIsSameOrReversed(a: NetworkTuple, b: NetworkTuple)
    ensures Equal(a, b) <==> b == a || b == Reversed(a)
    ensures Reversed(Reversed(a)) == a
    ensures Equal(a, b) <==> Equal(b, a)
    ensures Equal(a, a)
  {
  }

  /** The tuple whose string form `__hash__` hashes: the tuple itself when
      its source end (address as a big-endian number, then port) is the
      smaller one, the reversed tuple otherwise. `struct.unpack(">I")`
      fails on an address that is not 4 bytes long. The hash of a string
      is modelled by the string, which determines it. */
  function HashKey(t: NetworkTuple): (r: Option<NetworkTuple>)
    ensures r.None? <==> |t.sip| != 4 || |t.dip| != 4
    ensures r.Some? ==> r.value == t || r.value == Reversed(t)
    ensures r.Some? ==> EndBefore(r.value.sip, r.value.sp, r.value.dip, r.value.dp)
  {
    if |t.sip| != 4 || |t.dip| != 4 then None
    else
      var s := UnsignedBE(t.sip);
      var d := UnsignedBE(t.dip);
      if s < d then Some(t)
      else if s == d && t.sp <= t.dp then Some(t)
      else Some(Reversed(t))
  }

  /** (address, port) ordering of two ends. */
  predicate EndBefore(ip1: seq<Byte>, port1: int, ip2: seq<Byte>, port2: int)
  {
    UnsignedBE(ip1) < UnsignedBE(ip2) || (UnsignedBE(ip1) == UnsignedBE(ip2) && port1 <= port2)
  }

  /** Equal tuples hash alike, and tuples that hash alike are equal: the
      hash is a key for the direction-insensitive equality. */
  lemma HashMatchesEquality(a: NetworkTuple, b: NetworkTuple)
    requires |a.sip| == 4 && |a.dip| == 4 && |b.sip| == 4 && |b.dip| == 4
    ensures Equal(a, b) <==> HashKey(a) == HashKey(b)
  {
    if UnsignedBE(a.sip) == UnsignedBE(a.dip) {
      PackUnpackBE(a.sip);
      PackUnpackBE(a.dip);
    }
    if UnsignedBE(b.sip) == UnsignedBE(b.dip) {
      PackUnpackBE(b.sip);
      PackUnpackBE(b.dip);
    }
  }

  // ---------------------------------------------------------------------
  // Connection state

  datatype TcpState =
    | Closed | Listening | SynSent | SynReceived | SynAckReceived | SynAckSent
    | Established | FinWait1 | FinWait2 | CloseWait | LastAck | Closing | TimeWait

  /** A decoded packet: source and destination address strings, the 12
      flag bits, sequence and acknowledgement numbers, the raw window, and
      the TCP options by kind (empty when the packet carries none). */
  datatype Packet = Packet(src: string, dst: string, flags: bv16, seqNo: int, ackNo: int, win: int, options: map<int, seq<Byte>>)

  const FIN: bv16 := 0x001
  const SYN: bv16 := 0x002
  const RST: bv16 := 0x004
  const ACK: bv16 := 0x010
  /** FIN, SYN, RST and ACK: the bits the handshake checks compare. */
  const HANDSHAKE_BITS: bv16 := 0x017

  /** The per-side fields of the tracker (`_c_*` / `_s_*`). `last` is the
      packet `_prev_pkt_ind` points at in the current session. */
  datatype Side = Side(
    state: TcpState, seqNo: int, last: Option<Packet>, rcvNext: int,
    winLeftEdge: int, winSize: int, winScale: nat, mss: int)

  function FreshSide(state: TcpState): Side
  {
    Side(state, -1, None, 0, -1, -1, 0, -1)
  }

  /** The tracker: the client address it follows, both sides, the
      packets of each session by number, and the session count. */
  datatype Tracker = Tracker(
    clientIp: string, client: Side, server: Side,
    sessions: map<int, seq<Packet>>, sessionCount: int)

  /** `__init__`: client CLOSED, server LISTENING, no session yet. */
  function Init(clientIp: string): (t: Tracker)
    ensures Consistent(t) && t.sessionCount == 0
    ensures t.client.state == Closed && t.server.state == Listening
  {
    Tracker(clientIp, FreshSide(Closed), FreshSide(Listening), map[], 0)
  }

  /** `__reset_state__`: both sides back to their initial fields; the
      sessions and their count stay. */
  function Reset(t: Tracker): (r: Tracker)
    ensures r.sessions == t.sessions && r.sessionCount == t.sessionCount && r.clientIp == t.clientIp
    ensures r.client.state == Closed && r.server.state == Listening
  {
    t.(client := FreshSide(Closed), server := FreshSide(Listening))
  }

  /** The Python exceptions the modelled branches can raise: a session
      number missing from `sessions`, or no previous client packet. */
  datatype Fault = KeyError | AttributeError

  /** One packet: the new tracker, an exception, or a branch outside this
      model. */
  datatype Step = Done(after: Tracker) | Raised(fault: Fault) | Beyond

  /** The states in which a SYN closes the connection. */
  predicate SynUnacceptable(s: TcpState)
    ensures SynUnacceptable(s) <==>
      s !in {Closed, Listening, SynSent, SynReceived, SynAckReceived, SynAckSent, CloseWait, TimeWait}
  {
    s == Established || s == FinWait1 || s == FinWait2 || s == Closing || s == LastAck
  }

  /** The state pairs handled by the data-transfer and teardown branches. */
  predicate LaterBranch(c: TcpState, s: TcpState)
  {
    || (c == Established && s == Established)
    || (c == FinWait1 && s == Established)
    || (s == FinWait1 && c == Established)
    || c == FinWait2 || s == FinWait2 || c == Closing || s == Closing
  }

  function Pow2(n: nat): (r: nat)
    ensures r >= 1
  {
    if n == 0 then 1 else 2 * Pow2(n - 1)
  }

  /** The current session with `p` appended; `sessions[session_count]`
      raises KeyError when there is no such session. */
  function Append(t: Tracker, p: Packet): (r: Result<map<int, seq<Packet>>, Fault>)
    ensures r.Failure? <==> t.sessionCount !in t.sessions
    ensures r.Success? ==> r.value.Keys == t.sessions.Keys
    ensures r.Success? ==> r.value[t.sessionCount] == t.sessions[t.sessionCount] + [p]
    ensures r.Success? ==> forall k :: k in t.sessions && k != t.sessionCount ==> r.value[k] == t.sessions[k]
  {
    if t.sessionCount in t.sessions then Success(t.sessions[t.sessionCount := t.sessions[t.sessionCount] + [p]])
    else Failure(KeyError)
  }

  /** What a SYN or SYN-ACK teaches about its sender: with options, the
      window scale and MSS each when present (otherwise kept); without
      options, scale 0 and MSS -1. The window is then scaled. */
  function LearnOptions(side: Side, p: Packet): (r: Side)
    ensures r.state == side.state && r.last == side.last && r.seqNo == side.seqNo
    ensures r.rcvNext == side.rcvNext && r.winLeftEdge == side.winLeftEdge
    ensures r.winSize == p.win * Pow2(r.winScale)
    ensures |p.options| == 0 ==> r.winScale == 0 && r.mss == -1
    ensures TcpOptions.KIND_WSCALE as int in p.options ==> r.winScale == UnsignedBE(p.options[TcpOptions.KIND_WSCALE as int])
    ensures TcpOptions.KIND_MSS as int in p.options ==> r.mss == UnsignedBE(p.options[TcpOptions.KIND_MSS as int])
  {
    var s1 :=
      if |p.options| == 0 then side.(winScale := 0, mss := -1)
      else
        var s0 := if TcpOptions.KIND_WSCALE as int in p.options
                  then side.(winScale := UnsignedBE(p.options[TcpOptions.KIND_WSCALE as int])) else side;
        if TcpOptions.KIND_MSS as int in p.options
        then s0.(mss := UnsignedBE(p.options[TcpOptions.KIND_MSS as int])) else s0;
    s1.(winSize := p.win * Pow2(s1.winScale))
  }

  function BothClosed(t: Tracker, sessions: map<int, seq<Packet>>): Tracker
  {
    t.(client := t.client.(state := Closed), server := t.server.(state := Closed), sessions := sessions)
  }

  /** `TCPSession._process` for the reset, unacceptable-SYN, new-session
      and handshake branches. */
  function Process(t: Tracker, p: Packet): (r: Step)
    ensures r.Beyond? ==> LaterBranch(t.client.state, t.server.state)
    ensures r.Raised? ==>
      || (r.fault == KeyError && t.sessionCount !in t.sessions)
      || (r.fault == AttributeError && t.client.last.None?)
    ensures r.Done? ==> r.after.clientIp == t.clientIp
    ensures r.Done? && p.flags & RST != 0 ==> r.after.client.state == Closed && r.after.server.state == Closed
    ensures t.sessionCount != 0 && t.sessionCount !in t.sessions ==> r == Raised(KeyError)
  {
    var fromClient := t.clientIp == p.src;
    // The prologue counts the current session's packets and reads the last
    // packet of each side, all by indexing `sessions[session_count]`.
    if t.sessionCount != 0 && t.sessionCount !in t.sessions then Raised(KeyError)
    else if p.flags & RST != 0 then
      if t.client.state == Closed && t.server.state == Listening then
        var n := t.sessionCount + 1;
        Done(BothClosed(t, t.sessions[n := [p]]).(sessionCount := n))
      else
        match Append(t, p)
        case Failure(e) => Raised(e)
        case Success(sessions) =>
          var c := BothClosed(t, sessions);
          Done(if fromClient then c.(client := c.client.(last := Some(p)))
               else c.(server := c.server.(last := Some(p))))
    else if p.flags & SYN != 0 && (SynUnacceptable(t.client.state) || SynUnacceptable(t.server.state)) then
      match Append(t, p)
      case Failure(e) => Raised(e)
      case Success(sessions) => Done(BothClosed(t, sessions))
    else if t.client.state == Closed && t.server.state == Listening && fromClient then
      if p.flags & HANDSHAKE_BITS == SYN then
        var n := t.sessionCount + 1;
        var client := t.client.(state := SynSent, last := Some(p), seqNo := p.seqNo);
        Done(t.(sessionCount := n, sessions := t.sessions[n := [p]],
                client := LearnOptions(client, p), server := t.server.(state := SynReceived)))
      else Done(t)
    else if t.client.state == SynSent && t.server.state == SynReceived then
      Handshake(t, p)
    else if LaterBranch(t.client.state, t.server.state) then Beyond
    else Done(t)
  }

  /** The (SYN_SENT, SYN_RECEIVED) branch: the server's SYN-ACK must
      acknowledge the client's SYN; the client's ACK must acknowledge the
      SYN-ACK and carry the sequence number the SYN-ACK acknowledged.
      Anything else with the wrong flags closes both sides. */
  function Handshake(t: Tracker, p: Packet): (r: Step)
    requires t.client.state == SynSent && t.server.state == SynReceived
    ensures r.Done? ==> r.after.sessionCount == t.sessionCount && r.after.sessions.Keys == t.sessions.Keys
    ensures r.Done? ==> r.after.clientIp == t.clientIp
    ensures r.Raised? ==>
      || (r.fault == KeyError && t.sessionCount !in t.sessions)
      || (r.fault == AttributeError && t.client.last.None?)
  {
    if t.clientIp == p.dst then
      match t.client.last
      case None => Raised(AttributeError)
      case Some(prevC) =>
        var expAck := TcpSeq.Inc(prevC.seqNo, 1);
        if p.flags & HANDSHAKE_BITS != SYN | ACK then
          match Append(t, p)
          case Failure(e) => Raised(e)
          case Success(sessions) => Done(BothClosed(t, sessions))
        else if expAck == Some(p.ackNo) then
          match Append(t, p)
          case Failure(e) => Raised(e)
          case Success(sessions) =>
            var server := t.server.(last := Some(p), rcvNext := p.ackNo, winLeftEdge := p.ackNo);
            Done(t.(sessions := sessions, server := LearnOptions(server, p)))
        else Done(t)
    else
      match t.server.last
      case None => Done(t)
      case Some(prevS) =>
        var expAck := TcpSeq.Inc(prevS.seqNo, 1);
        if p.flags & HANDSHAKE_BITS == ACK then
          if expAck == Some(p.ackNo) && p.seqNo == prevS.ackNo then
            match Append(t, p)
            case Failure(e) => Raised(e)
            case Success(sessions) =>
              var client := t.client.(state := Established, seqNo := p.seqNo, last := Some(p), rcvNext := p.ackNo,
                                      winLeftEdge := p.ackNo, winSize := p.win * Pow2(t.client.winScale));
              Done(t.(sessions := sessions, client := client, server := t.server.(state := Established)))
          else Done(t)
        else
          match Append(t, p)
          case Failure(e) => Raised(e)
          case Success(sessions) => Done(BothClosed(t, sessions))
  }

  /** One packet of `process_pkts`: `_process`, then a reset once both
      sides are CLOSED (the log line reads the current session first). */
  function Feed(t: Tracker, p: Packet): (r: Step)
    ensures r.Beyond? <==> Process(t, p).Beyond?
    ensures r.Done? ==> !(r.after.client.state == Closed && r.after.server.state == Closed)
    ensures r.Done? ==>
      && Process(t, p).Done? && r.after.clientIp == t.clientIp
      && r.after.sessions == Process(t, p).after.sessions
      && r.after.sessionCount == Process(t, p).after.sessionCount
  {
    match Process(t, p)
    case Done(t1) =>
      if t1.client.state == Closed && t1.server.state == Closed then
        if t1.sessionCount in t1.sessions then Done(Reset(t1)) else Raised(KeyError)
      else Done(t1)
    case other => other
  }

  // ---------------------------------------------------------------------
  // Properties

  /** Sessions are numbered 1..session_count; outside (CLOSED, LISTENING)
      there is a current session; during the handshake the client's SYN is
      known. */
  ghost predicate Consistent(t: Tracker)
  {
    && t.sessionCount >= 0
    && (forall k :: k in t.sessions <==> 1 <= k <= t.sessionCount)
    && (!(t.client.state == Closed && t.server.state == Listening) ==> t.sessionCount >= 1)
    && (t.client.state == SynSent && t.server.state == SynReceived ==> t.client.last.Some?)
  }

  /** From a consistent tracker no modelled branch raises, and the tracker
      stays consistent. */
  lemma FeedKeepsConsistent(t: Tracker, p: Packet)
    requires Consistent(t)
    ensures !Process(t, p).Raised? && (Process(t, p).Done? ==> Consistent(Process(t, p).after))
    ensures !Feed(t, p).Raised? && (Feed(t, p).Done? ==> Consistent(Feed(t, p).after))
  {
  }

  /** A reset closes both sides, whatever the state, and files the packet
      in the current session, or in a new one when none was open. */
  lemma RstClosesBoth(t: Tracker, p: Packet)
    requires Consistent(t) && p.flags & RST != 0
    ensures Process(t, p).Done?
    ensures var a := Process(t, p).after;
      && a.client.state == Closed && a.server.state == Closed
      && a.sessionCount in a.sessions
      && a.sessions[a.sessionCount][|a.sessions[a.sessionCount]| - 1] == p
    ensures Feed(t, p).Done? && Feed(t, p).after.client.state == Closed && Feed(t, p).after.server.state == Listening
  {
  }

  /** A SYN in an established or closing state closes both sides. */
  lemma UnacceptableSynClosesBoth(t: Tracker, p: Packet)
    requires Consistent(t) && p.flags & RST == 0 && p.flags & SYN != 0
    requires SynUnacceptable(t.client.state) || SynUnacceptable(t.server.state)
    ensures Process(t, p).Done?
    ensures var a := Process(t, p).after;
      && a.client.state == Closed && a.server.state == Closed
      && a.sessionCount == t.sessionCount
      && a.sessions[a.sessionCount] == t.sessions[t.sessionCount] + [p]
  {
  }

  /** A session opens exactly when the tracker is in (CLOSED, LISTENING)
      and the packet is a reset, or a bare SYN from the client; it is then
      numbered one past the last, starts with this packet, and a SYN moves
      to (SYN_SENT, SYN_RECEIVED). */
  lemma NewSessionOnlyFromListening(t: Tracker, p: Packet)
    requires Consistent(t)
    ensures var r := Process(t, p);
      (r.Done? && r.after.sessionCount != t.sessionCount) <==>
        (t.client.state == Closed && t.server.state == Listening
         && (p.flags & RST != 0 || (t.clientIp == p.src && p.flags & HANDSHAKE_BITS == SYN)))
    ensures var r := Process(t, p);
      r.Done? && r.after.sessionCount != t.sessionCount ==>
        && r.after.sessionCount == t.sessionCount + 1
        && r.after.sessions == t.sessions[t.sessionCount + 1 := [p]]
        && (p.flags & RST == 0 ==>
              r.after.client.state == SynSent && r.after.server.state == SynReceived && r.after.client.seqNo == p.seqNo)
  {
    if !(t.client.state == Closed && t.server.state == Listening) {
      SessionCountKept(t, p);
    }
  }

  /** Outside (CLOSED, LISTENING) no packet opens a session. */
  lemma SessionCountKept(t: Tracker, p: Packet)
    requires Consistent(t) && !(t.client.state == Closed && t.server.state == Listening)
    ensures Process(t, p).Done? ==> Process(t, p).after.sessionCount == t.sessionCount
  {
    if p.flags & RST == 0 && !(p.flags & SYN != 0 && (SynUnacceptable(t.client.state) || SynUnacceptable(t.server.state)))
       && t.client.state == SynSent && t.server.state == SynReceived {
      assert Process(t, p) == Handshake(t, p);
    }
  }

  /** A packet never changes an earlier session: the sessions before the
      current one keep their packets, and the current one only grows. */
  lemma EarlierSessionsUnchanged(t: Tracker, p: Packet)
    requires Consistent(t) && Process(t, p).Done?
    ensures var a := Process(t, p).after;
      && (forall k :: k in t.sessions && k != t.sessionCount ==> k in a.sessions && a.sessions[k] == t.sessions[k])
      && (t.sessionCount in t.sessions ==>
            t.sessionCount in a.sessions && t.sessions[t.sessionCount] <= a.sessions[t.sessionCount])
  {
  }

  /** The three-way handshake: a SYN from the client, a SYN-ACK from the
      server acknowledging it, and the client's ACK of that, establish both
      sides in one new session holding the three packets, whatever the
      sequence numbers (wrap-around included). */
  lemma HandshakeEstablishes(t: Tracker, syn: Packet, synAck: Packet, ack: Packet)
    requires Consistent(t) && t.client.state == Closed && t.server.state == Listening
    requires syn.src == t.clientIp && syn.flags == SYN && 0 <= syn.seqNo
    requires synAck.dst == t.clientIp && synAck.flags == SYN | ACK && 0 <= synAck.seqNo
    requires synAck.ackNo == TcpSeq.Inc(syn.seqNo, 1).value
    requires ack.src == t.clientIp && ack.dst != t.clientIp && ack.flags == ACK
    requires ack.ackNo == TcpSeq.Inc(synAck.seqNo, 1).value && ack.seqNo == synAck.ackNo
    ensures Feed(t, syn).Done?
    ensures Feed(Feed(t, syn).after, synAck).Done?
    ensures Feed(Feed(Feed(t, syn).after, synAck).after, ack).Done?
    ensures var a := Feed(Feed(Feed(t, syn).after, synAck).after, ack).after;
      && a.client.state == Established && a.server.state == Established
      && a.sessionCount == t.sessionCount + 1
      && a.sessions[a.sessionCount] == [syn, synAck, ack]
      && a.client.rcvNext == ack.ackNo && a.server.rcvNext == synAck.ackNo
  {
    var t1 := Feed(t, syn).after;
    assert t1.client.last == Some(syn);
    var t2 := Feed(t1, synAck).after;
    assert t2.server.last == Some(synAck);
    assert t2.sessions[t2.sessionCount] == [syn, synAck];
  }
}
