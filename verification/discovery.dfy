/** Bridge discovery over UDP (`BridgeDiscoveryProtocol` in
    aiocomfoconnect/discovery.py) as a state machine. The events are the
    transport opening, received datagrams and the timeout timer firing. The
    protobuf parser of the responses is a parameter. */
module Discovery {
  import opened Results
  import opened Bytes
  import Hex
  import Bridge

  /** The search request, also echoed back to the sender on a broadcast. */
  const REQUEST: seq<Byte> := [0x0A, 0x00]

  /** The two fields of a search response the protocol reads. */
  datatype Response = Response(ipaddress: string, uuid: seq<Byte>)

  /** A discovered bridge: its host and its uuid in hex. */
  datatype Found = Found(host: string, uuid: string)

  /** A datagram sent: payload, host and port. */
  datatype Sent = Sent(payload: seq<Byte>, host: string, port: nat)

  /** `_target`, `_bridges`, whether the timeout is still armed and the
      transport open, and the result the future was completed with. */
  datatype State = State(
    target: Option<string>,
    bridges: seq<Found>,
    timerArmed: bool,
    transportOpen: bool,
    result: Option<seq<Found>>)

  /** The future already had a result (InvalidStateError), or the parser
      rejected a datagram. */
  datatype DiscoveryError = InvalidState | ParseError

  /** Python's `if self._target:` — None and the empty string are false. */
  predicate Targeted(s: State)
  {
    s.target.Some? && s.target.value != ""
  }

  /** `__init__`: no bridges yet, the timeout armed, no transport. */
  function Init(target: Option<string>): (s: State)
    ensures s.bridges == [] && s.timerArmed && !s.transportOpen && s.result.None?
  {
    State(target, [], true, false, None)
  }

  /** `connection_made`: the request goes to the target on the bridge port,
      or to the broadcast address when there is no target. */
  function ConnectionMade(s: State): (r: (State, Sent))
    ensures r.0 == s.(transportOpen := true)
    ensures r.1.payload == REQUEST && r.1.port == Bridge.PORT
    ensures r.1.host == (if Targeted(s) then s.target.value else "<broadcast>")
  {
    var host := if Targeted(s) then s.target.value else "<broadcast>";
    (s.(transportOpen := true), Sent([0x0A, 0x00], host, Bridge.PORT))
  }

  /** `disconnect`: the transport is closed and the future completed with
      the bridges found so far; a second completion raises. */
  function Disconnect(s: State): (r: Result<State, DiscoveryError>)
    ensures r.Failure? <==> s.result.Some?
    ensures r.Failure? ==> r.error == InvalidState
    ensures r.Success? ==> r.value == s.(transportOpen := false, result := Some(s.bridges))
  {
    if s.result.Some? then Failure(InvalidState)
    else Success(s.(transportOpen := false, result := Some(s.bridges)))
  }

  /** `datagram_received`: the echoed request is ignored; anything else is
      parsed and appended as one bridge; with a target, the timer is
      cancelled and discovery ends at once. */
  function DatagramReceived(s: State, parse: seq<Byte> -> Option<Response>, data: seq<Byte>): (r: Result<State, DiscoveryError>)
    ensures data == REQUEST ==> r == Success(s)
    ensures data != REQUEST && parse(data).None? ==> r == Failure(ParseError)
    ensures data != REQUEST && parse(data).Some? && !Targeted(s) ==>
      r == Success(s.(bridges := s.bridges + [Found(parse(data).value.ipaddress, Hex.ToHex(parse(data).value.uuid))]))
    ensures data != REQUEST && parse(data).Some? && Targeted(s) && s.result.None? ==>
      r.Success? && r.value.result == Some(s.bridges + [Found(parse(data).value.ipaddress, Hex.ToHex(parse(data).value.uuid))])
      && !r.value.timerArmed && !r.value.transportOpen
  {
    if data == REQUEST then Success(s)
    else
      match parse(data)
      case None => Failure(ParseError)
      case Some(resp) =>
        var s1 := s.(bridges := s.bridges + [Found(resp.ipaddress, Hex.ToHex(resp.uuid))]);
        if Targeted(s1) then Disconnect(s1.(timerArmed := false)) else Success(s1)
  }

  /** The timeout firing: `disconnect`, unless it was cancelled. */
  function TimerFired(s: State): (r: Result<State, DiscoveryError>)
    ensures !s.timerArmed ==> r == Success(s)
    ensures s.timerArmed && s.result.None? ==>
      r == Success(s.(timerArmed := false, transportOpen := false, result := Some(s.bridges)))
  {
    if !s.timerArmed then Success(s) else Disconnect(s.(timerArmed := false))
  }

  datatype Event = Datagram(data: seq<Byte>) | Timeout

  /** Once the result is set, the transport is closed and the timer gone. */
  predicate Settled(s: State)
  {
    s.result.Some? ==> !s.transportOpen && !s.timerArmed
  }

  /** One event. A closed transport delivers no datagrams; a datagram whose
      parse raises leaves the state as it was (the event loop logs the
      exception). */
  function Next(s: State, parse: seq<Byte> -> Option<Response>, e: Event): (r: State)
    requires Settled(s)
    ensures Settled(r) && r.target == s.target
    ensures s.result.Some? ==> r == s
  {
    match e
    case Datagram(data) =>
      if !s.transportOpen then s
      else (match DatagramReceived(s, parse, data) case Success(t) => t case Failure(_) => s)
    case Timeout =>
      match TimerFired(s) case Success(t) => t case Failure(_) => s
  }

  /** Events in arrival order. */
  function Run(s: State, parse: seq<Byte> -> Option<Response>, events: seq<Event>): (r: State)
    requires Settled(s)
    ensures Settled(r)
    ensures r.target == s.target
    ensures s.result.Some? ==> r == s
    decreases |events|
  {
    if |events| == 0 then s
    else Run(Next(s, parse, events[0]), parse, events[1..])
  }

  /** The bridges the accepted datagrams describe, in order, up to the
      first timeout. */
  function Accepted(parse: seq<Byte> -> Option<Response>, events: seq<Event>): seq<Found>
  {
    if |events| == 0 || events[0].Timeout? then []
    else
      var data := events[0].data;
      var here := if data != REQUEST && parse(data).Some?
                  then [Found(parse(data).value.ipaddress, Hex.ToHex(parse(data).value.uuid))] else [];
      here + Accepted(parse, events[1..])
  }

  /** Without a target, every accepted datagram is appended in arrival
      order, and the result appears only with the timeout, holding all of
      them (possibly none). */
  lemma {:induction false} UntargetedCollectsAll(s: State, parse: seq<Byte> -> Option<Response>, events: seq<Event>)
    requires !Targeted(s) && s.transportOpen && s.timerArmed && s.result.None?
    ensures var r := Run(s, parse, events);
      && (r.result.Some? <==> Timeout in events)
      && r.bridges == s.bridges + Accepted(parse, events)
      && (r.result.Some? ==> r.result.value == r.bridges)
    decreases |events|, 1
  {
    if |events| > 0 {
      var e := events[0];
      var t := Next(s, parse, e);
      assert Run(s, parse, events) == Run(t, parse, events[1..]);
      assert Timeout in events <==> e == Timeout || Timeout in events[1..];
      if e.Timeout? {
        assert t == s.(timerArmed := false, transportOpen := false, result := Some(s.bridges));
        ClosedIsFinal(t, parse, events[1..]);
        assert Accepted(parse, events) == [];
        assert s.bridges + [] == s.bridges;
      } else {
        UntargetedStep(s, parse, e.data, events[1..]);
      }
    }
  }

  /** The datagram case of UntargetedCollectsAll. */
  lemma {:induction false} UntargetedStep(s: State, parse: seq<Byte> -> Option<Response>, data: seq<Byte>, rest: seq<Event>)
    requires !Targeted(s) && s.transportOpen && s.timerArmed && s.result.None?
    ensures var r := Run(s, parse, [Datagram(data)] + rest);
      && (r.result.Some? <==> Timeout in rest)
      && r.bridges == s.bridges + Accepted(parse, [Datagram(data)] + rest)
      && (r.result.Some? ==> r.result.value == r.bridges)
    decreases |rest| + 1, 0
  {
    var events := [Datagram(data)] + rest;
    assert events[0] == Datagram(data) && events[1..] == rest;
    var t := Next(s, parse, Datagram(data));
    assert Run(s, parse, events) == Run(t, parse, rest);
    if data == REQUEST || parse(data).None? {
      assert t == s;
      assert Accepted(parse, events) == [] + Accepted(parse, rest);
      UntargetedCollectsAll(s, parse, rest);
      assert [] + Accepted(parse, rest) == Accepted(parse, rest);
    } else {
      var f := Found(parse(data).value.ipaddress, Hex.ToHex(parse(data).value.uuid));
      assert t == s.(bridges := s.bridges + [f]);
      assert Accepted(parse, events) == [f] + Accepted(parse, rest);
      UntargetedCollectsAll(t, parse, rest);
      assert s.bridges + [f] + Accepted(parse, rest) == s.bridges + ([f] + Accepted(parse, rest));
    }
  }

  /** After the result is set nothing changes any more. */
  lemma ClosedIsFinal(s: State, parse: seq<Byte> -> Option<Response>, events: seq<Event>)
    requires Settled(s) && s.result.Some?
    ensures Run(s, parse, events) == s
  {
  }

  /** A datagram that does not add a bridge: the echo, or one the parser
      rejects. */
  predicate Ignorable(parse: seq<Byte> -> Option<Response>, e: Event)
  {
    e.Datagram? && (e.data == REQUEST || parse(e.data).None?)
  }

  /** With a target, the first response that parses ends discovery with
      exactly that one bridge; whatever comes after it is not seen. */
  lemma {:induction false} TargetStopsAtFirstResponse(
    s: State, parse: seq<Byte> -> Option<Response>, quiet: seq<Event>, data: seq<Byte>, rest: seq<Event>)
    requires Targeted(s) && s.transportOpen && s.timerArmed && s.result.None? && s.bridges == []
    requires forall i :: 0 <= i < |quiet| ==> Ignorable(parse, quiet[i])
    requires data != REQUEST && parse(data).Some?
    ensures Run(s, parse, quiet + [Datagram(data)] + rest).result
      == Some([Found(parse(data).value.ipaddress, Hex.ToHex(parse(data).value.uuid))])
    decreases |quiet|
  {
    var events := quiet + [Datagram(data)] + rest;
    if |quiet| == 0 {
      assert events[0] == Datagram(data) && events[1..] == rest;
      var t := DatagramReceived(s, parse, data).value;
      assert [] + [Found(parse(data).value.ipaddress, Hex.ToHex(parse(data).value.uuid))]
        == [Found(parse(data).value.ipaddress, Hex.ToHex(parse(data).value.uuid))];
      ClosedIsFinal(t, parse, rest);
    } else {
      assert events[0] == quiet[0] && events[1..] == quiet[1..] + [Datagram(data)] + rest;
      assert Ignorable(parse, quiet[0]);
      TargetStopsAtFirstResponse(s, parse, quiet[1..], data, rest);
    }
  }
}
