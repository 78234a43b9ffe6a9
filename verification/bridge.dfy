/** The `Bridge` connection of aiocomfoconnect/bridge.py: the reference
    counter and reply table on the sending side, and the status check and
    dispatch of the background reader on the receiving side, and how the
    way the reader ended decides what `disconnect` and `connect` do next.
    Sockets and timeouts are outside the model: opening the connection is
    an outcome given as a parameter, and the reader consumes the bytes the
    peer sends before it closes. */
module Bridge {
  import opened Results
  import opened Bytes
  import Hex
  import opened Codec
  import EventBus
  import Alarms

  /** The TCP port of the bridge (`Bridge.PORT`). */
  const PORT: nat := 56747

  // ---------------------------------------------------------------------
  // Status codes

  /** The error classes `_read` raises for the eight failure codes. */
  datatype ErrorClass =
    | ComfoConnectBadRequest
    | ComfoConnectInternalError
    | ComfoConnectNotReachable
    | ComfoConnectOtherSession
    | ComfoConnectNotAllowed
    | ComfoConnectNoResources
    | ComfoConnectNotExist
    | ComfoConnectRmiError

  /** The status check of `_read`: OK and any unlisted code pass; each
      failure code raises its own class. */
  function ErrorFor(s: Status): (r: Option<ErrorClass>)
    ensures r.None? <==> s == StatusOk || s.UnlistedStatus?
  {
    match s
    case StatusOk => None
    case BadRequest => Some(ComfoConnectBadRequest)
    case InternalError => Some(ComfoConnectInternalError)
    case NotReachable => Some(ComfoConnectNotReachable)
    case OtherSession => Some(ComfoConnectOtherSession)
    case NotAllowed => Some(ComfoConnectNotAllowed)
    case NoResources => Some(ComfoConnectNoResources)
    case NotExist => Some(ComfoConnectNotExist)
    case RmiError => Some(ComfoConnectRmiError)
    case UnlistedStatus(_) => None
  }

  /** The failure code each error class stands for. */
  function StatusOf(e: ErrorClass): (s: Status)
    ensures ErrorFor(s) == Some(e)
  {
    match e
    case ComfoConnectBadRequest => BadRequest
    case ComfoConnectInternalError => InternalError
    case ComfoConnectNotReachable => NotReachable
    case ComfoConnectOtherSession => OtherSession
    case ComfoConnectNotAllowed => NotAllowed
    case ComfoConnectNoResources => NoResources
    case ComfoConnectNotExist => NotExist
    case ComfoConnectRmiError => RmiError
  }

  /** Distinct failure codes raise distinct classes: the class names the
      code it came from. */
  lemma ErrorForIsInjective(s: Status)
    requires ErrorFor(s).Some?
    ensures StatusOf(ErrorFor(s).value) == s
  {
  }

  // ---------------------------------------------------------------------
  // Sending

  /** What a waiter receives: the reply's body, or the error raised for an
      error status (which carries the whole message). */
  datatype Event = Reply(body: Body) | Raised(error: ErrorClass, message: Message)

  /** The background task `_read_messages`: not created yet, still
      reading, ended by returning (or by being cancelled), or ended by an
      exception it does not catch, which the task keeps. */
  datatype Reader = NoTask | Reading | Ended | Failed(crash: Crash)

  /** The bridge as `_send` sees it: whether the writer is open, the next
      reference, the two ids, the reply table, the next fresh future, and
      the reader task. */
  datatype State = State(
    connected: bool,
    reference: nat,
    localUuid: string,
    uuid: string,
    bus: EventBus.Bus<Event>,
    nextFuture: nat,
    reader: Reader)

  /** A bridge object before its first `connect`. */
  function Initial(uuid: string): (s: State)
    ensures !s.connected && s.uuid == uuid && s.reader == NoTask
    ensures s.bus.listeners == map[]
  {
    State(false, 0, "", uuid, EventBus.Empty(), 0, NoTask)
  }

  /** `disconnect`: cancel the reader and await it, then close the writer.
      Awaiting a reader that ended with an exception raises that exception
      again, before the writer is reached, so nothing changes; otherwise
      the reader is over, the writer closed, and the futures still waiting
      stay in the table. */
  function Disconnect(s: State): (r: Result<State, Crash>)
    ensures r.Failure? <==> s.reader.Failed?
    ensures r.Failure? ==> r.error == s.reader.crash
    ensures r.Success? ==>
      && !r.value.connected
      && (r.value.reader.NoTask? <==> s.reader.NoTask?)
      && (r.value.reader.Ended? <==> !s.reader.NoTask?)
      && r.value.(connected := s.connected, reader := s.reader) == s
  {
    match s.reader
    case Failed(c) => Failure(c)
    case NoTask => Success(s.(connected := false))
    case _ => Success(s.(connected := false, reader := Ended))
  }

  /** What `asyncio.open_connection` does within the timeout: connect, time
      out (`asyncio.TimeoutError`), or fail with an OSError such as a
      refused connection. */
  datatype Opening = Opened | OpenTimedOut | OpenFailed

  /** The exceptions `connect` lets out: the reader's exception re-raised
      by `disconnect`, `AioComfoConnectTimeout`, or the OSError. */
  datatype ConnectError = ReaderRaised(crash: Crash) | ConnectTimeout | ConnectOsError

  /** The state after `connect`, and the exception it raised if any. */
  datatype ConnectOutcome = Connected(after: State) | ConnectFailed(after: State, error: ConnectError)

  /** `connect(uuid)`: disconnect, open the connection, then start from
      reference 1 with an empty reply table and a new reader. A failed
      `disconnect` aborts before the network is touched; a failed opening
      leaves the bridge disconnected. */
  function Connect(s: State, localUuid: string, opening: Opening): (r: ConnectOutcome)
    ensures r.Connected? <==> !s.reader.Failed? && opening == Opened
    ensures s.reader.Failed? ==> r == ConnectFailed(s, ReaderRaised(s.reader.crash))
    ensures !s.reader.Failed? && opening != Opened ==>
      && r.ConnectFailed?
      && r.after == Disconnect(s).value
      && r.error == (if opening == OpenTimedOut then ConnectTimeout else ConnectOsError)
    ensures r.Connected? ==>
      && r.after.connected
      && r.after.reader == Reading
      && r.after.reference == 1
      && r.after.localUuid == localUuid
      && r.after.uuid == s.uuid
      && r.after.bus.listeners == map[]
      && r.after.nextFuture == s.nextFuture
  {
    match Disconnect(s)
    case Failure(c) => ConnectFailed(s, ReaderRaised(c))
    case Success(d) =>
      match opening
      case OpenTimedOut => ConnectFailed(d, ConnectTimeout)
      case OpenFailed => ConnectFailed(d, ConnectOsError)
      case Opened =>
        Connected(d.(connected := true, reference := 1, localUuid := localUuid, bus := EventBus.Empty(), reader := Reading))
  }

  /** How a `_send` ends. `EncodeFailed` is an exception from `encode`
      after the listener was registered and before the reference moved. */
  datatype SendOutcome =
    | NotConnected
    | EncodeFailed(after: State, error: EncodeError)
    | Sent(after: State, frame: seq<Byte>, stamped: nat, waiter: Option<nat>)

  /** The message `_send` builds: the header carries the type and the
      current reference, the ids are ours and the bridge's. */
  function Outgoing(s: State, t: OpType, body: Body): (m: Message)
    ensures m.header.opType == t && m.header.reference == s.reference
    ensures m.src == s.localUuid && m.dst == s.uuid && m.body == body
  {
    Message(Header(t, StatusOk, s.reference), body, s.localUuid, s.uuid)
  }

  /** `_send`: refuse when not connected; otherwise register a fresh future
      under the current reference when a reply is expected, write the
      encoded frame, and advance the reference by one. */
  function Send(s: State, cat: Catalog, t: OpType, body: Body, reply: bool): (r: SendOutcome)
    ensures r.NotConnected? <==> !s.connected
    ensures r.EncodeFailed? ==>
      && Encode(cat, Outgoing(s, t, body)).Failure?
      && r.error == Encode(cat, Outgoing(s, t, body)).error
      && r.after.reference == s.reference
    ensures r.Sent? ==>
      && Encode(cat, Outgoing(s, t, body)) == Success(r.frame)
      && r.stamped == s.reference
      && r.after.reference == s.reference + 1
      && r.after.connected
      && (r.waiter.Some? <==> reply)
    ensures !r.NotConnected? ==>
      var a := r.after;
      && a.localUuid == s.localUuid && a.uuid == s.uuid
      && (reply ==> a.bus == EventBus.AddListener(s.bus, s.reference, s.nextFuture))
      && (!reply ==> a.bus == s.bus)
      && a.nextFuture == s.nextFuture + 1
  {
    if !s.connected then NotConnected
    else
      var fut := s.nextFuture;
      var bus := if reply then EventBus.AddListener(s.bus, s.reference, fut) else s.bus;
      var s1 := s.(bus := bus, nextFuture := fut + 1);
      match Encode(cat, Outgoing(s, t, body))
      case Failure(e) => EncodeFailed(s1, e)
      case Success(frame) =>
        Sent(s1.(reference := s.reference + 1), frame, s.reference, if reply then Some(fut) else None)
  }

  /** Requests in a row, stopping at the first one that is not sent; the
      result lists the references stamped on the frames that went out. */
  function SendAll(s: State, cat: Catalog, reqs: seq<(OpType, Body, bool)>): (r: (State, seq<nat>))
    ensures |r.1| <= |reqs|
    ensures forall i :: 0 <= i < |r.1| ==> r.1[i] == s.reference + i
    ensures |r.1| == |reqs| ==> r.0.reference == s.reference + |reqs|
    decreases |reqs|
  {
    if |reqs| == 0 then (s, [])
    else
      match Send(s, cat, reqs[0].0, reqs[0].1, reqs[0].2)
      case Sent(after, _, stamped, _) =>
        var (last, refs) := SendAll(after, cat, reqs[1..]);
        (last, [stamped] + refs)
      case _ => (s, [])
  }

  /** On one connection the references are 1, 2, 3, ... in sending order,
      hence pairwise distinct, whether or not replies are expected. */
  lemma ReferencesAfterConnect(s: State, localUuid: string, cat: Catalog, reqs: seq<(OpType, Body, bool)>)
    requires Connect(s, localUuid, Opened).Connected?
    ensures var refs := SendAll(Connect(s, localUuid, Opened).after, cat, reqs).1;
      && (forall i :: 0 <= i < |refs| ==> refs[i] == i + 1)
      && (forall i, j :: 0 <= i < j < |refs| ==> refs[i] != refs[j])
  {
  }

  /** Every waiting reference is below the counter and has exactly one
      future: the table's shape while every encode succeeds. */
  predicate OneWaiterPerReference(s: State)
  {
    && 0 < s.reference
    && forall k :: k in s.bus.listeners ==> 0 < k < s.reference && |s.bus.listeners[k]| == 1
  }

  lemma ConnectEstablishesOneWaiter(s: State, localUuid: string)
    requires Connect(s, localUuid, Opened).Connected?
    ensures OneWaiterPerReference(Connect(s, localUuid, Opened).after)
  {
  }

  lemma SendKeepsOneWaiter(s: State, cat: Catalog, t: OpType, body: Body, reply: bool)
    requires OneWaiterPerReference(s)
    requires Send(s, cat, t, body, reply).Sent?
    ensures OneWaiterPerReference(Send(s, cat, t, body, reply).after)
  {
    var a := Send(s, cat, t, body, reply).after;
    assert a.reference == s.reference + 1;
    if reply {
      var b := EventBus.AddListener(s.bus, s.reference, s.nextFuture);
      assert a.bus == b;
      assert s.reference !in s.bus.listeners;
      forall k | k in a.bus.listeners
        ensures 0 < k < a.reference && |a.bus.listeners[k]| == 1
      {
        if k == s.reference {
          assert a.bus.listeners[k] == {s.nextFuture};
        } else {
          assert EventBus.Waiting(b, k) == EventBus.Waiting(s.bus, k);
          assert k in s.bus.listeners;
        }
      }
    } else {
      assert a.bus == s.bus;
    }
  }

  /** When `encode` fails after a listener was registered, the reference is
      not advanced, so the next request waits under the same reference: two
      futures share it, and the first reply resolves both. */
  lemma EncodeFailureSharesReference(s: State, cat: Catalog, t1: OpType, b1: Body, t2: OpType, b2: Body)
    requires s.connected && s.reference !in s.bus.listeners
    requires Send(s, cat, t1, b1, true).EncodeFailed?
    requires Send(Send(s, cat, t1, b1, true).after, cat, t2, b2, true).Sent?
    ensures var a := Send(Send(s, cat, t1, b1, true).after, cat, t2, b2, true).after;
      a.bus.listeners[s.reference] == {s.nextFuture, s.nextFuture + 1}
  {
  }

  // ---------------------------------------------------------------------
  // Commands

  /** The `cmd_*` methods: the request each sends. */
  datatype Command =
    | StartSession(takeOver: bool)
    | CloseSession
    | ListRegisteredApps
    | RegisterApp(appUuid: string, deviceName: string, pin: int)
    | DeregisterApp(appUuid: string)
    | Version
    | Time
    | Rmi(message: seq<Byte>, nodeId: int)
    | Rpdo(pdid: int, pdoType: int, zone: int, timeout: Option<int>)
    | KeepAliveCommand

  /** Raised before `_send` is reached: a uuid that is not hex
      (ValueError), or deregistering our own uuid. */
  datatype CommandError = InvalidUuid | DeregisterSelf

  /** Python's `x or 1` on an int. */
  function OrOne(x: int): int
  {
    if x == 0 then 1 else x
  }

  /** The type, body and reply flag a command passes to `_send`. */
  function Prepare(c: Command, localUuid: string): (r: Result<(OpType, Body, bool), CommandError>)
    ensures r.Success? ==> (!r.value.2 <==> c.CloseSession? || c.KeepAliveCommand?)
    ensures r.Failure? <==>
      || (c.RegisterApp? && Hex.FromHex(c.appUuid).None?)
      || (c.DeregisterApp? && (c.appUuid == localUuid || Hex.FromHex(c.appUuid).None?))
    ensures r.Success? && c.Rmi? ==>
      r.value == (CnRmiRequest, RmiRequestBody(if c.nodeId == 0 then 1 else c.nodeId, c.message), true)
    ensures r.Success? && c.Rpdo? ==>
      r.value.1.RpdoRequestBody? && r.value.1.zone != 0 && r.value.1.rpdoPdid == c.pdid
      && r.value.1.timeout == c.timeout
  {
    match c
    case StartSession(takeOver) => Success((StartSessionRequest, StartSessionBody(takeOver), true))
    case CloseSession => Success((CloseSessionRequest, EmptyBody, false))
    case ListRegisteredApps => Success((ListRegisteredAppsRequest, EmptyBody, true))
    case RegisterApp(appUuid, deviceName, pin) =>
      (match Hex.FromHex(appUuid)
       case None => Failure(InvalidUuid)
       case Some(u) => Success((RegisterAppRequest, RegisterAppBody(u, deviceName, pin), true)))
    case DeregisterApp(appUuid) =>
      if appUuid == localUuid then Failure(DeregisterSelf)
      else
        (match Hex.FromHex(appUuid)
         case None => Failure(InvalidUuid)
         case Some(u) => Success((DeregisterAppRequest, DeregisterAppBody(u), true)))
    case Version => Success((VersionRequest, EmptyBody, true))
    case Time => Success((CnTimeRequest, EmptyBody, true))
    case Rmi(message, nodeId) => Success((CnRmiRequest, RmiRequestBody(OrOne(nodeId), message), true))
    case Rpdo(pdid, pdoType, zone, timeout) =>
      Success((CnRpdoRequest, RpdoRequestBody(pdid, pdoType, OrOne(zone), timeout), true))
    case KeepAliveCommand => Success((KeepAlive, EmptyBody, false))
  }

  /** What the bridge reads from a prepared command's frame: the command's
      type under the reference `_send` stamped and status OK, our id and
      the bridge's, and the serialised body; the reference is waited on
      exactly when the command expects a reply. */
  lemma PreparedRequestOnTheWire(s: State, cat: Catalog, c: Command)
    requires IsCanonicalId(s.localUuid) && IsCanonicalId(s.uuid)
    requires Prepare(c, s.localUuid).Success?
    requires var p := Prepare(c, s.localUuid).value; Send(s, cat, p.0, p.1, p.2).Sent?
    requires var p := Prepare(c, s.localUuid).value;
      var h := Header(p.0, StatusOk, s.reference);
      cat.parseHeader(cat.serializeHeader(h)) == Some(h)
    ensures var p := Prepare(c, s.localUuid).value;
      var r := Send(s, cat, p.0, p.1, p.2);
      var raw := DecodeRaw(r.frame[4..]);
      && raw.Success?
      && cat.parseHeader(raw.value.cmd) == Some(Header(p.0, StatusOk, s.reference))
      && raw.value.msg == cat.serializeBody(p.1)
      && raw.value.src == s.localUuid && raw.value.dst == s.uuid
      && (s.reference in r.after.bus.listeners <==> p.2 || s.reference in s.bus.listeners)
  {
    var p := Prepare(c, s.localUuid).value;
    var m := Outgoing(s, p.0, p.1);
    CanonicalIdBytes(s.localUuid);
    CanonicalIdBytes(s.uuid);
    DecodeRawEncodeRaw(cat.serializeHeader(m.header), cat.serializeBody(m.body), m.src, m.dst);
  }

  // ---------------------------------------------------------------------
  // Receiving

  /** What the reader does with one decoded message. */
  datatype Action =
    | DeliverError(ref: nat, error: ErrorClass)
    | DropError(error: ErrorClass)
    | ToSensorCallback
    | ToAlarmCallback
    | CloseRequested
    | DeliverReply(ref: nat)
    | LogOnly

  /** Frame types the reader handles before looking at the reference. */
  predicate IsNotification(t: OpType)
  {
    t == CnRpdoNotification || t == GatewayNotification || t == CnNodeNotification
    || t == CnAlarmNotification || t == CloseSessionRequest
  }

  /** `_read`'s status check followed by `_read_messages`' dispatch: error
      statuses reach the reply table only with a non-zero reference; other
      messages are matched on type first, and only then on the reference. */
  function Classify(h: Header, hasSensorCallback: bool, hasAlarmCallback: bool): (a: Action)
    ensures a.DeliverError? || a.DropError? <==> ErrorFor(h.result).Some?
    ensures a.DeliverError? ==> a.ref == h.reference && a.ref != 0 && Some(a.error) == ErrorFor(h.result)
    ensures a.DropError? ==> h.reference == 0
    ensures a.ToSensorCallback? <==>
      ErrorFor(h.result).None? && h.opType == CnRpdoNotification && hasSensorCallback
    ensures a.ToAlarmCallback? <==>
      ErrorFor(h.result).None? && h.opType == CnAlarmNotification && hasAlarmCallback
    ensures a.CloseRequested? <==> ErrorFor(h.result).None? && h.opType == CloseSessionRequest
    ensures a.DeliverReply? <==>
      ErrorFor(h.result).None? && !IsNotification(h.opType) && h.reference != 0
    ensures a.DeliverReply? ==> a.ref == h.reference
  {
    match ErrorFor(h.result)
    case Some(e) => if h.reference != 0 then DeliverError(h.reference, e) else DropError(e)
    case None =>
      if h.opType == CnRpdoNotification then
        (if hasSensorCallback then ToSensorCallback else LogOnly)
      else if h.opType == GatewayNotification then LogOnly
      else if h.opType == CnNodeNotification then LogOnly
      else if h.opType == CnAlarmNotification then
        (if hasAlarmCallback then ToAlarmCallback else LogOnly)
      else if h.opType == CloseSessionRequest then CloseRequested
      else if h.reference != 0 then DeliverReply(h.reference)
      else LogOnly
  }

  /** A callback the reader makes: the sensor callback gets the pdid and
      the data read as a signed little-endian integer. */
  datatype Callback = SensorCallback(pdid: nat, value: int) | AlarmCallback(nodeId: nat, alarm: Body)

  /** Exceptions the reader does not catch; each ends the background task.
      A callback runs inside the reader, so an exception it raises is one
      of them. */
  datatype Crash = StructError | TypeError | UnknownReference | CallbackRaised(callback: Callback)

  datatype StopReason = ConnectionClosed | CloseSessionReceived | Crashed(crash: Crash)

  datatype StepResult =
    | Continue(bus: EventBus.Bus<Event>, rest: seq<Byte>, callbacks: seq<Callback>)
    | Stop(reason: StopReason)

  /** The emit of a reply or an error: a reference without an entry makes
      `del` raise KeyError, which nothing catches. */
  function Deliver(bus: EventBus.Bus<Event>, ref: nat, e: Event, rest: seq<Byte>): (r: StepResult)
    ensures r.Stop? <==> ref !in bus.listeners
    ensures r.Stop? ==> r.reason == Crashed(UnknownReference)
    ensures r.Continue? ==> r.bus == EventBus.Emit(bus, ref, e).value && r.rest == rest && r.callbacks == []
  {
    match EventBus.Emit(bus, ref, e)
    case Failure(_) => Stop(Crashed(UnknownReference))
    case Success(b) => Continue(b, rest, [])
  }

  /** Calling a registered callback; `raises` says which calls end in an
      exception (the callbacks are the application's code). */
  function Invoke(bus: EventBus.Bus<Event>, raises: Callback -> bool, cb: Callback, rest: seq<Byte>): (r: StepResult)
    ensures r.Stop? <==> raises(cb)
    ensures r.Stop? ==> r.reason == Crashed(CallbackRaised(cb))
    ensures r.Continue? ==> r.bus == bus && r.rest == rest && r.callbacks == [cb]
  {
    if raises(cb) then Stop(Crashed(CallbackRaised(cb))) else Continue(bus, rest, [cb])
  }

  /** The dispatch half of one `_read_messages` iteration, for a message
      that decoded. */
  function Handle(bus: EventBus.Bus<Event>, hasSensorCallback: bool, hasAlarmCallback: bool, raises: Callback -> bool,
                  m: Message, rest: seq<Byte>): (r: StepResult)
    requires m.header.opType == CnRpdoNotification ==> m.body.RpdoNotification?
    requires m.header.opType == CnAlarmNotification ==> m.body.AlarmNotification?
    ensures r.Continue? ==> r.rest == rest && |r.callbacks| <= 1
    ensures r.Continue? ==> forall i :: 0 <= i < |r.callbacks| ==> !raises(r.callbacks[i])
    ensures r.Stop? && r.reason.Crashed? && r.reason.crash.CallbackRaised? ==> raises(r.reason.crash.callback)
    ensures ErrorFor(m.header.result).None? && m.header.opType == CnRpdoNotification && hasSensorCallback ==>
      (r.Stop? <==> raises(SensorCallback(m.body.pdid, SignedLE(m.body.data))))
    ensures ErrorFor(m.header.result).None? && m.header.opType == CnAlarmNotification && hasAlarmCallback ==>
      (r.Stop? <==> raises(AlarmCallback(m.body.nodeId, m.body)))
  {
    match Classify(m.header, hasSensorCallback, hasAlarmCallback)
    case DeliverError(ref, e) => Deliver(bus, ref, Raised(e, m), rest)
    case DropError(_) => Continue(bus, rest, [])
    case ToSensorCallback => Invoke(bus, raises, SensorCallback(m.body.pdid, SignedLE(m.body.data)), rest)
    case ToAlarmCallback => Invoke(bus, raises, AlarmCallback(m.body.nodeId, m.body), rest)
    case CloseRequested => Stop(CloseSessionReceived)
    case DeliverReply(ref) => Deliver(bus, ref, Reply(m.body), rest)
    case LogOnly => Continue(bus, rest, [])
  }

  /** One iteration of `_read_messages` over the bytes still to arrive:
      read a frame, decode it, check its status, dispatch it. */
  function Step(bus: EventBus.Bus<Event>, cat: Catalog, hasSensorCallback: bool, hasAlarmCallback: bool, raises: Callback -> bool,
                buffer: seq<Byte>): (r: StepResult)
    ensures Codec.Deframe(buffer).None? ==> r == Stop(ConnectionClosed)
    ensures r.Continue? ==> Codec.Deframe(buffer).Some? && r.rest == Codec.Deframe(buffer).value.1
    ensures r.Continue? ==> |r.rest| < |buffer| && |r.callbacks| <= 1
    ensures r.Continue? ==> forall i :: 0 <= i < |r.callbacks| ==> !raises(r.callbacks[i])
  {
    match Codec.Deframe(buffer)
    case None => Stop(ConnectionClosed)
    case Some((frame, rest)) =>
      match Decode(cat, frame)
      case Failure(Truncated) => Stop(Crashed(StructError))
      case Failure(ProtobufError) => Continue(bus, rest, [])
      case Failure(NoBodyParser) => Stop(Crashed(TypeError))
      case Success(m) => Handle(bus, hasSensorCallback, hasAlarmCallback, raises, m, rest)
  }

  datatype LoopResult = LoopResult(bus: EventBus.Bus<Event>, callbacks: seq<Callback>, reason: StopReason)

  /** `_read_messages` until it stops. Every callback it reports returned
      normally; one that raised is the reason the loop stopped. */
  function RunLoop(bus: EventBus.Bus<Event>, cat: Catalog, hasSensorCallback: bool, hasAlarmCallback: bool, raises: Callback -> bool,
                   buffer: seq<Byte>): (r: LoopResult)
    ensures |r.callbacks| <= |buffer| / 4
    ensures forall i :: 0 <= i < |r.callbacks| ==> !raises(r.callbacks[i])
    ensures r.reason.Crashed? && r.reason.crash.CallbackRaised? ==> raises(r.reason.crash.callback)
    decreases |buffer|
  {
    match Step(bus, cat, hasSensorCallback, hasAlarmCallback, raises, buffer)
    case Stop(reason) => LoopResult(bus, [], reason)
    case Continue(b, rest, cbs) =>
      var tail := RunLoop(b, cat, hasSensorCallback, hasAlarmCallback, raises, rest);
      LoopResult(tail.bus, cbs + tail.callbacks, tail.reason)
  }

  /** The bridge once its reader has stopped: the reply table as the reader
      left it, and the reader's exception kept if it crashed. */
  function ReaderStopped(s: State, r: LoopResult): (t: State)
    requires s.reader.Reading?
    ensures t.reader.Failed? <==> r.reason.Crashed?
    ensures t.reader.Failed? ==> t.reader.crash == r.reason.crash
    ensures t.bus == r.bus && t.connected == s.connected && t.reference == s.reference
  {
    s.(bus := r.bus, reader := if r.reason.Crashed? then Failed(r.reason.crash) else Ended)
  }

  // ---------------------------------------------------------------------
  // Properties of the reader

  /** A frame written by `encode` that the protocol-buffer layer reads
      back: with 16-byte ids it de-frames and decodes to the same message. */
  predicate ReadsBack(cat: Catalog, m: Message)
  {
    && Encode(cat, m).Success?
    && IsCanonicalId(m.src) && IsCanonicalId(m.dst)
    && cat.parseHeader(cat.serializeHeader(m.header)) == Some(m.header)
    && HasBodyParser(m.header.opType)
    && ParseBody(cat, m.header.opType, cat.serializeBody(m.body)) == Some(m.body)
  }

  /** A frame that reads back is handled as its message. */
  lemma StepOnEncoded(bus: EventBus.Bus<Event>, cat: Catalog, sc: bool, ac: bool, raises: Callback -> bool, m: Message, rest: seq<Byte>)
    requires ReadsBack(cat, m)
    ensures m.header.opType == CnRpdoNotification ==> m.body.RpdoNotification?
    ensures m.header.opType == CnAlarmNotification ==> m.body.AlarmNotification?
    ensures Step(bus, cat, sc, ac, raises, Encode(cat, m).value + rest) == Handle(bus, sc, ac, raises, m, rest)
  {
    var f := Encode(cat, m).value;
    CanonicalIdBytes(m.src);
    CanonicalIdBytes(m.dst);
    DeframeEncoded(cat.serializeHeader(m.header), cat.serializeBody(m.body), m.src, m.dst, rest);
    DecodeEncode(cat, m);
    assert Codec.Deframe(f + rest) == Some((f[4..], rest));
    assert Decode(cat, f[4..]) == Success(m);
  }

  /** A reply that reaches a waiting reference resolves every future
      waiting there with the reply's body and removes the entry. */
  lemma ReplyResolvesWaiters(bus: EventBus.Bus<Event>, cat: Catalog, sc: bool, ac: bool, raises: Callback -> bool, m: Message, rest: seq<Byte>)
    requires ReadsBack(cat, m)
    requires m.header.result == StatusOk && !IsNotification(m.header.opType)
    requires m.header.reference != 0 && m.header.reference in bus.listeners
    ensures var r := Step(bus, cat, sc, ac, raises, Encode(cat, m).value + rest);
      && r.Continue? && r.rest == rest && r.callbacks == []
      && m.header.reference !in r.bus.listeners
      && forall f :: f in bus.listeners[m.header.reference] ==>
           f in r.bus.resolved && r.bus.resolved[f] == Reply(m.body)
  {
    StepOnEncoded(bus, cat, sc, ac, raises, m, rest);
    var ref := m.header.reference;
    assert Classify(m.header, sc, ac) == DeliverReply(ref);
    assert Handle(bus, sc, ac, raises, m, rest) == Deliver(bus, ref, Reply(m.body), rest);
    var e := EventBus.Emit(bus, ref, Reply(m.body));
    assert e.Success? && ref !in e.value.listeners;
  }

  /** A reply or error for a reference nobody waits on ends the reader:
      the KeyError from `emit` is not among the exceptions it catches. */
  lemma UnknownReferenceStopsReader(bus: EventBus.Bus<Event>, cat: Catalog, sc: bool, ac: bool, raises: Callback -> bool, m: Message, rest: seq<Byte>)
    requires ReadsBack(cat, m)
    requires m.header.reference != 0 && m.header.reference !in bus.listeners
    requires ErrorFor(m.header.result).Some? || !IsNotification(m.header.opType)
    ensures Step(bus, cat, sc, ac, raises, Encode(cat, m).value + rest) == Stop(Crashed(UnknownReference))
  {
    StepOnEncoded(bus, cat, sc, ac, raises, m, rest);
  }

  /** A reader that crashed poisons the bridge: `disconnect` re-raises its
      exception before closing the writer, so every later `connect` raises
      it too, whatever the network does, and leaves the bridge as it was.
      A reader that stopped any other way lets `connect` start afresh. */
  lemma ReaderEndDecidesReconnect(s: State, r: LoopResult, localUuid: string, opening: Opening)
    requires s.reader.Reading?
    ensures var t := ReaderStopped(s, r);
      && (r.reason.Crashed? ==>
            && Disconnect(t) == Failure(r.reason.crash)
            && Connect(t, localUuid, opening) == ConnectFailed(t, ReaderRaised(r.reason.crash)))
      && (!r.reason.Crashed? ==>
            (Connect(t, localUuid, opening).Connected? <==> opening == Opened))
  {
  }

  /** End to end: a reply to a reference nobody waits on crashes the reader,
      after which no `connect` of this bridge succeeds. */
  lemma StrayReplyBlocksReconnect(s: State, cat: Catalog, sc: bool, ac: bool, raises: Callback -> bool,
                                  m: Message, rest: seq<Byte>, localUuid: string, opening: Opening)
    requires s.reader.Reading? && ReadsBack(cat, m)
    requires m.header.reference != 0 && m.header.reference !in s.bus.listeners
    requires ErrorFor(m.header.result).Some? || !IsNotification(m.header.opType)
    ensures var t := ReaderStopped(s, RunLoop(s.bus, cat, sc, ac, raises, Encode(cat, m).value + rest));
      Connect(t, localUuid, opening) == ConnectFailed(t, ReaderRaised(UnknownReference))
  {
    UnknownReferenceStopsReader(s.bus, cat, sc, ac, raises, m, rest);
    var r := RunLoop(s.bus, cat, sc, ac, raises, Encode(cat, m).value + rest);
    assert r.reason == Crashed(UnknownReference);
    ReaderEndDecidesReconnect(s, r, localUuid, opening);
  }

  /** An error status never reaches a callback, whatever the frame's type:
      `_read` raises before the dispatch looks at the type. */
  lemma ErrorFramesSkipCallbacks(bus: EventBus.Bus<Event>, cat: Catalog, sc: bool, ac: bool, raises: Callback -> bool, m: Message, rest: seq<Byte>)
    requires ReadsBack(cat, m)
    requires ErrorFor(m.header.result).Some?
    ensures var r := Step(bus, cat, sc, ac, raises, Encode(cat, m).value + rest);
      (r.Continue? ==> r.callbacks == [])
      && (m.header.reference == 0 ==> r == Continue(bus, rest, []))
  {
    StepOnEncoded(bus, cat, sc, ac, raises, m, rest);
  }

  /** Which calls of `ComfoConnect`'s own alarm callback raise: the
      `_alarm_callback` of aiocomfoconnect/comfoconnect.py, given the error
      bits of an alarm (`bytearray_to_bits` is a parameter). Its sensor
      callback is taken to return normally. */
  function AlarmLookupRaises(hasUserCallback: bool, bits: seq<Byte> -> seq<int>): Callback -> bool
  {
    (cb: Callback) => cb.AlarmCallback? && cb.alarm.AlarmNotification?
          && Alarms.AlarmCallback(hasUserCallback, cb.nodeId, cb.alarm.swProgramVersion, bits(cb.alarm.errors)).Raised?
  }

  /** On firmware 1.4.0 or older, an alarm reporting an error bit that
      only newer firmware numbers (87..104) makes `_alarm_callback` raise
      KeyError inside the reader, which ends it. */
  lemma OldFirmwareAlarmStopsReader(bus: EventBus.Bus<Event>, cat: Catalog, sc: bool, bits: seq<Byte> -> seq<int>,
                                    m: Message, rest: seq<Byte>, code: int)
    requires ReadsBack(cat, m)
    requires m.header.result == StatusOk && m.header.opType == CnAlarmNotification
    requires m.body.AlarmNotification? && m.body.swProgramVersion <= Alarms.FIRMWARE_1_4_0
    requires bits(m.body.errors) == [code] && 87 <= code <= 104
    ensures Step(bus, cat, sc, true, AlarmLookupRaises(true, bits), Encode(cat, m).value + rest)
         == Stop(Crashed(CallbackRaised(AlarmCallback(m.body.nodeId, m.body))))
  {
    StepOnEncoded(bus, cat, sc, true, AlarmLookupRaises(true, bits), m, rest);
    Alarms.NewerOnlyBits(m.body.swProgramVersion, Alarms.FIRMWARE_1_4_0 + 1, code);
    assert Alarms.AlarmCallback(true, m.body.nodeId, m.body.swProgramVersion, [code]).Raised?;
  }

  /** The frames of ms, one after another. */
  function Stream(cat: Catalog, ms: seq<Message>): seq<Byte>
    requires forall i :: 0 <= i < |ms| ==> ReadsBack(cat, ms[i])
  {
    if |ms| == 0 then []
    else
      assert ReadsBack(cat, ms[0]);
      assert forall i :: 0 <= i < |ms| - 1 ==> ms[1..][i] == ms[i + 1];
      Encode(cat, ms[0]).value + Stream(cat, ms[1..])
  }

  /** The callbacks for a list of sensor frames, in arrival order. */
  function SensorCallbacks(ms: seq<Message>): (r: seq<Callback>)
    requires forall i :: 0 <= i < |ms| ==> ms[i].body.RpdoNotification?
    ensures |r| == |ms|
  {
    if |ms| == 0 then []
    else [SensorCallback(ms[0].body.pdid, SignedLE(ms[0].body.data))] + SensorCallbacks(ms[1..])
  }

  /** One sensor frame whose callback returns: the callback is reported
      and nothing else changes. */
  lemma SensorFrame(bus: EventBus.Bus<Event>, cat: Catalog, ac: bool, raises: Callback -> bool, m: Message, rest: seq<Byte>)
    requires ReadsBack(cat, m)
    requires m.header.result == StatusOk && m.header.opType == CnRpdoNotification && m.body.RpdoNotification?
    requires !raises(SensorCallback(m.body.pdid, SignedLE(m.body.data)))
    ensures Step(bus, cat, true, ac, raises, Encode(cat, m).value + rest)
         == Continue(bus, rest, [SensorCallback(m.body.pdid, SignedLE(m.body.data))])
  {
    StepOnEncoded(bus, cat, true, ac, raises, m, rest);
  }

  /** End to end: when the bridge sends sensor notifications and then
      closes, and the sensor callback returns each time, it sees each
      (pdid, signed value) in order, the reply table is untouched, and the
      reader ends because the connection closed. */
  lemma {:induction false} SensorStream(bus: EventBus.Bus<Event>, cat: Catalog, ac: bool, raises: Callback -> bool, ms: seq<Message>)
    requires forall i :: 0 <= i < |ms| ==> ReadsBack(cat, ms[i])
    requires forall i :: 0 <= i < |ms| ==>
      ms[i].header.result == StatusOk && ms[i].header.opType == CnRpdoNotification && ms[i].body.RpdoNotification?
    requires forall i :: 0 <= i < |ms| ==> !raises(SensorCallback(ms[i].body.pdid, SignedLE(ms[i].body.data)))
    ensures RunLoop(bus, cat, true, ac, raises, Stream(cat, ms)) == LoopResult(bus, SensorCallbacks(ms), ConnectionClosed)
  {
    if |ms| == 0 {
      assert Codec.Deframe([]).None?;
    } else {
      var rest := Stream(cat, ms[1..]);
      assert Stream(cat, ms) == Encode(cat, ms[0]).value + rest;
      SensorFrame(bus, cat, ac, raises, ms[0], rest);
      assert forall i :: 0 <= i < |ms| - 1 ==> ms[1..][i] == ms[i + 1];
      SensorStream(bus, cat, ac, raises, ms[1..]);
    }
  }
}
