/** The sensor hold-back of `ComfoConnect` (aiocomfoconnect/comfoconnect.py):
    registered sensors, the last value each reported, and the hold that
    keeps values back for a few seconds after a (re)connect. The hold timer
    is an explicit `Unhold` event here; the callbacks the session makes to
    its user are returned as emissions, and the RPDO subscriptions it sends
    are returned as bridge commands. */
module SensorHold {
  import opened Results
  import Bridge

  /** A registered sensor: its PDO id, PDO type, and whether it carries a
      `value_fn` conversion. */
  datatype Sensor = Sensor(id: int, pdoType: int, hasValueFn: bool)

  /** The value handed to the user: the sensor's `value_fn` applied to the
      raw value (kept symbolic), or the raw integer itself, since
      `round(n, 2)` of an integer is that integer. */
  datatype Shown = Converted(sensorId: int, raw: int) | Plain(raw: int)

  datatype Emission = Emission(sensor: Sensor, shown: Shown)

  /** `_sensors` (keyed by id, iterated in `order`, the dict's insertion
      order), `_sensors_values` (None until the sensor reports), whether a
      user sensor callback is set, and whether a hold is armed. */
  datatype Session = Session(
    hasUserCallback: bool,
    sensors: map<int, Sensor>,
    order: seq<int>,
    values: map<int, Option<int>>,
    holding: bool)

  /** The representation invariant: `order` lists every registered id once. */
  ghost predicate WellFormed(s: Session)
  {
    && (forall i :: 0 <= i < |s.order| ==> s.order[i] in s.sensors)
    && (forall id :: id in s.sensors ==> id in s.order)
    && (forall i, j :: 0 <= i < j < |s.order| ==> s.order[i] != s.order[j])
    && (forall id :: id in s.sensors ==> s.sensors[id].id == id)
  }

  /** Every registered sensor has a value slot and nothing else has one. */
  ghost predicate KeysInSync(s: Session)
  {
    WellFormed(s) && s.values.Keys == s.sensors.Keys
  }

  /** What one operation did: the session after it, the commands it sent,
      the user callbacks it made, and whether it ended in KeyError. */
  datatype Outcome = Outcome(after: Session, requests: seq<Bridge.Command>, emitted: seq<Emission>, keyError: bool)

  function Show(sensor: Sensor, raw: int): (r: Shown)
    ensures r.raw == raw
    ensures r.Converted? <==> sensor.hasValueFn
  {
    if sensor.hasValueFn then Converted(sensor.id, raw) else Plain(raw)
  }

  // ---------------------------------------------------------------------
  // Sensor updates

  /** `_sensor_callback(sensor_id, value)`: without a user callback, or for
      an unregistered id, nothing happens; otherwise the value is stored,
      and it is passed on only when no hold is armed. */
  function SensorUpdate(s: Session, id: int, raw: int): (r: Outcome)
    ensures !s.hasUserCallback || id !in s.sensors ==> r.after == s && r.emitted == []
    ensures s.hasUserCallback && id in s.sensors ==>
      r.after.values == s.values[id := Some(raw)] && r.after.sensors == s.sensors
      && r.after.order == s.order && r.after.holding == s.holding
    ensures r.emitted != [] <==> s.hasUserCallback && id in s.sensors && !s.holding
    ensures r.emitted != [] ==> r.emitted == [Emission(s.sensors[id], Show(s.sensors[id], raw))]
    ensures r.requests == [] && !r.keyError
    ensures KeysInSync(s) ==> KeysInSync(r.after)
  {
    if !s.hasUserCallback || id !in s.sensors then Outcome(s, [], [], false)
    else
      var after := s.(values := s.values[id := Some(raw)]);
      if s.holding then Outcome(after, [], [], false)
      else Outcome(after, [], [Emission(s.sensors[id], Show(s.sensors[id], raw))], false)
  }

  // ---------------------------------------------------------------------
  // The end of the hold

  /** Every registered sensor is stored under its own id. */
  ghost predicate IdsMatch(s: Session)
  {
    forall id :: id in s.sensors ==> s.sensors[id].id == id
  }

  /** The replay loop of `_unhold_sensors` over the ids still to visit:
      each id with a stored value goes through `_sensor_callback` again;
      an id without a value slot raises KeyError and ends the loop. */
  function Replay(s: Session, ids: seq<int>): (r: (seq<Emission>, bool))
    requires forall i :: 0 <= i < |ids| ==> ids[i] in s.sensors
    ensures !r.1 <==> exists i :: 0 <= i < |ids| && ids[i] !in s.values
    ensures |r.0| <= |ids|
    ensures !s.hasUserCallback ==> r.0 == []
    ensures (forall id :: id in s.values ==> s.values[id].None?) ==> r.0 == []
  {
    if |ids| == 0 then ([], true)
    else
      var id := ids[0];
      if id !in s.values then ([], false)
      else
        var rest := Replay(s, ids[1..]);
        var here := if s.values[id].Some? && s.hasUserCallback
                    then [Emission(s.sensors[id], Show(s.sensors[id], s.values[id].value))] else [];
        assert forall i :: 1 <= i < |ids| ==> ids[i] == ids[1..][i - 1];
        (here + rest.0, rest.1)
  }

  /** Everything replayed is a registered sensor with its stored value. */
  lemma {:induction false} ReplaySound(s: Session, ids: seq<int>, e: Emission)
    requires forall i :: 0 <= i < |ids| ==> ids[i] in s.sensors
    requires IdsMatch(s) && e in Replay(s, ids).0
    ensures s.hasUserCallback
    ensures e.sensor.id in ids && e.sensor == s.sensors[e.sensor.id]
    ensures e.sensor.id in s.values && s.values[e.sensor.id].Some?
    ensures e.shown == Show(e.sensor, s.values[e.sensor.id].value)
  {
    var id := ids[0];
    var rest := Replay(s, ids[1..]);
    if e !in rest.0 {
      assert e == Emission(s.sensors[id], Show(s.sensors[id], s.values[id].value));
    } else {
      ReplaySound(s, ids[1..], e);
    }
  }

  /** When the replay finishes, every visited sensor with a stored value
      is replayed, and no other. */
  lemma {:induction false} ReplayComplete(s: Session, ids: seq<int>, k: int)
    requires forall i :: 0 <= i < |ids| ==> ids[i] in s.sensors
    requires IdsMatch(s) && Replay(s, ids).1 && 0 <= k < |ids|
    ensures s.values[ids[k]].Some? && s.hasUserCallback <==>
            exists e :: e in Replay(s, ids).0 && e.sensor == s.sensors[ids[k]]
  {
    var id := ids[0];
    var rest := Replay(s, ids[1..]);
    var here := if s.values[id].Some? && s.hasUserCallback
                then [Emission(s.sensors[id], Show(s.sensors[id], s.values[id].value))] else [];
    assert Replay(s, ids).0 == here + rest.0;
    if k == 0 {
      if s.values[id].Some? && s.hasUserCallback {
        assert here[0] in Replay(s, ids).0;
      } else {
        forall e | e in Replay(s, ids).0 ensures e.sensor != s.sensors[id] {
          ReplaySound(s, ids, e);
        }
      }
    } else {
      assert ids[k] == ids[1..][k - 1];
      ReplayComplete(s, ids[1..], k - 1);
      if s.values[ids[k]].Some? && s.hasUserCallback {
        var e :| e in rest.0 && e.sensor == s.sensors[ids[k]];
        assert e in Replay(s, ids).0;
      } else {
        forall e | e in Replay(s, ids).0 ensures e.sensor != s.sensors[ids[k]] {
          ReplaySound(s, ids, e);
        }
      }
    }
  }

  /** `_unhold_sensors`: the hold is dropped, then the stored values of the
      registered sensors are replayed in registration order. */
  function Unhold(s: Session): (r: Outcome)
    requires WellFormed(s)
    ensures r.after == s.(holding := false)
    ensures r.keyError <==> exists i :: 0 <= i < |s.order| && s.order[i] !in s.values
    ensures r.requests == [] && |r.emitted| <= |s.order|
    ensures (forall id :: id in s.values ==> s.values[id].None?) ==> r.emitted == []
    ensures KeysInSync(s) ==> KeysInSync(r.after)
  {
    var (emitted, ok) := Replay(s, s.order);
    Outcome(s.(holding := false), [], emitted, !ok)
  }

  /** When the hold ends without error, exactly the registered sensors
      with a stored value are passed on, each with that value. */
  lemma UnholdReplaysStoredValues(s: Session)
    requires WellFormed(s) && !Unhold(s).keyError
    ensures forall e :: e in Unhold(s).emitted ==>
      e.sensor.id in s.sensors && e.sensor == s.sensors[e.sensor.id]
      && s.values[e.sensor.id].Some? && e.shown == Show(e.sensor, s.values[e.sensor.id].value)
    ensures forall id :: id in s.sensors ==>
      (id in s.values && s.values[id].Some? && s.hasUserCallback <==>
       exists e :: e in Unhold(s).emitted && e.sensor == s.sensors[id])
  {
    forall e | e in Unhold(s).emitted
      ensures e.sensor.id in s.sensors && e.sensor == s.sensors[e.sensor.id]
      ensures s.values[e.sensor.id].Some? && e.shown == Show(e.sensor, s.values[e.sensor.id].value)
    {
      ReplaySound(s, s.order, e);
    }
    forall id | id in s.sensors
      ensures id in s.values && s.values[id].Some? && s.hasUserCallback <==>
              exists e :: e in Unhold(s).emitted && e.sensor == s.sensors[id]
    {
      var k :| 0 <= k < |s.order| && s.order[k] == id;
      ReplayComplete(s, s.order, k);
    }
  }

  /** With the value slots in step with the registrations, ending the hold
      never fails. */
  lemma UnholdInSyncSucceeds(s: Session)
    requires KeysInSync(s)
    ensures !Unhold(s).keyError
  {
  }

  /** A value reported while the hold is armed is not passed on then, and
      is passed on when the hold ends. */
  lemma HeldValueIsReplayed(s: Session, id: int, raw: int)
    requires KeysInSync(s) && s.holding && s.hasUserCallback && id in s.sensors
    ensures SensorUpdate(s, id, raw).emitted == []
    ensures var u := Unhold(SensorUpdate(s, id, raw).after);
      !u.keyError && Emission(s.sensors[id], Show(s.sensors[id], raw)) in u.emitted
  {
    var after := SensorUpdate(s, id, raw).after;
    var u := Unhold(after);
    UnholdReplaysStoredValues(after);
    var e :| e in u.emitted && e.sensor == after.sensors[id];
    assert e == Emission(s.sensors[id], Show(s.sensors[id], raw));
  }

  // ---------------------------------------------------------------------
  // Registration

  function Subscribe(sensor: Sensor, timeout: Option<int>): Bridge.Command
  {
    Bridge.Rpdo(sensor.id, sensor.pdoType, 1, timeout)
  }

  /** `register_sensor`: the sensor is stored (keeping its place when the
      id was registered already), its value slot is reset to None, and an
      RPDO subscription is sent. */
  function Register(s: Session, sensor: Sensor): (r: Outcome)
    ensures r.after.sensors == s.sensors[sensor.id := sensor]
    ensures r.after.values == s.values[sensor.id := None]
    ensures r.requests == [Subscribe(sensor, None)] && r.emitted == [] && !r.keyError
    ensures KeysInSync(s) ==> KeysInSync(r.after)
  {
    var order := if sensor.id in s.sensors then s.order else s.order + [sensor.id];
    Outcome(s.(sensors := s.sensors[sensor.id := sensor], order := order,
               values := s.values[sensor.id := None]), [Subscribe(sensor, None)], [], false)
  }

  /** The ids in xs other than x, in order. */
  function Without(xs: seq<int>, x: int): (r: seq<int>)
    ensures forall y :: y in r <==> y in xs && y != x
    ensures (forall i, j :: 0 <= i < j < |xs| ==> xs[i] != xs[j]) ==>
            (forall i, j :: 0 <= i < j < |r| ==> r[i] != r[j])
  {
    if |xs| == 0 then []
    else
      var rest := Without(xs[1..], x);
      assert forall y :: y in xs[1..] ==> y in xs;
      assert (forall i, j :: 0 <= i < j < |xs| ==> xs[i] != xs[j]) ==> xs[0] !in xs[1..];
      if xs[0] == x then rest else [xs[0]] + rest
  }

  /** Dropping an id from the registrations keeps the order exact. */
  lemma DropKeepsWellFormed(s: Session, id: int)
    requires WellFormed(s)
    ensures WellFormed(s.(sensors := s.sensors - {id}, order := Without(s.order, id)))
  {
    var order := Without(s.order, id);
    forall i | 0 <= i < |order| ensures order[i] in s.sensors - {id} {
      assert order[i] in order;
    }
  }

  /** `deregister_sensor`: the unsubscription (timeout 0) is sent first;
      then `del` removes the sensor and then its value slot, each raising
      KeyError when its key is missing, after the deletions before it. */
  function Deregister(s: Session, sensor: Sensor): (r: Outcome)
    requires WellFormed(s)
    ensures r.requests == [Subscribe(sensor, Some(0))] && r.emitted == []
    ensures r.keyError <==> sensor.id !in s.sensors || sensor.id !in s.values
    ensures sensor.id !in s.sensors ==> r.after == s
    ensures sensor.id in s.sensors ==> r.after.sensors == s.sensors - {sensor.id}
    ensures !r.keyError ==> r.after.values == s.values - {sensor.id}
    ensures WellFormed(r.after)
    ensures KeysInSync(s) ==> KeysInSync(r.after)
  {
    var req := [Subscribe(sensor, Some(0))];
    if sensor.id !in s.sensors then Outcome(s, req, [], true)
    else
      var s1 := s.(sensors := s.sensors - {sensor.id}, order := Without(s.order, sensor.id));
      DropKeepsWellFormed(s, sensor.id);
      if sensor.id !in s.values then Outcome(s1, req, [], true)
      else Outcome(s1.(values := s.values - {sensor.id}), req, [], false)
  }

  /** Deregistering a registered sensor never fails while the value slots
      are in step. */
  lemma DeregisterInSyncSucceeds(s: Session, sensor: Sensor)
    requires KeysInSync(s) && sensor.id in s.sensors
    ensures !Deregister(s, sensor).keyError
  {
  }

  // ---------------------------------------------------------------------
  // Connecting

  /** The subscriptions `connect` sends again, one per registered sensor in
      registration order. */
  function Resubscribe(s: Session): (r: seq<Bridge.Command>)
    requires WellFormed(s)
    ensures |r| == |s.order|
    ensures forall i :: 0 <= i < |s.order| ==> r[i] == Subscribe(s.sensors[s.order[i]], None)
  {
    seq(|s.order|, i requires 0 <= i < |s.order| => Subscribe(s.sensors[s.order[i]], None))
  }

  /** The part of `connect` after the bridge connection, as the code is
      written: with `start_session` it starts the session, arms the hold
      when `sensor_delay` is non-zero, replaces the values by an empty
      dict and subscribes every registered sensor again. */
  function ConnectAsWritten(s: Session, startSession: bool, sensorDelay: int): (r: Outcome)
    requires WellFormed(s)
    ensures !startSession ==> r.after == s && r.requests == []
    ensures startSession ==> r.after.values == map[] && r.after.sensors == s.sensors
    ensures startSession ==> (r.after.holding <==> s.holding || sensorDelay != 0)
    ensures startSession ==> r.requests == [Bridge.StartSession(true)] + Resubscribe(s)
    ensures WellFormed(r.after) && r.emitted == [] && !r.keyError
  {
    if !startSession then Outcome(s, [], [], false)
    else
      var holding := s.holding || sensorDelay != 0;
      Outcome(s.(values := map[], holding := holding), [Bridge.StartSession(true)] + Resubscribe(s), [], false)
  }

  /** The discrepancy: once any sensor is registered, a reconnect with a
      hold followed by the hold's end, before that sensor reports again,
      raises KeyError in the replay. */
  lemma ConnectAsWrittenBreaksUnhold(s: Session, sensorDelay: int)
    requires WellFormed(s) && |s.order| > 0 && sensorDelay != 0
    ensures ConnectAsWritten(s, true, sensorDelay).after.holding
    ensures Unhold(ConnectAsWritten(s, true, sensorDelay).after).keyError
  {
    var after := ConnectAsWritten(s, true, sensorDelay).after;
    assert after.order[0] !in after.values;
  }

  /** The same emptied dict makes `deregister_sensor` fail after it has
      already dropped the sensor. */
  lemma ConnectAsWrittenBreaksDeregister(s: Session, sensorDelay: int, id: int)
    requires KeysInSync(s) && id in s.sensors
    ensures var d := Deregister(ConnectAsWritten(s, true, sensorDelay).after, s.sensors[id]);
      d.keyError && id !in d.after.sensors
  {
  }

  /** `connect` as intended: the value of every registered sensor is reset
      to None instead of dropping the slots. */
  function Connect(s: Session, startSession: bool, sensorDelay: int): (r: Outcome)
    requires WellFormed(s)
    ensures !startSession ==> r.after == s && r.requests == []
    ensures startSession ==> r.after.values.Keys == s.sensors.Keys
    ensures startSession ==> forall id :: id in r.after.values ==> r.after.values[id] == None
    ensures startSession ==> r.after.sensors == s.sensors
    ensures startSession ==> (r.after.holding <==> s.holding || sensorDelay != 0)
    ensures startSession ==> r.requests == [Bridge.StartSession(true)] + Resubscribe(s)
    ensures WellFormed(r.after) && r.emitted == [] && !r.keyError
    ensures startSession || KeysInSync(s) ==> KeysInSync(r.after)
  {
    if !startSession then Outcome(s, [], [], false)
    else
      var holding := s.holding || sensorDelay != 0;
      var values := map id | id in s.sensors :: None;
      Outcome(s.(values := values, holding := holding), [Bridge.StartSession(true)] + Resubscribe(s), [], false)
  }

  /** With the corrected connect, the hold may end before any sensor has
      reported: nothing is replayed and nothing fails. */
  lemma ConnectThenUnhold(s: Session, sensorDelay: int)
    requires WellFormed(s)
    ensures var u := Unhold(Connect(s, true, sensorDelay).after);
      !u.keyError && u.emitted == []
  {
    var after := Connect(s, true, sensorDelay).after;
    UnholdInSyncSucceeds(after);

  }
}
