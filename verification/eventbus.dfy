/** The reply correlation table of aiocomfoconnect/bridge.py (`EventBus`):
    references map to the futures waiting for the reply with that
    reference. Futures are named by numbers; the futures resolved so far
    are recorded with the event they were resolved with. */
module EventBus {
  import opened Results

  /** `emit` ran `del` on a reference nobody was waiting for. */
  datatype KeyError = KeyError

  datatype Bus<E> = Bus(listeners: map<int, set<nat>>, resolved: map<nat, E>)

  function Empty<E>(): (b: Bus<E>)
    ensures b.listeners == map[] && b.resolved == map[]
  {
    Bus(map[], map[])
  }

  /** The futures waiting under a reference; none when it has no entry. */
  function Waiting<E>(b: Bus<E>, key: int): set<nat>
  {
    if key in b.listeners then b.listeners[key] else {}
  }

  /** `add_listener(key, fut)`: a missing or empty entry becomes {fut},
      otherwise fut joins the futures already waiting under key. */
  function AddListener<E>(b: Bus<E>, key: int, fut: nat): (r: Bus<E>)
    ensures key in r.listeners && r.listeners[key] == Waiting(b, key) + {fut}
    ensures forall k :: k != key ==> Waiting(r, k) == Waiting(b, k)
    ensures r.listeners.Keys == b.listeners.Keys + {key}
    ensures r.resolved == b.resolved
  {
    if key !in b.listeners || b.listeners[key] == {} then
      b.(listeners := b.listeners[key := {fut}])
    else
      b.(listeners := b.listeners[key := b.listeners[key] + {fut}])
  }

  /** `emit(key, event)`: every future waiting under key is resolved with
      the event (`set_exception` for an exception, `set_result` otherwise),
      then the entry is deleted. With no entry the `del` raises KeyError. */
  function Emit<E>(b: Bus<E>, key: int, event: E): (r: Result<Bus<E>, KeyError>)
    ensures r.Failure? <==> key !in b.listeners
    ensures r.Success? ==>
      && r.value.listeners == b.listeners - {key}
      && (forall f :: f in b.listeners[key] ==> f in r.value.resolved && r.value.resolved[f] == event)
      && (forall f :: f in b.resolved && f !in b.listeners[key] ==> f in r.value.resolved && r.value.resolved[f] == b.resolved[f])
      && r.value.resolved.Keys == b.resolved.Keys + b.listeners[key]
  {
    if key !in b.listeners then Failure(KeyError)
    else
      var futs := b.listeners[key];
      var resolved := map f | f in b.resolved.Keys + futs :: if f in futs then event else b.resolved[f];
      Success(Bus(b.listeners - {key}, resolved))
  }

  /** A future added under a key is resolved by the next emit on that key,
      and the entry is gone afterwards. */
  lemma EmitReachesListener<E>(b: Bus<E>, key: int, fut: nat, event: E)
    ensures var r := Emit(AddListener(b, key, fut), key, event);
      r.Success? && fut in r.value.resolved && r.value.resolved[fut] == event
      && key !in r.value.listeners
  {
  }

  /** Each entry is answered once: a second emit on the same key, with no
      listener added in between, raises KeyError. */
  lemma EmitTwiceFails<E>(b: Bus<E>, key: int, e1: E, e2: E)
    requires Emit(b, key, e1).Success?
    ensures Emit(Emit(b, key, e1).value, key, e2) == Failure(KeyError)
  {
  }
}
