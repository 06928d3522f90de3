/**
 * The process-wide caller registry and the scoped holder that registers one caller for the
 * lifetime of an execution context. The registry's mutex is modelled as each operation running
 * as one indivisible step.
 */
module Callers {

  import opened Wrappers
  import opened JsValues

  /** Identity of the shared `BinaryValueFactory` a caller converts arguments with. */
  type FactoryRef = nat

  /** Identity of the host's `Callback` function pointer. */
  type HostCallback = nat

  /** A `JSCallbackCaller`: immutable once built, it pairs a value factory with a host callback. */
  datatype Caller = Caller(factory: FactoryRef, callback: HostCallback)

  /** The registry's contents: the table from caller id to caller, and the `next_id_` counter. */
  datatype RegistryState = RegistryState(callers: map<Uint64, Caller>, nextId: Uint64)

  /** `next_id_++` on a `uint64_t`: one more, wrapping to 0 after the largest value. */
  function NextId(n: Uint64): (r: Uint64)
    ensures n < UINT64_LIMIT - 1 ==> r == n + 1
    ensures n == UINT64_LIMIT - 1 ==> r == 0
  {
    (n + 1) % UINT64_LIMIT
  }

  /** Every registered id lies below the counter; while it holds, the counter names a free id. */
  ghost predicate IdsBelowNext(s: RegistryState)
  {
    forall id :: id in s.callers ==> id < s.nextId
  }

  /** `Get(id)`: the stored caller when the id is present, nothing otherwise. */
  function Lookup(s: RegistryState, id: Uint64): (r: Option<Caller>)
    ensures r.Some? <==> id in s.callers
    ensures r.Some? ==> r.value == s.callers[id]
  {
    if id in s.callers then Some(s.callers[id]) else None
  }

  /** `Register`: hands out the current counter value as the id, stores the caller under it and
      advances the counter. The new id resolves to the caller, every other id resolves as before,
      and while the ids lie below the counter the new id was free and the invariant is kept
      (unless the counter has just wrapped). */
  function Registered(s: RegistryState, c: Caller): (r: (RegistryState, Uint64))
    ensures r.1 == s.nextId && r.0.nextId == NextId(s.nextId)
    ensures Lookup(r.0, r.1) == Some(c)
    ensures forall id :: id != r.1 ==> Lookup(r.0, id) == Lookup(s, id)
    ensures IdsBelowNext(s) ==> r.1 !in s.callers
    ensures IdsBelowNext(s) && s.nextId < UINT64_LIMIT - 1 ==> IdsBelowNext(r.0)
  {
    (RegistryState(s.callers[s.nextId := c], NextId(s.nextId)), s.nextId)
  }

  /** `Unregister`: afterwards the id resolves to nothing, every other id resolves as before,
      the counter is untouched, and an absent id leaves the registry exactly as it was. */
  function Unregistered(s: RegistryState, id: Uint64): (r: RegistryState)
    ensures Lookup(r, id) == None
    ensures forall x :: x != id ==> Lookup(r, x) == Lookup(s, x)
    ensures r.nextId == s.nextId
    ensures id !in s.callers ==> r == s
    ensures IdsBelowNext(s) ==> IdsBelowNext(r)
  {
    RegistryState(s.callers - {id}, s.nextId)
  }

  /** Unregistering twice is the same as unregistering once. */
  lemma UnregisterIdempotent(s: RegistryState, id: Uint64)
    ensures Unregistered(Unregistered(s, id), id) == Unregistered(s, id)
  {
  }

  /** One registry operation, as performed by any holder in the process. */
  datatype Op = Register(caller: Caller) | Unregister(id: Uint64)

  function Step(s: RegistryState, op: Op): RegistryState
  {
    match op
    case Register(c) => Registered(s, c).0
    case Unregister(id) => Unregistered(s, id)
  }

  /** The registry after a sequence of operations, applied in order. */
  function Run(s: RegistryState, ops: seq<Op>): RegistryState
    decreases |ops|
  {
    if ops == [] then s else Run(Step(s, ops[0]), ops[1..])
  }

  /** The ids the `Register` operations of `ops` return, in order. */
  function IssuedIds(s: RegistryState, ops: seq<Op>): seq<Uint64>
    decreases |ops|
  {
    if ops == [] then []
    else (if ops[0].Register? then [s.nextId] else []) + IssuedIds(Step(s, ops[0]), ops[1..])
  }

  /** One step of a run that hands out fewer ids than remain below 2^64: the counter advances by
      exactly the ids the step hands out, and the rest of the run stays within the bound. */
  lemma StepWithinBound(s: RegistryState, ops: seq<Op>)
    requires ops != [] && s.nextId + |IssuedIds(s, ops)| < UINT64_LIMIT
    ensures var s' := Step(s, ops[0]);
      && (ops[0].Register? ==> s'.nextId == s.nextId + 1
                               && IssuedIds(s, ops) == [s.nextId] + IssuedIds(s', ops[1..]))
      && (ops[0].Unregister? ==> s'.nextId == s.nextId
                                 && IssuedIds(s, ops) == IssuedIds(s', ops[1..]))
      && s'.nextId + |IssuedIds(s', ops[1..])| < UINT64_LIMIT
  {
  }

  /** While the counter does not wrap (fewer registrations than ids left below 2^64), the ids
      handed out are strictly increasing, start at the counter's value, and the counter ends just
      past the last of them: no id is handed out twice. */
  lemma {:induction false} IssuedIdsIncrease(s: RegistryState, ops: seq<Op>)
    requires s.nextId + |IssuedIds(s, ops)| < UINT64_LIMIT
    ensures Run(s, ops).nextId == s.nextId + |IssuedIds(s, ops)|
    ensures forall i :: 0 <= i < |IssuedIds(s, ops)| ==>
              s.nextId <= IssuedIds(s, ops)[i] < Run(s, ops).nextId
    ensures forall i, j :: 0 <= i < j < |IssuedIds(s, ops)| ==>
              IssuedIds(s, ops)[i] < IssuedIds(s, ops)[j]
    decreases |ops|
  {
    if ops != [] {
      var s' := Step(s, ops[0]);
      StepWithinBound(s, ops);
      IssuedIdsIncrease(s', ops[1..]);
      var rest := IssuedIds(s', ops[1..]);
      var ids := IssuedIds(s, ops);
      if ops[0].Register? {
        forall i, j | 0 <= i < j < |ids| ensures ids[i] < ids[j] {
          if i > 0 {
            assert ids[i] == rest[i - 1] && ids[j] == rest[j - 1];
          } else {
            assert ids[j] == rest[j - 1];
          }
        }
      }
    }
  }

  /** While the counter does not wrap, every registered id stays below it. */
  lemma {:induction false} RunKeepsIdsBelowNext(s: RegistryState, ops: seq<Op>)
    requires IdsBelowNext(s) && s.nextId + |IssuedIds(s, ops)| < UINT64_LIMIT
    ensures IdsBelowNext(Run(s, ops))
    decreases |ops|
  {
    if ops != [] {
      StepWithinBound(s, ops);
      RunKeepsIdsBelowNext(Step(s, ops[0]), ops[1..]);
    }
  }

  /** A holder's id stays resolvable to the same caller through any sequence of other holders'
      registrations and unregistrations, as long as none of them unregisters that id and the
      counter does not wrap. */
  lemma {:induction false} LiveIdSurvives(s: RegistryState, ops: seq<Op>, id: Uint64)
    requires IdsBelowNext(s) && id in s.callers
    requires s.nextId + |IssuedIds(s, ops)| < UINT64_LIMIT
    requires forall i :: 0 <= i < |ops| ==> ops[i] != Unregister(id)
    ensures Lookup(Run(s, ops), id) == Lookup(s, id)
    decreases |ops|
  {
    if ops != [] {
      var s' := Step(s, ops[0]);
      assert ops[0] != Unregister(id);
      StepWithinBound(s, ops);
      assert Lookup(s', id) == Lookup(s, id);
      LiveIdSurvives(s', ops[1..], id);
    }
  }

  /** An id that was handed out and is no longer registered never resolves again, whatever other
      holders register or unregister afterwards, as long as the counter does not wrap: later
      registrations only hand out ids at or above the counter. */
  lemma {:induction false} DeadIdStaysDead(s: RegistryState, ops: seq<Op>, id: Uint64)
    requires IdsBelowNext(s) && id < s.nextId && id !in s.callers
    requires s.nextId + |IssuedIds(s, ops)| < UINT64_LIMIT
    ensures Lookup(Run(s, ops), id) == None
    decreases |ops|
  {
    if ops != [] {
      var s' := Step(s, ops[0]);
      StepWithinBound(s, ops);
      assert id !in s'.callers;
      DeadIdStaysDead(s', ops[1..], id);
    }
  }

  /** `JSCallbackCallerRegistry`: the singleton, passed explicitly to whoever uses it. */
  class CallerRegistry {
    var callers: map<Uint64, Caller>
    var nextId: Uint64

    function State(): RegistryState
      reads this
    {
      RegistryState(callers, nextId)
    }

    /** An empty registry whose counter starts at `firstId`. */
    constructor (firstId: Uint64)
      ensures State() == RegistryState(map[], firstId)
      ensures IdsBelowNext(State())
    {
      callers := map[];
      nextId := firstId;
    }

    method Register(factory: FactoryRef, callback: HostCallback) returns (id: Uint64)
      modifies this
      ensures (State(), id) == Registered(old(State()), Caller(factory, callback))
    {
      var caller := Caller(factory, callback);
      id := nextId;
      nextId := NextId(nextId);
      callers := callers[id := caller];
    }

    method Unregister(id: Uint64)
      modifies this
      ensures State() == Unregistered(old(State()), id)
    {
      callers := callers - {id};
    }

    method Get(id: Uint64) returns (r: Option<Caller>)
      ensures r == Lookup(State(), id)
    {
      if id !in callers {
        return None;
      }
      r := Some(callers[id]);
    }
  }

  /** `JSCallbackCallerHolder`: registers a caller when built and unregisters its own id when
      released (the C++ destructor). Its `Get()` accessor is the constant `id`. */
  class CallerHolder {
    const registry: CallerRegistry
    const id: Uint64

    constructor (registry: CallerRegistry, factory: FactoryRef, callback: HostCallback)
      modifies registry
      ensures this.registry == registry
      ensures (registry.State(), id) == Registered(old(registry.State()), Caller(factory, callback))
      ensures Lookup(registry.State(), id) == Some(Caller(factory, callback))
    {
      var newId := registry.Register(factory, callback);
      this.registry := registry;
      this.id := newId;
    }

    /** The destructor: removes this holder's id, and only that id. */
    method Release()
      modifies registry
      ensures registry.State() == Unregistered(old(registry.State()), id)
      ensures Lookup(registry.State(), id) == None
      ensures forall x :: x != id ==> Lookup(registry.State(), x) == Lookup(old(registry.State()), x)
    {
      registry.Unregister(id);
    }
  }

}
