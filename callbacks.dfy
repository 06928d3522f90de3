/**
 * `JSCallbackMaker`: mints script functions that carry `[caller id, callback id]` as their
 * attached data, and the static entry point that decodes that data when script code calls such
 * a function and routes the call, through the registry, to the host.
 */
module Callbacks {

  import opened Wrappers
  import opened JsValues
  import opened Callers

  /** The data attached to a minted function: a 2-element array of unsigned BigInts. Decoding it
      yields exactly the pair it was built from. */
  function EncodeData(callerId: Uint64, callbackId: Uint64): (data: JsValue)
    ensures DecodeData(data) == Some((callerId, callbackId))
  {
    JsArray([Present(NewFromUnsigned(callerId)), Present(NewFromUnsigned(callbackId))])
  }

  /** An element read that produced a BigInt convertible to `uint64_t` without loss. */
  ghost predicate IsUint64BigInt(e: Element)
  {
    e.Present? && e.item.BigInt? && 0 <= e.item.value < UINT64_LIMIT
  }

  /** The shape the entry point accepts: an array of exactly two elements, both readable
      BigInts in the unsigned 64-bit range. */
  ghost predicate WellFormedData(data: JsValue)
  {
    data.JsArray? && |data.elements| == 2
    && IsUint64BigInt(data.elements[0]) && IsUint64BigInt(data.elements[1])
  }

  /** The validation chain of `OnCalledStatic`: every check that fails gives nothing. It yields
      a pair exactly when the data is well formed, and the pair is the two BigInts' values. */
  function DecodeData(data: JsValue): (r: Option<(Uint64, Uint64)>)
    ensures r.Some? <==> WellFormedData(data)
    ensures r.Some? ==> r.value == (data.elements[0].item.value, data.elements[1].item.value)
  {
    if !data.JsArray? then None
    else if |data.elements| != 2 then None
    else
      var first := data.elements[0];
      var second := data.elements[1];
      if first.Failing? then None
      else if !first.item.BigInt? then None
      else
        var (callerId, lossless0) := Uint64Value(first.item.value);
        if !lossless0 then None
        else if second.Failing? then None
        else if !second.item.BigInt? then None
        else
          var (callbackId, lossless1) := Uint64Value(second.item.value);
          if !lossless1 then None
          else Some((callerId, callbackId))
  }

  /** Distinct id pairs give distinct data. */
  lemma EncodeDataInjective(a: Uint64, b: Uint64, c: Uint64, d: Uint64)
    requires EncodeData(a, b) == EncodeData(c, d)
    ensures a == c && b == d
  {
  }

  /** One call of the host callback: the caller that made it, the callback id, and the call's
      arguments (standing in for the handle the value factory makes of them). */
  datatype Invocation = Invocation(caller: Caller, callbackId: Uint64, args: seq<JsValue>)

  /** What a call of a minted function does to the host: no invocation unless the data decodes
      and its caller id is registered; then one invocation of that caller with the decoded
      callback id and the call's arguments, unchanged and in order. */
  function Dispatch(s: RegistryState, data: JsValue, args: seq<JsValue>): (r: Option<Invocation>)
    ensures !WellFormedData(data) ==> r == None
    ensures r.Some? <==> WellFormedData(data) && Lookup(s, data.elements[0].item.value).Some?
    ensures r.Some? ==> r.value == Invocation(Lookup(s, data.elements[0].item.value).value,
                                              data.elements[1].item.value, args)
  {
    match DecodeData(data)
    case None => None
    case Some((callerId, callbackId)) =>
      match Lookup(s, callerId)
      case None => None
      case Some(caller) => Some(Invocation(caller, callbackId, args))
  }

  /** Calling a minted function while its caller is registered invokes that caller once, with
      the callback id the function was minted for; once the id is gone, nothing is invoked. */
  lemma DispatchEncoded(s: RegistryState, callerId: Uint64, callbackId: Uint64, args: seq<JsValue>)
    ensures callerId in s.callers ==>
              Dispatch(s, EncodeData(callerId, callbackId), args)
                == Some(Invocation(s.callers[callerId], callbackId, args))
    ensures callerId !in s.callers ==> Dispatch(s, EncodeData(callerId, callbackId), args) == None
  {
  }

  /** After a holder's release, functions minted with its id invoke nothing, then and after any
      later registrations and unregistrations by other contexts, as long as the counter does not
      wrap: a released id is never brought back. */
  lemma StaleCallbackIgnored(s: RegistryState, ops: seq<Op>, callerId: Uint64, callbackId: Uint64,
                             args: seq<JsValue>)
    requires IdsBelowNext(s) && callerId < s.nextId
    requires s.nextId + |IssuedIds(Unregistered(s, callerId), ops)| < UINT64_LIMIT
    ensures Dispatch(Run(Unregistered(s, callerId), ops), EncodeData(callerId, callbackId), args) == None
  {
    DeadIdStaysDead(Unregistered(s, callerId), ops, callerId);
  }

  /** The host side: a record of every callback invocation, in order. */
  class Host {
    ghost var calls: seq<Invocation>

    constructor ()
      ensures calls == []
    {
      calls := [];
    }

    /** `JSCallbackCaller::DoCallback`: converts the argument array and calls the host. */
    method DoCallback(caller: Caller, callbackId: Uint64, args: array<JsValue>)
      modifies this
      ensures calls == old(calls) + [Invocation(caller, callbackId, args[..])]
    {
      calls := calls + [Invocation(caller, callbackId, args[..])];
    }
  }

  /** Builds the argument array with one slot per call argument, filled in order by a counter
      that steps from the first argument to the last. */
  method CopyArguments(info: seq<JsValue>) returns (args: array<JsValue>)
    ensures args[..] == info
  {
    args := new JsValue[|info|];
    var idx := 0;
    while idx < |info|
      invariant 0 <= idx <= |info|
      invariant args[..idx] == info[..idx]
    {
      args[idx] := info[idx];
      idx := idx + 1;
    }
    assert args[..] == args[..idx];
  }

  /** `OnCalledStatic`: decode the function's data, copy the arguments, look the caller up, and
      invoke it only when found. The host sees exactly the invocation `Dispatch` describes, or
      none; the registry is only read. */
  method OnCalledStatic(registry: CallerRegistry, host: Host, data: JsValue, info: seq<JsValue>)
    modifies host
    ensures Dispatch(registry.State(), data, info).None? ==> host.calls == old(host.calls)
    ensures Dispatch(registry.State(), data, info).Some? ==>
              host.calls == old(host.calls) + [Dispatch(registry.State(), data, info).value]
  {
    var decoded := DecodeData(data);
    if decoded.None? {
      return;
    }
    var (callerId, callbackId) := decoded.value;
    var args := CopyArguments(info);
    var caller := registry.Get(callerId);
    if caller.None? {
      return;
    }
    host.DoCallback(caller.value, callbackId, args);
  }

  /** A script function minted by the maker: the native entry point is always `OnCalledStatic`,
      so the function is characterised by the data attached to it. */
  datatype MintedFunction = MintedFunction(data: JsValue)

  /** `JSCallbackMaker`: one per execution context, owning the holder of that context's caller. */
  class CallbackMaker {
    const holder: CallerHolder

    constructor (registry: CallerRegistry, factory: FactoryRef, callback: HostCallback)
      modifies registry
      ensures holder.registry == registry
      ensures (registry.State(), holder.id)
                == Registered(old(registry.State()), Caller(factory, callback))
    {
      holder := new CallerHolder(registry, factory, callback);
    }

    /** `MakeJSCallback`: a function whose data decodes to this maker's caller id and the given
        callback id. */
    method MakeJsCallback(callbackId: Uint64) returns (f: MintedFunction)
      ensures DecodeData(f.data) == Some((holder.id, callbackId))
      ensures f.data.JsArray? && |f.data.elements| == 2
    {
      var data := EncodeData(holder.id, callbackId);
      f := MintedFunction(data);
    }
  }

  /** A context's whole life: a function minted by its maker, called while the context lives,
      invokes the host once with the callback id and arguments; called again after the maker's
      holder is released and another context has registered its own caller, it invokes nothing. */
  method TeardownScenario(firstId: Uint64, factory: FactoryRef, callback: HostCallback,
                          callbackId: Uint64, args: seq<JsValue>) returns (host: Host)
    ensures host.calls == [Invocation(Caller(factory, callback), callbackId, args)]
  {
    var registry := new CallerRegistry(firstId);
    var maker := new CallbackMaker(registry, factory, callback);
    var f := maker.MakeJsCallback(callbackId);
    host := new Host();
    OnCalledStatic(registry, host, f.data, args);
    assert host.calls == [Invocation(Caller(factory, callback), callbackId, args)];
    maker.holder.Release();
    var laterMaker := new CallbackMaker(registry, factory, callback);
    OnCalledStatic(registry, host, f.data, args);
  }

}
