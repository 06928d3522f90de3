# Script-to-host callback bridge (PyMiniRacer `js_callback_maker.cc`)

A model of the layer that lets script code running in a V8 isolate call back into the host
safely, even after the host-side context that minted the callback has been torn down. Instead
of embedding native pointers in script objects, each minted script function carries two
unsigned 64-bit ids as attached data: the id of a *caller* registered in a process-wide
*caller registry*, and a host-assigned callback id. When script code calls the function, the
static entry point decodes the data, looks the caller up and invokes it only if it is still
registered; every malformed or stale call returns silently.

Files:

- `wrappers.dfy` — `Option`.
- `js_values.dfy` — script values as seen by the bridge (`BigInt`, arrays whose element reads
  may fail, anything else), `uint64_t`, and the two BigInt conversions the code uses
  (`BigInt::Uint64Value` with its `lossless` flag, `BigInt::NewFromUnsigned`).
- `callers.dfy` — the registry (`JSCallbackCallerRegistry`) as a state value with one function
  per operation, a `CallerRegistry` class whose methods are proved against those functions, the
  holder (`JSCallbackCallerHolder`) as a class, and lemmas over arbitrary sequences of registry
  operations (ids strictly increase; a live id survives other holders' activity).
- `callbacks.dfy` — the data encoding of `MakeJSCallback`, the decode/validate chain and the
  dispatch of `OnCalledStatic`, the argument copy loop, the host invocation trace, the
  `JSCallbackMaker` class, and an end-to-end teardown scenario.

The registry's `next_id_` is a `uint64_t` and `next_id_++` wraps at 2^64; the model writes the
wrap out (`Callers.NextId`). The code does nothing to prevent the wrap: after it, `Register`
(line 45) can hand out an id whose entry is still live and overwrite that entry, and the old
holder's destructor would then erase the new caller. Uniqueness of ids, and the guarantee that a
released id never resolves again, are therefore proved only while fewer ids have been handed
out than remain below 2^64.

## Model

| member | source | states |
|---|---|---|
| JsValues.Uint64Value | src/v8_py_frontend/js_callback_maker.cc:155-160 | the conversion is lossless iff the BigInt is in [0, 2^64); a lossless result equals the BigInt; any result is congruent to it modulo 2^64 |
| JsValues.NewFromUnsigned | src/v8_py_frontend/js_callback_maker.cc:105-108 | the BigInt made from a `uint64_t` converts back losslessly to the same value |
| Callers.NextId | src/v8_py_frontend/js_callback_maker.cc:44 | the counter advances by one, and wraps to 0 after 2^64 - 1 |
| Callers.Lookup | src/v8_py_frontend/js_callback_maker.cc:54-62 | the lookup is non-empty iff the id is in the table, and then it is exactly the stored caller |
| Callers.Registered | src/v8_py_frontend/js_callback_maker.cc:38-47 | the returned id is the old counter, the counter advances, the id now resolves to the new caller, every other id resolves as before; with all ids below the counter, the id was free and (without wrap) the invariant is kept |
| Callers.Unregistered | src/v8_py_frontend/js_callback_maker.cc:49-52 | the id resolves to nothing afterwards, every other id as before, the counter is unchanged, an absent id leaves the registry identical |
| Callers.UnregisterIdempotent | src/v8_py_frontend/js_callback_maker.cc:49-52 | unregistering twice equals unregistering once |
| Callers.IssuedIdsIncrease | src/v8_py_frontend/js_callback_maker.cc:44 | over any sequence of registers and unregisters whose registrations keep the counter below 2^64, the ids handed out are strictly increasing, start at the counter and end below the final counter |
| Callers.RunKeepsIdsBelowNext | src/v8_py_frontend/js_callback_maker.cc:44-45 | over any sequence of operations whose registrations keep the counter below 2^64, every registered id stays below the counter |
| Callers.LiveIdSurvives | src/v8_py_frontend/js_callback_maker.cc:64-77 | a registered id keeps resolving to the same caller through any operations that do not unregister it, while the registrations keep the counter below 2^64 |
| Callers.DeadIdStaysDead | src/v8_py_frontend/js_callback_maker.cc:71-73 | an id handed out earlier and no longer registered resolves to nothing after any later registrations and unregistrations, while the registrations keep the counter below 2^64 |
| Callers.CallerRegistry.constructor | src/v8_py_frontend/js_callback_maker.cc:20 | the registry starts empty with the counter at its initial value |
| Callers.CallerRegistry.Register | src/v8_py_frontend/js_callback_maker.cc:38-47 | the new table, counter and returned id are those of `Registered` |
| Callers.CallerRegistry.Unregister | src/v8_py_frontend/js_callback_maker.cc:49-52 | the new table and counter are those of `Unregistered` |
| Callers.CallerRegistry.Get | src/v8_py_frontend/js_callback_maker.cc:54-62 | returns `Lookup` of the current state and changes nothing |
| Callers.CallerHolder.constructor | src/v8_py_frontend/js_callback_maker.cc:64-69 | registers the caller; the holder's id is the one `Register` returned and resolves to that caller |
| Callers.CallerHolder.Release | src/v8_py_frontend/js_callback_maker.cc:71-73 | the destructor: its own id no longer resolves, every other id resolves as before |
| Callbacks.EncodeData | src/v8_py_frontend/js_callback_maker.cc:105-113 | the 2-element data array decodes to exactly the (caller id, callback id) it was built from |
| Callbacks.EncodeDataInjective | src/v8_py_frontend/js_callback_maker.cc:105-113 | different id pairs produce different data |
| Callbacks.DecodeData | src/v8_py_frontend/js_callback_maker.cc:129-176 | yields a pair iff the data is a 2-element array of readable BigInts in the `uint64_t` range, and then the pair is their values |
| Callbacks.Dispatch | src/v8_py_frontend/js_callback_maker.cc:129-190 | malformed data invokes nothing; an invocation happens iff the data is well formed and its caller id is registered, and it carries that caller, the decoded callback id and the arguments |
| Callbacks.DispatchEncoded | src/v8_py_frontend/js_callback_maker.cc:184-190 | calling a minted function invokes the registered caller with the minted callback id, and nothing once the id is absent |
| Callbacks.StaleCallbackIgnored | src/v8_py_frontend/js_callback_maker.cc:99-104 | after its caller id is unregistered, a function minted with it invokes nothing, however many other contexts register or unregister afterwards (while the counter does not wrap) |
| Callbacks.Host.DoCallback | src/v8_py_frontend/js_callback_maker.cc:27-32 | appends exactly one invocation with the caller, callback id and argument contents |
| Callbacks.CopyArguments | src/v8_py_frontend/js_callback_maker.cc:178-182 | the argument array has the call's arguments, same count and order |
| Callbacks.OnCalledStatic | src/v8_py_frontend/js_callback_maker.cc:122-191 | the host trace grows by the one invocation `Dispatch` describes, or not at all; the registry is not modified |
| Callbacks.CallbackMaker.constructor | src/v8_py_frontend/js_callback_maker.cc:79-85 | building the maker registers its caller through its holder |
| Callbacks.CallbackMaker.MakeJsCallback | src/v8_py_frontend/js_callback_maker.cc:87-120 | the minted function's data is a 2-element array decoding to (holder id, callback id) |
| Callbacks.TeardownScenario | src/v8_py_frontend/js_callback_maker.cc:71-73 | a minted function invokes the host once while its maker lives, and nothing after the holder is released and another context has registered |

## Left out

- The registry's `std::mutex`: each registry operation is one indivisible step; concurrent interleavings are not modelled.
- `JSCallbackCallerRegistry::Get()` (the static singleton accessor) and the singleton's initialisation: the registry object is passed explicitly.
- The initial value of `next_id_` is set in `js_callback_maker.h`, which is not part of this model; it is the registry constructor's parameter.
- `shared_ptr` reference counting: a caller is an immutable value, so a lookup that races with unregistering is not modelled.
- Isolate, HandleScope and Context::Scope setup, `v8::Function::New` and `ToLocalChecked`: a minted function is represented by its attached data; an engine failure while creating it or the argument array is not modelled.
- `BinaryValueFactory::New` and `GetHandle`: the value conversion subsystem is not part of this model; an invocation records the argument contents instead of the converted handle, and `MakeJsCallback` returns the function itself, not its wrapped handle.
- The behaviour of the host `Callback` function: each invocation is recorded in a ghost trace.
- Side effects of the two `Array::Get` reads (lines 139-142 read both elements before checking either): a failing read is modelled, script code run by an accessor is not.
- Callers.IssuedIdsIncrease: holds only while the 64-bit counter does not wrap, because `next_id_++` wraps after 2^64 registrations.
- Callers.DeadIdStaysDead: holds only while the counter does not wrap; after the wrap a released id can be handed out again.
- Callbacks.StaleCallbackIgnored: holds only while the counter does not wrap, for the same reason.
