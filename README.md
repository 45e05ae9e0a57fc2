# QuickServiceLocator, modelled in Dafny

QuickServiceLocator is a process-wide, type-keyed service registry for Swift.
A caller registers a factory for a service type with one of three locating
modes (`newInstance`, `lazySharedInstance`, `sharedInstance`). Later it locates
an instance of that type without naming the implementation. The registry is
two static dictionaries keyed by type identity (`ObjectIdentifier`):

- `factories` holds the mode and factory closure for each key;
- `sharedInstances` holds the cached instance for the shared modes.

The model has three modules:

- `Registry` (registry.dfy) gives the registry state as a value. Each public
  operation is a pure step function from the state before a call to the state
  after it: `LocateStep`, `RegisterStep`, `UnregisterStep`, with
  `IsRegistered` as the query. The lemmas state the per-mode behaviour of
  `locate`, the eager resolution in `register`, and the invariant the two
  dictionaries keep.
- `RegistryTraces` (registry_traces.dfy) covers sequences of calls. It models
  repeated locates of one key and arbitrary call sequences over the process's
  lifetime. Because a fatal error ends the process, a sequence stops at the
  first failing call. Its inductive lemmas cover "built once" for the shared
  modes, "built every time" for `newInstance`, and the invariant over any
  call sequence.
- `ServiceLocator` (service_locator.dfy) has the class `QuickServiceLocator`.
  Its fields are the two dictionaries, and its methods update them in place as
  the Swift code does. Each method is proved to leave exactly the state and
  give exactly the reply of its step function. `Valid()` is the dictionaries'
  invariant.

Abstractions:

- A type identity is the opaque type `TypeId`, standing for the metatype that
  `ObjectIdentifier` identifies. Two identities are equal exactly when they
  denote the same type.
- A stored value is `Value`: a dynamic type and an object identity.
- The dynamic cast `as? T` is the registry's constant
  `conforms: (Value, TypeId) -> bool`. Here `T` is the type whose identity is
  the key.
- A factory is `nat -> Value`. Its argument is the number of factory
  invocations the registry has made so far (`builds`). It stands for whatever
  state the closure can observe, so two invocations may build different
  instances. `builds` also counts factory invocations, which is how "built
  once" and "built every time" are stated.
- Each `fatalError` is an error value: `Unregistered(t)` or
  `TypeMismatch(t)`. `locate` returns `Result<Value>`. `register` returns an
  `Outcome` that carries the failure of its eager locate.

Where one might expect otherwise, the model follows the code:

- Re-registering a key does not clear its cached instance. The Swift code only
  assigns `factories[key]` (QuickServiceLocator.swift:43). A cached instance
  therefore survives re-registration under any mode. Under a shared mode it is
  still what the next `locate` returns, and the new factory is not invoked
  (`Registry.ReregisterKeepsCachedInstance`). For the same reason, a cached
  instance can remain for a key whose current mode is `newInstance`.
- When the eager locate of a `sharedInstance` registration fails, the factory
  entry is already written. The code writes it before it locates. In the
  model, `register` then returns `Fail(...)` with the entry in place.

## Model

| member | source | states |
|---|---|---|
| `Registry.Cast` | Sources/QuickServiceLocator/QuickServiceLocator.swift:83-85 | the guarded cast `factory() as? T` succeeds exactly when the product conforms to the requested type, returning it unchanged; otherwise it fails with TypeMismatch for that type |
| `Registry.LocateStep` | Sources/QuickServiceLocator/QuickServiceLocator.swift:72-97 | locate never changes `factories`; it fails with Unregistered exactly when the key has no factory, and then nothing changes; a located instance always conforms to the requested type; at most one factory invocation per call; only the requested key's cache entry can change, and only on success; a successful shared-mode locate leaves the result cached |
| `Registry.RegisterStep` | Sources/QuickServiceLocator/QuickServiceLocator.swift:40-47 | register replaces the entry for the key with (mode, factory) and keeps every other entry; the key is registered afterwards; outside SharedInstance mode the cache and the invocation count are untouched and register cannot fail; no other key's cached instance changes |
| `Registry.UnregisterStep` | Sources/QuickServiceLocator/QuickServiceLocator.swift:108-112 | unregister removes the key from both dictionaries and keeps every other key and value; it is a no-op for a key that is neither registered nor cached |
| `Registry.LocateNewInstance` | Sources/QuickServiceLocator/QuickServiceLocator.swift:82-86 | under newInstance, locate invokes the factory once with the current invocation count, returns its product cast to the requested type, and never writes the cache |
| `Registry.LocateSharedCached` | Sources/QuickServiceLocator/QuickServiceLocator.swift:87-95 | under a shared mode, a cached instance that conforms is returned as is, with no factory invoked and no state changed |
| `Registry.LocateSharedBuilds` | Sources/QuickServiceLocator/QuickServiceLocator.swift:88-93 | under a shared mode with nothing castable cached, the factory is invoked once; a conforming product is cached and returned, and a mismatching one fails with nothing cached |
| `Registry.SharedLocateSettles` | Sources/QuickServiceLocator/QuickServiceLocator.swift:87-95 | after a successful shared-mode locate, the next locate returns the same reply and changes nothing |
| `Registry.LocatePreservesInvariant` | Sources/QuickServiceLocator/QuickServiceLocator.swift:88-93 | locate keeps the invariant: every cached key is registered and its instance conforms to the key's type |
| `Registry.RegisterPreservesInvariant` | Sources/QuickServiceLocator/QuickServiceLocator.swift:40-47 | register keeps the same invariant |
| `Registry.UnregisterPreservesInvariant` | Sources/QuickServiceLocator/QuickServiceLocator.swift:108-112 | unregister keeps the same invariant |
| `Registry.CachedKeyNeverRebuilds` | Sources/QuickServiceLocator/QuickServiceLocator.swift:88-95 | under the invariant a cached key is registered, and a shared-mode locate of it returns the cached instance without invoking a factory |
| `Registry.RegisterSharedBuildsNow` | Sources/QuickServiceLocator/QuickServiceLocator.swift:43-46 | sharedInstance registration with nothing castable cached invokes the new factory once before register returns; a conforming product is cached by then, and a mismatching one fails with nothing cached |
| `Registry.RegisterSharedKeepsCachedInstance` | Sources/QuickServiceLocator/QuickServiceLocator.swift:43-46 | sharedInstance registration over a castable cached instance keeps that instance and does not invoke the new factory |
| `Registry.ReregisterKeepsCachedInstance` | Sources/QuickServiceLocator/QuickServiceLocator.swift:40-47 | re-registering a cached key under a shared mode does not invalidate the cache: the next locate returns the old instance and the new factory is never invoked |
| `Registry.UnregisterThenLocateFails` | Sources/QuickServiceLocator/QuickServiceLocator.swift:108-112 | after unregister the key is not registered and locate fails with Unregistered |
| `Registry.RegisterLocateUnregisterScenario` | Tests/QuickServiceLocatorTests/QuickSLTest.swift:46-53 | from an unregistered key: register with the default mode, locate returns the factory's product, the key is registered, and after unregister it is not, with both dictionaries as before |
| `RegistryTraces.LocateRepeatedly` | Sources/QuickServiceLocator/QuickServiceLocator.swift:72-97 | n locates of one key in a row: never more than n replies, every reply but the last is a success, fewer than n only when the last one failed, and no registration changes |
| `RegistryTraces.SharedLocateIsStable` | Sources/QuickServiceLocator/QuickServiceLocator.swift:87-95 | under a shared mode, once a locate succeeds, any number of further locates return that same instance, invoke no factory and leave the state as it was |
| `RegistryTraces.NewInstanceBuildsEveryTime` | Sources/QuickServiceLocator/QuickServiceLocator.swift:82-86 | under newInstance, the i-th of a run of locates invokes the factory with the count i above the start and returns that product cast; every call builds, and the cache never changes |
| `RegistryTraces.RunPreservesInvariant` | Sources/QuickServiceLocator/QuickServiceLocator.swift:23-24 | any sequence of register, locate, unregister and isRegister calls keeps the invariant of the two dictionaries |
| `RegistryTraces.CachedInstanceOutlivesOtherCalls` | Sources/QuickServiceLocator/QuickServiceLocator.swift:87-95 | a cached shared instance stays registered, cached and unchanged across any calls that neither register nor unregister its key, and the next locate still returns it without building |
| `ServiceLocator.QuickServiceLocator.constructor` | Sources/QuickServiceLocator/QuickServiceLocator.swift:23-24 | both dictionaries start empty and the invariant holds |
| `ServiceLocator.QuickServiceLocator.Register` | Sources/QuickServiceLocator/QuickServiceLocator.swift:40-47 | updates the dictionaries in place to exactly RegisterStep's state and returns its outcome; the mode defaults to lazySharedInstance |
| `ServiceLocator.QuickServiceLocator.Locate` | Sources/QuickServiceLocator/QuickServiceLocator.swift:72-97 | updates the dictionaries in place to exactly LocateStep's state and returns its result |
| `ServiceLocator.QuickServiceLocator.LocateInferred` | Sources/QuickServiceLocator/QuickServiceLocator.swift:58-60 | the inferred-type locate has exactly the effect and result of locate for that type |
| `ServiceLocator.QuickServiceLocator.Unregister` | Sources/QuickServiceLocator/QuickServiceLocator.swift:108-112 | updates the dictionaries in place to exactly UnregisterStep's state |
| `ServiceLocator.QuickServiceLocator.IsRegister` | Sources/QuickServiceLocator/QuickServiceLocator.swift:116-119 | true exactly when the key has a registered factory; changes nothing |
| `ServiceLocator.RegisterLocateUnregister` | Tests/QuickServiceLocatorTests/QuickSLTest.swift:46-53 | on a fresh registry whose factory's first product has the requested type: isRegister reads false; register with the default mode and locate return that first product; isRegister then reads true, and false after unregister |

## Left out

- The `@propertyWrapper` `QuickSL` (Sources/QuickServiceLocator/QuickSL.swift) is not modelled. Its initialiser only calls `register`, and `wrappedValue` and `resolve` only call `locate`.
- Package.swift is a build manifest.
- Swift generics over metatypes, `ObjectIdentifier`, dynamic casting and `@autoclosure` capture are abstracted as `TypeId`, the `conforms` relation and `Factory` functions. Which casts succeed is left to the caller of the constructor.
- A factory's own side effects are not modelled beyond the invocation count it receives. An example is the `print` in the test double's initialiser.
- Factories are assumed not to call back into the registry (`register`, `locate` or `unregister`), because a factory is a pure function of the invocation count. `Registry.Invariant`, `RegistryTraces.RunPreservesInvariant` and the "built once" lemmas (`RegistryTraces.SharedLocateIsStable`, `Registry.SharedLocateSettles`, `RegistryTraces.CachedInstanceOutlivesOtherCalls`) depend on that. In Swift, a lazySharedInstance factory for K that calls `unregister(K.self)` has K removed at line 110, and line 92 then caches K anyway. K is then cached but unregistered. A factory that locates its own key recurses without end.
- The model assumes callers pass the static metatype (`X.self`, as `locate<T>()` and the `QuickSL` wrapper do), so the cast target `T` is the type whose identity is the key. Swift keys on the dynamic metatype (`ObjectIdentifier(type)`, line 73) but casts to the static `T` (lines 83 and 88-89). With `let m: Base.Type = Derived.self`, `register(m, mode: .sharedInstance, Base())` keys on Derived, and the cast to Base succeeds. The model casts to Derived instead and reports a type mismatch. `Registry.Invariant`'s "a cached instance conforms to its key's type" is the model's reading under this assumption.
- `fatalError` terminates the process. The model returns an error value instead, and call sequences stop at the first error.
- Concurrency is not modelled. The code has no locking, and races on the shared static dictionaries cannot be captured in a sequential model.
- The two dictionaries are static members of a struct, so there is a single global registry. The model uses one object per registry, and a process corresponds to one `QuickServiceLocator` object.
