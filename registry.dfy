/** The type-keyed service registry of QuickServiceLocator, as values.

    The registry's process-wide state is two dictionaries keyed by a type
    identity: the registered factories (with their locating mode) and the
    cached shared instances. Each public operation is given here as a pure
    step function from the state before the call to the state after it (and
    the call's reply); the class in module ServiceLocator is proved against
    these functions. */
module Registry {

  /** Loading way of a registered service. */
  datatype LocatingMode =
    | NewInstance         // build a new instance on every locate
    | LazySharedInstance  // build one shared instance on the first locate
    | SharedInstance      // build one shared instance at registration

  /** The identity of a metatype (`ObjectIdentifier(T.self)`), opaque: two
      are equal exactly when they denote the same type. */
  type TypeId(==, !new)

  /** A type-erased service instance (`Any`): its dynamic type, which the
      cast `conforms` may consult, and its object identity. */
  datatype Value = Instance(dynamicType: TypeId, identity: nat)

  /** A factory closure. Its argument is the number of factory invocations the
      registry has made before this one; it stands for whatever state the
      closure observes, so that two invocations may build different instances. */
  type Factory = nat -> Value

  /** The dynamic cast `as? T`: whether a stored value can be viewed as the
      type with the given identity. */
  type Conformance = (Value, TypeId) -> bool

  /** What `factories` stores for a key. */
  datatype Entry = Entry(mode: LocatingMode, factory: Factory)

  /** The two `fatalError` calls of `locate`, as error values. */
  datatype LocateError =
    | Unregistered(key: TypeId)  // "factory: T is not registered"
    | TypeMismatch(key: TypeId)  // "Is not the expected type: [T]"

  datatype Result<T> = Success(value: T) | Failure(error: LocateError)

  datatype Outcome = Pass | Fail(error: LocateError)

  /** The registry's state: the two static dictionaries and the number of
      factory invocations made so far. */
  datatype State = State(
    factories: map<TypeId, Entry>,
    sharedInstances: map<TypeId, Value>,
    builds: nat)

  /** Both dictionaries start empty. */
  const Empty: State := State(map[], map[], 0)

  /** Reply of `locate`: the state after the call and the instance or error. */
  datatype Located = Located(state: State, result: Result<Value>)

  /** Reply of `register`: the state after the call and whether the eager
      locate of a shared instance failed. */
  datatype Registered = Registered(state: State, outcome: Outcome)

  /** `factory() as? T`, failing with a type mismatch. */
  function Cast(v: Value, t: TypeId, conforms: Conformance): (r: Result<Value>)
    ensures r.Success? <==> conforms(v, t)
    ensures r.Success? ==> r.value == v
    ensures r.Failure? ==> r.error == TypeMismatch(t)
  {
    if conforms(v, t) then Success(v) else Failure(TypeMismatch(t))
  }

  /** Invokes a factory: the product and the invocation counted. */
  function Invoke(s: State, f: Factory): (Value, State)
  {
    (f(s.builds), s.(builds := s.builds + 1))
  }

  /** `locate(t)`: resolve a service by its registered mode. */
  function LocateStep(s: State, t: TypeId, conforms: Conformance): (r: Located)
    // locate never changes a registration
    ensures r.state.factories == s.factories
    // the key is unregistered exactly when locate fails with Unregistered
    ensures r.result == Failure(Unregistered(t)) <==> t !in s.factories
    ensures t !in s.factories ==> r.state == s
    // a located instance can always be viewed as the requested type
    ensures r.result.Success? ==> conforms(r.result.value, t)
    // at most one factory invocation per call
    ensures r.state.builds == s.builds || r.state.builds == s.builds + 1
    // only the requested key's cache entry can change, and only on success
    ensures r.result.Failure? ==> r.state.sharedInstances == s.sharedInstances
    ensures r.state.sharedInstances - {t} == s.sharedInstances - {t}
    ensures (r.result.Success? && t in s.factories && s.factories[t].mode != NewInstance) ==>
              t in r.state.sharedInstances && r.state.sharedInstances[t] == r.result.value
  {
    if t !in s.factories then
      Located(s, Failure(Unregistered(t)))
    else
      var entry := s.factories[t];
      match entry.mode
      case NewInstance =>
        var (product, s') := Invoke(s, entry.factory);
        Located(s', Cast(product, t, conforms))
      case _ =>
        if t in s.sharedInstances && conforms(s.sharedInstances[t], t) then
          Located(s, Success(s.sharedInstances[t]))
        else
          var (product, s') := Invoke(s, entry.factory);
          if conforms(product, t) then
            Located(s'.(sharedInstances := s.sharedInstances[t := product]), Success(product))
          else
            Located(s', Failure(TypeMismatch(t)))
  }

  /** `register(t, mode, factory)`: store the factory, then locate at once
      when the mode is SharedInstance. */
  function RegisterStep(s: State, t: TypeId, mode: LocatingMode, f: Factory, conforms: Conformance)
    : (r: Registered)
    // the entry for t is replaced, every other entry is kept
    ensures r.state.factories == s.factories[t := Entry(mode, f)]
    ensures IsRegistered(r.state, t)
    // only the eager mode touches the cache, invokes a factory or can fail
    ensures mode != SharedInstance ==>
              && r.outcome == Pass
              && r.state.sharedInstances == s.sharedInstances
              && r.state.builds == s.builds
    ensures r.state.sharedInstances - {t} == s.sharedInstances - {t}
  {
    var s' := s.(factories := s.factories[t := Entry(mode, f)]);
    if mode == SharedInstance then
      var located := LocateStep(s', t, conforms);
      Registered(located.state, if located.result.Success? then Pass else Fail(located.result.error))
    else
      Registered(s', Pass)
  }

  /** `unregister(t)`: drop the factory and the cached instance of t. */
  function UnregisterStep(s: State, t: TypeId): (r: State)
    ensures !IsRegistered(r, t) && t !in r.sharedInstances
    ensures forall k :: k != t ==> (k in r.factories <==> k in s.factories)
    ensures forall k :: k != t && k in r.factories ==> r.factories[k] == s.factories[k]
    ensures forall k :: k != t ==> (k in r.sharedInstances <==> k in s.sharedInstances)
    ensures forall k :: k != t && k in r.sharedInstances ==> r.sharedInstances[k] == s.sharedInstances[k]
    ensures r.builds == s.builds
    // a no-op when t was never registered nor cached
    ensures t !in s.factories && t !in s.sharedInstances ==> r == s
  {
    s.(factories := s.factories - {t}, sharedInstances := s.sharedInstances - {t})
  }

  /** `isRegister(t)`. */
  predicate IsRegistered(s: State, t: TypeId)
  {
    t in s.factories
  }

  /** What the dictionaries keep true between calls: only registered keys are
      cached, and a cached instance passed the cast to its key's type. */
  predicate Invariant(s: State, conforms: Conformance)
  {
    && s.sharedInstances.Keys <= s.factories.Keys
    && forall k :: k in s.sharedInstances ==> conforms(s.sharedInstances[k], k)
  }

  // ---------------------------------------------------------------------------
  // locate, mode by mode

  /** Under NewInstance each locate invokes the factory once, with the current
      invocation count, and returns its product if it has the requested type;
      the cache is never written. */
  lemma LocateNewInstance(s: State, t: TypeId, conforms: Conformance)
    requires t in s.factories && s.factories[t].mode == NewInstance
    ensures var r := LocateStep(s, t, conforms);
            && r.state == s.(builds := s.builds + 1)
            && r.result == Cast(s.factories[t].factory(s.builds), t, conforms)
  {
  }

  /** Under a shared mode, a cached instance of the requested type is returned
      as it is: no factory is invoked and nothing changes. */
  lemma LocateSharedCached(s: State, t: TypeId, conforms: Conformance)
    requires t in s.factories && s.factories[t].mode != NewInstance
    requires t in s.sharedInstances && conforms(s.sharedInstances[t], t)
    ensures LocateStep(s, t, conforms) == Located(s, Success(s.sharedInstances[t]))
  {
  }

  /** Under a shared mode with nothing castable cached, the factory is invoked
      once; its product is cached and returned when it has the requested type,
      and nothing is cached when it has not. */
  lemma LocateSharedBuilds(s: State, t: TypeId, conforms: Conformance)
    requires t in s.factories && s.factories[t].mode != NewInstance
    requires !(t in s.sharedInstances && conforms(s.sharedInstances[t], t))
    ensures var product := s.factories[t].factory(s.builds);
            var r := LocateStep(s, t, conforms);
            && r.state.builds == s.builds + 1
            && r.result == Cast(product, t, conforms)
            && r.state.sharedInstances
               == if conforms(product, t) then s.sharedInstances[t := product] else s.sharedInstances
  {
  }

  /** Once a shared-mode locate has succeeded, the next one returns the same
      instance and changes nothing. */
  lemma SharedLocateSettles(s: State, t: TypeId, conforms: Conformance)
    requires t in s.factories && s.factories[t].mode != NewInstance
    requires LocateStep(s, t, conforms).result.Success?
    ensures var first := LocateStep(s, t, conforms);
            LocateStep(first.state, t, conforms) == first
  {
  }

  /** Every step keeps the invariant. */
  lemma LocatePreservesInvariant(s: State, t: TypeId, conforms: Conformance)
    requires Invariant(s, conforms)
    ensures Invariant(LocateStep(s, t, conforms).state, conforms)
  {
  }

  lemma RegisterPreservesInvariant(s: State, t: TypeId, mode: LocatingMode, f: Factory, conforms: Conformance)
    requires Invariant(s, conforms)
    ensures Invariant(RegisterStep(s, t, mode, f, conforms).state, conforms)
  {
  }

  lemma UnregisterPreservesInvariant(s: State, t: TypeId, conforms: Conformance)
    requires Invariant(s, conforms)
    ensures Invariant(UnregisterStep(s, t), conforms)
  {
  }

  /** Under the invariant, a cached instance is always of its key's type, so
      a shared-mode locate of a cached key never invokes a factory. */
  lemma CachedKeyNeverRebuilds(s: State, t: TypeId, conforms: Conformance)
    requires Invariant(s, conforms)
    requires t in s.sharedInstances
    ensures t in s.factories
    ensures s.factories[t].mode != NewInstance ==>
              LocateStep(s, t, conforms) == Located(s, Success(s.sharedInstances[t]))
  {
  }

  // ---------------------------------------------------------------------------
  // register

  /** Eager registration with nothing castable cached: the new factory is
      invoked once and, when its product has the right type, that product is
      cached by the time register returns. */
  lemma RegisterSharedBuildsNow(s: State, t: TypeId, f: Factory, conforms: Conformance)
    requires !(t in s.sharedInstances && conforms(s.sharedInstances[t], t))
    ensures var r := RegisterStep(s, t, SharedInstance, f, conforms);
            && r.state.builds == s.builds + 1
            && (conforms(f(s.builds), t) ==>
                  r.outcome == Pass && r.state.sharedInstances == s.sharedInstances[t := f(s.builds)])
            && (!conforms(f(s.builds), t) ==>
                  r.outcome == Fail(TypeMismatch(t)) && r.state.sharedInstances == s.sharedInstances)
  {
  }

  /** Eager registration over a castable cached instance keeps that instance:
      the new factory is not invoked. */
  lemma RegisterSharedKeepsCachedInstance(s: State, t: TypeId, f: Factory, conforms: Conformance)
    requires t in s.sharedInstances && conforms(s.sharedInstances[t], t)
    ensures var r := RegisterStep(s, t, SharedInstance, f, conforms);
            && r.outcome == Pass
            && r.state.sharedInstances == s.sharedInstances
            && r.state.builds == s.builds
  {
  }

  /** Re-registering a cached key under a shared mode does not invalidate the
      cache: the next locate returns the instance cached before, and the new
      factory is never invoked. */
  lemma ReregisterKeepsCachedInstance(s: State, t: TypeId, mode: LocatingMode, f: Factory, conforms: Conformance)
    requires Invariant(s, conforms)
    requires t in s.sharedInstances && mode != NewInstance
    ensures var r := RegisterStep(s, t, mode, f, conforms);
            LocateStep(r.state, t, conforms) == Located(r.state, Success(s.sharedInstances[t]))
            && r.state.builds == s.builds
  {
  }

  // ---------------------------------------------------------------------------
  // unregister and isRegister

  /** After unregister, isRegister is false and locate fails as unregistered. */
  lemma UnregisterThenLocateFails(s: State, t: TypeId, conforms: Conformance)
    ensures var s' := UnregisterStep(s, t);
            && !IsRegistered(s', t)
            && LocateStep(s', t, conforms) == Located(s', Failure(Unregistered(t)))
  {
  }

  /** The sequence of the second test case: isRegister is false, register
      with the default mode, locate, isRegister is true, unregister,
      isRegister is false again. */
  lemma RegisterLocateUnregisterScenario(s: State, t: TypeId, f: Factory, conforms: Conformance)
    requires !IsRegistered(s, t) && t !in s.sharedInstances
    requires conforms(f(s.builds), t)
    ensures var registered := RegisterStep(s, t, LazySharedInstance, f, conforms);
            var located := LocateStep(registered.state, t, conforms);
            var unregistered := UnregisterStep(located.state, t);
            && registered.outcome == Pass
            && located.result == Success(f(s.builds))
            && IsRegistered(located.state, t)
            && !IsRegistered(unregistered, t)
            && unregistered.factories == s.factories
            && unregistered.sharedInstances == s.sharedInstances
  {
  }
}
