/** QuickServiceLocator: the registry object whose two dictionaries are
    updated in place by register, locate and unregister. Every method is
    proved to leave exactly the state, and give exactly the reply, of the
    matching step function of module Registry. */
module ServiceLocator {
  import opened Registry

  class QuickServiceLocator {
    /** Registered factories and their locating modes, by type identity. */
    var factories: map<TypeId, Entry>
    /** Cached shared instances, by type identity. */
    var sharedInstances: map<TypeId, Value>
    /** Number of factory invocations so far. */
    var builds: nat
    /** The dynamic cast `as? T` of the runtime. */
    const conforms: Conformance

    function Snapshot(): State
      reads this
    {
      State(factories, sharedInstances, builds)
    }

    ghost predicate Valid()
      reads this
    {
      Invariant(Snapshot(), conforms)
    }

    /** Both dictionaries start empty. */
    constructor (conforms: Conformance)
      ensures Valid() && this.conforms == conforms
      ensures Snapshot() == Empty
    {
      factories := map[];
      sharedInstances := map[];
      builds := 0;
      this.conforms := conforms;
    }

    /** Invokes a factory, counting the invocation. */
    method Build(f: Factory) returns (product: Value)
      modifies this`builds
      ensures product == f(old(builds)) && builds == old(builds) + 1
    {
      product := f(builds);
      builds := builds + 1;
    }

    /** register: store (mode, factory) under t, replacing any previous entry;
        in SharedInstance mode locate t at once. */
    method Register(t: TypeId, mode: LocatingMode := LazySharedInstance, f: Factory)
      returns (outcome: Outcome)
      requires Valid()
      modifies this
      ensures Valid()
      ensures Registered(Snapshot(), outcome) == RegisterStep(old(Snapshot()), t, mode, f, conforms)
    {
      factories := factories[t := Entry(mode, f)];
      outcome := Pass;
      if mode == SharedInstance {
        var located := Locate(t);
        if located.Failure? {
          outcome := Fail(located.error);
        }
      }
    }

    /** locate(t): the registered factory's instance by its mode, or the
        fatal error. */
    method Locate(t: TypeId) returns (r: Result<Value>)
      requires Valid()
      modifies this
      ensures Valid()
      ensures Located(Snapshot(), r) == LocateStep(old(Snapshot()), t, conforms)
    {
      if t !in factories {
        return Failure(Unregistered(t));
      }
      var entry := factories[t];
      match entry.mode {
        case NewInstance =>
          var product := Build(entry.factory);
          if !conforms(product, t) {
            return Failure(TypeMismatch(t));
          }
          r := Success(product);
        case _ =>
          if t in sharedInstances && conforms(sharedInstances[t], t) {
            return Success(sharedInstances[t]);
          }
          var product := Build(entry.factory);
          if !conforms(product, t) {
            return Failure(TypeMismatch(t));
          }
          sharedInstances := sharedInstances[t := product];
          r := Success(product);
      }
    }

    /** locate<T>(): the requested type is inferred from the call site; the
        call is locate(T.self). */
    method LocateInferred(t: TypeId) returns (r: Result<Value>)
      requires Valid()
      modifies this
      ensures Valid()
      ensures Located(Snapshot(), r) == LocateStep(old(Snapshot()), t, conforms)
    {
      r := Locate(t);
    }

    /** unregister(t): remove t's factory and cached instance; nothing else
        changes, and an absent t is no error. */
    method Unregister(t: TypeId)
      requires Valid()
      modifies this
      ensures Valid()
      ensures Snapshot() == UnregisterStep(old(Snapshot()), t)
    {
      factories := factories - {t};
      sharedInstances := sharedInstances - {t};
    }

    /** isRegister(t): whether a factory is registered for t. */
    method IsRegister(t: TypeId) returns (registered: bool)
      ensures registered <==> t in factories
      ensures registered == IsRegistered(Snapshot(), t)
    {
      registered := t in factories;
    }
  }

  /** The second test case, run on a fresh registry: a type is first not
      registered; register with the default mode and locate yields the
      factory's first product, and the type is registered; after unregister
      it is not registered again. */
  method RegisterLocateUnregister(conforms: Conformance, t: TypeId, f: Factory)
    returns (before: bool, located: Result<Value>, during: bool, after: bool)
    requires conforms(f(0), t)
    ensures !before && located == Success(f(0)) && during && !after
  {
    var locator := new QuickServiceLocator(conforms);
    before := locator.IsRegister(t);
    var _ := locator.Register(t, f := f);
    located := locator.LocateInferred(t);
    during := locator.IsRegister(t);
    locator.Unregister(t);
    after := locator.IsRegister(t);
  }
}
