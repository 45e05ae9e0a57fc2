/** Sequences of calls on the process-wide registry: repeated locates of one
    key, and arbitrary call sequences over the registry's lifetime. A fatal
    error ends the process, so a sequence stops at the first failing call. */
module RegistryTraces {
  import opened Registry

  /** The state after some locates of one key, and each call's result. */
  datatype Locates = Locates(state: State, results: seq<Result<Value>>)

  /** `locate(t)` called n times in a row; stops after the first failure. */
  function LocateRepeatedly(s: State, t: TypeId, conforms: Conformance, n: nat): (r: Locates)
    ensures |r.results| <= n
    // the process only goes on after a successful call
    ensures forall i :: 0 <= i < |r.results| - 1 ==> r.results[i].Success?
    ensures |r.results| < n ==> |r.results| > 0 && r.results[|r.results| - 1].Failure?
    ensures r.state.factories == s.factories
    decreases n
  {
    if n == 0 then
      Locates(s, [])
    else
      var first := LocateStep(s, t, conforms);
      if first.result.Failure? then
        Locates(first.state, [first.result])
      else
        var rest := LocateRepeatedly(first.state, t, conforms, n - 1);
        Locates(rest.state, [first.result] + rest.results)
  }

  /** Shared modes: once a locate has succeeded, any number of further locates
      return that same instance, invoke no factory and change no state. */
  lemma {:induction false} SharedLocateIsStable(s: State, t: TypeId, conforms: Conformance, n: nat)
    requires t in s.factories && s.factories[t].mode != NewInstance
    requires LocateStep(s, t, conforms).result.Success?
    ensures var first := LocateStep(s, t, conforms);
            var rest := LocateRepeatedly(first.state, t, conforms, n);
            && rest.state == first.state
            && |rest.results| == n
            && forall i :: 0 <= i < n ==> rest.results[i] == first.result
    decreases n
  {
    var first := LocateStep(s, t, conforms);
    SharedLocateSettles(s, t, conforms);
    if n > 0 {
      SharedLocateIsStable(first.state, t, conforms, n - 1);
    }
  }

  /** NewInstance: the i-th of n locates invokes the factory once more, with
      the invocation count i higher than at the start, and returns its product
      cast to the requested type; the cache is never touched. */
  lemma {:induction false} NewInstanceBuildsEveryTime(s: State, t: TypeId, conforms: Conformance, n: nat)
    requires t in s.factories && s.factories[t].mode == NewInstance
    ensures var r := LocateRepeatedly(s, t, conforms, n);
            && r.state.builds == s.builds + |r.results|
            && r.state.sharedInstances == s.sharedInstances
            && forall i :: 0 <= i < |r.results| ==>
                 r.results[i] == Cast(s.factories[t].factory(s.builds + i), t, conforms)
    decreases n
  {
    if n > 0 {
      var first := LocateStep(s, t, conforms);
      LocateNewInstance(s, t, conforms);
      if first.result.Success? {
        NewInstanceBuildsEveryTime(first.state, t, conforms, n - 1);
        var rest := LocateRepeatedly(first.state, t, conforms, n - 1);
        var r := LocateRepeatedly(s, t, conforms, n);
        forall i | 0 <= i < |r.results|
          ensures r.results[i] == Cast(s.factories[t].factory(s.builds + i), t, conforms)
        {
          if i > 0 {
            assert r.results[i] == rest.results[i - 1];
          }
        }
      }
    }
  }

  /** One call of the public API. */
  datatype Call =
    | RegisterCall(key: TypeId, mode: LocatingMode, factory: Factory)
    | LocateCall(key: TypeId)
    | UnregisterCall(key: TypeId)
    | IsRegisterCall(key: TypeId)

  /** The state after one call, and whether the process survives it. */
  function Perform(s: State, call: Call, conforms: Conformance): (State, bool)
  {
    match call
    case RegisterCall(t, mode, f) =>
      var r := RegisterStep(s, t, mode, f, conforms);
      (r.state, r.outcome.Pass?)
    case LocateCall(t) =>
      var r := LocateStep(s, t, conforms);
      (r.state, r.result.Success?)
    case UnregisterCall(t) => (UnregisterStep(s, t), true)
    case IsRegisterCall(_) => (s, true)
  }

  /** The state after a sequence of calls, up to the first fatal error. */
  function Run(s: State, calls: seq<Call>, conforms: Conformance): State
    decreases |calls|
  {
    if calls == [] then
      s
    else
      var (s', alive) := Perform(s, calls[0], conforms);
      if alive then Run(s', calls[1..], conforms) else s'
  }

  /** From any state that satisfies the invariant, every sequence of calls
      keeps it: cached keys are registered and their instances castable. */
  lemma {:induction false} RunPreservesInvariant(s: State, calls: seq<Call>, conforms: Conformance)
    requires Invariant(s, conforms)
    ensures Invariant(Run(s, calls, conforms), conforms)
    decreases |calls|
  {
    if calls != [] {
      var s' := Perform(s, calls[0], conforms).0;
      match calls[0] {
        case RegisterCall(t, mode, f) => RegisterPreservesInvariant(s, t, mode, f, conforms);
        case LocateCall(t) => LocatePreservesInvariant(s, t, conforms);
        case UnregisterCall(t) => UnregisterPreservesInvariant(s, t, conforms);
        case IsRegisterCall(_) =>
      }
      RunPreservesInvariant(s', calls[1..], conforms);
    }
  }

  /** Whether a call re-registers or unregisters key t. */
  predicate Touches(call: Call, t: TypeId)
  {
    (call.RegisterCall? || call.UnregisterCall?) && call.key == t
  }

  /** A shared instance, once cached, stays registered, cached and unchanged
      across any calls that neither register nor unregister its key; so the
      next locate of that key still returns it without building. */
  lemma {:induction false} CachedInstanceOutlivesOtherCalls(
    s: State, t: TypeId, calls: seq<Call>, conforms: Conformance)
    requires t in s.factories && s.factories[t].mode != NewInstance
    requires t in s.sharedInstances && conforms(s.sharedInstances[t], t)
    requires forall i :: 0 <= i < |calls| ==> !Touches(calls[i], t)
    ensures var s' := Run(s, calls, conforms);
            && t in s'.factories && s'.factories[t] == s.factories[t]
            && t in s'.sharedInstances && s'.sharedInstances[t] == s.sharedInstances[t]
            && LocateStep(s', t, conforms) == Located(s', Success(s.sharedInstances[t]))
    decreases |calls|
  {
    if calls != [] {
      var s' := Perform(s, calls[0], conforms).0;
      assert !Touches(calls[0], t);
      assert s'.factories[t] == s.factories[t];
      assert s'.sharedInstances[t] == s.sharedInstances[t];
      if Perform(s, calls[0], conforms).1 {
        assert forall i :: 0 <= i < |calls[1..]| ==> !Touches(calls[1..][i], t) by {
          forall i | 0 <= i < |calls[1..]| ensures !Touches(calls[1..][i], t) {
            assert calls[1..][i] == calls[i + 1];
          }
        }
        CachedInstanceOutlivesOtherCalls(s', t, calls[1..], conforms);
      }
    }
  }
}
