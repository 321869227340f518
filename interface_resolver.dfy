/**
 * `UIObjectInterfaceResolver`: maps a control-object interface (possibly a
 * constructed generic) to the one concrete control type to instantiate. It
 * takes the "lowest" common base class of all matching types, keeps a
 * process-wide cache and retries once with cleared caches.
 */
module InterfaceResolution {
  import opened Wrappers
  import opened TypeSystem
  import opened Locator

  datatype ResolveError =
    | ControlObjectNotFound(request: TypeId)
    | AmbiguousControlObjectMatch(request: TypeId, matches: seq<TypeId>, lowest: TypeId)

  predicate AllClasses(u: Universe, ts: seq<TypeId>)
  {
    forall t :: t in ts ==> IsClass(u, t)
  }

  // ---------------------------------------------------------------- the lowest type

  /** The inner loop of `LowestType`: climb from `ret` along BaseType until `ret` is assignable from `t`. */
  function Climb(u: Universe, ret: TypeId, t: TypeId): (r: TypeId)
    requires Valid(u) && IsClass(u, ret) && IsClass(u, t)
    ensures IsClass(u, r) && Assignable(u, r, t) && OnBaseChain(u, r, ret)
    ensures forall c :: OnBaseChain(u, c, ret) && Assignable(u, c, t) ==> OnBaseChain(u, c, r)
    decreases ret
  {
    if Assignable(u, ret, t) then ret
    else
      assert ret != u.objectType by {
        ObjectOnEveryChain(u, t);
        BaseChainIsAssignable(u, u.objectType, t);
      }
      assert WellFormedType(u, ret);
      Climb(u, BaseOf(u, ret), t)
  }

  /** One iteration of the outer loop of `LowestType`. */
  function Step(u: Universe, ret: TypeId, t: TypeId): TypeId
    requires Valid(u) && IsClass(u, ret) && IsClass(u, t)
  {
    if Assignable(u, t, ret) then t else Climb(u, ret, t)
  }

  /** The value of `ret` after the outer loop has seen `ts[..n]`. */
  function LowestPrefix(u: Universe, ts: seq<TypeId>, n: nat): (r: TypeId)
    requires Valid(u) && AllClasses(u, ts) && 1 <= n <= |ts|
    ensures IsClass(u, r)
  {
    if n == 1 then ts[0]
    else
      assert ts[n - 1] in ts;
      Step(u, LowestPrefix(u, ts, n - 1), ts[n - 1])
  }

  function LowestOf(u: Universe, ts: seq<TypeId>): TypeId
    requires Valid(u) && AllClasses(u, ts) && |ts| > 0
  {
    LowestPrefix(u, ts, |ts|)
  }

  /** `c` is a class that every one of `ts[..n]` can be assigned to. */
  predicate CommonSuperclass(u: Universe, c: TypeId, ts: seq<TypeId>, n: nat)
    requires n <= |ts|
  {
    IsClass(u, c) && forall j :: 0 <= j < n ==> Assignable(u, c, ts[j])
  }

  /**
   * The loop computes the least common superclass: a class every processed
   * type can be assigned to, which can itself be assigned to every other
   * such class.
   */
  lemma {:induction false} LowestPrefixIsLeast(u: Universe, ts: seq<TypeId>, n: nat)
    requires Valid(u) && AllClasses(u, ts) && 1 <= n <= |ts|
    ensures CommonSuperclass(u, LowestPrefix(u, ts, n), ts, n)
    ensures OnBaseChain(u, LowestPrefix(u, ts, n), ts[0])
    ensures forall c :: CommonSuperclass(u, c, ts, n) ==> Assignable(u, c, LowestPrefix(u, ts, n))
  {
    assert ts[0] in ts;
    if n > 1 {
      LowestPrefixIsLeast(u, ts, n - 1);
      var p := LowestPrefix(u, ts, n - 1);
      var t := ts[n - 1];
      assert t in ts;
      var r := LowestPrefix(u, ts, n);
      if Assignable(u, t, p) {
        assert r == t;
        forall j | 0 <= j < n ensures Assignable(u, r, ts[j]) {
          if j < n - 1 { AssignableTransitive(u, t, p, ts[j]); }
        }
        ClassAssignableIsBaseChain(u, t, p);
        BaseChainTransitive(u, t, p, ts[0]);
      } else {
        assert r == Climb(u, p, t);
        forall j | 0 <= j < n ensures Assignable(u, r, ts[j]) {
          if j < n - 1 {
            BaseChainIsAssignable(u, r, p);
            AssignableTransitive(u, r, p, ts[j]);
          }
        }
        BaseChainTransitive(u, r, p, ts[0]);
        forall c | CommonSuperclass(u, c, ts, n) ensures Assignable(u, c, r) {
          assert CommonSuperclass(u, c, ts, n - 1);
          ClassAssignableIsBaseChain(u, c, p);
          BaseChainIsAssignable(u, c, r);
        }
      }
    }
  }

  /** `LowestType` of a single type is that type. */
  lemma LowestOfSingle(u: Universe, t: TypeId)
    requires Valid(u) && IsClass(u, t)
    ensures LowestOf(u, [t]) == t
  {
  }

  /** `LowestType(types)`: the loop of the source, proved to compute the least common superclass. */
  method LowestType(u: Universe, types: seq<TypeId>) returns (ret: TypeId)
    requires Valid(u) && AllClasses(u, types) && |types| > 0
    ensures ret == LowestOf(u, types)
    ensures CommonSuperclass(u, ret, types, |types|)
    ensures forall c :: CommonSuperclass(u, c, types, |types|) ==> Assignable(u, c, ret)
  {
    ret := types[0];
    var i := 1;
    while i < |types|
      invariant 1 <= i <= |types|
      invariant ret == LowestPrefix(u, types, i)
    {
      var t := types[i];
      assert t in types;
      if Assignable(u, t, ret) {
        ret := t;
      } else {
        ghost var start := ret;
        while !Assignable(u, ret, t)
          invariant IsClass(u, ret)
          invariant Climb(u, ret, t) == Climb(u, start, t)
          decreases ret
        {
          assert ret != u.objectType by {
            ObjectOnEveryChain(u, t);
            BaseChainIsAssignable(u, u.objectType, t);
          }
          ret := BaseOf(u, ret);
        }
      }
      i := i + 1;
    }
    LowestPrefixIsLeast(u, types, |types|);
  }

  // ---------------------------------------------------------------- matches

  /** `Where(e => e.IsAssignableFrom(e))` on the control types: assignability is reflexive, so it keeps them all. */
  function ReflexiveFilter(u: Universe, ts: seq<TypeId>): (r: seq<TypeId>)
    ensures r == ts
  {
    if ts == [] then [] else (if Assignable(u, ts[0], ts[0]) then [ts[0]] else []) + ReflexiveFilter(u, ts[1..])
  }

  function GenericArguments(u: Universe, t: TypeId): seq<TypeId>
  {
    if t < |u.types| then u.types[t].genericArguments else []
  }

  function GenericParameterCount(u: Universe, t: TypeId): nat
  {
    if t < |u.types| then u.types[t].genericParameterCount else 0
  }

  /** `TryResolve`: `MakeGenericType`, with None where it throws. */
  function TryResolve(u: Universe, candidate: TypeId, args: seq<TypeId>): Option<TypeId>
  {
    if (candidate, args) in u.instantiations then Some(u.instantiations[(candidate, args)]) else None
  }

  /** The contribution of one candidate to the matches of `request`. */
  function MatchOf(u: Universe, request: TypeId, c: TypeId): seq<TypeId>
  {
    var args := GenericArguments(u, request);
    if |args| == 0 then (if Assignable(u, request, c) then [c] else [])
    else if GenericParameterCount(u, c) == |args| && TryResolve(u, c, args).Some?
            && Assignable(u, request, TryResolve(u, c, args).value)
    then [TryResolve(u, c, args).value]
    else []
  }

  /** The types `request` is assignable from, among the candidates (or their instantiations for a constructed generic). */
  function Matches(u: Universe, request: TypeId, candidates: seq<TypeId>): (r: seq<TypeId>)
    ensures |GenericArguments(u, request)| == 0 ==>
              forall m :: m in r <==> m in candidates && Assignable(u, request, m)
    ensures |GenericArguments(u, request)| > 0 ==>
              forall m :: m in r <==>
                exists c :: c in candidates && GenericParameterCount(u, c) == |GenericArguments(u, request)|
                  && TryResolve(u, c, GenericArguments(u, request)) == Some(m) && Assignable(u, request, m)
    ensures Valid(u) && AllClasses(u, candidates) ==> AllClasses(u, r)
  {
    if candidates == [] then []
    else
      var rest := Matches(u, request, candidates[1..]);
      assert forall x :: x in candidates <==> x == candidates[0] || x in candidates[1..];
      MatchOf(u, request, candidates[0]) + rest
  }

  /** What a cache miss with the match set `ms` leads to. */
  function Decide(u: Universe, request: TypeId, ms: seq<TypeId>): Result<TypeId, ResolveError>
    requires Valid(u) && AllClasses(u, ms)
  {
    if ms == [] then Err(ControlObjectNotFound(request))
    else
      var lowest := LowestOf(u, ms);
      if Assignable(u, request, lowest) then Ok(lowest)
      else Err(AmbiguousControlObjectMatch(request, ms, lowest))
  }

  /**
   * A decision is the least common superclass of the matches when the request
   * is assignable from it; otherwise the matches are ambiguous.
   */
  lemma DecideSpec(u: Universe, request: TypeId, ms: seq<TypeId>)
    requires Valid(u) && AllClasses(u, ms)
    ensures var r := Decide(u, request, ms);
      (r == Err(ControlObjectNotFound(request)) <==> ms == [])
      && (r.Ok? ==> Assignable(u, request, r.value) && CommonSuperclass(u, r.value, ms, |ms|)
                    && forall c :: CommonSuperclass(u, c, ms, |ms|) ==> Assignable(u, c, r.value))
      && (r.Err? && ms != [] ==>
            r.error == AmbiguousControlObjectMatch(request, ms, LowestOf(u, ms))
            && !Assignable(u, request, LowestOf(u, ms)))
  {
    if ms != [] {
      LowestPrefixIsLeast(u, ms, |ms|);
    }
  }

  /**
   * What a cache miss on `candidates` leads to: the decision on their matches,
   * or, when nothing matches and a retry is allowed, the decision on the
   * matches of a fresh scan.
   */
  function MissOutcome(u: Universe, env: Env, request: TypeId, candidates: seq<TypeId>, retryOnce: bool)
    : Result<TypeId, ResolveError>
    requires Valid(u) && AllClasses(u, candidates)
  {
    var ms := Matches(u, request, candidates);
    if ms == [] && retryOnce then
      assert AllClasses(u, FreshControlObjectTypes(u, env));
      Decide(u, request, Matches(u, request, FreshControlObjectTypes(u, env)))
    else Decide(u, request, ms)
  }

  /**
   * A miss fails with `ControlObjectNotFound` exactly when the candidates, and
   * after a retry the fresh scan too, match nothing; a success is the least
   * common superclass of the matches it was decided on.
   */
  lemma MissOutcomeSpec(u: Universe, env: Env, request: TypeId, candidates: seq<TypeId>, retryOnce: bool)
    requires Valid(u) && AllClasses(u, candidates)
    ensures var r := MissOutcome(u, env, request, candidates, retryOnce);
      var ms := Matches(u, request, candidates);
      var rescan := Matches(u, request, FreshControlObjectTypes(u, env));
      var used := if ms == [] && retryOnce then rescan else ms;
      (r == Err(ControlObjectNotFound(request)) <==> ms == [] && (!retryOnce || rescan == []))
      && (r.Ok? ==> Assignable(u, request, r.value) && CommonSuperclass(u, r.value, used, |used|)
                    && forall c :: CommonSuperclass(u, c, used, |used|) ==> Assignable(u, c, r.value))
  {
    var ms := Matches(u, request, candidates);
    assert AllClasses(u, FreshControlObjectTypes(u, env));
    var rescan := Matches(u, request, FreshControlObjectTypes(u, env));
    if ms == [] && retryOnce {
      DecideSpec(u, request, rescan);
    } else {
      DecideSpec(u, request, ms);
    }
  }

  // ---------------------------------------------------------------- state

  /** The resolver's process-wide caches and the `Locate` they read from. */
  class InterfaceResolver {
    const locate: Locate
    var resolveCache: map<TypeId, TypeId>
    var controlTypesCache: Option<seq<TypeId>>

    ghost predicate Valid()
      reads this, locate
    {
      locate.Valid()
      && (forall k :: k in resolveCache ==>
            IsInterface(locate.u, k) && Assignable(locate.u, k, resolveCache[k]))
      && (controlTypesCache.Some? ==>
            forall t :: t in controlTypesCache.value ==> IsUIObjectType(locate.u, t))
    }

    /** The control types a miss matches against: the cache when filled, otherwise `Locate.ControlObjectTypes()`. */
    ghost function CandidatesFor(env: Env): seq<TypeId>
      reads this, locate
    {
      if controlTypesCache.Some? then controlTypesCache.value else locate.ControlTypesFor(env)
    }

    constructor (locate: Locate)
      requires locate.Valid()
      ensures Valid() && this.locate == locate
      ensures resolveCache == map[] && controlTypesCache.None?
    {
      this.locate := locate;
      resolveCache := map[];
      controlTypesCache := None;
    }

    /** `ResolveControlType(toResolve, retryOnce)`; `attempts` counts the match computations. */
    method ResolveControlType(env: Env, request: TypeId, retryOnce: bool)
      returns (r: Result<TypeId, ResolveError>, ghost attempts: nat)
      requires Valid()
      modifies this, locate
      ensures Valid()
      ensures !IsInterface(locate.u, request) ==>
                r == Ok(request) && unchanged(this) && unchanged(locate) && attempts == 0
      ensures IsInterface(locate.u, request) && request in old(resolveCache) ==>
                r == Ok(old(resolveCache)[request]) && unchanged(this) && unchanged(locate) && attempts == 0
      ensures IsInterface(locate.u, request) && request !in old(resolveCache) ==>
                controlTypesCache.Some? && AllClasses(locate.u, controlTypesCache.value)
                && r == Decide(locate.u, request, Matches(locate.u, request, controlTypesCache.value))
                && 1 <= attempts
                && r == MissOutcome(locate.u, env, request, old(CandidatesFor(env)), retryOnce)
      ensures attempts == 1 ==> controlTypesCache == Some(old(CandidatesFor(env)))
      ensures r.Ok? ==> Assignable(locate.u, request, r.value)
      ensures r.Ok? && IsInterface(locate.u, request) ==> resolveCache == old(resolveCache)[request := r.value]
      ensures r.Err? ==> resolveCache == old(resolveCache)
      ensures attempts <= (if retryOnce then 2 else 1)
      ensures attempts == 2 ==> controlTypesCache == Some(FreshControlObjectTypes(locate.u, env))
      ensures IsInterface(locate.u, request) && request !in old(resolveCache)
              && old(controlTypesCache).None? && old(locate.uiObjectTypes).None? ==>
                controlTypesCache == Some(FreshControlObjectTypes(locate.u, env))
      ensures r.Err? && r.error.ControlObjectNotFound? && retryOnce ==> attempts == 2
      decreases retryOnce
    {
      var u := locate.u;
      if !IsInterface(u, request) {
        r, attempts := Ok(request), 0;
        return;
      }
      if request in resolveCache {
        r, attempts := Ok(resolveCache[request]), 0;
        return;
      }
      var ms := ComputeMatches(env, request);
      if ms == [] && !retryOnce {
        r, attempts := Err(ControlObjectNotFound(request)), 1;
      } else if ms == [] {
        locate.ClearCaches();
        controlTypesCache := None;
        ghost var a;
        r, a := ResolveControlType(env, request, false);
        attempts := a + 1;
      } else {
        var lowest := LowestType(u, ms);
        if !Assignable(u, request, lowest) {
          r := Err(AmbiguousControlObjectMatch(request, ms, lowest));
        } else {
          resolveCache := resolveCache[request := lowest];
          r := Ok(lowest);
        }
        attempts := 1;
      }
    }

    /** Fills `controlTypesCache` when it is empty and computes the matches of `request` on it. */
    method ComputeMatches(env: Env, request: TypeId) returns (ms: seq<TypeId>)
      requires Valid()
      modifies this`controlTypesCache, locate`controlObjectTypes, locate`uiObjectTypes,
               locate`assembliesWithLoadErrors, locate`loadErrorLog
      ensures Valid() && resolveCache == old(resolveCache)
      ensures controlTypesCache.Some? && AllClasses(locate.u, controlTypesCache.value)
      ensures old(controlTypesCache).Some? ==> unchanged(this) && unchanged(locate)
      ensures old(controlTypesCache).None? && old(locate.uiObjectTypes).None? ==>
                controlTypesCache == Some(FreshControlObjectTypes(locate.u, env))
      ensures controlTypesCache == Some(old(CandidatesFor(env)))
      ensures old(controlTypesCache).None? ==>
                locate.controlObjectTypes == Some(old(locate.ControlTypesFor(env)))
                && locate.uiObjectTypes == Some(old(locate.UITypesFor(env)))
                && locate.assembliesWithLoadErrors == old(locate.ErrorsFor(env))
      ensures ms == Matches(locate.u, request, controlTypesCache.value) && AllClasses(locate.u, ms)
    {
      if controlTypesCache.None? {
        var cts := locate.ControlObjectTypes(env);
        controlTypesCache := Some(ReflexiveFilter(locate.u, cts));
      }
      ms := Matches(locate.u, request, controlTypesCache.value);
    }

    /** `Resolve<TControl>()`: resolution with one retry allowed. */
    method Resolve(env: Env, request: TypeId) returns (r: Result<TypeId, ResolveError>)
      requires Valid()
      modifies this, locate
      ensures Valid()
      ensures !IsInterface(locate.u, request) ==> r == Ok(request) && unchanged(this) && unchanged(locate)
      ensures IsInterface(locate.u, request) && request in old(resolveCache) ==>
                r == Ok(old(resolveCache)[request]) && unchanged(this) && unchanged(locate)
      ensures r.Ok? ==> Assignable(locate.u, request, r.value)
      ensures r.Ok? && IsInterface(locate.u, request) ==> resolveCache == old(resolveCache)[request := r.value]
      ensures r.Err? ==> resolveCache == old(resolveCache)
      ensures r.Err? && r.error.ControlObjectNotFound? ==>
                controlTypesCache == Some(FreshControlObjectTypes(locate.u, env))
      ensures IsInterface(locate.u, request) && request !in old(resolveCache) ==>
                r == MissOutcome(locate.u, env, request, old(CandidatesFor(env)), true)
    {
      ghost var attempts;
      r, attempts := ResolveControlType(env, request, true);
    }
  }
}
