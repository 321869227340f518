/**
 * `CompactClassResolverContainer`: a small dependency-injection container.
 * Instances and type mappings are registered; `Resolve` returns a registered
 * instance, or builds the mapped type through the constructor with the most
 * parameters whose parameters can all be resolved in turn.
 *
 * Reflection is replaced by data: `constructors[t]` lists t's instance
 * constructors in reflection order, each with its parameter types, its
 * visibility and whether `Invoke` throws.
 */
module ClassResolver {
  import opened Wrappers
  import opened TypeSystem

  datatype Ctor = Ctor(parameters: seq<TypeId>, isPublic: bool, invokeFails: bool)

  function Arity(c: Ctor): nat
  {
    |c.parameters|
  }

  /** An object graph node: either made outside the container or built by it. */
  class Instance {
    const typeOf: TypeId
    /** The index into the tried constructors that built it; None for objects made elsewhere. */
    const ctorIndex: Option<nat>
    const arguments: seq<Instance>

    constructor (typeOf: TypeId, ctorIndex: Option<nat>, arguments: seq<Instance>)
      ensures this.typeOf == typeOf && this.ctorIndex == ctorIndex && this.arguments == arguments
    {
      this.typeOf := typeOf;
      this.ctorIndex := ctorIndex;
      this.arguments := arguments;
    }
  }

  datatype RegistrationError = NotConcrete(t: TypeId) | NotAssignable(service: TypeId, implementation: TypeId)

  /** Why a `ResolutionFailedException` was raised. */
  datatype Failure = Circular(t: TypeId) | NotRegistered(t: TypeId) | NoConstructorSucceeded(t: TypeId)

  datatype ContainerError =
    | ArgumentNull(parameter: string)
    | ArgumentInvalid(reason: RegistrationError)
    | ResolutionFailed(failure: Failure)

  // ---------------------------------------------------------------- constructor order

  /** Stable insertion for `OrderByDescending(c => c.GetParameters().Length)`. */
  function InsertByArity(c: Ctor, s: seq<Ctor>): seq<Ctor>
  {
    if s == [] || Arity(s[0]) <= Arity(c) then [c] + s else [s[0]] + InsertByArity(c, s[1..])
  }

  lemma {:induction false} InsertByArityPermutes(c: Ctor, s: seq<Ctor>)
    ensures multiset(InsertByArity(c, s)) == multiset([c] + s)
  {
    if !(s == [] || Arity(s[0]) <= Arity(c)) {
      InsertByArityPermutes(c, s[1..]);
      assert s == [s[0]] + s[1..];
    }
  }

  lemma {:induction false} InsertByArityDescending(c: Ctor, s: seq<Ctor>)
    requires DescendingArity(s)
    ensures DescendingArity(InsertByArity(c, s))
    ensures |InsertByArity(c, s)| == |s| + 1
    ensures InsertByArity(c, s)[0] == c || InsertByArity(c, s)[0] == s[0]
  {
    if s == [] || Arity(s[0]) <= Arity(c) {
      var r := [c] + s;
      forall i, j | 0 <= i < j < |r| ensures Arity(r[i]) >= Arity(r[j]) {
        if i == 0 {
          assert Arity(s[0]) >= Arity(s[j - 1]);
        }
      }
    } else {
      var s' := s[1..];
      assert DescendingArity(s');
      InsertByArityDescending(c, s');
      var rest := InsertByArity(c, s');
      assert Arity(rest[0]) <= Arity(s[0]);
      var r := [s[0]] + rest;
      forall i, j | 0 <= i < j < |r| ensures Arity(r[i]) >= Arity(r[j]) {
        if i == 0 && j > 1 {
          assert Arity(rest[0]) >= Arity(rest[j - 1]);
        }
      }
    }
  }

  /** The singleton `[c]` when c has `n` parameters, else nothing. */
  function OneIf(c: Ctor, n: nat): seq<Ctor>
  {
    if Arity(c) == n then [c] else []
  }

  lemma WithArityCons(c: Ctor, s: seq<Ctor>, n: nat)
    ensures WithArity([c] + s, n) == OneIf(c, n) + WithArity(s, n)
  {
    assert ([c] + s)[1..] == s;
  }

  /** Insertion keeps the order of the constructors of each arity: the sort is stable. */
  lemma {:induction false} InsertByArityStable(c: Ctor, s: seq<Ctor>, n: nat)
    ensures WithArity(InsertByArity(c, s), n) == WithArity([c] + s, n)
  {
    if !(s == [] || Arity(s[0]) <= Arity(c)) {
      var rest := InsertByArity(c, s[1..]);
      assert InsertByArity(c, s) == [s[0]] + rest;
      assert s == [s[0]] + s[1..];
      calc {
        WithArity([s[0]] + rest, n);
        { WithArityCons(s[0], rest, n); }
        OneIf(s[0], n) + WithArity(rest, n);
        { InsertByArityStable(c, s[1..], n); WithArityCons(c, s[1..], n); }
        OneIf(s[0], n) + (OneIf(c, n) + WithArity(s[1..], n));
        { assert OneIf(s[0], n) == [] || OneIf(c, n) == []; }
        OneIf(c, n) + (OneIf(s[0], n) + WithArity(s[1..], n));
        { WithArityCons(s[0], s[1..], n); }
        OneIf(c, n) + WithArity(s, n);
        { WithArityCons(c, s, n); }
        WithArity([c] + s, n);
      }
    }
  }

  /** `OrderByDescending(c => c.GetParameters().Length)`, built by insertion. */
  function SortByArity(cs: seq<Ctor>): (r: seq<Ctor>)
    ensures |r| == |cs|
  {
    if cs == [] then []
    else
      var rest := SortByArity(cs[1..]);
      InsertByArityPermutes(cs[0], rest);
      assert |InsertByArity(cs[0], rest)| == |[cs[0]] + rest| by {
        assert |multiset(InsertByArity(cs[0], rest))| == |multiset([cs[0]] + rest)|;
      }
      InsertByArity(cs[0], rest)
  }

  /** The sort is a permutation into descending arity. */
  lemma {:induction false} SortByArityPermutes(cs: seq<Ctor>)
    ensures multiset(SortByArity(cs)) == multiset(cs)
    ensures DescendingArity(SortByArity(cs))
  {
    if cs != [] {
      var rest := SortByArity(cs[1..]);
      SortByArityPermutes(cs[1..]);
      assert cs == [cs[0]] + cs[1..];
      InsertByArityDescending(cs[0], rest);
      InsertByArityPermutes(cs[0], rest);
    }
  }

  lemma {:induction false} SortByArityStable(cs: seq<Ctor>, n: nat)
    ensures WithArity(SortByArity(cs), n) == WithArity(cs, n)
  {
    if cs != [] {
      var rest := SortByArity(cs[1..]);
      InsertByArityStable(cs[0], rest, n);
      WithArityCons(cs[0], rest, n);
      SortByArityStable(cs[1..], n);
      WithArityCons(cs[0], cs[1..], n);
      assert cs == [cs[0]] + cs[1..];
    }
  }

  predicate DescendingArity(s: seq<Ctor>)
  {
    forall i, j :: 0 <= i < j < |s| ==> Arity(s[i]) >= Arity(s[j])
  }

  /** The constructors with `n` parameters, in order. */
  function WithArity(s: seq<Ctor>, n: nat): seq<Ctor>
  {
    if s == [] then [] else OneIf(s[0], n) + WithArity(s[1..], n)
  }

  /** `GetConstructors()`: the public constructors, in declaration order. */
  function Publics(cs: seq<Ctor>): (r: seq<Ctor>)
    ensures |r| <= |cs|
  {
    if cs == [] then [] else (if cs[0].isPublic then [cs[0]] else []) + Publics(cs[1..])
  }

  lemma {:induction false} PublicsMembers(cs: seq<Ctor>)
    ensures forall c :: c in Publics(cs) <==> c in cs && c.isPublic
    ensures |Publics(cs)| == 0 <==> forall c :: c in cs ==> !c.isPublic
  {
    if cs != [] {
      PublicsMembers(cs[1..]);
      assert cs == [cs[0]] + cs[1..];
    }
  }

  /** The public constructors, or every instance constructor when there is none, by descending arity. */
  function Candidates(cs: seq<Ctor>): seq<Ctor>
  {
    var pub := Publics(cs);
    SortByArity(if |pub| == 0 then cs else pub)
  }

  lemma CandidatesOrder(cs: seq<Ctor>)
    ensures DescendingArity(Candidates(cs))
    ensures (exists c :: c in cs && c.isPublic) ==>
              multiset(Candidates(cs)) == multiset(Publics(cs))
              && forall c :: c in Candidates(cs) ==> c.isPublic
    ensures (forall c :: c in cs ==> !c.isPublic) ==> multiset(Candidates(cs)) == multiset(cs)
    ensures forall n :: WithArity(Candidates(cs), n) == WithArity(if |Publics(cs)| == 0 then cs else Publics(cs), n)
  {
    var pub := Publics(cs);
    PublicsMembers(cs);
    SortByArityPermutes(if |pub| == 0 then cs else pub);
    forall n ensures WithArity(Candidates(cs), n) == WithArity(if |pub| == 0 then cs else pub, n) {
      SortByArityStable(if |pub| == 0 then cs else pub, n);
    }
    if exists c :: c in cs && c.isPublic {
      var c :| c in cs && c.isPublic;
      assert c in pub;
      forall x | x in Candidates(cs) ensures x.isPublic {
        assert x in multiset(pub);
      }
    }
  }

  // ---------------------------------------------------------------- resolution, as intended

  /** The two dictionaries of the container and the constructors reflection reports. */
  datatype Registry = Registry(
    constructors: map<TypeId, seq<Ctor>>,
    instances: map<TypeId, Instance>,
    types: map<TypeId, TypeId>)

  function CtorsToTry(reg: Registry, m: TypeId): seq<Ctor>
  {
    if m in reg.constructors then Candidates(reg.constructors[m]) else []
  }

  /** The shape of a resolved object graph; registered instances are taken as they are. */
  datatype Built =
    | Registered(instance: Instance)
    | Constructed(typeOf: TypeId, ctorIndex: nat, arguments: seq<Built>)

  /** `x` is the object graph described by `b`. */
  predicate Realizes(x: Instance, b: Built)
    decreases b
  {
    match b
    case Registered(i) => x == i
    case Constructed(t, k, args) =>
      x.typeOf == t && x.ctorIndex == Some(k) && |x.arguments| == |args|
      && forall i :: 0 <= i < |args| ==> Realizes(x.arguments[i], args[i])
  }

  /** The objects of graph `x` that the container built; registered instances are not among them. */
  ghost function Objects(x: Instance, b: Built): set<Instance>
    decreases b
  {
    match b
    case Registered(_) => {}
    case Constructed(_, _, args) =>
      {x} + (if |x.arguments| == |args| then ObjectsAll(x.arguments, args) else {})
  }

  ghost function ObjectsAll(xs: seq<Instance>, bs: seq<Built>): set<Instance>
    requires |xs| == |bs|
    decreases bs
  {
    if bs == [] then {}
    else ObjectsAll(xs[..|bs| - 1], bs[..|bs| - 1]) + Objects(xs[|bs| - 1], bs[|bs| - 1])
  }

  /** No object the container built occurs twice in graph `x`: dependencies are never shared. */
  ghost predicate Unshared(x: Instance, b: Built)
    decreases b
  {
    match b
    case Registered(_) => true
    case Constructed(_, _, args) =>
      |x.arguments| == |args| && x !in ObjectsAll(x.arguments, args) && SiblingsUnshared(x.arguments, args)
  }

  /** Each graph is unshared, and no two of them have a built object in common. */
  ghost predicate SiblingsUnshared(xs: seq<Instance>, bs: seq<Built>)
    requires |xs| == |bs|
    decreases bs
  {
    bs == []
    || (SiblingsUnshared(xs[..|bs| - 1], bs[..|bs| - 1]) && Unshared(xs[|bs| - 1], bs[|bs| - 1])
        && ObjectsAll(xs[..|bs| - 1], bs[..|bs| - 1]) !! Objects(xs[|bs| - 1], bs[|bs| - 1]))
  }

  lemma SiblingsAppend(xs: seq<Instance>, bs: seq<Built>, x: Instance, b: Built)
    requires |xs| == |bs|
    ensures ObjectsAll(xs + [x], bs + [b]) == ObjectsAll(xs, bs) + Objects(x, b)
    ensures SiblingsUnshared(xs + [x], bs + [b]) <==>
              SiblingsUnshared(xs, bs) && Unshared(x, b) && ObjectsAll(xs, bs) !! Objects(x, b)
  {
    assert (xs + [x])[..|bs|] == xs && (bs + [b])[..|bs|] == bs;
  }

  lemma PlannedAppend(reg: Registry, ps: seq<TypeId>, s: set<TypeId>, bs: seq<Built>, b: Built)
    requires s <= reg.types.Values && |bs| < |ps|
    requires forall k :: 0 <= k < |bs| ==> Plan(reg, ps[k], s) == Ok(bs[k])
    requires Plan(reg, ps[|bs|], s) == Ok(b)
    ensures forall k :: 0 <= k < |bs| + 1 ==> Plan(reg, ps[k], s) == Ok((bs + [b])[k])
  {
  }

  /** Each graph's built objects are among those of the sequence. */
  lemma {:induction false} ObjectsAllContains(xs: seq<Instance>, bs: seq<Built>, k: nat)
    requires |xs| == |bs| && k < |bs|
    ensures Objects(xs[k], bs[k]) <= ObjectsAll(xs, bs)
    decreases |bs|
  {
    if k < |bs| - 1 {
      ObjectsAllContains(xs[..|bs| - 1], bs[..|bs| - 1], k);
    }
  }

  lemma ConstructedIsUnshared(x: Instance, m: TypeId, i: nat, bs: seq<Built>, made: set<Instance>)
    requires |x.arguments| == |bs| && SiblingsUnshared(x.arguments, bs)
    requires ObjectsAll(x.arguments, bs) <= made && x !in made
    ensures Unshared(x, Constructed(m, i, bs)) && Objects(x, Constructed(m, i, bs)) <= made + {x}
  {
  }

  predicate RealizesAll(xs: seq<Instance>, bs: seq<Built>)
  {
    |xs| == |bs| && forall k :: 0 <= k < |bs| ==> Realizes(xs[k], bs[k])
  }

  predicate Follows(r: Result<Instance, ContainerError>, p: Result<Built, ContainerError>)
  {
    (r.Ok? <==> p.Ok?)
    && (r.Ok? ==> Realizes(r.value, p.value))
    && (r.Err? ==> r.error == p.error)
  }

  lemma ShrinkingPending(all: set<TypeId>, s: set<TypeId>, m: TypeId)
    requires m in all && m !in s
    ensures |all - (s + {m})| < |all - s|
  {
    assert all - (s + {m}) == (all - s) - {m};
    assert m in all - s;
  }

  /** A constructor succeeds: every parameter resolves and `Invoke` does not throw. */
  predicate Works(reg: Registry, s: set<TypeId>, c: Ctor)
    requires s <= reg.types.Values
  {
    !c.invokeFails && PlanArgs(reg, c.parameters, 0, s).Some?
  }

  /**
   * `Resolve(t, resolvingStack)` with the resolving set `stack`, the circular
   * check applied to the requested and to the mapped type.
   */
  function Plan(reg: Registry, t: TypeId, stack: set<TypeId>): (r: Result<Built, ContainerError>)
    requires stack <= reg.types.Values
    ensures r.Err? ==> r.error.ResolutionFailed?
    decreases |reg.types.Values - stack|, 0, 0
  {
    if t in stack then Err(ResolutionFailed(Circular(t)))
    else if t in reg.instances then Ok(Registered(reg.instances[t]))
    else if t !in reg.types then Err(ResolutionFailed(NotRegistered(t)))
    else
      var m := reg.types[t];
      if m in stack then Err(ResolutionFailed(Circular(m)))
      else
        assert m in reg.types.Values;
        ShrinkingPending(reg.types.Values, stack, m);
        PlanCtors(reg, m, stack + {m}, CtorsToTry(reg, m), 0)
  }

  /** The constructor loop from the `i`-th tried constructor on. */
  function PlanCtors(reg: Registry, m: TypeId, s: set<TypeId>, cs: seq<Ctor>, i: nat): (r: Result<Built, ContainerError>)
    requires s <= reg.types.Values && i <= |cs|
    ensures r.Ok? ==> r.value.Constructed? && r.value.typeOf == m
    ensures r.Err? ==> r.error == ResolutionFailed(NoConstructorSucceeded(m))
    decreases |reg.types.Values - s|, 2, |cs| - i
  {
    if i == |cs| then Err(ResolutionFailed(NoConstructorSucceeded(m)))
    else
      match PlanArgs(reg, cs[i].parameters, 0, s)
      case Some(args) =>
        if cs[i].invokeFails then PlanCtors(reg, m, s, cs, i + 1) else Ok(Constructed(m, i, args))
      case None => PlanCtors(reg, m, s, cs, i + 1)
  }

  /**
   * The constructor loop picks the first tried constructor that works, and fails
   * only when none does.
   */
  lemma {:induction false} PlanCtorsFirstWorking(reg: Registry, m: TypeId, s: set<TypeId>, cs: seq<Ctor>, i: nat)
    requires s <= reg.types.Values && i <= |cs|
    ensures var r := PlanCtors(reg, m, s, cs, i);
      (r.Ok? ==>
         i <= r.value.ctorIndex < |cs| && Works(reg, s, cs[r.value.ctorIndex])
         && Some(r.value.arguments) == PlanArgs(reg, cs[r.value.ctorIndex].parameters, 0, s)
         && forall l :: i <= l < r.value.ctorIndex ==> !Works(reg, s, cs[l]))
      && (r.Err? ==> forall l :: i <= l < |cs| ==> !Works(reg, s, cs[l]))
    decreases |cs| - i
  {
    if i < |cs| && !Works(reg, s, cs[i]) {
      PlanCtorsFirstWorking(reg, m, s, cs, i + 1);
    }
  }

  /** The parameter loop from the `j`-th parameter on; None when one of them fails. */
  function PlanArgs(reg: Registry, ps: seq<TypeId>, j: nat, s: set<TypeId>): (r: Option<seq<Built>>)
    requires s <= reg.types.Values && j <= |ps|
    ensures r.Some? ==> |r.value| == |ps| - j
    decreases |reg.types.Values - s|, 1, |ps| - j
  {
    if j == |ps| then Some([])
    else
      match Plan(reg, ps[j], s)
      case Err(_) => None
      case Ok(b) => Prepend([b], PlanArgs(reg, ps, j + 1, s))
  }

  function Prepend(bs: seq<Built>, rest: Option<seq<Built>>): Option<seq<Built>>
  {
    match rest
    case None => None
    case Some(tail) => Some(bs + tail)
  }

  /** Parameters `i..|bs|` resolved to `bs[i..]`: the loop's result so far. */
  lemma {:induction false} PlanArgsPrefix(reg: Registry, ps: seq<TypeId>, s: set<TypeId>, bs: seq<Built>, i: nat)
    requires s <= reg.types.Values && i <= |bs| <= |ps|
    requires forall k :: i <= k < |bs| ==> Plan(reg, ps[k], s) == Ok(bs[k])
    ensures PlanArgs(reg, ps, i, s) == Prepend(bs[i..], PlanArgs(reg, ps, |bs|, s))
    ensures |bs| < |ps| && Plan(reg, ps[|bs|], s).Err? ==> PlanArgs(reg, ps, i, s).None?
    ensures |bs| == |ps| ==> PlanArgs(reg, ps, i, s) == Some(bs[i..])
    decreases |bs| - i
  {
    if i == |bs| {
      PrependNothing(PlanArgs(reg, ps, i, s));
      assert bs[i..] == [];
    } else {
      PlanArgsPrefix(reg, ps, s, bs, i + 1);
      PrependTwice([bs[i]], bs[i + 1..], PlanArgs(reg, ps, |bs|, s));
      assert [bs[i]] + bs[i + 1..] == bs[i..];
    }
  }

  lemma PrependNothing(rest: Option<seq<Built>>)
    ensures Prepend([], rest) == rest
  {
    if rest.Some? {
      assert [] + rest.value == rest.value;
    }
  }

  lemma RealizesAllAppend(xs: seq<Instance>, bs: seq<Built>, x: Instance, b: Built)
    requires RealizesAll(xs, bs) && Realizes(x, b)
    ensures RealizesAll(xs + [x], bs + [b])
  {
    var xs', bs' := xs + [x], bs + [b];
    assert forall k :: 0 <= k < |bs| ==> xs'[k] == xs[k] && bs'[k] == bs[k];
  }

  lemma PrependTwice(xs: seq<Built>, ys: seq<Built>, rest: Option<seq<Built>>)
    ensures Prepend(xs, Prepend(ys, rest)) == Prepend(xs + ys, rest)
  {
    if rest.Some? {
      assert xs + (ys + rest.value) == (xs + ys) + rest.value;
    }
  }

  // ---------------------------------------------------------------- resolution, as written

  /**
   * The source's `Resolve(type, resolvingStack)` step by step: the circular
   * check tests only the requested key, the mapped type is added to the
   * shared set and removed again afterwards. `fuel` bounds the recursion
   * depth; None means the bound was hit (the source overflows its stack).
   */
  function PlanAsWritten(reg: Registry, t: TypeId, stack: set<TypeId>, fuel: nat)
    : Option<(Result<Built, ContainerError>, set<TypeId>)>
    decreases fuel, 0, 0
  {
    if fuel == 0 then None
    else if t in stack then Some((Err(ResolutionFailed(Circular(t))), stack))
    else if t in reg.instances then Some((Ok(Registered(reg.instances[t])), stack))
    else if t !in reg.types then Some((Err(ResolutionFailed(NotRegistered(t))), stack))
    else
      var m := reg.types[t];
      match CtorsAsWritten(reg, m, stack + {m}, CtorsToTry(reg, m), 0, fuel - 1)
      case None => None
      case Some((res, after)) => Some((res, after - {m}))
  }

  function CtorsAsWritten(reg: Registry, m: TypeId, s: set<TypeId>, cs: seq<Ctor>, i: nat, fuel: nat)
    : Option<(Result<Built, ContainerError>, set<TypeId>)>
    requires i <= |cs|
    decreases fuel, 2, |cs| - i
  {
    if i == |cs| then Some((Err(ResolutionFailed(NoConstructorSucceeded(m))), s))
    else
      match ArgsAsWritten(reg, cs[i].parameters, 0, s, fuel)
      case None => None
      case Some((None, s')) => CtorsAsWritten(reg, m, s', cs, i + 1, fuel)
      case Some((Some(args), s')) =>
        if cs[i].invokeFails then CtorsAsWritten(reg, m, s', cs, i + 1, fuel)
        else Some((Ok(Constructed(m, i, args)), s'))
  }

  function ArgsAsWritten(reg: Registry, ps: seq<TypeId>, j: nat, s: set<TypeId>, fuel: nat)
    : Option<(Option<seq<Built>>, set<TypeId>)>
    requires j <= |ps|
    decreases fuel, 1, |ps| - j
  {
    if j == |ps| then Some((Some([]), s))
    else
      match PlanAsWritten(reg, ps[j], s, fuel)
      case None => None
      case Some((Err(_), s')) => Some((None, s'))
      case Some((Ok(b), s')) =>
        match ArgsAsWritten(reg, ps, j + 1, s', fuel)
        case None => None
        case Some((rest, s'')) => Some((Prepend([b], rest), s''))
  }

  // ---------------------------------------------------------------- the container

  /** `type.IsInterface || type.IsAbstract` is false. */
  predicate Concrete(u: Universe, t: TypeId)
    requires InRange(u, t)
  {
    !u.types[t].isInterface && !u.types[t].isAbstract
  }

  /** The `HashSet<Type>` passed down one resolution. */
  class ResolvingSet {
    var elements: set<TypeId>

    constructor ()
      ensures elements == {}
    {
      elements := {};
    }
  }

  class Container {
    const u: Universe
    const constructors: map<TypeId, seq<Ctor>>
    var instanceRegistry: map<TypeId, Instance>
    var typeRegistry: map<TypeId, TypeId>

    /** Every mapping goes to a concrete type assignable to its key; every instance to its key. */
    ghost predicate Valid()
      reads this
    {
      (forall k :: k in typeRegistry ==>
         InRange(u, typeRegistry[k]) && Concrete(u, typeRegistry[k]) && Assignable(u, k, typeRegistry[k]))
      && (forall k :: k in instanceRegistry ==> Assignable(u, k, instanceRegistry[k].typeOf))
    }

    function Snapshot(): Registry
      reads this
    {
      Registry(constructors, instanceRegistry, typeRegistry)
    }

    constructor (u: Universe, constructors: map<TypeId, seq<Ctor>>)
      ensures Valid() && this.u == u && this.constructors == constructors
      ensures instanceRegistry == map[] && typeRegistry == map[]
    {
      this.u := u;
      this.constructors := constructors;
      instanceRegistry := map[];
      typeRegistry := map[];
    }

    /** `RegisterInstance<T>(instance)` with `key = typeof(T)`; the instance is a `T`. */
    method RegisterInstance(key: TypeId, instance: Instance?) returns (o: Outcome<ContainerError>)
      requires Valid()
      requires instance != null ==> Assignable(u, key, instance.typeOf)
      modifies this`instanceRegistry
      ensures Valid()
      ensures instance == null ==> o == Fail(ArgumentNull("instance")) && instanceRegistry == old(instanceRegistry)
      ensures instance != null ==> o == Pass && instanceRegistry == old(instanceRegistry)[key := instance]
    {
      if instance == null {
        return Fail(ArgumentNull("instance"));
      }
      instanceRegistry := instanceRegistry[key := instance];
      return Pass;
    }

    /** `Register(type)`: a self-binding for a concrete type. */
    method RegisterType(t: Option<TypeId>) returns (o: Outcome<ContainerError>)
      requires Valid()
      requires t.Some? ==> InRange(u, t.value)
      modifies this`typeRegistry
      ensures Valid()
      ensures t.None? ==> o == Fail(ArgumentNull("type")) && typeRegistry == old(typeRegistry)
      ensures t.Some? && !Concrete(u, t.value) ==>
                o == Fail(ArgumentInvalid(NotConcrete(t.value))) && typeRegistry == old(typeRegistry)
      ensures t.Some? && Concrete(u, t.value) ==> o == Pass && typeRegistry == old(typeRegistry)[t.value := t.value]
    {
      if t.None? {
        return Fail(ArgumentNull("type"));
      }
      if !Concrete(u, t.value) {
        return Fail(ArgumentInvalid(NotConcrete(t.value)));
      }
      typeRegistry := typeRegistry[t.value := t.value];
      return Pass;
    }

    /** `Register<T1, T2>()`: map the service `t1` to the concrete implementation `t2`. */
    method RegisterMapping(t1: TypeId, t2: TypeId) returns (o: Outcome<ContainerError>)
      requires Valid() && InRange(u, t2)
      modifies this`typeRegistry
      ensures Valid()
      ensures !Concrete(u, t2) ==> o == Fail(ArgumentInvalid(NotConcrete(t2))) && typeRegistry == old(typeRegistry)
      ensures Concrete(u, t2) && !Assignable(u, t1, t2) ==>
                o == Fail(ArgumentInvalid(NotAssignable(t1, t2))) && typeRegistry == old(typeRegistry)
      ensures Concrete(u, t2) && Assignable(u, t1, t2) ==> o == Pass && typeRegistry == old(typeRegistry)[t1 := t2]
    {
      if !Concrete(u, t2) {
        return Fail(ArgumentInvalid(NotConcrete(t2)));
      }
      if !Assignable(u, t1, t2) {
        return Fail(ArgumentInvalid(NotAssignable(t1, t2)));
      }
      typeRegistry := typeRegistry[t1 := t2];
      return Pass;
    }

    /** `Resolve(type)`: resolution from an empty resolving set. */
    method Resolve(t: TypeId) returns (r: Result<Instance, ContainerError>)
      requires Valid()
      ensures Follows(r, Plan(Snapshot(), t, {}))
      ensures t in instanceRegistry ==> r == Ok(instanceRegistry[t])
      ensures t !in instanceRegistry && t !in typeRegistry ==> r == Err(ResolutionFailed(NotRegistered(t)))
      ensures r.Ok? ==> Assignable(u, t, r.value.typeOf)
      ensures r.Ok? && t !in instanceRegistry ==>
                fresh(r.value) && r.value.typeOf == typeRegistry[t] && r.value.ctorIndex.Some?
      ensures r.Ok? ==> Unshared(r.value, Plan(Snapshot(), t, {}).value)
      ensures r.Ok? ==> fresh(Objects(r.value, Plan(Snapshot(), t, {}).value))
      ensures r.Err? ==> r.error.ResolutionFailed?
    {
      var path := new ResolvingSet();
      ghost var made;
      r, made := ResolveOn(t, path);
      ghost var p := Plan(Snapshot(), t, {});
      if t in instanceRegistry {
        assert p == Ok(Registered(instanceRegistry[t]));
      } else if t in typeRegistry {
        ghost var m := typeRegistry[t];
        assert p == PlanCtors(Snapshot(), m, {} + {m}, CtorsToTry(Snapshot(), m), 0);
        if r.Ok? {
          assert p.value.Constructed? && p.value.typeOf == m;
          assert r.value in Objects(r.value, p.value);
        }
      }
    }

    /**
     * The private `Resolve(type, resolvingStack)`. `made` holds every object
     * the call constructed, including those of constructors that were given up.
     */
    method ResolveOn(t: TypeId, path: ResolvingSet) returns (r: Result<Instance, ContainerError>, ghost made: set<Instance>)
      requires path.elements <= typeRegistry.Values
      modifies path
      ensures path.elements == old(path.elements)
      ensures Follows(r, Plan(Snapshot(), t, old(path.elements)))
      ensures fresh(made)
      ensures r.Ok? ==> Unshared(r.value, Plan(Snapshot(), t, old(path.elements)).value)
      ensures r.Ok? ==> Objects(r.value, Plan(Snapshot(), t, old(path.elements)).value) <= made
      decreases |typeRegistry.Values - path.elements|, 0, 0
    {
      made := {};
      if t in path.elements {
        return Err(ResolutionFailed(Circular(t))), made;
      }
      if t in instanceRegistry {
        return Ok(instanceRegistry[t]), made;
      }
      if t !in typeRegistry {
        return Err(ResolutionFailed(NotRegistered(t))), made;
      }
      var m := typeRegistry[t];
      if m in path.elements {
        return Err(ResolutionFailed(Circular(m))), made;
      }
      ghost var s0 := path.elements;
      assert m in typeRegistry.Values;
      ShrinkingPending(typeRegistry.Values, s0, m);
      path.elements := path.elements + {m};
      var instance;
      instance, made := TryConstructors(m, CtorsToTry(Snapshot(), m), path);
      path.elements := path.elements - {m};
      assert path.elements == s0;
      if instance.None? {
        return Err(ResolutionFailed(NoConstructorSucceeded(m))), made;
      }
      return Ok(instance.value), made;
    }

    /** The `foreach` over the sorted constructors: the first that works builds the instance. */
    method TryConstructors(m: TypeId, cs: seq<Ctor>, path: ResolvingSet)
      returns (instance: Option<Instance>, ghost made: set<Instance>)
      requires path.elements <= typeRegistry.Values
      modifies path
      ensures path.elements == old(path.elements)
      ensures instance.Some? <==> PlanCtors(Snapshot(), m, old(path.elements), cs, 0).Ok?
      ensures fresh(made)
      ensures instance.Some? ==>
                var b := PlanCtors(Snapshot(), m, old(path.elements), cs, 0).value;
                Realizes(instance.value, b) && Unshared(instance.value, b) && Objects(instance.value, b) <= made
      decreases |typeRegistry.Values - path.elements|, 2, |cs|
    {
      ghost var s := path.elements;
      ghost var reg := Snapshot();
      ghost var p := PlanCtors(reg, m, s, cs, 0);
      made := {};
      var i := 0;
      while i < |cs|
        invariant i <= |cs| && path.elements == s
        invariant fresh(made)
        invariant p == PlanCtors(reg, m, s, cs, i)
      {
        var args;
        ghost var argsMade;
        args, argsMade := ResolveArguments(cs[i].parameters, path);
        assert Snapshot() == reg;
        made := made + argsMade;
        if args.Some? && !cs[i].invokeFails {
          ghost var bs := PlanArgs(reg, cs[i].parameters, 0, s).value;
          assert p == Ok(Constructed(m, i, bs));
          var x := new Instance(m, Some(i), args.value);
          assert x !in made;
          ConstructedIsUnshared(x, m, i, bs, made);
          made := made + {x};
          return Some(x), made;
        }
        i := i + 1;
      }
      return None, made;
    }

    /** The `for` over one constructor's parameters; it stops at the first that fails. */
    method ResolveArguments(ps: seq<TypeId>, path: ResolvingSet)
      returns (args: Option<seq<Instance>>, ghost made: set<Instance>)
      requires path.elements <= typeRegistry.Values
      modifies path
      ensures path.elements == old(path.elements)
      ensures args.Some? <==> PlanArgs(Snapshot(), ps, 0, old(path.elements)).Some?
      ensures fresh(made)
      ensures args.Some? ==>
                var bs := PlanArgs(Snapshot(), ps, 0, old(path.elements)).value;
                RealizesAll(args.value, bs) && SiblingsUnshared(args.value, bs) && ObjectsAll(args.value, bs) <= made
      decreases |typeRegistry.Values - path.elements|, 1, |ps|
    {
      ghost var s := path.elements;
      ghost var reg := Snapshot();
      var resolved: seq<Instance> := [];
      ghost var bs: seq<Built> := [];
      made := {};
      var canResolveAll := true;
      var j := 0;
      while j < |ps| && canResolveAll
        invariant j <= |ps| && path.elements == s
        invariant RealizesAll(resolved, bs) && |bs| == j && SiblingsUnshared(resolved, bs)
        invariant fresh(made)
        invariant ObjectsAll(resolved, bs) <= made
        invariant forall k :: 0 <= k < j ==> Plan(reg, ps[k], s) == Ok(bs[k])
        invariant !canResolveAll ==> PlanArgs(reg, ps, 0, s).None?
        decreases |ps| - j, if canResolveAll then 1 else 0
      {
        var a;
        ghost var aMade;
        a, aMade := ResolveOn(ps[j], path);
        if a.Err? {
          PlanArgsPrefix(reg, ps, s, bs, 0);
          canResolveAll := false;
        } else {
          assert Snapshot() == reg;
          ghost var b := Plan(reg, ps[j], s).value;
          assert made !! aMade;
          SiblingsAppend(resolved, bs, a.value, b);
          RealizesAllAppend(resolved, bs, a.value, b);
          PlannedAppend(reg, ps, s, bs, b);
          resolved := resolved + [a.value];
          bs := bs + [b];
          made := made + aMade;
          j := j + 1;
        }
      }
      if canResolveAll {
        PlanArgsPrefix(reg, ps, s, bs, 0);
        assert bs[0..] == bs;
        return Some(resolved), made;
      }
      return None, made;
    }
  }

  // ---------------------------------------------------------------- the finding

  /** `Register<IA, A>()` where A's only constructor takes an IA. */
  function SelfLoopRegistry(ia: TypeId, a: TypeId): Registry
  {
    Registry(map[a := [Ctor([ia], true, false)]], map[], map[ia := a])
  }

  lemma {:induction false} AsWrittenLoopsUnderStack(ia: TypeId, a: TypeId, fuel: nat)
    requires ia != a
    ensures PlanAsWritten(SelfLoopRegistry(ia, a), ia, {a}, fuel).None?
    decreases fuel
  {
    var reg := SelfLoopRegistry(ia, a);
    if fuel > 0 {
      var cs := CtorsToTry(reg, a);
      assert cs == [Ctor([ia], true, false)];
      AsWrittenLoopsUnderStack(ia, a, fuel - 1);
      assert ArgsAsWritten(reg, [ia], 0, {a}, fuel - 1).None?;
      assert CtorsAsWritten(reg, a, {a}, cs, 0, fuel - 1).None?;
      assert {a} + {a} == {a};
    }
  }

  /** However deep the stack, the source's resolution of IA never returns. */
  lemma AsWrittenNeverReturns(ia: TypeId, a: TypeId, fuel: nat)
    requires ia != a
    ensures PlanAsWritten(SelfLoopRegistry(ia, a), ia, {}, fuel).None?
  {
    var reg := SelfLoopRegistry(ia, a);
    if fuel > 0 {
      var cs := CtorsToTry(reg, a);
      assert cs == [Ctor([ia], true, false)];
      AsWrittenLoopsUnderStack(ia, a, fuel - 1);
      assert ArgsAsWritten(reg, [ia], 0, {a}, fuel - 1).None?;
      assert CtorsAsWritten(reg, a, {a}, cs, 0, fuel - 1).None?;
      assert {} + {a} == {a};
    }
  }

  /** With the mapped type checked too, the same registration fails with a ResolutionFailed error. */
  lemma CorrectedDetectsSelfLoop(ia: TypeId, a: TypeId)
    requires ia != a
    ensures Plan(SelfLoopRegistry(ia, a), ia, {}) == Err(ResolutionFailed(NoConstructorSucceeded(a)))
  {
    var reg := SelfLoopRegistry(ia, a);
    var cs := CtorsToTry(reg, a);
    assert cs == [Ctor([ia], true, false)];
    assert reg.types[ia] == a;
    assert reg.types.Values == {a} by {
      forall v | v in reg.types.Values ensures v == a {
        var k :| k in reg.types && reg.types[k] == v;
      }
    }
    assert Plan(reg, ia, {a}) == Err(ResolutionFailed(Circular(a)));
    assert PlanArgs(reg, [ia], 0, {a}).None?;
    assert PlanCtors(reg, a, {a}, cs, 1) == Err(ResolutionFailed(NoConstructorSucceeded(a)));
    assert PlanCtors(reg, a, {a}, cs, 0) == Err(ResolutionFailed(NoConstructorSucceeded(a)));
    assert {} + {a} == {a};
  }
}
