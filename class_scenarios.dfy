/**
 * The scenarios of the resolver container's tests, on small concrete
 * registries in which every class is registered as itself.
 */
module ClassScenarios {
  import opened Wrappers
  import opened TypeSystem
  import opened ClassResolver

  function Public(parameters: seq<TypeId>): Ctor
  {
    Ctor(parameters, true, false)
  }

  // Type ids of the fixtures.
  const IInterface: TypeId := 0
  const MultipleCtors: TypeId := 1
  const Dependency: TypeId := 2
  const ExtraDependency: TypeId := 3
  const TwoParamClass: TypeId := 4
  const CircularA: TypeId := 5
  const CircularB: TypeId := 6
  const ClassA: TypeId := 7
  const ClassB: TypeId := 8
  const ClassC: TypeId := 9
  const ClassD: TypeId := 10
  const IReentered: TypeId := 11
  const Reentered: TypeId := 12
  const Middle: TypeId := 13

  lemma AllPublic(cs: seq<Ctor>)
    requires forall k :: 0 <= k < |cs| ==> cs[k].isPublic
    ensures Publics(cs) == cs
  {
    if cs != [] {
      AllPublic(cs[1..]);
      assert [cs[0]] + cs[1..] == cs;
    }
  }

  /** Two public constructors are tried larger-first, the first given winning a tie. */
  lemma PairToTry(reg: Registry, m: TypeId, c: Ctor, d: Ctor)
    requires m in reg.constructors && reg.constructors[m] == [c, d] && c.isPublic && d.isPublic
    ensures CtorsToTry(reg, m) == if Arity(d) <= Arity(c) then [c, d] else [d, c]
  {
    AllPublic([c, d]);
    assert Candidates([c, d]) == SortByArity([c, d]);
    assert SortByArity([d]) == [d] by {
      assert [d][1..] == [];
    }
    assert [c, d][1..] == [d];
    assert SortByArity([c, d]) == InsertByArity(c, [d]);
  }

  lemma SingleToTry(reg: Registry, m: TypeId, c: Ctor)
    requires m in reg.constructors && reg.constructors[m] == [c] && c.isPublic
    ensures CtorsToTry(reg, m) == [c]
  {
    AllPublic([c]);
    assert [c][1..] == [];
  }

  /** Resolving a class bound to itself runs its constructor loop with the class on the set. */
  lemma PlanSelf(reg: Registry, t: TypeId, stack: set<TypeId>)
    requires stack <= reg.types.Values && t !in stack && t !in reg.instances
    requires t in reg.types && reg.types[t] == t
    ensures stack + {t} <= reg.types.Values
    ensures Plan(reg, t, stack) == PlanCtors(reg, t, stack + {t}, CtorsToTry(reg, t), 0)
  {
  }

  /** A class bound to itself whose one constructor takes no parameters. */
  lemma PlanLeaf(reg: Registry, t: TypeId, s: set<TypeId>)
    requires s <= reg.types.Values && t !in s && t !in reg.instances
    requires t in reg.types && reg.types[t] == t
    requires t in reg.constructors && reg.constructors[t] == [Public([])]
    ensures Plan(reg, t, s) == Ok(Constructed(t, 0, []))
  {
    SingleToTry(reg, t, Public([]));
    PlanSelf(reg, t, s);
    NoParameters(reg, t, s + {t}, [Public([])], 0);
  }

  /** A class bound to itself whose one constructor takes a `p`. */
  lemma PlanOneArgument(reg: Registry, t: TypeId, s: set<TypeId>, p: TypeId, b: Built)
    requires s <= reg.types.Values && t !in s && t !in reg.instances
    requires t in reg.types && reg.types[t] == t
    requires t in reg.constructors && reg.constructors[t] == [Public([p])]
    requires s + {t} <= reg.types.Values && Plan(reg, p, s + {t}) == Ok(b)
    ensures Plan(reg, t, s) == Ok(Constructed(t, 0, [b]))
  {
    SingleToTry(reg, t, Public([p]));
    PlanSelf(reg, t, s);
    assert PlanArgs(reg, [p], 1, s + {t}) == Some([]);
    assert [b] + [] == [b];
  }

  /** A parameter that resolves is followed by the resolutions of the rest. */
  lemma {:induction false} PlanArgsCons(reg: Registry, ps: seq<TypeId>, j: nat, s: set<TypeId>, b: Built, tail: seq<Built>)
    requires s <= reg.types.Values && j < |ps|
    requires Plan(reg, ps[j], s) == Ok(b) && PlanArgs(reg, ps, j + 1, s) == Some(tail)
    ensures PlanArgs(reg, ps, j, s) == Some([b] + tail)
  {
  }

  lemma {:induction false} PlanArgsTriple(reg: Registry, ps: seq<TypeId>, s: set<TypeId>, x: Built, y: Built, z: Built)
    requires s <= reg.types.Values && |ps| == 3
    requires Plan(reg, ps[0], s) == Ok(x) && Plan(reg, ps[1], s) == Ok(y) && Plan(reg, ps[2], s) == Ok(z)
    ensures PlanArgs(reg, ps, 0, s) == Some([x, y, z])
  {
    assert PlanArgs(reg, ps, 2, s) == Some([z]) by {
      PlanArgsCons(reg, ps, 2, s, z, []);
      assert [z] + [] == [z];
    }
    assert PlanArgs(reg, ps, 1, s) == Some([y, z]) by {
      PlanArgsCons(reg, ps, 1, s, y, [z]);
      assert [y] + [z] == [y, z];
    }
    PlanArgsCons(reg, ps, 0, s, x, [y, z]);
    assert [x] + [y, z] == [x, y, z];
  }

  lemma {:induction false} PlanArgsPair(reg: Registry, ps: seq<TypeId>, s: set<TypeId>, x: Built, y: Built)
    requires s <= reg.types.Values && |ps| == 2
    requires Plan(reg, ps[0], s) == Ok(x) && Plan(reg, ps[1], s) == Ok(y)
    ensures PlanArgs(reg, ps, 0, s) == Some([x, y])
  {
    assert PlanArgs(reg, ps, 1, s) == Some([y]) by {
      PlanArgsCons(reg, ps, 1, s, y, []);
      assert [y] + [] == [y];
    }
    PlanArgsCons(reg, ps, 0, s, x, [y]);
    assert [x] + [y] == [x, y];
  }

  /** A constructor without parameters always works. */
  lemma NoParameters(reg: Registry, m: TypeId, s: set<TypeId>, cs: seq<Ctor>, i: nat)
    requires s <= reg.types.Values && i < |cs| && cs[i].parameters == [] && !cs[i].invokeFails
    ensures PlanCtors(reg, m, s, cs, i) == Ok(Constructed(m, i, []))
  {
  }

  /** `ClassWithMultipleConstructors(IInterface)` and `()`, registered as itself; `IInterface` is never registered. */
  function FallbackRegistry(): Registry
  {
    Registry(map[MultipleCtors := [Public([IInterface]), Public([])]], map[], map[MultipleCtors := MultipleCtors])
  }

  lemma FallbackTypes()
    ensures FallbackRegistry().types.Values == {MultipleCtors}
  {
    var types := FallbackRegistry().types;
    assert types[MultipleCtors] == MultipleCtors;
  }

  lemma FallsBackToDefaultConstructor()
    ensures Plan(FallbackRegistry(), MultipleCtors, {}) == Ok(Constructed(MultipleCtors, 1, []))
  {
    var reg := FallbackRegistry();
    FallbackTypes();
    PairToTry(reg, MultipleCtors, Public([IInterface]), Public([]));
    var cs := CtorsToTry(reg, MultipleCtors);
    PlanSelf(reg, MultipleCtors, {});
    var s := {} + {MultipleCtors};
    assert Plan(reg, IInterface, s) == Err(ResolutionFailed(NotRegistered(IInterface)));
    assert PlanArgs(reg, cs[0].parameters, 0, s).None?;
    NoParameters(reg, MultipleCtors, s, cs, 1);
    assert PlanCtors(reg, MultipleCtors, s, cs, 0) == PlanCtors(reg, MultipleCtors, s, cs, 1);
  }

  /**
   * `MultiConstructorClass(Dependency)` and `(Dependency, ExtraDependency)`, with
   * both dependencies constructible; every class is registered as itself.
   */
  function TwoParamRegistry(): Registry
  {
    Registry(
      map[Dependency := [Public([])], ExtraDependency := [Public([])],
          TwoParamClass := [Public([Dependency]), Public([Dependency, ExtraDependency])]],
      map[],
      map[Dependency := Dependency, ExtraDependency := ExtraDependency, TwoParamClass := TwoParamClass])
  }

  lemma TwoParamTypes()
    ensures TwoParamRegistry().types.Values == {Dependency, ExtraDependency, TwoParamClass}
  {
    var types := TwoParamRegistry().types;
    assert types[Dependency] == Dependency && types[ExtraDependency] == ExtraDependency;
    assert types[TwoParamClass] == TwoParamClass;
  }

  /** The constructor with more parameters wins. */
  lemma PrefersMostParameters()
    ensures Plan(TwoParamRegistry(), TwoParamClass, {}) ==
      Ok(Constructed(TwoParamClass, 0, [Constructed(Dependency, 0, []), Constructed(ExtraDependency, 0, [])]))
  {
    var reg := TwoParamRegistry();
    TwoParamTypes();
    PairToTry(reg, TwoParamClass, Public([Dependency]), Public([Dependency, ExtraDependency]));
    var cs := CtorsToTry(reg, TwoParamClass);
    PlanSelf(reg, TwoParamClass, {});
    var s := {} + {TwoParamClass};
    var bd, be := Constructed(Dependency, 0, []), Constructed(ExtraDependency, 0, []);
    PlanLeaf(reg, Dependency, s);
    PlanLeaf(reg, ExtraDependency, s);
    PlanArgsPair(reg, cs[0].parameters, s, bd, be);
  }

  /** `CircularA(CircularB)` and `CircularB(CircularA)`, both registered as themselves. */
  function CircularRegistry(): Registry
  {
    Registry(
      map[CircularA := [Public([CircularB])], CircularB := [Public([CircularA])]],
      map[],
      map[CircularA := CircularA, CircularB := CircularB])
  }

  lemma CircularTypes()
    ensures CircularRegistry().types.Values == {CircularA, CircularB}
  {
    var types := CircularRegistry().types;
    assert types[CircularA] == CircularA && types[CircularB] == CircularB;
  }

  lemma CircularDependencyFails()
    ensures Plan(CircularRegistry(), CircularA, {}) == Err(ResolutionFailed(NoConstructorSucceeded(CircularA)))
  {
    var reg := CircularRegistry();
    CircularTypes();
    SingleToTry(reg, CircularA, Public([CircularB]));
    SingleToTry(reg, CircularB, Public([CircularA]));
    PlanSelf(reg, CircularA, {});
    var s1 := {} + {CircularA};
    PlanSelf(reg, CircularB, s1);
    var s2 := s1 + {CircularB};
    assert Plan(reg, CircularA, s2) == Err(ResolutionFailed(Circular(CircularA)));
    assert PlanArgs(reg, [CircularA], 0, s2).None?;
    assert PlanCtors(reg, CircularB, s2, [Public([CircularA])], 0).Err?;
    assert PlanArgs(reg, [CircularB], 0, s1).None?;
    assert PlanCtors(reg, CircularA, s1, [Public([CircularB])], 0) ==
      PlanCtors(reg, CircularA, s1, [Public([CircularB])], 1);
  }

  /** `ClassA()`, `ClassB(ClassA)`, `ClassC(ClassB)` and `ClassD(ClassA, ClassB, ClassC)`, each registered as itself. */
  function GraphRegistry(): Registry
  {
    Registry(
      map[ClassA := [Public([])], ClassB := [Public([ClassA])], ClassC := [Public([ClassB])],
          ClassD := [Public([ClassA, ClassB, ClassC])]],
      map[],
      map[ClassA := ClassA, ClassB := ClassB, ClassC := ClassC, ClassD := ClassD])
  }

  lemma GraphTypes()
    ensures GraphRegistry().types.Values == {ClassA, ClassB, ClassC, ClassD}
  {
    var types := GraphRegistry().types;
    assert types[ClassA] == ClassA && types[ClassB] == ClassB;
    assert types[ClassC] == ClassC && types[ClassD] == ClassD;
  }

  /** The graph that resolving `ClassD` builds: every dependency is constructed afresh. */
  function GraphOfD(): Built
  {
    var a := Constructed(ClassA, 0, []);
    var b := Constructed(ClassB, 0, [a]);
    Constructed(ClassD, 0, [a, b, Constructed(ClassC, 0, [b])])
  }

  lemma GraphPlanB(reg: Registry, s: set<TypeId>)
    requires reg == GraphRegistry() && s <= {ClassC, ClassD}
    ensures s <= reg.types.Values
    ensures Plan(reg, ClassB, s) == Ok(Constructed(ClassB, 0, [Constructed(ClassA, 0, [])]))
  {
    GraphTypes();
    PlanLeaf(reg, ClassA, s + {ClassB});
    PlanOneArgument(reg, ClassB, s, ClassA, Constructed(ClassA, 0, []));
  }

  lemma GraphPlanC(reg: Registry, s: set<TypeId>)
    requires reg == GraphRegistry() && s == {ClassD}
    ensures s <= reg.types.Values
    ensures Plan(reg, ClassC, s) ==
      Ok(Constructed(ClassC, 0, [Constructed(ClassB, 0, [Constructed(ClassA, 0, [])])]))
  {
    GraphTypes();
    GraphPlanB(reg, s + {ClassC});
    PlanOneArgument(reg, ClassC, s, ClassB, Constructed(ClassB, 0, [Constructed(ClassA, 0, [])]));
  }

  lemma ResolvesDependencyGraph()
    ensures Plan(GraphRegistry(), ClassD, {}) == Ok(GraphOfD())
  {
    var reg := GraphRegistry();
    GraphTypes();
    var a := Constructed(ClassA, 0, []);
    var b := Constructed(ClassB, 0, [a]);
    var c := Constructed(ClassC, 0, [b]);
    SingleToTry(reg, ClassD, Public([ClassA, ClassB, ClassC]));
    PlanSelf(reg, ClassD, {});
    var s := {} + {ClassD};
    PlanLeaf(reg, ClassA, s);
    GraphPlanB(reg, s);
    GraphPlanC(reg, s);
    PlanArgsTriple(reg, [ClassA, ClassB, ClassC], s, a, b, c);
  }

  /**
   * In every object graph of that shape without shared objects, `ClassD`'s own
   * `ClassA` is not the one inside its `ClassB`, and its `ClassB` is not the one
   * inside its `ClassC`.
   */
  lemma DependenciesAreNotShared(x: Instance)
    requires Realizes(x, GraphOfD()) && Unshared(x, GraphOfD())
    ensures x.arguments[0] != x.arguments[1].arguments[0]
    ensures x.arguments[1] != x.arguments[2].arguments[0]
  {
    var d := GraphOfD();
    var xs, bs := x.arguments, d.arguments;
    assert Realizes(xs[1], bs[1]) && Realizes(xs[2], bs[2]);
    assert xs[..2] == xs[..2][..1] + [xs[1]];
    assert bs[..2][..1] == bs[..1];
    assert xs[0] in Objects(xs[0], bs[0]);
    assert xs[..1][..0] == [] && bs[..1][..0] == [];
    assert ObjectsAll(xs[..1], bs[..1]) == Objects(xs[0], bs[0]);
    ObjectsAllContains(xs[1].arguments, bs[1].arguments, 0);
    assert xs[1].arguments[0] in Objects(xs[1], bs[1]);
    assert xs[1] in ObjectsAll(xs[..2], bs[..2]);
    ObjectsAllContains(xs[2].arguments, bs[2].arguments, 0);
    assert xs[2].arguments[0] in Objects(xs[2], bs[2]);
  }

  /**
   * `Register<IReentered, Reentered>()` and `Register<Middle>()`, where
   * `Reentered` has the constructors `(Middle)` and `()`, and `Middle` has
   * `(IReentered)`.
   */
  function ReentryRegistry(): Registry
  {
    Registry(
      map[Reentered := [Public([Middle]), Public([])], Middle := [Public([IReentered])]],
      map[],
      map[IReentered := Reentered, Middle := Middle])
  }

  lemma ReentryTypes()
    ensures ReentryRegistry().types.Values == {Reentered, Middle}
  {
    var types := ReentryRegistry().types;
    assert types[IReentered] == Reentered && types[Middle] == Middle;
  }

  /**
   * On this registration the source terminates, building
   * `Reentered(Middle(Reentered()))`: the nested request for `IReentered`
   * passes the check on the requested type, and its failed `(Middle)`
   * attempt removes `Reentered` from the shared set. The corrected check
   * rejects `Middle(IReentered)` since `Reentered` is being resolved, and
   * builds `Reentered()` instead.
   */
  lemma CorrectedDiffersOnReentry()
    ensures PlanAsWritten(ReentryRegistry(), IReentered, {}, 10) ==
      Some((Ok(Constructed(Reentered, 0, [Constructed(Middle, 0, [Constructed(Reentered, 1, [])])])), {}))
    ensures Plan(ReentryRegistry(), IReentered, {}) == Ok(Constructed(Reentered, 1, []))
  {
    var reg := ReentryRegistry();
    ReentryTypes();
    PairToTry(reg, Reentered, Public([Middle]), Public([]));
    SingleToTry(reg, Middle, Public([IReentered]));
    var cs := CtorsToTry(reg, Reentered);
    var ms := CtorsToTry(reg, Middle);
    // as written
    var inner := Constructed(Reentered, 1, []);
    var middle := Constructed(Middle, 0, [inner]);
    assert PlanAsWritten(reg, Middle, {Reentered, Middle}, 7) == Some((Err(ResolutionFailed(Circular(Middle))), {Reentered, Middle}));
    assert CtorsAsWritten(reg, Reentered, {Reentered, Middle}, cs, 1, 7) == Some((Ok(inner), {Reentered, Middle}));
    assert CtorsAsWritten(reg, Reentered, {Reentered, Middle}, cs, 0, 7) == Some((Ok(inner), {Reentered, Middle}));
    assert {Reentered, Middle} + {Reentered} == {Reentered, Middle};
    assert {Reentered, Middle} - {Reentered} == {Middle};
    assert PlanAsWritten(reg, IReentered, {Reentered, Middle}, 8) == Some((Ok(inner), {Middle}));
    assert [inner] + [] == [inner];
    assert ArgsAsWritten(reg, [IReentered], 0, {Reentered, Middle}, 8) == Some((Some([inner]), {Middle}));
    assert CtorsAsWritten(reg, Middle, {Reentered, Middle}, ms, 0, 8) == Some((Ok(middle), {Middle}));
    assert {Reentered} + {Middle} == {Reentered, Middle};
    assert {Middle} - {Middle} == {};
    assert PlanAsWritten(reg, Middle, {Reentered}, 9) == Some((Ok(middle), {}));
    assert [middle] + [] == [middle];
    assert ArgsAsWritten(reg, [Middle], 0, {Reentered}, 9) == Some((Some([middle]), {}));
    assert {} + {Reentered} == {Reentered};
    assert {} - {Reentered} == {};
    // corrected
    var s1 := {} + {Reentered};
    var s2 := s1 + {Middle};
    assert Plan(reg, IReentered, s2) == Err(ResolutionFailed(Circular(Reentered)));
    assert PlanArgs(reg, [IReentered], 0, s2).None?;
    assert PlanCtors(reg, Middle, s2, ms, 0).Err?;
    assert PlanArgs(reg, [Middle], 0, s1).None?;
    NoParameters(reg, Reentered, s1, cs, 1);
    assert PlanCtors(reg, Reentered, s1, cs, 0) == PlanCtors(reg, Reentered, s1, cs, 1);
  }
}
