/**
 * The resolution scenarios of the repository's interface tests, on small
 * concrete type universes.
 */
module InterfaceScenarios {
  import opened Wrappers
  import opened TypeSystem
  import opened InterfaceResolution

  /** The control part of the `Interfaces` fixture: D : ID, E : D, IE with IE : ID, and F : IF. */
  function InterfacesUniverse(): Universe
  {
    Universe(
      [ ObjectInfo(),                                   // 0  object
        InterfaceInfo("IUIObject", []),                 // 1
        InterfaceInfo("IPageObject", [1]),              // 2
        InterfaceInfo("IControlObject", [1]),           // 3
        ClassInfo("ViewControlObject", 0, [3]),         // 4
        InterfaceInfo("ID", [3]),                       // 5
        InterfaceInfo("IE", [5]),                       // 6
        InterfaceInfo("IF", [3]),                       // 7
        ClassInfo("D", 4, [5]),                         // 8
        ClassInfo("E", 8, [6]),                         // 9
        ClassInfo("F", 4, [7])                          // 10
      ],
      0, 1, 2, 3, map[])
  }

  const InterfacesCandidates: seq<TypeId> := [8, 9, 10]

  lemma InterfacesUniverseValid()
    ensures Valid(InterfacesUniverse())
  {
    var u := InterfacesUniverse();
    forall t | 0 <= t < |u.types| ensures WellFormedType(u, t) {
      InterfacesTypeWellFormed(t);
    }
  }

  lemma InterfacesTypeWellFormed(t: TypeId)
    requires t < 11
    ensures WellFormedType(InterfacesUniverse(), t)
  {
    if t < 5 {
      InterfacesTypeWellFormedLow(t);
    } else {
      InterfacesTypeWellFormedHigh(t);
    }
  }

  lemma InterfacesTypeWellFormedLow(t: TypeId)
    requires t < 5
    ensures WellFormedType(InterfacesUniverse(), t)
  {
    if t == 0 { } else if t == 1 { } else if t == 2 { } else if t == 3 { } else { assert t == 4; }
  }

  lemma InterfacesTypeWellFormedHigh(t: TypeId)
    requires 5 <= t < 11
    ensures WellFormedType(InterfacesUniverse(), t)
  {
    if t == 5 { } else if t == 6 { } else if t == 7 { } else if t == 8 { } else if t == 9 { } else { assert t == 10; }
  }

  /** Every path upwards from `t` avoids the interface `i`. */
  lemma NotAssignable(u: Universe, i: TypeId, t: TypeId)
    requires u == InterfacesUniverse() && i in {5, 6, 7} && t < |u.types|
    requires t in {0, 1, 2, 3, 4} || (t in {5, 6, 8, 9} && i == 7)
             || (t in {7, 10} && i in {5, 6}) || (t in {5, 8} && i == 6)
    ensures !Assignable(u, i, t)
    decreases t
  {
    var info := u.types[t];
    forall k | 0 <= k < |info.interfaces| ensures !Assignable(u, i, info.interfaces[k]) {
      NotAssignable(u, i, info.interfaces[k]);
    }
    if info.baseType.Some? {
      NotAssignable(u, i, info.baseType.value);
    }
  }

  /** `ID` is implemented by D and (through its base) by E; it resolves to the closest one, D. */
  lemma ClosestMatchScenario()
    ensures Valid(InterfacesUniverse())
    ensures Matches(InterfacesUniverse(), 5, InterfacesCandidates) == [8, 9]
    ensures Decide(InterfacesUniverse(), 5, [8, 9]) == Ok(8)
  {
    InterfacesUniverseValid();
    ClosestMatches();
    ClosestMatchDecided();
  }

  lemma ClosestMatches()
    requires Valid(InterfacesUniverse())
    ensures Matches(InterfacesUniverse(), 5, InterfacesCandidates) == [8, 9]
  {
    var u := InterfacesUniverse();
    assert MatchOf(u, 5, 8) == [8] by { Implements(u, 5, 8, 0); }
    assert MatchOf(u, 5, 9) == [9] by { Implements(u, 5, 8, 0); Inherits(u, 5, 9); }
    assert MatchOf(u, 5, 10) == [] by { NotAssignable(u, 5, 10); }
    assert Matches(u, 5, [10]) == [];
  }

  lemma ClosestMatchDecided()
    requires Valid(InterfacesUniverse())
    ensures Decide(InterfacesUniverse(), 5, [8, 9]) == Ok(8)
  {
    var u := InterfacesUniverse();
    assert !Assignable(u, 9, 8) by { ClassAssignableIsBaseChain(u, 9, 8); }
    assert Assignable(u, 8, 9) by { Inherits(u, 8, 9); }
    assert Assignable(u, 5, 8) by { Implements(u, 5, 8, 0); }
    assert LowestOf(u, [8, 9]) == 8;
  }

  /** `IE` resolves to E and `IF` to F. */
  lemma ExactMatchScenario()
    ensures Valid(InterfacesUniverse())
    ensures Matches(InterfacesUniverse(), 6, InterfacesCandidates) == [9]
    ensures Matches(InterfacesUniverse(), 7, InterfacesCandidates) == [10]
    ensures Decide(InterfacesUniverse(), 6, [9]) == Ok(9)
    ensures Decide(InterfacesUniverse(), 7, [10]) == Ok(10)
  {
    var u := InterfacesUniverse();
    InterfacesUniverseValid();
    assert MatchOf(u, 6, 8) == [] by { NotAssignable(u, 6, 8); }
    assert MatchOf(u, 6, 9) == [9] by { Implements(u, 6, 9, 0); }
    assert MatchOf(u, 6, 10) == [] by { NotAssignable(u, 6, 10); }
    assert Matches(u, 6, [10]) == [];
    assert MatchOf(u, 7, 8) == [] by { NotAssignable(u, 7, 8); }
    assert MatchOf(u, 7, 9) == [] by { NotAssignable(u, 7, 9); }
    assert MatchOf(u, 7, 10) == [10] by { Implements(u, 7, 10, 0); }
    assert Matches(u, 7, [10]) == [10];
    assert Matches(u, 7, [9, 10]) == [10];
  }

  /**
   * `IG<IF>` on G<I> : IG<I> and H<I> : IH<I>, as in the Interfaces.cs
   * fixture. D is not that fixture's class: it is a non-generic class
   * implementing `IG<IF>` itself, added here to show that a constructed
   * generic request only matches instantiations of generic candidates.
   */
  function GenericUniverse(): Universe
  {
    Universe(
      [ ObjectInfo(),                                                  // 0
        InterfaceInfo("IUIObject", []),                                // 1
        InterfaceInfo("IPageObject", [1]),                             // 2
        InterfaceInfo("IControlObject", [1]),                          // 3
        ClassInfo("ViewControlObject", 0, [3]),                        // 4
        InterfaceInfo("IF", [3]),                                      // 5
        InterfaceInfo("IG<IF>", [3]).(genericArguments := [5]),        // 6
        ClassInfo("G<>", 4, []).(genericParameterCount := 1),          // 7
        ClassInfo("G<IF>", 4, [6]),                                    // 8
        ClassInfo("H<>", 4, []).(genericParameterCount := 1),          // 9
        ClassInfo("H<IF>", 4, [3]),                                    // 10
        ClassInfo("D", 4, [6])                                         // 11
      ],
      0, 1, 2, 3,
      map[(7, [5]) := 8, (9, [5]) := 10])
  }

  lemma GenericUniverseValid()
    ensures Valid(GenericUniverse())
  {
    var u := GenericUniverse();
    forall t | 0 <= t < |u.types| ensures WellFormedType(u, t) {
      GenericTypeWellFormed(t);
    }
  }

  lemma GenericTypeWellFormed(t: TypeId)
    requires t < 12
    ensures WellFormedType(GenericUniverse(), t)
  {
    if t < 6 {
      GenericTypeWellFormedLow(t);
    } else {
      GenericTypeWellFormedHigh(t);
    }
  }

  lemma GenericTypeWellFormedLow(t: TypeId)
    requires t < 6
    ensures WellFormedType(GenericUniverse(), t)
  {
    if t == 0 { } else if t == 1 { } else if t == 2 { } else if t == 3 { } else if t == 4 { } else { assert t == 5; }
  }

  lemma GenericTypeWellFormedHigh(t: TypeId)
    requires 6 <= t < 12
    ensures WellFormedType(GenericUniverse(), t)
  {
    if t == 6 { } else if t == 7 { } else if t == 8 { } else if t == 9 { } else if t == 10 { } else { assert t == 11; }
  }

  lemma IGNotReached(u: Universe, t: TypeId)
    requires u == GenericUniverse() && t in {0, 1, 3, 4, 10}
    ensures !Assignable(u, 6, t)
    decreases t
  {
    var info := u.types[t];
    forall k | 0 <= k < |info.interfaces| ensures !Assignable(u, 6, info.interfaces[k]) {
      IGNotReached(u, info.interfaces[k]);
    }
    if info.baseType.Some? {
      IGNotReached(u, info.baseType.value);
    }
  }

  /**
   * `IG<IF>` resolves to G<IF>: D has the wrong generic-parameter count and is
   * skipped although it implements the interface, and H<IF> does not implement it.
   */
  lemma GenericScenario()
    ensures Valid(GenericUniverse())
    ensures Matches(GenericUniverse(), 6, [7, 9, 11]) == [8]
    ensures Decide(GenericUniverse(), 6, [8]) == Ok(8)
  {
    var u := GenericUniverse();
    GenericUniverseValid();
    assert GenericArguments(u, 6) == [5];
    assert TryResolve(u, 7, [5]) == Some(8);
    assert TryResolve(u, 9, [5]) == Some(10);
    assert MatchOf(u, 6, 7) == [8] by { Implements(u, 6, 8, 0); }
    assert MatchOf(u, 6, 9) == [] by { IGNotReached(u, 10); }
    assert MatchOf(u, 6, 11) == [];
    assert Matches(u, 6, [11]) == [];
    assert Matches(u, 6, [9, 11]) == [];
  }

  lemma Implements(u: Universe, i: TypeId, t: TypeId, k: nat)
    requires t < |u.types| && k < |u.types[t].interfaces| && u.types[t].interfaces[k] == i && i < t
    ensures Assignable(u, i, t)
  {
  }

  lemma Inherits(u: Universe, target: TypeId, t: TypeId)
    requires t < |u.types| && u.types[t].baseType.Some? && u.types[t].baseType.value < t
    requires Assignable(u, target, u.types[t].baseType.value)
    ensures Assignable(u, target, t)
  {
  }

  /**
   * The `InterfaceResolution` fixture: First and Second implement one
   * interface with no common base but ControlObject (ambiguous); Third and
   * Forth derive from Base, which implements the other interface (Base).
   */
  function ResolutionUniverse(): Universe
  {
    Universe(
      [ ObjectInfo(),                                   // 0
        InterfaceInfo("IUIObject", []),                 // 1
        InterfaceInfo("IPageObject", [1]),              // 2
        InterfaceInfo("IControlObject", [1]),           // 3
        ClassInfo("ControlObject", 0, [3]),             // 4
        InterfaceInfo("INoCommonBase", [3]),            // 5
        ClassInfo("FirstImplementation", 4, [5]),       // 6
        ClassInfo("SecondImplementation", 4, [5]),      // 7
        InterfaceInfo("ICommonBase", [3]),              // 8
        ClassInfo("Base", 4, [8]),                      // 9
        ClassInfo("ThirdImplementation", 9, []),        // 10
        ClassInfo("ForthImplementation", 9, [])         // 11
      ],
      0, 1, 2, 3, map[])
  }

  lemma ResolutionUniverseValid()
    ensures Valid(ResolutionUniverse())
  {
    var u := ResolutionUniverse();
    forall t | 0 <= t < |u.types| ensures WellFormedType(u, t) {
      ResolutionTypeWellFormed(t);
    }
  }

  lemma ResolutionTypeWellFormed(t: TypeId)
    requires t < 12
    ensures WellFormedType(ResolutionUniverse(), t)
  {
    if t < 6 {
      ResolutionTypeWellFormedLow(t);
    } else {
      ResolutionTypeWellFormedHigh(t);
    }
  }

  lemma ResolutionTypeWellFormedLow(t: TypeId)
    requires t < 6
    ensures WellFormedType(ResolutionUniverse(), t)
  {
    if t == 0 { } else if t == 1 { } else if t == 2 { } else if t == 3 { } else if t == 4 { } else { assert t == 5; }
  }

  lemma ResolutionTypeWellFormedHigh(t: TypeId)
    requires 6 <= t < 12
    ensures WellFormedType(ResolutionUniverse(), t)
  {
    if t == 6 { } else if t == 7 { } else if t == 8 { } else if t == 9 { } else if t == 10 { } else { assert t == 11; }
  }

  lemma AmbiguityScenario()
    ensures Valid(ResolutionUniverse())
    ensures Decide(ResolutionUniverse(), 5, [6, 7]) == Err(AmbiguousControlObjectMatch(5, [6, 7], 4))
    ensures Decide(ResolutionUniverse(), 8, [9, 10, 11]) == Ok(9)
  {
    ResolutionUniverseValid();
    Ambiguous();
    SharedBaseDecided();
  }

  lemma Ambiguous()
    requires Valid(ResolutionUniverse())
    ensures Decide(ResolutionUniverse(), 5, [6, 7]) == Err(AmbiguousControlObjectMatch(5, [6, 7], 4))
  {
    var u := ResolutionUniverse();
    assert !Assignable(u, 7, 6) by { ClassAssignableIsBaseChain(u, 7, 6); }
    assert !Assignable(u, 6, 7) by { ClassAssignableIsBaseChain(u, 6, 7); }
    assert Assignable(u, 4, 7) by { Inherits(u, 4, 7); }
    assert Climb(u, 6, 7) == 4;
    assert LowestOf(u, [6, 7]) == 4;
    assert !Assignable(u, 5, 4) by { NoCommonBaseNotReached(u, 4); }
  }

  lemma SharedBaseDecided()
    requires Valid(ResolutionUniverse())
    ensures Decide(ResolutionUniverse(), 8, [9, 10, 11]) == Ok(9)
  {
    var u := ResolutionUniverse();
    assert !Assignable(u, 10, 9) by { ClassAssignableIsBaseChain(u, 10, 9); }
    assert !Assignable(u, 11, 9) by { ClassAssignableIsBaseChain(u, 11, 9); }
    assert Assignable(u, 9, 10) by { Inherits(u, 9, 10); }
    assert Assignable(u, 9, 11) by { Inherits(u, 9, 11); }
    assert LowestPrefix(u, [9, 10, 11], 2) == 9;
    assert LowestOf(u, [9, 10, 11]) == 9;
    assert Assignable(u, 8, 9) by { Implements(u, 8, 9, 0); }
  }

  lemma NoCommonBaseNotReached(u: Universe, t: TypeId)
    requires u == ResolutionUniverse() && t in {0, 1, 3, 4}
    ensures !Assignable(u, 5, t)
    decreases t
  {
    var info := u.types[t];
    forall k | 0 <= k < |info.interfaces| ensures !Assignable(u, 5, info.interfaces[k]) {
      NoCommonBaseNotReached(u, info.interfaces[k]);
    }
    if info.baseType.Some? {
      NoCommonBaseNotReached(u, info.baseType.value);
    }
  }
}
