/**
 * The process-wide type locator `Locate`: it scans the loaded assemblies for
 * UI object types, memoises the page-object, control-object and
 * child-to-parent tables, and answers which page objects are children of a
 * given page object.
 */
module Locator {
  import opened Wrappers
  import opened TypeSystem
  import opened Seqs

  /** A loaded assembly; `types` is None when `GetTypes()` throws. */
  datatype Assembly = Assembly(id: nat, name: string, types: Option<seq<TypeId>>)

  /** `AssembliesToResolveTypes` and `AppDomain.CurrentDomain.GetAssemblies()` at the time of a call. */
  datatype Env = Env(assembliesToResolveTypes: seq<Assembly>, appDomainAssemblies: seq<Assembly>)

  /** The selector passed to `UIObjectTypes`. */
  datatype Selector = AnyUIObject | PageObjects | ControlObjects

  datatype LocateError =
    | ChildOfUsage(parent: TypeId)
    | DuplicateChild(child: TypeId)   // ToDictionary meeting a key twice
    | AmbiguousParentObjectFound(parent: TypeId, similarParent: TypeId, child: TypeId)

  // ---------------------------------------------------------------- assemblies

  function Names(s: seq<Assembly>): (r: seq<string>)
    ensures |r| == |s| && forall i :: 0 <= i < |s| ==> r[i] == s[i].name
  {
    if s == [] then [] else [s[0].name] + Names(s[1..])
  }

  /** The app-domain assemblies whose name is not among the assemblies to resolve types from. */
  function NotInResolveTypes(names: seq<string>, loaded: seq<Assembly>): (r: seq<Assembly>)
    ensures forall a :: a in r <==> a in loaded && a.name !in names
  {
    if loaded == [] then []
    else (if loaded[0].name in names then [] else [loaded[0]]) + NotInResolveTypes(names, loaded[1..])
  }

  /** The assemblies `Types` scans: the union of both lists, duplicates removed, first occurrence first. */
  function ScannedAssemblies(env: Env): seq<Assembly>
  {
    DistinctBy(env.assembliesToResolveTypes
               + NotInResolveTypes(Names(env.assembliesToResolveTypes), env.appDomainAssemblies),
               (a: Assembly) => a)
  }

  /** The types of a list of assemblies; an assembly that fails to load contributes none. */
  function TypesOf(s: seq<Assembly>): seq<TypeId>
  {
    if s == [] then [] else TypesOf(s[..|s| - 1]) + s[|s| - 1].types.GetOr([])
  }

  function AvailableTypes(env: Env): seq<TypeId>
  {
    TypesOf(ScannedAssemblies(env))
  }

  function FailingAssemblies(s: seq<Assembly>): set<Assembly>
  {
    set a | a in s && a.types.None?
  }

  // ---------------------------------------------------------------- selection

  /** The main selector of `UIObjectTypes`; a type whose inspection throws is skipped. */
  predicate IsUIObjectType(u: Universe, t: TypeId)
  {
    t < |u.types| && !u.types[t].inspectionFails
    && !u.types[t].isInterface && !u.types[t].isAbstract && u.types[t].hasDefaultConstructor
    && Assignable(u, u.iUIObject, t)
  }

  predicate Selects(u: Universe, sel: Selector, t: TypeId)
  {
    match sel
    case AnyUIObject => true
    case PageObjects => Assignable(u, u.iPageObject, t)
    case ControlObjects => Assignable(u, u.iControlObject, t)
  }

  function UIObjectsIn(u: Universe, ts: seq<TypeId>): (r: seq<TypeId>)
    ensures |r| <= |ts|
    ensures forall t :: t in r <==> t in ts && IsUIObjectType(u, t)
  {
    if ts == [] then []
    else (if IsUIObjectType(u, ts[0]) then [ts[0]] else []) + UIObjectsIn(u, ts[1..])
  }

  function SelectIn(u: Universe, sel: Selector, ts: seq<TypeId>): (r: seq<TypeId>)
    ensures |r| <= |ts|
    ensures forall t :: t in r <==> t in ts && Selects(u, sel, t)
  {
    if ts == [] then []
    else (if Selects(u, sel, ts[0]) then [ts[0]] else []) + SelectIn(u, sel, ts[1..])
  }

  /** What `ControlObjectTypes()` returns when every memo is empty. */
  function FreshControlObjectTypes(u: Universe, env: Env): seq<TypeId>
  {
    SelectIn(u, ControlObjects, UIObjectsIn(u, AvailableTypes(env)))
  }

  // ---------------------------------------------------------------- parents

  /** The first element of `s` that `target` is assignable from (`First` after `Where`). */
  function FirstAssignable(u: Universe, target: TypeId, s: seq<TypeId>): (r: Option<TypeId>)
    ensures r.None? <==> forall i :: 0 <= i < |s| ==> !Assignable(u, target, s[i])
    ensures r.Some? ==> exists i :: 0 <= i < |s| && s[i] == r.value && Assignable(u, target, s[i])
                           && forall k :: 0 <= k < i ==> !Assignable(u, target, s[k])
  {
    if s == [] then None
    else if Assignable(u, target, s[0]) then Some(s[0])
    else
      var r := FirstAssignable(u, target, s[1..]);
      assert forall i :: 1 <= i < |s| ==> s[i] == s[1..][i - 1];
      r
  }

  /** `Locate.Resolve`: an interface parent becomes the first page object type implementing it. */
  function ResolveParent(u: Universe, pages: seq<TypeId>, parent: TypeId): (r: Result<TypeId, LocateError>)
    ensures !IsInterface(u, parent) ==> r == Ok(parent)
    ensures IsInterface(u, parent) ==>
              (r.Err? <==> forall i :: 0 <= i < |pages| ==> !Assignable(u, parent, pages[i]))
    ensures r.Err? ==> r.error == ChildOfUsage(parent)
    ensures IsInterface(u, parent) && r.Ok? ==>
              exists i :: 0 <= i < |pages| && pages[i] == r.value && Assignable(u, parent, r.value)
                && forall k :: 0 <= k < i ==> !Assignable(u, parent, pages[k])
  {
    if !IsInterface(u, parent) then Ok(parent)
    else
      match FirstAssignable(u, parent, pages)
      case None => Err(ChildOfUsage(parent))
      case Some(p) => Ok(p)
  }

  /** The resolved parent array of one child, in declaration order; the first failure wins. */
  function ResolveAll(u: Universe, pages: seq<TypeId>, parents: seq<TypeId>): (r: Result<seq<TypeId>, LocateError>)
    ensures r.Ok? <==> forall j :: 0 <= j < |parents| ==> ResolveParent(u, pages, parents[j]).Ok?
    ensures r.Ok? ==> |r.value| == |parents|
                      && forall j :: 0 <= j < |parents| ==> ResolveParent(u, pages, parents[j]) == Ok(r.value[j])
    ensures r.Err? ==> exists j :: 0 <= j < |parents| && ResolveParent(u, pages, parents[j]) == Err(r.error)
  {
    if parents == [] then Ok([])
    else
      assert forall j :: 1 <= j < |parents| ==> parents[j] == parents[1..][j - 1];
      match ResolveParent(u, pages, parents[0])
      case Err(e) => Err(e)
      case Ok(p) =>
        match ResolveAll(u, pages, parents[1..])
        case Err(e) => Err(e)
        case Ok(ps) => Ok([p] + ps)
  }

  /** A non-abstract page object type that declares at least one IChildOf<> parent. */
  predicate DeclaresParents(u: Universe, t: TypeId)
  {
    t < |u.types| && !u.types[t].isAbstract && |u.types[t].childOf| > 0
  }

  function ParentsOf(u: Universe, t: TypeId): seq<TypeId>
  {
    if t < |u.types| then u.types[t].childOf else []
  }

  function DeclaringChildren(u: Universe, pages: seq<TypeId>): (r: seq<TypeId>)
    ensures forall t :: t in r <==> t in pages && DeclaresParents(u, t)
  {
    if pages == [] then []
    else (if DeclaresParents(u, pages[0]) then [pages[0]] else []) + DeclaringChildren(u, pages[1..])
  }

  /**
   * `ToDictionary` over the children `cs`, each mapped to its resolved parents:
   * elements are processed in order and the first failure (an unresolvable
   * parent, or a key met twice) is raised.
   */
  function ChildDictionary(u: Universe, pages: seq<TypeId>, cs: seq<TypeId>): Result<seq<(TypeId, seq<TypeId>)>, LocateError>
  {
    if cs == [] then Ok([])
    else
      match ChildDictionary(u, pages, cs[..|cs| - 1])
      case Err(e) => Err(e)
      case Ok(m) =>
        match ResolveAll(u, pages, ParentsOf(u, cs[|cs| - 1]))
        case Err(e) => Err(e)
        case Ok(ps) =>
          if cs[|cs| - 1] in Keys(m) then Err(DuplicateChild(cs[|cs| - 1])) else Ok(m + [(cs[|cs| - 1], ps)])
  }

  /** The dictionary is built exactly when the keys are distinct and every parent resolves. */
  lemma {:induction false} ChildDictionarySpec(u: Universe, pages: seq<TypeId>, cs: seq<TypeId>)
    ensures var r := ChildDictionary(u, pages, cs);
      (r.Ok? <==> NoDuplicates(cs)
                  && forall k :: 0 <= k < |cs| ==> ResolveAll(u, pages, ParentsOf(u, cs[k])).Ok?)
      && (r.Ok? ==> Keys(r.value) == cs
                    && forall i :: 0 <= i < |cs| ==> ResolveAll(u, pages, ParentsOf(u, cs[i])) == Ok(r.value[i].1))
  {
    if cs != [] {
      var init := cs[..|cs| - 1];
      var c := cs[|cs| - 1];
      assert cs == init + [c];
      ChildDictionarySpec(u, pages, init);
      NoDuplicatesAppend(init, c);
      var ri := ChildDictionary(u, pages, init);
      if ri.Ok? {
        var m := ri.value;
        var pr := ResolveAll(u, pages, ParentsOf(u, c));
        if pr.Ok? && c !in Keys(m) {
          var full := m + [(c, pr.value)];
          KeysAppend(m, (c, pr.value));
          assert forall i :: 0 <= i < |m| ==> full[i] == m[i];
        }
      }
    }
  }

  /** `ChildToParentUncached`: every declaring page object mapped to its resolved parents. */
  function ChildToParentMap(u: Universe, pages: seq<TypeId>): Result<seq<(TypeId, seq<TypeId>)>, LocateError>
  {
    ChildDictionary(u, pages, DeclaringChildren(u, pages))
  }

  lemma ChildToParentMapSpec(u: Universe, pages: seq<TypeId>)
    ensures var r := ChildToParentMap(u, pages);
      (r.Ok? <==> NoDuplicates(DeclaringChildren(u, pages))
                  && forall t :: t in pages && DeclaresParents(u, t) ==>
                       forall j :: 0 <= j < |ParentsOf(u, t)| ==> ResolveParent(u, pages, ParentsOf(u, t)[j]).Ok?)
      && (r.Ok? ==> (forall t :: t in Keys(r.value) <==> t in pages && DeclaresParents(u, t))
                    && forall i :: 0 <= i < |r.value| ==>
                         ResolveAll(u, pages, ParentsOf(u, r.value[i].0)) == Ok(r.value[i].1))
  {
    var cs := DeclaringChildren(u, pages);
    var r := ChildToParentMap(u, pages);
    ChildDictionarySpec(u, pages, cs);
    if r.Ok? {
      assert Keys(r.value) == cs;
    }
    assert (forall k :: 0 <= k < |cs| ==> ResolveAll(u, pages, ParentsOf(u, cs[k])).Ok?)
       <==> (forall t :: t in cs ==> ResolveAll(u, pages, ParentsOf(u, t)).Ok?);
  }

  // ---------------------------------------------------------------- children

  function QualifiedName(u: Universe, t: TypeId): string
  {
    if t < |u.types| then u.types[t].qualifiedName else ""
  }

  /** A child whose parents miss `p` by identity yet contain a type with `p`'s assembly-qualified name. */
  predicate MatchesOnlyByName(u: Universe, entry: (TypeId, seq<TypeId>), p: TypeId)
  {
    p !in entry.1 && exists q :: q in entry.1 && QualifiedName(u, q) == QualifiedName(u, p)
  }

  function FirstByName(u: Universe, parents: seq<TypeId>, p: TypeId): (r: TypeId)
    requires exists q :: q in parents && QualifiedName(u, q) == QualifiedName(u, p)
    ensures r in parents && QualifiedName(u, r) == QualifiedName(u, p)
  {
    if QualifiedName(u, parents[0]) == QualifiedName(u, p) then parents[0]
    else FirstByName(u, parents[1..], p)
  }

  function FirstOnlyByName(u: Universe, m: seq<(TypeId, seq<TypeId>)>, p: TypeId): (r: Option<nat>)
    ensures r.None? <==> forall i :: 0 <= i < |m| ==> !MatchesOnlyByName(u, m[i], p)
    ensures r.Some? ==> r.value < |m| && MatchesOnlyByName(u, m[r.value], p)
                        && forall k :: 0 <= k < r.value ==> !MatchesOnlyByName(u, m[k], p)
  {
    if m == [] then None
    else if MatchesOnlyByName(u, m[0], p) then Some(0)
    else
      var r := FirstOnlyByName(u, m[1..], p);
      assert forall i :: 1 <= i < |m| ==> m[i] == m[1..][i - 1];
      if r.None? then None else Some(r.value + 1)
  }

  /** The children whose resolved parents contain `p`, in dictionary order. */
  function ChildrenOf(m: seq<(TypeId, seq<TypeId>)>, p: TypeId): (r: seq<TypeId>)
    ensures forall c :: c in r <==> exists i :: 0 <= i < |m| && m[i].0 == c && p in m[i].1
  {
    if m == [] then []
    else
      assert forall i :: 1 <= i < |m| ==> m[i] == m[1..][i - 1];
      (if p in m[0].1 then [m[0].0] else []) + ChildrenOf(m[1..], p)
  }

  /** `ChildTypes` for a parent object whose runtime type is `p`, over the child-to-parent map `m`. */
  function ChildTypesOf(u: Universe, m: seq<(TypeId, seq<TypeId>)>, p: TypeId): (r: Result<seq<TypeId>, LocateError>)
  {
    match FirstOnlyByName(u, m, p)
    case Some(i) => Err(AmbiguousParentObjectFound(p, FirstByName(u, m[i].1, p), m[i].0))
    case None => Ok(ChildrenOf(m, p))
  }

  lemma ChildTypesOfSpec(u: Universe, m: seq<(TypeId, seq<TypeId>)>, p: TypeId)
    ensures var r := ChildTypesOf(u, m, p);
      (r.Ok? <==> forall i :: 0 <= i < |m| ==> !MatchesOnlyByName(u, m[i], p))
      && (r.Ok? ==> forall c :: c in r.value <==> exists i :: 0 <= i < |m| && m[i].0 == c && p in m[i].1)
      && (r.Err? ==>
            (r.error.AmbiguousParentObjectFound? && r.error.parent == p
             && exists i :: 0 <= i < |m| && m[i].0 == r.error.child
                  && r.error.similarParent in m[i].1 && r.error.similarParent != p
                  && QualifiedName(u, r.error.similarParent) == QualifiedName(u, p)
                  && forall k :: 0 <= k < i ==> !MatchesOnlyByName(u, m[k], p)))
  {
  }

  // ---------------------------------------------------------------- state

  /** The trace log lists each failing assembly once: the log's elements are the error set, without repeats. */
  predicate LogsEachOnce(log: seq<Assembly>, errors: set<Assembly>)
  {
    NoDuplicates(log) && (set a | a in log) == errors
  }

  lemma FailingAssembliesAppend(s: seq<Assembly>, a: Assembly)
    ensures FailingAssemblies(s + [a]) == FailingAssemblies(s) + (if a.types.None? then {a} else {})
  {
  }

  lemma AppendFreshKeepsLog(log: seq<Assembly>, errors: set<Assembly>, a: Assembly)
    requires LogsEachOnce(log, errors) && a !in errors
    ensures LogsEachOnce(log + [a], errors + {a})
  {
    assert (set x | x in log + [a]) == (set x | x in log) + {a};
  }

  /**
   * The loop of `Types` over the scanned assemblies: the types of each
   * assembly that loads, and each failing assembly recorded, traced only
   * when it was not recorded before.
   */
  method Scan(scanned: seq<Assembly>, errors0: set<Assembly>, log0: seq<Assembly>)
    returns (r: seq<TypeId>, errors: set<Assembly>, log: seq<Assembly>)
    requires LogsEachOnce(log0, errors0)
    ensures LogsEachOnce(log, errors)
    ensures r == TypesOf(scanned)
    ensures errors == errors0 + FailingAssemblies(scanned)
    ensures log0 <= log
    ensures forall a :: a in log[|log0|..] ==> a !in errors0 && a.types.None?
  {
    errors, log := errors0, log0;
    r := [];
    var i := 0;
    while i < |scanned|
      invariant 0 <= i <= |scanned|
      invariant LogsEachOnce(log, errors)
      invariant r == TypesOf(scanned[..i])
      invariant errors == errors0 + FailingAssemblies(scanned[..i])
      invariant log0 <= log
      invariant forall a :: a in log[|log0|..] ==> a !in errors0 && a.types.None?
    {
      var a := scanned[i];
      ghost var done := scanned[..i];
      assert scanned[..i + 1] == done + [a];
      assert TypesOf(done + [a]) == TypesOf(done) + a.types.GetOr([]) by {
        assert (done + [a])[..|done|] == done;
      }
      FailingAssembliesAppend(done, a);
      match a.types {
        case Some(ts) =>
          r := r + ts;
        case None =>
          if a !in errors {
            AppendFreshKeepsLog(log, errors, a);
            errors := errors + {a};
            log := log + [a];
          }
      }
      i := i + 1;
    }
    assert scanned[..i] == scanned;
  }

  class Locate {
    const u: Universe
    var childToParents: Option<seq<(TypeId, seq<TypeId>)>>
    var pageObjectTypes: Option<seq<TypeId>>
    var controlObjectTypes: Option<seq<TypeId>>
    var uiObjectTypes: Option<seq<TypeId>>
    var assembliesWithLoadErrors: set<Assembly>
    /** The assemblies whose load failure was traced, in tracing order. */
    var loadErrorLog: seq<Assembly>

    ghost predicate Valid()
      reads this
    {
      TypeSystem.Valid(u) && LogsEachOnce(loadErrorLog, assembliesWithLoadErrors) && MemosValid()
    }

    /** Each memo is empty or agrees with the memo it was computed from. */
    ghost predicate MemosValid()
      reads this`uiObjectTypes, this`pageObjectTypes, this`controlObjectTypes, this`childToParents
    {
      (uiObjectTypes.Some? ==> forall t :: t in uiObjectTypes.value ==> IsUIObjectType(u, t))
      && (pageObjectTypes.Some? ==>
            uiObjectTypes.Some? && pageObjectTypes.value == SelectIn(u, PageObjects, uiObjectTypes.value))
      && (controlObjectTypes.Some? ==>
            uiObjectTypes.Some? && controlObjectTypes.value == SelectIn(u, ControlObjects, uiObjectTypes.value))
      && (childToParents.Some? ==>
            pageObjectTypes.Some? && ChildToParentMap(u, pageObjectTypes.value) == Ok(childToParents.value))
    }

    /** The UI object types a call that needs them sees: the memo when filled, otherwise a fresh scan. */
    ghost function UITypesFor(env: Env): seq<TypeId>
      reads this`uiObjectTypes
    {
      if uiObjectTypes.Some? then uiObjectTypes.value else UIObjectsIn(u, AvailableTypes(env))
    }

    /** The recorded load errors after that scan: only an empty UI memo scans the assemblies. */
    ghost function ErrorsFor(env: Env): set<Assembly>
      reads this`uiObjectTypes, this`assembliesWithLoadErrors
    {
      if uiObjectTypes.Some? then assembliesWithLoadErrors
      else assembliesWithLoadErrors + FailingAssemblies(ScannedAssemblies(env))
    }

    /** What `PageObjectTypes()` returns on this state. */
    ghost function PageTypesFor(env: Env): seq<TypeId>
      reads this`pageObjectTypes, this`uiObjectTypes
    {
      if pageObjectTypes.Some? then pageObjectTypes.value else SelectIn(u, PageObjects, UITypesFor(env))
    }

    /** What `ControlObjectTypes()` returns on this state. */
    ghost function ControlTypesFor(env: Env): seq<TypeId>
      reads this`controlObjectTypes, this`uiObjectTypes
    {
      if controlObjectTypes.Some? then controlObjectTypes.value else SelectIn(u, ControlObjects, UITypesFor(env))
    }

    constructor (u: Universe)
      requires TypeSystem.Valid(u)
      ensures Valid() && this.u == u
      ensures childToParents.None? && pageObjectTypes.None? && controlObjectTypes.None? && uiObjectTypes.None?
      ensures assembliesWithLoadErrors == {} && loadErrorLog == []
    {
      this.u := u;
      childToParents, pageObjectTypes, controlObjectTypes, uiObjectTypes := None, None, None, None;
      assembliesWithLoadErrors, loadErrorLog := {}, [];
    }

    /** `Types`: the types of every scanned assembly; a failing one is traced once. */
    method Types(env: Env) returns (r: seq<TypeId>)
      requires Valid()
      modifies this`assembliesWithLoadErrors, this`loadErrorLog
      ensures Valid()
      ensures r == AvailableTypes(env)
      ensures assembliesWithLoadErrors == old(assembliesWithLoadErrors) + FailingAssemblies(ScannedAssemblies(env))
      ensures old(loadErrorLog) <= loadErrorLog
      ensures forall a :: a in loadErrorLog[|old(loadErrorLog)|..] ==>
                a !in old(assembliesWithLoadErrors) && a.types.None?
    {
      var errors, log;
      r, errors, log := Scan(ScannedAssemblies(env), assembliesWithLoadErrors, loadErrorLog);
      assembliesWithLoadErrors, loadErrorLog := errors, log;
    }

    /** `UIObjectTypes(selector)`: the memoised UI object types, filtered by `sel`. */
    method UIObjectTypes(env: Env, sel: Selector) returns (r: seq<TypeId>)
      requires Valid()
      modifies this`uiObjectTypes, this`assembliesWithLoadErrors, this`loadErrorLog
      ensures Valid()
      ensures old(uiObjectTypes).Some? ==>
                unchanged(this) && r == SelectIn(u, sel, uiObjectTypes.value)
      ensures old(uiObjectTypes).None? ==>
                uiObjectTypes == Some(UIObjectsIn(u, AvailableTypes(env)))
                && assembliesWithLoadErrors == old(assembliesWithLoadErrors) + FailingAssemblies(ScannedAssemblies(env))
      ensures uiObjectTypes.Some? && r == SelectIn(u, sel, uiObjectTypes.value)
      ensures forall t :: t in r ==> IsUIObjectType(u, t) && Selects(u, sel, t)
    {
      if uiObjectTypes.None? {
        var ts := Types(env);
        uiObjectTypes := Some(UIObjectsIn(u, ts));
      }
      r := SelectIn(u, sel, uiObjectTypes.value);
    }

    /** `PageObjectTypes()`: computed once, then returned from the memo. */
    method PageObjectTypes(env: Env) returns (r: seq<TypeId>)
      requires Valid()
      modifies this`pageObjectTypes, this`uiObjectTypes, this`assembliesWithLoadErrors, this`loadErrorLog
      ensures Valid() && pageObjectTypes == Some(r)
      ensures old(pageObjectTypes).Some? ==> unchanged(this)
      ensures old(uiObjectTypes).Some? ==> r == SelectIn(u, PageObjects, old(uiObjectTypes).value)
      ensures old(uiObjectTypes).None? ==> r == SelectIn(u, PageObjects, UIObjectsIn(u, AvailableTypes(env)))
      ensures r == old(PageTypesFor(env))
      ensures uiObjectTypes == Some(old(UITypesFor(env)))
      ensures assembliesWithLoadErrors == old(ErrorsFor(env))
      ensures old(uiObjectTypes).Some? ==> loadErrorLog == old(loadErrorLog)
    {
      if pageObjectTypes.Some? {
        r := pageObjectTypes.value;
      } else {
        r := UIObjectTypes(env, PageObjects);
        pageObjectTypes := Some(r);
      }
    }

    /** `ControlObjectTypes()`: computed once, then returned from the memo. */
    method ControlObjectTypes(env: Env) returns (r: seq<TypeId>)
      requires Valid()
      modifies this`controlObjectTypes, this`uiObjectTypes, this`assembliesWithLoadErrors, this`loadErrorLog
      ensures Valid() && controlObjectTypes == Some(r)
      ensures old(controlObjectTypes).Some? ==> unchanged(this)
      ensures old(uiObjectTypes).Some? ==> r == SelectIn(u, ControlObjects, old(uiObjectTypes).value)
      ensures old(uiObjectTypes).None? ==> r == FreshControlObjectTypes(u, env)
      ensures r == old(ControlTypesFor(env))
      ensures uiObjectTypes == Some(old(UITypesFor(env)))
      ensures assembliesWithLoadErrors == old(ErrorsFor(env))
      ensures old(uiObjectTypes).Some? ==> loadErrorLog == old(loadErrorLog)
      ensures forall t :: t in r ==> IsUIObjectType(u, t) && Assignable(u, u.iControlObject, t)
    {
      if controlObjectTypes.Some? {
        r := controlObjectTypes.value;
      } else {
        r := UIObjectTypes(env, ControlObjects);
        controlObjectTypes := Some(r);
      }
    }

    /** `ChildToParent`: the memoised child-to-parent map; a failed computation is not memoised. */
    method ChildToParent(env: Env) returns (r: Result<seq<(TypeId, seq<TypeId>)>, LocateError>)
      requires Valid()
      modifies this`childToParents, this`pageObjectTypes, this`uiObjectTypes,
               this`assembliesWithLoadErrors, this`loadErrorLog
      ensures Valid() && pageObjectTypes.Some?
      ensures old(childToParents).Some? ==> unchanged(this) && r == Ok(old(childToParents).value)
      ensures r == ChildToParentMap(u, pageObjectTypes.value)
      ensures childToParents == (if r.Ok? then Some(r.value) else None)
      ensures pageObjectTypes == Some(old(PageTypesFor(env)))
      ensures uiObjectTypes == Some(old(UITypesFor(env)))
      ensures assembliesWithLoadErrors == old(ErrorsFor(env))
      ensures old(uiObjectTypes).Some? ==> loadErrorLog == old(loadErrorLog)
    {
      if childToParents.Some? {
        r := Ok(childToParents.value);
      } else {
        var pages := PageObjectTypes(env);
        r := ChildToParentMap(u, pages);
        if r.Ok? {
          childToParents := Some(r.value);
        }
      }
    }

    /** `ChildTypes(parentToFind)` for a parent object whose runtime type is `p`. */
    method ChildTypes(env: Env, p: TypeId) returns (r: Result<seq<TypeId>, LocateError>)
      requires Valid()
      modifies this`childToParents, this`pageObjectTypes, this`uiObjectTypes,
               this`assembliesWithLoadErrors, this`loadErrorLog
      ensures Valid() && pageObjectTypes.Some?
      ensures r == match ChildToParentMap(u, pageObjectTypes.value)
                   case Err(e) => Err(e)
                   case Ok(m) => ChildTypesOf(u, m, p)
      ensures pageObjectTypes == Some(old(PageTypesFor(env)))
      ensures uiObjectTypes == Some(old(UITypesFor(env)))
      ensures assembliesWithLoadErrors == old(ErrorsFor(env))
      ensures old(uiObjectTypes).Some? ==> loadErrorLog == old(loadErrorLog)
    {
      var m := ChildToParent(env);
      match m {
        case Err(e) => r := Err(e);
        case Ok(map_) => r := ChildTypesOf(u, map_, p);
      }
    }

    /** `ClearCaches`: forget all four memos; load errors stay recorded. */
    method ClearCaches()
      requires Valid()
      modifies this`childToParents, this`pageObjectTypes, this`controlObjectTypes, this`uiObjectTypes
      ensures Valid()
      ensures childToParents.None? && pageObjectTypes.None? && controlObjectTypes.None? && uiObjectTypes.None?
    {
      childToParents, pageObjectTypes, controlObjectTypes, uiObjectTypes := None, None, None, None;
    }
  }

  // ---------------------------------------------------------------- scenario

  /**
   * An assembly loaded twice: process object A and its copy A' share one
   * assembly-qualified name; page object B is a child of A and its copy B'
   * a child of A'. Asking for the children of an A object fails on B'.
   */
  function TwiceLoaded(): Universe
  {
    Universe(
      [ ClassInfo("A", 0, []).(qualifiedName := "A, Tests"),    // 0
        ClassInfo("B", 0, []).(qualifiedName := "B, Tests"),    // 1
        ClassInfo("A", 0, []).(qualifiedName := "A, Tests"),    // 2
        ClassInfo("B", 0, []).(qualifiedName := "B, Tests") ],  // 3
      0, 0, 0, 0, map[])
  }

  lemma TwiceLoadedScenario()
    ensures ChildTypesOf(TwiceLoaded(), [(1, [0]), (3, [2])], 0) == Err(AmbiguousParentObjectFound(0, 2, 3))
    ensures ChildTypesOf(TwiceLoaded(), [(1, [0])], 0) == Ok([1])
  {
    var u := TwiceLoaded();
    assert !MatchesOnlyByName(u, (1, [0]), 0);
    assert MatchesOnlyByName(u, (3, [2]), 0) by {
      assert QualifiedName(u, 2) == QualifiedName(u, 0);
    }
    var m := [(1, [0]), (3, [2])];
    assert m[1..] == [(3, [2])];
    assert FirstOnlyByName(u, [(3, [2])], 0) == Some(0);
    assert FirstOnlyByName(u, m, 0) == Some(1);
    assert FirstByName(u, [2], 0) == 2;
    assert FirstOnlyByName(u, [(1, [0])], 0) == None;
    assert ChildrenOf([(1, [0])], 0) == [1];
  }
}
