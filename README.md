# Coparoo Desktop core, modelled in Dafny

Trumpf.Coparoo.Desktop is a page-object framework for desktop UI tests. It
locates page-object and control-object types by reflection, resolves
control-object interfaces to concrete classes, builds objects with a small
dependency-injection container, and walks the UI tree with caching nodes and
restricted search patterns. It also retries flaky actions, runs a wait dialog
with a good/bad timeout state machine, and collects page-test statistics
that it draws as DOT graphs.

The model has one module per source component:

- `TypeSystem` (`type_system.dfy`) is the reflection view of .NET types that
  the locators rely on. Types form a finite universe, base types and
  interfaces have smaller ids, and it defines `IsAssignableFrom` and the
  base-type chain.
- `Locator` (`locator.dfy`) is the static `Locate` class. Its memos are
  fields of one object, and the loaded assemblies are a parameter of each
  call.
- `InterfaceResolution` (`interface_resolver.dfy`) is the
  `UIObjectInterfaceResolver`, with its caches and the `LowestType` loop.
- `ClassResolver` (`class_resolver.dfy`) is the
  `CompactClassResolverContainer`. Its registries are fields, and resolution
  is a recursive method over a resolving set.
- `NodeCache` (`node_locator.dfy`) is the `NodeLocator` node and picture
  cache.
- `UIObjectNodes` (`ui_object_node.dfy`) is the `UIObjectNode` root lookup
  with its cache, statistics counters, snapping and memos. A lookup is the
  chain of accesses from an object up through its parents to the root; all
  of them share the root's `NodeLocator` and counters.
- `ProcessObjects` (`process_object_node.dfy`) is the `ProcessObjectNode`.
- `UIObjects` (`ui_object_extensions.dfy`) holds the UI-object extension
  methods `Root`, `Find` and `FindAll`.
- `TreeSearch` (`tree_search.dfy`) is the breadth-first `MyFindAll` over a
  tree of property maps, together with `TryGetProperty`.
- `SearchPatterns` (`search.dfy`) is the restricted `Search` pattern.
- `Retry` (`retry.dfy`) holds `RetryAndRecover` and `Do`.
- `ConditionDialogs` (`condition_dialog.dfy`) is the `ConditionDialog` state
  machine and its evaluator loop.
- `DotTrees` (`dot_tree.dfy`) holds `Node`, `Edge` and `DotTree`.
- `Statistics` (`statistics.dfy`) holds `TestMethodStatistic`,
  `TestClassStatistic` and `PageObjectStatistic`.
- `Wrappers` and `Seqs` are shared helpers:
  - `Option`, `Result` and `Outcome`;
  - LINQ-style `Distinct`, `SelectMany` and `Keys`;
  - dictionaries as association lists in insertion order.
- `InterfaceScenarios` and `ClassScenarios` restate the repository's unit
  tests as lemmas over concrete universes.

The code is mixed: some parts update state and some are pure.

- Objects whose fields the code updates are classes with `modifies`
  clauses.
- Loops are methods with invariants. Each is proved equal to a function,
  such as `MyFindAll` and `LevelOrder`, `LowestType` and the least common
  superclass, or `Search.ToString` and `Rendered`.
- Pure expressions are functions with lemmas.

There are deliberate modelling choices:

- C# `int` and `TimeSpan` arithmetic are written out where the code can
  overflow:
  - the `remainingAttempts` decrement wraps around;
  - the dialog's countdown throws `OverflowException`.
- `null` is `None`.
- Exceptions are `Err` values.
- Driver queries, clocks and user events are parameters.

## Model

| member | source | states |
|---|---|---|
| TypeSystem.BaseOf | Trumpf.Coparoo.Desktop/Core/RootObject/Locators/UIObjectInterfaceResolver.cs:152 | the base type of a class other than `object` is a class with a smaller id, so climbing `BaseType` terminates |
| TypeSystem.BaseChainIsAssignable | Trumpf.Coparoo.Desktop/Core/RootObject/Locators/UIObjectInterfaceResolver.cs:151-152 | a type is assignable to every type on its base chain |
| TypeSystem.InterfaceReachesNoClass | Trumpf.Coparoo.Desktop/Core/RootObject/Locators/UIObjectInterfaceResolver.cs:58-61 | no class is assignable from an interface |
| TypeSystem.ClassAssignableIsBaseChain | Trumpf.Coparoo.Desktop/Core/RootObject/Locators/UIObjectInterfaceResolver.cs:147-152 | a class is assignable from a type exactly when it lies on that type's base chain (both directions) |
| TypeSystem.ObjectOnEveryChain | Trumpf.Coparoo.Desktop/Core/RootObject/Locators/UIObjectInterfaceResolver.cs:151-152 | `object` is on every class's base chain, so the inner loop of `LowestType` always stops |
| TypeSystem.BaseChainTransitive | Trumpf.Coparoo.Desktop/Core/RootObject/Locators/UIObjectInterfaceResolver.cs:147-152 | the base chain relation is transitive |
| TypeSystem.BaseChainTotal | Trumpf.Coparoo.Desktop/Core/RootObject/Locators/UIObjectInterfaceResolver.cs:147-152 | two types on one class's base chain are ordered, so the chain is a line |
| TypeSystem.AssignableTransitive | Trumpf.Coparoo.Desktop/Core/RootObject/Locators/UIObjectInterfaceResolver.cs:147-152 | `IsAssignableFrom` is transitive |
| Locator.Names | Trumpf.Coparoo.Desktop/PageTests/Locator.cs:41 | the names of the assemblies to resolve types from, one per assembly and in order |
| Locator.NotInResolveTypes | Trumpf.Coparoo.Desktop/PageTests/Locator.cs:41 | an app-domain assembly is scanned in addition exactly when its name is not among the assemblies to resolve types from |
| Locator.UIObjectsIn | Trumpf.Coparoo.Desktop/PageTests/Locator.cs:114-127 | the memoised UI object types are exactly the scanned types that pass the main selector, in scan order |
| Locator.SelectIn | Trumpf.Coparoo.Desktop/PageTests/Locator.cs:128 | the selector filter keeps exactly the memoised types it selects |
| Locator.FirstAssignable | Trumpf.Coparoo.Desktop/PageTests/Locator.cs:175-187 | the first type the interface is assignable from, or None exactly when there is none |
| Locator.ResolveParent | Trumpf.Coparoo.Desktop/PageTests/Locator.cs:167-190 | a class parent stays itself; an interface parent becomes the first page object implementing it, and `ChildOfUsage` is raised exactly when no page object implements it |
| Locator.ResolveAll | Trumpf.Coparoo.Desktop/PageTests/Locator.cs:102-104 | a child's parent array resolves exactly when each parent does, element by element; otherwise the error is one of a failing parent |
| Locator.DeclaringChildren | Trumpf.Coparoo.Desktop/PageTests/Locator.cs:100-101 | the dictionary keys are exactly the non-abstract page object types with `IChildOf<>` parents |
| Locator.ChildDictionarySpec | Trumpf.Coparoo.Desktop/PageTests/Locator.cs:104 | `ToDictionary` succeeds exactly when the keys are distinct and every parent resolves; its keys are the children in order, each mapped to its resolved parents |
| Locator.ChildToParentMapSpec | Trumpf.Coparoo.Desktop/PageTests/Locator.cs:98-104 | `ChildToParentUncached` succeeds exactly when no child repeats and every parent resolves; it maps every declaring page object to its resolved parents |
| Locator.FirstByName | Trumpf.Coparoo.Desktop/PageTests/Locator.cs:142 | the chosen similar parent is on the child's list and has the parent's assembly-qualified name |
| Locator.FirstOnlyByName | Trumpf.Coparoo.Desktop/PageTests/Locator.cs:138-143 | the first child whose parents match the parent by name but not by identity, or None exactly when no child does |
| Locator.ChildrenOf | Trumpf.Coparoo.Desktop/PageTests/Locator.cs:147 | the children whose resolved parents contain the parent object's type |
| Locator.ChildTypesOfSpec | Trumpf.Coparoo.Desktop/PageTests/Locator.cs:136-149 | `ChildTypes` fails exactly when some child's parents match only by assembly-qualified name, and then names the first such child and an identically named other parent; otherwise it returns exactly the children declaring the parent |
| Locator.FailingAssembliesAppend | Trumpf.Coparoo.Desktop/PageTests/Locator.cs:55-69 | the set of failing assemblies grows by an assembly exactly when its `GetTypes` throws |
| Locator.AppendFreshKeepsLog | Trumpf.Coparoo.Desktop/PageTests/Locator.cs:57-69 | tracing an assembly not yet in the error set keeps the log free of repeats and equal to the error set |
| Locator.Locate.constructor | Trumpf.Coparoo.Desktop/PageTests/Locator.cs:31-39 | all four memos start empty and no load error is recorded |
| Locator.Scan | Trumpf.Coparoo.Desktop/PageTests/Locator.cs:49-73 | the loop over the scanned assemblies gives all loaded assemblies' types in order, records every failing assembly, and traces only those not recorded before, each once |
| Locator.Locate.Types | Trumpf.Coparoo.Desktop/PageTests/Locator.cs:45-75 | the types of the union of both assembly lists, a failing assembly contributing none; each failing assembly joins the error set, and only those not yet in it are traced |
| Locator.Locate.UIObjectTypes | Trumpf.Coparoo.Desktop/PageTests/Locator.cs:111-129 | a filled memo is returned filtered and nothing changes; an empty memo is filled with the UI object types of the scanned assemblies; every result is a selected UI object type |
| Locator.Locate.PageObjectTypes | Trumpf.Coparoo.Desktop/PageTests/Locator.cs:80-81 | the page object types, computed once and then returned from the memo unchanged; afterwards the page memo holds them, the UI memo is the old one when filled and otherwise the UI object types of the scan, and the load errors of that scan are recorded only when it ran |
| Locator.Locate.ControlObjectTypes | Trumpf.Coparoo.Desktop/PageTests/Locator.cs:86-87 | the control object types, computed once and then returned from the memo unchanged, each a UI object type assignable to `IControlObject`; the UI memo and the recorded load errors afterwards are as for `PageObjectTypes` |
| Locator.Locate.ChildToParent | Trumpf.Coparoo.Desktop/PageTests/Locator.cs:92-93 | the memo is returned when filled; otherwise the map is computed from the page object types, and it is memoised only when it succeeds; the page memo, UI memo and load errors afterwards are those `PageObjectTypes` leaves |
| Locator.Locate.ChildTypes | Trumpf.Coparoo.Desktop/PageTests/Locator.cs:136-149 | the error of the child-to-parent map, or the children of the parent over that map, where the map is built on the page object types of the old memo or of a fresh scan; the memos and load errors afterwards are as for `ChildToParent` |
| Locator.Locate.ClearCaches | Trumpf.Coparoo.Desktop/PageTests/Locator.cs:154-160 | all four memos are emptied and the load errors stay recorded |
| Locator.TwiceLoadedScenario | Trumpf.Coparoo.Desktop.Tests.LoadFrom/PageObjects/MultipleLoadTests.cs:37-52 | with an assembly loaded twice, asking for the children of the first copy fails with an ambiguous parent naming the second copy; with one copy it returns the child |
| InterfaceResolution.Climb | Trumpf.Coparoo.Desktop/Core/RootObject/Locators/UIObjectInterfaceResolver.cs:150-152 | the inner loop stops at a class assignable from the current type that lies on the chain it started from, and at no class below the least such one |
| InterfaceResolution.LowestPrefix | Trumpf.Coparoo.Desktop/Core/RootObject/Locators/UIObjectInterfaceResolver.cs:143-156 | after each iteration of the outer loop, `ret` is a class |
| InterfaceResolution.LowestPrefixIsLeast | Trumpf.Coparoo.Desktop/Core/RootObject/Locators/UIObjectInterfaceResolver.cs:143-156 | after the first n types, `ret` is a common superclass of them, lies on the first type's chain, and is assignable to every other common superclass |
| InterfaceResolution.LowestOfSingle | Trumpf.Coparoo.Desktop/Core/RootObject/Locators/UIObjectInterfaceResolver.cs:135-136 | the lowest type of one type is that type |
| InterfaceResolution.LowestType | Trumpf.Coparoo.Desktop/Core/RootObject/Locators/UIObjectInterfaceResolver.cs:140-157 | the loop returns the least common superclass of the types |
| InterfaceResolution.ReflexiveFilter | Trumpf.Coparoo.Desktop/Core/RootObject/Locators/UIObjectInterfaceResolver.cs:68 | the self-assignability filter on the control types keeps every one of them |
| InterfaceResolution.Matches | Trumpf.Coparoo.Desktop/Core/RootObject/Locators/UIObjectInterfaceResolver.cs:70-76 | a plain request matches exactly the candidates assignable to it; a constructed generic matches exactly the instantiations of candidates of the same arity that construct and are assignable to it |
| InterfaceResolution.DecideSpec | Trumpf.Coparoo.Desktop/Core/RootObject/Locators/UIObjectInterfaceResolver.cs:78-99 | `ControlObjectNotFound` exactly when nothing matches; otherwise the least common superclass of the matches when the request is assignable from it, else `AmbiguousControlObjectMatch` naming the matches and that superclass |
| InterfaceResolution.MissOutcomeSpec | Trumpf.Coparoo.Desktop/Core/RootObject/Locators/UIObjectInterfaceResolver.cs:78-99 | a miss raises `ControlObjectNotFound` exactly when the candidates match nothing and, with the retry allowed, the fresh scan matches nothing either; a success is assignable to the request and is the least common superclass of the matches it was decided on |
| InterfaceResolution.InterfaceResolver.constructor | Trumpf.Coparoo.Desktop/Core/RootObject/Locators/UIObjectInterfaceResolver.cs:32-33 | both caches start empty |
| InterfaceResolution.InterfaceResolver.ResolveControlType | Trumpf.Coparoo.Desktop/Core/RootObject/Locators/UIObjectInterfaceResolver.cs:55-111 | a class resolves to itself and a cached interface to its cached type, both without change; a miss is `MissOutcome` on the control types it starts from (the resolver's cache when filled, else what `Locate.ControlObjectTypes` gives on its memos), retrying at most once with cleared caches, and only successes are cached |
| InterfaceResolution.InterfaceResolver.ComputeMatches | Trumpf.Coparoo.Desktop/Core/RootObject/Locators/UIObjectInterfaceResolver.cs:68-76 | the control type cache is kept when filled and otherwise becomes `Locate.ControlObjectTypes` on `Locate`'s memos, whose new memos and load errors are stated; the matches are computed over that cache |
| InterfaceResolution.InterfaceResolver.Resolve | Trumpf.Coparoo.Desktop/Core/RootObject/Locators/UIObjectInterfaceResolver.cs:46-47 | resolution with one retry: a miss is `MissOutcome` with the retry allowed, so the lowest common match of the cached candidates, or of a fresh scan when those match nothing (`MissOutcomeSpec`); results are assignable to the request and only successes are cached |
| InterfaceScenarios.InterfacesUniverseValid | Trumpf.Coparoo.Desktop.Tests/PageObjects/Interfaces.cs:138-160 | the `Interfaces` fixture's control types form a well-formed universe |
| InterfaceScenarios.ClosestMatchScenario | Trumpf.Coparoo.Desktop.Tests/PageObjects/Interfaces.cs:122-136 | `ID` matches D and E and resolves to the closest, D |
| InterfaceScenarios.ExactMatchScenario | Trumpf.Coparoo.Desktop.Tests/PageObjects/Interfaces.cs:122-136 | `IE` resolves to E and `IF` to F |
| InterfaceScenarios.GenericUniverseValid | Trumpf.Coparoo.Desktop.Tests/PageObjects/Interfaces.cs:50-66 | the generic fixture, with an added non-generic D implementing `IG<IF>`, forms a well-formed universe |
| InterfaceScenarios.GenericScenario | Trumpf.Coparoo.Desktop.Tests/PageObjects/Interfaces.cs:68-78 | `IG<IF>` matches only `G<IF>` and resolves to it |
| InterfaceScenarios.ResolutionUniverseValid | Trumpf.Coparoo.Desktop.Tests/PageObjects/InterfaceResolution.cs:45-80 | the `InterfaceResolution` fixture forms a well-formed universe |
| InterfaceScenarios.AmbiguityScenario | Trumpf.Coparoo.Desktop.Tests/PageObjects/InterfaceResolution.cs:25-34 | two implementations without a common base raise `AmbiguousControlObjectMatch`; two subclasses of an implementing base resolve to that base |
| ClassResolver.Instance.constructor | Trumpf.Coparoo.Desktop/CompactClassResolver/CompactClassResolverContainer.cs:161 | an object records its type, the constructor that built it and its arguments |
| ClassResolver.InsertByArityPermutes | Trumpf.Coparoo.Desktop/CompactClassResolver/CompactClassResolverContainer.cs:130 | inserting a constructor into the sorted list loses and adds nothing |
| ClassResolver.InsertByArityDescending | Trumpf.Coparoo.Desktop/CompactClassResolver/CompactClassResolverContainer.cs:130 | insertion keeps the list in descending parameter count |
| ClassResolver.InsertByArityStable | Trumpf.Coparoo.Desktop/CompactClassResolver/CompactClassResolverContainer.cs:130 | insertion keeps the order among constructors of equal parameter count |
| ClassResolver.SortByArityPermutes | Trumpf.Coparoo.Desktop/CompactClassResolver/CompactClassResolverContainer.cs:130 | `OrderByDescending` by parameter count is a permutation into descending order |
| ClassResolver.SortByArityStable | Trumpf.Coparoo.Desktop/CompactClassResolver/CompactClassResolverContainer.cs:130 | the sort is stable: constructors of one parameter count keep their reflection order |
| ClassResolver.PublicsMembers | Trumpf.Coparoo.Desktop/CompactClassResolver/CompactClassResolverContainer.cs:123 | `GetConstructors()` returns exactly the public constructors, and none exactly when no constructor is public |
| ClassResolver.CandidatesOrder | Trumpf.Coparoo.Desktop/CompactClassResolver/CompactClassResolverContainer.cs:123-130 | the constructors tried are the public ones, or all instance constructors when none is public, stably sorted by descending parameter count |
| ClassResolver.Plan | Trumpf.Coparoo.Desktop/CompactClassResolver/CompactClassResolverContainer.cs:98-179 | resolution with the corrected circular check fails only with `ResolutionFailedException`: a type on the resolving set fails, a registered instance is returned, an unregistered type fails, a mapped type already on the set fails, and otherwise the mapped type is built by its constructor loop with it added to the set |
| ClassResolver.PlanCtors | Trumpf.Coparoo.Desktop/CompactClassResolver/CompactClassResolverContainer.cs:135-169 | the constructor loop builds the mapped type or fails with no constructor having succeeded |
| ClassResolver.PlanCtorsFirstWorking | Trumpf.Coparoo.Desktop/CompactClassResolver/CompactClassResolverContainer.cs:135-169 | the loop builds with the first tried constructor all of whose parameters resolve and whose `Invoke` does not throw, and fails exactly when none does |
| ClassResolver.PlanArgs | Trumpf.Coparoo.Desktop/CompactClassResolver/CompactClassResolverContainer.cs:142-154 | the parameter loop resolves one argument per parameter, or stops at the first failure |
| ClassResolver.PlanArgsPrefix | Trumpf.Coparoo.Desktop/CompactClassResolver/CompactClassResolverContainer.cs:142-154 | after resolving a prefix of the parameters, the loop's outcome is that prefix followed by the rest of the loop; one failing parameter fails the constructor |
| ClassResolver.ResolvingSet.constructor | Trumpf.Coparoo.Desktop/CompactClassResolver/CompactClassResolverContainer.cs:77 | each public resolution starts with an empty resolving set |
| ClassResolver.Container.constructor | Trumpf.Coparoo.Desktop/CompactClassResolver/CompactClassResolverContainer.cs:17-20 | both registries start empty |
| ClassResolver.Container.RegisterInstance | Trumpf.Coparoo.Desktop/CompactClassResolver/CompactClassResolverContainer.cs:27-33 | a null instance throws `ArgumentNullException` and changes nothing; otherwise the instance is stored under its key, replacing any earlier one |
| ClassResolver.Container.RegisterType | Trumpf.Coparoo.Desktop/CompactClassResolver/CompactClassResolverContainer.cs:39-49 | a null type throws `ArgumentNullException`, an interface or abstract type throws `ArgumentException`, both changing nothing; otherwise the type is bound to itself |
| ClassResolver.Container.RegisterMapping | Trumpf.Coparoo.Desktop/CompactClassResolver/CompactClassResolverContainer.cs:57-68 | an interface or abstract implementation, or one not assignable to the service, throws `ArgumentException` and changes nothing; otherwise the service maps to the implementation |
| ClassResolver.Container.Resolve | Trumpf.Coparoo.Desktop/CompactClassResolver/CompactClassResolverContainer.cs:75-88 | the result follows the corrected resolution plan from an empty set: a registered instance is returned as it is, an unregistered type fails, a built object is fresh, of the mapped type, assignable to the request, and shares no dependency |
| ClassResolver.Container.ResolveOn | Trumpf.Coparoo.Desktop/CompactClassResolver/CompactClassResolverContainer.cs:98-179 | the private resolution follows the corrected plan and builds only fresh, unshared objects; since the corrected check never adds a type already on the set, removing it afterwards leaves the set as the call found it |
| ClassResolver.Container.TryConstructors | Trumpf.Coparoo.Desktop/CompactClassResolver/CompactClassResolverContainer.cs:135-169 | the constructor loop succeeds exactly when the plan's loop does, and builds the graph it describes |
| ClassResolver.Container.ResolveArguments | Trumpf.Coparoo.Desktop/CompactClassResolver/CompactClassResolverContainer.cs:142-154 | the parameter loop succeeds exactly when the plan's loop does; the arguments realise the planned graphs and share no built object |
| ClassResolver.AsWrittenLoopsUnderStack | Trumpf.Coparoo.Desktop/CompactClassResolver/CompactClassResolverContainer.cs:101-120 | in the resolution exactly as written (`PlanAsWritten`: the circular check tests only the requested key, and the mapped type is added to and removed from the one shared set), with `Register<IA, A>` and A's only constructor taking an IA, the as-written resolution of IA never returns once A is on the set |
| ClassResolver.AsWrittenNeverReturns | Trumpf.Coparoo.Desktop/CompactClassResolver/CompactClassResolverContainer.cs:101-120 | the same registration makes the as-written resolution of IA recurse without end |
| ClassResolver.CorrectedDetectsSelfLoop | Trumpf.Coparoo.Desktop/CompactClassResolver/CompactClassResolverContainer.cs:101-120 | checking the mapped type too makes the same resolution fail with `ResolutionFailedException` |
| ClassScenarios.PairToTry | Trumpf.Coparoo.Desktop/CompactClassResolver/CompactClassResolverContainer.cs:123-130 | two public constructors are tried larger first, the first given winning a tie |
| ClassScenarios.PlanSelf | Trumpf.Coparoo.Desktop/CompactClassResolver/CompactClassResolverContainer.cs:105-130 | resolving a self-bound class runs its constructor loop with the class on the set |
| ClassScenarios.PlanLeaf | Trumpf.Coparoo.Desktop/CompactClassResolver/CompactClassResolverContainer.cs:135-169 | a self-bound class whose one constructor has no parameters is built by it |
| ClassScenarios.NoParameters | Trumpf.Coparoo.Desktop/CompactClassResolver/CompactClassResolverContainer.cs:142-168 | a constructor without parameters whose `Invoke` succeeds always works |
| ClassScenarios.FallsBackToDefaultConstructor | Trumpf.Coparoo.Desktop.Tests/CompactClassResolver/CompactClassResolverContainerTests.cs:89-99 | when the larger constructor's parameter is unregistered, the parameterless constructor builds the object |
| ClassScenarios.PrefersMostParameters | Trumpf.Coparoo.Desktop.Tests/CompactClassResolver/CompactClassResolverContainerTests.cs:101-113 | of two workable constructors, the one with more parameters builds the object |
| ClassScenarios.CircularDependencyFails | Trumpf.Coparoo.Desktop.Tests/CompactClassResolver/CompactClassResolverContainerTests.cs:79-87 | two self-bound classes that need each other fail with `ResolutionFailedException` |
| ClassScenarios.ResolvesDependencyGraph | Trumpf.Coparoo.Desktop.Tests/CompactClassResolver/CompactClassResolverContainerTests.cs:115-134 | resolving ClassD builds A, B, C and D with every dependency constructed afresh |
| ClassScenarios.DependenciesAreNotShared | Trumpf.Coparoo.Desktop.Tests/CompactClassResolver/CompactClassResolverContainerTests.cs:115-134 | in such a graph D's own ClassA is not the one inside its ClassB, and its ClassB is not the one inside its ClassC |
| ClassScenarios.CorrectedDiffersOnReentry | Trumpf.Coparoo.Desktop/CompactClassResolver/CompactClassResolverContainer.cs:101-172 | with `Register<IA, A>`, `Register<B>`, A built by `A(B)` or `A()` and B by `B(IA)`, the resolution as written returns `A(B(A()))` with an empty set afterwards, while the corrected check rejects `B(IA)` and returns `A()` |
| NodeCache.Lookup | Trumpf.Coparoo.Desktop/Core/RootObject/Locators/NodeLocator.cs:55-58 | `TryGetValue` finds an entry exactly when the hash is a key, and then its value |
| NodeCache.LookupAfterStore | Trumpf.Coparoo.Desktop/Core/RootObject/Locators/NodeLocator.cs:44-47 | after storing a node under a hash, a lookup of that hash finds it and other hashes are unaffected |
| NodeCache.NodeLocator.constructor | Trumpf.Coparoo.Desktop/Core/RootObject/Locators/NodeLocator.cs:28-29 | the node cache and the picture store start empty |
| NodeCache.NodeLocator.Clear | Trumpf.Coparoo.Desktop/Core/RootObject/Locators/NodeLocator.cs:34-37 | every node is forgotten and the pictures stay |
| NodeCache.NodeLocator.Register | Trumpf.Coparoo.Desktop/Core/RootObject/Locators/NodeLocator.cs:44-47 | the entry for the hash is overwritten; other entries and the pictures stay |
| NodeCache.NodeLocator.TryGet | Trumpf.Coparoo.Desktop/Core/RootObject/Locators/NodeLocator.cs:55-58 | whether a node is registered under the hash, and which |
| NodeCache.NodeLocator.AddPicture | Trumpf.Coparoo.Desktop/Core/RootObject/Locators/NodeLocator.cs:61-64 | the picture for the hash is overwritten and the node cache stays |
| NodeCache.NodeLocator.Picture | Trumpf.Coparoo.Desktop/Core/RootObject/Locators/NodeLocator.cs:67-71 | the stored picture of the hash, or null exactly when there is none |
| UIObjectNodes.Observe | Trumpf.Coparoo.Desktop/Core/UIObject/UIObjectNode.cs:364-366 | `cached`, `accessible` and `visibleOnScreen` each hold only when the previous one does and the driver confirms it |
| UIObjectNodes.CountKeepsNested | Trumpf.Coparoo.Desktop/Core/UIObject/UIObjectNode.cs:368-374 | each access adds one to the access counter and at most one to each other counter, keeping visible ≤ accessible ≤ cached ≤ accessed |
| UIObjectNodes.StoreTouchesOwnHash | Trumpf.Coparoo.Desktop/Core/UIObject/UIObjectNode.cs:381-402 | after a lookup the object's own entry is the found node exactly when caching is enabled and a node was found; a stored picture is never replaced, nothing is pictured with images disabled, an added picture is the found node's, and other hashes and the counters do not change |
| UIObjectNodes.MatchesMemoised | Trumpf.Coparoo.Desktop/Core/UIObject/UIObjectNode.cs:212-228 | the first poll is memoised, even when it timed out, and every later call returns it without polling; the wait times out exactly when nothing was memoised and the poll found nothing |
| UIObjectNodes.Statistics.constructor | Trumpf.Coparoo.Desktop/Core/UIObject/UIObjectNode.cs:368-374 | the counters start at zero |
| UIObjectNodes.Statistics.Record | Trumpf.Coparoo.Desktop/Core/UIObject/UIObjectNode.cs:368-374 | the counters are updated as one access prescribes |
| UIObjectNodes.UIObjectNode.constructor | Trumpf.Coparoo.Desktop/Core/UIObject/UIObjectNode.cs:34-39 | a fresh object has no snapped node, index 0, no memoised matches and no memoised root |
| UIObjectNodes.UIObjectNode.AncestorsAreHigher | Trumpf.Coparoo.Desktop/Core/UIObject/UIObjectNode.cs:75-78 | the parent chain is finite and ends at the root |
| UIObjectNodes.UIObjectNode.RootNode | Trumpf.Coparoo.Desktop/Core/UIObject/UIObjectNode.cs:75-78 | the memoised root is the root at the end of the parent chain, and stays memoised |
| UIObjectNodes.UIObjectNode.Root | Trumpf.Coparoo.Desktop/Core/UIObject/UIObjectNode.cs:59-70 | the result, the root's cache, pictures and counters, and the object's own snapped node and matches are as the chain's accesses prescribe: the root gives the process, a snapped node is returned with nothing else changed, and otherwise `GetRoot` runs. Every object above it keeps its snapped node unless it had none and auto-snaps, and keeps its memoised matches unless it had none (`AboveGrown`). The exact memos of the objects above are not given. |
| UIObjectNodes.UIObjectNode.GetRoot | Trumpf.Coparoo.Desktop/Core/UIObject/UIObjectNode.cs:361-408 | one access counted, a visible cached node returned as it is, otherwise the lookup's outcome with its node cached and pictured; auto-snapping snaps the result unless the lookup raised. Every object above it keeps its snapped node unless it had none and auto-snaps, and keeps its memoised matches unless it had none (`AboveGrown`). |
| UIObjectNodes.UIObjectNode.CountAccess | Trumpf.Coparoo.Desktop/Core/UIObject/UIObjectNode.cs:363-374 | the object's cached entry and what the driver reports of it are read, and one access is counted on the root's statistics; cache and pictures stay |
| UIObjectNodes.UIObjectNode.LookUp | Trumpf.Coparoo.Desktop/Core/UIObject/UIObjectNode.cs:379-402 | when the lookup raises, nothing is cached or pictured; otherwise the found node is stored as `StoreTouchesOwnHash` states; the snapped node stays. Every object above it keeps its snapped node unless it had none and auto-snaps, and keeps its memoised matches unless it had none (`AboveGrown`). |
| UIObjectNodes.UIObjectNode.StoreFound | Trumpf.Coparoo.Desktop/Core/UIObject/UIObjectNode.cs:381-402 | the root's cache and pictures become `Store` of the found node: cached when caching is enabled, pictured when images are enabled and the hash has no picture; the counters stay |
| UIObjectNodes.UIObjectNode.Uncached | Trumpf.Coparoo.Desktop/Core/UIObject/UIObjectNode.cs:126-166 | without a parent, `NoParent`; a parent's exception propagates; at index 0 the driver's search below the parent's node; otherwise the memoised match at the index, `ArgumentOutOfRange` from `Root` and `null` from `TryRoot` when there are too few, and the time-out when polling found nothing. Every object above it keeps its snapped node unless it had none and auto-snaps, and keeps its memoised matches unless it had none (`AboveGrown`). |
| UIObjectNodes.UIObjectNode.Matches | Trumpf.Coparoo.Desktop/Core/UIObject/UIObjectNode.cs:212-228 | the memoised matches if there are any; otherwise the poll's result, which is memoised, with the time-out reported when it is empty |
| UIObjectNodes.UIObjectNode.OwnMemosGrow | Trumpf.Coparoo.Desktop/Core/UIObject/UIObjectNode.cs:221-224 | `Root` or `TryRoot` sets the object's snapped node only by auto-snapping when it had none (line 405), and its matches only when none were memoised |
| UIObjectNodes.UIObjectNode.StrictNeverNull | Trumpf.Coparoo.Desktop/Core/UIObject/UIObjectNode.cs:59-62 | `Root` and `RootUncached` never give `null`: they give a node or raise |
| UIObjectNodes.UIObjectNode.Counting | Trumpf.Coparoo.Desktop/Core/UIObject/UIObjectNode.cs:368-374 | `GetRoot` on an object `k` levels below the root counts between one and `k` accesses (one for the root), keeping the counters nested; `Root` counts nothing exactly when the object is the root or snapped |
| UIObjectNodes.UIObjectNode.Touches | Trumpf.Coparoo.Desktop/Core/UIObject/UIObjectNode.cs:381-402 | an access changes cache entries and pictures only for the hashes on its chain, and never replaces or removes a picture |
| UIObjectNodes.UIObjectNode.HitNeedsNoLookup | Trumpf.Coparoo.Desktop/Core/UIObject/UIObjectNode.cs:376-379 | a visible cached node is returned whatever the driver would find and whichever lookup is passed, with one access counted and the cache and pictures unchanged |
| UIObjectNodes.UIObjectNode.SecondAccessHitsCache | Trumpf.Coparoo.Desktop/Core/UIObject/UIObjectNode.cs:381-386 | with caching enabled the returned node is cached under the object's hash, so the next access, while the node stays accessible and visible, returns it and only counts |
| UIObjectNodes.UIObjectNode.TrySnap | Trumpf.Coparoo.Desktop/Core/UIObject/UIObjectNode.cs:261-265 | the found node becomes the snapped node, and the result says whether there is one; an exception leaves the snapped node as it was. Every object above it keeps its snapped node unless it had none and auto-snaps, and keeps its memoised matches unless it had none (`AboveGrown`). |
| UIObjectNodes.UIObjectNode.TryUnsnap | Trumpf.Coparoo.Desktop/Core/UIObject/UIObjectNode.cs:268-273 | the snapped node is forgotten, and the result says whether there was one |
| ProcessObjects.ProcessObjectNode.constructor | Trumpf.Coparoo.Desktop/Core/ProcessObject/ProcessObjectNode.cs:27-28 | neither a process name nor a process is set |
| ProcessObjects.ProcessObjectNode.InitName | Trumpf.Coparoo.Desktop/Core/ProcessObject/ProcessObjectNode.cs:108-116 | once a process is set the name is refused with `InvalidOperationException` and nothing changes; otherwise the name is replaced; the process never changes, so name and process are never both set |
| ProcessObjects.ProcessObjectNode.InitProcess | Trumpf.Coparoo.Desktop/Core/ProcessObject/ProcessObjectNode.cs:122-130 | once a name is set the process is refused with `InvalidOperationException` and nothing changes; otherwise the process is replaced; the name never changes |
| ProcessObjects.ProcessObjectNode.SearchPattern | Trumpf.Coparoo.Desktop/Core/ProcessObject/ProcessObjectNode.cs:33-36 | the process pattern carries the current process name |
| ProcessObjects.ProcessObjectNode.TryProcess | Trumpf.Coparoo.Desktop/Core/ProcessObject/ProcessObjectNode.cs:87-94 | the given process when there is one, without a driver lookup; otherwise what the driver's `TryFind` finds for the search pattern, or `null` |
| ProcessObjects.ProcessObjectNode.Process | Trumpf.Coparoo.Desktop/Core/ProcessObject/ProcessObjectNode.cs:63-66 | the same process as `TryProcess` when there is one; a miss, possible only without a given process, is an error for the search pattern where `TryProcess` gives `null` |
| ProcessObjects.ProcessObjectNode.Parent | Trumpf.Coparoo.Desktop/Core/ProcessObject/ProcessObjectNode.cs:79-82 | asking a process node for its parent always throws `InvalidOperationException` |
| UIObjects.UIObject.Root | Trumpf.Coparoo.Desktop/Core/UIObject/UIObject.cs:224-228 | a root object starts with its configuration and no depths of its own |
| UIObjects.UIObject.Child | Trumpf.Coparoo.Desktop/Extensions/IUIObjectExtensions.cs:48-49 | a created object is a child of its source and has no depths, index or pattern of its own yet |
| UIObjects.UIObject.RootObject | Trumpf.Coparoo.Desktop/Extensions/IUIObjectExtensions.cs:84-85 | a root object is its own root; any other object has its parent's |
| UIObjects.UIObject.InitDepths | Trumpf.Coparoo.Desktop/Core/UIObject/UIObject.cs:224-228 | both search depths are replaced, even by null, and nothing else changes |
| UIObjects.Ancestry | Trumpf.Coparoo.Desktop/Extensions/IUIObjectExtensions.cs:84-85 | the parent chain from the object up to its root, each step a non-root object's parent |
| UIObjects.AncestorsShareRoot | Trumpf.Coparoo.Desktop/Extensions/IUIObjectExtensions.cs:84-85 | every object on the parent chain has the same root |
| UIObjects.Find | Trumpf.Coparoo.Desktop/Extensions/IUIObjectExtensions.cs:46-53 | a fresh control of the resolved type, whose parent is the source, that carries the pattern, whose page-object depth is the given depth else the source's control search depth, and whose root is the source's |
| UIObjects.FindAll | Trumpf.Coparoo.Desktop/Extensions/IUIObjectExtensions.cs:63-78 | the controls with index 0, 1, … up to the first that does not exist, each fresh and distinct, a child of the source of the resolved type, with the given depth as its page-object depth |
| TreeSearch.TryGetProperty | Trumpf.Coparoo.Desktop/Extensions/IObjectTreeNode.cs:82-94 | reading a property succeeds exactly when the node has it, and then gives its value |
| TreeSearch.Tagged | Trumpf.Coparoo.Desktop/Extensions/IObjectTreeNode.cs:64-67 | the enqueued children keep their order, one entry each |
| TreeSearch.SuccessorsSmaller | Trumpf.Coparoo.Desktop/Extensions/IObjectTreeNode.cs:62-68 | visiting an entry enqueues strictly fewer nodes than its subtree holds, so the loop ends |
| TreeSearch.VisitSmaller | Trumpf.Coparoo.Desktop/Extensions/IObjectTreeNode.cs:44-69 | each iteration of the loop leaves fewer nodes to visit |
| TreeSearch.SearchAppend | Trumpf.Coparoo.Desktop/Extensions/IObjectTreeNode.cs:44-69 | running a queue reports the entries of its first part, then runs the rest followed by their successors |
| TreeSearch.SearchIsLevelOrder | Trumpf.Coparoo.Desktop/Extensions/IObjectTreeNode.cs:37-72 | the queue-driven search reports exactly what the level-by-level reference reports, in the same order |
| TreeSearch.NextLevelAt | Trumpf.Coparoo.Desktop/Extensions/IObjectTreeNode.cs:62-68 | children are one level deeper, and nothing below the maximum depth is enqueued |
| TreeSearch.ReportedOfAt | Trumpf.Coparoo.Desktop/Extensions/IObjectTreeNode.cs:52-59 | what a level reports lies on that level and matches |
| TreeSearch.LevelOrderShape | Trumpf.Coparoo.Desktop/Extensions/IObjectTreeNode.cs:37-72 | everything reported matches, lies no higher than the level it starts from and no deeper than a non-negative depth, in nondecreasing depth |
| TreeSearch.MatchPrunes | Trumpf.Coparoo.Desktop/Extensions/IObjectTreeNode.cs:55-58 | a reported node ends its path: its children are never visited |
| TreeSearch.StartNotReported | Trumpf.Coparoo.Desktop/Extensions/IObjectTreeNode.cs:52 | the start node is never reported, so a depth of 0 finds nothing |
| TreeSearch.EmptyPatternFindsChildren | Trumpf.Coparoo.Desktop/Extensions/IObjectTreeNode.cs:52-68 | with an empty pattern and a depth other than 0 the result is exactly the start node's children |
| TreeSearch.Nodes | Trumpf.Coparoo.Desktop/Extensions/IObjectTreeNode.cs:57 | the result list holds the node of each reported entry, in order |
| TreeSearch.VisitReported | Trumpf.Coparoo.Desktop/Extensions/IObjectTreeNode.cs:55-58 | a reported front entry moves to the result |
| TreeSearch.VisitOther | Trumpf.Coparoo.Desktop/Extensions/IObjectTreeNode.cs:62-68 | any other front entry is replaced by its children at the back, unless it is at the maximum depth |
| TreeSearch.MyFindAll | Trumpf.Coparoo.Desktop/Extensions/IObjectTreeNode.cs:37-72 | the loop returns the nodes the level-by-level search reports from the start node |
| TreeSearch.MyFindAllShape | Trumpf.Coparoo.Desktop/Extensions/IObjectTreeNode.cs:37-72 | every node found matches the pattern and lies between level 1 and the depth, in level order |
| SearchPatterns.PutAllSpec | Trumpf.Coparoo.Desktop/Core/Search/Search.cs:126-137 | after adding another pattern, its names have its values, every other name keeps its value, and names stay distinct |
| SearchPatterns.Decimal | Trumpf.Coparoo.Desktop/Core/Search/Search.cs:110 | an integer's text is never empty |
| SearchPatterns.LastSegmentSpec | Trumpf.Coparoo.Desktop/Core/Search/Search.cs:101 | `Split('.').Last()` is the dot-free suffix of the text after its last dot, or all of it |
| SearchPatterns.Fields | Trumpf.Coparoo.Desktop/Core/Search/Search.cs:93-112 | one field per constraint, in order |
| SearchPatterns.JoinedAppend | Trumpf.Coparoo.Desktop/Core/Search/Search.cs:114-115 | each round appends the next field followed by the separator left by the previous round |
| SearchPatterns.JoinedStep | Trumpf.Coparoo.Desktop/Core/Search/Search.cs:114-115 | one round of the loop extends the text by one field |
| SearchPatterns.JoinedShape | Trumpf.Coparoo.Desktop/Core/Search/Search.cs:88-119 | nothing follows the first field and `"; "` follows each later one |
| SearchPatterns.RenderedShape | Trumpf.Coparoo.Desktop/Core/Search/Search.cs:88-119 | `ToString` shows the first constraint without a separator and every later one followed by `"; "` |
| SearchPatterns.RenderedExample | Trumpf.Coparoo.Desktop/Core/Search/Search.cs:88-119 | three plain constraints render as `a=1b=2; c=3; ` |
| SearchPatterns.ReplaceAppend | Trumpf.Coparoo.Desktop/Core/Search/Search.cs:168 | replacement distributes over concatenation |
| SearchPatterns.ToRegexStringIsEscaped | Trumpf.Coparoo.Desktop/Core/Search/Search.cs:165-169 | the two chained replacements put one backslash before each `+` and `.` and keep every other character |
| SearchPatterns.UnescapeEscaped | Trumpf.Coparoo.Desktop/Core/Search/Search.cs:165-169 | escaping loses nothing: removing the inserted backslashes gives the text back |
| SearchPatterns.EscapedStart | Trumpf.Coparoo.Desktop/Core/Search/Search.cs:165-169 | an escaped text never starts with a bare `+` or `.` |
| SearchPatterns.EscapedGuardsSpecials | Trumpf.Coparoo.Desktop/Core/Search/Search.cs:165-169 | every `+` and `.` in the escaped text comes right after a backslash |
| SearchPatterns.AddOrConstraintSpec | Trumpf.Coparoo.Desktop/Core/Search/Search.cs:145-158 | a missing or empty initial throws `InvalidOperationException`; otherwise the result is a regular expression: an existing one gains exactly one escaped alternative, a plain one is escaped and wrapped first |
| SearchPatterns.AddOrConstraintChain | Trumpf.Coparoo.Desktop/Core/Search/Search.cs:145-158 | two calls on a plain initial give the wrapped initial followed by both alternatives |
| SearchPatterns.KeyValue | Trumpf.Coparoo.Desktop/Core/Search/Search.cs:97-112 | the key and value text of one constraint, which together make its field: a class name is shown as `Class` with the dot-free suffix after its last dot (or all of it when there is none), either control-name key as `ControlName` with its value, and any other key and value as they are |
| SearchPatterns.Search.constructor | Trumpf.Coparoo.Desktop/Core/Search/Search.cs:30 | a new pattern has no constraints |
| SearchPatterns.Search.And | Trumpf.Coparoo.Desktop/Core/Search/Search.cs:76-80 | the constraint is set, replacing an earlier value of the same name, and names stay distinct |
| SearchPatterns.Search.AndIsEnabled | Trumpf.Coparoo.Desktop/Core/Search/Search.cs:45-49 | `Enabled` is required to be true |
| SearchPatterns.Search.AndIsVisible | Trumpf.Coparoo.Desktop/Core/Search/Search.cs:55-59 | `Visible` is required to be true |
| SearchPatterns.Search.AndPattern | Trumpf.Coparoo.Desktop/Core/Search/Search.cs:126-137 | a missing pattern changes nothing; otherwise each of its constraints is added in turn |
| SearchPatterns.Search.ToString | Trumpf.Coparoo.Desktop/Core/Search/Search.cs:88-119 | the loop returns the rendering of the constraints |
| Seqs.DistinctBy | Trumpf.Coparoo.Desktop/PageTests/Locator.cs:49 | `Union` keeps one element per key, each an element of the input, and loses no key |
| Seqs.DistinctByFirstOccurrence | Trumpf.Coparoo.Desktop/PageTests/Locator.cs:49 | the element kept for a key is its first occurrence |
| Seqs.PutGet | Trumpf.Coparoo.Desktop/Core/Search/Search.cs:78 | after setting a name, reading it gives the new value and other names are unaffected |
| Seqs.PutKeys | Trumpf.Coparoo.Desktop/Core/Search/Search.cs:78 | setting a known name keeps the names in order; a new name goes last; names stay distinct |
| Retry.Retries | Trumpf.Coparoo.Desktop/Extensions/IProcessObject.cs:177-189 | a non-positive count allows no retry and a positive one at most that many |
| Retry.RetryAndRecover | Trumpf.Coparoo.Desktop/Extensions/IProcessObject.cs:175-201 | the loop's run: between one and `Retries + 1` calls, every call but the last caught, accepted and followed by a completed recovery, with attempts left; a recovery between two calls when there is a recovery action; and the last call deciding the result: its value, its uncaught exception, the exception the condition or the recovery throws, or an aggregate of every caught exception in call order |
| Retry.Do | Trumpf.Coparoo.Desktop/Extensions/IProcessObject.cs:107-110 | `Do` is `RetryAndRecover` on the action with its value discarded |
| Retry.TraceShape | Trumpf.Coparoo.Desktop/Extensions/IProcessObject.cs:180-199 | after the first call, recoveries and calls alternate, and a recovery never comes last |
| Retry.ExceptionsInOrder | Trumpf.Coparoo.Desktop/Extensions/IProcessObject.cs:186-188 | the aggregate keeps one exception per failed call, in call order |
| Retry.Deterministic | Trumpf.Coparoo.Desktop/Extensions/IProcessObject.cs:175-201 | the result, the number of calls and the effects are determined by the inputs |
| Retry.NotLast | Trumpf.Coparoo.Desktop/Extensions/IProcessObject.cs:189 | the run stops only at a call that is not retried with attempts left |
| Retry.FirstValueReturned | Trumpf.Coparoo.Desktop/Extensions/IProcessObject.cs:184 | the first value returned ends the run and is its result, after one recovery per failed call |
| Retry.AlwaysFailing | Trumpf.Coparoo.Desktop.Tests/PageObjects/IProcessObjectExtensions.cs:31-61 | a function that always throws an accepted exception, with recoveries that complete, is called `maxAttempts + 1` times for a positive count and once otherwise, and all its exceptions are aggregated in order |
| Retry.RejectedFirstFailure | Trumpf.Coparoo.Desktop.Tests/PageObjects/IProcessObjectExtensions.cs:67-79 | a first failure the condition rejects ends the run after one call, without recovery, with an aggregate of that exception |
| Retry.ConditionThrowsPropagates | Trumpf.Coparoo.Desktop/Extensions/IProcessObject.cs:189 | an exception the condition throws, with attempts left, ends the run at that call, before any recovery and without an aggregate |
| Retry.RecoveryThrowsPropagates | Trumpf.Coparoo.Desktop/Extensions/IProcessObject.cs:192 | an exception the recovery action throws ends the run after that recovery, before any further call |
| ConditionDialogs.Subtract | Trumpf.Coparoo.Waiting/ConditionDialog.cs:471 | `TimeSpan` subtraction gives the difference exactly when it is within range, and throws otherwise |
| ConditionDialogs.Step | Trumpf.Coparoo.Waiting/ConditionDialog.cs:295-504 | every handler keeps the configured timeouts, never returns to `init` after loading, leaves an exit state unchanged (only loading throws there), and throws only `InvalidOperationException` for the current state or `OverflowException` |
| ConditionDialogs.Finish | Trumpf.Coparoo.Waiting/ConditionDialog.cs:544-559 | an exception of the evaluator is rethrown by `po.Wait()` whatever the state; without one, a good exit completes, a bad timeout throws `WaitForTimeoutException`, a bad user exit throws `WaitForAbortedException`, and any other state throws `InvalidOperationException` |
| ConditionDialogs.LoadOnlyFromInit | Trumpf.Coparoo.Waiting/ConditionDialog.cs:295-321 | loading succeeds exactly in `init`, enters `unknown` and starts both countdowns from the configured timeouts; otherwise it throws for the state |
| ConditionDialogs.TruthSelectsState | Trumpf.Coparoo.Waiting/ConditionDialog.cs:428-458 | in an open state a truth report selects `good` or `bad` and enables the good button accordingly; only a change from `bad` to `good` restarts the good countdown |
| ConditionDialogs.TickOnBadCountdown | Trumpf.Coparoo.Waiting/ConditionDialog.cs:463-481 | a tick in `unknown` or `bad` takes one period off the bad countdown and exits timed out exactly when it is used up; `TimeSpan.MaxValue` never counts down |
| ConditionDialogs.TickOnGoodCountdown | Trumpf.Coparoo.Waiting/ConditionDialog.cs:482-492 | a tick in `good` takes one period off the good countdown and exits timed out exactly when it is used up; `TimeSpan.MaxValue` never counts down |
| ConditionDialogs.TickOverflow | Trumpf.Coparoo.Waiting/ConditionDialog.cs:471 | a bad countdown within one period of `TimeSpan.MinValue` makes the tick throw `OverflowException` |
| ConditionDialogs.BadClickExits | Trumpf.Coparoo.Waiting/ConditionDialog.cs:326-357 | a bad click in an open state exits bad: timed out if the bad countdown is used up, the user's exit otherwise |
| ConditionDialogs.GoodClickExits | Trumpf.Coparoo.Waiting/ConditionDialog.cs:362-392 | a good click exits good from `unknown` and `good` (timed out if the good countdown is used up), and throws in `bad` and `init` |
| ConditionDialogs.DoomedRun | Trumpf.Coparoo.Waiting/ConditionDialog.cs:428-504 | with the bad countdown used up, events that never speak for the condition end in `bad_timedout` at the first tick |
| ConditionDialogs.StaysTimedOut | Trumpf.Coparoo.Waiting/ConditionDialog.cs:494-499 | no event but loading leaves `bad_timedout` |
| ConditionDialogs.NonPositiveTimeoutTimesOut | Trumpf.Coparoo.Waiting.Tests/Wait/DialogWait.cs:139-148 | a dialog with a negative timeout of zero or less, for a condition that never holds and without a good click, times out at the first tick and `Forr` throws `WaitForTimeoutException` |
| ConditionDialogs.ConditionDialog.constructor | Trumpf.Coparoo.Waiting/ConditionDialog.cs:525-528 | the dialog starts in `init` with the configured timeouts |
| ConditionDialogs.ConditionDialog.OnDialogLoad | Trumpf.Coparoo.Waiting/ConditionDialog.cs:295-321 | the handler does what `Step` prescribes for loading, and changes nothing when it throws |
| ConditionDialogs.ConditionDialog.EnterExitBad | Trumpf.Coparoo.Waiting/ConditionDialog.cs:326-330 | the state becomes the bad exit that the bad countdown selects |
| ConditionDialogs.ConditionDialog.EnterExitGood | Trumpf.Coparoo.Waiting/ConditionDialog.cs:362-366 | the state becomes the good exit that the good countdown selects |
| ConditionDialogs.ConditionDialog.OnBadClick | Trumpf.Coparoo.Waiting/ConditionDialog.cs:335-357 | the handler does what `Step` prescribes for a bad click |
| ConditionDialogs.ConditionDialog.OnGoodClick | Trumpf.Coparoo.Waiting/ConditionDialog.cs:371-392 | the handler does what `Step` prescribes for a good click |
| ConditionDialogs.ConditionDialog.OnValueChanged | Trumpf.Coparoo.Waiting/ConditionDialog.cs:398-422 | the handler does what `Step` prescribes for a new value |
| ConditionDialogs.ConditionDialog.OnTruthChanged | Trumpf.Coparoo.Waiting/ConditionDialog.cs:428-458 | the handler does what `Step` prescribes for a truth report |
| ConditionDialogs.ConditionDialog.OnTimerElapsed | Trumpf.Coparoo.Waiting/ConditionDialog.cs:463-504 | the handler does what `Step` prescribes for a tick |
| ConditionDialogs.Evaluator | Trumpf.Coparoo.Waiting/ConditionDialog.cs:614-649 | no condition reports nothing and throws nothing; otherwise the reports and the exception are those of `Evaluated`: each round reports the value when it is the first or differs from the last, then the truth when it is the first or differs from the last, and the first exception of the function or the condition, or the `NullReferenceException` of a `null` value, ends the rounds |
| ConditionDialogs.FaultEndsEvaluation | Trumpf.Coparoo.Waiting/ConditionDialog.cs:621-646 | once a round has thrown, later rounds add no report and the exception stays the same |
| ConditionDialogs.CleanRunReports | Trumpf.Coparoo.Waiting/ConditionDialog.cs:627-642 | when no call throws and no value is `null`, the evaluator reports exactly `Reports` over the polled values and truths, without exception |
| ConditionDialogs.FunctionThrowsEndsReports | Trumpf.Coparoo.Waiting/ConditionDialog.cs:629 | a function that throws at poll `k`, after clean rounds, leaves the reports of the first `k` rounds and that exception, however many more rounds there were |
| ConditionDialogs.ConstantReportedOnce | Trumpf.Coparoo.Waiting/ConditionDialog.cs:627-642 | a value that never changes is reported once, in the first round, with its truth |
| DotTrees.DescriptionsDistinct | Trumpf.Coparoo.Desktop/Logging/DotTree/Node.cs:32-93 | different node types and different colours have different descriptions, in both directions |
| DotTrees.SkipNonLetters | Trumpf.Coparoo.Desktop/Logging/DotTree/Node.cs:110 | what follows a leading run of non-letters is a suffix of the text that starts with a letter, if anything |
| DotTrees.Sanitize | Trumpf.Coparoo.Desktop/Logging/DotTree/Node.cs:110 | sanitising never lengthens an id, and gives an empty id exactly for an empty one |
| DotTrees.Id | Trumpf.Coparoo.Desktop/Logging/DotTree/Node.cs:108-112 | a node's id is no longer than its raw id, and empty exactly when that is |
| DotTrees.IdClean | Trumpf.Coparoo.Desktop/Logging/DotTree/Node.cs:108-112 | a node's id is clean (only letters and `_`, no `_` twice in a row), so it holds no white space for `Trim` to remove |
| DotTrees.SanitizeClean | Trumpf.Coparoo.Desktop/Logging/DotTree/Node.cs:108-112 | a sanitised id holds only letters and `_`, never two `_` in a row, and starts with the raw id's first letter or the `_` of its first run |
| DotTrees.SanitizeKeepsClean | Trumpf.Coparoo.Desktop/Logging/DotTree/Node.cs:110 | a clean id is left as it is |
| DotTrees.SanitizeIdempotent | Trumpf.Coparoo.Desktop/Logging/DotTree/Node.cs:110 | sanitising twice changes nothing more |
| DotTrees.LettersSkip | Trumpf.Coparoo.Desktop/Logging/DotTree/Node.cs:110 | skipping non-letters keeps every letter |
| DotTrees.SanitizeKeepsLetters | Trumpf.Coparoo.Desktop/Logging/DotTree/Node.cs:110 | sanitising keeps every letter in order; only the runs of other characters change |
| DotTrees.EqualNodesHashAlike | Trumpf.Coparoo.Desktop/Logging/DotTree/Node.cs:128-148 | nodes that are equal by id have the same hash code |
| DotTrees.EscapedCaptionOneLine | Trumpf.Coparoo.Desktop/Logging/DotTree/Node.cs:161 | the escaped caption holds no line break, so a node's label stays on one line |
| DotTrees.BeforeAppend | Trumpf.Coparoo.Desktop/Logging/DotTree/Node.cs:172 | the text before a stop character is the part in front of its first occurrence |
| DotTrees.NodeText | Trumpf.Coparoo.Desktop/Logging/DotTree/Node.cs:156-173 | a node's line is its id, then its attribute list opened by `[ ` and closed by `];` |
| DotTrees.NodeTextStartsWithId | Trumpf.Coparoo.Desktop/Logging/DotTree/Node.cs:156-173 | a node's line starts with its id, which is all that comes before the first `[` |
| DotTrees.EdgeText | Trumpf.Coparoo.Desktop/Logging/DotTree/Edge.cs:43-46 | an edge's line is the parent's id (empty when `null`) followed by ` -> `, and ends by closing the quoted label with `"];` |
| DotTrees.EdgeTextStartsWithParent | Trumpf.Coparoo.Desktop/Logging/DotTree/Edge.cs:43-46 | an edge's line starts with the parent's id, and a null parent leaves the line starting with the arrow |
| DotTrees.JoinAppend | Trumpf.Coparoo.Desktop/Logging/DotTree/DotTree.cs:112-113 | one more part extends a non-empty join by the separator and the part |
| DotTrees.NodeTexts | Trumpf.Coparoo.Desktop/Logging/DotTree/DotTree.cs:112 | one line per node, in order |
| DotTrees.EdgeTexts | Trumpf.Coparoo.Desktop/Logging/DotTree/DotTree.cs:113 | one line per edge, in order |
| DotTrees.IdsOfTypeMembers | Trumpf.Coparoo.Desktop/Logging/DotTree/DotTree.cs:114-115 | a `rank=same` group lists exactly the ids of the nodes of its type, in node order |
| DotTrees.UnionKeepsLeft | Trumpf.Coparoo.Desktop/Logging/DotTree/DotTree.cs:67-72 | the union of two node lists keeps an id-distinct left list in front and never holds two nodes of one id |
| DotTrees.DistinctByKeepsDistinct | Trumpf.Coparoo.Desktop/Logging/DotTree/DotTree.cs:69 | `Union` leaves an id-distinct list as it is |
| DotTrees.DotTree.constructor | Trumpf.Coparoo.Desktop/Logging/DotTree/DotTree.cs:34-38 | a new tree holds its root alone and no edge |
| DotTrees.DotTree.ToString | Trumpf.Coparoo.Desktop/Logging/DotTree/DotTree.cs:104-117 | the text is the `digraph` header, then the node lines directly after it, and it ends with the closing `}` |
| DotTrees.DotTree.AddTree | Trumpf.Coparoo.Desktop/Logging/DotTree/DotTree.cs:67-72 | the nodes become the id-distinct union of both trees' nodes and the other tree's edges are appended, even when both operands are one tree |
| DotTrees.DotTree.AddNode | Trumpf.Coparoo.Desktop/Logging/DotTree/DotTree.cs:80-84 | the node is appended, a duplicate included, and the edges stay |
| DotTrees.DotTree.AddEdge | Trumpf.Coparoo.Desktop/Logging/DotTree/DotTree.cs:92-96 | the edge is appended and the nodes stay |
| DotTrees.AddedNodeLine | Trumpf.Coparoo.Desktop/Logging/DotTree/DotTree.cs:112 | an added node's text joins the node lines on a line of its own |
| Statistics.AssignedOnlyFalls | Trumpf.Coparoo.Desktop/PageTests/Statistics/TestMethodStatistic.cs:79-90 | an assignment always sets the value; an unset value takes the new one, and a set one becomes the conjunction of old and new, so false stays false |
| Statistics.SuccessIsConjunction | Trumpf.Coparoo.Desktop/PageTests/Statistics/TestMethodStatistic.cs:84-87 | after a series of assignments a test succeeds exactly when every one of them succeeded, and it is unset only when there was none |
| Statistics.TestMethodStatistic.constructor | Trumpf.Coparoo.Desktop/PageTests/Statistics/TestMethodStatistic.cs:26-54 | a new statistic records its method, start and info, with no success yet and `Stop` at `DateTime.MinValue` |
| Statistics.TestMethodStatistic.Success | Trumpf.Coparoo.Desktop/PageTests/Statistics/TestMethodStatistic.cs:67-77 | reading the success throws exactly when it was never set, and otherwise gives the value |
| Statistics.TestMethodStatistic.SetSuccess | Trumpf.Coparoo.Desktop/PageTests/Statistics/TestMethodStatistic.cs:79-90 | the success follows the assignment rule, false stays false, `Stop` becomes the current time, and nothing else changes |
| Statistics.TestMethodStatistic.ToStringUnset | Trumpf.Coparoo.Desktop/PageTests/Statistics/TestMethodStatistic.cs:104-109 | without a success value the text is the test name and the info, joined by a backslash and an `n` |
| Statistics.AddedSpec | Trumpf.Coparoo.Desktop/PageTests/Statistics/TestClassStatistic.cs:105-119 | `class + method` adds the statistic to its method's group, or starts one for a new method, which goes last; no other method changes and keys stay distinct |
| Statistics.MergedEntriesSpec | Trumpf.Coparoo.Desktop/PageTests/Statistics/TestClassStatistic.cs:79-97 | `class + class` keeps exactly the left class's methods in order, each merged with the right class's group of that method when it has one; a method only the right side has is dropped |
| Statistics.MethodNodeColour | Trumpf.Coparoo.Desktop/PageTests/Statistics/TestClassStatistic.cs:61-62 | an unimplemented test is an orange issue; otherwise a test is red when a run failed and green when none did |
| Statistics.MethodNodes | Trumpf.Coparoo.Desktop/PageTests/Statistics/TestClassStatistic.cs:59-65 | one method node per group, in order |
| Statistics.MethodEdges | Trumpf.Coparoo.Desktop/PageTests/Statistics/TestClassStatistic.cs:66 | one edge per group, from the class node to the method node |
| Statistics.Groups | Trumpf.Coparoo.Desktop/PageTests/Statistics/TestClassStatistic.cs:43 | the statistics of each group, in order |
| Statistics.TestClassStatistic.constructor | Trumpf.Coparoo.Desktop/PageTests/Statistics/TestClassStatistic.cs:35-38 | a new class statistic has its type and no methods |
| Statistics.TestClassStatistic.TestMethodStatisticsMember | Trumpf.Coparoo.Desktop/PageTests/Statistics/TestClassStatistic.cs:43 | a statistic is listed exactly when one of the method groups holds it |
| Statistics.TestClassStatistic.AddMethod | Trumpf.Coparoo.Desktop/PageTests/Statistics/TestClassStatistic.cs:105-119 | the statistic joins its method's group in this object, which the operator returns |
| Statistics.TestClassStatistic.Merge | Trumpf.Coparoo.Desktop/PageTests/Statistics/TestClassStatistic.cs:79-97 | a new class statistic of the left type holding the merged methods; neither operand changes |
| Statistics.TestClassStatistic.Tree | Trumpf.Coparoo.Desktop/PageTests/Statistics/TestClassStatistic.cs:53-71 | a fresh tree with the class node, then one node per method and an edge to it from the class node |
| Statistics.ClassTreeShape | Trumpf.Coparoo.Desktop/PageTests/Statistics/TestClassStatistic.cs:53-71 | a class tree has one node more than edges, and every edge leads from the class node to a method node |
| Statistics.AllMethodsMember | Trumpf.Coparoo.Desktop/PageTests/Statistics/PageObjectStatistic.cs:36 | a statistic is listed exactly when one of the classes lists it |
| Statistics.PageObjectStatistic.constructor | Trumpf.Coparoo.Desktop/PageTests/Statistics/PageObjectStatistic.cs:31 | a new page object statistic holds no test classes |
| Statistics.PageObjectStatistic.TestMethodStatisticsMember | Trumpf.Coparoo.Desktop/PageTests/Statistics/PageObjectStatistic.cs:36 | a statistic is listed exactly when one of the stored test classes lists it |
| Statistics.PageObjectStatistic.AddClass | Trumpf.Coparoo.Desktop/PageTests/Statistics/PageObjectStatistic.cs:61-75 | a new test class is stored as the very object given and goes last; a known one is replaced by a fresh merge of the old and the given one; no other class changes |
| Statistics.PageObjectStatistic.Trees | Trumpf.Coparoo.Desktop/PageTests/Statistics/PageObjectStatistic.cs:41-53 | one fresh tree per stored test class, in order, each that class's tree |
| Statistics.StoreClass | Trumpf.Coparoo.Desktop/PageTests/Statistics/PageObjectStatistic.cs:65-72 | storing a class statistic under its type keeps the keys distinct, each statistic under its own type, and other classes unchanged |
| Statistics.StoreClassTypes | Trumpf.Coparoo.Desktop/PageTests/Statistics/PageObjectStatistic.cs:65-72 | after storing, every statistic is still under its own type |
| Statistics.StoreClassValues | Trumpf.Coparoo.Desktop/PageTests/Statistics/PageObjectStatistic.cs:65-72 | after storing, the type finds the stored statistic and other types find what they found before |

## Left out

- Reflection is not modelled. For each type the model takes as data what reflection would give: its base type, its interfaces, its `IChildOf<>` arguments, its generic instantiations, its constructors and whether each constructor's `Invoke` throws.
- The UI-automation driver, the clock and user input are not modelled. Node lookups, `Exists`, `Accessible`, `VisibleOnScreen`, the current time and the dialog's events are parameters or `Probe` inputs.
- Polling and pauses are not modelled: the `Thread.Sleep(retryInterval)` in `RetryAndRecover`, the evaluator's `pollingPeriod` and stopwatch, and the timer task's sleep. Only the order of events matters to the logic.
- Retry.RetryAndRecover does not model the pauses, so it does not model the `ArgumentOutOfRangeException` that `Thread.Sleep` throws, before the recovery, when half the `retryInterval` in milliseconds is negative other than -1, nor the endless sleep at -1.
- The dialog's concurrency is not modelled: the `Task`s, the `CancellationToken`, the `SpinWait` and the interleaving of evaluator and timer. Each locked handler is a sequential event.
- The dialog's window (`DialogView`, layout, P/Invoke, `Show`/`Close`) is left out, as are `ExpectationText`, `ActionText` and the auto-action button texts. The view is reduced to the shown value and whether the good button is enabled.
- ConditionDialogs.ConditionDialog.OnValueChanged and OnTruthChanged require the state to have left `init`. The source spin-waits until it has, and that wait is outside a sequential model. `OnTimerElapsed` has no such wait: at `init` it fails with `InvalidOperation`.
- ConditionDialogs.Evaluator compares values with `==` where the source calls `Equals`, so a user type's own `Equals` is not modelled. Which values are `null` is the parameter `isNull`.
- ClassResolver.PlanAsWritten bounds its recursion with a `fuel` parameter, and `None` means the bound was hit. The source has no bound and overflows its stack; see Findings.
- ClassResolver.Container.ResolveOn, ClassResolver.Container.Resolve and ClassResolver.Plan apply the corrected circular check (see Findings). They also reject some registrations that the source resolves: `ClassScenarios.CorrectedDiffersOnReentry` gives one, where the source builds an object through a nested request for the type being resolved and the model falls back to another constructor. On such registrations the source can also remove from the resolving set a type that an outer call added, which the model does not capture.
- ClassResolver.Plan, PlanCtors, Container.ResolveOn and Container.TryConstructors report `NoConstructorSucceeded(m)` without the `lastException` the source attaches as the inner exception at line 176. The model does not say which parameter failure or `Invoke` exception came last.
- UIObjects.FindAll requires a ghost `limit` index at which no control exists. The source enumerates lazily and never stops when every index exists; that infinite case is not modelled.
- UIObjectNodes.UIObjectNode.Matches takes one answer from the driver for the whole `WaitHelper.For` poll: an empty answer is the 20-second time-out, and a nonempty one is the first nonempty poll.
- UIObjectNodes.Driver answers searches per object hash and parent node. The `SearchPattern` and search depths behind them, and the driver's own state between calls, are not modelled.
- The `ControlObjectNode` overrides of `RootUncached`, `TryRootUncached` and `Matches`, which filter with a predicate and disable caching, are not part of this model.
- TreeSearch.MyFindAll has no `current == null` skip. The queue only ever holds entries the loop created itself, so that branch of the source cannot be taken.
- `UIObjectNode.Refresh` and `CallMethod` are not modelled; they are driver calls.
- The TestLeft `ControlPattern` behind `Search` is not part of this model. It is an association list in insertion order, and adding a known key replaces its value.
- Retry.Do models the function's discarded `0` result as `unit`.
- Retry.Retries states only an upper bound in its own contract. The exact call counts are proved in `AlwaysFailing` and `FirstValueReturned`.
- The doc comment of `RetryAndRecover` says "1 = no retry", but the code makes up to `maxAttempts + 1` calls. The model follows the code, as the repository's tests do.
- SearchPatterns.AddOrConstraint takes a constraint that is not `null`. In the source a `null` constraint makes `ToRegexString` throw `NullReferenceException` at `Replace`; the model does not capture that.
- `Environment.NewLine` is taken as `"\r\n"`. A `null` string is `None`, or the empty string where C# concatenation would render it empty.
- The picture branch of `Node.ToString` saves a PNG file and is left out; every node has a caption.
- In `TestMethodStatistic.ToString`, the timing branch formats `DateTime` values and is left out. The model keeps the text for an unset result and passes the formatted times as a parameter.
- `TestMethodStatistics`, the plural group class, is not part of this model. Its `+`, `Implemented` and `Success` are passed to the statistics operators as a `MethodOps` record of functions.
- `TestClassStatistic.ToString`, `PageType` and `PageTestAttribute` are left out.
- Statistics.MethodInfo identifies a method by its declaring type and name only. `System.Reflection.MethodInfo` equality keeps overloads of one name apart, while the model merges their statistics under one key.
- UIObjectNodes.Statistics holds only the five counters that `GetRoot` increments; the rest of the source's `Statistics` class is not part of this model.
- DotTrees.DotTree.ToString states the header, the node lines and the closing brace; the edge lines and the `rank=same` groups are described only through `EdgeTexts` and `IdsOfTypeMembers`.
- DotTrees.Sanitize replaces digits too, since they are not ASCII letters. So ids such as `Test1` and `Test2` both become `Test_` and compare equal; the model keeps this behaviour.
- InterfaceResolution.LowestType requires every input to be a class. The source only calls it on control-object classes; on an interface its `BaseType` would be `null`.
- The per-root page-object locator, the technology-specific search classes, the test runner, `Loader`, `Driver`, `HardInit` and the wrappers over TestLeft are not part of this model.

## Findings

| source | as written | input that shows it | evidently intended | confidence | as-written member | corrected member |
|---|---|---|---|---|---|---|
| Trumpf.Coparoo.Desktop/CompactClassResolver/CompactClassResolverContainer.cs:101-120 | the circular check tests only the requested type, but the set records the mapped type, so a cycle through an interface mapping is never caught | `Register<IA, A>()` where A's only constructor takes an `IA`, then resolve `IA`: every nested resolution of `IA` finds only `A` in the set and recurses again | a type already being resolved fails with `ResolutionFailedException`, as the circular check promises | not executed | ClassResolver.AsWrittenNeverReturns | ClassResolver.CorrectedDetectsSelfLoop |
