/**
 * Page test statistics: one record per test method run, grouped per test
 * class and per page object, and drawn as DOT trees. A test method's
 * success can only move towards false. The per-method group
 * (`TestMethodStatistics`) is not part of this model: its operations are
 * passed in as `MethodOps`. Dictionaries are association lists in insertion
 * order.
 */
module Statistics {
  import opened Wrappers
  import opened Seqs
  import opened DotTrees

  /** A `Type`: its `Name` and `FullName`. */
  datatype ClassType = ClassType(name: string, fullName: string)

  /** A `MethodInfo`: the declaring type and the method's `Name`. */
  datatype MethodInfo = MethodInfo(declaringType: ClassType, name: string)

  /** Reading `Success` before it was assigned throws. */
  datatype SuccessError = SuccessNotSet

  /** The `Success` setter's rule: an unset value takes any value, true may become false, false stays false. */
  function Assigned(success: Option<bool>, value: bool): Option<bool>
  {
    if success.None? || (success.value && !value) then Some(value) else success
  }

  /** One assignment sets the value for good and never turns false into true. */
  lemma AssignedOnlyFalls(success: Option<bool>, value: bool)
    ensures Assigned(success, value).Some?
    ensures success.None? ==> Assigned(success, value) == Some(value)
    ensures success.Some? ==> (Assigned(success, value).value <==> success.value && value)
  {
  }

  /** The success after assigning `values` in turn to a fresh statistic. */
  function AfterAll(values: seq<bool>): Option<bool>
  {
    if values == [] then None else Assigned(AfterAll(values[..|values| - 1]), values[|values| - 1])
  }

  /** A test succeeds exactly when every report of it succeeded. */
  lemma {:induction false} SuccessIsConjunction(values: seq<bool>)
    ensures AfterAll(values) == if values == [] then None else Some(forall i :: 0 <= i < |values| ==> values[i])
  {
    if values != [] {
      var init := values[..|values| - 1];
      SuccessIsConjunction(init);
      assert forall i :: 0 <= i < |init| ==> init[i] == values[i];
    }
  }

  /** C#'s `bool.ToString()`. */
  function BoolText(b: bool): string
  {
    if b then "True" else "False"
  }

  /** The ticks of `DateTime.MinValue`, the default of a `DateTime` property. */
  const MinValueTicks: int := 0

  /** A `TestMethodStatistic`; times are ticks given by the caller. */
  class TestMethodStatistic {
    var methodInfo: MethodInfo
    var start: int
    var stop: int
    var info: string
    var success: Option<bool>

    /** `new TestMethodStatistic { MethodInfo, Start, Info }`: success not yet set, `Stop` still `DateTime.MinValue`. */
    constructor (methodInfo: MethodInfo, start: int, info: string)
      ensures this.methodInfo == methodInfo && this.start == start && this.info == info
      ensures success == None && !SuccessHasValue()
      ensures stop == MinValueTicks
    {
      this.methodInfo := methodInfo;
      this.start := start;
      this.stop := MinValueTicks;
      this.info := info;
      success := None;
    }

    /** `SuccessHasValue`. */
    predicate SuccessHasValue()
      reads this
    {
      success.Some?
    }

    /** The `Success` getter: the value once set, an error before. */
    function Success(): (r: Result<bool, SuccessError>)
      reads this
      ensures r.Err? <==> !SuccessHasValue()
      ensures r.Ok? ==> success == Some(r.value)
    {
      if success.None? then Err(SuccessNotSet) else Ok(success.value)
    }

    /** The `Success` setter at time `now`: the value follows `Assigned`, and `Stop` is always updated. */
    method SetSuccess(value: bool, now: int)
      modifies this
      ensures success == Assigned(old(success), value) && SuccessHasValue()
      ensures old(success) == Some(false) ==> success == Some(false)
      ensures stop == now
      ensures methodInfo == old(methodInfo) && start == old(start) && info == old(info)
    {
      if success.None? || (success.value && !value) {
        success := Some(value);
      }
      stop := now;
    }

    /**
     * `ToString()`, with the three formatted time lines (`Start: …`,
     * `Stop: …`, `Duration: …`) given as `times`.
     */
    function ToString(times: seq<string>): string
      reads this
    {
      Join("\\n", ["Test: " + methodInfo.name, "Info: " + info]
                    + (if success.None? then [] else ["Success: " + BoolText(success.value)] + times))
    }

    /** Without a success value the text is the name and the info, separated by a backslash and an `n`. */
    lemma ToStringUnset(times: seq<string>)
      requires !SuccessHasValue()
      ensures ToString(times) == "Test: " + methodInfo.name + "\\n" + "Info: " + info
    {
      var parts := ["Test: " + methodInfo.name, "Info: " + info];
      assert parts + [] == parts;
      assert ToString(times) == Join("\\n", parts);
      assert parts[..1] == ["Test: " + methodInfo.name];
      assert Join("\\n", parts) == Join("\\n", parts[..1]) + "\\n" + parts[1];
    }
  }

  /** What the test classes need of the per-method group `TestMethodStatistics`. */
  datatype MethodOps<!M> = MethodOps(
    /** `new TestMethodStatistics(methodInfo)` */
    create: MethodInfo -> M,
    /** group `+` statistic */
    add: (M, TestMethodStatistic) -> M,
    /** group `+` group */
    merge: (M, M) -> M,
    methodInfo: M -> MethodInfo,
    values: M -> seq<TestMethodStatistic>,
    anyUnimplemented: M -> bool,
    anyFailed: M -> bool,
    /** `ToString()` */
    text: M -> string)

  /** The entry `class + method` stores for the statistic `s` of method `k`. */
  function Added<M>(ops: MethodOps<M>, entries: seq<(MethodInfo, M)>, k: MethodInfo, s: TestMethodStatistic): seq<(MethodInfo, M)>
  {
    match Get(entries, k)
    case Some(group) => Put(entries, k, ops.add(group, s))
    case None => Put(entries, k, ops.add(ops.create(k), s))
  }

  /** Adding a statistic extends the method's group, or starts one for a new method, which goes last; no other entry changes. */
  lemma AddedSpec<M>(ops: MethodOps<M>, entries: seq<(MethodInfo, M)>, k: MethodInfo, s: TestMethodStatistic, other: MethodInfo)
    requires NoDuplicates(Keys(entries))
    ensures NoDuplicates(Keys(Added(ops, entries, k, s)))
    ensures Keys(Added(ops, entries, k, s)) == if k in Keys(entries) then Keys(entries) else Keys(entries) + [k]
    ensures Get(Added(ops, entries, k, s), k) == Some(ops.add(Get(entries, k).GetOr(ops.create(k)), s))
    ensures other != k ==> Get(Added(ops, entries, k, s), other) == Get(entries, other)
  {
    var group := Get(entries, k).GetOr(ops.create(k));
    assert Added(ops, entries, k, s) == Put(entries, k, ops.add(group, s));
    PutKeys(entries, k, ops.add(group, s));
    PutGet(entries, k, ops.add(group, s), other);
  }

  /** The value `class + class` keeps for a method: the two groups merged, or the left one alone. */
  function MergedValue<M>(merge: (M, M) -> M, left: M, right: Option<M>): M
  {
    match right
    case Some(r) => merge(left, r)
    case None => left
  }

  /** The entries of `c1 + c2`: `c1`'s methods in order, each merged with `c2`'s group of that method. */
  function MergedEntries<M>(merge: (M, M) -> M, a: seq<(MethodInfo, M)>, b: seq<(MethodInfo, M)>): seq<(MethodInfo, M)>
  {
    if a == [] then [] else [(a[0].0, MergedValue(merge, a[0].1, Get(b, a[0].0)))] + MergedEntries(merge, a[1..], b)
  }

  /** The merge has exactly the left keys; a method only the right side has is dropped. */
  lemma {:induction false} MergedEntriesSpec<M>(merge: (M, M) -> M, a: seq<(MethodInfo, M)>, b: seq<(MethodInfo, M)>, k: MethodInfo)
    ensures Keys(MergedEntries(merge, a, b)) == Keys(a)
    ensures Get(MergedEntries(merge, a, b), k) == match Get(a, k)
      case None => None
      case Some(v) => Some(MergedValue(merge, v, Get(b, k)))
  {
    if a != [] {
      MergedEntriesSpec(merge, a[1..], b, k);
      var r := MergedEntries(merge, a, b);
      assert r[1..] == MergedEntries(merge, a[1..], b);
    }
  }

  /** The node of a test class: grey, with the type's name over its full name. */
  function ClassNode(t: ClassType): Node
  {
    Node(PageTestClass, Grey, t.fullName, t.name + NewLine + t.fullName)
  }

  /** The node of a method group. */
  function MethodNode<M>(ops: MethodOps<M>, t: ClassType, group: M): Node
  {
    var unimplemented := ops.anyUnimplemented(group);
    Node(if unimplemented then PageTestIssue else PageTest,
         if unimplemented then Orange else if ops.anyFailed(group) then Red else Green,
         t.fullName + "." + ops.methodInfo(group).name,
         ops.text(group))
  }

  /** An unimplemented test is an orange issue; otherwise a test is red when one run failed and green when none did. */
  lemma MethodNodeColour<M>(ops: MethodOps<M>, t: ClassType, group: M)
    ensures var n := MethodNode(ops, t, group);
      (n.frameColor == Orange <==> n.nodeType == PageTestIssue)
      && (n.frameColor == Orange <==> ops.anyUnimplemented(group))
      && (n.frameColor == Red <==> !ops.anyUnimplemented(group) && ops.anyFailed(group))
      && (n.frameColor == Green <==> !ops.anyUnimplemented(group) && !ops.anyFailed(group))
  {
  }

  function MethodNodes<M>(ops: MethodOps<M>, t: ClassType, entries: seq<(MethodInfo, M)>): (r: seq<Node>)
    ensures |r| == |entries| && forall i :: 0 <= i < |entries| ==> r[i] == MethodNode(ops, t, entries[i].1)
  {
    if entries == [] then [] else [MethodNode(ops, t, entries[0].1)] + MethodNodes(ops, t, entries[1..])
  }

  /** The edge from the class node to a method node. */
  function MethodEdge(t: ClassType, n: Node): Edge
  {
    Edge(Some(Id(n)), None, Some(Id(ClassNode(t))))
  }

  function MethodEdges<M>(ops: MethodOps<M>, t: ClassType, entries: seq<(MethodInfo, M)>): (r: seq<Edge>)
    ensures |r| == |entries| && forall i :: 0 <= i < |entries| ==> r[i] == MethodEdge(t, MethodNode(ops, t, entries[i].1))
  {
    if entries == [] then [] else [MethodEdge(t, MethodNode(ops, t, entries[0].1))] + MethodEdges(ops, t, entries[1..])
  }

  /** The groups of the entries, in order. */
  function Groups<M>(ops: MethodOps<M>, entries: seq<(MethodInfo, M)>): (r: seq<seq<TestMethodStatistic>>)
    ensures |r| == |entries| && forall i :: 0 <= i < |entries| ==> r[i] == ops.values(entries[i].1)
  {
    if entries == [] then [] else [ops.values(entries[0].1)] + Groups(ops, entries[1..])
  }

  /** `t` is the tree of `c`: the class node, then one node per method with an edge to it from the class node. */
  ghost predicate IsTreeOf<M>(ops: MethodOps<M>, t: DotTree, c: TestClassStatistic<M>)
    reads t, c
  {
    t.root == ClassNode(c.classType)
    && t.nodes == [ClassNode(c.classType)] + MethodNodes(ops, c.classType, c.entries)
    && t.edges == MethodEdges(ops, c.classType, c.entries)
  }

  /** A `TestClassStatistic`: the method groups of one test class. */
  class TestClassStatistic<M> {
    var entries: seq<(MethodInfo, M)>
    /** `Type`, set once by the constructor. */
    const classType: ClassType

    /** The dictionary's keys are distinct. */
    ghost predicate Valid()
      reads this
    {
      NoDuplicates(Keys(entries))
    }

    /** `new TestClassStatistic(type)`: no methods yet. */
    constructor (classType: ClassType)
      ensures Valid() && entries == [] && this.classType == classType
    {
      entries := [];
      this.classType := classType;
    }

    /** `TestMethodStatistics`: every group's statistics, group after group. */
    function TestMethodStatistics(ops: MethodOps<M>): seq<TestMethodStatistic>
      reads this
    {
      Flatten(Groups(ops, entries))
    }

    /** A statistic is listed exactly when one of the groups holds it. */
    lemma TestMethodStatisticsMember(ops: MethodOps<M>, s: TestMethodStatistic)
      ensures s in TestMethodStatistics(ops) <==> exists i :: 0 <= i < |entries| && s in ops.values(entries[i].1)
    {
      FlattenMember(Groups(ops, entries), s);
    }

    /** `c1 + method`: the statistic joins its method's group in this object, which the operator returns. */
    method AddMethod(ops: MethodOps<M>, s: TestMethodStatistic)
      requires Valid()
      modifies this
      ensures Valid() && entries == Added(ops, old(entries), s.methodInfo, s)
    {
      AddedSpec(ops, entries, s.methodInfo, s, s.methodInfo);
      var group := Get(entries, s.methodInfo);
      if group.Some? {
        entries := Put(entries, s.methodInfo, ops.add(group.value, s));
      } else {
        entries := Put(entries, s.methodInfo, ops.add(ops.create(s.methodInfo), s));
      }
    }

    /** `c1 + c2`: a new statistic of `c1`'s type and `c1`'s methods, each merged with `c2`'s group; neither operand changes. */
    method Merge(ops: MethodOps<M>, c2: TestClassStatistic<M>) returns (r: TestClassStatistic<M>)
      requires Valid()
      ensures fresh(r) && r.Valid() && r.classType == classType
      ensures r.entries == MergedEntries(ops.merge, entries, c2.entries)
    {
      var acc: seq<(MethodInfo, M)> := [];
      var i := 0;
      while i < |entries|
        invariant 0 <= i <= |entries|
        invariant acc + MergedEntries(ops.merge, entries[i..], c2.entries) == MergedEntries(ops.merge, entries, c2.entries)
      {
        var x := entries[i];
        var matches := Get(c2.entries, x.0);
        assert entries[i..][1..] == entries[i + 1..];
        if matches.Some? {
          acc := acc + [(x.0, ops.merge(x.1, matches.value))];
        } else {
          acc := acc + [x];
        }
        i := i + 1;
      }
      assert entries[i..] == [];
      assert acc == MergedEntries(ops.merge, entries, c2.entries) by {
        assert acc + [] == acc;
      }
      MergedEntriesSpec(ops.merge, entries, c2.entries, MethodInfo(classType, ""));
      assert NoDuplicates(Keys(acc));
      r := new TestClassStatistic(classType);
      r.entries := acc;
    }

    /** `DotTree`: the class node, then one node per method with an edge to it from the class node. */
    method Tree(ops: MethodOps<M>) returns (t: DotTree)
      ensures fresh(t) && IsTreeOf(ops, t, this)
    {
      t := new DotTree(ClassNode(classType));
      var es := entries;
      var i := 0;
      while i < |es|
        invariant 0 <= i <= |es| && t.root == ClassNode(classType)
        invariant t.nodes == [ClassNode(classType)] + MethodNodes(ops, classType, es[..i])
        invariant t.edges == MethodEdges(ops, classType, es[..i])
      {
        var n := MethodNode(ops, classType, es[i].1);
        t.AddNode(n);
        t.AddEdge(Edge(Some(Id(n)), None, Some(Id(t.root))));
        MethodsAppend(ops, classType, es, i);
        i := i + 1;
      }
      assert es[..i] == es;
    }
  }

  lemma {:induction false} MethodsAppend<M>(ops: MethodOps<M>, t: ClassType, es: seq<(MethodInfo, M)>, i: nat)
    requires i < |es|
    ensures MethodNodes(ops, t, es[..i + 1]) == MethodNodes(ops, t, es[..i]) + [MethodNode(ops, t, es[i].1)]
    ensures MethodEdges(ops, t, es[..i + 1]) == MethodEdges(ops, t, es[..i]) + [MethodEdge(t, MethodNode(ops, t, es[i].1))]
  {
    var longer, shorter := es[..i + 1], es[..i];
    assert forall j :: 0 <= j < i ==> longer[j] == shorter[j];
    var ns, ns' := MethodNodes(ops, t, longer), MethodNodes(ops, t, shorter) + [MethodNode(ops, t, es[i].1)];
    assert forall j :: 0 <= j < |ns| ==> ns[j] == ns'[j];
    var ed, ed' := MethodEdges(ops, t, longer), MethodEdges(ops, t, shorter) + [MethodEdge(t, MethodNode(ops, t, es[i].1))];
    assert forall j :: 0 <= j < |ed| ==> ed[j] == ed'[j];
  }

  /** A class tree has one node more than the class has methods, and every edge leaves the class node towards a method node. */
  lemma ClassTreeShape<M>(ops: MethodOps<M>, t: ClassType, entries: seq<(MethodInfo, M)>)
    ensures |[ClassNode(t)] + MethodNodes(ops, t, entries)| == |MethodEdges(ops, t, entries)| + 1
    ensures forall e :: e in MethodEdges(ops, t, entries) ==>
      e.parent == Some(Id(ClassNode(t))) && exists n :: n in MethodNodes(ops, t, entries) && e.child == Some(Id(n))
  {
    var es := MethodEdges(ops, t, entries);
    var ns := MethodNodes(ops, t, entries);
    forall e | e in es
      ensures e.parent == Some(Id(ClassNode(t))) && exists n :: n in ns && e.child == Some(Id(n))
    {
      var i :| 0 <= i < |es| && es[i] == e;
      assert ns[i] in ns && e.child == Some(Id(ns[i]));
    }
  }

  /** The statistics of the classes, class after class. */
  function AllMethods<M>(ops: MethodOps<M>, cs: seq<(ClassType, TestClassStatistic<M>)>): seq<TestMethodStatistic>
    reads set i | 0 <= i < |cs| :: cs[i].1
  {
    if cs == [] then []
    else
      assert forall i :: 1 <= i < |cs| ==> cs[1..][i - 1] == cs[i];
      cs[0].1.TestMethodStatistics(ops) + AllMethods(ops, cs[1..])
  }

  /** A statistic is listed exactly when one of the classes lists it. */
  lemma {:induction false} AllMethodsMember<M>(ops: MethodOps<M>, cs: seq<(ClassType, TestClassStatistic<M>)>, s: TestMethodStatistic)
    ensures s in AllMethods(ops, cs) <==> exists i :: 0 <= i < |cs| && s in cs[i].1.TestMethodStatistics(ops)
  {
    if cs != [] {
      AllMethodsMember(ops, cs[1..], s);
      assert forall i :: 1 <= i < |cs| ==> cs[1..][i - 1] == cs[i];
    }
  }

  /** A `PageObjectStatistic`: the test-class statistics of one page object, by test class. */
  class PageObjectStatistic<M> {
    var entries: seq<(ClassType, TestClassStatistic<M>)>

    /** Distinct keys, each the type of the statistic stored under it. */
    ghost predicate Valid()
      reads this
    {
      NoDuplicates(Keys(entries)) && forall i :: 0 <= i < |entries| ==> entries[i].1.classType == entries[i].0
    }

    /** A new page object statistic holds no test classes. */
    constructor ()
      ensures Valid() && entries == []
    {
      entries := [];
    }

    /** The stored test-class statistics. */
    ghost function Classes(): set<TestClassStatistic<M>>
      reads this
    {
      set i | 0 <= i < |entries| :: entries[i].1
    }

    /** `TestMethodStatistics`: the statistics of every stored test class. */
    function TestMethodStatistics(ops: MethodOps<M>): seq<TestMethodStatistic>
      reads this, Classes()
    {
      AllMethods(ops, entries)
    }

    /** A statistic is listed exactly when one of the stored test classes lists it. */
    lemma TestMethodStatisticsMember(ops: MethodOps<M>, s: TestMethodStatistic)
      ensures s in TestMethodStatistics(ops) <==> exists i :: 0 <= i < |entries| && s in entries[i].1.TestMethodStatistics(ops)
    {
      AllMethodsMember(ops, entries, s);
    }

    /**
     * `c1 + c2`: a new test class is stored as the very object given; a known
     * one is replaced by `old + c2`, which keeps only the old methods. No
     * other entry changes, and this object is the operator's result.
     */
    method AddClass(ops: MethodOps<M>, c2: TestClassStatistic<M>)
      requires Valid() && forall i :: 0 <= i < |entries| ==> entries[i].1.Valid()
      modifies this
      ensures Valid()
      ensures Keys(entries) == if c2.classType in Keys(old(entries)) then Keys(old(entries)) else Keys(old(entries)) + [c2.classType]
      ensures forall k :: k != c2.classType ==> Get(entries, k) == Get(old(entries), k)
      ensures Get(entries, c2.classType).Some?
      ensures var stored := Get(entries, c2.classType).value;
        match Get(old(entries), c2.classType)
        case None => stored == c2
        case Some(v) => (fresh(stored) && stored.classType == c2.classType
                         && stored.entries == MergedEntries(ops.merge, v.entries, c2.entries))
    {
      var value := Get(entries, c2.classType);
      var stored := c2;
      if value.Some? {
        GetIn(entries, c2.classType);
        stored := value.value.Merge(ops, c2);
      }
      StoreClass(entries, c2.classType, stored);
      entries := Put(entries, c2.classType, stored);
    }

    /** `DotTrees`: the tree of every stored test class, in order. */
    method Trees(ops: MethodOps<M>) returns (r: seq<DotTree>)
      ensures |r| == |entries|
      ensures forall i :: 0 <= i < |entries| ==> fresh(r[i]) && IsTreeOf(ops, r[i], entries[i].1)
    {
      r := [];
      var i := 0;
      while i < |entries|
        invariant 0 <= i <= |entries| && |r| == i
        invariant forall j :: 0 <= j < i ==> fresh(r[j]) && IsTreeOf(ops, r[j], entries[j].1)
      {
        var t := entries[i].1.Tree(ops);
        assert forall j :: 0 <= j < i ==> IsTreeOf(ops, r[j], entries[j].1);
        r := r + [t];
        i := i + 1;
      }
    }
  }

  /** Storing a statistic under its own type keeps the page object's keys distinct and each under its type. */
  lemma StoreClass<M>(entries: seq<(ClassType, TestClassStatistic<M>)>, k: ClassType, c: TestClassStatistic<M>)
    requires NoDuplicates(Keys(entries)) && forall i :: 0 <= i < |entries| ==> entries[i].1.classType == entries[i].0
    requires c.classType == k
    ensures NoDuplicates(Keys(Put(entries, k, c)))
    ensures Keys(Put(entries, k, c)) == if k in Keys(entries) then Keys(entries) else Keys(entries) + [k]
    ensures var r := Put(entries, k, c); forall i :: 0 <= i < |r| ==> r[i].1.classType == r[i].0
    ensures forall other :: other != k ==> Get(Put(entries, k, c), other) == Get(entries, other)
    ensures Get(Put(entries, k, c), k) == Some(c)
  {
    PutKeys(entries, k, c);
    StoreClassTypes(entries, k, c);
    StoreClassValues(entries, k, c);
  }

  lemma StoreClassTypes<M>(entries: seq<(ClassType, TestClassStatistic<M>)>, k: ClassType, c: TestClassStatistic<M>)
    requires forall i :: 0 <= i < |entries| ==> entries[i].1.classType == entries[i].0
    requires c.classType == k
    ensures var r := Put(entries, k, c); forall i :: 0 <= i < |r| ==> r[i].1.classType == r[i].0
  {
    PutValues(entries, k, c);
    var r := Put(entries, k, c);
    forall i | 0 <= i < |r| ensures r[i].1.classType == r[i].0 {
      assert r[i] in r;
    }
  }

  lemma StoreClassValues<M>(entries: seq<(ClassType, TestClassStatistic<M>)>, k: ClassType, c: TestClassStatistic<M>)
    ensures forall other :: other != k ==> Get(Put(entries, k, c), other) == Get(entries, other)
    ensures Get(Put(entries, k, c), k) == Some(c)
  {
    PutGet(entries, k, c, k);
    forall other {
      PutGet(entries, k, c, other);
    }
  }

  /** A stored value sits at some index with its key. */
  lemma {:induction false} GetIn<K, V>(items: seq<(K, V)>, k: K)
    requires Get(items, k).Some?
    ensures exists i :: 0 <= i < |items| && items[i] == (k, Get(items, k).value)
  {
    if items[0].0 != k {
      GetIn(items[1..], k);
      var i :| 0 <= i < |items[1..]| && items[1..][i] == (k, Get(items, k).value);
      assert items[i + 1] == items[1..][i];
    }
  }

  /** Storing a value keeps every pair other than the key's, and adds the stored one. */
  lemma {:induction false} PutValues<K, V>(items: seq<(K, V)>, k: K, v: V)
    ensures forall p :: p in Put(items, k, v) ==> p == (k, v) || p in items
    ensures (k, v) in Put(items, k, v)
  {
    if items != [] && items[0].0 != k {
      PutValues(items[1..], k, v);
      assert forall p :: p in items[1..] ==> p in items;
    }
  }
}
