/**
 * `MyFindAll`: a breadth-first search of a UI tree from a start node that
 * collects the nodes matching a property pattern, does not descend below a
 * match and stops at a maximum depth. The UI tree is an explicit value: each
 * node has the properties that can be read from it and its children.
 */
module TreeSearch {
  import opened Wrappers

  /** A UI node: its readable properties and its children in order. */
  datatype Tree<V> = Tree(properties: map<string, V>, children: seq<Tree<V>>)

  /** `ISearchPattern.GetPatternItems()`: property names with their expected values. */
  type Pattern<V> = seq<(string, V)>

  /** A queue entry: a node and its distance from the start node. */
  type Entry<V> = (Tree<V>, int)

  /** `TryGetProperty`: the property's value, or nothing when reading it throws. */
  function TryGetProperty<V>(t: Tree<V>, name: string): (r: Option<V>)
    ensures r.Some? <==> name in t.properties
    ensures r.Some? ==> r.value == t.properties[name]
  {
    if name in t.properties then Some(t.properties[name]) else None
  }

  /** Every item's property can be read and equals the item's value. */
  predicate Matches<V(==)>(t: Tree<V>, pattern: Pattern<V>)
  {
    forall i :: 0 <= i < |pattern| ==> TryGetProperty(t, pattern[i].0) == Some(pattern[i].1)
  }

  /** An entry is reported when it is not the start node and matches. */
  predicate Reported<V(==)>(e: Entry<V>, pattern: Pattern<V>)
  {
    e.1 != 0 && Matches(e.0, pattern)
  }

  /** The trees `ts`, in order, each at distance `k`. */
  function Tagged<V>(ts: seq<Tree<V>>, k: int): (r: seq<Entry<V>>)
    ensures |r| == |ts|
  {
    if ts == [] then [] else [(ts[0], k)] + Tagged(ts[1..], k)
  }

  /** The children of `t` one level below `k`. */
  function ChildEntries<V>(t: Tree<V>, k: int): seq<Entry<V>>
  {
    Tagged(t.children, k + 1)
  }

  /** What an entry adds to the queue: its children unless it is reported or at the maximum depth. */
  function Successors<V(==)>(e: Entry<V>, pattern: Pattern<V>, depth: int): seq<Entry<V>>
  {
    if Reported(e, pattern) || e.1 == depth then [] else ChildEntries(e.0, e.1)
  }

  function Size<V>(t: Tree<V>): nat
    decreases t
  {
    1 + SizeAll(t.children)
  }

  function SizeAll<V>(ts: seq<Tree<V>>): nat
    decreases ts
  {
    if ts == [] then 0 else Size(ts[0]) + SizeAll(ts[1..])
  }

  /** The number of nodes in the queue's subtrees: what is left to visit. */
  function QueueSize<V>(q: seq<Entry<V>>): nat
  {
    if q == [] then 0 else Size(q[0].0) + QueueSize(q[1..])
  }

  lemma {:induction false} QueueSizeAppend<V>(a: seq<Entry<V>>, b: seq<Entry<V>>)
    ensures QueueSize(a + b) == QueueSize(a) + QueueSize(b)
    decreases |a|
  {
    if a == [] {
      assert a + b == b;
    } else {
      assert (a + b)[0] == a[0] && (a + b)[1..] == a[1..] + b;
      QueueSizeAppend(a[1..], b);
    }
  }

  lemma {:induction false} TaggedSize<V>(ts: seq<Tree<V>>, k: int)
    ensures QueueSize(Tagged(ts, k)) == SizeAll(ts)
    decreases |ts|
  {
    if ts != [] {
      var q := Tagged(ts, k);
      assert q[0] == (ts[0], k) && q[1..] == Tagged(ts[1..], k);
      TaggedSize(ts[1..], k);
    }
  }

  lemma {:induction false} TaggedAt<V>(ts: seq<Tree<V>>, k: int)
    ensures AtLevel(Tagged(ts, k), k)
    decreases |ts|
  {
    if ts != [] {
      TaggedAt(ts[1..], k);
    }
  }

  /** Visiting an entry replaces it by strictly fewer nodes. */
  lemma SuccessorsSmaller<V>(e: Entry<V>, pattern: Pattern<V>, depth: int)
    ensures QueueSize(Successors(e, pattern, depth)) < Size(e.0)
  {
    TaggedSize(e.0.children, e.1 + 1);
  }

  /** Visiting the front entry of a queue leaves fewer nodes to visit. */
  lemma VisitSmaller<V>(q: seq<Entry<V>>, pattern: Pattern<V>, depth: int)
    requires q != []
    ensures QueueSize(q[1..] + Successors(q[0], pattern, depth)) < QueueSize(q)
  {
    SuccessorsSmaller(q[0], pattern, depth);
    QueueSizeAppend(q[1..], Successors(q[0], pattern, depth));
  }

  /**
   * The entries reported by the search loop when it starts from queue `q`:
   * the front entry is reported or replaced by its successors at the back.
   */
  function Search<V(==)>(q: seq<Entry<V>>, pattern: Pattern<V>, depth: int): seq<Entry<V>>
    decreases QueueSize(q)
  {
    if q == [] then []
    else
      VisitSmaller(q, pattern, depth);
      (if Reported(q[0], pattern) then [q[0]] else [])
      + Search(q[1..] + Successors(q[0], pattern, depth), pattern, depth)
  }

  /** The entries of one level that are reported, in order. */
  function ReportedOf<V(==)>(level: seq<Entry<V>>, pattern: Pattern<V>): seq<Entry<V>>
  {
    if level == [] then []
    else (if Reported(level[0], pattern) then [level[0]] else []) + ReportedOf(level[1..], pattern)
  }

  /** The next level: the successors of every entry of this one, in order. */
  function NextLevel<V(==)>(level: seq<Entry<V>>, pattern: Pattern<V>, depth: int): seq<Entry<V>>
  {
    if level == [] then []
    else Successors(level[0], pattern, depth) + NextLevel(level[1..], pattern, depth)
  }

  lemma {:induction false} NextLevelSmaller<V>(level: seq<Entry<V>>, pattern: Pattern<V>, depth: int)
    ensures QueueSize(NextLevel(level, pattern, depth)) + |level| <= QueueSize(level)
    decreases |level|
  {
    if level != [] {
      NextLevelSmaller(level[1..], pattern, depth);
      SuccessorsSmaller(level[0], pattern, depth);
      QueueSizeAppend(Successors(level[0], pattern, depth), NextLevel(level[1..], pattern, depth));
    }
  }

  /**
   * The reference definition of the search: the reported entries of the
   * first level, then those of the levels below it, level by level.
   */
  function LevelOrder<V(==)>(level: seq<Entry<V>>, pattern: Pattern<V>, depth: int): seq<Entry<V>>
    decreases QueueSize(level)
  {
    if level == [] then []
    else
      NextLevelSmaller(level, pattern, depth);
      ReportedOf(level, pattern) + LevelOrder(NextLevel(level, pattern, depth), pattern, depth)
  }

  /** One step of the search: the front entry is visited. */
  lemma SearchStep<V>(q: seq<Entry<V>>, pattern: Pattern<V>, depth: int)
    requires q != []
    ensures Search(q, pattern, depth)
            == (if Reported(q[0], pattern) then [q[0]] else [])
               + Search(q[1..] + Successors(q[0], pattern, depth), pattern, depth)
  {
  }

  /** One step of the search on `a + b`, for a nonempty `a`. */
  lemma SearchAppendStep<V>(a: seq<Entry<V>>, b: seq<Entry<V>>, pattern: Pattern<V>, depth: int)
    requires a != []
    ensures Search(a + b, pattern, depth)
            == (if Reported(a[0], pattern) then [a[0]] else [])
               + Search(a[1..] + (b + Successors(a[0], pattern, depth)), pattern, depth)
  {
    var q := a + b;
    assert q[0] == a[0];
    assert q[1..] == a[1..] + b;
    SearchStep(q, pattern, depth);
    Associative(a[1..], b, Successors(a[0], pattern, depth));
  }

  lemma Associative<T>(x: seq<T>, y: seq<T>, z: seq<T>)
    ensures x + y + z == x + (y + z)
  {
  }

  /** Running the queue `a + b` reports `a`'s entries first and then runs `b` followed by their successors. */
  lemma {:induction false} SearchAppend<V>(a: seq<Entry<V>>, b: seq<Entry<V>>, pattern: Pattern<V>, depth: int)
    ensures Search(a + b, pattern, depth)
            == ReportedOf(a, pattern) + Search(b + NextLevel(a, pattern, depth), pattern, depth)
    decreases |a|
  {
    if a == [] {
      assert a + b == b && b + NextLevel(a, pattern, depth) == b;
    } else {
      var s := Successors(a[0], pattern, depth);
      var rest := a[1..];
      var head := if Reported(a[0], pattern) then [a[0]] else [];
      var n := NextLevel(rest, pattern, depth);
      SearchAppendStep(a, b, pattern, depth);
      SearchAppend(rest, b + s, pattern, depth);
      Associative(b, s, n);
      assert NextLevel(a, pattern, depth) == s + n;
      assert ReportedOf(a, pattern) == head + ReportedOf(rest, pattern);
      Associative(head, ReportedOf(rest, pattern), Search(b + (s + n), pattern, depth));
    }
  }

  /** The queue-driven search and the level-by-level reference agree. */
  lemma {:induction false} SearchIsLevelOrder<V>(level: seq<Entry<V>>, pattern: Pattern<V>, depth: int)
    ensures Search(level, pattern, depth) == LevelOrder(level, pattern, depth)
    decreases QueueSize(level)
  {
    if level != [] {
      SearchAppend(level, [], pattern, depth);
      assert level + [] == level;
      assert [] + NextLevel(level, pattern, depth) == NextLevel(level, pattern, depth);
      NextLevelSmaller(level, pattern, depth);
      SearchIsLevelOrder(NextLevel(level, pattern, depth), pattern, depth);
    }
  }

  /** Every entry of a level is at distance `k`. */
  ghost predicate AtLevel<V>(level: seq<Entry<V>>, k: int)
  {
    forall i :: 0 <= i < |level| ==> level[i].1 == k
  }

  lemma {:induction false} NextLevelAt<V>(level: seq<Entry<V>>, pattern: Pattern<V>, depth: int, k: int)
    requires AtLevel(level, k)
    ensures AtLevel(NextLevel(level, pattern, depth), k + 1)
    ensures k == depth ==> NextLevel(level, pattern, depth) == []
    decreases |level|
  {
    if level != [] {
      NextLevelAt(level[1..], pattern, depth, k);
      TaggedAt(level[0].0.children, k + 1);
    }
  }

  /** What a level reports is at that level and matches. */
  lemma {:induction false} ReportedOfAt<V>(level: seq<Entry<V>>, pattern: Pattern<V>, k: int)
    requires AtLevel(level, k)
    ensures var r := ReportedOf(level, pattern);
      AtLevel(r, k) && forall i :: 0 <= i < |r| ==> Reported(r[i], pattern)
    decreases |level|
  {
    if level != [] {
      ReportedOfAt(level[1..], pattern, k);
    }
  }

  /** Where the reported entries lie: at distance `lo` or more, and no deeper than the depth if it is not negative. */
  ghost predicate Placed<V>(r: seq<Entry<V>>, pattern: Pattern<V>, depth: int, lo: int)
  {
    forall i :: 0 <= i < |r| ==> Reported(r[i], pattern) && lo <= r[i].1 && (0 <= depth ==> r[i].1 <= depth)
  }

  /** Distances never decrease along `r`. */
  ghost predicate LevelSorted<V>(r: seq<Entry<V>>)
  {
    forall i, j :: 0 <= i < j < |r| ==> r[i].1 <= r[j].1
  }

  lemma ConcatShape<V>(h: seq<Entry<V>>, t: seq<Entry<V>>, pattern: Pattern<V>, depth: int, k: int)
    requires AtLevel(h, k) && (forall i :: 0 <= i < |h| ==> Reported(h[i], pattern))
    requires 0 <= depth ==> k <= depth
    requires Placed(t, pattern, depth, k + 1) && LevelSorted(t)
    ensures Placed(h + t, pattern, depth, k) && LevelSorted(h + t)
  {
  }

  /**
   * Starting from one level at distance `k`, everything reported matches,
   * is at distance `k` or more, comes in nondecreasing distance, and when
   * the depth is not negative is no deeper than the depth.
   */
  lemma {:induction false} LevelOrderShape<V>(level: seq<Entry<V>>, pattern: Pattern<V>, depth: int, k: int)
    requires AtLevel(level, k) && (0 <= depth ==> k <= depth)
    ensures Placed(LevelOrder(level, pattern, depth), pattern, depth, k)
    ensures LevelSorted(LevelOrder(level, pattern, depth))
    decreases QueueSize(level)
  {
    if level != [] {
      var next := NextLevel(level, pattern, depth);
      NextLevelSmaller(level, pattern, depth);
      NextLevelAt(level, pattern, depth, k);
      ReportedOfAt(level, pattern, k);
      if next != [] {
        LevelOrderShape(next, pattern, depth, k + 1);
      }
      ConcatShape(ReportedOf(level, pattern), LevelOrder(next, pattern, depth), pattern, depth, k);
    }
  }

  /** A reported entry ends its path: the search goes on with the rest of the queue only. */
  lemma MatchPrunes<V>(e: Entry<V>, rest: seq<Entry<V>>, pattern: Pattern<V>, depth: int)
    requires Reported(e, pattern)
    ensures Search([e] + rest, pattern, depth) == [e] + Search(rest, pattern, depth)
  {
    assert ([e] + rest)[0] == e && ([e] + rest)[1..] == rest;
    assert rest + [] == rest;
  }

  /** The start node is never reported, so with a depth of 0 nothing is. */
  lemma StartNotReported<V>(source: Tree<V>, pattern: Pattern<V>)
    ensures Search([(source, 0)], pattern, 0) == []
  {
    assert [(source, 0)][1..] == [];
  }

  lemma {:induction false} AllReported<V>(kids: seq<Entry<V>>, depth: int)
    requires AtLevel(kids, 1)
    ensures ReportedOf(kids, []) == kids && NextLevel(kids, [], depth) == []
    decreases |kids|
  {
    if kids != [] {
      AllReported(kids[1..], depth);
      assert [kids[0]] + kids[1..] == kids;
    }
  }

  /** With an empty pattern and a depth other than 0 the result is the start node's children. */
  lemma EmptyPatternFindsChildren<V>(source: Tree<V>, depth: int)
    requires depth != 0
    ensures Nodes(Search([(source, 0)], [], depth)) == source.children
  {
    var start := [(source, 0)];
    var kids := ChildEntries(source, 0);
    TaggedAt(source.children, 1);
    assert start[1..] + Successors(start[0], [], depth) == kids;
    AllReported(kids, depth);
    SearchAppend(kids, [], [], depth);
    assert kids + [] == kids;
    assert [] + NextLevel(kids, [], depth) == [];
    assert Search(start, [], depth) == kids;
    NodesOfTagged(source.children, 1);
  }

  lemma {:induction false} NodesOfTagged<V>(ts: seq<Tree<V>>, k: int)
    ensures Nodes(Tagged(ts, k)) == ts
    decreases |ts|
  {
    if ts != [] {
      NodesOfTagged(ts[1..], k);
      assert Nodes(Tagged(ts, k))[1..] == Nodes(Tagged(ts[1..], k));
    }
  }

  /** The nodes of a list of entries. */
  function Nodes<V>(es: seq<Entry<V>>): (r: seq<Tree<V>>)
    ensures |r| == |es| && forall i :: 0 <= i < |es| ==> r[i] == es[i].0
  {
    seq(|es|, i requires 0 <= i < |es| => es[i].0)
  }

  /** A reported front entry moves to what the loop has found. */
  lemma VisitReported<V>(found: seq<Entry<V>>, q: seq<Entry<V>>, pattern: Pattern<V>, depth: int)
    requires q != [] && Reported(q[0], pattern)
    ensures found + Search(q, pattern, depth) == (found + [q[0]]) + Search(q[1..], pattern, depth)
  {
    SearchStep(q, pattern, depth);
    assert q[1..] + Successors(q[0], pattern, depth) == q[1..];
  }

  /** Any other front entry is replaced by its children, unless it is at the maximum depth. */
  lemma VisitOther<V>(found: seq<Entry<V>>, q: seq<Entry<V>>, pattern: Pattern<V>, depth: int)
    requires q != [] && !Reported(q[0], pattern)
    ensures found + Search(q, pattern, depth)
            == found + Search(if q[0].1 == depth then q[1..] else q[1..] + ChildEntries(q[0].0, q[0].1),
                              pattern, depth)
  {
    SearchStep(q, pattern, depth);
    assert q[1..] + [] == q[1..];
  }

  /**
   * `MyFindAll(source, pattern, depth)`: the loop over the queue, proved to
   * report what the level-by-level search reports from the start node.
   */
  method MyFindAll<V(==)>(source: Tree<V>, pattern: Pattern<V>, depth: int) returns (result: seq<Tree<V>>)
    ensures result == Nodes(LevelOrder([(source, 0)], pattern, depth))
  {
    ghost var found: seq<Entry<V>> := [];
    var q: seq<Entry<V>> := [(source, 0)];
    result := [];
    while |q| > 0
      invariant result == Nodes(found)
      invariant found + Search(q, pattern, depth) == Search([(source, 0)], pattern, depth)
      decreases QueueSize(q)
    {
      VisitSmaller(q, pattern, depth);
      var current := q[0];
      if current.1 != 0 && Matches(current.0, pattern) {
        VisitReported(found, q, pattern, depth);
        q := q[1..];
        result := result + [current.0];
        found := found + [current];
        continue;
      }
      VisitOther(found, q, pattern, depth);
      q := q[1..];
      if current.1 != depth {
        q := q + ChildEntries(current.0, current.1);
      }
    }
    SearchIsLevelOrder([(source, 0)], pattern, depth);
  }

  /** Everything `MyFindAll` finds matches, lies between level 1 and the depth, in level order. */
  lemma MyFindAllShape<V>(source: Tree<V>, pattern: Pattern<V>, depth: int)
    ensures var r := LevelOrder([(source, 0)], pattern, depth);
      (forall i :: 0 <= i < |r| ==> Matches(r[i].0, pattern) && 1 <= r[i].1 && (0 <= depth ==> r[i].1 <= depth))
      && LevelSorted(r)
  {
    LevelOrderShape([(source, 0)], pattern, depth, 0);
  }
}
