/**
 * `UIObjectNode`: the part of a page or control object that finds its driver
 * node. `GetRoot` consults the root's node cache, counts what it saw in the
 * root's statistics, and otherwise looks the node up again from the parent's
 * node, which is itself found by the parent's `Root` or `TryRoot` against the
 * same cache and statistics; the result may be snapped. `RootNode` and
 * `Matches` are memoised. The root object is a process node, whose own node
 * is found by the driver. What the driver answers is an input of the
 * operations.
 */
module UIObjectNodes {
  import opened Wrappers
  import opened NodeCache

  /** What the driver answers about a cached node: reading `Enabled` works, and `VisibleOnScreen()`. */
  datatype Probe = Probe(accessible: bool, visibleOnScreen: bool)

  /** What `GetRoot` found out about the cache entry of the node. */
  datatype Observation = Observation(cached: bool, accessible: bool, visibleOnScreen: bool)

  /** The three checks of `GetRoot`, each only made when the previous one succeeded. */
  function Observe<N>(entry: Option<N>, probe: N -> Probe): (o: Observation)
    ensures o.cached <==> entry.Some?
    ensures o.accessible <==> entry.Some? && probe(entry.value).accessible
    ensures o.visibleOnScreen <==> o.accessible && probe(entry.value).visibleOnScreen
  {
    var cached := entry.Some?;
    var accessible := cached && probe(entry.value).accessible;
    Observation(cached, accessible, accessible && probe(entry.value).visibleOnScreen)
  }

  /** The counters of the root's `Statistics`. */
  datatype Counters = Counters(
    accessCounter: int, inCache: int, accessibleNodes: int, visibleOnScreenNodes: int,
    cachingEnabledCounter: int)

  /** Visible nodes were accessible, accessible ones were cached, cached ones were accessed. */
  predicate Nested(c: Counters)
  {
    0 <= c.visibleOnScreenNodes <= c.accessibleNodes <= c.inCache <= c.accessCounter
  }

  /** The counting `GetRoot` does for one access. */
  function Count(c: Counters, o: Observation, caching: bool): Counters
  {
    Counters(
      c.accessCounter + 1,
      c.inCache + (if o.cached then 1 else 0),
      c.accessibleNodes + (if o.accessible then 1 else 0),
      c.visibleOnScreenNodes + (if o.visibleOnScreen then 1 else 0),
      c.cachingEnabledCounter + (if caching then 1 else 0))
  }

  /** One `GetRoot`'s own counting adds one to the access counter and keeps the counters nested. */
  lemma CountKeepsNested<N>(c: Counters, entry: Option<N>, probe: N -> Probe, caching: bool)
    requires Nested(c)
    ensures var r := Count(c, Observe(entry, probe), caching);
      Nested(r) && r.accessCounter == c.accessCounter + 1
      && c.inCache <= r.inCache <= c.inCache + 1
      && r.visibleOnScreenNodes - c.visibleOnScreenNodes <= r.accessibleNodes - c.accessibleNodes
                                                     <= r.inCache - c.inCache
  {
  }

  /** The exceptions a lookup raises. */
  datatype Failure =
    | NotFound     // `ObjectTreeNodeNotFoundException` of `Find`, or the driver's when the process is not found
    | OutOfRange   // `ArgumentOutOfRangeException` of `ElementAt`
    | TimedOut     // `TimeoutException` of `WaitHelper.For`
    | NoParent     // `InvalidOperationException`: "A process node has no parent"

  /** How `Root` or `TryRoot` ends: with a node, with `null`, or with an exception. */
  datatype Access<N> = Found(node: N) | Null | Raised(failure: Failure)

  /**
   * What the driver answers. `tryFind(h, p)` is what the search for the object
   * with hash `h` finds below the node `p` (nothing also when `p` disappeared
   * meanwhile), `findAll(h, p)` the value `FindAll` last gave while
   * `WaitHelper.For` polled it: the first nonempty one, or an empty one when
   * the wait timed out. `process` is the node of the root process, if it runs.
   * `picture(n)` is `n.Picture()`, nothing when that throws.
   */
  datatype Driver<!N, P> = Driver(
    probe: N -> Probe, picture: N -> Option<P>, process: Option<N>,
    tryFind: (int, N) -> Option<N>, findAll: (int, N) -> seq<N>)

  /** The root's cache, picture store and counters, which every object of the tree shares. */
  datatype Shared<N, P> = Shared(cache: map<int, N>, pictures: map<int, P>, counters: Counters)

  /**
   * What `GetRoot` does after the lookup found `node`: cache it when caching
   * is enabled, and picture it when images are enabled and the hash has no
   * picture yet.
   */
  function Store<N, P>(s: Shared<N, P>, hash: int, caching: bool, images: bool, node: Option<N>,
                       picture: N -> Option<P>): Shared<N, P>
  {
    var cache := if node.Some? && caching then s.cache[hash := node.value] else s.cache;
    var pictures :=
      if node.Some? && images && hash !in s.pictures && picture(node.value).Some?
      then s.pictures[hash := picture(node.value).value] else s.pictures;
    Shared(cache, pictures, s.counters)
  }

  /**
   * Storing touches the object's own hash only: its cache entry becomes the
   * node exactly when caching is enabled, a stored picture is never replaced,
   * an added one is a picture of the node, and the counters stay.
   */
  lemma StoreTouchesOwnHash<N, P>(s: Shared<N, P>, hash: int, caching: bool, images: bool, node: Option<N>,
                                  picture: N -> Option<P>, other: int)
    ensures var t := Store(s, hash, caching, images, node, picture);
      Lookup(t.cache, hash) == (if caching && node.Some? then node else Lookup(s.cache, hash))
      && (other != hash ==> Lookup(t.cache, other) == Lookup(s.cache, other)
                            && Lookup(t.pictures, other) == Lookup(s.pictures, other))
      && (hash in s.pictures ==> t.pictures == s.pictures)
      && (!images ==> t.pictures == s.pictures)
      && (hash in t.pictures && hash !in s.pictures ==> node.Some? && Some(t.pictures[hash]) == picture(node.value))
      && t.counters == s.counters
  {
  }

  /**
   * From `s` to `t` only the entries of the hashes `hs` changed, and no
   * stored picture was replaced or removed.
   */
  ghost predicate Keeps<N, P>(s: Shared<N, P>, t: Shared<N, P>, hs: set<int>)
  {
    (forall h :: h !in hs ==> Lookup(t.cache, h) == Lookup(s.cache, h) && Lookup(t.pictures, h) == Lookup(s.pictures, h))
    && (forall h :: h in s.pictures ==> h in t.pictures && t.pictures[h] == s.pictures[h])
  }

  lemma KeepsWiden<N, P>(a: Shared<N, P>, b: Shared<N, P>, hs: set<int>, ks: set<int>)
    requires Keeps(a, b, hs) && hs <= ks
    ensures Keeps(a, b, ks)
  {
  }

  lemma KeepsTrans<N, P>(a: Shared<N, P>, b: Shared<N, P>, c: Shared<N, P>, hs: set<int>, ks: set<int>)
    requires Keeps(a, b, hs) && Keeps(b, c, ks)
    ensures Keeps(a, c, hs + ks)
  {
  }

  /** Storing under `hash` keeps every other entry and every stored picture. */
  lemma StoreKeeps<N, P>(s: Shared<N, P>, hash: int, caching: bool, images: bool, node: Option<N>,
                         picture: N -> Option<P>)
    ensures Keeps(s, Store(s, hash, caching, images, node, picture), {hash})
  {
    forall h | h !in {hash}
      ensures var t := Store(s, hash, caching, images, node, picture);
        Lookup(t.cache, h) == Lookup(s.cache, h) && Lookup(t.pictures, h) == Lookup(s.pictures, h)
    {
      StoreTouchesOwnHash(s, hash, caching, images, node, picture, h);
    }
  }

  /** What `Matches` gives: the matches, the memo after it, and whether `WaitHelper.For` timed out. */
  datatype Polled<N> = Polled(matches: seq<N>, memo: Option<seq<N>>, timedOut: bool)

  /**
   * `Matches(parentHint)` for a found parent: the memoised matches when there
   * are some, otherwise the polled ones, which are memoised even when the
   * wait timed out on an empty result.
   */
  function MatchesFrom<N>(memo: Option<seq<N>>, polled: seq<N>): Polled<N>
  {
    if memo.Some? then Polled(memo.value, memo, false) else Polled(polled, Some(polled), polled == [])
  }

  /**
   * The first call decides the matches for good: a later call returns the
   * same matches without polling and without timing out, and after a time-out
   * every later call returns no matches.
   */
  lemma MatchesMemoised<N>(memo: Option<seq<N>>, polled: seq<N>, later: seq<N>)
    ensures var first := MatchesFrom(memo, polled);
      var second := MatchesFrom(first.memo, later);
      second == Polled(first.matches, first.memo, false)
      && (first.timedOut ==> first.memo == Some([]) && second.matches == [])
      && (first.timedOut <==> memo.None? && polled == [])
  {
  }

  /** The match at `index`: `ElementAt` when `strict`, which throws past the end, else `ElementAtOrDefault`. */
  function Pick<N>(strict: bool, m: seq<N>, index: int): Access<N>
  {
    if 0 <= index < |m| then Found(m[index]) else if strict then Raised(OutOfRange) else Null
  }

  /** What the search below the parent's node gives: `Find` when `strict`, which throws when nothing is found, else `TryFind`. */
  function FindResult<N>(strict: bool, found: Option<N>): Access<N>
  {
    if found.Some? then Found(found.value) else if strict then Raised(NotFound) else Null
  }

  /** The node an access gives, `null` for none. */
  function NodeOf<N>(a: Access<N>): Option<N>
  {
    if a.Found? then Some(a.node) else None
  }

  /** What one access does: its result, the shared state after it, and the accessed object's `mNode` and `matches` after it. */
  datatype Step<N, P> = Step(result: Access<N>, shared: Shared<N, P>, snapped: Option<N>, matches: Option<seq<N>>)

  class Statistics {
    var accessCounter: int
    var inCache: int
    var accessibleNodes: int
    var visibleOnScreenNodes: int
    var cachingEnabledCounter: int

    constructor ()
      ensures Value() == Counters(0, 0, 0, 0, 0) && Nested(Value())
    {
      accessCounter, inCache, accessibleNodes, visibleOnScreenNodes, cachingEnabledCounter := 0, 0, 0, 0, 0;
    }

    function Value(): Counters
      reads this`accessCounter, this`inCache, this`accessibleNodes, this`visibleOnScreenNodes, this`cachingEnabledCounter
    {
      Counters(accessCounter, inCache, accessibleNodes, visibleOnScreenNodes, cachingEnabledCounter)
    }

    /** The counter updates of one `GetRoot`. */
    method Record(o: Observation, caching: bool)
      modifies this`accessCounter, this`inCache, this`accessibleNodes, this`visibleOnScreenNodes, this`cachingEnabledCounter
      ensures Value() == Count(old(Value()), o, caching)
    {
      accessCounter := accessCounter + 1;
      inCache := inCache + if o.cached then 1 else 0;
      accessibleNodes := accessibleNodes + if o.accessible then 1 else 0;
      visibleOnScreenNodes := visibleOnScreenNodes + if o.visibleOnScreen then 1 else 0;
      cachingEnabledCounter := cachingEnabledCounter + if caching then 1 else 0;
    }
  }

  class UIObjectNode<N, P> {
    /** `mParent`; a root object has none. */
    const parent: UIObjectNode?<N, P>
    /** `this is IRootObjectNode`: the process node at the top of the tree. */
    const isRoot: bool
    /** The distance from the root, so that the parent chain is finite. */
    ghost const depth: nat
    /** `mHash`, what `GetHashCode` returns; it also stands for the object's search pattern and depth. */
    const hash: int
    const enableImages: bool
    /** The virtual `EnableCaching` and `EnableAutoSnap` of the concrete object. */
    const enableCaching: bool
    const enableAutoSnap: bool
    /** A root's `NodeLocator` and `Statistics`; only the root's are used. */
    const locator: NodeLocator<N, P>
    const statistics: Statistics

    /** `mNode`, the snapped node. */
    var snapped: Option<N>
    /** `index`: which of the matches this object stands for. */
    var index: int
    /** `matches`, the memoised matches. */
    var matches: Option<seq<N>>
    /** `mRootNode`, the memoised root. */
    var rootMemo: UIObjectNode?<N, P>

    constructor (parent: UIObjectNode?<N, P>, isRoot: bool, hash: int, enableImages: bool,
                 enableCaching: bool, enableAutoSnap: bool, locator: NodeLocator<N, P>, statistics: Statistics)
      requires isRoot || (parent != null && parent.Chain())
      ensures Chain() && this.parent == parent && this.isRoot == isRoot && this.hash == hash
      ensures this.enableImages == enableImages && this.enableCaching == enableCaching
      ensures this.enableAutoSnap == enableAutoSnap
      ensures this.locator == locator && this.statistics == statistics
      ensures snapped.None? && index == 0 && matches.None? && rootMemo == null
    {
      this.parent := parent;
      this.isRoot := isRoot;
      this.depth := if isRoot then 0 else parent.depth + 1;
      this.hash := hash;
      this.enableImages := enableImages;
      this.enableCaching := enableCaching;
      this.enableAutoSnap := enableAutoSnap;
      this.locator := locator;
      this.statistics := statistics;
      snapped := None;
      index := 0;
      matches := None;
      rootMemo := null;
    }

    /** Following parents from here reaches a root object. */
    ghost predicate Chain()
      decreases depth
    {
      isRoot || (parent != null && parent.depth < depth && parent.Chain())
    }

    ghost function RootOf(): UIObjectNode<N, P>
      requires Chain()
      decreases depth
    {
      if isRoot then this else parent.RootOf()
    }

    ghost function Ancestors(): set<UIObjectNode<N, P>>
      requires Chain()
      decreases depth
    {
      {this} + if isRoot then {} else parent.Ancestors()
    }

    /** The hashes of the objects on the chain. */
    ghost function Hashes(): set<int>
      requires Chain()
      decreases depth
    {
      {hash} + if isRoot then {} else parent.Hashes()
    }

    lemma {:induction false} AncestorsAreHigher()
      requires Chain()
      ensures forall a :: a in Ancestors() ==> a.depth <= depth
      ensures RootOf() in Ancestors()
      decreases depth
    {
      if !isRoot {
        parent.AncestorsAreHigher();
      }
    }

    /** The ancestors exist, so what a method does not modify of them stays as it was. */
    lemma {:induction false} AncestorsAllocated()
      requires Chain()
      ensures forall a <- Ancestors() :: allocated(a)
      decreases depth
    {
      if !isRoot {
        parent.AncestorsAllocated();
      }
    }

    /** Every memoised root on the chain is the real root. */
    ghost predicate MemosSound()
      requires Chain()
      reads Ancestors()`rootMemo
      decreases depth
    {
      (rootMemo == null || rootMemo == RootOf()) && (isRoot || parent.MemosSound())
    }

    /** The root's cache, picture store and counters. */
    ghost function SharedOf(): Shared<N, P>
      requires Chain()
      reads RootOf().locator`cache, RootOf().locator`pictures
      reads RootOf().statistics`accessCounter, RootOf().statistics`inCache, RootOf().statistics`accessibleNodes
      reads RootOf().statistics`visibleOnScreenNodes, RootOf().statistics`cachingEnabledCounter
    {
      Shared(RootOf().locator.cache, RootOf().locator.pictures, RootOf().statistics.Value())
    }

    /**
     * `Root` when `strict`, `TryRoot` otherwise, from the shared state `s`:
     * the process node finds its node through the driver; any other object
     * returns its snapped node without an access, and otherwise `GetRoot`.
     */
    ghost function RootStep(strict: bool, s: Shared<N, P>, d: Driver<N, P>): Step<N, P>
      requires Chain()
      reads Ancestors()`snapped, Ancestors()`matches, Ancestors()`index
      decreases depth, 3
    {
      if isRoot then Step(FindResult(strict, d.process), s, snapped, matches)
      else if snapped.Some? then Step(Found(snapped.value), s, snapped, matches)
      else GetRootStep(strict, s, d)
    }

    /**
     * `GetRoot(findNode)` from the shared state `s`, with `findNode` the
     * `RootUncached` of `strict` and `TryRootUncached` otherwise: count, return
     * a cached node that is accessible and visible, and otherwise look the node
     * up on the counted state, then store and picture it and maybe snap it.
     * An exception of the lookup ends it after the counting and the lookup's
     * own effects.
     */
    ghost function GetRootStep(strict: bool, s: Shared<N, P>, d: Driver<N, P>): Step<N, P>
      requires Chain()
      reads Ancestors()`snapped, Ancestors()`matches, Ancestors()`index
      decreases depth, 2
    {
      var entry := Lookup(s.cache, hash);
      var o := Observe(entry, d.probe);
      var counted := Counted(s, d);
      if o.visibleOnScreen then
        Step(Found(entry.value), counted, if enableAutoSnap then entry else snapped, matches)
      else
        var u := UncachedStep(strict, counted, d);
        if u.result.Raised? then u
        else
          var node := NodeOf(u.result);
          Step(u.result, Store(u.shared, hash, enableCaching, enableImages, node, d.picture),
               if enableAutoSnap then node else snapped, u.matches)
    }

    /**
     * `RootUncached` when `strict`, `TryRootUncached` otherwise: a process node
     * has no parent to search from. Otherwise the parent's node is found by the
     * parent's `Root` (the first match, strictly) or `TryRoot`, and then the
     * first match below it is searched, or the match at `index` of `Matches`.
     * A missing parent node gives `null`, and no matches to `ElementAt`.
     */
    ghost function UncachedStep(strict: bool, s: Shared<N, P>, d: Driver<N, P>): Step<N, P>
      requires Chain()
      reads Ancestors()`snapped, Ancestors()`matches, Ancestors()`index
      decreases depth, 0
    {
      if isRoot then Step(Raised(NoParent), s, snapped, matches)
      else
        var p := parent.RootStep(strict && index == 0, s, d);
        match p.result
        case Raised(f) => Step(p.result, p.shared, snapped, matches)
        case Null => Step(if strict && index != 0 then Raised(OutOfRange) else Null, p.shared, snapped, matches)
        case Found(n) =>
          if index == 0 then Step(FindResult(strict, d.tryFind(hash, n)), p.shared, snapped, matches)
          else
            var m := MatchesFrom(matches, d.findAll(hash, n));
            Step(if m.timedOut then Raised(TimedOut) else Pick(strict, m.matches, index), p.shared, snapped, m.memo)
    }

    /** The counted state `GetRoot` looks the node up on. */
    ghost function Counted(s: Shared<N, P>, d: Driver<N, P>): Shared<N, P>
    {
      s.(counters := Count(s.counters, Observe(Lookup(s.cache, hash), d.probe), enableCaching))
    }

    /**
     * Since the old state, every object strictly above this one kept its
     * snapped node, or had none and auto-snaps, and kept its matches, or had
     * none memoised: `mNode` is only set by that object's own auto-snap and
     * `matches` only from unset. (Every ancestor exists in the old state, as
     * `AncestorsAllocated` shows.)
     */
    twostate predicate AboveGrown()
      requires Chain()
      reads Ancestors()`snapped, Ancestors()`matches
    {
      forall a <- Ancestors() - {this} | old(allocated(a)) ::
        (a.snapped == old(a.snapped) || (a.enableAutoSnap && old(a.snapped).None?))
        && (a.matches == old(a.matches) || old(a.matches).None?)
    }

    /**
     * What `Root` or `TryRoot` does to the object's own memos: a snapped node
     * is set only by auto-snapping when there was none, and matches only
     * when none were memoised.
     */
    lemma OwnMemosGrow(strict: bool, s: Shared<N, P>, d: Driver<N, P>)
      requires Chain()
      ensures var t := RootStep(strict, s, d);
        (t.snapped == snapped || (enableAutoSnap && snapped.None?))
        && (t.matches == matches || matches.None?)
    {
      if !isRoot && snapped.None? {
        var c := Counted(s, d);
        var u := UncachedStep(strict, c, d);
        assert u.snapped == snapped && (u.matches == matches || matches.None?);
      }
    }

    /** `Root` never gives `null`: it gives a node or raises. */
    lemma {:induction false} StrictNeverNull(s: Shared<N, P>, d: Driver<N, P>)
      requires Chain()
      ensures RootStep(true, s, d).result != Null
      ensures GetRootStep(true, s, d).result != Null
      decreases depth
    {
      if !isRoot && index == 0 {
        parent.StrictNeverNull(Counted(s, d), d);
      }
      assert GetRootStep(true, s, d).result != Null;
    }

    /**
     * Every `GetRoot` on the chain counts one access and keeps the counters
     * nested: one access counts between one and one per object below the
     * root, and `Root` or `TryRoot` leaves the counters alone exactly when
     * the object is the root or is snapped.
     */
    lemma {:induction false} Counting(strict: bool, s: Shared<N, P>, d: Driver<N, P>)
      requires Chain() && Nested(s.counters)
      ensures var t := GetRootStep(strict, s, d).shared.counters;
        Nested(t) && s.counters.accessCounter < t.accessCounter <= s.counters.accessCounter + (if isRoot then 1 else depth)
      ensures var t := RootStep(strict, s, d).shared.counters;
        Nested(t) && s.counters.accessCounter <= t.accessCounter <= s.counters.accessCounter + depth
        && (t == s.counters <==> isRoot || snapped.Some?)
      decreases depth
    {
      CountKeepsNested(s.counters, Lookup(s.cache, hash), d.probe, enableCaching);
      if !isRoot {
        parent.Counting(strict && index == 0, Counted(s, d), d);
      }
    }

    /**
     * An access changes only the cache entries and pictures of the hashes on
     * its chain, and never replaces or removes a stored picture.
     */
    lemma {:induction false} Touches(strict: bool, s: Shared<N, P>, d: Driver<N, P>)
      requires Chain()
      ensures Keeps(s, GetRootStep(strict, s, d).shared, Hashes())
      ensures Keeps(s, RootStep(strict, s, d).shared, Hashes())
      decreases depth
    {
      var c := Counted(s, d);
      assert Keeps(s, c, {});
      var u := UncachedStep(strict, c, d);
      var hs := if isRoot then {} else parent.Hashes();
      if !isRoot {
        parent.Touches(strict && index == 0, c, d);
      }
      assert Keeps(c, u.shared, hs);
      KeepsTrans(s, c, u.shared, {}, hs);
      var t := Store(u.shared, hash, enableCaching, enableImages, NodeOf(u.result), d.picture);
      StoreKeeps(u.shared, hash, enableCaching, enableImages, NodeOf(u.result), d.picture);
      KeepsTrans(s, u.shared, t, {} + hs, {hash});
      assert Hashes() == {} + hs + {hash};
      var g := GetRootStep(strict, s, d);
      if Observe(Lookup(s.cache, hash), d.probe).visibleOnScreen {
        assert g.shared == c;
        KeepsWiden(s, c, {}, Hashes());
      } else if u.result.Raised? {
        assert g.shared == u.shared;
        KeepsWiden(s, u.shared, {} + hs, Hashes());
      } else {
        assert g.shared == t;
      }
      if isRoot || snapped.Some? {
        assert RootStep(strict, s, d).shared == s;
        KeepsWiden(s, s, {}, Hashes());
      } else {
        assert RootStep(strict, s, d) == g;
      }
    }

    /**
     * A cached node that is accessible and visible on screen is returned
     * without a lookup: what the driver would find and where the parent is
     * play no part, one access is counted, and the cache and pictures stay.
     */
    lemma HitNeedsNoLookup(strict: bool, strict2: bool, s: Shared<N, P>, d: Driver<N, P>, d2: Driver<N, P>)
      requires Chain()
      requires Observe(Lookup(s.cache, hash), d.probe).visibleOnScreen && d2.probe == d.probe
      ensures var g := GetRootStep(strict, s, d);
        g == GetRootStep(strict2, s, d2) && g.result == Found(s.cache[hash])
        && g.shared.cache == s.cache && g.shared.pictures == s.pictures
        && g.shared.counters.accessCounter == s.counters.accessCounter + 1
    {
    }

    /**
     * With caching enabled, the node `GetRoot` returns is cached under the
     * object's hash even when the lookup cached something under it, so a
     * second access finds it without a lookup while it stays accessible and
     * visible.
     */
    lemma SecondAccessHitsCache(strict: bool, strict2: bool, s: Shared<N, P>, d: Driver<N, P>)
      requires Chain() && enableCaching
      requires GetRootStep(strict, s, d).result.Found?
      requires var n := GetRootStep(strict, s, d).result.node; d.probe(n).accessible && d.probe(n).visibleOnScreen
      ensures var g := GetRootStep(strict, s, d);
        Lookup(g.shared.cache, hash) == Some(g.result.node)
        && GetRootStep(strict2, g.shared, d).result == g.result
        && GetRootStep(strict2, g.shared, d).shared == Counted(g.shared, d)
    {
    }

    /** `RootNode`: the memoised root; a root object is its own. */
    method RootNode() returns (r: UIObjectNode<N, P>)
      requires Chain() && MemosSound()
      modifies Ancestors()`rootMemo
      ensures r == RootOf() && rootMemo == r && MemosSound()
      decreases depth
    {
      if rootMemo != null {
        return rootMemo;
      }
      if isRoot {
        rootMemo := this;
        return this;
      }
      AncestorsAreHigher();
      parent.AncestorsAreHigher();
      r := parent.RootNode();
      rootMemo := r;
    }

    /** `Root` when `strict`, `TryRoot` otherwise. */
    method Root(strict: bool, d: Driver<N, P>) returns (r: Access<N>)
      requires Chain() && MemosSound()
      modifies Ancestors()`snapped, Ancestors()`matches, Ancestors()`rootMemo, RootOf().locator, RootOf().statistics
      ensures MemosSound()
      ensures Step(r, SharedOf(), snapped, matches) == old(RootStep(strict, SharedOf(), d))
      ensures AboveGrown()
      decreases depth, 3
    {
      if isRoot {
        return FindResult(strict, d.process);
      }
      if snapped.Some? {
        return Found(snapped.value);
      }
      r := GetRoot(strict, d);
    }

    /** `GetRoot(findNode)`, with `findNode` the `RootUncached` of `strict` and `TryRootUncached` otherwise. */
    method GetRoot(strict: bool, d: Driver<N, P>) returns (r: Access<N>)
      requires Chain() && MemosSound()
      modifies Ancestors()`snapped, Ancestors()`matches, Ancestors()`rootMemo, RootOf().locator, RootOf().statistics
      ensures MemosSound()
      ensures Step(r, SharedOf(), snapped, matches) == old(GetRootStep(strict, SharedOf(), d))
      ensures AboveGrown()
      decreases depth, 2
    {
      AncestorsAllocated();
      ghost var counted := Counted(SharedOf(), d);
      ghost var u := UncachedStep(strict, counted, d);
      var entry, o := CountAccess(d);
      assert SharedOf() == counted;
      if o.visibleOnScreen {
        r := Found(entry.value);
      } else {
        assert UncachedStep(strict, counted, d) == u;
        r := LookUp(strict, d);
        if r.Raised? {
          return;
        }
      }
      snapped := if enableAutoSnap then NodeOf(r) else snapped;
    }

    /** The first part of `GetRoot`: the cached entry, what the driver reports of it, and one access counted. */
    method CountAccess(d: Driver<N, P>) returns (entry: Option<N>, o: Observation)
      requires Chain() && MemosSound()
      modifies Ancestors()`rootMemo, RootOf().statistics
      ensures MemosSound()
      ensures entry == Lookup(old(SharedOf()).cache, hash) && o == Observe(entry, d.probe)
      ensures SharedOf() == Counted(old(SharedOf()), d)
    {
      AncestorsAllocated();
      ghost var s0 := SharedOf();
      var root := RootNode();
      assert root.locator.cache == old(root.locator.cache);
      assert SharedOf() == s0;
      var cached;
      cached, entry := root.locator.TryGet(hash);
      o := Observe(entry, d.probe);
      root.statistics.Record(o, enableCaching);
    }

    /**
     * The lookup part of `GetRoot`: `findNode()`, then, unless it raised,
     * caching and picturing what it found.
     */
    method LookUp(strict: bool, d: Driver<N, P>) returns (r: Access<N>)
      requires Chain() && MemosSound()
      modifies Ancestors()`snapped, Ancestors()`matches, Ancestors()`rootMemo, RootOf().locator, RootOf().statistics
      ensures MemosSound() && snapped == old(snapped)
      ensures AboveGrown()
      ensures var u := old(UncachedStep(strict, SharedOf(), d));
        r == u.result && matches == u.matches
        && SharedOf() == if r.Raised? then u.shared
                         else Store(u.shared, hash, enableCaching, enableImages, NodeOf(r), d.picture)
      decreases depth, 1
    {
      AncestorsAllocated();
      var root := RootNode();
      assert root.locator.cache == old(root.locator.cache);
      assert SharedOf() == old(SharedOf());
      r := Uncached(strict, d);
      if r.Raised? {
        return;
      }
      StoreFound(root, NodeOf(r), d.picture);
    }

    /**
     * The end of `GetRoot`'s lookup: cache the found node when caching is
     * enabled, and picture it when images are enabled and the hash has no
     * picture yet; a picture that fails is not stored.
     */
    method StoreFound(root: UIObjectNode<N, P>, node: Option<N>, picture: N -> Option<P>)
      requires Chain() && root == RootOf()
      modifies root.locator
      ensures SharedOf() == Store(old(SharedOf()), hash, enableCaching, enableImages, node, picture)
    {
      if node.Some? && enableCaching {
        root.locator.Register(hash, node.value);
      }
      var stored := root.locator.Picture(hash);
      if node.Some? && enableImages && stored.None? {
        var taken := picture(node.value);
        if taken.Some? {
          root.locator.AddPicture(hash, taken.value);
        }
      }
    }

    /** `RootUncached` when `strict`, `TryRootUncached` otherwise. */
    method Uncached(strict: bool, d: Driver<N, P>) returns (r: Access<N>)
      requires Chain() && MemosSound()
      modifies Ancestors()`snapped, Ancestors()`matches, Ancestors()`rootMemo, RootOf().locator, RootOf().statistics
      ensures MemosSound()
      ensures Step(r, SharedOf(), snapped, matches) == old(UncachedStep(strict, SharedOf(), d))
      ensures AboveGrown()
      decreases depth, 0
    {
      if isRoot {
        return Raised(NoParent);
      }
      AncestorsAreHigher();
      parent.AncestorsAreHigher();
      AncestorsAllocated();
      parent.OwnMemosGrow(strict && index == 0, old(SharedOf()), d);
      var p := parent.Root(strict && index == 0, d);
      assert AboveGrown() by {
        assert Ancestors() - {this} == {parent} + (parent.Ancestors() - {parent});
      }
      if p.Raised? {
        return p;
      }
      if p.Null? {
        return if strict && index != 0 then Raised(OutOfRange) else Null;
      }
      if index == 0 {
        r := FindResult(strict, d.tryFind(hash, p.node));
      } else {
        var m, timedOut := Matches(p.node, d);
        r := if timedOut then Raised(TimedOut) else Pick(strict, m, index);
      }
    }

    /**
     * `Matches(parentHint)` below the parent's node `p`: the memo if there is
     * one, otherwise what `WaitHelper.For` polled, kept also when the wait
     * timed out and raised.
     */
    method Matches(p: N, d: Driver<N, P>) returns (m: seq<N>, timedOut: bool)
      modifies this`matches
      ensures Polled(m, matches, timedOut) == MatchesFrom(old(matches), d.findAll(hash, p))
    {
      if matches.None? {
        var polled := d.findAll(hash, p);
        matches := Some(polled);
        timedOut := polled == [];
      } else {
        timedOut := false;
      }
      m := matches.value;
    }

    /**
     * `TrySnap`: snap what `GetRoot` with `TryRootUncached` finds and say
     * whether that is a node; an exception leaves the snapped node as it was.
     */
    method TrySnap(d: Driver<N, P>) returns (r: Result<bool, Failure>)
      requires Chain() && MemosSound()
      modifies Ancestors()`snapped, Ancestors()`matches, Ancestors()`rootMemo, RootOf().locator, RootOf().statistics
      ensures MemosSound()
      ensures var g := old(GetRootStep(false, SharedOf(), d));
        SharedOf() == g.shared && matches == g.matches
        && (g.result.Raised? ==> r == Err(g.result.failure) && snapped == old(snapped))
        && (!g.result.Raised? ==> snapped == NodeOf(g.result) && r == Ok(snapped.Some?))
      ensures AboveGrown()
    {
      var before := snapped;
      var node := GetRoot(false, d);
      if node.Raised? {
        snapped := before;
        return Err(node.failure);
      }
      snapped := NodeOf(node);
      r := Ok(snapped.Some?);
    }

    /** `TryUnsnap`: forget the snapped node; whether there was one. */
    method TryUnsnap() returns (success: bool)
      modifies this`snapped
      ensures snapped.None? && (success <==> old(snapped).Some?)
    {
      var before := snapped;
      snapped := None;
      success := before.Some?;
    }
  }
}
