/** Sequence helpers standing in for the LINQ operators the source uses. */
module Seqs {
  import opened Wrappers

  predicate NoDuplicates<T(==)>(s: seq<T>)
  {
    forall i, j :: 0 <= i < j < |s| ==> s[i] != s[j]
  }

  lemma NoDuplicatesAppend<T>(s: seq<T>, x: T)
    ensures NoDuplicates(s + [x]) <==> NoDuplicates(s) && x !in s
  {
    var t := s + [x];
    assert forall i :: 0 <= i < |s| ==> t[i] == s[i];
    if NoDuplicates(t) {
      forall i | 0 <= i < |s| ensures s[i] != x {
        assert t[i] != t[|s|];
      }
    }
  }

  /** The keys of an association list, in order (`Dictionary.Keys`). */
  function Keys<K, V>(m: seq<(K, V)>): (r: seq<K>)
    ensures |r| == |m| && forall i :: 0 <= i < |m| ==> r[i] == m[i].0
  {
    if m == [] then [] else [m[0].0] + Keys(m[1..])
  }

  lemma KeysAppend<K, V>(m: seq<(K, V)>, x: (K, V))
    ensures Keys(m + [x]) == Keys(m) + [x.0]
  {
    var t := m + [x];
    assert forall i :: 0 <= i < |m| ==> t[i] == m[i];
  }

  /** `Select(f)`. */
  function Map<A, B>(s: seq<A>, f: A -> B): (r: seq<B>)
    ensures |r| == |s| && forall i :: 0 <= i < |s| ==> r[i] == f(s[i])
  {
    if s == [] then [] else [f(s[0])] + Map(s[1..], f)
  }

  /** `Where(keep).Select(f)`. */
  function Choose<A, B>(s: seq<A>, keep: A -> bool, f: A -> B): (r: seq<B>)
    ensures |r| <= |s|
  {
    if s == [] then [] else (if keep(s[0]) then [f(s[0])] else []) + Choose(s[1..], keep, f)
  }

  lemma {:induction false} ChooseMember<A, B>(s: seq<A>, keep: A -> bool, f: A -> B, y: B)
    ensures y in Choose(s, keep, f) <==> exists i :: 0 <= i < |s| && keep(s[i]) && f(s[i]) == y
  {
    if s != [] {
      ChooseMember(s[1..], keep, f, y);
      assert forall i :: 1 <= i < |s| ==> s[i] == s[1..][i - 1];
      if exists i :: 0 <= i < |s| && keep(s[i]) && f(s[i]) == y {
        var i :| 0 <= i < |s| && keep(s[i]) && f(s[i]) == y;
        if i > 0 {
          assert s[1..][i - 1] == s[i];
        }
      }
    }
  }

  /** `SelectMany(x => x)`. */
  function Flatten<T>(ss: seq<seq<T>>): seq<T>
  {
    if ss == [] then [] else ss[0] + Flatten(ss[1..])
  }

  lemma {:induction false} FlattenAppend<T>(ss: seq<seq<T>>, s: seq<T>)
    ensures Flatten(ss + [s]) == Flatten(ss) + s
  {
    if ss == [] {
      assert [s][1..] == [];
    } else {
      assert (ss + [s])[1..] == ss[1..] + [s];
      FlattenAppend(ss[1..], s);
    }
  }

  lemma {:induction false} FlattenMember<T>(ss: seq<seq<T>>, x: T)
    ensures x in Flatten(ss) <==> exists i :: 0 <= i < |ss| && x in ss[i]
  {
    if ss != [] {
      FlattenMember(ss[1..], x);
      assert forall i :: 1 <= i < |ss| ==> ss[i] == ss[1..][i - 1];
    }
  }

  /**
   * LINQ `Distinct`/`Union` under the equality `key(a) == key(b)`: an element
   * is kept when no earlier element has its key.
   */
  function DistinctBy<T, K(==)>(s: seq<T>, key: T -> K): (r: seq<T>)
    ensures |r| <= |s|
    ensures forall x :: x in r ==> x in s
    ensures forall i, j :: 0 <= i < j < |r| ==> key(r[i]) != key(r[j])
    ensures forall i :: 0 <= i < |s| ==> exists j :: 0 <= j < |r| && key(r[j]) == key(s[i])
  {
    if s == [] then []
    else
      var d := DistinctBy(s[..|s| - 1], key);
      var x := s[|s| - 1];
      assert forall i :: 0 <= i < |s| - 1 ==> s[i] == s[..|s| - 1][i];
      if exists j :: 0 <= j < |d| && key(d[j]) == key(x) then d
      else
        var r := d + [x];
        assert forall j :: 0 <= j < |d| ==> r[j] == d[j];
        assert r[|d|] == x;
        r
  }

  /** Every element of `DistinctBy(s, key)` is the first element of `s` with its key. */
  lemma {:induction false} DistinctByFirstOccurrence<T, K>(s: seq<T>, key: T -> K, j: nat)
    requires j < |DistinctBy(s, key)|
    ensures exists i :: 0 <= i < |s| && s[i] == DistinctBy(s, key)[j]
                && forall k :: 0 <= k < i ==> key(s[k]) != key(s[i])
  {
    var p := s[..|s| - 1];
    var d := DistinctBy(p, key);
    assert forall i :: 0 <= i < |s| - 1 ==> s[i] == p[i];
    if j < |d| {
      DistinctByFirstOccurrence(p, key, j);
      assert DistinctBy(s, key)[j] == d[j];
    } else {
      var x := s[|s| - 1];
      assert DistinctBy(s, key) == d + [x];
      forall k | 0 <= k < |s| - 1 ensures key(s[k]) != key(x)
      {
        var m :| 0 <= m < |d| && key(d[m]) == key(p[k]);
      }
    }
  }

  /** A nonempty list is its front followed by its last element. */
  lemma DropLastAppend<T>(s: seq<T>)
    requires s != []
    ensures s[..|s| - 1] + [s[|s| - 1]] == s
  {
  }

  /** An element whose key is new is kept, last. */
  lemma DistinctByAppendNew<T, K>(p: seq<T>, x: T, key: T -> K)
    requires forall j :: 0 <= j < |DistinctBy(p, key)| ==> key(DistinctBy(p, key)[j]) != key(x)
    ensures DistinctBy(p + [x], key) == DistinctBy(p, key) + [x]
  {
    assert (p + [x])[..|p|] == p;
  }

  /** A list whose keys are already pairwise different loses nothing to `DistinctBy`. */
  /** The three parts of a concatenation are its slices. */
  lemma ConcatSlices<T>(x: seq<T>, y: seq<T>, z: seq<T>)
    ensures |x + y + z| == |x| + |y| + |z|
    ensures (x + y + z)[..|x|] == x && (x + y + z)[|x|..|x| + |y|] == y && (x + y + z)[|x| + |y|..] == z
    ensures z != [] ==> (x + y + z)[|x| + |y| + |z| - 1] == z[|z| - 1]
  {
  }

  /**
   * One more element keeps what `DistinctBy` chose before as a prefix, and
   * so any prefix of that.
   */
  lemma DistinctByExtends<T, K>(p: seq<T>, x: T, key: T -> K, a: seq<T>)
    requires |a| <= |DistinctBy(p, key)| && DistinctBy(p, key)[..|a|] == a
    ensures |a| <= |DistinctBy(p + [x], key)| && DistinctBy(p + [x], key)[..|a|] == a
  {
    assert (p + [x])[..|p|] == p;
    var d := DistinctBy(p, key);
    var e := DistinctBy(p + [x], key);
    assert e[..|d|] == d;
    assert e[..|a|] == d[..|a|];
  }

  lemma {:induction false} DistinctByOfDistinct<T, K>(s: seq<T>, key: T -> K)
    requires forall i, j :: 0 <= i < j < |s| ==> key(s[i]) != key(s[j])
    ensures DistinctBy(s, key) == s
  {
    if s != [] {
      var p := s[..|s| - 1];
      var x := s[|s| - 1];
      assert forall i, j :: 0 <= i < j < |p| ==> key(p[i]) != key(p[j]) by {
        assert forall i :: 0 <= i < |p| ==> p[i] == s[i];
      }
      DistinctByOfDistinct(p, key);
      forall j | 0 <= j < |p| ensures key(p[j]) != key(x) {
        assert p[j] == s[j];
      }
      DistinctByAppendNew(p, x, key);
      DropLastAppend(s);
    }
  }

  /** `TryGetValue`: the value stored under `k`, if any. */
  function Get<K(==), V>(items: seq<(K, V)>, k: K): (r: Option<V>)
    ensures r.Some? <==> k in Keys(items)
  {
    if items == [] then None
    else if items[0].0 == k then Some(items[0].1)
    else Get(items[1..], k)
  }

  /** `dict[k] = v`: replaces the value of a known key, otherwise adds the key last (insertion order). */
  function Put<K(==), V>(items: seq<(K, V)>, k: K, v: V): seq<(K, V)>
  {
    if items == [] then [(k, v)]
    else if items[0].0 == k then [(k, v)] + items[1..]
    else [items[0]] + Put(items[1..], k, v)
  }

  /** Storing a value sets it and keeps every other key's value. */
  lemma {:induction false} PutGet<K, V>(items: seq<(K, V)>, k: K, v: V, other: K)
    ensures Get(Put(items, k, v), k) == Some(v)
    ensures other != k ==> Get(Put(items, k, v), other) == Get(items, other)
    decreases |items|
  {
    if items != [] && items[0].0 != k {
      PutGet(items[1..], k, v, other);
      assert ([items[0]] + Put(items[1..], k, v))[1..] == Put(items[1..], k, v);
    } else if items != [] {
      assert ([(k, v)] + items[1..])[1..] == items[1..];
    }
  }

  /** Storing a value keeps the keys in order without duplicates; a new key goes last. */
  lemma {:induction false} PutKeys<K, V>(items: seq<(K, V)>, k: K, v: V)
    requires NoDuplicates(Keys(items))
    ensures Keys(Put(items, k, v)) == if k in Keys(items) then Keys(items) else Keys(items) + [k]
    ensures NoDuplicates(Keys(Put(items, k, v)))
    decreases |items|
  {
    if items != [] {
      var rest := items[1..];
      assert Keys(items) == [items[0].0] + Keys(rest);
      assert NoDuplicates(Keys(rest)) by {
        assert forall i :: 0 <= i < |rest| ==> Keys(rest)[i] == Keys(items)[i + 1];
      }
      if items[0].0 == k {
        assert ([(k, v)] + rest)[1..] == rest;
      } else {
        PutKeys(rest, k, v);
        assert ([items[0]] + Put(rest, k, v))[1..] == Put(rest, k, v);
        var ks := Keys(Put(items, k, v));
        assert ks == [items[0].0] + Keys(Put(rest, k, v));
        assert items[0].0 !in Keys(rest);
        assert k in Keys(items) <==> k in Keys(rest);
        if k !in Keys(rest) {
          assert ks == ([items[0].0] + Keys(rest)) + [k];
        }
        assert NoDuplicates(ks) by {
          assert items[0].0 !in Keys(Put(rest, k, v));
          forall i, j | 0 <= i < j < |ks| ensures ks[i] != ks[j] {
            if i > 0 {
              assert ks[i] == Keys(Put(rest, k, v))[i - 1] && ks[j] == Keys(Put(rest, k, v))[j - 1];
            } else {
              assert ks[j] == Keys(Put(rest, k, v))[j - 1];
            }
          }
        }
      }
    }
  }
}
