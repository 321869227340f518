/**
 * `NodeLocator`: the per-root cache from a UI object's hash to the driver
 * node found for it, and the store of the pictures taken of those nodes.
 * Nodes and pictures are opaque to the model.
 */
module NodeCache {
  import opened Wrappers

  /** `Dictionary.TryGetValue` on a cache: the entry for `hash`, if there is one. */
  function Lookup<V>(m: map<int, V>, hash: int): (r: Option<V>)
    ensures r.Some? <==> hash in m
    ensures r.Some? ==> r.value == m[hash]
  {
    if hash in m then Some(m[hash]) else None
  }

  /** A lookup right after storing `v` under `hash` finds `v`; other hashes see what they saw before. */
  lemma LookupAfterStore<V>(m: map<int, V>, hash: int, v: V, other: int)
    ensures Lookup(m[hash := v], hash) == Some(v)
    ensures other != hash ==> Lookup(m[hash := v], other) == Lookup(m, other)
  {
  }

  class NodeLocator<Node, Image> {
    var cache: map<int, Node>
    var pictures: map<int, Image>

    constructor ()
      ensures cache == map[] && pictures == map[]
    {
      cache := map[];
      pictures := map[];
    }

    /** `Clear`: forgets every node; the pictures stay. */
    method Clear()
      modifies this`cache
      ensures cache == map[] && pictures == old(pictures)
      ensures forall h :: Lookup(cache, h).None?
    {
      cache := map[];
    }

    /** `Register(hash, node)`: overwrites the entry for `hash`. */
    method Register(hash: int, node: Node)
      modifies this`cache
      ensures cache == old(cache)[hash := node] && pictures == old(pictures)
      ensures Lookup(cache, hash) == Some(node)
      ensures forall h :: h != hash ==> Lookup(cache, h) == Lookup(old(cache), h)
    {
      cache := cache[hash := node];
    }

    /** `TryGet(hash, out result)`: whether a node is registered under `hash`, and which. */
    method TryGet(hash: int) returns (found: bool, result: Option<Node>)
      ensures found <==> hash in cache
      ensures found ==> result == Some(cache[hash])
      ensures !found ==> result.None?
    {
      found := hash in cache;
      result := if found then Some(cache[hash]) else None;
    }

    /** `AddPicture(hash, value)`: overwrites the picture for `hash`. */
    method AddPicture(hash: int, value: Image)
      modifies this`pictures
      ensures pictures == old(pictures)[hash := value] && cache == old(cache)
    {
      pictures := pictures[hash := value];
    }

    /** `Picture(hash)`: the last picture stored for `hash`, or null when there is none. */
    method Picture(hash: int) returns (result: Option<Image>)
      ensures result.Some? <==> hash in pictures
      ensures result.Some? ==> result.value == pictures[hash]
    {
      result := Lookup(pictures, hash);
    }
  }
}
