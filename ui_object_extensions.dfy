/**
 * UI objects as the extension methods in `IUIObjectExtensions` see them: a
 * parent chain ending in a root object, per-object search depths that fall
 * back to the root's configuration, and the `Find`/`FindAll` factories. The
 * type the root's interface resolver picks for a control and whether a
 * control exists in the UI are inputs.
 */
module UIObjects {
  import opened Wrappers
  import opened TypeSystem

  class UIObject<Pattern> {
    /** `Parent`; a root object has none. */
    const parent: UIObject?<Pattern>
    /** `this is IRootObject`. */
    const isRoot: bool
    /** The distance from the root, so that the parent chain is finite. */
    ghost const height: nat
    /** The concrete type the object was created as. */
    const objectType: TypeId
    /** A root's `Configuration.PageObjectSearchDepth` and `Configuration.ControlSearchDepth`. */
    const configuredPageDepth: int
    const configuredControlDepth: int

    /** `mPageObjectSearchDepth` and `mControlObjectSearchDepth`; `None` is C#'s `null`. */
    var pageDepth: Option<int>
    var controlDepth: Option<int>
    /** `Index`: which of the matches of the pattern the object stands for. */
    var index: int
    /** The pattern and predicate given to a control's `Init(pattern, predicate)`. */
    var pattern: Option<Pattern>

    /** A root object with the given configuration. */
    constructor Root(objectType: TypeId, configuredPageDepth: int, configuredControlDepth: int)
      ensures Chain() && isRoot && parent == null && this.objectType == objectType
      ensures this.configuredPageDepth == configuredPageDepth && this.configuredControlDepth == configuredControlDepth
      ensures pageDepth.None? && controlDepth.None? && index == 0 && pattern.None?
    {
      parent := null;
      isRoot := true;
      height := 0;
      this.objectType := objectType;
      this.configuredPageDepth := configuredPageDepth;
      this.configuredControlDepth := configuredControlDepth;
      pageDepth, controlDepth, index, pattern := None, None, 0, None;
    }

    /** `Activator.CreateInstance(t)` followed by `Init(parent, …)`: a child of `parent`. */
    constructor Child(parent: UIObject<Pattern>, objectType: TypeId)
      requires parent.Chain()
      ensures Chain() && !isRoot && this.parent == parent && this.objectType == objectType
      ensures pageDepth.None? && controlDepth.None? && index == 0 && pattern.None?
    {
      this.parent := parent;
      isRoot := false;
      height := parent.height + 1;
      this.objectType := objectType;
      configuredPageDepth, configuredControlDepth := 0, 0;
      pageDepth, controlDepth, index, pattern := None, None, 0, None;
    }

    /** Following parents from here reaches a root object. */
    ghost predicate Chain()
      decreases height
    {
      isRoot || (parent != null && parent.height < height && parent.Chain())
    }

    /** `Root()`: a root object is its own root; any other object has its parent's. */
    function RootObject(): (r: UIObject<Pattern>)
      requires Chain()
      ensures r.isRoot && r.Chain()
      ensures isRoot ==> r == this
      ensures !isRoot ==> r == parent.RootObject()
      decreases height
    {
      if isRoot then this else parent.RootObject()
    }

    /** `PageObjectSearchDepth`: the object's own depth, else the root's configured one. */
    function PageObjectSearchDepth(): int
      requires Chain()
      reads this
    {
      pageDepth.GetOr(RootObject().configuredPageDepth)
    }

    /** `ControlSearchDepth`: the object's own depth, else the root's configured one. */
    function ControlSearchDepth(): int
      requires Chain()
      reads this
    {
      controlDepth.GetOr(RootObject().configuredControlDepth)
    }

    /** `Init(pageObjectSearchDepth, controlObjectSearchDepth)`: both depths are replaced. */
    method InitDepths(page: Option<int>, control: Option<int>)
      modifies this
      ensures pageDepth == page && controlDepth == control
      ensures index == old(index) && pattern == old(pattern)
    {
      pageDepth := page;
      controlDepth := control;
    }
  }

  /** The ancestors of `x`, itself included, from `x` up to the root. */
  function Ancestry<Pattern>(x: UIObject<Pattern>): (r: seq<UIObject<Pattern>>)
    requires x.Chain()
    ensures |r| > 0 && r[0] == x && r[|r| - 1] == x.RootObject()
    ensures forall i :: 0 <= i < |r| ==> r[i].Chain()
    ensures forall i :: 0 <= i < |r| - 1 ==> !r[i].isRoot && r[i + 1] == r[i].parent
    decreases x.height
  {
    if x.isRoot then [x] else [x] + Ancestry(x.parent)
  }

  /** Every object on the parent chain of `x` has the same root as `x`. */
  lemma {:induction false} AncestorsShareRoot<Pattern>(x: UIObject<Pattern>)
    requires x.Chain()
    ensures forall a :: a in Ancestry(x) ==> a.RootObject() == x.RootObject()
    decreases x.height
  {
    if !x.isRoot {
      AncestorsShareRoot(x.parent);
    }
  }

  /**
   * `Find<TControl>(pattern, predicate, depth)`: a new control of type
   * `resolved`, the type the root's interface resolver answers for
   * `TControl`, whose parent is `source`, that carries the pattern, and
   * whose page-object search depth is `depth` or else the source's control
   * search depth.
   */
  method Find<Pattern>(source: UIObject<Pattern>, resolved: TypeId, pattern: Option<Pattern>, depth: Option<int>)
    returns (result: UIObject<Pattern>)
    requires source.Chain()
    ensures fresh(result) && result.Chain() && !result.isRoot
    ensures result.parent == source && result.objectType == resolved && result.pattern == pattern
    ensures result.pageDepth == Some(depth.GetOr(source.ControlSearchDepth())) && result.controlDepth.None?
    ensures result.index == 0 && result.RootObject() == source.RootObject()
  {
    result := new UIObject.Child(source, resolved);
    result.pattern := pattern;
    result.InitDepths(Some(depth.GetOr(source.ControlSearchDepth())), None);
  }

  /**
   * `FindAll<TControl>(pattern, predicate, depth)`: the controls with index
   * 0, 1, 2, … up to, and without, the first one that does not exist;
   * `present(i)` is whether the control with index `i` is found in the UI.
   * `Find` sets each control's page-object depth and `Init(depth, null)` then
   * replaces it by `depth` itself, so without a depth the root's configured
   * one applies. `limit` is an index at which no control exists.
   */
  method FindAll<Pattern>(source: UIObject<Pattern>, resolved: TypeId, pattern: Option<Pattern>, depth: Option<int>,
                          present: int -> bool, ghost limit: nat)
    returns (results: seq<UIObject<Pattern>>)
    requires source.Chain() && !present(limit)
    ensures |results| <= limit && !present(|results|)
    ensures forall i :: 0 <= i < |results| ==> present(i)
    ensures forall i :: 0 <= i < |results| ==>
              fresh(results[i]) && results[i].parent == source && results[i].objectType == resolved
              && results[i].index == i && results[i].pageDepth == depth && results[i].controlDepth.None?
              && results[i].pattern == pattern
    ensures forall i, j :: 0 <= i < j < |results| ==> results[i] != results[j]
  {
    var next := 0;
    results := [];
    while true
      invariant 0 <= next <= limit && |results| == next
      invariant forall i :: 0 <= i < next ==> present(i)
      invariant forall i :: 0 <= i < |results| ==>
                  fresh(results[i]) && results[i].parent == source && results[i].objectType == resolved
                  && results[i].index == i && results[i].pageDepth == depth && results[i].controlDepth.None?
                  && results[i].pattern == pattern
      decreases limit - next
    {
      var result := Find(source, resolved, pattern, None);
      result.InitDepths(depth, None);
      result.index := next;
      next := next + 1;
      if !present(result.index) {
        break;
      }
      results := results + [result];
    }
  }
}
