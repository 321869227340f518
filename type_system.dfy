/**
 * A finite universe of .NET types as the reflection calls of the locators
 * see them. Type ids are indices into `types`; a class's base type and every
 * interface a type declares have a SMALLER id, so the base chain of every
 * class ends in `objectType` and assignability is a well-founded closure.
 */
module TypeSystem {
  import opened Wrappers

  type TypeId = nat

  datatype TypeInfo = TypeInfo(
    name: string,
    qualifiedName: string,            // AssemblyQualifiedName
    isInterface: bool,
    isAbstract: bool,
    hasDefaultConstructor: bool,      // GetConstructor(Type.EmptyTypes) != null
    inspectionFails: bool,            // reading the flags above throws
    baseType: Option<TypeId>,         // BaseType (classes only)
    interfaces: seq<TypeId>,          // the interfaces the type itself declares
    childOf: seq<TypeId>,             // the type arguments of its IChildOf<> interfaces
    genericParameterCount: nat,       // GenericTypeParameters.Length
    genericArguments: seq<TypeId>)    // GenericTypeArguments

  datatype Universe = Universe(
    types: seq<TypeInfo>,
    objectType: TypeId,
    iUIObject: TypeId,
    iPageObject: TypeId,
    iControlObject: TypeId,
    /** MakeGenericType: the constructed type, absent when construction throws. */
    instantiations: map<(TypeId, seq<TypeId>), TypeId>)

  predicate InRange(u: Universe, t: TypeId)
  {
    t < |u.types|
  }

  predicate IsClass(u: Universe, t: TypeId)
  {
    t < |u.types| && !u.types[t].isInterface
  }

  predicate IsInterface(u: Universe, t: TypeId)
  {
    t < |u.types| && u.types[t].isInterface
  }

  predicate WellFormedType(u: Universe, t: TypeId)
    requires t < |u.types|
  {
    var info := u.types[t];
    (info.isInterface ==> info.baseType.None?)
    && (!info.isInterface && t != u.objectType ==>
          info.baseType.Some? && info.baseType.value < t && IsClass(u, info.baseType.value))
    && (t == u.objectType ==> info.baseType.None?)
    && (forall k :: 0 <= k < |info.interfaces| ==>
          info.interfaces[k] < t && IsInterface(u, info.interfaces[k]))
    && (forall k :: 0 <= k < |info.childOf| ==> InRange(u, info.childOf[k]))
    && (forall k :: 0 <= k < |info.genericArguments| ==> InRange(u, info.genericArguments[k]))
  }

  predicate Valid(u: Universe)
  {
    IsClass(u, u.objectType)
    && IsInterface(u, u.iUIObject) && IsInterface(u, u.iPageObject) && IsInterface(u, u.iControlObject)
    && (forall t :: 0 <= t < |u.types| ==> WellFormedType(u, t))
    && (forall key :: key in u.instantiations ==>
          InRange(u, u.instantiations[key])
          && (IsClass(u, key.0) ==> IsClass(u, u.instantiations[key])))
  }

  /** The base type of a class other than `object`. */
  function BaseOf(u: Universe, t: TypeId): (b: TypeId)
    requires Valid(u) && IsClass(u, t) && t != u.objectType
    ensures b < t && IsClass(u, b)
  {
    assert WellFormedType(u, t);
    u.types[t].baseType.value
  }

  /**
   * `target.IsAssignableFrom(source)`: source is target, or one of source's
   * base types or (directly or indirectly) declared interfaces is.
   */
  predicate Assignable(u: Universe, target: TypeId, source: TypeId)
    decreases source
  {
    target == source
    || (source < |u.types| &&
        ((u.types[source].baseType.Some? && u.types[source].baseType.value < source
          && Assignable(u, target, u.types[source].baseType.value))
         || (exists k :: 0 <= k < |u.types[source].interfaces|
              && u.types[source].interfaces[k] < source
              && Assignable(u, target, u.types[source].interfaces[k]))))
  }

  /** `target` lies on the BaseType chain of `source` (source included). */
  predicate OnBaseChain(u: Universe, target: TypeId, source: TypeId)
    decreases source
  {
    target == source
    || (source < |u.types| && u.types[source].baseType.Some?
        && u.types[source].baseType.value < source
        && OnBaseChain(u, target, u.types[source].baseType.value))
  }

  lemma {:induction false} BaseChainIsAssignable(u: Universe, target: TypeId, source: TypeId)
    requires OnBaseChain(u, target, source)
    ensures Assignable(u, target, source)
    decreases source
  {
    if target != source {
      BaseChainIsAssignable(u, target, u.types[source].baseType.value);
    }
  }

  /** No class is reached from an interface. */
  lemma {:induction false} InterfaceReachesNoClass(u: Universe, target: TypeId, source: TypeId)
    requires Valid(u) && IsClass(u, target) && IsInterface(u, source)
    ensures !Assignable(u, target, source)
    decreases source
  {
    assert WellFormedType(u, source);
    forall k | 0 <= k < |u.types[source].interfaces|
      ensures !Assignable(u, target, u.types[source].interfaces[k])
    {
      InterfaceReachesNoClass(u, target, u.types[source].interfaces[k]);
    }
  }

  /** A class is assignable from a type exactly when it lies on that type's base chain. */
  lemma {:induction false} ClassAssignableIsBaseChain(u: Universe, target: TypeId, source: TypeId)
    requires Valid(u) && IsClass(u, target) && InRange(u, source)
    ensures Assignable(u, target, source) <==> OnBaseChain(u, target, source)
    decreases source
  {
    if OnBaseChain(u, target, source) {
      BaseChainIsAssignable(u, target, source);
    } else if target != source {
      assert WellFormedType(u, source);
      var info := u.types[source];
      forall k | 0 <= k < |info.interfaces|
        ensures !Assignable(u, target, info.interfaces[k])
      {
        InterfaceReachesNoClass(u, target, info.interfaces[k]);
      }
      if info.baseType.Some? {
        ClassAssignableIsBaseChain(u, target, info.baseType.value);
      }
    }
  }

  /** `object` is on the base chain of every class. */
  lemma {:induction false} ObjectOnEveryChain(u: Universe, t: TypeId)
    requires Valid(u) && IsClass(u, t)
    ensures OnBaseChain(u, u.objectType, t)
    decreases t
  {
    if t != u.objectType {
      assert WellFormedType(u, t);
      ObjectOnEveryChain(u, BaseOf(u, t));
    }
  }

  lemma {:induction false} BaseChainTransitive(u: Universe, a: TypeId, b: TypeId, c: TypeId)
    requires OnBaseChain(u, a, b) && OnBaseChain(u, b, c)
    ensures OnBaseChain(u, a, c)
    decreases c
  {
    if b != c {
      BaseChainTransitive(u, a, b, u.types[c].baseType.value);
    }
  }

  /** Two types on one class's base chain are ordered: the chain is a line. */
  lemma {:induction false} BaseChainTotal(u: Universe, a: TypeId, b: TypeId, s: TypeId)
    requires OnBaseChain(u, a, s) && OnBaseChain(u, b, s)
    ensures OnBaseChain(u, a, b) || OnBaseChain(u, b, a)
    decreases s
  {
    if a != s && b != s {
      BaseChainTotal(u, a, b, u.types[s].baseType.value);
    }
  }

  lemma {:induction false} AssignableTransitive(u: Universe, a: TypeId, b: TypeId, c: TypeId)
    requires Assignable(u, a, b) && Assignable(u, b, c)
    ensures Assignable(u, a, c)
    decreases c
  {
    if b != c {
      var info := u.types[c];
      if info.baseType.Some? && info.baseType.value < c && Assignable(u, b, info.baseType.value) {
        AssignableTransitive(u, a, b, info.baseType.value);
      } else {
        var k :| 0 <= k < |info.interfaces| && info.interfaces[k] < c && Assignable(u, b, info.interfaces[k]);
        AssignableTransitive(u, a, b, info.interfaces[k]);
      }
    }
  }

  /** A concrete class with a default constructor and no IChildOf<> parents. */
  function ClassInfo(name: string, base: TypeId, interfaces: seq<TypeId>): TypeInfo
  {
    TypeInfo(name, name, false, false, true, false, Some(base), interfaces, [], 0, [])
  }

  function InterfaceInfo(name: string, interfaces: seq<TypeId>): TypeInfo
  {
    TypeInfo(name, name, true, true, false, false, None, interfaces, [], 0, [])
  }

  function ObjectInfo(): TypeInfo
  {
    TypeInfo("Object", "System.Object", false, false, true, false, None, [], [], 0, [])
  }
}
