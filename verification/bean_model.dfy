/**
 * The read-only bean model the emitter walks: types, properties, beans, the
 * lookup of a bean by type, and the ancestor depth that makes the
 * ancestor-first recursion terminate.
 */
module BeanModel {
  import opened Wrappers

  /**
   * A type reference: a generic reference carries its base symbol and its
   * type arguments; every other reference is identified by its rendering.
   */
  datatype TsType = Plain(text: string) | Generic(symbol: string, args: seq<TsType>)

  datatype Property = Property(name: string, tsType: TsType)

  datatype Bean = Bean(name: TsType, parent: Option<TsType>, properties: seq<Property>)

  /**
   * The name used to build identifiers: the generic symbol for a generic
   * reference, the rendering otherwise.  Type arguments never take part.
   */
  function SimpleName(t: TsType): (r: string)
    ensures t.Generic? ==> r == t.symbol
    ensures t.Plain? ==> r == t.text
  {
    match t
    case Generic(symbol, _) => symbol
    case Plain(text) => text
  }

  /** Two generic references to the same symbol share the simple name, whatever their arguments. */
  lemma SimpleNameIgnoresArguments(symbol: string, a: seq<TsType>, b: seq<TsType>)
    ensures SimpleName(Generic(symbol, a)) == SimpleName(Generic(symbol, b)) == symbol
  {
  }

  /** Scan of `beans[from..]` for the first bean named `t`. */
  function FindFrom(beans: seq<Bean>, t: TsType, from: nat): (r: Option<nat>)
    requires from <= |beans|
    ensures r.Some? ==> from <= r.value < |beans| && beans[r.value].name == t
    ensures r.Some? ==> forall j :: from <= j < r.value ==> beans[j].name != t
    ensures r.None? <==> forall j :: from <= j < |beans| ==> beans[j].name != t
    decreases |beans| - from
  {
    if from == |beans| then None
    else if beans[from].name == t then Some(from)
    else FindFrom(beans, t, from + 1)
  }

  /** `getBeanModelByType`: the first bean whose name equals `t`, if any. */
  function Lookup(beans: seq<Bean>, t: TsType): (r: Option<nat>)
    ensures r.Some? ==> r.value < |beans| && beans[r.value].name == t
    ensures r.Some? ==> forall j :: 0 <= j < r.value ==> beans[j].name != t
    ensures r.None? <==> forall j :: 0 <= j < |beans| ==> beans[j].name != t
  {
    FindFrom(beans, t, 0)
  }

  /**
   * The bean the parent reference of bean `i` resolves to; none when the
   * reference is absent (a lookup of `null` matches no bean) or matches no bean.
   */
  function ParentOf(beans: seq<Bean>, i: nat): (r: Option<nat>)
    requires i < |beans|
    ensures r.Some? ==> r.value < |beans| && beans[i].parent == Some(beans[r.value].name)
    ensures r.Some? ==> forall j :: 0 <= j < r.value ==> beans[j].name != beans[i].parent.value
    ensures r.None? <==> beans[i].parent.None? || forall j :: 0 <= j < |beans| ==> beans[j].name != beans[i].parent.value
  {
    match beans[i].parent
    case None => None
    case Some(t) => Lookup(beans, t)
  }

  /**
   * Number of resolved ancestors of bean `i`, when the chain of parents ends
   * within `fuel` steps; none when it does not.
   */
  function AncestorCount(beans: seq<Bean>, i: nat, fuel: nat): Option<nat>
    requires i < |beans|
    decreases fuel
  {
    match ParentOf(beans, i)
    case None => Some(0)
    case Some(p) =>
      if fuel == 0 then None
      else
        match AncestorCount(beans, p, fuel - 1)
        case None => None
        case Some(d) => Some(d + 1)
  }

  /** More fuel never changes a count that was already reached. */
  lemma {:induction false} AncestorCountMonotone(beans: seq<Bean>, i: nat, fuel: nat, more: nat)
    requires i < |beans| && fuel <= more
    requires AncestorCount(beans, i, fuel).Some?
    ensures AncestorCount(beans, i, more) == AncestorCount(beans, i, fuel)
    decreases fuel
  {
    match ParentOf(beans, i)
    case None =>
    case Some(p) =>
      AncestorCountMonotone(beans, p, fuel - 1, more - 1);
  }

  /**
   * No bean is its own ancestor: every chain of resolved parents reaches a
   * bean without one within as many steps as there are beans.
   */
  predicate Acyclic(beans: seq<Bean>) {
    forall i :: 0 <= i < |beans| ==> AncestorCount(beans, i, |beans|).Some?
  }

  /** The number of resolved ancestors of bean `i`. */
  function Depth(beans: seq<Bean>, i: nat): nat
    requires Acyclic(beans) && i < |beans|
  {
    AncestorCount(beans, i, |beans|).value
  }

  /** A bean is exactly one level deeper than its resolved parent. */
  lemma DepthOfParent(beans: seq<Bean>, i: nat)
    requires Acyclic(beans) && i < |beans|
    ensures ParentOf(beans, i).None? <==> Depth(beans, i) == 0
    ensures ParentOf(beans, i).Some? ==> Depth(beans, ParentOf(beans, i).value) + 1 == Depth(beans, i)
  {
    if ParentOf(beans, i).Some? {
      var p := ParentOf(beans, i).value;
      assert AncestorCount(beans, i, |beans|).Some?;
      assert AncestorCount(beans, p, |beans| - 1).Some?;
      AncestorCountMonotone(beans, p, |beans| - 1, |beans|);
    }
  }

  lemma ParentIsShallower(beans: seq<Bean>, i: nat, p: nat)
    requires Acyclic(beans) && i < |beans| && ParentOf(beans, i) == Some(p)
    ensures Depth(beans, p) < Depth(beans, i)
  {
    DepthOfParent(beans, i);
  }

  /** The `k`-th resolved ancestor of bean `i` (the bean itself for `k == 0`). */
  function Ancestor(beans: seq<Bean>, i: nat, k: nat): (r: Option<nat>)
    requires i < |beans|
    ensures r.Some? ==> r.value < |beans|
    decreases k
  {
    if k == 0 then Some(i)
    else
      match ParentOf(beans, i)
      case None => None
      case Some(p) => Ancestor(beans, p, k - 1)
  }

  /** In an acyclic model each ancestor is strictly shallower, so no bean is its own ancestor. */
  lemma {:induction false} AncestorIsShallower(beans: seq<Bean>, i: nat, k: nat)
    requires Acyclic(beans) && i < |beans| && 0 < k
    requires Ancestor(beans, i, k).Some?
    ensures Depth(beans, Ancestor(beans, i, k).value) + k == Depth(beans, i)
    ensures Ancestor(beans, i, k) != Some(i)
    decreases k
  {
    var p := ParentOf(beans, i).value;
    DepthOfParent(beans, i);
    if k > 1 {
      AncestorIsShallower(beans, p, k - 1);
    }
  }
}
