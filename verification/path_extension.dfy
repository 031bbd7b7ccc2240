/**
 * The bean property path emitter: the `Fields` base class, one
 * `<Simple>Fields` class per bean written ancestor-first and at most once,
 * then one singleton constant per bean.
 */
module PathExtension {
  import opened Wrappers
  import opened Text
  import opened BeanModel
  import opened FieldsTemplate

  /** What a writing step produced: the lines, and the beans whose class blocks they hold. */
  datatype Emission = Emission(lines: seq<string>, written: set<nat>)

  /** Every entry of `order` names a bean of the model. */
  predicate InRange(beans: seq<Bean>, order: seq<nat>) {
    forall k :: 0 <= k < |order| ==> order[k] < |beans|
  }

  predicate Distinct(order: seq<nat>) {
    forall a, b :: 0 <= a < b < |order| ==> order[a] != order[b]
  }

  function Elements(order: seq<nat>): set<nat> {
    set k | k in order
  }

  lemma ElementsAppend(a: seq<nat>, b: seq<nat>)
    ensures Elements(a + b) == Elements(a) + Elements(b)
  {
  }

  /** `writeBeanProperty`: the field line of property `p`. */
  function PropertyLine(beans: seq<Bean>, indent: string, p: Property): (r: string)
    ensures Lookup(beans, p.tsType).Some? ==>
      r == indent + p.name + " = new " + SimpleName(beans[Lookup(beans, p.tsType).value].name)
           + "Fields(this, \"" + p.name + "\");"
    ensures Lookup(beans, p.tsType).None? ==>
      r == indent + p.name + " = new Fields(this, \"" + p.name + "\");"
  {
    var fieldBean := Lookup(beans, p.tsType);
    var fieldClassName := if fieldBean.Some? then SimpleName(beans[fieldBean.value].name) else "";
    assert fieldBean.None? ==> " = new " + fieldClassName + "Fields(this, \"" == " = new Fields(this, \"";
    indent + p.name + " = new " + fieldClassName + "Fields(this, \"" + p.name + "\");"
  }

  /**
   * The class header of bean `i`: it extends the class of its resolved parent,
   * and `Fields` itself when the parent is absent or matches no bean.
   */
  function Header(beans: seq<Bean>, i: nat): (r: string)
    requires i < |beans|
    ensures ParentOf(beans, i).Some? ==>
      r == "class " + SimpleName(beans[i].name) + "Fields extends "
           + SimpleName(beans[ParentOf(beans, i).value].name) + "Fields {"
    ensures ParentOf(beans, i).None? ==>
      r == "class " + SimpleName(beans[i].name) + "Fields extends Fields {"
  {
    var parentBean := ParentOf(beans, i);
    var parentClassName := if parentBean.Some? then SimpleName(beans[parentBean.value].name) + "Fields" else "Fields";
    "class " + SimpleName(beans[i].name) + "Fields extends " + parentClassName + " {"
  }

  /**
   * The forwarding constructor every generated class carries: the base
   * constructor's own line from the template, re-indented, with a body that
   * passes both arguments on to `Fields`.
   */
  function ConstructorLine(indent: string): (r: string)
    ensures r == indent + Template[3][|Unit|..] + " super(parent, name); }"
  {
    TemplateConstructorLine();
    indent + (Signature + " {") + " super(parent, name); }"
  }

  /**
   * The class block of bean `i`: a blank line, the header, the constructor,
   * one field line per property in declared order, and the closing brace.
   */
  function ClassBlock(beans: seq<Bean>, indent: string, i: nat): (r: seq<string>)
    requires i < |beans|
    ensures |r| == 4 + |beans[i].properties|
    ensures r[0] == "" && r[1] == Header(beans, i) && r[2] == ConstructorLine(indent)
    ensures forall j :: 0 <= j < |beans[i].properties| ==>
      r[3 + j] == PropertyLine(beans, indent, beans[i].properties[j])
    ensures r[|r| - 1] == "}"
  {
    var props := beans[i].properties;
    ["", Header(beans, i), ConstructorLine(indent)]
      + seq(|props|, j requires 0 <= j < |props| => PropertyLine(beans, indent, props[j]))
      + ["}"]
  }

  /** The class blocks of the beans in `order`, one after another. */
  function Blocks(beans: seq<Bean>, indent: string, order: seq<nat>): seq<string>
    requires InRange(beans, order)
  {
    if |order| == 0 then []
    else Blocks(beans, indent, order[..|order| - 1]) + ClassBlock(beans, indent, order[|order| - 1])
  }

  lemma {:induction false} BlocksAppend(beans: seq<Bean>, indent: string, a: seq<nat>, b: seq<nat>)
    requires InRange(beans, a) && InRange(beans, b)
    ensures InRange(beans, a + b)
    ensures Blocks(beans, indent, a + b) == Blocks(beans, indent, a) + Blocks(beans, indent, b)
    decreases |b|
  {
    if |b| > 0 {
      var b' := b[..|b| - 1];
      assert (a + b)[..|a + b| - 1] == a + b';
      BlocksAppend(beans, indent, a, b');
    } else {
      assert a + b == a;
    }
  }

  lemma BlocksSnoc(beans: seq<Bean>, indent: string, order: seq<nat>, i: nat)
    requires InRange(beans, order) && i < |beans|
    ensures InRange(beans, order + [i])
    ensures Blocks(beans, indent, order + [i]) == Blocks(beans, indent, order) + ClassBlock(beans, indent, i)
  {
    assert (order + [i])[..|order|] == order;
  }

  /**
   * The shape of the chain one `writeBeanAndParentsFieldSpecs` call writes
   * for bean `i`: fresh beans of the model, none twice, each the resolved
   * parent of the next, the first one's parent absent or already emitted, the
   * last one `i`, and nothing at all when `i` was emitted already.
   */
  predicate ChainShape(beans: seq<Bean>, emitted: set<nat>, i: nat, order: seq<nat>)
    requires Acyclic(beans) && i < |beans|
  {
    && InRange(beans, order)
    && (forall k :: 0 <= k < |order| ==> order[k] !in emitted)
    && (i in emitted ==> order == [])
    && (i !in emitted ==> |order| > 0 && order[|order| - 1] == i)
    && (forall k :: 0 < k < |order| ==> ParentOf(beans, order[k]) == Some(order[k - 1]))
    && (|order| > 0 ==> ParentOf(beans, order[0]).None? || ParentOf(beans, order[0]).value in emitted)
    && (forall k :: 0 <= k < |order| ==> Depth(beans, order[k]) <= Depth(beans, i))
    && Distinct(order)
  }

  /**
   * Reference order of the class blocks one `writeBeanAndParentsFieldSpecs`
   * call writes for bean `i`: nothing when `i` was emitted already, otherwise
   * the not yet emitted ancestors from the outermost down, then `i` itself.
   */
  function ChainOrder(beans: seq<Bean>, emitted: set<nat>, i: nat): (order: seq<nat>)
    requires Acyclic(beans) && i < |beans|
    ensures ChainShape(beans, emitted, i, order)
    decreases Depth(beans, i)
  {
    if i in emitted then []
    else
      match ParentOf(beans, i)
      case None => [i]
      case Some(p) =>
        ParentIsShallower(beans, i, p);
        var above := ChainOrder(beans, emitted, p);
        ChainStep(beans, emitted, i, p, above);
        above + [i]
  }

  /** Appending bean `i` to a chain ending in its parent `p` keeps the chain's shape. */
  lemma ChainStep(beans: seq<Bean>, emitted: set<nat>, i: nat, p: nat, above: seq<nat>)
    requires Acyclic(beans) && i < |beans| && i !in emitted && ParentOf(beans, i) == Some(p)
    requires ChainShape(beans, emitted, p, above)
    ensures ChainShape(beans, emitted, i, above + [i])
  {
    DepthOfParent(beans, i);
    var order := above + [i];
    forall k | 0 <= k < |order| ensures order[k] < |beans| && order[k] !in emitted {
      if k < |above| {
        assert order[k] == above[k];
      }
    }
    if |above| > 0 {
      assert order[0] == above[0];
    }
    forall k | 0 <= k < |above| ensures order[k] != i {
      assert Depth(beans, above[k]) < Depth(beans, i);
    }
    forall k | 0 < k < |order| ensures ParentOf(beans, order[k]) == Some(order[k - 1]) {
      if k < |above| {
        assert order[k] == above[k] && order[k - 1] == above[k - 1];
      }
    }
    forall k | 0 <= k < |order| ensures Depth(beans, order[k]) <= Depth(beans, i) {
      if k < |above| {
        assert order[k] == above[k];
      }
    }
    forall x, y | 0 <= x < y < |order| ensures order[x] != order[y] {
      if y < |above| {
        assert order[x] == above[x] && order[y] == above[y];
      } else {
        assert order[y] == i && order[x] == above[x];
      }
    }
  }

  /** Read backwards, `order` lists bean `i` and then its successive resolved ancestors. */
  predicate AncestorsOf(beans: seq<Bean>, i: nat, order: seq<nat>)
    requires i < |beans|
  {
    forall k :: 0 <= k < |order| ==> Ancestor(beans, i, |order| - 1 - k) == Some(order[k])
  }

  /**
   * The beans one call writes are exactly the bean and its nearest resolved
   * ancestors, up to (not including) the first emitted one or the root.
   */
  lemma {:induction false} ChainOrderIsAncestors(beans: seq<Bean>, emitted: set<nat>, i: nat)
    requires Acyclic(beans) && i < |beans|
    ensures AncestorsOf(beans, i, ChainOrder(beans, emitted, i))
    decreases Depth(beans, i)
  {
    if i !in emitted && ParentOf(beans, i).Some? {
      var p := ParentOf(beans, i).value;
      ParentIsShallower(beans, i, p);
      ChainOrderIsAncestors(beans, emitted, p);
      AncestorsOfSnoc(beans, i, p, ChainOrder(beans, emitted, p));
    }
  }

  /** Bean `i` appended to its parent's ancestor list gives its own. */
  lemma AncestorsOfSnoc(beans: seq<Bean>, i: nat, p: nat, above: seq<nat>)
    requires i < |beans| && ParentOf(beans, i) == Some(p)
    requires AncestorsOf(beans, p, above)
    ensures AncestorsOf(beans, i, above + [i])
  {
    var order := above + [i];
    forall k | 0 <= k < |order|
      ensures Ancestor(beans, i, |order| - 1 - k) == Some(order[k])
    {
      if k < |above| {
        assert Ancestor(beans, i, |order| - 1 - k) == Ancestor(beans, p, |above| - 1 - k);
        assert order[k] == above[k];
      }
    }
  }

  /** The chain of a parentless bean that was not emitted is the bean alone. */
  lemma ChainOfRoot(beans: seq<Bean>, indent: string, emitted: set<nat>, i: nat)
    requires Acyclic(beans) && i < |beans| && i !in emitted
    requires ParentOf(beans, i).None?
    ensures Blocks(beans, indent, ChainOrder(beans, emitted, i)) == ClassBlock(beans, indent, i)
    ensures Elements(ChainOrder(beans, emitted, i)) == {i}
  {
    RootChainOrder(beans, emitted, i);
    BlocksSnoc(beans, indent, [], i);
  }

  /** A parentless bean not yet emitted forms a chain of its own. */
  lemma RootChainOrder(beans: seq<Bean>, emitted: set<nat>, i: nat)
    requires Acyclic(beans) && i < |beans| && i !in emitted
    requires ParentOf(beans, i).None?
    ensures ChainOrder(beans, emitted, i) == [] + [i]
  {
  }

  /** The chain of a bean with parent `p` extends the chain of `p` by the bean. */
  lemma ChainOfChild(beans: seq<Bean>, indent: string, emitted: set<nat>, i: nat, p: nat)
    requires Acyclic(beans) && i < |beans| && i !in emitted
    requires ParentOf(beans, i) == Some(p)
    ensures Depth(beans, p) < Depth(beans, i)
    ensures Blocks(beans, indent, ChainOrder(beans, emitted, i))
      == Blocks(beans, indent, ChainOrder(beans, emitted, p)) + ClassBlock(beans, indent, i)
    ensures Elements(ChainOrder(beans, emitted, i)) == Elements(ChainOrder(beans, emitted, p)) + {i}
  {
    DepthOfParent(beans, i);
    var above := ChainOrder(beans, emitted, p);
    assert ChainOrder(beans, emitted, i) == above + [i];
    BlocksSnoc(beans, indent, above, i);
    ElementsAppend(above, [i]);
  }

  /** The beans of one call's chain are new, and include the bean itself unless it was emitted. */
  lemma ChainElements(beans: seq<Bean>, emitted: set<nat>, i: nat)
    requires Acyclic(beans) && i < |beans|
    ensures Elements(ChainOrder(beans, emitted, i)) !! emitted
    ensures i !in emitted ==> i in Elements(ChainOrder(beans, emitted, i))
  {
    var order := ChainOrder(beans, emitted, i);
    if i !in emitted {
      assert order[|order| - 1] == i;
    }
  }

  /**
   * `writeBeanAndParentsFieldSpecs`: writes the class blocks of the bean and
   * of its not yet emitted ancestors, ancestors first, and returns the beans
   * it wrote.  The recursion passes `emittedSoFar` on unchanged.
   */
  function WriteBeanAndParents(beans: seq<Bean>, indent: string, emittedSoFar: set<nat>, i: nat): (r: Emission)
    requires Acyclic(beans) && i < |beans|
    ensures r.lines == Blocks(beans, indent, ChainOrder(beans, emittedSoFar, i))
    ensures r.written == Elements(ChainOrder(beans, emittedSoFar, i))
    ensures i in emittedSoFar ==> r == Emission([], {})
    ensures i !in emittedSoFar ==> i in r.written && r.written !! emittedSoFar
    decreases Depth(beans, i)
  {
    ChainElements(beans, emittedSoFar, i);
    if i in emittedSoFar then Emission([], {})
    else
      match ParentOf(beans, i)
      case None =>
        ChainOfRoot(beans, indent, emittedSoFar, i);
        Emission(ClassBlock(beans, indent, i), {i})
      case Some(p) =>
        ChainOfChild(beans, indent, emittedSoFar, i, p);
        var fromParent := WriteBeanAndParents(beans, indent, emittedSoFar, p);
        Emission(fromParent.lines + ClassBlock(beans, indent, i), fromParent.written + {i})
  }

  /**
   * Every entry of `order` whose parent resolves finds that parent either
   * among `emitted` or earlier in `order`.
   */
  predicate ParentsFirst(beans: seq<Bean>, order: seq<nat>, emitted: set<nat>)
    requires InRange(beans, order)
  {
    forall k :: 0 <= k < |order| && ParentOf(beans, order[k]).Some? ==>
      ParentOf(beans, order[k]).value in emitted || ParentOf(beans, order[k]).value in order[..k]
  }

  lemma ChainParentsFirst(beans: seq<Bean>, emitted: set<nat>, i: nat)
    requires Acyclic(beans) && i < |beans|
    ensures ParentsFirst(beans, ChainOrder(beans, emitted, i), emitted)
  {
    var chain := ChainOrder(beans, emitted, i);
    forall k | 0 < k < |chain|
      ensures chain[k - 1] in chain[..k]
    {
      assert chain[..k][k - 1] == chain[k - 1];
    }
  }

  /** Writing `a` and then `b` (with `a` counted as emitted) writes parents first. */
  lemma {:induction false} ConcatParentsFirst(beans: seq<Bean>, a: seq<nat>, b: seq<nat>, emitted: set<nat>)
    requires InRange(beans, a) && InRange(beans, b)
    requires ParentsFirst(beans, a, emitted) && ParentsFirst(beans, b, emitted + Elements(a))
    ensures InRange(beans, a + b)
    ensures ParentsFirst(beans, a + b, emitted)
  {
    var order := a + b;
    forall k | 0 <= k < |order| && ParentOf(beans, order[k]).Some?
      ensures ParentOf(beans, order[k]).value in emitted || ParentOf(beans, order[k]).value in order[..k]
    {
      var p := ParentOf(beans, order[k]).value;
      if k < |a| {
        assert order[k] == a[k];
        assert order[..k] == a[..k];
      } else {
        assert order[k] == b[k - |a|];
        assert order[..k] == a + b[..k - |a|];
        if p in Elements(a) {
          assert p in a;
        }
      }
    }
  }

  lemma {:induction false} ConcatDistinct(a: seq<nat>, b: seq<nat>)
    requires Distinct(a) && Distinct(b)
    requires forall k :: 0 <= k < |b| ==> b[k] !in Elements(a)
    ensures Distinct(a + b)
  {
    var order := a + b;
    forall x, y | 0 <= x < y < |order| ensures order[x] != order[y] {
      if y >= |a| && x < |a| {
        assert order[y] == b[y - |a|];
        assert order[x] in a;
      } else if x >= |a| {
        assert order[x] == b[x - |a|] && order[y] == b[y - |a|];
      }
    }
  }

  /**
   * The properties `PassOrder` promises, for an order covering beans `from`
   * onwards when `emitted` was written before.
   */
  predicate PassShape(beans: seq<Bean>, from: nat, emitted: set<nat>, order: seq<nat>) {
    && InRange(beans, order)
    && (forall k :: 0 <= k < |order| ==> order[k] !in emitted)
    && Distinct(order)
    && (forall j :: from <= j < |beans| ==> j in emitted || j in order)
    && ParentsFirst(beans, order, emitted)
  }

  /** Concatenating fresh orders keeps every entry outside `emitted`. */
  lemma ConcatFresh(a: seq<nat>, b: seq<nat>, emitted: set<nat>)
    requires forall k :: 0 <= k < |a| ==> a[k] !in emitted
    requires forall k :: 0 <= k < |b| ==> b[k] !in emitted + Elements(a)
    ensures forall k :: 0 <= k < |a + b| ==> (a + b)[k] !in emitted
  {
    forall k | 0 <= k < |a + b| ensures (a + b)[k] !in emitted {
      if k >= |a| {
        assert (a + b)[k] == b[k - |a|];
      }
    }
  }

  /** Coverage of bean `from` and of the later beans gives coverage from `from` on. */
  lemma ConcatCovers(beans: seq<Bean>, from: nat, emitted: set<nat>, a: seq<nat>, b: seq<nat>)
    requires from < |beans| && (from in emitted || from in a)
    requires forall j :: from + 1 <= j < |beans| ==> j in emitted + Elements(a) || j in b
    ensures forall j :: from <= j < |beans| ==> j in emitted || j in a + b
  {
    forall j | from <= j < |beans| ensures j in emitted || j in a + b {
      if j !in emitted {
        if j in a {
          var k :| 0 <= k < |a| && a[k] == j;
          assert (a + b)[k] == j;
        } else {
          assert j in b;
          var k :| 0 <= k < |b| && b[k] == j;
          assert (a + b)[|a| + k] == j;
        }
      }
    }
  }

  /** One loop step: bean `from`'s chain followed by an order for the later beans. */
  lemma PassStep(beans: seq<Bean>, from: nat, emitted: set<nat>, rest: seq<nat>)
    requires Acyclic(beans) && from < |beans|
    requires PassShape(beans, from + 1, emitted + Elements(ChainOrder(beans, emitted, from)), rest)
    ensures PassShape(beans, from, emitted, ChainOrder(beans, emitted, from) + rest)
  {
    var chain := ChainOrder(beans, emitted, from);
    ChainParentsFirst(beans, emitted, from);
    ConcatParentsFirst(beans, chain, rest, emitted);
    ConcatDistinct(chain, rest);
    ConcatFresh(chain, rest, emitted);
    ChainElements(beans, emitted, from);
    ConcatCovers(beans, from, emitted, chain, rest);
  }

  /**
   * Reference order of all class blocks written by the first loop of
   * `emitElements`, from bean `from` on, with `emitted` written before.
   */
  function PassOrder(beans: seq<Bean>, from: nat, emitted: set<nat>): (order: seq<nat>)
    requires Acyclic(beans) && from <= |beans|
    ensures InRange(beans, order)
    ensures forall k :: 0 <= k < |order| ==> order[k] !in emitted
    ensures Distinct(order)
    ensures forall j :: from <= j < |beans| ==> j in emitted || j in order
    ensures ParentsFirst(beans, order, emitted)
    decreases |beans| - from
  {
    if from == |beans| then []
    else
      var chain := ChainOrder(beans, emitted, from);
      var rest := PassOrder(beans, from + 1, emitted + Elements(chain));
      PassStep(beans, from, emitted, rest);
      chain + rest
  }

  /** The blocks and beans of the pass from `from` split into those of `from`'s chain and the rest. */
  lemma PassOrderStep(beans: seq<Bean>, indent: string, from: nat, emitted: set<nat>)
    requires Acyclic(beans) && from < |beans|
    ensures var chain := ChainOrder(beans, emitted, from);
      var later := PassOrder(beans, from + 1, emitted + Elements(chain));
      && Blocks(beans, indent, PassOrder(beans, from, emitted))
         == Blocks(beans, indent, chain) + Blocks(beans, indent, later)
      && Elements(PassOrder(beans, from, emitted)) == Elements(chain) + Elements(later)
  {
    var chain := ChainOrder(beans, emitted, from);
    var later := PassOrder(beans, from + 1, emitted + Elements(chain));
    assert PassOrder(beans, from, emitted) == chain + later;
    BlocksAppend(beans, indent, chain, later);
    ElementsAppend(chain, later);
  }

  /** One loop step of the writer: the chain's write followed by the rest of the pass. */
  lemma EmitStep(beans: seq<Bean>, indent: string, from: nat, emitted: set<nat>, w: Emission, rest: Emission)
    requires Acyclic(beans) && from < |beans|
    requires w.lines == Blocks(beans, indent, ChainOrder(beans, emitted, from))
    requires w.written == Elements(ChainOrder(beans, emitted, from))
    requires rest.lines == Blocks(beans, indent, PassOrder(beans, from + 1, emitted + w.written))
    requires rest.written == emitted + w.written + Elements(PassOrder(beans, from + 1, emitted + w.written))
    ensures w.lines + rest.lines == Blocks(beans, indent, PassOrder(beans, from, emitted))
    ensures rest.written == emitted + Elements(PassOrder(beans, from, emitted))
  {
    PassOrderStep(beans, indent, from, emitted);
    var chain := ChainOrder(beans, emitted, from);
    var later := PassOrder(beans, from + 1, emitted + w.written);
    UnionAssoc(emitted, Elements(chain), Elements(later));
  }

  /** A union of three sets may be regrouped. */
  lemma UnionAssoc(a: set<nat>, b: set<nat>, c: set<nat>)
    ensures a + b + c == a + (b + c)
  {
  }

  /**
   * The first loop of `emitElements` from bean `from` on: each bean's
   * ancestor-first write, with the returned beans added to the emitted set.
   */
  function EmitBeans(beans: seq<Bean>, indent: string, from: nat, emitted: set<nat>): (r: Emission)
    requires Acyclic(beans) && from <= |beans|
    ensures r.lines == Blocks(beans, indent, PassOrder(beans, from, emitted))
    ensures r.written == emitted + Elements(PassOrder(beans, from, emitted))
    decreases |beans| - from
  {
    if from == |beans| then Emission([], emitted)
    else
      var w := WriteBeanAndParents(beans, indent, emitted, from);
      var rest := EmitBeans(beans, indent, from + 1, emitted + w.written);
      EmitStep(beans, indent, from, emitted, w, rest);
      Emission(w.lines + rest.lines, rest.written)
  }

  /** The order in which one `emitElements` pass writes the class blocks. */
  function Order(beans: seq<Bean>): seq<nat>
    requires Acyclic(beans)
  {
    PassOrder(beans, 0, {})
  }

  /** `createBeanFieldConstant`: the singleton constant of a bean. */
  function ConstantLine(bean: Bean, exportKeyword: bool): (r: string)
    ensures exportKeyword ==>
      r == "export const " + SimpleName(bean.name) + " = new " + SimpleName(bean.name) + "Fields();"
    ensures !exportKeyword ==>
      r == "const " + SimpleName(bean.name) + " = new " + SimpleName(bean.name) + "Fields();"
  {
    (if exportKeyword then "export " else "")
      + "const " + SimpleName(bean.name) + " = new " + SimpleName(bean.name) + "Fields();"
  }

  /** The second loop of `emitElements`: one constant per bean, in model order. */
  function ConstantLines(beans: seq<Bean>, exportKeyword: bool): (r: seq<string>)
    ensures |r| == |beans|
    ensures forall k :: 0 <= k < |beans| ==> r[k] == ConstantLine(beans[k], exportKeyword)
  {
    if |beans| == 0 then []
    else ConstantLines(beans[..|beans| - 1], exportKeyword) + [ConstantLine(beans[|beans| - 1], exportKeyword)]
  }

  /**
   * `emitElements`: the `Fields` class, then the class blocks in `Order`,
   * then the constants.
   */
  function EmitElements(beans: seq<Bean>, indent: string, exportKeyword: bool): (r: seq<string>)
    requires Acyclic(beans)
    ensures r == EmitFieldsClass(indent) + Blocks(beans, indent, Order(beans)) + ConstantLines(beans, exportKeyword)
  {
    var classes := EmitBeans(beans, indent, 0, {});
    EmitFieldsClass(indent) + classes.lines + ConstantLines(beans, exportKeyword)
  }

  /** With no beans the output is the blank line and the `Fields` class, nothing else. */
  lemma EmptyModelEmitsOnlyFieldsClass(indent: string, exportKeyword: bool)
    ensures EmitElements([], indent, exportKeyword) == EmitFieldsClass(indent)
    ensures EmitElements([], Unit, exportKeyword) == [""] + Template
  {
    FieldsClassVerbatim();
  }

  /** The indices `0 .. n - 1`. */
  function Range(n: nat): (r: set<nat>)
    ensures forall k: nat :: k in r <==> k < n
  {
    if n == 0 then {}
    else
      Range(n - 1) + {n - 1}
  }

  lemma {:induction false} RangeCardinality(n: nat)
    ensures |Range(n)| == n
  {
    if n > 0 {
      RangeCardinality(n - 1);
    }
  }

  lemma {:induction false} DistinctCardinality(order: seq<nat>)
    requires Distinct(order)
    ensures |Elements(order)| == |order|
  {
    if |order| > 0 {
      var init := order[..|order| - 1];
      DistinctCardinality(init);
      assert Elements(order) == Elements(init) + {order[|order| - 1]};
    }
  }

  /**
   * Every bean's class block is written exactly once per pass: the order is
   * a permutation of the bean indices, and the emitted set ends up holding
   * every bean.
   */
  lemma OrderIsPermutation(beans: seq<Bean>, indent: string)
    requires Acyclic(beans)
    ensures |Order(beans)| == |beans|
    ensures Distinct(Order(beans))
    ensures Elements(Order(beans)) == Range(|beans|)
    ensures EmitBeans(beans, indent, 0, {}).written == Range(|beans|)
  {
    var order := Order(beans);
    assert Elements(order) == Range(|beans|);
    DistinctCardinality(order);
    RangeCardinality(|beans|);
  }

  /** The first position of `x` in `s`. */
  function IndexOf(s: seq<nat>, x: nat): (r: nat)
    requires x in s
    ensures r < |s| && s[r] == x
    ensures forall j :: 0 <= j < r ==> s[j] != x
  {
    if s[0] == x then 0 else 1 + IndexOf(s[1..], x)
  }

  /** A resolved parent's class block comes before its child's in the order. */
  lemma ParentPrecedesChildInOrder(beans: seq<Bean>, i: nat)
    requires Acyclic(beans) && i < |beans|
    requires ParentOf(beans, i).Some?
    ensures i in Order(beans) && ParentOf(beans, i).value in Order(beans)
    ensures IndexOf(Order(beans), ParentOf(beans, i).value) < IndexOf(Order(beans), i)
  {
    var order := Order(beans);
    var p := ParentOf(beans, i).value;
    assert i in order;
    var k := IndexOf(order, i);
    assert p in order[..k];
    var m := IndexOf(order[..k], p);
    assert order[m] == p;
    if IndexOf(order, p) > m {
      assert false;
    }
  }

  /** Line offset of the `k`-th class block in `Blocks(order)`. */
  function Offset(beans: seq<Bean>, indent: string, order: seq<nat>, k: nat): nat
    requires InRange(beans, order) && k <= |order|
  {
    |Blocks(beans, indent, order[..k])|
  }

  /** `out` holds `block` starting at line `at`. */
  predicate LinesAt(out: seq<string>, at: nat, block: seq<string>) {
    at + |block| <= |out| && out[at .. at + |block|] == block
  }

  lemma BlocksSplit(beans: seq<Bean>, indent: string, order: seq<nat>, k: nat)
    requires InRange(beans, order) && k < |order|
    ensures Blocks(beans, indent, order)
      == Blocks(beans, indent, order[..k]) + ClassBlock(beans, indent, order[k]) + Blocks(beans, indent, order[k + 1..])
  {
    var head, tail := order[..k + 1], order[k + 1..];
    assert order == head + tail;
    assert head == order[..k] + [order[k]];
    BlocksSnoc(beans, indent, order[..k], order[k]);
    BlocksAppend(beans, indent, head, tail);
  }

  /** `Blocks(order)` holds the `k`-th class block at its offset. */
  lemma BlockAtOffset(beans: seq<Bean>, indent: string, order: seq<nat>, k: nat)
    requires InRange(beans, order) && k < |order|
    ensures LinesAt(Blocks(beans, indent, order), Offset(beans, indent, order, k), ClassBlock(beans, indent, order[k]))
  {
    BlocksSplit(beans, indent, order, k);
    var before, block := Blocks(beans, indent, order[..k]), ClassBlock(beans, indent, order[k]);
    var all := Blocks(beans, indent, order);
    assert all[|before| .. |before| + |block|] == block;
  }

  /** An earlier class block ends before a later one starts. */
  lemma OffsetsIncrease(beans: seq<Bean>, indent: string, order: seq<nat>, m: nat, k: nat)
    requires InRange(beans, order) && m < k <= |order|
    ensures Offset(beans, indent, order, m) + |ClassBlock(beans, indent, order[m])| <= Offset(beans, indent, order, k)
  {
    var front, middle := order[..m + 1], order[m + 1..k];
    assert order[..k] == front + middle;
    assert front == order[..m] + [order[m]];
    BlocksSnoc(beans, indent, order[..m], order[m]);
    BlocksAppend(beans, indent, front, middle);
  }

  lemma LinesAtShift(head: seq<string>, mid: seq<string>, tail: seq<string>, at: nat, block: seq<string>)
    requires LinesAt(mid, at, block)
    ensures LinesAt(head + mid + tail, |head| + at, block)
  {
    var out := head + mid + tail;
    assert out[|head| + at .. |head| + at + |block|] == mid[at .. at + |block|];
  }

  /** Line at which the `k`-th class block of the order starts in the output of `emitElements`. */
  function BlockLine(beans: seq<Bean>, indent: string, k: nat): nat
    requires Acyclic(beans) && k <= |Order(beans)|
  {
    1 + |Template| + Offset(beans, indent, Order(beans), k)
  }

  /** The `k`-th class block of the order sits at its line in the output of `emitElements`. */
  lemma OrderBlockInOutput(beans: seq<Bean>, indent: string, exportKeyword: bool, k: nat)
    requires Acyclic(beans) && k < |Order(beans)|
    ensures LinesAt(EmitElements(beans, indent, exportKeyword), BlockLine(beans, indent, k),
                    ClassBlock(beans, indent, Order(beans)[k]))
  {
    var order := Order(beans);
    BlockAtOffset(beans, indent, order, k);
    var head, blocks, tail := EmitFieldsClass(indent), Blocks(beans, indent, order), ConstantLines(beans, exportKeyword);
    LinesAtShift(head, blocks, tail, Offset(beans, indent, order, k), ClassBlock(beans, indent, order[k]));
  }

  /**
   * In the output of `emitElements`, the class block of a bean's resolved
   * parent lies entirely before the bean's own class block.
   */
  lemma ParentBlockPrecedesChild(beans: seq<Bean>, indent: string, exportKeyword: bool, i: nat)
    requires Acyclic(beans) && i < |beans|
    requires ParentOf(beans, i).Some?
    ensures i in Order(beans) && ParentOf(beans, i).value in Order(beans)
    ensures LinesAt(EmitElements(beans, indent, exportKeyword),
                    BlockLine(beans, indent, IndexOf(Order(beans), ParentOf(beans, i).value)),
                    ClassBlock(beans, indent, ParentOf(beans, i).value))
    ensures LinesAt(EmitElements(beans, indent, exportKeyword),
                    BlockLine(beans, indent, IndexOf(Order(beans), i)),
                    ClassBlock(beans, indent, i))
    ensures BlockLine(beans, indent, IndexOf(Order(beans), ParentOf(beans, i).value))
              + |ClassBlock(beans, indent, ParentOf(beans, i).value)|
            <= BlockLine(beans, indent, IndexOf(Order(beans), i))
  {
    var order := Order(beans);
    var p := ParentOf(beans, i).value;
    ParentPrecedesChildInOrder(beans, i);
    var m, k := IndexOf(order, p), IndexOf(order, i);
    OrderBlockInOutput(beans, indent, exportKeyword, m);
    OrderBlockInOutput(beans, indent, exportKeyword, k);
    OffsetsIncrease(beans, indent, order, m, k);
  }

  /** `line` opens the declaration of class `<name>Fields`. */
  predicate Declares(line: string, name: string) {
    var head := "class " + name + "Fields ";
    |head| <= |line| && line[..|head|] == head
  }

  /** Some line of `out` before `limit` declares class `<name>Fields`. */
  predicate DeclaredBefore(out: seq<string>, limit: nat, name: string) {
    exists k :: 0 <= k < limit && k < |out| && Declares(out[k], name)
  }

  /** Line of the output of `emitElements` holding the first constant. */
  function ConstantsLine(beans: seq<Bean>, indent: string): nat
    requires Acyclic(beans)
  {
    1 + |Template| + |Blocks(beans, indent, Order(beans))|
  }

  /** The header of bean `i` declares the class named after the bean. */
  lemma HeaderDeclares(beans: seq<Bean>, i: nat)
    requires i < |beans|
    ensures Declares(Header(beans, i), SimpleName(beans[i].name))
  {
    var name := SimpleName(beans[i].name);
    var head := "class " + name + "Fields ";
    var parentClassName :=
      if ParentOf(beans, i).Some? then SimpleName(beans[ParentOf(beans, i).value].name) + "Fields" else "Fields";
    assert "Fields extends " == "Fields " + "extends ";
    assert Header(beans, i) == head + ("extends " + parentClassName + " {");
  }

  lemma LinesAtIndex(out: seq<string>, at: nat, block: seq<string>, j: nat)
    requires LinesAt(out, at, block) && j < |block|
    ensures at + j < |out| && out[at + j] == block[j]
  {
    assert out[at .. at + |block|][j] == block[j];
  }

  lemma DeclaredWitness(out: seq<string>, limit: nat, name: string, k: nat)
    requires k < limit && k < |out| && Declares(out[k], name)
    ensures DeclaredBefore(out, limit, name)
  {
  }

  /** Every bean has its place in the order. */
  lemma InOrder(beans: seq<Bean>, b: nat)
    requires Acyclic(beans) && b < |beans|
    ensures b in Order(beans)
  {
    OrderIsPermutation(beans, "");
    assert b in Elements(Order(beans));
  }

  /** The header of the `k`-th class block of the order lies before the first constant. */
  lemma HeaderAt(beans: seq<Bean>, indent: string, exportKeyword: bool, k: nat)
    requires Acyclic(beans) && k < |Order(beans)|
    ensures BlockLine(beans, indent, k) + 1 < ConstantsLine(beans, indent)
    ensures ConstantsLine(beans, indent) <= |EmitElements(beans, indent, exportKeyword)|
    ensures EmitElements(beans, indent, exportKeyword)[BlockLine(beans, indent, k) + 1] == Header(beans, Order(beans)[k])
  {
    var order := Order(beans);
    BlockAtOffset(beans, indent, order, k);
    OrderBlockInOutput(beans, indent, exportKeyword, k);
    LinesAtIndex(EmitElements(beans, indent, exportKeyword), BlockLine(beans, indent, k), ClassBlock(beans, indent, order[k]), 1);
  }

  /** Every bean's class is declared in the output of `emitElements` before the first constant. */
  lemma BeanClassDeclared(beans: seq<Bean>, indent: string, exportKeyword: bool, b: nat)
    requires Acyclic(beans) && b < |beans|
    ensures DeclaredBefore(EmitElements(beans, indent, exportKeyword), ConstantsLine(beans, indent),
                           SimpleName(beans[b].name))
  {
    InOrder(beans, b);
    var k := IndexOf(Order(beans), b);
    HeaderAt(beans, indent, exportKeyword, k);
    HeaderDeclares(beans, b);
    DeclaredWitness(EmitElements(beans, indent, exportKeyword), ConstantsLine(beans, indent),
                    SimpleName(beans[b].name), BlockLine(beans, indent, k) + 1);
  }

  lemma IndexInFirst(a: seq<string>, b: seq<string>, c: seq<string>, i: nat)
    requires i < |a|
    ensures (a + b + c)[i] == a[i]
  {
  }

  lemma IndexInLast(a: seq<string>, b: seq<string>, c: seq<string>, j: nat)
    requires j < |c|
    ensures |a| + |b| + j < |a + b + c| && (a + b + c)[|a| + |b| + j] == c[j]
  {
  }

  lemma BaseLineDeclares()
    ensures Declares("class Fields {", "")
  {
    assert "class " + "" + "Fields " == "class Fields ";
  }

  /** The output of `emitElements` declares the base class `Fields` on its second line. */
  lemma BaseClassDeclared(beans: seq<Bean>, indent: string, exportKeyword: bool)
    requires Acyclic(beans)
    ensures DeclaredBefore(EmitElements(beans, indent, exportKeyword), ConstantsLine(beans, indent), "")
  {
    var out := EmitElements(beans, indent, exportKeyword);
    IndexInFirst(EmitFieldsClass(indent), Blocks(beans, indent, Order(beans)), ConstantLines(beans, exportKeyword), 1);
    BaseClassLine(indent);
    BaseLineDeclares();
    DeclaredWitness(out, ConstantsLine(beans, indent), "", 1);
  }

  /**
   * The class a field line instantiates is declared before the first
   * constant: the class of the bean the property's type resolves to, and
   * the base class `Fields` when it resolves to none.
   */
  lemma FieldClassDeclared(beans: seq<Bean>, indent: string, exportKeyword: bool, p: Property)
    requires Acyclic(beans)
    ensures Lookup(beans, p.tsType).Some? ==>
      DeclaredBefore(EmitElements(beans, indent, exportKeyword), ConstantsLine(beans, indent),
                     SimpleName(beans[Lookup(beans, p.tsType).value].name))
    ensures Lookup(beans, p.tsType).None? ==>
      DeclaredBefore(EmitElements(beans, indent, exportKeyword), ConstantsLine(beans, indent), "")
  {
    match Lookup(beans, p.tsType)
    case Some(b) => BeanClassDeclared(beans, indent, exportKeyword, b);
    case None => BaseClassDeclared(beans, indent, exportKeyword);
  }

  /** The `j`-th constant sits at its line after the class blocks. */
  lemma ConstantAt(beans: seq<Bean>, indent: string, exportKeyword: bool, j: nat)
    requires Acyclic(beans) && j < |beans|
    ensures ConstantsLine(beans, indent) + j < |EmitElements(beans, indent, exportKeyword)|
    ensures EmitElements(beans, indent, exportKeyword)[ConstantsLine(beans, indent) + j]
      == ConstantLine(beans[j], exportKeyword)
  {
    var head, blocks, consts := EmitFieldsClass(indent), Blocks(beans, indent, Order(beans)), ConstantLines(beans, exportKeyword);
    IndexInLast(head, blocks, consts, j);
    assert |head| + |blocks| == ConstantsLine(beans, indent);
  }

  /**
   * The `j`-th constant sits at its line after the class blocks, and the
   * class it instantiates is declared on an earlier line.
   */
  lemma ConstantClassDeclared(beans: seq<Bean>, indent: string, exportKeyword: bool, j: nat)
    requires Acyclic(beans) && j < |beans|
    ensures ConstantsLine(beans, indent) + j < |EmitElements(beans, indent, exportKeyword)|
    ensures EmitElements(beans, indent, exportKeyword)[ConstantsLine(beans, indent) + j]
      == ConstantLine(beans[j], exportKeyword)
    ensures DeclaredBefore(EmitElements(beans, indent, exportKeyword), ConstantsLine(beans, indent),
                           SimpleName(beans[j].name))
  {
    ConstantAt(beans, indent, exportKeyword, j);
    BeanClassDeclared(beans, indent, exportKeyword, j);
  }
}
