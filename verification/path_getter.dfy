/**
 * Run-time meaning of the emitted `Fields` class: an instance holds an
 * optional parent instance and an optional segment name, and `get()`
 * composes the dotted property path.  Only chains built through the
 * `Fields` constructor are modelled; a generated field that shadows one of
 * the base members `parent`, `name` or `get` is not.
 */
module PathGetter {
  import opened Wrappers

  /**
   * The state `Fields` keeps for one instance, as its constructor stores it:
   * the optional parent and the optional name.
   */
  datatype FieldsObj = FieldsObj(parent: Option<FieldsObj>, name: Option<string>)

  /** JavaScript truthiness of a `string | undefined`: present and non-empty. */
  predicate Truthy(v: Option<string>) {
    v.Some? && v.value != ""
  }

  /**
   * One step of `get()` below a parent: `up` is what the parent's `get()`
   * returned and `name` is this instance's name.
   */
  function Extend(up: Option<string>, name: Option<string>): Option<string> {
    if Truthy(up) then
      if Truthy(name) then Some(up.value + "." + name.value) else up
    else
      name
  }

  /**
   * The template's `get()`: a present, non-empty path exactly when some name
   * along the chain is present and non-empty; otherwise the instance's own
   * name, absent or empty as it is.
   */
  function Get(f: FieldsObj): (r: Option<string>)
    ensures Truthy(r) <==> |TruthyNames(Segments(f))| > 0
    ensures !Truthy(r) ==> r == f.name
  {
    match f.parent
    case Some(p) =>
      assert Segments(f) == Segments(p) + [f.name];
      TruthyNamesSnoc(Segments(p), f.name);
      Extend(Get(p), f.name)
    case None =>
      assert Segments(f) == [f.name];
      assert [f.name][..0] == [];
      f.name
  }

  /** A `Fields` instance built with no arguments, as the constant `new XFields()` is: no parent, no name. */
  const Root: FieldsObj := FieldsObj(None, None)

  /** The instance `new YFields(owner, name)` that a property line stores: parent `owner`, name `name`. */
  function Field(owner: FieldsObj, name: string): (r: FieldsObj)
    ensures r.parent == Some(owner) && r.name == Some(name)
  {
    FieldsObj(Some(owner), Some(name))
  }

  /** The segment names along the parent chain, outermost first, ending with `f`'s own name. */
  function Segments(f: FieldsObj): (r: seq<Option<string>>)
    ensures |r| >= 1 && r[|r| - 1] == f.name
    ensures f.parent.None? ==> r == [f.name]
    ensures f.parent.Some? ==> r[..|r| - 1] == Segments(f.parent.value)
  {
    match f.parent
    case None => [f.name]
    case Some(p) => Segments(p) + [f.name]
  }

  /** The truthy segment names, in order. */
  function TruthyNames(segs: seq<Option<string>>): (r: seq<string>)
    ensures forall k :: 0 <= k < |r| ==> r[k] != ""
    ensures |r| <= |segs|
  {
    if |segs| == 0 then []
    else
      var last := segs[|segs| - 1];
      TruthyNames(segs[..|segs| - 1]) + (if Truthy(last) then [last.value] else [])
  }

  /** Names joined with `"."` between neighbours. */
  function JoinDots(names: seq<string>): (r: string)
    requires |names| > 0
    ensures |r| >= |names[|names| - 1]|
  {
    if |names| == 1 then names[0]
    else JoinDots(names[..|names| - 1]) + "." + names[|names| - 1]
  }

  /**
   * Reference meaning of a path: the truthy names joined by dots; when no
   * name is truthy, the last segment exactly as stored (absent or empty).
   */
  function PathOf(segs: seq<Option<string>>): Option<string>
    requires |segs| > 0
  {
    var names := TruthyNames(segs);
    if |names| > 0 then Some(JoinDots(names)) else segs[|segs| - 1]
  }

  lemma TruthyNamesSnoc(segs: seq<Option<string>>, x: Option<string>)
    ensures TruthyNames(segs + [x]) == TruthyNames(segs) + (if Truthy(x) then [x.value] else [])
  {
    assert (segs + [x])[..|segs|] == segs;
  }

  lemma JoinDotsSnoc(names: seq<string>, x: string)
    requires |names| > 0
    ensures JoinDots(names + [x]) == JoinDots(names) + "." + x
  {
    assert (names + [x])[..|names|] == names;
  }

  /** Appending a segment to a path extends its meaning exactly as one step of `get()` does. */
  lemma PathOfSnoc(segs: seq<Option<string>>, x: Option<string>)
    requires |segs| > 0
    ensures PathOf(segs + [x]) == Extend(PathOf(segs), x)
  {
    TruthyNamesSnoc(segs, x);
    var names := TruthyNames(segs);
    if |names| > 0 {
      assert Truthy(PathOf(segs));
      if Truthy(x) {
        JoinDotsSnoc(names, x.value);
      } else {
        assert TruthyNames(segs + [x]) == names;
      }
    } else {
      TruthyNamesSnoc(segs[..|segs| - 1], segs[|segs| - 1]);
      assert segs[..|segs| - 1] + [segs[|segs| - 1]] == segs;
      assert !Truthy(PathOf(segs));
    }
  }

  /**
   * `get()` skips absent and empty names without leaving a separator for
   * them and joins the others with dots, outermost first.
   */
  lemma {:induction false} GetIsPathOfSegments(f: FieldsObj)
    ensures Get(f) == PathOf(Segments(f))
  {
    match f.parent
    case None =>
    case Some(p) =>
      GetIsPathOfSegments(p);
      assert Segments(f) == Segments(p) + [f.name];
      PathOfSnoc(Segments(p), f.name);
  }

  /** The instance reached by following the named fields one after another from `start`. */
  function Chain(start: FieldsObj, names: seq<Option<string>>): (r: FieldsObj)
    ensures Segments(r) == Segments(start) + names
  {
    if |names| == 0 then start
    else
      var prefix := names[..|names| - 1];
      assert names == prefix + [names[|names| - 1]];
      FieldsObj(Some(Chain(start, prefix)), names[|names| - 1])
  }

  /** Every name present. */
  function Present(names: seq<string>): (r: seq<Option<string>>)
    ensures |r| == |names|
    ensures forall k :: 0 <= k < |r| ==> r[k] == Some(names[k])
  {
    seq(|names|, k requires 0 <= k < |names| => Some(names[k]))
  }

  lemma {:induction false} TruthyNamesOfPresent(names: seq<string>)
    requires forall k :: 0 <= k < |names| ==> names[k] != ""
    ensures TruthyNames([None] + Present(names)) == names
  {
    if |names| > 0 {
      var prefix := names[..|names| - 1];
      var segs := [None] + Present(names);
      assert segs[..|segs| - 1] == [None] + Present(prefix);
      TruthyNamesOfPresent(prefix);
      assert names == prefix + [names[|names| - 1]];
    } else {
      assert [None] + Present(names) == [None];
    }
  }

  /**
   * Constructing instances with non-empty names `n1, ..., nk` on top of a
   * nameless root and calling `get()` yields `"n1.n2. ... .nk"`; the root
   * itself yields nothing.
   */
  lemma ChainFromRootJoinsNames(names: seq<string>)
    requires forall k :: 0 <= k < |names| ==> names[k] != ""
    ensures |names| == 0 ==> Get(Chain(Root, Present(names))) == None
    ensures |names| > 0 ==> Get(Chain(Root, Present(names))) == Some(JoinDots(names))
  {
    var f := Chain(Root, Present(names));
    GetIsPathOfSegments(f);
    TruthyNamesOfPresent(names);
    assert Segments(f) == [None] + Present(names);
  }

  /** The documented example: a chain `field1`, `field2` below a nameless root gives `"field1.field2"`. */
  lemma FieldPathExample()
    ensures Get(Field(Field(Root, "field1"), "field2")) == Some("field1.field2")
  {
    assert Get(Field(Root, "field1")) == Some("field1");
    assert "field1" + "." + "field2" == "field1.field2";
  }

  /** An absent name in the middle is skipped without an extra separator. */
  lemma AbsentSegmentExample()
    ensures Get(Chain(Root, [Some("a"), None, Some("c")])) == Some("a.c")
  {
    GetIsPathOfSegments(Chain(Root, [Some("a"), None, Some("c")]));
    AbsentSegmentSegments();
    AbsentSegmentPath();
  }

  lemma AbsentSegmentSegments()
    ensures Segments(Chain(Root, [Some("a"), None, Some("c")])) == [None, Some("a"), None, Some("c")]
  {
    assert Segments(Root) == [None];
  }

  lemma AbsentSegmentPath()
    ensures PathOf([None, Some("a"), None, Some("c")]) == Some("a.c")
  {
    AbsentSegmentNames();
    JoinDotsSnoc(["a"], "c");
    assert ["a"] + ["c"] == ["a", "c"];
    assert JoinDots(["a"]) == "a";
    assert "a" + "." + "c" == "a.c";
  }

  lemma AbsentSegmentNames()
    ensures TruthyNames([None, Some("a"), None, Some("c")]) == ["a", "c"]
  {
    var s0: seq<Option<string>> := [];
    TruthyNamesSnoc(s0, None);
    assert s0 + [None] == [None];
    TruthyNamesSnoc([None], Some("a"));
    assert [None] + [Some("a")] == [None, Some("a")];
    TruthyNamesSnoc([None, Some("a")], None);
    assert [None, Some("a")] + [None] == [None, Some("a"), None];
    TruthyNamesSnoc([None, Some("a"), None], Some("c"));
    assert [None, Some("a"), None] + [Some("c")] == [None, Some("a"), None, Some("c")];
    assert ["a"] + ["c"] == ["a", "c"];
  }
}
