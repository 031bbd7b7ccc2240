/**
 * The fixed `Fields` base class written at the top of the output, and the
 * indentation substitution applied to it.
 */
module FieldsTemplate {
  import opened Text

  /** The parameter list the base constructor declares and every subclass repeats. */
  const Signature := "constructor(parent?: Fields, name?: string)"

  /** The fifteen lines of the `Fields` class, written with the four-space unit. */
  const Template: seq<string> := [
    "class Fields {",
    "    protected parent: Fields | undefined;",
    "    protected name: string | undefined;",
    Unit + Signature + " {",
    "        this.parent = parent;",
    "        this.name = name;",
    "    };",
    "    get(): string | undefined {",
    "        if (this.parent && this.parent.get()) {",
    "            return this.name ? this.parent.get() + \".\" + this.name : this.parent.get();",
    "        } else {",
    "            return this.name;",
    "        }",
    "    }",
    "}"
  ]

  /**
   * What `emitFieldsClass` writes: one blank line, then every template line
   * with each occurrence of the unit replaced by `indent`.
   */
  function EmitFieldsClass(indent: string): (r: seq<string>)
    ensures |r| == 1 + |Template|
    ensures r[0] == ""
    ensures forall i :: 0 <= i < |Template| ==> r[i + 1] == ReplaceUnit(Template[i], indent)
  {
    [""] + ReplaceUnitInLines(Template, indent)
  }

  /** Line 3 of the template opens the base constructor: one unit, the signature, a brace. */
  lemma TemplateConstructorLine()
    ensures Template[3] == Unit + (Signature + " {")
    ensures Template[3][|Unit|..] == Signature + " {"
  {
  }

  /** The line opening the base class holds no unit, so every indentation leaves it as it is. */
  lemma BaseClassLine(indent: string)
    ensures EmitFieldsClass(indent)[1] == "class Fields {"
  {
    var line := "class Fields {";
    assert Template[0] == line;
    assert !SpacePairFrom(line, 0);
    NoSpacePairNoUnit(line, 0);
    ReplaceUnitWithoutUnit(line, indent);
  }

  /** With the canonical unit as indentation, the template comes out verbatim. */
  lemma FieldsClassVerbatim()
    ensures EmitFieldsClass(Unit) == [""] + Template
  {
    ReplaceUnitInLinesIdentity(Template);
  }
}
