/**
 * String helpers used by the emitter: the four-space indentation unit and
 * Java's `String.replace` specialised to that unit.
 */
module Text {

  /** The canonical indentation unit written into the built-in template lines. */
  const Unit: string := "    "

  /** `k` copies of `s`, one after the other. */
  function Repeat(s: string, k: nat): string {
    if k == 0 then "" else s + Repeat(s, k - 1)
  }

  predicate StartsWithUnit(s: string) {
    |s| >= 4 && s[..4] == Unit
  }

  /** No occurrence of the indentation unit anywhere in `s`. */
  predicate NoUnit(s: string) {
    forall i :: 0 <= i < |s| ==> !StartsWithUnit(s[i..])
  }

  /** Two adjacent spaces occur in `s` at or after position `k`. */
  predicate SpacePairFrom(s: string, k: nat)
    decreases |s| - k
  {
    k + 1 < |s| && ((s[k] == ' ' && s[k + 1] == ' ') || SpacePairFrom(s, k + 1))
  }

  /** Without two adjacent spaces from `k` on, no unit starts at or after `k`. */
  lemma {:induction false} NoSpacePairNoUnit(s: string, k: nat)
    requires k <= |s| && !SpacePairFrom(s, k)
    ensures forall i :: k <= i < |s| ==> !StartsWithUnit(s[i..])
    decreases |s| - k
  {
    if k < |s| {
      NoSpacePairNoUnit(s, k + 1);
      assert |s[k..]| >= 4 ==> s[k..][..4][0] == s[k] && s[k..][..4][1] == s[k + 1];
      assert Unit[0] == ' ' && Unit[1] == ' ';
    }
  }

  /**
   * `s.replace("    ", indent)`: every occurrence of the unit, scanned left to
   * right and without overlap, is replaced by `indent`; other characters are
   * copied unchanged.
   */
  function ReplaceUnit(s: string, indent: string): (r: string)
    ensures |indent| == |Unit| ==> |r| == |s|
    decreases |s|
  {
    if |s| < 4 then s
    else if s[..4] == Unit then indent + ReplaceUnit(s[4..], indent)
    else [s[0]] + ReplaceUnit(s[1..], indent)
  }

  /** Replacing the unit by itself changes nothing. */
  lemma {:induction false} ReplaceUnitByUnit(s: string)
    ensures ReplaceUnit(s, Unit) == s
    decreases |s|
  {
    if |s| >= 4 {
      if s[..4] == Unit {
        ReplaceUnitByUnit(s[4..]);
        assert s == s[..4] + s[4..];
      } else {
        ReplaceUnitByUnit(s[1..]);
        assert s == [s[0]] + s[1..];
      }
    }
  }

  /** A line without the unit is copied unchanged. */
  lemma {:induction false} ReplaceUnitWithoutUnit(s: string, indent: string)
    requires NoUnit(s)
    ensures ReplaceUnit(s, indent) == s
    decreases |s|
  {
    if |s| >= 4 {
      assert !StartsWithUnit(s[0..]);
      assert s[0..] == s;
      forall i | 0 <= i < |s[1..]| ensures !StartsWithUnit(s[1..][i..]) {
        assert s[1..][i..] == s[i + 1..];
      }
      ReplaceUnitWithoutUnit(s[1..], indent);
      assert s == [s[0]] + s[1..];
    }
  }

  /** `replace` applied to every line of `lines`. */
  function ReplaceUnitInLines(lines: seq<string>, indent: string): (r: seq<string>)
    ensures |r| == |lines|
    ensures forall i :: 0 <= i < |lines| ==> r[i] == ReplaceUnit(lines[i], indent)
  {
    seq(|lines|, i requires 0 <= i < |lines| => ReplaceUnit(lines[i], indent))
  }

  lemma ReplaceUnitInLinesIdentity(lines: seq<string>)
    ensures ReplaceUnitInLines(lines, Unit) == lines
  {
    forall i | 0 <= i < |lines| ensures ReplaceUnit(lines[i], Unit) == lines[i] {
      ReplaceUnitByUnit(lines[i]);
    }
  }

  /** A leading unit is replaced and the scan continues after it. */
  lemma ReplaceLeadingUnit(tail: string, indent: string)
    ensures ReplaceUnit(Unit + tail, indent) == indent + ReplaceUnit(tail, indent)
  {
    var s := Unit + tail;
    assert s[..4] == Unit;
    assert s[4..] == tail;
  }

  /** Peeling the first copy off a repetition. */
  lemma RepeatCons(s: string, k: nat, rest: string)
    requires k > 0
    ensures Repeat(s, k) + rest == s + (Repeat(s, k - 1) + rest)
  {
  }

  /** No leading unit: the unit-free text is copied as is. */
  lemma ReplaceUnitKeepsDepthBase(rest: string, indent: string)
    requires NoUnit(rest)
    ensures ReplaceUnit(Repeat(Unit, 0) + rest, indent) == Repeat(indent, 0) + rest
  {
    ReplaceUnitWithoutUnit(rest, indent);
    assert Repeat(Unit, 0) + rest == rest;
    assert Repeat(indent, 0) + rest == rest;
  }

  /**
   * Replacing the unit keeps the nesting depth: a line made of `k` units of
   * leading indentation followed by unit-free text comes out as `k` copies of
   * `indent` followed by the same text.
   */
  lemma {:induction false} ReplaceUnitKeepsDepth(k: nat, rest: string, indent: string)
    requires NoUnit(rest)
    ensures ReplaceUnit(Repeat(Unit, k) + rest, indent) == Repeat(indent, k) + rest
  {
    if k == 0 {
      ReplaceUnitKeepsDepthBase(rest, indent);
    } else {
      var tail := Repeat(Unit, k - 1) + rest;
      RepeatCons(Unit, k, rest);
      RepeatCons(indent, k, rest);
      ReplaceLeadingUnit(tail, indent);
      ReplaceUnitKeepsDepth(k - 1, rest, indent);
    }
  }
}
