/**
 * The annotation formatter: a total, pure layout of a code and its optional
 * decorations into a plain-text rendering and the loose pieces a graphical
 * renderer draws around its own circle. Nothing is validated: the code and
 * the emphasizer are opaque text.
 */
module Formatter {
  import opened Wrappers
  import opened Decimal

  /**
   * The caller's options. A count of 0, an empty emphasizer and an empty note
   * are falsy in the source and so behave as if absent.
   */
  datatype FormatOptions = FormatOptions(
    code: string,
    emphasizer: Option<string>,
    numOccurrences: Option<nat>,
    note: Option<string>)

  /** Linear text rendering; the parentheses are the circle. */
  datatype AsciiParts = AsciiParts(
    circle: string, left: string, right: string, note: string, annotation: string)

  /** Pieces for a renderer that draws its own circle around `circleContent`. */
  datatype GraphicalParts = GraphicalParts(
    circleContent: string, topLeft: string, right: string, note: string)

  datatype FormattedAnnotation = FormattedAnnotation(
    ascii: AsciiParts, graphical: GraphicalParts, code: string)

  /** An optional string read as `value || ""`. */
  function OrEmpty(s: Option<string>): string {
    s.GetOr("")
  }

  /** The occurrence badge: `[n]` for a present, non-zero count, else "". */
  function Badge(count: Option<nat>): (r: string)
    ensures r == "" <==> count.None? || count.value == 0
    ensures r != "" ==>
      && |r| >= 3 && r[0] == '[' && r[|r| - 1] == ']'
      && Canonical(r[1..|r| - 1]) && ParseDecimal(r[1..|r| - 1]) == count.value
  {
    if count.Some? && count.value != 0 then
      var digits := NatToDecimal(count.value);
      ParseRendered(count.value);
      assert ("[" + digits + "]")[1..|digits| + 1] == digits;
      "[" + digits + "]"
    else ""
  }

  /** The parts that are not empty strings, in order. */
  function NonEmptyParts(parts: seq<string>): (r: seq<string>)
    ensures forall i :: 0 <= i < |r| ==> r[i] != ""
  {
    if |parts| == 0 then []
    else if parts[0] == "" then NonEmptyParts(parts[1..])
    else [parts[0]] + NonEmptyParts(parts[1..])
  }

  /** The parts separated by single spaces. */
  function JoinWithSpace(parts: seq<string>): string {
    if |parts| == 0 then ""
    else if |parts| == 1 then parts[0]
    else parts[0] + " " + JoinWithSpace(parts[1..])
  }

  /**
   * Formats an annotation. The plain-text annotation is the badge, the circle
   * with its emphasizer touching it, and the note, with single spaces between
   * the pieces that are present and nowhere else. The graphical pieces carry
   * the code without parentheses and the same badge, emphasizer and note as
   * the plain-text ones; the code is echoed unchanged.
   */
  function Format(o: FormatOptions): (r: FormattedAnnotation)
    ensures r.code == o.code
    ensures r.ascii.circle == "(" + o.code + ")"
    ensures r.graphical.circleContent == o.code
    ensures r.graphical.topLeft == r.ascii.left
    ensures r.graphical.right == r.ascii.right
    ensures r.graphical.note == r.ascii.note
    ensures r.ascii.left == Badge(o.numOccurrences)
    ensures r.ascii.right == "" <==> o.emphasizer.None? || o.emphasizer.value == ""
    ensures r.ascii.right != "" ==> r.ascii.right == o.emphasizer.value
    ensures r.ascii.note == "" <==> o.note.None? || o.note.value == ""
    ensures r.ascii.note != "" ==> r.ascii.note == o.note.value
    ensures r.ascii.annotation ==
      (if r.ascii.left == "" then "" else r.ascii.left + " ")
      + (r.ascii.circle + r.ascii.right)
      + (if r.ascii.note == "" then "" else " " + r.ascii.note)
  {
    var leftText := Badge(o.numOccurrences);
    var rightText := OrEmpty(o.emphasizer);
    var noteText := OrEmpty(o.note);
    var circleText := "(" + o.code + ")";
    var circleWithEmphasizer := circleText + rightText;
    var parts := NonEmptyParts([leftText, circleWithEmphasizer, noteText]);
    JoinShape(leftText, circleWithEmphasizer, noteText);
    FormattedAnnotation(
      AsciiParts(circleText, leftText, rightText, noteText, JoinWithSpace(parts)),
      GraphicalParts(o.code, leftText, rightText, noteText),
      o.code)
  }

  /**
   * Filtering out the empty pieces of `[left, middle, note]` and joining the
   * rest with spaces puts a space after a present left piece and before a
   * present note, and nothing else around a non-empty middle.
   */
  lemma JoinShape(left: string, middle: string, note: string)
    requires middle != ""
    ensures JoinWithSpace(NonEmptyParts([left, middle, note])) ==
      (if left == "" then "" else left + " ") + middle + (if note == "" then "" else " " + note)
  {
    assert [left, middle, note][1..] == [middle, note];
    assert [middle, note][1..] == [note];
    assert [note][1..] == [];
    var last := NonEmptyParts([note]);
    assert NonEmptyParts([]) == [];
    assert last == (if note == "" then [] else [note]) by {
      if note != "" { assert [note] + [] == [note]; }
    }
    var rest := NonEmptyParts([middle, note]);
    assert rest == [middle] + last;
    assert JoinWithSpace(rest) == middle + (if note == "" then "" else " " + note) by {
      if note != "" {
        assert rest[1..] == [note];
      }
    }
    if left != "" {
      var all := [left] + rest;
      assert all[1..] == rest;
    }
  }

  /** A count of zero lays out exactly like an absent count. */
  lemma ZeroCountIsAbsent(o: FormatOptions)
    ensures Format(o.(numOccurrences := Some(0))) == Format(o.(numOccurrences := None))
  {
  }

  /** An empty note lays out exactly like an absent note. */
  lemma EmptyNoteIsAbsent(o: FormatOptions)
    ensures Format(o.(note := Some(""))) == Format(o.(note := None))
  {
  }

  /** An empty emphasizer lays out exactly like an absent one. */
  lemma EmptyEmphasizerIsAbsent(o: FormatOptions)
    ensures Format(o.(emphasizer := Some(""))) == Format(o.(emphasizer := None))
  {
  }

  /** The layouts shown in the library's documentation and test suite. */
  lemma FormatCodeOnly()
    ensures Format(FormatOptions("KC", None, None, None)).ascii.annotation == "(KC)"
    ensures Format(FormatOptions("KC", None, None, None)).graphical.circleContent == "KC"
  {
  }

  lemma FormatWithEmphasizer()
    ensures Format(FormatOptions("KC", Some("*"), None, None)).ascii.annotation == "(KC)*"
  {
  }

  lemma FormatWithCount()
    ensures Format(FormatOptions("Q", None, Some(1), None)).ascii.annotation == "[1] (Q)"
  {
  }

  /** The test suite's note examples, for any non-empty note text. */
  lemma FormatWithNote(note: string)
    requires note != ""
    ensures Format(FormatOptions("FL", None, None, Some(note))).ascii.annotation == "(FL) " + note
  {
  }

  lemma FormatWithEverything(note: string)
    requires note != ""
    ensures Format(FormatOptions("KC", Some("*"), Some(5), Some(note))).ascii.annotation
      == "[5] (KC)* " + note
  {
  }

  lemma FormatZeroCount()
    ensures Format(FormatOptions("C", None, Some(0), None)).ascii.left == ""
    ensures Format(FormatOptions("C", None, Some(0), None)).ascii.annotation == "(C)"
  {
  }

  lemma FormatLargeCount()
    ensures Format(FormatOptions("KC", None, Some(999), None)).ascii.annotation == "[999] (KC)"
  {
  }
}
