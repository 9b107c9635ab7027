/**
 * The combined-code parser from the usage examples: a string such as "+KC",
 * "*C" or "KC" is split into an optional leading one-character emphasizer and
 * an annotation code, both checked against their catalogs.
 */
module CombinedCode {
  import opened Wrappers
  import opened Catalog
  import opened Accessors
  import opened Emphasizers

  datatype Combined = Combined(emphasizer: Option<string>, annotation: string)

  /** The text a parsed code came from: the emphasizer, if any, then the annotation. */
  function Render(c: Combined): string {
    c.emphasizer.GetOr("") + c.annotation
  }

  /**
   * Parses `s` against the annotation catalog `cat`. When the first character
   * is an emphasizer the rest must be an annotation code, with no fall-back to
   * reading the whole string; otherwise the whole string must be one. The
   * first character of "" does not exist and is no emphasizer.
   */
  function ParseCombinedCode(cat: seq<Entry>, s: string): (r: Option<Combined>)
    ensures r.Some? ==> IsValidCode(cat, r.value.annotation)
    ensures r.Some? && r.value.emphasizer.Some? ==>
      r.value.emphasizer.value in {"+", "-", "*"} && |r.value.emphasizer.value| == 1
    ensures r.Some? ==> Render(r.value) == s
    ensures |s| > 0 && s[0] in {'+', '-', '*'} ==>
      (r.Some? <==> IsValidCode(cat, s[1..])) && (r.Some? ==> r.value.emphasizer.Some?)
    ensures !(|s| > 0 && s[0] in {'+', '-', '*'}) ==>
      (r.Some? <==> IsValidCode(cat, s)) && (r.Some? ==> r.value.emphasizer.None?)
    ensures NonEmptyCodes(cat) && s == "" ==> r.None?
  {
    if |s| > 0 && IsValidEmphasizerCode([s[0]]) then
      assert s == [s[0]] + s[1..];
      if IsValidCode(cat, s[1..]) then Some(Combined(Some([s[0]]), s[1..]))
      else None
    else if IsValidCode(cat, s) then Some(Combined(None, s))
    else None
  }

  /**
   * Round trip with an emphasizer: a valid emphasizer code followed by a valid
   * annotation code parses back into the two.
   */
  lemma ParseEmphasized(cat: seq<Entry>, e: string, c: string)
    requires IsValidEmphasizerCode(e) && IsValidCode(cat, c)
    ensures ParseCombinedCode(cat, e + c) == Some(Combined(Some(e), c))
  {
  }

  /**
   * Round trip without an emphasizer: a valid annotation code parses as itself,
   * provided no annotation code begins with an emphasizer character (else it
   * would be split).
   */
  lemma ParsePlain(cat: seq<Entry>, c: string)
    requires NoCodeStartsWithEmphasizer(cat) && IsValidCode(cat, c)
    ensures ParseCombinedCode(cat, c) == Some(Combined(None, c))
  {
  }

  /**
   * Parsing inverts rendering for every well-formed combined code: `Render`
   * then `ParseCombinedCode` is the identity, and `ParseCombinedCode` then
   * `Render` gives back the input whenever parsing succeeds.
   */
  lemma ParseRenderRoundTrip(cat: seq<Entry>, c: Combined)
    requires NoCodeStartsWithEmphasizer(cat) && IsValidCode(cat, c.annotation)
    requires c.emphasizer.Some? ==> IsValidEmphasizerCode(c.emphasizer.value)
    ensures ParseCombinedCode(cat, Render(c)) == Some(c)
  {
    match c.emphasizer
    case Some(e) => ParseEmphasized(cat, e, c.annotation);
    case None =>
      assert Render(c) == c.annotation;
      ParsePlain(cat, c.annotation);
  }

  /** The emphasized outcomes the usage examples show, for a catalog holding "KC" and "C". */
  lemma ParseEmphasizedExamples(cat: seq<Entry>)
    requires IsValidCode(cat, "KC") && IsValidCode(cat, "C")
    ensures ParseCombinedCode(cat, "+KC") == Some(Combined(Some("+"), "KC"))
    ensures ParseCombinedCode(cat, "*C") == Some(Combined(Some("*"), "C"))
  {
  }

  /** The plain outcomes the usage examples show, for a catalog holding "KC" but not "INVALID". */
  lemma ParsePlainExamples(cat: seq<Entry>)
    requires NoCodeStartsWithEmphasizer(cat)
    requires IsValidCode(cat, "KC") && !IsValidCode(cat, "INVALID")
    ensures ParseCombinedCode(cat, "KC") == Some(Combined(None, "KC"))
    ensures ParseCombinedCode(cat, "INVALID") == None
  {
  }
}
