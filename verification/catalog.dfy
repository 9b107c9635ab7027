/**
 * A catalog is an ordered list of entries, each a (code, name, description)
 * triple. Two catalogs exist in the nomenclature: the annotation codes and the
 * emphasizers. The predicates here state the invariants the data author is
 * responsible for; nothing in the library checks them at run time.
 */
module Catalog {

  datatype Entry = Entry(code: string, name: string, description: string)

  /** The codes of a catalog, in catalog order. */
  function Codes(cat: seq<Entry>): (r: seq<string>)
    ensures |r| == |cat|
  {
    seq(|cat|, i requires 0 <= i < |cat| => cat[i].code)
  }

  /** The names of a catalog, in catalog order. */
  function Names(cat: seq<Entry>): (r: seq<string>)
    ensures |r| == |cat|
  {
    seq(|cat|, i requires 0 <= i < |cat| => cat[i].name)
  }

  /** The set of values a sequence holds. */
  function Elems(s: seq<string>): set<string> {
    set x | x in s
  }

  predicate Distinct(s: seq<string>) {
    forall i, j :: 0 <= i < j < |s| ==> s[i] != s[j]
  }

  predicate DistinctCodes(cat: seq<Entry>) {
    Distinct(Codes(cat))
  }

  predicate DistinctNames(cat: seq<Entry>) {
    Distinct(Names(cat))
  }

  /** Every code is non-empty: the reason "" is never a valid code. */
  predicate NonEmptyCodes(cat: seq<Entry>) {
    forall i :: 0 <= i < |cat| ==> cat[i].code != ""
  }

  /** The invariants every catalog of the nomenclature satisfies. */
  predicate WellFormed(cat: seq<Entry>) {
    && DistinctCodes(cat)
    && DistinctNames(cat)
    && NonEmptyCodes(cat)
    && forall i :: 0 <= i < |cat| ==> cat[i].name != ""
  }

  /** Appending an entry appends its code. */
  lemma CodesSnoc(p: seq<Entry>, e: Entry)
    ensures Codes(p + [e]) == Codes(p) + [e.code]
  {
  }

  /** Appending an entry appends its name. */
  lemma NamesSnoc(p: seq<Entry>, e: Entry)
    ensures Names(p + [e]) == Names(p) + [e.name]
  {
  }

  /** With distinct codes, an entry of the catalog is identified by its code. */
  lemma UniqueByCode(cat: seq<Entry>, x: Entry, i: nat)
    requires DistinctCodes(cat) && x in cat && i < |cat| && x.code == cat[i].code
    ensures x == cat[i]
  {
    var j :| 0 <= j < |cat| && cat[j] == x;
    assert Codes(cat)[j] == Codes(cat)[i];
  }

  /** With distinct names, an entry of the catalog is identified by its name. */
  lemma UniqueByName(cat: seq<Entry>, x: Entry, i: nat)
    requires DistinctNames(cat) && x in cat && i < |cat| && x.name == cat[i].name
    ensures x == cat[i]
  {
    var j :| 0 <= j < |cat| && cat[j] == x;
    assert Names(cat)[j] == Names(cat)[i];
  }

  /** Appending a value adds exactly that value to the held set. */
  lemma ElemsSnoc(p: seq<string>, x: string)
    ensures Elems(p + [x]) == Elems(p) + {x}
  {
  }

  /** A sequence without repetitions holds as many distinct values as it is long. */
  lemma {:induction false} DistinctCardinality(s: seq<string>)
    requires Distinct(s)
    ensures |Elems(s)| == |s|
  {
    if |s| > 0 {
      var p := s[..|s| - 1];
      var x := s[|s| - 1];
      assert Distinct(p);
      DistinctCardinality(p);
      assert x !in Elems(p);
      assert s == p + [x];
      ElemsSnoc(p, x);
    }
  }
}
