/**
 * The emphasizer catalog: three one-character codes that may follow an
 * annotation's circle to mark strong liking, strong disliking or importance.
 * Its accessors are the generic ones applied to this catalog; its validator
 * builds its set straight from the catalog rather than from the code list.
 */
module Emphasizers {
  import opened Wrappers
  import opened Catalog
  import opened Lookups
  import opened Accessors

  const StrongLike := Entry("+", "StrongLike", "I really like this")
  const StrongDislike := Entry("-", "StrongDislike", "I really don't like this")
  const Critical := Entry("*", "Critical", "This is really important")

  const EmphasizerCatalog: seq<Entry> := [StrongLike, StrongDislike, Critical]

  /** The emphasizer catalog meets every catalog invariant. */
  lemma EmphasizerCatalogWellFormed()
    ensures WellFormed(EmphasizerCatalog)
  {
  }

  /** The emphasizer validation set, mapped from the catalog's entries. */
  function EmphasizerCodeSet(): set<string> {
    set e | e in EmphasizerCatalog :: e.code
  }

  /** True of exactly the three emphasizer codes; false of "" and of any annotation code. */
  function IsValidEmphasizerCode(value: string): (r: bool)
    ensures r <==> value == "+" || value == "-" || value == "*"
  {
    assert EmphasizerCodeSet() == {"+", "-", "*"} by {
      assert StrongLike in EmphasizerCatalog;
      assert StrongDislike in EmphasizerCatalog;
      assert Critical in EmphasizerCatalog;
    }
    value in EmphasizerCodeSet()
  }

  /** The set made from the catalog and the set made from the code list agree. */
  lemma EmphasizerValidatorsAgree(value: string)
    ensures IsValidEmphasizerCode(value) <==> IsValidCode(EmphasizerCatalog, value)
  {
  }

  /** Lookup of an emphasizer by code: the entry carrying it, or None. */
  function GetEmphasizerByCode(code: string): (r: Option<Entry>)
    ensures code == "+" ==> r == Some(StrongLike)
    ensures code == "-" ==> r == Some(StrongDislike)
    ensures code == "*" ==> r == Some(Critical)
    ensures r.None? <==> !IsValidEmphasizerCode(code)
  {
    EmphasizerCatalogWellFormed();
    var cat := EmphasizerCatalog;
    assert cat[0].code == "+" && cat[1].code == "-" && cat[2].code == "*";
    GetByCode(cat, code)
  }

  /** Lookup of an emphasizer by name: the entry carrying it, or None. */
  function GetEmphasizerByName(name: string): (r: Option<Entry>)
    ensures name == "StrongLike" ==> r == Some(StrongLike)
    ensures name == "StrongDislike" ==> r == Some(StrongDislike)
    ensures name == "Critical" ==> r == Some(Critical)
    ensures r.None? <==> name != "StrongLike" && name != "StrongDislike" && name != "Critical"
  {
    EmphasizerCatalogWellFormed();
    var cat := EmphasizerCatalog;
    assert cat[0].name == "StrongLike" && cat[1].name == "StrongDislike" && cat[2].name == "Critical";
    GetByName(cat, name)
  }

  /** List-all for emphasizers: the three entries in catalog order, cached once. */
  function GetAllEmphasizers(cache: ListCache): (r: (seq<Entry>, ListCache))
    requires CacheServes(cache, EmphasizerCatalog)
    ensures r.0 == [StrongLike, StrongDislike, Critical]
    ensures r.1.cached == Some(r.0)
    ensures cache.cached.Some? ==> r.1 == cache
  {
    GetAll(EmphasizerCatalog, cache)
  }

  /** No annotation code of `cat` begins with an emphasizer character. */
  predicate NoCodeStartsWithEmphasizer(cat: seq<Entry>) {
    forall i :: 0 <= i < |cat| && |cat[i].code| > 0 ==> !IsValidEmphasizerCode([cat[i].code[0]])
  }

  /** The annotation and emphasizer code spaces do not meet. */
  predicate DisjointFromEmphasizers(cat: seq<Entry>) {
    forall i :: 0 <= i < |cat| ==> !IsValidEmphasizerCode(cat[i].code)
  }

  /**
   * When no annotation code begins with an emphasizer character, no
   * annotation code is an emphasizer code either: the parser's assumption is
   * the stronger of the two.
   */
  lemma PrefixFreeImpliesDisjoint(cat: seq<Entry>)
    requires NoCodeStartsWithEmphasizer(cat)
    ensures DisjointFromEmphasizers(cat)
  {
  }
}
