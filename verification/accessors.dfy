/**
 * The read-only surface over one catalog and its index: exact lookup by code
 * and by name, the list of all entries behind a set-once cache, and the
 * membership validator. Each exists once per catalog in the source; here each
 * is written once, for any catalog.
 */
module Accessors {
  import opened Wrappers
  import opened Catalog
  import opened Lookups

  /**
   * Exact, case-sensitive lookup in the code-keyed index; an unknown code is
   * an ordinary None, never an error.
   */
  function GetByCode(cat: seq<Entry>, code: string): (r: Option<Entry>)
    ensures r.Some? <==> exists i :: 0 <= i < |cat| && cat[i].code == code
    ensures r.Some? ==> r.value in cat && r.value.code == code
    ensures DistinctCodes(cat) ==>
      forall i :: 0 <= i < |cat| && cat[i].code == code ==> r == Some(cat[i])
  {
    var m := Build(cat).codeMap;
    assert code in m <==> code in Codes(cat);
    if code in m then
      assert DistinctCodes(cat) ==>
        forall i :: 0 <= i < |cat| && cat[i].code == code ==> m[code] == cat[i] by {
        if DistinctCodes(cat) {
          forall i | 0 <= i < |cat| && cat[i].code == code ensures m[code] == cat[i] {
            UniqueByCode(cat, m[code], i);
          }
        }
      }
      Some(m[code])
    else
      assert forall i :: 0 <= i < |cat| ==> Codes(cat)[i] == cat[i].code;
      None
  }

  /**
   * Exact, case-sensitive lookup in the name-keyed index; an unknown name is
   * an ordinary None, never an error.
   */
  function GetByName(cat: seq<Entry>, name: string): (r: Option<Entry>)
    ensures r.Some? <==> exists i :: 0 <= i < |cat| && cat[i].name == name
    ensures r.Some? ==> r.value in cat && r.value.name == name
    ensures DistinctNames(cat) ==>
      forall i :: 0 <= i < |cat| && cat[i].name == name ==> r == Some(cat[i])
  {
    var m := Build(cat).nameMap;
    assert name in m <==> name in Names(cat);
    if name in m then
      assert DistinctNames(cat) ==>
        forall i :: 0 <= i < |cat| && cat[i].name == name ==> m[name] == cat[i] by {
        if DistinctNames(cat) {
          forall i | 0 <= i < |cat| && cat[i].name == name ensures m[name] == cat[i] {
            UniqueByName(cat, m[name], i);
          }
        }
      }
      Some(m[name])
    else
      assert forall i :: 0 <= i < |cat| ==> Names(cat)[i] == cat[i].name;
      None
  }

  /** The module-level cache behind list-all: empty until the first call. */
  datatype ListCache = ListCache(cached: Option<seq<Entry>>)

  const EmptyCache := ListCache(None)

  /** The cache only ever holds a copy of the catalog it serves. */
  predicate CacheServes(cache: ListCache, cat: seq<Entry>) {
    cache.cached.Some? ==> cache.cached.value == cat
  }

  /**
   * List-all: fills the cache on the first call and from then on hands back
   * what the cache holds. Returns the list and the cache after the call. The
   * list is the catalog, entry for entry and in catalog order; once filled the
   * cache is never replaced.
   */
  function GetAll(cat: seq<Entry>, cache: ListCache): (r: (seq<Entry>, ListCache))
    requires CacheServes(cache, cat)
    ensures |r.0| == |cat| && forall i :: 0 <= i < |cat| ==> r.0[i] == cat[i]
    ensures r.1.cached == Some(r.0) && CacheServes(r.1, cat)
    ensures cache.cached.Some? ==> r == (cache.cached.value, cache)
  {
    match cache.cached
    case Some(list) => (list, cache)
    case None => (cat, ListCache(Some(cat)))
  }

  /**
   * Two calls in a row return the same list, and the second leaves the cache
   * exactly as the first left it.
   */
  lemma GetAllStable(cat: seq<Entry>, cache: ListCache)
    requires CacheServes(cache, cat)
    ensures GetAll(cat, GetAll(cat, cache).1).0 == GetAll(cat, cache).0
    ensures GetAll(cat, GetAll(cat, cache).1).1 == GetAll(cat, cache).1
  {
  }

  /** The validation set, made from the ordered code list of the index. */
  function ValidCodeSet(cat: seq<Entry>): set<string> {
    Elems(Build(cat).codeArray)
  }

  /**
   * Membership in the validation set: true exactly for the codes of the
   * catalog, compared case-sensitively; never true of "" when every code is
   * non-empty.
   */
  function IsValidCode(cat: seq<Entry>, value: string): (r: bool)
    ensures r <==> exists i :: 0 <= i < |cat| && cat[i].code == value
    ensures NonEmptyCodes(cat) && value == "" ==> !r
  {
    assert forall i :: 0 <= i < |cat| ==> Codes(cat)[i] == cat[i].code;
    value in ValidCodeSet(cat)
  }

  /** The validator accepts exactly the codes the lookup finds. */
  lemma ValidIffFound(cat: seq<Entry>, value: string)
    ensures IsValidCode(cat, value) <==> GetByCode(cat, value).Some?
  {
  }

  /**
   * The ordered code list of the index and the list-all result agree position
   * by position.
   */
  lemma CodeListMatchesGetAll(cat: seq<Entry>, cache: ListCache)
    requires CacheServes(cache, cat)
    ensures |Build(cat).codeArray| == |GetAll(cat, cache).0|
    ensures forall i :: 0 <= i < |cat| ==> Build(cat).codeArray[i] == GetAll(cat, cache).0[i].code
  {
  }
}
