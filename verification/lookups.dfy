/**
 * The index derived from a catalog in one pass: six projections, each filled
 * by the same loop iteration. The annotation and emphasizer indices are built
 * by two copies of that loop in the source; this module models it once for
 * any catalog.
 */
module Lookups {
  import opened Catalog

  datatype Lookups = Lookups(
    enumObj: map<string, string>,       // name -> code
    codes: map<string, string>,         // code -> name
    descriptions: map<string, string>,  // code -> description
    codeArray: seq<string>,             // codes in catalog order
    codeMap: map<string, Entry>,        // code -> entry
    nameMap: map<string, Entry>         // name -> entry
  )

  const Empty := Lookups(map[], map[], map[], [], map[], map[])

  /** One loop iteration: every projection is written from the same entry. */
  function Insert(lk: Lookups, e: Entry): Lookups {
    Lookups(
      lk.enumObj[e.name := e.code],
      lk.codes[e.code := e.name],
      lk.descriptions[e.code := e.description],
      lk.codeArray + [e.code],
      lk.codeMap[e.code := e],
      lk.nameMap[e.name := e])
  }

  /** What an index's key sets and code list are after visiting `cat`. */
  ghost predicate KeysOf(lk: Lookups, cat: seq<Entry>) {
    && lk.codeArray == Codes(cat)
    && lk.codeMap.Keys == Elems(Codes(cat))
    && lk.codes.Keys == Elems(Codes(cat))
    && lk.descriptions.Keys == Elems(Codes(cat))
    && lk.nameMap.Keys == Elems(Names(cat))
    && lk.enumObj.Keys == Elems(Names(cat))
  }

  /** What an index built from `cat` holds, whatever repetitions `cat` has. */
  ghost predicate Indexes(lk: Lookups, cat: seq<Entry>) {
    && KeysOf(lk, cat)
    && (forall k :: k in lk.codeMap ==>
         && lk.codeMap[k] in cat
         && lk.codeMap[k].code == k
         && lk.codes[k] == lk.codeMap[k].name
         && lk.descriptions[k] == lk.codeMap[k].description)
    && (forall n :: n in lk.nameMap ==>
         && lk.nameMap[n] in cat
         && lk.nameMap[n].name == n
         && lk.enumObj[n] == lk.nameMap[n].code)
  }

  /** One more loop iteration keeps the code-keyed projections in step. */
  lemma InsertCodeKeyed(lk: Lookups, p: seq<Entry>, e: Entry)
    requires forall k :: k in lk.codeMap ==>
      && k in lk.codes && k in lk.descriptions
      && lk.codeMap[k] in p
      && lk.codeMap[k].code == k
      && lk.codes[k] == lk.codeMap[k].name
      && lk.descriptions[k] == lk.codeMap[k].description
    ensures forall k :: k in Insert(lk, e).codeMap ==>
      && k in Insert(lk, e).codes && k in Insert(lk, e).descriptions
      && Insert(lk, e).codeMap[k] in p + [e]
      && Insert(lk, e).codeMap[k].code == k
      && Insert(lk, e).codes[k] == Insert(lk, e).codeMap[k].name
      && Insert(lk, e).descriptions[k] == Insert(lk, e).codeMap[k].description
  {
  }

  /** One more loop iteration keeps the name-keyed projections in step. */
  lemma InsertNameKeyed(lk: Lookups, p: seq<Entry>, e: Entry)
    requires forall n :: n in lk.nameMap ==>
      && n in lk.enumObj
      && lk.nameMap[n] in p
      && lk.nameMap[n].name == n
      && lk.enumObj[n] == lk.nameMap[n].code
    ensures forall n :: n in Insert(lk, e).nameMap ==>
      && n in Insert(lk, e).enumObj
      && Insert(lk, e).nameMap[n] in p + [e]
      && Insert(lk, e).nameMap[n].name == n
      && Insert(lk, e).enumObj[n] == Insert(lk, e).nameMap[n].code
  {
  }

  /** One more loop iteration adds exactly the entry's code as a key. */
  lemma InsertCodeKeys(lk: Lookups, p: seq<Entry>, e: Entry)
    requires lk.codeArray == Codes(p)
    requires lk.codeMap.Keys == Elems(Codes(p))
    requires lk.codes.Keys == Elems(Codes(p))
    requires lk.descriptions.Keys == Elems(Codes(p))
    ensures Insert(lk, e).codeArray == Codes(p + [e])
    ensures Insert(lk, e).codeMap.Keys == Elems(Codes(p + [e]))
    ensures Insert(lk, e).codes.Keys == Elems(Codes(p + [e]))
    ensures Insert(lk, e).descriptions.Keys == Elems(Codes(p + [e]))
  {
  }

  /** One more loop iteration adds exactly the entry's name as a key. */
  lemma InsertNameKeys(lk: Lookups, p: seq<Entry>, e: Entry)
    requires lk.nameMap.Keys == Elems(Names(p))
    requires lk.enumObj.Keys == Elems(Names(p))
    ensures Insert(lk, e).nameMap.Keys == Elems(Names(p + [e]))
    ensures Insert(lk, e).enumObj.Keys == Elems(Names(p + [e]))
  {
    NamesSnoc(p, e);
    ElemsSnoc(Names(p), e.name);
  }

  /** One more loop iteration keeps the index in step with the visited prefix. */
  lemma InsertIndexes(lk: Lookups, p: seq<Entry>, e: Entry)
    requires Indexes(lk, p)
    ensures Indexes(Insert(lk, e), p + [e])
  {
    InsertCodeKeys(lk, p, e);
    InsertNameKeys(lk, p, e);
    InsertCodeKeyed(lk, p, e);
    InsertNameKeyed(lk, p, e);
  }

  /**
   * The index after the loop has visited every entry of `cat`, in order. It
   * needs no distinctness: a repeated key keeps the value written last. What it
   * promises of any catalog: the ordered code list is the catalog's codes; the
   * code-keyed maps have exactly the catalog's codes as keys and the
   * name-keyed maps exactly its names; each key leads to an entry of the
   * catalog that carries that key, and the projections are read off that same
   * entry.
   */
  function Build(cat: seq<Entry>): (r: Lookups)
    ensures r.codeArray == Codes(cat)
    ensures r.codeMap.Keys == Elems(Codes(cat))
    ensures r.codes.Keys == Elems(Codes(cat))
    ensures r.descriptions.Keys == Elems(Codes(cat))
    ensures r.nameMap.Keys == Elems(Names(cat))
    ensures r.enumObj.Keys == Elems(Names(cat))
    ensures forall k :: k in r.codeMap ==>
      && r.codeMap[k] in cat
      && r.codeMap[k].code == k
      && r.codes[k] == r.codeMap[k].name
      && r.descriptions[k] == r.codeMap[k].description
    ensures forall n :: n in r.nameMap ==>
      && r.nameMap[n] in cat
      && r.nameMap[n].name == n
      && r.enumObj[n] == r.nameMap[n].code
  {
    if |cat| == 0 then
      assert Indexes(Empty, cat);
      Empty
    else
      var p := cat[..|cat| - 1];
      var e := cat[|cat| - 1];
      assert cat == p + [e];
      var lk := Build(p);
      assert Indexes(lk, p);
      InsertIndexes(lk, p, e);
      Insert(lk, e)
  }

  /**
   * The single pass of the source: a loop over the catalog that inserts each
   * entry into all six projections. It computes the fold `Build`.
   */
  method BuildLookups(cat: seq<Entry>) returns (lk: Lookups)
    ensures lk == Build(cat)
  {
    lk := Empty;
    var i := 0;
    while i < |cat|
      invariant 0 <= i <= |cat|
      invariant lk == Build(cat[..i])
    {
      assert cat[..i + 1][..i] == cat[..i];
      lk := Insert(lk, cat[i]);
      i := i + 1;
    }
    assert cat[..|cat|] == cat;
  }

  /**
   * With distinct codes and distinct names, an entry is found under its own
   * code and its own name, and each projection agrees with the entry's fields.
   */
  lemma BuildAgreesAt(cat: seq<Entry>, i: nat)
    requires DistinctCodes(cat) && DistinctNames(cat)
    requires i < |cat|
    ensures cat[i].code in Build(cat).codeMap && Build(cat).codeMap[cat[i].code] == cat[i]
    ensures cat[i].name in Build(cat).nameMap && Build(cat).nameMap[cat[i].name] == cat[i]
    ensures Build(cat).codes[cat[i].code] == cat[i].name
    ensures Build(cat).descriptions[cat[i].code] == cat[i].description
    ensures Build(cat).enumObj[cat[i].name] == cat[i].code
  {
    var lk := Build(cat);
    var e := cat[i];
    assert Codes(cat)[i] == e.code;
    assert Names(cat)[i] == e.name;
    UniqueByCode(cat, lk.codeMap[e.code], i);
    UniqueByName(cat, lk.nameMap[e.name], i);
  }

  /** `BuildAgreesAt` for every entry of the catalog at once. */
  lemma BuildAgreesWithCatalog(cat: seq<Entry>)
    requires DistinctCodes(cat) && DistinctNames(cat)
    ensures forall i :: 0 <= i < |cat| ==>
      && cat[i].code in Build(cat).codeMap && Build(cat).codeMap[cat[i].code] == cat[i]
      && cat[i].name in Build(cat).nameMap && Build(cat).nameMap[cat[i].name] == cat[i]
      && Build(cat).codes[cat[i].code] == cat[i].name
      && Build(cat).descriptions[cat[i].code] == cat[i].description
      && Build(cat).enumObj[cat[i].name] == cat[i].code
  {
    forall i | 0 <= i < |cat|
      ensures cat[i].code in Build(cat).codeMap && Build(cat).codeMap[cat[i].code] == cat[i]
      ensures cat[i].name in Build(cat).nameMap && Build(cat).nameMap[cat[i].name] == cat[i]
      ensures Build(cat).codes[cat[i].code] == cat[i].name
      ensures Build(cat).descriptions[cat[i].code] == cat[i].description
      ensures Build(cat).enumObj[cat[i].name] == cat[i].code
    {
      BuildAgreesAt(cat, i);
    }
  }

  /**
   * With distinct codes and distinct names every projection has exactly one
   * key per entry: no key is lost and none is added.
   */
  lemma BuildSizes(cat: seq<Entry>)
    requires DistinctCodes(cat) && DistinctNames(cat)
    ensures |Build(cat).codeArray| == |cat|
    ensures |Build(cat).codeMap| == |cat| && |Build(cat).codes| == |cat|
    ensures |Build(cat).descriptions| == |cat|
    ensures |Build(cat).nameMap| == |cat| && |Build(cat).enumObj| == |cat|
  {
    DistinctCardinality(Codes(cat));
    DistinctCardinality(Names(cat));
    var lk := Build(cat);
    assert |lk.codeMap| == |lk.codeMap.Keys|;
    assert |lk.codes| == |lk.codes.Keys|;
    assert |lk.descriptions| == |lk.descriptions.Keys|;
    assert |lk.nameMap| == |lk.nameMap.Keys|;
    assert |lk.enumObj| == |lk.enumObj.Keys|;
  }

  /** `cat[i]` is the last entry of `cat` whose code is `k`. */
  ghost predicate LastWithCode(cat: seq<Entry>, i: int, k: string) {
    0 <= i < |cat| && cat[i].code == k && forall j :: i < j < |cat| ==> cat[j].code != k
  }

  /** `cat[i]` is the last entry of `cat` whose name is `n`. */
  ghost predicate LastWithName(cat: seq<Entry>, i: int, n: string) {
    0 <= i < |cat| && cat[i].name == n && forall j :: i < j < |cat| ==> cat[j].name != n
  }

  /** An entry with another code leaves the last holder of `k` in place. */
  lemma LastWithCodeSnoc(p: seq<Entry>, e: Entry, i: int, k: string)
    requires LastWithCode(p, i, k) && e.code != k
    ensures LastWithCode(p + [e], i, k) && (p + [e])[i] == p[i]
  {
  }

  /** An entry with another name leaves the last holder of `n` in place. */
  lemma LastWithNameSnoc(p: seq<Entry>, e: Entry, i: int, n: string)
    requires LastWithName(p, i, n) && e.name != n
    ensures LastWithName(p + [e], i, n) && (p + [e])[i] == p[i]
  {
  }

  /**
   * When codes repeat, the entry kept under a code is the last one in catalog
   * order that carries it.
   */
  lemma {:induction false} CodeMapKeepsLast(cat: seq<Entry>, k: string) returns (i: int)
    requires k in Build(cat).codeMap
    ensures LastWithCode(cat, i, k) && cat[i] == Build(cat).codeMap[k]
  {
    var p := cat[..|cat| - 1];
    var e := cat[|cat| - 1];
    assert cat == p + [e];
    var m := Build(p).codeMap;
    assert Build(cat).codeMap == m[e.code := e];
    if e.code == k {
      i := |cat| - 1;
    } else {
      i := CodeMapKeepsLast(p, k);
      LastWithCodeSnoc(p, e, i, k);
    }
  }

  /**
   * When names repeat, the entry kept under a name is the last one in catalog
   * order that carries it.
   */
  lemma {:induction false} NameMapKeepsLast(cat: seq<Entry>, n: string) returns (i: int)
    requires n in Build(cat).nameMap
    ensures LastWithName(cat, i, n) && cat[i] == Build(cat).nameMap[n]
  {
    var p := cat[..|cat| - 1];
    var e := cat[|cat| - 1];
    assert cat == p + [e];
    var m := Build(p).nameMap;
    assert Build(cat).nameMap == m[e.name := e];
    if e.name == n {
      i := |cat| - 1;
    } else {
      i := NameMapKeepsLast(p, n);
      LastWithNameSnoc(p, e, i, n);
    }
  }
}
