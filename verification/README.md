# Curtiss Annotation Nomenclature — a Dafny model of its core

The Curtiss Annotation Nomenclature (CAN) is a static catalog of short
annotation codes ("!", "AG", "KC", …), each with a unique name and a
description, plus three emphasizer codes ("+", "-", "*") that may follow an
annotation to mark strong liking, strong disliking or importance. The library
builds lookup indices from each catalog once, exposes lookup, list-all and
validation functions over them, and formats a decorated annotation into a
plain-text rendering and the loose pieces a graphical renderer needs. A usage
example adds a parser that splits a combined code such as "+KC" into its
emphasizer and its annotation code.

This project models that core in Dafny and proves its behaviour:

- `catalog.dfy` (module `Catalog`): entries, the code and name projections,
  the distinctness invariants of a catalog.
- `lookups.dfy` (module `Lookups`): the index builder. `Build` is the fold the
  source's loop performs (six projections written from each entry in catalog
  order, last write wins on a repeated key); `BuildLookups` is that loop,
  proved to compute the fold.
- `accessors.dfy` (module `Accessors`): lookup by code and by name, list-all
  with its set-once cache, the validation set and validator — written once
  for any catalog.
- `emphasizers.dfy` (module `Emphasizers`): the three-entry emphasizer catalog
  as data, its accessors and its validator.
- `decimal.dfy` (module `Decimal`): base-ten rendering of the occurrence count
  and the parser that reads it back.
- `formatter.dfy` (module `Formatter`): the formatter.
- `combined_code.dfy` (module `CombinedCode`): the combined-code parser.
- `wrappers.dfy` (module `Wrappers`): `Option`, standing for `undefined`/`null`.

The 100-entry annotation catalog is a parameter `cat: seq<Entry>` of every
annotation operation; properties that need distinct codes or names take that
as a precondition, exactly as the library relies on its data author for it.

## Model

| member | source | states |
|---|---|---|
| Lookups.Build | src/curtiss-annotation-nomenclature.ts:630-637 | For any catalog: the code list is the catalog's codes in order; the code-keyed maps have exactly the catalog's codes as keys and the name-keyed maps exactly its names; each key leads to an entry of the catalog carrying that key, and name/description/code projections are read off that same entry |
| Lookups.BuildLookups | src/curtiss-annotation-nomenclature.ts:622-641 | The single-pass loop over the catalog computes the same index as the fold `Build` |
| Lookups.BuildAgreesAt | src/curtiss-annotation-nomenclature.ts:630-637 | With distinct codes and names, entry i is found under its code and its name, and code→name, code→description and name→code agree with its fields |
| Lookups.BuildAgreesWithCatalog | src/curtiss-annotation-nomenclature.test.ts:585-654 | The same agreement for every entry of the catalog at once |
| Lookups.BuildSizes | src/curtiss-annotation-nomenclature.test.ts:137-187 | With distinct codes and names, each of the six projections has exactly as many keys (elements) as the catalog has entries |
| Lookups.CodeMapKeepsLast | src/curtiss-annotation-nomenclature.ts:635 | When codes repeat, the entry kept under a code is the last entry in catalog order carrying it |
| Lookups.NameMapKeepsLast | src/curtiss-annotation-nomenclature.ts:636 | When names repeat, the entry kept under a name is the last entry in catalog order carrying it |
| Accessors.GetByCode | src/curtiss-annotation-nomenclature.ts:814-816 | Some exactly when some entry's code equals the argument (case-sensitive, no exception otherwise); the result carries that code and is an entry of the catalog; with distinct codes it is that very entry |
| Accessors.GetByName | src/curtiss-annotation-nomenclature.ts:822-824 | Some exactly when some entry's name equals the argument; the result carries that name; with distinct names it is that very entry |
| Accessors.GetAll | src/curtiss-annotation-nomenclature.ts:829-835 | Returns the catalog entry for entry in catalog order; afterwards the cache holds the returned list; a filled cache is returned and left unchanged |
| Accessors.GetAllStable | src/curtiss-annotation-nomenclature.test.ts:1423-1431 | Two consecutive list-all calls return the same list and the second leaves the cache as the first left it |
| Accessors.IsValidCode | src/curtiss-annotation-nomenclature.ts:858-867 | True exactly when the value is some entry's code; false for "" when all codes are non-empty |
| Accessors.ValidIffFound | src/curtiss-annotation-nomenclature.ts:863-867 | The validator accepts exactly the values lookup by code finds |
| Accessors.CodeListMatchesGetAll | src/curtiss-annotation-nomenclature.test.ts:314-331 | The ordered code list and the list-all result have equal length and agree position by position |
| Emphasizers.EmphasizerCatalogWellFormed | src/curtiss-annotation-nomenclature.ts:583-587 | The three-entry emphasizer catalog has distinct non-empty codes and distinct non-empty names |
| Emphasizers.IsValidEmphasizerCode | src/curtiss-annotation-nomenclature.ts:1032-1036 | True exactly for "+", "-" and "*" |
| Emphasizers.EmphasizerValidatorsAgree | src/curtiss-annotation-nomenclature.ts:899-901 | The emphasizer set mapped from the catalog accepts the same values as the generic validator built from the code list |
| Emphasizers.GetEmphasizerByCode | src/curtiss-annotation-nomenclature.ts:1005-1007 | "+", "-", "*" give StrongLike, StrongDislike, Critical; every other code gives None |
| Emphasizers.GetEmphasizerByName | src/curtiss-annotation-nomenclature.ts:1013-1015 | "StrongLike", "StrongDislike", "Critical" give their entries; every other name gives None |
| Emphasizers.GetAllEmphasizers | src/curtiss-annotation-nomenclature.ts:1020-1027 | Returns the three entries in catalog order and leaves them in the cache; a filled cache is left unchanged |
| Emphasizers.PrefixFreeImpliesDisjoint | src/curtiss-annotation-nomenclature.test.ts:1178-1188 | If no annotation code begins with an emphasizer character, no annotation code is an emphasizer code |
| Decimal.NatToDecimal | src/curtiss-annotation-nomenclature.ts:974 | The rendered count is a non-empty digit string with no superfluous leading zero |
| Decimal.ParseRendered | src/curtiss-annotation-nomenclature.ts:974 | Reading the rendered digits back gives the count |
| Decimal.RenderParsed | src/curtiss-annotation-nomenclature.ts:974 | Every canonical digit string is the rendering of its value, so rendering is onto canonical strings |
| Decimal.RenderInjective | src/curtiss-annotation-nomenclature.ts:974 | Distinct counts render differently |
| Formatter.Badge | src/curtiss-annotation-nomenclature.ts:974 | Empty exactly when the count is absent or 0; otherwise "[", canonical digits whose value is the count, "]" |
| Formatter.JoinShape | src/curtiss-annotation-nomenclature.ts:980-989 | Dropping the empty pieces of [left, circle+emphasizer, note] and joining with single spaces gives left+" " (if present), the circle touching its emphasizer, then " "+note (if present) |
| Formatter.Format | src/curtiss-annotation-nomenclature.ts:968-999 | Circle is "(code)"; graphical circle content is the bare code; top-left, right and note agree between the two renderings; right and note are the emphasizer and note or "" when absent or empty; left is the badge; the annotation is the closed-form single-space layout with circle and emphasizer touching; the code is echoed |
| Formatter.ZeroCountIsAbsent | src/curtiss-annotation-nomenclature.test.ts:1623-1630 | A count of 0 formats exactly like an absent count |
| Formatter.EmptyNoteIsAbsent | src/curtiss-annotation-nomenclature.test.ts:1632-1638 | An empty note formats exactly like an absent note |
| Formatter.EmptyEmphasizerIsAbsent | src/curtiss-annotation-nomenclature.ts:975 | An empty emphasizer formats exactly like an absent one |
| Formatter.FormatCodeOnly | src/curtiss-annotation-nomenclature.test.ts:1495-1513 | "KC" alone gives "(KC)" with circle content "KC" |
| Formatter.FormatWithEmphasizer | src/curtiss-annotation-nomenclature.test.ts:1515-1530 | "KC" with "*" gives "(KC)*" |
| Formatter.FormatWithCount | src/curtiss-annotation-nomenclature.test.ts:1532-1547 | "Q" with count 1 gives "[1] (Q)" |
| Formatter.FormatWithNote | src/curtiss-annotation-nomenclature.test.ts:1549-1567 | "FL" with a non-empty note gives "(FL) " followed by the note |
| Formatter.FormatWithEverything | src/curtiss-annotation-nomenclature.test.ts:1569-1595 | "KC" with "*", count 5 and a non-empty note gives "[5] (KC)* " followed by the note |
| Formatter.FormatZeroCount | src/curtiss-annotation-nomenclature.test.ts:1623-1630 | "C" with count 0 has an empty left piece and renders "(C)" |
| Formatter.FormatLargeCount | src/curtiss-annotation-nomenclature.test.ts:1698-1704 | "KC" with count 999 renders "[999] (KC)" |
| CombinedCode.ParseCombinedCode | src/examples.ts:390-416 | A leading "+", "-" or "*" is split off and the rest must be a valid code (no fall-back to the whole string); otherwise the whole string must be a valid code; every result has a valid annotation, an emphasizer from the catalog, and renders back to the input; "" gives None when all codes are non-empty |
| CombinedCode.ParseEmphasized | src/examples.ts:395-405 | An emphasizer code followed by a valid annotation code parses into the two |
| CombinedCode.ParsePlain | src/examples.ts:406-412 | A valid annotation code parses as itself without emphasizer, given no annotation code begins with an emphasizer character |
| CombinedCode.ParseRenderRoundTrip | src/examples.ts:390-416 | Parsing the rendering of any well-formed combined code gives it back |
| CombinedCode.ParseEmphasizedExamples | src/examples.ts:420-421 | "+KC" and "*C" parse into their emphasizer and code |
| CombinedCode.ParsePlainExamples | src/examples.ts:422-423 | "KC" parses without emphasizer and "INVALID" gives None |

## Left out

- Deep freezing (`deepFreeze`, `Object.freeze`): Dafny sequences, maps and datatypes are immutable values, so there is nothing to freeze; the "same instance on every call" promise of list-all is modelled as a set-once cache value threaded through `GetAll`, since reference identity is not observable for Dafny values.
- The literal 100-entry annotation catalog: it is a parameter of every annotation operation; the emphasizer catalog is transcribed.
- The hand-written TypeScript enums and type aliases: they repeat the name→code projection (`enumObj`) for static typing only.
- The version string, the disclaimer and the emphasizer usage text: constants without behaviour.
- Formatter.Format: the occurrence count is a natural number; JavaScript truthiness of negative numbers, fractions and NaN is not modelled, and counts of 10^21 and above, which JavaScript prints in exponent notation, are rendered in plain decimal.
- The plain-object maps (`enumObj`, `codes`, `descriptions`) are modelled as Dafny maps; JavaScript's special handling of a key named `__proto__` is not modelled, as no catalog key has that form.
- Strings are sequences of Unicode scalar values rather than UTF-16 code units; the parser's first-character test only matters for the ASCII emphasizers, where the two agree.
- The rest of the usage examples (console output, the annotator classes, search with case folding, the throwing note helper, UI option builders) and the test runner.
