# structure-anal in Dafny

A model of the field-profiling engine of `structure-anal` and of its
path-key helpers, with proofs of what they guarantee.

`StructureAnalyzer` (src/index.ts) walks each record of nested data depth
first. Every node of the record tree is counted under a field key: the path of
key segments from the root, with all-digit segments collapsed to `#` when
`collapseNumericKeys` is on, passed through a pluggable path reducer. A
container contributes the marker string `"[array(n)]"` or `"[object]"`; any
other value contributes itself. Each field keeps three statistics:

- how many records contain it, credited at most once per record through a
  per-record seen-set;
- how many times it occurred in all;
- a catalog that counts each distinct value. Once the catalog holds more
  than `maxUniqueValuesPerField` values it becomes null, and it stays null.

`makePathReducer` (src/utils.ts) builds a reducer. The reducer joins the
path behind a leading `"."` and then applies a list of substring rewrites.
Each rewrite is repeated by `replaceAll` until the string stops changing.
`printAnalyzerEntries` and `fieldInfoSummary` choose which entries to print
and how many catalog values to list.

Layout:

- `types.dfy`: the shared data shapes of src/types.ts, the record tree
  `Json`, and the catalog key `Value`. Markers are plain strings, so a leaf
  string `"[object]"` is the same catalog entry as the object marker, as in
  the source.
- `ordered_map.dfy`: `OMap`, an insertion-ordered dictionary with the
  behaviour of an ECMAScript `Map`.
- `sorting.dfy`: a stable insertion sort by a comparator, standing for
  `Array.prototype.sort`.
- `profile.dfy`: the meaning of the analyzer as functions on values:
  - the observations one walk makes (`Observations`);
  - one `countValue` (`Observe`);
  - the table a sequence of records produces (`Analysis`);
  - the exported snapshot (`Snapshot`).
- `profile_facts.dfy`: lemmas about those functions:
  - catalog contents and the overflow condition;
  - per-field credit and totals;
  - the shape of the traversal.
- `analyzer.dfy`: the class `StructureAnalyzer`. It has the source's fields,
  plus a ghost record of the records processed so far. Its methods update its
  state the way the source does, loop by loop. `ProcessEntity` and
  `ProcessEntities` keep `Valid()`: the table is `Analysis` of the records
  processed. The private steps are proved equal to their functional meaning:
  `ProcessEntityInternal` to `ObserveAll` of the walk's `Observations`, and
  `CountValue` to one `Observe`.
- `path_reducer.dfy`: `replaceAll` as a loop around one leftmost,
  non-overlapping replacement pass, with its fixed point, and `makePathReducer`.
- `display.dfy`: the selection and truncation logic of the display helpers.
- `scenarios.dfy`: worked examples on concrete paths and concrete record
  shapes.

A single pass of each collapse rewrite already reduces
`.items.#.items.#.items` to `.items`: see the second `ensures` of
`Scenarios.CollapseNested`, proved for any name `c`.
`Scenarios.CollapseRepeated` shows a key where repeating matters: `c.c.c`
reduces to `.c`, but a single pass of each rewrite stops at `.c.c`.

## Model

| member | source | states |
|---|---|---|
| Analyzer.StructureAnalyzer.constructor | src/index.ts:13-24 | A fresh analyzer has processed nothing and has an empty table. Each option left out takes its default: a cap of 1000, numeric keys collapsed, segments joined with ".". The cap is not validated. |
| Analyzer.StructureAnalyzer.ProcessEntities | src/index.ts:54-58 | The records are processed in order. The counter rises by their number. The table becomes the one the old table and the records produce. |
| Analyzer.StructureAnalyzer.ProcessEntity | src/index.ts:61-64 | One walk with a fresh seen-set, then the counter rises by exactly 1. Every field is credited once if the record produced a value at its key, and not at all otherwise. Afterwards, for every field: entities <= records processed and entities <= total. A tracked catalog sums to the total and holds at most the cap of values. |
| Analyzer.StructureAnalyzer.ProcessEntityInternal | src/index.ts:66-79 | The recursive walk has the effect of its pre-order observations: a container's marker first, then each child at the path extended by its key (or "#"), in key order. The counter is untouched. |
| Analyzer.StructureAnalyzer.CountValue | src/index.ts:81-105 | A field is created on first sight with zero counts and an empty catalog. Its total rises by 1. It is credited once per seen-set. Its value is bumped in the catalog, which becomes null when it exceeds the cap. The result is exactly one `Observe` step. |
| Analyzer.StructureAnalyzer.Entries | src/index.ts:31-44 | Returns one projected pair per field, in first-seen order, and leaves the analyzer unchanged. The sort flag defaults to true. |
| Analyzer.StructureAnalyzer.Sorted | src/index.ts:47-51 | Returns a permutation of the entries, ordered by key. The sort flag defaults to true. |
| Profile.Join | src/index.ts:23 | `Array.prototype.join`: the segments with the separator between each two. |
| ProfileFacts.JoinAppend | src/index.ts:23 | Joining `p + q` is joining `p`, the separator, then joining `q`, for non-empty `p` and `q`. |
| Profile.DefaultPathReducer | src/index.ts:23 | The reducer used when none is configured joins the segments with "."; `Scenarios.DefaultKeys` gives its values on the sample paths. |
| Profile.Segment | src/index.ts:70-73 | A key becomes "#" exactly when collapsing is on and the key is all digits, or when the key already is "#". Any key that is not collapsed is kept unchanged. |
| Profile.Decimal | src/index.ts:69 | The array index keys of `Object.keys` are non-empty strings of digits. |
| ProfileFacts.DecimalValue | src/index.ts:69 | `Decimal(n)` is the numeral of `n`: read back as digits it denotes `n`. |
| ProfileFacts.DecimalNoLeadingZero | src/index.ts:69 | The numeral has no leading zero: only `0` is written starting with "0", as `String(n)` writes it. |
| ProfileFacts.DecimalInjective | src/index.ts:69 | Different indices have different numerals. |
| ProfileFacts.ArrayPathsDistinct | src/index.ts:69-74 | With collapsing off, different elements of an array are walked at different paths. |
| Profile.ArrayMarker | src/index.ts:68 | The marker string `"[array(n)]"` of an array of `n` elements. Its properties are stated by the next two rows. |
| ProfileFacts.ArrayMarkerInjective | src/index.ts:68 | Arrays of different lengths are recorded as different values. |
| ProfileFacts.ArrayMarkerNotObject | src/index.ts:68 | No array marker equals the object marker `ObjectMarker`, the string "[object]". |
| Profile.NodeValue | src/index.ts:67-77 | The value `countValue` receives for a node: the array or object marker for a container, the scalar itself otherwise. Its properties are stated by the next two rows. |
| ProfileFacts.ContainerValueIdentity | src/index.ts:67-68 | Two containers are the same catalog value exactly when both are objects, or both are arrays of the same length. |
| ProfileFacts.ObjectMarkerCollision | src/index.ts:67-77 | A leaf string "[object]" is the same catalog value as any object. |
| Profile.Keys | src/index.ts:69 | `Object.keys` lists one key per array element or object property. |
| Profile.Project | src/index.ts:34-41 | The exported copy keeps both counters. Its values are null exactly when the catalog overflowed. Otherwise they are a permutation of the catalog's entries, and exactly those entries in insertion order when the sort flag is off. |
| Profile.ProjectSorted | src/index.ts:39-41 | With the flag set, the exported values are in non-increasing count order. |
| Profile.Snapshot | src/index.ts:31-44 | One pair per field, in the table's insertion order: its own key with its projected field. |
| Profile.ByCountDescTotalPreorder | src/index.ts:40 | The comparator by descending count is total and transitive. |
| Profile.ByKeyTotalPreorder | src/index.ts:49 | The comparator by key is total and transitive. |
| Sorting.SortBy | src/index.ts:40 | Sorting returns a permutation of its input. |
| Sorting.SortBySorted | src/index.ts:40 | For a total, transitive comparator, sorting returns a sequence ordered by it. |
| Sorting.LexLeqAntisymmetric | src/index.ts:49 | The key order ties only equal keys. |
| OrderedMaps.OMap.Set | src/index.ts:84-88 | `Map.set` keeps the map valid: keys distinct and listed exactly once. |
| OrderedMaps.Empty | src/index.ts:15 | `new Map()` is valid and holds no key. |
| OrderedMaps.SetPresentEntries | src/index.ts:100 | Setting a present key changes its entry in place and no other entry. |
| OrderedMaps.SetAbsentEntries | src/index.ts:84-88 | Setting a new key appends one entry at the end of the iteration order. |
| OrderedMaps.SizeIsCardinality | src/index.ts:101 | `size` is the number of distinct keys. |
| ProfileFacts.BumpCount | src/index.ts:99-100 | Bumping `v` adds one to the count of `v` and to no other count. |
| ProfileFacts.BumpSum | src/index.ts:99-100 | Bumping a value adds exactly one to the sum of the catalog's counts. |
| ProfileFacts.BumpValid | src/index.ts:99-101 | After a bump, the catalog holds its old values plus `v`, and its size is their number. |
| ProfileFacts.RecordAllOverflowed | src/index.ts:98-104 | A null catalog stays null whatever is observed. |
| ProfileFacts.RecordAllAppend | src/index.ts:98-104 | Recording `a` and then `b` is recording `a + b`. |
| ProfileFacts.CatalogTrackedIff | src/index.ts:98-104 | A catalog built from `vs` is non-null exactly when `vs` has at most cap distinct values (or is empty). Then its keys are exactly those values. |
| ProfileFacts.CatalogCounts | src/index.ts:99-100 | While non-null, the catalog holds each value with its number of occurrences in `vs`. |
| ProfileFacts.CatalogSum | src/index.ts:92-100 | While non-null, the catalog's counts sum to the number of observations. |
| ProfileFacts.RecordAllFromEmpty | src/index.ts:84-104 | All of the catalog facts together: tracked iff the distinct values fit the cap; the exact keys; size <= cap; count per value; sum of counts. |
| ProfileFacts.ObservePreservesWellFormed | src/index.ts:81-105 | `countValue` keeps the table and every non-null catalog a valid ordered map. |
| ProfileFacts.ObserveAt | src/index.ts:81-105 | Afterwards the field of the reduced key exists. Its total rises by 1, it is credited unless already seen in this record, and its catalog records the value. Every other field is unchanged. |
| ProfileFacts.ObserveAllKeys | src/index.ts:83-96 | A run of observations adds exactly its keys to the seen-set, creates exactly their fields, and keeps the table well formed. |
| ProfileFacts.ObserveAllCounters | src/index.ts:92-97 | Over a run, field `k` is credited at most once, and only if it was not seen before. Its total rises by the number of observations at `k`. |
| ProfileFacts.ObserveAllCatalog | src/index.ts:98-104 | Over a run, the catalog of `k` records exactly the values observed at `k`, in order. |
| ProfileFacts.ObserveAllGrows | src/index.ts:83-89 | Fields are never removed and keep their place in the iteration order. |
| ProfileFacts.ObserveAllAppend | src/index.ts:69-75 | Observing `a` and then `b` is observing `a + b`. |
| ProfileFacts.KeysOfValuesAt | src/index.ts:94-97 | A record contains a key exactly when it produces a value at that key. |
| ProfileFacts.ObserveRecordAt | src/index.ts:61-64 | After one record, field `k` exists iff it existed or the record produced a value at `k`. It is credited once iff the record produced a value at `k`. Its total rises by the number of such values, and its catalog records them. |
| ProfileFacts.AnalysisAppend | src/index.ts:54-58 | Processing `a` and then `b` is processing `a + b`. |
| ProfileFacts.AnalysisAt | src/index.ts:54-64 | After many records, field `k` is credited once per record that contains it. Its total rises by the number of values at `k`, its catalog records all of them, and existing fields keep their order. |
| ProfileFacts.RecordsWithBounds | src/index.ts:94-97 | The records containing `k` are at most the records, at most the values observed at `k`, and none exactly when no value was. |
| ProfileFacts.FieldStatistics | src/index.ts:81-105 | Each present field obeys: 1 <= entities <= records; entities <= total. The catalog is null iff more than cap distinct values were seen. Otherwise it holds each of them with its number of occurrences, sums to the total, and has at most cap entries. |
| ProfileFacts.OverflowIsPermanent | src/index.ts:98-104 | A null catalog stays null through any later records, while both counters keep counting. |
| ProfileFacts.OneObservationPerNode | src/index.ts:66-79 | A walk makes exactly one observation per node of the tree. |
| ProfileFacts.ObservationsBelow | src/index.ts:66-79 | A walk's first observation is the node itself at its path. Every other one is at a strictly longer path below it. |
| ProfileFacts.WalkChild | src/index.ts:69-75 | Walking the first i+1 children is walking the first i, then child i at the path extended by its segment. |
| ProfileFacts.WalkContainer | src/index.ts:67-75 | A container's walk records its marker first, then walks its children. |
| ProfileFacts.ArrayElementPath | src/index.ts:69-74 | With collapsing on, every array element is walked at `path + ["#"]`. With it off, element i is walked at `path + [i]`. |
| PathReducers.ReplacePass | src/utils.ts:7 | One `String.prototype.replaceAll` with a non-empty string pattern: each leftmost non-overlapping occurrence, scanning from the left, is replaced. Its properties are stated by the next four rows. |
| PathReducers.PassShrinks | src/utils.ts:7 | With a shorter replacement, a pass never lengthens the string and shortens it whenever the pattern occurs. |
| PathReducers.PassChanges | src/utils.ts:5-8 | A pass changes the string exactly when the pattern occurs in it. |
| PathReducers.PassIdentity | src/utils.ts:7 | A pass over a string without an occurrence leaves it unchanged. |
| PathReducers.PassFront | src/utils.ts:7 | A match at the front is replaced, and the scan resumes after it. |
| PathReducers.ReplaceAllFix | src/utils.ts:3-10 | The loop ends at a string with no occurrence of the pattern, which one more pass leaves unchanged. That string is no longer than the input, and is the input itself when the pattern never occurred. |
| PathReducers.ReplaceAllIdempotent | src/utils.ts:3-10 | `replaceAll` applied to its own result returns it unchanged. |
| PathReducers.ReplaceAll | src/utils.ts:3-10 | The do-while loop terminates and returns that fixed point. |
| PathReducers.Replaces | src/utils.ts:15-25 | The rewrite list has three rewrites per collapse name and two per remove name. |
| PathReducers.MakePathReducer | src/utils.ts:12-31 | The reducer `makePathReducer` returns: the path joined behind a ".", then each rewrite of `Replaces` repeated until it no longer applies, in order. Its properties are stated by `ReducePath`, `ApplyRewritesLast`, `NoRewrites`, `SingleCollapse`, `SingleRemove` and the scenarios. |
| PathReducers.ReducePath | src/utils.ts:13-30 | The closure's loop over the rewrite pairs returns the reducer's value for the path. |
| PathReducers.ApplyRewritesLast | src/utils.ts:26-28 | After the loop, the last rewrite's pattern no longer occurs. |
| PathReducers.NoRewrites | src/utils.ts:14-29 | With neither list, the reducer gives `"." + path.join(".")`. |
| PathReducers.SingleCollapse | src/utils.ts:17-19 | With one collapse name `c` and no remove list, the key contains no `.c.c`. |
| PathReducers.SingleRemove | src/utils.ts:22-23 | With one remove name `r` and no collapse list, the key contains no `.r`, not even as the start of a longer segment. |
| Display.Summarize | src/utils.ts:41-52 | The summary is "too many values" exactly when the catalog is null. Otherwise the listed values are a prefix of the catalog, and listed + omitted = all. There is no omitted note exactly when the limit is 0 or absent, or the catalog fits the limit; then all values are listed. With a positive limit below the length, exactly `limit` values are listed and `length - limit` are omitted. |
| Display.NegativeLimit | src/utils.ts:44-46 | A negative limit drops that many values from the end (or all of them) and still adds an omitted note. |
| Display.Show | src/utils.ts:64 | The heading is the key, or "<root>" for the empty key, followed by both counters. |
| Display.Settings | src/utils.ts:56-58 | The options after defaults: neither flag set, and a value limit of 10. |
| Display.PrintAnalyzerEntries | src/utils.ts:55-66 | The loop prints, in order, exactly the entries the two flags do not skip. |
| Display.PrintedOne | src/utils.ts:62-63 | An entry is skipped exactly in two cases: `omitTooManyValues` and a null catalog; or `omitObjectOnlyEntries` and a catalog that is the single value "[object]". Otherwise it is printed as shown. |
| Display.PrintedAppend | src/utils.ts:61-65 | Printing `a + b` prints `a`, then `b`. |
| Display.PrintedAll | src/utils.ts:61-65 | With neither flag, every entry is printed, in order, one line per entry. |
| Display.PrintedNotSkipped | src/utils.ts:61-65 | Every printed line comes from an entry that is not skipped, and no more lines than entries are printed. |
| Scenarios.DefaultKeys | src/index.ts:23-73 | `["a","0","b"]` keys to "a.#.b", or to "a.0.b" with collapsing off. The root keys to "". |
| Scenarios.CollapseNested | src/utils.ts:14-28 | Collapsing `c` reduces `c.#.c.#.c` to ".c". A single pass of each rewrite reaches ".c" as well. |
| Scenarios.CollapseRepeated | src/utils.ts:3-28 | For `c` without "#", `c.c.c` reduces to ".c", whereas a single pass of each rewrite would stop at ".c.c". |
| Scenarios.DoublingRewrite | src/utils.ts:3-10 | One pass of the doubling rewrite turns ".c.c.c" into ".c.c". `replaceAll` takes it to ".c". |
| Scenarios.HashRewritesIdle | src/utils.ts:17-18 | The two "#" rewrites leave a key without "#" unchanged. |
| Scenarios.RemoveIsNotSegmentAware | src/utils.ts:22-23 | Removing "a" turns the path `["ab"]` into "b". |
| Scenarios.ScalarChildren | src/index.ts:69-74 | The elements of a scalar array make one observation each, all at `path + ["#"]`. |
| Scenarios.ItemsRecord | src/index.ts:66-79 | The record `{items: es}`, with `es` scalars, produces the key "items.#" with one value per element. |
| Scenarios.ItemsScenario | src/index.ts:61-105 | A default analyzer that processes `{items: es}` credits "items.#" to 1 record, with a total of `|es|`. |
| Scenarios.NumberedRecord | src/index.ts:66-79 | The record `{v: i}` produces exactly the value i at "v". |
| Scenarios.NumberedHistory | src/index.ts:54-79 | Over the records `{v: 0}` ... `{v: n-1}`, "v" sees the values 0 .. n-1, one per record. |
| Scenarios.OverflowScenario | src/index.ts:20-105 | With cap c (1000 when left out), n distinct values at "v" leave the catalog null exactly when n > c. Both counters reach n. |

## Left out

- Output: `printFn` and `console.log` are not modelled, nor the text of the lines. A printed entry is the data its lines are made from.
- `valueText` (JSON serialisation and display truncation) is not modelled.
- Pluralisation of "value" in `fieldInfoSummary` is not modelled.
- Analyzer.StructureAnalyzer.Sorted: orders keys lexicographically by Unicode code point (`LexLeq`), not by `localeCompare`. Code-point order differs from the UTF-16 code-unit order of JavaScript strings for characters above U+FFFF. Locale collation is foreign code; the contract promises only a permutation sorted by some total order on keys.
- Generators: `entries` is a generator and `processEntities` takes any iterable. Both are modelled on finite sequences, so laziness and single-pass iteration are not captured.
- Counters are unbounded naturals. The source's counters are JS numbers, exact only up to 2^53.
- Strings are sequences of Unicode scalar values. JS strings containing lone UTF-16 surrogates, legal as keys and values, have no Dafny `string` counterpart.
- The recursive walk has no depth bound. In the source a very deep record makes `processEntityInternal` throw a `RangeError` when the call stack is exhausted.
- Numbers are integers. Floating point, NaN, -0 and the SameValueZero rules of `Map` keys are not modelled. Neither are bigint, symbols and functions as record values.
- Record trees are finite and acyclic. Sparse-array holes, getters, the prototype chain, and the ordering `Object.keys` applies to integer-like object keys are not modelled: an object's key sequence is taken as what `Object.keys` enumerates.
- A caller-supplied path reducer is an opaque total function. `makePathReducer` is the one reducer whose behaviour is modelled.
- In-place updates: the source mutates one `InternalFieldInfo` object through the reference `fields.get` returns, and the per-record `Set` in place. The model writes the updated field back into the ordered map and threads the seen-set through the calls as an argument and a result. Nothing outside the analyzer holds those references, because `entries` exports copies.
- PathReducers.ReplacePass: a replacement is inserted literally. `String.prototype.replaceAll` expands `$$`, `$&`, `` $` `` and `$'` in a string replacement; a replacement containing `$` is outside the model.
- PathReducers.MakePathReducer: collapse and remove names containing `$` are outside the model. For such names the source's key can differ (collapse `["a$$"]` on `["a$$", "a$$"]` gives `.a$` in the source and `.a$$` in the model), or the source loop may never end: with the name `$&` each pass lengthens the string, while `ReplaceAllFix` stops.
- PathReducers.ReplaceAll: requires a non-empty pattern and a strictly shorter replacement. Every rewrite `makePathReducer` builds meets this by length, which the `Rewrite` type records; with a literal replacement this makes the loop end. For other arguments, and for names containing `$` (see above), the source loop may not terminate.
- Scenarios.CollapseRepeated: requires that the collapse name contain no "#". A name with "#" could let the "#" rewrites apply.
- The `entitiesProcessed` getter (src/index.ts:27) is the field `entitiesProcessed` itself.
