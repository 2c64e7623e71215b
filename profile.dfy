/** The meaning of the field-profiling engine of src/index.ts as functions on
    values: what one traversal observes, what one `countValue` does to the
    field table, and the table that a sequence of records produces. The class
    in module Analyzer is proved to keep its state equal to these. */
module Profile {
  import opened Types
  import opened OrderedMaps
  import opened Sorting

  /** The default of `maxUniqueValuesPerField` (src/index.ts:21). */
  const DefaultMaxUniqueValues: int := 1000

  /** A field's value catalog: the counts per distinct value while it is
      tracked, and `Overflowed` (JavaScript `null`) once it grew past the cap. */
  datatype Catalog = Tracked(counts: OMap<Value, nat>) | Overflowed

  /** `InternalFieldInfo` */
  datatype Field = Field(
    entitiesWithFieldCount: nat,
    fieldOccurancesTotalCount: nat,
    uniqueValues: Catalog)

  /** The analyzer's `fields` map from field key to statistics. */
  type FieldTable = OMap<string, Field>

  /** The three settings fixed at construction. */
  datatype Config = Config(
    maxUniqueValuesPerField: int,
    collapseNumericKeys: bool,
    pathReducer: PathReducer)

  // ---------------------------------------------------------------------------
  // Path keys
  // ---------------------------------------------------------------------------

  /** `Array.prototype.join` */
  function Join(path: seq<string>, sep: string): string {
    if path == [] then ""
    else if |path| == 1 then path[0]
    else path[0] + sep + Join(path[1..], sep)
  }

  /** The reducer used when none is configured: join the segments with ".". */
  function DefaultPathReducer(): PathReducer {
    path => Join(path, ".")
  }

  /** The key matches `/^[0-9]+$/`. */
  predicate IsNumericKey(k: string) {
    |k| > 0 && forall i | 0 <= i < |k| :: '0' <= k[i] <= '9'
  }

  /** The segment appended to the path for key `k`. */
  function Segment(k: string, collapse: bool): (s: string)
    ensures s == "#" <==> (collapse && IsNumericKey(k)) || k == "#"
    ensures !(collapse && IsNumericKey(k)) ==> s == k
  {
    if collapse && IsNumericKey(k) then "#" else k
  }

  function Digit(d: nat): (c: char)
    requires d < 10
    ensures '0' <= c <= '9'
  {
    (48 + d) as char
  }

  /** The decimal numeral of `n`, as `String(n)` writes it. */
  function Decimal(n: nat): (s: string)
    ensures IsNumericKey(s)
    ensures |s| >= 1
  {
    if n < 10 then [Digit(n)] else Decimal(n / 10) + [Digit(n % 10)]
  }

  // ---------------------------------------------------------------------------
  // Traversal
  // ---------------------------------------------------------------------------

  /** The marker recorded for an array of `n` elements: "[array(n)]". */
  function ArrayMarker(n: nat): Value {
    VStr("[array(" + Decimal(n) + ")]")
  }

  /** The marker recorded for a non-array object. */
  const ObjectMarker: Value := VStr("[object]")

  /** `entity && typeof entity === "object"`: the node is traversed into. */
  predicate IsContainer(j: Json) {
    j.Arr? || j.Obj?
  }

  /** The value `countValue` receives for a node: a marker for a container,
      the scalar itself otherwise. */
  function NodeValue(j: Json): Value {
    match j
    case Null => VNull
    case Undefined => VUndefined
    case Bool(b) => VBool(b)
    case Num(n) => VNum(n)
    case Str(s) => VStr(s)
    case Arr(es) => ArrayMarker(|es|)
    case Obj(_) => ObjectMarker
  }

  /** `Object.keys(entity)`: the indices of an array as decimal numerals,
      the keys of an object in enumeration order. */
  function Keys(j: Json): (ks: seq<string>)
    ensures |ks| == (match j case Arr(es) => |es| case Obj(ps) => |ps| case _ => 0)
  {
    match j
    case Arr(es) => seq(|es|, i requires 0 <= i < |es| => Decimal(i))
    case Obj(ps) => seq(|ps|, i requires 0 <= i < |ps| => ps[i].0)
    case _ => []
  }

  /** `entity[k]` for the `i`-th key. */
  function ChildAt(j: Json, i: nat): Json
    requires IsContainer(j) && i < |Keys(j)|
  {
    match j
    case Arr(es) => es[i]
    case Obj(ps) => ps[i].1
  }

  /** One call of `countValue`: the raw path and the value. */
  datatype Observation = Observation(path: seq<string>, value: Value)

  /** The observations a walk of `j` at `path` makes, in the order it makes
      them: the node itself first, then each child's walk in key order. */
  function Observations(j: Json, path: seq<string>, collapse: bool): seq<Observation>
    decreases j, 1
  {
    [Observation(path, NodeValue(j))]
      + (if IsContainer(j) then ChildObservations(j, |Keys(j)|, path, collapse) else [])
  }

  /** The observations of the walks of the first `n` children of `j`. */
  function ChildObservations(j: Json, n: nat, path: seq<string>, collapse: bool): seq<Observation>
    requires IsContainer(j) && n <= |Keys(j)|
    decreases j, 0, n
  {
    if n == 0 then []
    else
      ChildObservations(j, n - 1, path, collapse)
        + Observations(ChildAt(j, n - 1), path + [Segment(Keys(j)[n - 1], collapse)], collapse)
  }

  /** Number of nodes of the tree. */
  function NodeCount(j: Json): nat
    decreases j, 1
  {
    1 + if IsContainer(j) then ChildrenNodeCount(j, |Keys(j)|) else 0
  }

  function ChildrenNodeCount(j: Json, n: nat): nat
    requires IsContainer(j) && n <= |Keys(j)|
    decreases j, 0, n
  {
    if n == 0 then 0 else ChildrenNodeCount(j, n - 1) + NodeCount(ChildAt(j, n - 1))
  }

  // ---------------------------------------------------------------------------
  // Counting
  // ---------------------------------------------------------------------------

  /** The count stored for `v`, 0 when absent (`get(value) ?? 0`). */
  function Count(m: OMap<Value, nat>, v: Value): nat {
    if m.Has(v) then m.Get(v) else 0
  }

  /** `set(value, valueCount + 1)` */
  function Bump(m: OMap<Value, nat>, v: Value): OMap<Value, nat> {
    m.Set(v, Count(m, v) + 1)
  }

  /** The catalog after one more observation of `v`: bump its count, and
      abandon the catalog once it holds more than `cap` distinct values. */
  function Record(c: Catalog, v: Value, cap: int): Catalog {
    match c
    case Overflowed => Overflowed
    case Tracked(m) => if Bump(m, v).Size() > cap then Overflowed else Tracked(Bump(m, v))
  }

  /** The catalog after observing `vs` in order. */
  function RecordAll(c: Catalog, vs: seq<Value>, cap: int): Catalog {
    if vs == [] then c else Record(RecordAll(c, vs[..|vs| - 1], cap), vs[|vs| - 1], cap)
  }

  /** A field as it is created on first observation. */
  function NewField(): Field {
    Field(0, 0, Tracked(Empty()))
  }

  /** The field table together with the per-record set of keys already credited. */
  datatype Progress = Progress(table: FieldTable, seen: set<string>)

  /** One `countValue` at field key `key`. */
  function Observe(p: Progress, key: string, v: Value, cap: int): Progress {
    var f := if p.table.Has(key) then p.table.Get(key) else NewField();
    var credit := if key in p.seen then 0 else 1;
    var f' := Field(f.entitiesWithFieldCount + credit, f.fieldOccurancesTotalCount + 1,
                    Record(f.uniqueValues, v, cap));
    Progress(p.table.Set(key, f'), p.seen + {key})
  }

  /** The observations made in order, each counted under its reduced key. */
  function ObserveAll(p: Progress, obs: seq<Observation>, cfg: Config): Progress {
    if obs == [] then p
    else
      var o := obs[|obs| - 1];
      Observe(ObserveAll(p, obs[..|obs| - 1], cfg), cfg.pathReducer(o.path), o.value,
              cfg.maxUniqueValuesPerField)
  }

  /** `processEntity`: one walk from the root with a fresh seen-set. */
  function ObserveRecord(t: FieldTable, j: Json, cfg: Config): FieldTable {
    ObserveAll(Progress(t, {}), Observations(j, [], cfg.collapseNumericKeys), cfg).table
  }

  /** The table after processing `recs` in order, starting from `t`. */
  function AnalysisFrom(t: FieldTable, recs: seq<Json>, cfg: Config): FieldTable {
    if recs == [] then t
    else ObserveRecord(AnalysisFrom(t, recs[..|recs| - 1], cfg), recs[|recs| - 1], cfg)
  }

  /** The table of a fresh analyzer after processing `recs` in order. */
  function Analysis(recs: seq<Json>, cfg: Config): FieldTable {
    AnalysisFrom(Empty(), recs, cfg)
  }

  // ---------------------------------------------------------------------------
  // Per-key views of a table and of observations
  // ---------------------------------------------------------------------------

  function Entities(t: FieldTable, k: string): nat {
    if t.Has(k) then t.Get(k).entitiesWithFieldCount else 0
  }

  function Occurrences(t: FieldTable, k: string): nat {
    if t.Has(k) then t.Get(k).fieldOccurancesTotalCount else 0
  }

  /** The catalog of `k`; an absent field has the empty catalog it would be created with. */
  function CatalogAt(t: FieldTable, k: string): Catalog {
    if t.Has(k) then t.Get(k).uniqueValues else Tracked(Empty())
  }

  /** The field keys the observations are counted under. */
  function KeysOf(obs: seq<Observation>, cfg: Config): set<string> {
    if obs == [] then {}
    else KeysOf(obs[..|obs| - 1], cfg) + {cfg.pathReducer(obs[|obs| - 1].path)}
  }

  /** The values observed at key `k`, in order. */
  function ValuesAt(obs: seq<Observation>, k: string, cfg: Config): seq<Value> {
    if obs == [] then []
    else
      var o := obs[|obs| - 1];
      ValuesAt(obs[..|obs| - 1], k, cfg) + (if cfg.pathReducer(o.path) == k then [o.value] else [])
  }

  /** The field keys one record produces. */
  function RecordKeys(j: Json, cfg: Config): set<string> {
    KeysOf(Observations(j, [], cfg.collapseNumericKeys), cfg)
  }

  /** The values one record produces at `k`. */
  function RecordValuesAt(j: Json, k: string, cfg: Config): seq<Value> {
    ValuesAt(Observations(j, [], cfg.collapseNumericKeys), k, cfg)
  }

  /** How many of the records produce at least one observation at `k`. */
  function RecordsWith(recs: seq<Json>, k: string, cfg: Config): nat {
    if recs == [] then 0
    else RecordsWith(recs[..|recs| - 1], k, cfg) + (if k in RecordKeys(recs[|recs| - 1], cfg) then 1 else 0)
  }

  /** All values the records produce at `k`, record after record. */
  function HistoryAt(recs: seq<Json>, k: string, cfg: Config): seq<Value> {
    if recs == [] then []
    else HistoryAt(recs[..|recs| - 1], k, cfg) + RecordValuesAt(recs[|recs| - 1], k, cfg)
  }

  /** The distinct values of `vs`. */
  function Distinct(vs: seq<Value>): set<Value> {
    set v | v in vs
  }

  /** The sum of the counts of catalog entries. */
  function SumCounts(es: seq<(Value, nat)>): nat {
    if es == [] then 0 else SumCounts(es[..|es| - 1]) + es[|es| - 1].1
  }

  // ---------------------------------------------------------------------------
  // Projection (`entries`)
  // ---------------------------------------------------------------------------

  /** The comparator `([, a], [, b]) => b - a`: larger counts first. */
  function ByCountDesc(): ((Value, nat), (Value, nat)) -> bool {
    (x: (Value, nat), y: (Value, nat)) => x.1 >= y.1
  }

  lemma ByCountDescTotalPreorder()
    ensures TotalPreorder(ByCountDesc())
  {
  }

  /** Every tracked catalog of the table is a valid ordered map. */
  ghost predicate WellFormed(t: FieldTable) {
    && t.Valid()
    && forall k | t.Has(k) :: t.Get(k).uniqueValues.Tracked? ==> t.Get(k).uniqueValues.counts.Valid()
  }

  /** The exported copy of one field. */
  function Project(f: Field, sortDesc: bool): (fi: FieldInfo)
    requires f.uniqueValues.Tracked? ==> f.uniqueValues.counts.Valid()
    ensures fi.entitiesWithFieldCount == f.entitiesWithFieldCount
    ensures fi.fieldOccurancesTotalCount == f.fieldOccurancesTotalCount
    ensures fi.uniqueValues.None? <==> f.uniqueValues.Overflowed?
    ensures f.uniqueValues.Tracked? ==>
              multiset(fi.uniqueValues.value) == multiset(f.uniqueValues.counts.Entries())
    ensures f.uniqueValues.Tracked? && !sortDesc ==>
              fi.uniqueValues.value == f.uniqueValues.counts.Entries()
  {
    var uv := match f.uniqueValues
      case Overflowed => None
      case Tracked(m) => Some(if sortDesc then SortBy(m.Entries(), ByCountDesc()) else m.Entries());
    FieldInfo(f.entitiesWithFieldCount, f.fieldOccurancesTotalCount, uv)
  }

  /** With the flag set, the exported catalog is in non-increasing count order. */
  lemma ProjectSorted(f: Field)
    requires f.uniqueValues.Tracked? && f.uniqueValues.counts.Valid()
    ensures SortedBy(Project(f, true).uniqueValues.value, ByCountDesc())
  {
    ByCountDescTotalPreorder();
    SortBySorted(f.uniqueValues.counts.Entries(), ByCountDesc());
  }

  /** What `entries` yields: one projected pair per field, in insertion order. */
  function Snapshot(t: FieldTable, sortDesc: bool): (r: seq<(string, FieldInfo)>)
    requires WellFormed(t)
    ensures |r| == |t.keys|
    ensures forall i | 0 <= i < |r| ::
              r[i].0 == t.keys[i] && t.Has(t.keys[i]) && r[i].1 == Project(t.Get(t.keys[i]), sortDesc)
  {
    seq(|t.keys|, i requires 0 <= i < |t.keys| => (t.keys[i], Project(t.Get(t.keys[i]), sortDesc)))
  }

  /** The comparator of `sorted`, on keys. */
  function ByKey(): ((string, FieldInfo), (string, FieldInfo)) -> bool {
    (x: (string, FieldInfo), y: (string, FieldInfo)) => LexLeq(x.0, y.0)
  }

  lemma ByKeyTotalPreorder()
    ensures TotalPreorder(ByKey())
  {
    forall x: (string, FieldInfo), y: (string, FieldInfo) ensures LexLeq(x.0, y.0) || LexLeq(y.0, x.0) {
      LexLeqTotal(x.0, y.0);
    }
    forall x: (string, FieldInfo), y: (string, FieldInfo), z: (string, FieldInfo)
      | LexLeq(x.0, y.0) && LexLeq(y.0, z.0)
      ensures LexLeq(x.0, z.0)
    {
      LexLeqTransitive(x.0, y.0, z.0);
    }
  }
}
