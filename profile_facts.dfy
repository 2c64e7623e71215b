/** What the profiling semantics of module Profile guarantees: the effect of
    one observation, of one record and of a sequence of records on each
    field's counters and catalog, the catalog's overflow rule, and the shape
    of a traversal. */
module ProfileFacts {
  import opened Types
  import opened OrderedMaps
  import opened Profile

  // ---------------------------------------------------------------------------
  // Catalogs
  // ---------------------------------------------------------------------------

  /** Changing one count changes the sum by the difference. */
  lemma {:induction false} SumCountsUpdate(es: seq<(Value, nat)>, i: nat, e: (Value, nat))
    requires i < |es|
    ensures SumCounts(es[i := e]) + es[i].1 == SumCounts(es) + e.1
  {
    var n := |es| - 1;
    if i < n {
      SumCountsUpdate(es[..n], i, e);
      assert es[i := e][..n] == es[..n][i := e];
    } else {
      assert es[i := e][..n] == es[..n];
    }
  }

  /** Bumping `v` in a valid catalog keeps it valid and adds `v` to its values. */
  lemma BumpValid(m: OMap<Value, nat>, v: Value)
    requires m.Valid()
    ensures Bump(m, v).Valid()
    ensures Bump(m, v).vals.Keys == m.vals.Keys + {v}
    ensures Bump(m, v).Size() == |m.vals.Keys + {v}|
  {
    SizeIsCardinality(Bump(m, v));
  }

  lemma BumpKeepsValid(m: OMap<Value, nat>, v: Value)
    requires m.Valid()
    ensures Bump(m, v).Valid()
  {
  }

  /** Bumping `v` adds one to the count of `v` and to no other count. */
  lemma BumpCount(m: OMap<Value, nat>, v: Value)
    ensures forall u :: Count(Bump(m, v), u) == Count(m, u) + (if u == v then 1 else 0)
  {
  }

  /** Bumping a value already in the catalog adds one to the sum of its counts. */
  lemma BumpSumPresent(m: OMap<Value, nat>, v: Value)
    requires m.Valid() && m.Has(v)
    ensures SumCounts(Bump(m, v).Entries()) == SumCounts(m.Entries()) + 1
  {
    var n, i, es := Count(m, v) + 1, IndexOf(m, v), m.Entries();
    assert Bump(m, v) == m.Set(v, n);
    SetPresentEntries(m, v, n);
    assert es[i].1 == n - 1;
    SumCountsUpdate(es, i, (v, n));
  }

  /** Bumping a new value appends an entry of count one. */
  lemma BumpSumAbsent(m: OMap<Value, nat>, v: Value)
    requires m.Valid() && !m.Has(v)
    ensures SumCounts(Bump(m, v).Entries()) == SumCounts(m.Entries()) + 1
  {
    SetAbsentEntries(m, v, 1);
    assert (m.Entries() + [(v, 1)])[..|m.Entries()|] == m.Entries();
  }

  /** Bumping `v` in a valid catalog adds one to the sum of its counts. */
  lemma BumpSum(m: OMap<Value, nat>, v: Value)
    requires m.Valid()
    ensures Bump(m, v).Valid()
    ensures SumCounts(Bump(m, v).Entries()) == SumCounts(m.Entries()) + 1
  {
    if m.Has(v) {
      BumpSumPresent(m, v);
    } else {
      BumpSumAbsent(m, v);
    }
  }

  lemma SubsetCard<T>(a: set<T>, b: set<T>)
    requires a <= b
    ensures |a| <= |b|
  {
    assert b == a + (b - a);
  }

  /** Once overflowed, a catalog stays overflowed whatever is observed. */
  lemma {:induction false} RecordAllOverflowed(vs: seq<Value>, cap: int)
    ensures RecordAll(Overflowed, vs, cap) == Overflowed
  {
    if vs != [] {
      RecordAllOverflowed(vs[..|vs| - 1], cap);
    }
  }

  /** Observing `a` then `b` is observing `a + b`. */
  lemma {:induction false} RecordAllAppend(c: Catalog, a: seq<Value>, b: seq<Value>, cap: int)
    ensures RecordAll(c, a + b, cap) == RecordAll(RecordAll(c, a, cap), b, cap)
  {
    if b == [] {
      assert a + b == a;
    } else {
      RecordAllAppend(c, a, b[..|b| - 1], cap);
      assert (a + b)[..|a + b| - 1] == a + b[..|b| - 1];
    }
  }

  /** Observing `vs` and then `v`. */
  lemma RecordAllSnoc(c: Catalog, vs: seq<Value>, v: Value, cap: int)
    ensures RecordAll(c, vs + [v], cap) == Record(RecordAll(c, vs, cap), v, cap)
  {
    assert (vs + [v])[..|vs|] == vs;
  }

  /** The distinct values of `ws + [v]`. */
  lemma DistinctSnoc(ws: seq<Value>, v: Value)
    ensures Distinct(ws + [v]) == Distinct(ws) + {v}
  {
  }

  /** Recording `v` in a valid tracked catalog with values `ks`: the result is
      tracked exactly when `ks + {v}` fits the cap, and is then valid with
      values `ks + {v}`. */
  lemma TrackedStep(m: OMap<Value, nat>, ks: set<Value>, v: Value, cap: int)
    requires m.Valid() && m.vals.Keys == ks
    ensures Record(Tracked(m), v, cap).Tracked? <==> |ks + {v}| <= cap
    ensures Record(Tracked(m), v, cap).Tracked? ==>
              Record(Tracked(m), v, cap).counts.Valid() && Record(Tracked(m), v, cap).counts.vals.Keys == ks + {v}
  {
    BumpValid(m, v);
  }

  /** The distinct values of `vs` are those of all but its last element, and that element. */
  lemma DistinctLast(vs: seq<Value>)
    requires vs != []
    ensures Distinct(vs) == Distinct(vs[..|vs| - 1]) + {vs[|vs| - 1]}
  {
    assert vs == vs[..|vs| - 1] + [vs[|vs| - 1]];
    DistinctSnoc(vs[..|vs| - 1], vs[|vs| - 1]);
  }

  /** One more value recorded in a catalog that is tracked exactly when its
      values `ks` fit the cap (or it has seen nothing): the result is tracked
      exactly when `ks + {v}` fits the cap. */
  lemma CatalogStep(c: Catalog, ks: set<Value>, empty: bool, v: Value, cap: int)
    requires c.Tracked? <==> empty || |ks| <= cap
    requires c.Tracked? ==> c.counts.Valid() && c.counts.vals.Keys == ks
    ensures Record(c, v, cap).Tracked? <==> |ks + {v}| <= cap
    ensures Record(c, v, cap).Tracked? ==>
              Record(c, v, cap).counts.Valid() && Record(c, v, cap).counts.vals.Keys == ks + {v}
  {
    if c.Tracked? {
      TrackedStep(c.counts, ks, v, cap);
    } else {
      SubsetCard(ks, ks + {v});
    }
  }

  /** A fresh catalog that observed `vs` is tracked exactly when `vs` holds at
      most `cap` distinct values (or is empty), and then it is valid and its
      keys are exactly those values. */
  lemma {:induction false} CatalogTrackedIff(vs: seq<Value>, cap: int)
    ensures var c := RecordAll(Tracked(Empty()), vs, cap);
      && (c.Tracked? <==> vs == [] || |Distinct(vs)| <= cap)
      && (c.Tracked? ==> c.counts.Valid() && c.counts.vals.Keys == Distinct(vs))
  {
    if vs == [] {
      assert Distinct(vs) == {};
    } else {
      var ws := vs[..|vs| - 1];
      CatalogTrackedIff(ws, cap);
      DistinctLast(vs);
      CatalogStep(RecordAll(Tracked(Empty()), ws, cap), Distinct(ws), ws == [], vs[|vs| - 1], cap);
    }
  }


  /** While tracked, a fresh catalog that observed `vs` holds each value with
      its number of occurrences in `vs`. */
  lemma {:induction false} CatalogCounts(vs: seq<Value>, cap: int)
    ensures var c := RecordAll(Tracked(Empty()), vs, cap);
      c.Tracked? ==> forall v :: Count(c.counts, v) == multiset(vs)[v]
  {
    if vs != [] {
      var ws, v := vs[..|vs| - 1], vs[|vs| - 1];
      assert vs == ws + [v];
      CatalogCounts(ws, cap);
      var c0 := RecordAll(Tracked(Empty()), ws, cap);
      assert RecordAll(Tracked(Empty()), vs, cap) == Record(c0, v, cap);
      if c0.Tracked? {
        BumpCount(c0.counts, v);
        assert multiset(vs) == multiset(ws) + multiset{v};
      }
    }
  }

  /** While tracked, the counts of a fresh catalog that observed `vs` sum to `|vs|`. */
  lemma {:induction false} CatalogSum(vs: seq<Value>, cap: int)
    ensures var c := RecordAll(Tracked(Empty()), vs, cap);
      c.Tracked? ==> c.counts.Valid() && SumCounts(c.counts.Entries()) == |vs|
  {
    if vs != [] {
      var ws, v := vs[..|vs| - 1], vs[|vs| - 1];
      CatalogSum(ws, cap);
      var c0 := RecordAll(Tracked(Empty()), ws, cap);
      assert RecordAll(Tracked(Empty()), vs, cap) == Record(c0, v, cap);
      if c0.Tracked? {
        BumpSum(c0.counts, v);
      }
    }
  }

  /** The catalog a field builds from the values `vs` observed at it: it is
      tracked exactly when `vs` holds at most `cap` distinct values (or none at
      all), and while tracked it holds exactly the distinct values of `vs`, each
      with its number of occurrences, so that the counts sum to `|vs|` and there
      are at most `cap` of them. */
  lemma RecordAllFromEmpty(vs: seq<Value>, cap: int)
    ensures var c := RecordAll(Tracked(Empty()), vs, cap);
      && (c.Tracked? <==> vs == [] || |Distinct(vs)| <= cap)
      && (c.Tracked? ==>
            && c.counts.Valid()
            && c.counts.vals.Keys == Distinct(vs)
            && c.counts.Size() == |Distinct(vs)|
            && (vs != [] ==> c.counts.Size() <= cap)
            && (forall v :: Count(c.counts, v) == multiset(vs)[v])
            && SumCounts(c.counts.Entries()) == |vs|)
  {
    CatalogTrackedIff(vs, cap);
    CatalogCounts(vs, cap);
    CatalogSum(vs, cap);
    var c := RecordAll(Tracked(Empty()), vs, cap);
    if c.Tracked? {
      SizeIsCardinality(c.counts);
    }
  }

  // ---------------------------------------------------------------------------
  // One observation, many observations
  // ---------------------------------------------------------------------------

  /** Storing a field with a valid (or null) catalog keeps a table well formed. */
  lemma SetFieldWellFormed(t: FieldTable, key: string, f: Field)
    requires WellFormed(t)
    requires f.uniqueValues.Tracked? ==> f.uniqueValues.counts.Valid()
    ensures WellFormed(t.Set(key, f))
  {
    var u := t.Set(key, f);
    forall k | u.Has(k) && u.Get(k).uniqueValues.Tracked?
      ensures u.Get(k).uniqueValues.counts.Valid()
    {
      if k != key {
        assert u.Get(k) == t.Get(k);
      }
    }
  }

  /** Recording a value keeps a tracked catalog a valid ordered map. */
  lemma RecordKeepsValid(c: Catalog, v: Value, cap: int)
    requires c.Tracked? ==> c.counts.Valid()
    ensures Record(c, v, cap).Tracked? ==> Record(c, v, cap).counts.Valid()
  {
    if c.Tracked? {
      BumpKeepsValid(c.counts, v);
    }
  }

  /** `countValue` keeps every tracked catalog a valid ordered map. */
  lemma ObservePreservesWellFormed(p: Progress, key: string, v: Value, cap: int)
    requires WellFormed(p.table)
    ensures WellFormed(Observe(p, key, v, cap).table)
  {
    var f := if p.table.Has(key) then p.table.Get(key) else NewField();
    assert f.uniqueValues.Tracked? ==> f.uniqueValues.counts.Valid();
    RecordKeepsValid(f.uniqueValues, v, cap);
    var credit := if key in p.seen then 0 else 1;
    var f' := Field(f.entitiesWithFieldCount + credit, f.fieldOccurancesTotalCount + 1, Record(f.uniqueValues, v, cap));
    SetFieldWellFormed(p.table, key, f');
    assert Observe(p, key, v, cap).table == p.table.Set(key, f');
  }

  /** The effect of one `countValue` at key `key`, seen from any key `k`:
      the field of `key` exists afterwards, its total rises by one, it is
      credited once unless `key` was already credited for this record, and its
      catalog records `v`; every other field is unchanged. */
  lemma ObserveAt(p: Progress, key: string, v: Value, cap: int, k: string)
    ensures var q := Observe(p, key, v, cap);
      && q.seen == p.seen + {key}
      && (q.table.Has(k) <==> p.table.Has(k) || k == key)
      && Entities(q.table, k) == Entities(p.table, k) + (if k == key && key !in p.seen then 1 else 0)
      && Occurrences(q.table, k) == Occurrences(p.table, k) + (if k == key then 1 else 0)
      && CatalogAt(q.table, k)
         == if k == key then Record(CatalogAt(p.table, k), v, cap) else CatalogAt(p.table, k)
  {
  }

  /** A run of observations keeps the table well formed, adds exactly the
      keys it observes to the seen-set, and creates exactly their fields. */
  lemma {:induction false} ObserveAllKeys(p: Progress, obs: seq<Observation>, cfg: Config, k: string)
    requires WellFormed(p.table)
    ensures WellFormed(ObserveAll(p, obs, cfg).table)
    ensures ObserveAll(p, obs, cfg).seen == p.seen + KeysOf(obs, cfg)
    ensures ObserveAll(p, obs, cfg).table.Has(k) <==> p.table.Has(k) || k in KeysOf(obs, cfg)
  {
    if obs != [] {
      var init, o := obs[..|obs| - 1], obs[|obs| - 1];
      ObserveAllKeys(p, init, cfg, k);
      var q0 := ObserveAll(p, init, cfg);
      ObservePreservesWellFormed(q0, cfg.pathReducer(o.path), o.value, cfg.maxUniqueValuesPerField);
      ObserveAt(q0, cfg.pathReducer(o.path), o.value, cfg.maxUniqueValuesPerField, k);
    }
  }

  /** The counters of field `k` after a run of observations: it is credited
      once if any observation is at `k` and `k` was not credited before, and
      its total rises by the number of observations at `k`. */
  lemma {:induction false} ObserveAllCounters(p: Progress, obs: seq<Observation>, cfg: Config, k: string)
    ensures Entities(ObserveAll(p, obs, cfg).table, k)
            == Entities(p.table, k) + (if k !in p.seen && k in KeysOf(obs, cfg) then 1 else 0)
    ensures Occurrences(ObserveAll(p, obs, cfg).table, k) == Occurrences(p.table, k) + |ValuesAt(obs, k, cfg)|
    ensures ObserveAll(p, obs, cfg).seen == p.seen + KeysOf(obs, cfg)
  {
    if obs != [] {
      var init, o := obs[..|obs| - 1], obs[|obs| - 1];
      ObserveAllCounters(p, init, cfg, k);
      ObserveAt(ObserveAll(p, init, cfg), cfg.pathReducer(o.path), o.value, cfg.maxUniqueValuesPerField, k);
    }
  }

  /** The catalog of field `k` after a run of observations records the
      values observed at `k`, in order. */
  lemma {:induction false} ObserveAllCatalog(p: Progress, obs: seq<Observation>, cfg: Config, k: string)
    ensures CatalogAt(ObserveAll(p, obs, cfg).table, k)
            == RecordAll(CatalogAt(p.table, k), ValuesAt(obs, k, cfg), cfg.maxUniqueValuesPerField)
  {
    if obs != [] {
      var init, o := obs[..|obs| - 1], obs[|obs| - 1];
      ObserveAllCatalog(p, init, cfg, k);
      ObserveAt(ObserveAll(p, init, cfg), cfg.pathReducer(o.path), o.value, cfg.maxUniqueValuesPerField, k);
      if cfg.pathReducer(o.path) == k {
        assert ValuesAt(obs, k, cfg) == ValuesAt(init, k, cfg) + [o.value];
        RecordAllSnoc(CatalogAt(p.table, k), ValuesAt(init, k, cfg), o.value, cfg.maxUniqueValuesPerField);
      } else {
        assert ValuesAt(obs, k, cfg) == ValuesAt(init, k, cfg) + [];
        assert ValuesAt(init, k, cfg) + [] == ValuesAt(init, k, cfg);
      }
    }
  }

  /** The effect of a run of observations on the field `k`. */
  lemma ObserveAllAt(p: Progress, obs: seq<Observation>, cfg: Config, k: string)
    requires WellFormed(p.table)
    ensures WellFormed(ObserveAll(p, obs, cfg).table)
    ensures ObserveAll(p, obs, cfg).seen == p.seen + KeysOf(obs, cfg)
    ensures ObserveAll(p, obs, cfg).table.Has(k) <==> p.table.Has(k) || k in KeysOf(obs, cfg)
    ensures Entities(ObserveAll(p, obs, cfg).table, k)
            == Entities(p.table, k) + (if k !in p.seen && k in KeysOf(obs, cfg) then 1 else 0)
    ensures Occurrences(ObserveAll(p, obs, cfg).table, k) == Occurrences(p.table, k) + |ValuesAt(obs, k, cfg)|
    ensures CatalogAt(ObserveAll(p, obs, cfg).table, k)
            == RecordAll(CatalogAt(p.table, k), ValuesAt(obs, k, cfg), cfg.maxUniqueValuesPerField)
  {
    ObserveAllKeys(p, obs, cfg, k);
    ObserveAllCounters(p, obs, cfg, k);
    ObserveAllCatalog(p, obs, cfg, k);
  }

  /** A key is among the keys of some observations exactly when some value was observed at it. */
  lemma {:induction false} KeysOfValuesAt(obs: seq<Observation>, cfg: Config, k: string)
    ensures k in KeysOf(obs, cfg) <==> ValuesAt(obs, k, cfg) != []
  {
    if obs != [] {
      KeysOfValuesAt(obs[..|obs| - 1], cfg, k);
    }
  }

  /** The values observed at `k` by `a + b` are those of `a`, then those of `b`. */
  lemma {:induction false} ValuesAtAppend(a: seq<Observation>, b: seq<Observation>, k: string, cfg: Config)
    ensures ValuesAt(a + b, k, cfg) == ValuesAt(a, k, cfg) + ValuesAt(b, k, cfg)
  {
    if b == [] {
      assert a + b == a;
    } else {
      ValuesAtAppend(a, b[..|b| - 1], k, cfg);
      assert (a + b)[..|a + b| - 1] == a + b[..|b| - 1];
    }
  }

  /** Observing `a` then `b` is observing `a + b`. */
  lemma {:induction false} ObserveAllAppend(p: Progress, a: seq<Observation>, b: seq<Observation>, cfg: Config)
    ensures ObserveAll(p, a + b, cfg) == ObserveAll(ObserveAll(p, a, cfg), b, cfg)
  {
    if b == [] {
      assert a + b == a;
    } else {
      ObserveAllAppend(p, a, b[..|b| - 1], cfg);
      assert (a + b)[..|a + b| - 1] == a + b[..|b| - 1];
    }
  }

  /** A walk of a container observes the node's marker first, then walks the
      children in key order. */
  lemma WalkContainer(p: Progress, j: Json, path: seq<string>, cfg: Config)
    requires IsContainer(j)
    ensures ObserveAll(p, Observations(j, path, cfg.collapseNumericKeys), cfg)
            == ObserveAll(Observe(p, cfg.pathReducer(path), NodeValue(j), cfg.maxUniqueValuesPerField),
                          ChildObservations(j, |Keys(j)|, path, cfg.collapseNumericKeys), cfg)
  {
    var first := [Observation(path, NodeValue(j))];
    ObserveAllAppend(p, first, ChildObservations(j, |Keys(j)|, path, cfg.collapseNumericKeys), cfg);
    assert first[..0] == [];
  }

  /** Walking the first `i + 1` children is walking the first `i`, then child `i`. */
  lemma WalkChild(p: Progress, j: Json, i: nat, path: seq<string>, cfg: Config)
    requires IsContainer(j) && i < |Keys(j)|
    ensures ObserveAll(p, ChildObservations(j, i + 1, path, cfg.collapseNumericKeys), cfg)
            == ObserveAll(ObserveAll(p, ChildObservations(j, i, path, cfg.collapseNumericKeys), cfg),
                          Observations(ChildAt(j, i), path + [Segment(Keys(j)[i], cfg.collapseNumericKeys)],
                                       cfg.collapseNumericKeys), cfg)
  {
    ObserveAllAppend(p, ChildObservations(j, i, path, cfg.collapseNumericKeys),
                     Observations(ChildAt(j, i), path + [Segment(Keys(j)[i], cfg.collapseNumericKeys)],
                                  cfg.collapseNumericKeys), cfg);
  }

  /** Fields are never removed and keep their place in the iteration order. */
  lemma {:induction false} ObserveAllGrows(p: Progress, obs: seq<Observation>, cfg: Config)
    requires p.table.Valid()
    ensures var q := ObserveAll(p, obs, cfg);
      q.table.Valid() && p.table.keys <= q.table.keys
  {
    if obs != [] {
      ObserveAllGrows(p, obs[..|obs| - 1], cfg);
    }
  }

  // ---------------------------------------------------------------------------
  // Records
  // ---------------------------------------------------------------------------

  /** One `processEntity`, seen from field `k`: the field is credited exactly
      once if the record produces an observation at `k` and not at all
      otherwise; its total rises by the number of such observations; its
      catalog records their values. */
  lemma ObserveRecordAt(t: FieldTable, j: Json, cfg: Config, k: string)
    requires WellFormed(t)
    ensures var r := ObserveRecord(t, j, cfg);
      && WellFormed(r)
      && t.keys <= r.keys
      && (r.Has(k) <==> t.Has(k) || k in RecordKeys(j, cfg))
      && Entities(r, k) == Entities(t, k) + (if k in RecordKeys(j, cfg) then 1 else 0)
      && Occurrences(r, k) == Occurrences(t, k) + |RecordValuesAt(j, k, cfg)|
      && CatalogAt(r, k)
         == RecordAll(CatalogAt(t, k), RecordValuesAt(j, k, cfg), cfg.maxUniqueValuesPerField)
  {
    var obs := Observations(j, [], cfg.collapseNumericKeys);
    ObserveAllAt(Progress(t, {}), obs, cfg, k);
    ObserveAllGrows(Progress(t, {}), obs, cfg);
  }

  /** Processing `a` then `b` is processing `a + b`. */
  lemma {:induction false} AnalysisAppend(t: FieldTable, a: seq<Json>, b: seq<Json>, cfg: Config)
    ensures AnalysisFrom(t, a + b, cfg) == AnalysisFrom(AnalysisFrom(t, a, cfg), b, cfg)
  {
    if b == [] {
      assert a + b == a;
    } else {
      var init := b[..|b| - 1];
      AnalysisAppend(t, a, init, cfg);
      assert (a + b)[..|a + b| - 1] == a + init;
      assert (a + b)[|a + b| - 1] == b[|b| - 1];
      assert AnalysisFrom(t, a + b, cfg) == ObserveRecord(AnalysisFrom(t, a + init, cfg), b[|b| - 1], cfg);
    }
  }

  /** Processing records, seen from field `k`: it is credited once per record
      that contains it, its total rises by the number of values observed at it,
      and its catalog records all of them. */
  lemma {:induction false} AnalysisAt(t: FieldTable, recs: seq<Json>, cfg: Config, k: string)
    requires WellFormed(t)
    ensures var r := AnalysisFrom(t, recs, cfg);
      && WellFormed(r)
      && t.keys <= r.keys
      && (r.Has(k) <==> t.Has(k) || RecordsWith(recs, k, cfg) > 0)
      && Entities(r, k) == Entities(t, k) + RecordsWith(recs, k, cfg)
      && Occurrences(r, k) == Occurrences(t, k) + |HistoryAt(recs, k, cfg)|
      && CatalogAt(r, k)
         == RecordAll(CatalogAt(t, k), HistoryAt(recs, k, cfg), cfg.maxUniqueValuesPerField)
  {
    if recs != [] {
      var init, j := recs[..|recs| - 1], recs[|recs| - 1];
      AnalysisAt(t, init, cfg, k);
      ObserveRecordAt(AnalysisFrom(t, init, cfg), j, cfg, k);
      RecordAllAppend(CatalogAt(t, k), HistoryAt(init, k, cfg), RecordValuesAt(j, k, cfg),
                      cfg.maxUniqueValuesPerField);
    }
  }

  /** A record contains `k` exactly when it produces some value at `k`; so the
      number of records that contain `k` is at most the number of records and
      at most the number of values at `k`, and is zero only when no value was. */
  lemma {:induction false} RecordsWithBounds(recs: seq<Json>, k: string, cfg: Config)
    ensures RecordsWith(recs, k, cfg) <= |recs|
    ensures RecordsWith(recs, k, cfg) <= |HistoryAt(recs, k, cfg)|
    ensures RecordsWith(recs, k, cfg) == 0 <==> HistoryAt(recs, k, cfg) == []
  {
    if recs != [] {
      var init, j := recs[..|recs| - 1], recs[|recs| - 1];
      RecordsWithBounds(init, k, cfg);
      KeysOfValuesAt(Observations(j, [], cfg.collapseNumericKeys), cfg, k);
    }
  }

  /** The statistics of field `k` after processing `recs`: it is credited
      once per record containing it, counted once per observation, and its
      catalog is null exactly when more than `cap` distinct values were
      observed at it; otherwise it holds each of them with its number of
      occurrences. Hence the counters satisfy entities <= records processed,
      entities <= total, and a tracked catalog sums to the total and has at most
      `cap` entries. */
  lemma FieldStatistics(recs: seq<Json>, cfg: Config, k: string)
    requires Analysis(recs, cfg).Has(k)
    ensures var f := Analysis(recs, cfg).Get(k);
      var hist := HistoryAt(recs, k, cfg);
      var cap := cfg.maxUniqueValuesPerField;
      && f.entitiesWithFieldCount == RecordsWith(recs, k, cfg)
      && f.fieldOccurancesTotalCount == |hist|
      && 1 <= f.entitiesWithFieldCount <= |recs|
      && f.entitiesWithFieldCount <= f.fieldOccurancesTotalCount
      && (f.uniqueValues.Overflowed? <==> |Distinct(hist)| > cap)
      && (f.uniqueValues.Tracked? ==>
            && f.uniqueValues.counts.Valid()
            && f.uniqueValues.counts.vals.Keys == Distinct(hist)
            && (forall v :: Count(f.uniqueValues.counts, v) == multiset(hist)[v])
            && SumCounts(f.uniqueValues.counts.Entries()) == f.fieldOccurancesTotalCount
            && f.uniqueValues.counts.Size() <= cap)
  {
    AnalysisAt(Empty(), recs, cfg, k);
    RecordsWithBounds(recs, k, cfg);
    RecordAllFromEmpty(HistoryAt(recs, k, cfg), cfg.maxUniqueValuesPerField);
  }

  /** Overflow is one-way: a field whose catalog is null stays null through
      any further records, while both its counters keep counting. */
  lemma OverflowIsPermanent(recs: seq<Json>, more: seq<Json>, cfg: Config, k: string)
    requires CatalogAt(Analysis(recs, cfg), k) == Overflowed
    ensures var before, after := Analysis(recs, cfg), Analysis(recs + more, cfg);
      && after.Has(k)
      && CatalogAt(after, k) == Overflowed
      && Entities(after, k) == Entities(before, k) + RecordsWith(more, k, cfg)
      && Occurrences(after, k) == Occurrences(before, k) + |HistoryAt(more, k, cfg)|
  {
    var before := Analysis(recs, cfg);
    AnalysisAt(Empty(), recs, cfg, k);
    AnalysisAppend(Empty(), recs, more, cfg);
    AnalysisAt(before, more, cfg, k);
    RecordAllOverflowed(HistoryAt(more, k, cfg), cfg.maxUniqueValuesPerField);
  }

  // ---------------------------------------------------------------------------
  // Numerals and markers
  // ---------------------------------------------------------------------------

  /** Joining `p + q` is joining `p`, the separator, and joining `q`. */
  lemma {:induction false} JoinAppend(p: seq<string>, q: seq<string>, sep: string)
    requires p != [] && q != []
    ensures Join(p + q, sep) == Join(p, sep) + sep + Join(q, sep)
  {
    assert (p + q)[0] == p[0];
    if |p| > 1 {
      JoinAppend(p[1..], q, sep);
      assert (p + q)[1..] == p[1..] + q;
    } else {
      assert (p + q)[1..] == q;
    }
  }

  /** The number a string of decimal digits denotes. */
  function DigitsValue(s: string): int {
    if s == [] then 0 else DigitsValue(s[..|s| - 1]) * 10 + (s[|s| - 1] as int - '0' as int)
  }

  /** `Decimal(n)` is the numeral of `n`: read back, it denotes `n`. */
  lemma {:induction false} DecimalValue(n: nat)
    ensures DigitsValue(Decimal(n)) == n
  {
    if n >= 10 {
      DecimalValue(n / 10);
      var s := Decimal(n / 10) + [Digit(n % 10)];
      assert s[..|s| - 1] == Decimal(n / 10);
    }
  }

  /** The numeral of `n` has no leading zero: only `0` is written starting with '0'. */
  lemma {:induction false} DecimalNoLeadingZero(n: nat)
    ensures Decimal(n)[0] == '0' ==> n == 0
  {
    if n >= 10 {
      DecimalNoLeadingZero(n / 10);
      assert Decimal(n)[0] == Decimal(n / 10)[0];
    }
  }

  /** Different indices have different numerals. */
  lemma DecimalInjective(n: nat, m: nat)
    ensures Decimal(n) == Decimal(m) <==> n == m
  {
    DecimalValue(n);
    DecimalValue(m);
  }

  /** Arrays of different lengths are recorded as different values. */
  lemma ArrayMarkerInjective(n: nat, m: nat)
    ensures ArrayMarker(n) == ArrayMarker(m) <==> n == m
  {
    if ArrayMarker(n) == ArrayMarker(m) {
      var a, b := Decimal(n), Decimal(m);
      var s, t := "[array(" + a + ")]", "[array(" + b + ")]";
      assert s[7..|s| - 2] == a && t[7..|t| - 2] == b;
      DecimalInjective(n, m);
    }
  }

  /** No array marker is the object marker. */
  lemma ArrayMarkerNotObject(n: nat)
    ensures ArrayMarker(n) != ObjectMarker
  {
    assert ArrayMarker(n).s[1] == 'a';
    assert ObjectMarker.s[1] == 'o';
  }

  /** Two containers are the same catalog value exactly when both are
      objects, or both are arrays of the same length. */
  lemma ContainerValueIdentity(a: Json, b: Json)
    requires IsContainer(a) && IsContainer(b)
    ensures NodeValue(a) == NodeValue(b) <==> (a.Obj? && b.Obj?) || (a.Arr? && b.Arr? && |a.elems| == |b.elems|)
  {
    if a.Arr? && b.Arr? {
      ArrayMarkerInjective(|a.elems|, |b.elems|);
    } else if a.Arr? {
      ArrayMarkerNotObject(|a.elems|);
    } else if b.Arr? {
      ArrayMarkerNotObject(|b.elems|);
    }
  }

  /** The leaf string "[object]" is the same catalog value as any object. */
  lemma ObjectMarkerCollision(props: seq<(string, Json)>)
    ensures NodeValue(Str("[object]")) == NodeValue(Obj(props))
  {
  }

  /** With collapsing off, different elements of an array are walked at
      different paths. */
  lemma ArrayPathsDistinct(es: seq<Json>, i: nat, j: nat, path: seq<string>)
    requires i < |es| && j < |es| && i != j
    ensures path + [Segment(Keys(Arr(es))[i], false)] != path + [Segment(Keys(Arr(es))[j], false)]
  {
    var p, q := path + [Segment(Keys(Arr(es))[i], false)], path + [Segment(Keys(Arr(es))[j], false)];
    assert p[|path|] == Decimal(i) && q[|path|] == Decimal(j);
    DecimalInjective(i, j);
  }

  // ---------------------------------------------------------------------------
  // Traversal
  // ---------------------------------------------------------------------------

  /** A walk makes exactly one observation per node of the tree. */
  lemma {:induction false} OneObservationPerNode(j: Json, path: seq<string>, collapse: bool)
    ensures |Observations(j, path, collapse)| == NodeCount(j)
    decreases j, 1
  {
    if IsContainer(j) {
      ChildrenOneObservationPerNode(j, |Keys(j)|, path, collapse);
    }
  }

  lemma {:induction false} ChildrenOneObservationPerNode(j: Json, n: nat, path: seq<string>, collapse: bool)
    requires IsContainer(j) && n <= |Keys(j)|
    ensures |ChildObservations(j, n, path, collapse)| == ChildrenNodeCount(j, n)
    decreases j, 0, n
  {
    if n > 0 {
      ChildrenOneObservationPerNode(j, n - 1, path, collapse);
      OneObservationPerNode(ChildAt(j, n - 1), path + [Segment(Keys(j)[n - 1], collapse)], collapse);
    }
  }

  /** Every observation of a walk at `path` is at `path` or below it, the
      first is of the node itself, and every later one is strictly below. */
  lemma {:induction false} ObservationsBelow(j: Json, path: seq<string>, collapse: bool)
    ensures Observations(j, path, collapse)[0] == Observation(path, NodeValue(j))
    ensures forall o | o in Observations(j, path, collapse) :: path <= o.path
    ensures forall o | o in Observations(j, path, collapse)[1..] :: |o.path| > |path|
    decreases j, 1
  {
    if IsContainer(j) {
      ChildrenBelow(j, |Keys(j)|, path, collapse);
      assert Observations(j, path, collapse)[1..] == ChildObservations(j, |Keys(j)|, path, collapse);
    } else {
      assert Observations(j, path, collapse)[1..] == [];
    }
  }

  lemma {:induction false} ChildrenBelow(j: Json, n: nat, path: seq<string>, collapse: bool)
    requires IsContainer(j) && n <= |Keys(j)|
    ensures forall o | o in ChildObservations(j, n, path, collapse) :: |o.path| > |path| && path <= o.path
    decreases j, 0, n
  {
    if n > 0 {
      ChildrenBelow(j, n - 1, path, collapse);
      var child := path + [Segment(Keys(j)[n - 1], collapse)];
      ObservationsBelow(ChildAt(j, n - 1), child, collapse);
      forall o | o in Observations(ChildAt(j, n - 1), child, collapse)
        ensures |o.path| > |path| && path <= o.path
      {
        assert child <= o.path;
        assert o.path[..|path|] == child[..|path|];
      }
    }
  }

  /** With collapsing on, every element of an array is walked at the same
      path, `path + ["#"]`; with it off, element `i` is walked at `path + [i]`. */
  lemma ArrayElementPath(es: seq<Json>, i: nat, collapse: bool)
    requires i < |es|
    ensures Segment(Keys(Arr(es))[i], collapse) == if collapse then "#" else Decimal(i)
  {
  }
}
