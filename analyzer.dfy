/** The stateful analyzer of src/index.ts. Its methods update the counter and
    the field table the way the source does, step by step, and are proved to
    keep the table equal to the table module Profile computes from the records
    processed so far. */
module Analyzer {
  import opened Types
  import opened OrderedMaps
  import opened Sorting
  import opened Profile
  import opened ProfileFacts

  class StructureAnalyzer {
    /** `_entitiesProcessed` */
    var entitiesProcessed: nat
    /** `fields`: field key to statistics, in first-seen order. */
    var fields: FieldTable
    const maxUniqueValuesPerField: int
    const collapseNumericKeys: bool
    const pathReducer: PathReducer

    /** The records processed so far, in order. */
    ghost var processed: seq<Json>

    /** The settings as one value. */
    function Cfg(): Config {
      Config(maxUniqueValuesPerField, collapseNumericKeys, pathReducer)
    }

    /** The counter counts the records processed, and the table is exactly the
        one those records produce. */
    ghost predicate Valid()
      reads this
    {
      && entitiesProcessed == |processed|
      && fields == Analysis(processed, Cfg())
      && WellFormed(fields)
    }

    /** Every option left out takes its default: a cap of 1000 values, numeric
        keys collapsed, segments joined with ".". No validation of the cap. */
    constructor(options: StructureAnalyzerOptions)
      ensures Valid()
      ensures processed == [] && entitiesProcessed == 0 && fields == Empty()
      ensures maxUniqueValuesPerField == options.maxUniqueValuesPerField.GetOr(DefaultMaxUniqueValues)
      ensures collapseNumericKeys == options.collapseNumericKeys.GetOr(true)
      ensures pathReducer == options.pathReducer.GetOr(DefaultPathReducer())
    {
      entitiesProcessed := 0;
      fields := Empty();
      maxUniqueValuesPerField := options.maxUniqueValuesPerField.GetOr(DefaultMaxUniqueValues);
      collapseNumericKeys := options.collapseNumericKeys.GetOr(true);
      pathReducer := options.pathReducer.GetOr(DefaultPathReducer());
      processed := [];
    }

    /** `processEntities`: the records in iteration order. */
    method ProcessEntities(entities: seq<Json>)
      requires Valid()
      modifies this
      ensures Valid()
      ensures processed == old(processed) + entities
      ensures entitiesProcessed == old(entitiesProcessed) + |entities|
      ensures fields == AnalysisFrom(old(fields), entities, Cfg())
    {
      var i := 0;
      while i < |entities|
        invariant 0 <= i <= |entities|
        invariant Valid()
        invariant processed == old(processed) + entities[..i]
        invariant fields == AnalysisFrom(old(fields), entities[..i], Cfg())
      {
        ProcessEntity(entities[i]);
        assert entities[..i + 1][..i] == entities[..i];
        i := i + 1;
      }
      assert entities[..i] == entities;
    }

    /** `processEntity`: one walk with a fresh seen-set, then one more record
        counted. Every field is credited once if the record produced a value at
        its key and not at all otherwise; afterwards no field is credited by
        more records than were processed or more often than it was observed,
        and every tracked catalog sums to its field's total and holds at most
        the cap of values. */
    method ProcessEntity(entity: Json)
      requires Valid()
      modifies this
      ensures Valid()
      ensures processed == old(processed) + [entity]
      ensures entitiesProcessed == old(entitiesProcessed) + 1
      ensures fields == ObserveRecord(old(fields), entity, Cfg())
      ensures forall k :: Entities(fields, k) == Entities(old(fields), k) + (if k in RecordKeys(entity, Cfg()) then 1 else 0)
      ensures forall k | fields.Has(k) ::
                && fields.Get(k).entitiesWithFieldCount <= entitiesProcessed
                && fields.Get(k).entitiesWithFieldCount <= fields.Get(k).fieldOccurancesTotalCount
                && (fields.Get(k).uniqueValues.Tracked? ==>
                      && SumCounts(fields.Get(k).uniqueValues.counts.Entries()) == fields.Get(k).fieldOccurancesTotalCount
                      && fields.Get(k).uniqueValues.counts.Size() <= maxUniqueValuesPerField)
    {
      var seen := ProcessEntityInternal(entity, [], {});
      entitiesProcessed := entitiesProcessed + 1;
      processed := processed + [entity];
      forall k ensures Entities(fields, k) == Entities(old(fields), k) + (if k in RecordKeys(entity, Cfg()) then 1 else 0) {
        ObserveRecordAt(old(fields), entity, Cfg(), k);
      }
      assert WellFormed(fields) by {
        AnalysisAt(Empty(), processed, Cfg(), "");
      }
      forall k | fields.Has(k)
        ensures fields.Get(k).entitiesWithFieldCount <= entitiesProcessed
        ensures fields.Get(k).entitiesWithFieldCount <= fields.Get(k).fieldOccurancesTotalCount
        ensures fields.Get(k).uniqueValues.Tracked? ==>
                  && SumCounts(fields.Get(k).uniqueValues.counts.Entries()) == fields.Get(k).fieldOccurancesTotalCount
                  && fields.Get(k).uniqueValues.counts.Size() <= maxUniqueValuesPerField
      {
        FieldStatistics(processed, Cfg(), k);
      }
    }

    /** `processEntityInternal`: a container records its marker and then each
        child at the path extended by its (possibly collapsed) key; anything
        else records itself. The effect is that of the walk's observations. */
    method ProcessEntityInternal(entity: Json, currentPath: seq<string>, currentEntityFields: set<string>)
      returns (seen: set<string>)
      modifies this
      ensures Progress(fields, seen)
              == ObserveAll(Progress(old(fields), currentEntityFields),
                            Observations(entity, currentPath, collapseNumericKeys), Cfg())
      ensures entitiesProcessed == old(entitiesProcessed) && processed == old(processed)
      decreases entity
    {
      if entity.Arr? || entity.Obj? {
        var marker := if entity.Arr? then ArrayMarker(|entity.elems|) else ObjectMarker;
        seen := CountValue(currentPath, marker, currentEntityFields);
        ghost var start := Progress(fields, seen);
        var keys := Keys(entity);
        var i := 0;
        while i < |keys|
          invariant 0 <= i <= |keys|
          invariant Progress(fields, seen)
                    == ObserveAll(start, ChildObservations(entity, i, currentPath, collapseNumericKeys), Cfg())
          invariant entitiesProcessed == old(entitiesProcessed) && processed == old(processed)
        {
          var key := keys[i];
          if collapseNumericKeys && IsNumericKey(key) {
            key := "#";
          }
          assert key == Segment(keys[i], collapseNumericKeys);
          ghost var before := Progress(fields, seen);
          ghost var walk := Observations(ChildAt(entity, i), currentPath + [key], collapseNumericKeys);
          seen := ProcessEntityInternal(ChildAt(entity, i), currentPath + [key], seen);
          assert Progress(fields, seen) == ObserveAll(before, walk, Cfg());
          WalkChild(start, entity, i, currentPath, Cfg());
          i := i + 1;
        }
        WalkContainer(Progress(old(fields), currentEntityFields), entity, currentPath, Cfg());
      } else {
        seen := CountValue(currentPath, NodeValue(entity), currentEntityFields);
      }
    }

    /** `countValue`: create the field on first sight, count the occurrence,
        credit the record once, and bump the value in the catalog unless it is
        null, nulling it when it exceeds the cap. */
    method CountValue(path: seq<string>, value: Value, currentEntityFields: set<string>)
      returns (seen: set<string>)
      modifies this
      ensures Progress(fields, seen)
              == Observe(Progress(old(fields), currentEntityFields), pathReducer(path), value, maxUniqueValuesPerField)
      ensures entitiesProcessed == old(entitiesProcessed) && processed == old(processed)
    {
      var key := pathReducer(path);
      ghost var created := fields;
      if !fields.Has(key) {
        fields := fields.Set(key, Field(0, 0, Tracked(Empty())));
        SetSet(created, key, NewField(), Field(0, 0, Tracked(Empty())));
      }
      var fieldInfo := fields.Get(key);
      assert fieldInfo == if created.Has(key) then created.Get(key) else NewField();
      var total := fieldInfo.fieldOccurancesTotalCount + 1;
      var entities := fieldInfo.entitiesWithFieldCount;
      seen := currentEntityFields;
      if key !in seen {
        seen := seen + {key};
        entities := entities + 1;
      }
      var uniqueValues := fieldInfo.uniqueValues;
      if uniqueValues.Tracked? {
        var counts := uniqueValues.counts;
        var valueCount := if counts.Has(value) then counts.Get(value) else 0;
        counts := counts.Set(value, valueCount + 1);
        uniqueValues := if counts.Size() > maxUniqueValuesPerField then Overflowed else Tracked(counts);
      }
      assert uniqueValues == Record(fieldInfo.uniqueValues, value, maxUniqueValuesPerField);
      if !created.Has(key) {
        SetSet(created, key, NewField(), Field(entities, total, uniqueValues));
      }
      fields := fields.Set(key, Field(entities, total, uniqueValues));
    }

    /** `entries`: one pair per field in first-seen order, each a projected
        copy; the analyzer is left as it is. */
    method Entries(sortFieldValuesDescendingCount: bool := true) returns (r: seq<(string, FieldInfo)>)
      requires Valid()
      ensures r == Snapshot(fields, sortFieldValuesDescendingCount)
    {
      r := [];
      var i := 0;
      while i < |fields.keys|
        invariant 0 <= i <= |fields.keys|
        invariant r == Snapshot(fields, sortFieldValuesDescendingCount)[..i]
      {
        var key := fields.keys[i];
        var value := fields.Get(key);
        var uniqueValues := match value.uniqueValues
          case Overflowed => None
          case Tracked(m) => Some(m.Entries());
        var externalEntry := FieldInfo(value.entitiesWithFieldCount, value.fieldOccurancesTotalCount, uniqueValues);
        if sortFieldValuesDescendingCount && externalEntry.uniqueValues.Some? {
          externalEntry := externalEntry.(uniqueValues := Some(SortBy(externalEntry.uniqueValues.value, ByCountDesc())));
        }
        r := r + [(key, externalEntry)];
        i := i + 1;
      }
    }

    /** `sorted`: the entries, ordered by key. */
    method Sorted(sortFieldValuesDescendingCount: bool := true) returns (r: seq<(string, FieldInfo)>)
      requires Valid()
      ensures multiset(r) == multiset(Snapshot(fields, sortFieldValuesDescendingCount))
      ensures SortedBy(r, ByKey())
    {
      var entities := Entries(sortFieldValuesDescendingCount);
      r := SortBy(entities, ByKey());
      ByKeyTotalPreorder();
      SortBySorted(entities, ByKey());
    }
  }
}
