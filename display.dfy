/** The selection and truncation logic of the display helpers of src/utils.ts:
    which entries `printAnalyzerEntries` prints and how many catalog values
    `fieldInfoSummary` lists. The text of the lines is not modelled; a printed
    entry is represented by the data its lines are rendered from. */
module Display {
  import opened Types

  // ---------------------------------------------------------------------------
  // fieldInfoSummary
  // ---------------------------------------------------------------------------

  /** The second line of a summary: either the catalog was null, or the
      catalog has `total` values of which `shown` are listed, with an
      "omitted" note of `omitted` values when the list was cut. */
  datatype ValueSummary =
    | TooManyValues
    | Listed(total: nat, shown: seq<(Value, nat)>, omitted: Option<nat>)

  /** The end index `Array.prototype.slice(0, end)` stops at, for an array of
      `len` elements: a negative end counts from the back. */
  function SliceEnd(len: nat, end: int): (n: nat)
    ensures n <= len
  {
    if end < 0 then (if len + end < 0 then 0 else len + end)
    else if end < len then end
    else len
  }

  /** `!valueLimit`: an absent limit and a limit of 0 both mean "no limit". */
  predicate Unlimited(valueLimit: Option<int>) {
    valueLimit.None? || valueLimit.value == 0
  }

  /** The value part of `fieldInfoSummary(field, valueLimit)`. */
  function Summarize(field: FieldInfo, valueLimit: Option<int>): (s: ValueSummary)
    ensures s.TooManyValues? <==> field.uniqueValues.None?
    ensures s.Listed? ==> var vs := field.uniqueValues.value;
      && s.total == |vs|
      && s.shown <= vs
      && |s.shown| + s.omitted.GetOr(0) == |vs|
      && (s.omitted.None? <==> Unlimited(valueLimit) || |vs| <= valueLimit.value)
      && (s.omitted.None? ==> s.shown == vs)
      && (!Unlimited(valueLimit) && 0 < valueLimit.value < |vs| ==>
            |s.shown| == valueLimit.value && s.omitted == Some(|vs| - valueLimit.value))
  {
    match field.uniqueValues
    case None => TooManyValues
    case Some(vs) =>
      if Unlimited(valueLimit) || |vs| <= valueLimit.value then Listed(|vs|, vs, None)
      else
        var n := SliceEnd(|vs|, valueLimit.value);
        Listed(|vs|, vs[..n], Some(|vs| - n))
  }

  /** A negative limit is not rejected: it drops that many values from the
      end of the list (all of them when it exceeds the length), and still
      prints an "omitted" note, even one of zero values for an empty catalog. */
  lemma NegativeLimit(field: FieldInfo, limit: int)
    requires field.uniqueValues.Some? && limit < 0
    ensures var vs, s := field.uniqueValues.value, Summarize(field, Some(limit));
      && s.Listed? && s.omitted.Some?
      && |s.shown| == (if |vs| + limit < 0 then 0 else |vs| + limit)
      && s.omitted.value == (if |vs| + limit < 0 then |vs| else -limit)
  {
  }

  // ---------------------------------------------------------------------------
  // printAnalyzerEntries
  // ---------------------------------------------------------------------------

  /** The default of `valueLimit`. */
  const DefaultValueLimit: int := 10

  /** The settings after defaults: omit nothing, list at most 10 values. */
  datatype PrintSettings = PrintSettings(omitTooManyValues: bool, omitObjectOnlyEntries: bool, valueLimit: int)

  function Settings(options: PrintAnalyzerEntriesOptions): PrintSettings {
    PrintSettings(options.omitTooManyValues.GetOr(false), options.omitObjectOnlyEntries.GetOr(false),
                  options.valueLimit.GetOr(DefaultValueLimit))
  }

  /** The catalog is exactly one value, the string "[object]". */
  predicate ObjectOnly(field: FieldInfo) {
    field.uniqueValues.Some? && |field.uniqueValues.value| == 1
    && field.uniqueValues.value[0].0 == VStr("[object]")
  }

  /** The two `continue` conditions. */
  predicate Skipped(field: FieldInfo, settings: PrintSettings) {
    || (settings.omitTooManyValues && field.uniqueValues.None?)
    || (settings.omitObjectOnlyEntries && ObjectOnly(field))
  }

  /** What one `printFn` call is rendered from: the heading ("<root>" for the
      empty key), the two counters and the value summary. */
  datatype PrintedEntry = PrintedEntry(heading: string, entities: nat, occurrences: nat, values: ValueSummary)

  function Show(key: string, field: FieldInfo, valueLimit: int): (p: PrintedEntry)
    ensures p.heading == if key == [] then "<root>" else key
    ensures p.entities == field.entitiesWithFieldCount && p.occurrences == field.fieldOccurancesTotalCount
  {
    PrintedEntry(if |key| > 0 then key else "<root>", field.entitiesWithFieldCount,
                 field.fieldOccurancesTotalCount, Summarize(field, Some(valueLimit)))
  }

  /** What one entry prints: nothing when skipped, its shown form otherwise. */
  function PrintedFor(e: (string, FieldInfo), settings: PrintSettings): seq<PrintedEntry> {
    if Skipped(e.1, settings) then [] else [Show(e.0, e.1, settings.valueLimit)]
  }

  /** The entries printed, in order: each entry that is not skipped, shown. */
  function Printed(entries: seq<(string, FieldInfo)>, settings: PrintSettings): seq<PrintedEntry> {
    if entries == [] then []
    else Printed(entries[..|entries| - 1], settings) + PrintedFor(entries[|entries| - 1], settings)
  }

  /** `printAnalyzerEntries`: the loop over the entries, with `printFn`
      replaced by the sequence of its calls. */
  method PrintAnalyzerEntries(entries: seq<(string, FieldInfo)>, options: PrintAnalyzerEntriesOptions)
    returns (printed: seq<PrintedEntry>)
    ensures printed == Printed(entries, Settings(options))
  {
    var omitTooManyValues := options.omitTooManyValues.GetOr(false);
    var omitObjectOnlyEntries := options.omitObjectOnlyEntries.GetOr(false);
    var valueLimit := options.valueLimit.GetOr(DefaultValueLimit);
    printed := [];
    for i := 0 to |entries|
      invariant printed == Printed(entries[..i], Settings(options))
    {
      assert entries[..i + 1][..i] == entries[..i];
      var (key, field) := entries[i];
      if omitTooManyValues && field.uniqueValues == None {
        continue;
      }
      if omitObjectOnlyEntries && field.uniqueValues.Some? && |field.uniqueValues.value| == 1
         && field.uniqueValues.value[0].0 == VStr("[object]") {
        continue;
      }
      printed := printed + [PrintedEntry(if |key| > 0 then key else "<root>", field.entitiesWithFieldCount,
                                         field.fieldOccurancesTotalCount, Summarize(field, Some(valueLimit)))];
    }
    assert entries[..|entries|] == entries;
  }

  /** A single entry is printed unless it is skipped by one of the two flags:
      `omitTooManyValues` drops exactly the null catalogs and
      `omitObjectOnlyEntries` drops exactly the "[object]"-only catalogs. */
  lemma PrintedOne(key: string, field: FieldInfo, settings: PrintSettings)
    ensures Printed([(key, field)], settings) == [] <==>
              || (settings.omitTooManyValues && field.uniqueValues.None?)
              || (settings.omitObjectOnlyEntries && field.uniqueValues.Some?
                  && |field.uniqueValues.value| == 1 && field.uniqueValues.value[0].0 == VStr("[object]"))
    ensures Printed([(key, field)], settings) != [] ==>
              Printed([(key, field)], settings) == [Show(key, field, settings.valueLimit)]
  {
    assert [(key, field)][..0] == [];
  }

  /** Printing is compositional: the entries of `a + b` print as those of `a`
      followed by those of `b`. */
  lemma {:induction false} PrintedAppend(a: seq<(string, FieldInfo)>, b: seq<(string, FieldInfo)>, settings: PrintSettings)
    ensures Printed(a + b, settings) == Printed(a, settings) + Printed(b, settings)
  {
    if b == [] {
      assert a + b == a;
    } else {
      var init, last := b[..|b| - 1], b[|b| - 1];
      PrintedAppend(a, init, settings);
      assert (a + b)[..|a + b| - 1] == a + init;
      assert (a + b)[|a + b| - 1] == last;
      var pa, pi, pl := Printed(a, settings), Printed(init, settings), PrintedFor(last, settings);
      assert Printed(a + b, settings) == (pa + pi) + pl;
      assert (pa + pi) + pl == pa + (pi + pl);
    }
  }

  /** With neither flag set every entry is printed, in order. */
  lemma {:induction false} PrintedAll(entries: seq<(string, FieldInfo)>, settings: PrintSettings)
    requires !settings.omitTooManyValues && !settings.omitObjectOnlyEntries
    ensures |Printed(entries, settings)| == |entries|
    ensures forall i | 0 <= i < |entries| ::
              Printed(entries, settings)[i] == Show(entries[i].0, entries[i].1, settings.valueLimit)
  {
    if entries != [] {
      var init := entries[..|entries| - 1];
      PrintedAll(init, settings);
      assert forall i | 0 <= i < |init| :: init[i] == entries[i];
    }
  }

  /** No printed entry has a null catalog when `omitTooManyValues` is set,
      nor an "[object]"-only catalog when `omitObjectOnlyEntries` is set. */
  lemma {:induction false} PrintedNotSkipped(entries: seq<(string, FieldInfo)>, settings: PrintSettings)
    ensures |Printed(entries, settings)| <= |entries|
    ensures forall p | p in Printed(entries, settings) ::
              exists i | 0 <= i < |entries| :: !Skipped(entries[i].1, settings)
                && p == Show(entries[i].0, entries[i].1, settings.valueLimit)
  {
    if entries != [] {
      var init := entries[..|entries| - 1];
      PrintedNotSkipped(init, settings);
      forall p | p in Printed(entries, settings)
        ensures exists i | 0 <= i < |entries| :: !Skipped(entries[i].1, settings)
                  && p == Show(entries[i].0, entries[i].1, settings.valueLimit)
      {
        if p in Printed(init, settings) {
          var i :| 0 <= i < |init| && !Skipped(init[i].1, settings)
                   && p == Show(init[i].0, init[i].1, settings.valueLimit);
          assert init[i] == entries[i];
        } else {
          assert p == Show(entries[|entries| - 1].0, entries[|entries| - 1].1, settings.valueLimit);
        }
      }
    }
  }
}
