/** The data shapes shared by the analyzer and its helpers (src/types.ts). */
module Types {

  /** An optional value: `None` stands for an option the caller left `undefined` (or `null`). */
  datatype Option<+T> = None | Some(value: T) {

    /** The value, or `default` when absent: the `??` operator. */
    function GetOr(default: T): T {
      match this
      case Some(v) => v
      case None => default
    }
  }

  /** A record tree as the analyzer sees it. The key sequence of `Obj` is what
      `Object.keys` enumerates for that object, in that order. Numbers are
      modelled as integers. */
  datatype Json =
    | Null
    | Undefined
    | Bool(b: bool)
    | Num(n: int)
    | Str(s: string)
    | Arr(elems: seq<Json>)
    | Obj(props: seq<(string, Json)>)

  /** A key of a value catalog: a primitive, compared by identity. Container
      markers such as "[object]" are plain strings, so they are `VStr` values. */
  datatype Value =
    | VNull
    | VUndefined
    | VBool(b: bool)
    | VNum(n: int)
    | VStr(s: string)

  /** Maps the path of key segments of a node to the field key it is counted under. */
  type PathReducer = seq<string> -> string

  /** Construction options; every one of them may be left out. */
  datatype StructureAnalyzerOptions = StructureAnalyzerOptions(
    maxUniqueValuesPerField: Option<int>,
    collapseNumericKeys: Option<bool>,
    pathReducer: Option<PathReducer>)

  /** The exported view of one field: the two counters and either the
      (value, count) pairs of its catalog or `None` (JavaScript `null`) once
      the catalog overflowed. */
  datatype FieldInfo = FieldInfo(
    entitiesWithFieldCount: nat,
    fieldOccurancesTotalCount: nat,
    uniqueValues: Option<seq<(Value, nat)>>)

  /** Display options of `printAnalyzerEntries`; the output sink is not modelled. */
  datatype PrintAnalyzerEntriesOptions = PrintAnalyzerEntriesOptions(
    omitTooManyValues: Option<bool>,
    omitObjectOnlyEntries: Option<bool>,
    valueLimit: Option<int>)
}
