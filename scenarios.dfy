/** Worked examples: concrete path keys, the rewrites of `makePathReducer` on
    concrete paths, and two runs of the analyzer, one over a record with an
    array of scalars and one over records that overflow a catalog. */
module Scenarios {
  import opened Types
  import opened OrderedMaps
  import opened Profile
  import opened ProfileFacts
  import opened PathReducers
  import opened Analyzer

  // ---------------------------------------------------------------------------
  // Path keys under the default reducer
  // ---------------------------------------------------------------------------

  /** `["a", "0", "b"]` keys to "a.#.b", or to "a.0.b" with collapsing off;
      the root keys to the empty string. */
  lemma DefaultKeys()
    ensures DefaultPathReducer()(["a", Segment("0", true), "b"]) == "a.#.b"
    ensures DefaultPathReducer()(["a", Segment("0", false), "b"]) == "a.0.b"
    ensures DefaultPathReducer()([]) == ""
  {
    assert IsNumericKey("0");
  }

  // ---------------------------------------------------------------------------
  // makePathReducer on concrete paths
  // ---------------------------------------------------------------------------

  /** What the rewrites would produce if each were applied in a single
      `String.prototype.replaceAll` pass rather than until nothing changes. */
  function ApplyRewritesOnce(s: string, rs: seq<Rewrite>): string
    decreases rs
  {
    if rs == [] then s else ApplyRewritesOnce(ReplacePass(s, rs[0].0, rs[0].1), rs[1..])
  }

  /** Three rewrites applied in turn, one step at a time. */
  lemma ApplyThree(s0: string, rs: seq<Rewrite>, s1: string, s2: string, s3: string)
    requires |rs| == 3
    requires ReplaceAllFix(s0, rs[0].0, rs[0].1) == s1
    requires ReplaceAllFix(s1, rs[1].0, rs[1].1) == s2
    requires ReplaceAllFix(s2, rs[2].0, rs[2].1) == s3
    ensures ApplyRewrites(s0, rs) == s3
  {
    assert ApplyRewrites(s0, rs) == ApplyRewrites(s1, rs[1..]);
    assert ApplyRewrites(s1, rs[1..]) == ApplyRewrites(s2, rs[2..]);
    assert ApplyRewrites(s2, rs[2..]) == ApplyRewrites(s3, []);
  }

  lemma ApplyOnceThree(s0: string, rs: seq<Rewrite>, s1: string, s2: string, s3: string)
    requires |rs| == 3
    requires ReplacePass(s0, rs[0].0, rs[0].1) == s1
    requires ReplacePass(s1, rs[1].0, rs[1].1) == s2
    requires ReplacePass(s2, rs[2].0, rs[2].1) == s3
    ensures ApplyRewritesOnce(s0, rs) == s3
  {
    assert ApplyRewritesOnce(s0, rs) == ApplyRewritesOnce(s1, rs[1..]);
    assert ApplyRewritesOnce(s1, rs[1..]) == ApplyRewritesOnce(s2, rs[2..]);
    assert ApplyRewritesOnce(s2, rs[2..]) == ApplyRewritesOnce(s3, []);
  }

  /** The reducer's result is its rewrites applied to the dotted path. */
  lemma ReducerUnfold(collapseList: Option<seq<string>>, removeList: Option<seq<string>>, path: seq<string>)
    ensures MakePathReducer(collapseList, removeList)(path)
            == ApplyRewrites("." + Join(path, "."), Replaces(collapseList, removeList))
  {
  }

  /** The rewrites for the collapse list `[c]`. */
  lemma OneCollapseRewrites(c: string)
    ensures Replaces(Some([c]), None) == CollapseRewrites(c)
  {
    assert CollapseAll([c]) == CollapseRewrites(c) + CollapseAll([]);
  }

  lemma DottedNested(c: string)
    ensures "." + Join([c, "#", c, "#", c], ".") == ("." + c + ".#." + c + ".#") + ("." + c)
  {
    var p := [c, "#", c, "#", c];
    assert p[1..] == ["#", c, "#", c] && p[1..][1..] == [c, "#", c];
    assert p[1..][1..][1..] == ["#", c] && p[1..][1..][1..][1..] == [c];
    assert Join(["#", c], ".") == "#" + "." + c;
    assert Join([c, "#", c], ".") == c + "." + ("#" + "." + c);
    assert Join(["#", c, "#", c], ".") == "#" + "." + (c + "." + ("#" + "." + c));
    assert Join(p, ".") == c + "." + ("#" + "." + (c + "." + ("#" + "." + c)));
  }

  lemma DottedTriple(c: string)
    ensures "." + Join([c, c, c], ".") == "." + c + "." + c + "." + c
  {
    var p := [c, c, c];
    assert p[1..] == [c, c] && p[1..][1..] == [c];
    assert Join([c, c], ".") == c + "." + c;
    assert Join(p, ".") == c + "." + (c + "." + c);
  }

  /** Collapsing `c` reduces the path `c.#.c.#.c` to ".c": the first rewrite
      leaves ".c.#.c", the second ".c". Here a single pass of each rewrite
      reaches ".c" as well. */
  lemma CollapseNested(c: string)
    ensures MakePathReducer(Some([c]), None)([c, "#", c, "#", c]) == "." + c
    ensures ApplyRewritesOnce("." + Join([c, "#", c, "#", c], "."), Replaces(Some([c]), None)) == "." + c
  {
    var rs := Replaces(Some([c]), None);
    OneCollapseRewrites(c);
    var dc := "." + c;
    var a1, a2, a3 := "." + c + ".#." + c + ".#", "." + c + ".#." + c, "." + c + "." + c;
    var b1 := "." + c + ".#";
    DottedNested(c);
    PassFront(a1, b1, dc);
    assert b1 + dc == a2;
    assert ReplaceAllFix(a1 + dc, a1, b1) == a2;
    PassFront(a2, dc, []);
    assert a2 + [] == a2 && dc + [] == dc;
    assert ReplaceAllFix(a2, a2, dc) == dc;
    assert ReplaceAllFix(dc, a3, dc) == dc;
    ApplyThree(a1 + dc, rs, a2, dc, dc);
    ApplyOnceThree(a1 + dc, rs, a2, dc, dc);
    ReducerUnfold(Some([c]), None, [c, "#", c, "#", c]);
  }

  /** The "#"-rewrites do not apply to a path of names without "#". */
  lemma HashRewritesIdle(c: string, s: string)
    requires '#' !in s
    ensures ReplacePass(s, "." + c + ".#." + c + ".#", "." + c + ".#") == s
    ensures ReplaceAllFix(s, "." + c + ".#." + c + ".#", "." + c + ".#") == s
    ensures ReplacePass(s, "." + c + ".#." + c, "." + c) == s
    ensures ReplaceAllFix(s, "." + c + ".#." + c, "." + c) == s
  {
    var a1, a2 := "." + c + ".#." + c + ".#", "." + c + ".#." + c;
    assert a1[|c| + 2] == '#' && a2[|c| + 2] == '#';
    MissingChar(a1, s, '#');
    MissingChar(a2, s, '#');
    PassIdentity(s, a1, "." + c + ".#");
    PassIdentity(s, a2, "." + c);
  }

  /** The doubling rewrite turns ".c.c.c" into ".c.c" in one pass, and into
      ".c" when repeated. */
  lemma DoublingRewrite(c: string)
    ensures ReplacePass("." + c + "." + c + "." + c, "." + c + "." + c, "." + c) == "." + c + "." + c
    ensures ReplaceAllFix("." + c + "." + c + "." + c, "." + c + "." + c, "." + c) == "." + c
  {
    var dc := "." + c;
    var a3 := dc + dc;
    assert "." + c + "." + c == a3;
    assert "." + c + "." + c + "." + c == a3 + dc;
    PassFront(a3, dc, dc);
    assert ReplacePass(dc, a3, dc) == dc;
    PassFront(a3, dc, []);
    assert a3 + [] == a3 && dc + [] == dc;
    assert ReplaceAllFix(a3, a3, dc) == dc;
  }

  /** Repeating each rewrite matters: for a name `c` without "#", the path
      `c.c.c` reduces to ".c", where a single pass of each rewrite stops at
      ".c.c". */
  lemma CollapseRepeated(c: string)
    requires '#' !in c
    ensures MakePathReducer(Some([c]), None)([c, c, c]) == "." + c
    ensures ApplyRewritesOnce("." + c + "." + c + "." + c, Replaces(Some([c]), None)) == "." + c + "." + c
  {
    var rs := Replaces(Some([c]), None);
    OneCollapseRewrites(c);
    var s0 := "." + c + "." + c + "." + c;
    DottedTriple(c);
    assert '#' !in s0;
    HashRewritesIdle(c, s0);
    DoublingRewrite(c);
    ApplyThree(s0, rs, s0, s0, "." + c);
    ApplyOnceThree(s0, rs, s0, s0, "." + c + "." + c);
    ReducerUnfold(Some([c]), None, [c, c, c]);
  }

  /** Removal matches raw substrings: removing "a" also strips ".a" from the
      front of the segment "ab". */
  lemma RemoveIsNotSegmentAware()
    ensures MakePathReducer(None, Some(["a"]))(["ab"]) == "b"
  {
    var rs := Replaces(None, Some(["a"]));
    assert rs == RemoveRewrites("a") by {
      assert RemoveAll(["a"]) == RemoveRewrites("a") + RemoveAll([]);
    }
    assert Join(["ab"], ".") == "ab";
    assert ReplaceAllFix(".ab", ".a.#", "") == ".ab";
    assert ReplacePass(".ab", ".a", "") == "b" by {
      assert ".ab"[..2] == ".a";
      assert ".ab"[2..] == "b";
    }
    assert ReplaceAllFix(".ab", ".a", "") == "b";
    assert ApplyRewrites(".ab", rs) == ApplyRewrites(".ab", rs[1..]);
    assert ApplyRewrites(".ab", rs[1..]) == ApplyRewrites("b", []);
    assert MakePathReducer(None, Some(["a"]))(["ab"]) == ApplyRewrites("." + Join(["ab"], "."), rs);
    assert "." + "ab" == ".ab";
  }

  // ---------------------------------------------------------------------------
  // The analyzer on concrete record shapes
  // ---------------------------------------------------------------------------

  /** The settings of an analyzer built with `{}` except for the cap. */
  function DefaultConfig(cap: int): Config {
    Config(cap, true, DefaultPathReducer())
  }

  /** The elements of a scalar array are all walked at `path + ["#"]`. */
  lemma {:induction false} ScalarChildren(es: seq<Json>, n: nat, path: seq<string>)
    requires n <= |es| && forall i | 0 <= i < |es| :: !IsContainer(es[i])
    ensures |ChildObservations(Arr(es), n, path, true)| == n
    ensures forall o | o in ChildObservations(Arr(es), n, path, true) :: o.path == path + ["#"]
  {
    if n > 0 {
      ScalarChildren(es, n - 1, path);
      assert Segment(Keys(Arr(es))[n - 1], true) == "#";
    }
  }

  /** Observations all at one key contribute all their values to that key. */
  lemma {:induction false} ValuesAtOneKey(obs: seq<Observation>, k: string, cfg: Config)
    requires forall o | o in obs :: cfg.pathReducer(o.path) == k
    ensures |ValuesAt(obs, k, cfg)| == |obs|
  {
    if obs != [] {
      ValuesAtOneKey(obs[..|obs| - 1], k, cfg);
    }
  }

  /** A record `{items: es}` with `es` scalars observes the field "items.#"
      once per element. */
  lemma ItemsRecord(es: seq<Json>, cap: int)
    requires es != [] && forall i | 0 <= i < |es| :: !IsContainer(es[i])
    ensures var rec, cfg := Obj([("items", Arr(es))]), DefaultConfig(cap);
      "items.#" in RecordKeys(rec, cfg) && |RecordValuesAt(rec, "items.#", cfg)| == |es|
  {
    var rec, cfg := Obj([("items", Arr(es))]), DefaultConfig(cap);
    var kids := ChildObservations(Arr(es), |es|, ["items"], true);
    assert !IsNumericKey("items") by {
      assert "items"[0] == 'i';
    }
    assert Keys(rec) == ["items"];
    assert ([] + [Segment("items", true)]) == ["items"];
    assert ChildObservations(rec, 1, [], true) == [] + Observations(Arr(es), ["items"], true);
    assert Observations(rec, [], true)
           == [Observation([], ObjectMarker)] + ([Observation(["items"], ArrayMarker(|es|))] + kids);
    ScalarChildren(es, |es|, ["items"]);
    assert cfg.pathReducer(["items", "#"]) == "items.#";
    ValuesAtOneKey(kids, "items.#", cfg);
    assert ValuesAt([Observation([], ObjectMarker)], "items.#", cfg) == [];
    assert ValuesAt([Observation(["items"], ArrayMarker(|es|))], "items.#", cfg) == [];
    ValuesAtAppend([Observation(["items"], ArrayMarker(|es|))], kids, "items.#", cfg);
    ValuesAtAppend([Observation([], ObjectMarker)], [Observation(["items"], ArrayMarker(|es|))] + kids, "items.#", cfg);
    KeysOfValuesAt(Observations(rec, [], true), cfg, "items.#");
  }

  /** A fresh analyzer with default options that processes `{items: es}`, `es`
      being scalars, counts the field "items.#" in one record and `|es|` times. */
  method ItemsScenario(es: seq<Json>) returns (entities: nat, total: nat)
    requires es != [] && forall i | 0 <= i < |es| :: !IsContainer(es[i])
    ensures entities == 1 && total == |es|
  {
    var analyzer := new StructureAnalyzer(StructureAnalyzerOptions(None, None, None));
    var rec := Obj([("items", Arr(es))]);
    analyzer.ProcessEntity(rec);
    ItemsRecord(es, DefaultMaxUniqueValues);
    ObserveRecordAt(Empty(), rec, analyzer.Cfg(), "items.#");
    entities := Entities(analyzer.fields, "items.#");
    total := Occurrences(analyzer.fields, "items.#");
  }

  /** `n` records `{v: 0}`, `{v: 1}`, ..., `{v: n - 1}`. */
  function Numbered(n: nat): seq<Json> {
    seq(n, i => Obj([("v", Num(i))]))
  }

  /** Record `{v: i}` observes exactly the value `i` at "v". */
  lemma NumberedRecord(i: int, cap: int)
    ensures var rec, cfg := Obj([("v", Num(i))]), DefaultConfig(cap);
      "v" in RecordKeys(rec, cfg) && RecordValuesAt(rec, "v", cfg) == [VNum(i)]
  {
    var rec, cfg := Obj([("v", Num(i))]), DefaultConfig(cap);
    assert !IsNumericKey("v") by {
      assert "v"[0] == 'v';
    }
    assert Keys(rec) == ["v"];
    assert ([] + [Segment("v", true)]) == ["v"];
    assert ChildObservations(rec, 1, [], true) == [] + Observations(Num(i), ["v"], true);
    var obs := Observations(rec, [], true);
    assert obs == [Observation([], ObjectMarker), Observation(["v"], VNum(i))];
    assert obs[..1] == [Observation([], ObjectMarker)];
    assert cfg.pathReducer([]) == "" && cfg.pathReducer(["v"]) == "v";
    assert obs[..1][..0] == [];
    assert ValuesAt(obs[..1], "v", cfg) == [];
    assert ValuesAt(obs, "v", cfg) == [] + [VNum(i)];
  }

  /** Over the numbered records "v" sees the values 0 .. n - 1, one per record. */
  lemma {:induction false} NumberedHistory(n: nat, cap: int)
    ensures HistoryAt(Numbered(n), "v", DefaultConfig(cap)) == seq(n, i => VNum(i))
    ensures RecordsWith(Numbered(n), "v", DefaultConfig(cap)) == n
  {
    if n > 0 {
      NumberedHistory(n - 1, cap);
      assert Numbered(n)[..n - 1] == Numbered(n - 1);
      NumberedRecord(n - 1, cap);
      assert seq(n, i => VNum(i)) == seq(n - 1, i => VNum(i)) + [VNum(n - 1)];
    }
  }

  /** A fresh analyzer with cap `cap` (1000 when left out) that processes the
      `n` numbered records ends with the catalog of "v" null exactly when
      `n` exceeds the cap, while both counters reach `n`. */
  method OverflowScenario(n: nat, cap: Option<int>) returns (overflowed: bool, entities: nat, total: nat)
    requires n > 0
    ensures overflowed <==> n > cap.GetOr(DefaultMaxUniqueValues)
    ensures entities == n && total == n
  {
    var analyzer := new StructureAnalyzer(StructureAnalyzerOptions(cap, None, None));
    analyzer.ProcessEntities(Numbered(n));
    var cfg := analyzer.Cfg();
    assert analyzer.fields == Analysis(Numbered(n), cfg);
    NumberedHistory(n, cap.GetOr(DefaultMaxUniqueValues));
    AnalysisAt(Empty(), Numbered(n), cfg, "v");
    FieldStatistics(Numbered(n), cfg, "v");
    var vs := seq(n, i => VNum(i));
    DistinctCard(vs);
    assert Distinct(vs) == set v | v in vs;
    overflowed := CatalogAt(analyzer.fields, "v") == Overflowed;
    entities := Entities(analyzer.fields, "v");
    total := Occurrences(analyzer.fields, "v");
  }
}
