/** The path-key helper of src/utils.ts: `replaceAll`, which repeats a
    substring replacement until nothing changes, and `makePathReducer`, which
    joins a path behind a leading "." and applies collapse and remove rewrites
    in order. Matching is on raw substrings, not on whole segments. */
module PathReducers {
  import opened Types
  import opened Profile

  // ---------------------------------------------------------------------------
  // One replacement pass
  // ---------------------------------------------------------------------------

  /** `a` occurs in `s` at position `i`. */
  predicate OccursAt(a: string, s: string, i: int) {
    0 <= i <= |s| - |a| && s[i..i + |a|] == a
  }

  /** `a` occurs somewhere in `s`. */
  predicate Occurs(a: string, s: string) {
    exists i | 0 <= i <= |s| - |a| :: OccursAt(a, s, i)
  }

  /** `String.prototype.replaceAll` with a non-empty string pattern: every
      leftmost non-overlapping occurrence of `a`, scanning from the left, is
      replaced by `b`. */
  function ReplacePass(s: string, a: string, b: string): string
    requires |a| > 0
    decreases |s|
  {
    if |s| < |a| then s
    else if s[..|a|] == a then b + ReplacePass(s[|a|..], a, b)
    else [s[0]] + ReplacePass(s[1..], a, b)
  }

  /** Without a match at the front, `a` occurs in `s` exactly when it occurs in `s[1..]`. */
  lemma OccursTail(a: string, s: string)
    requires |a| > 0 && |s| >= |a| && s[..|a|] != a
    ensures Occurs(a, s) <==> Occurs(a, s[1..])
  {
    if Occurs(a, s) {
      var i :| 0 <= i <= |s| - |a| && OccursAt(a, s, i);
      assert i != 0 by {
        assert s[0..|a|] == s[..|a|];
      }
      assert s[1..][i - 1..i - 1 + |a|] == s[i..i + |a|];
      assert OccursAt(a, s[1..], i - 1);
    }
    var t := s[1..];
    if Occurs(a, t) {
      var i :| 0 <= i <= |t| - |a| && OccursAt(a, t, i);
      assert s[i + 1..i + 1 + |a|] == t[i..i + |a|];
      assert OccursAt(a, s, i + 1);
    }
  }

  /** A match at the front is replaced, and the scan resumes right after it. */
  lemma PassFront(a: string, b: string, t: string)
    requires |a| > 0
    ensures ReplacePass(a + t, a, b) == b + ReplacePass(t, a, b)
  {
    assert (a + t)[..|a|] == a && (a + t)[|a|..] == t;
  }

  /** A pattern holding a character the string lacks does not occur in it. */
  lemma MissingChar(a: string, s: string, c: char)
    requires c in a && c !in s
    ensures !Occurs(a, s)
  {
  }

  /** A pass over a string without an occurrence changes nothing. */
  lemma {:induction false} PassIdentity(s: string, a: string, b: string)
    requires |a| > 0 && !Occurs(a, s)
    ensures ReplacePass(s, a, b) == s
    decreases |s|
  {
    if |s| >= |a| {
      assert s[0..0 + |a|] == s[..|a|];
      assert !OccursAt(a, s, 0);
      OccursTail(a, s);
      PassIdentity(s[1..], a, b);
    }
  }

  /** With a shorter replacement a pass never lengthens the string, and
      shortens it whenever there is an occurrence. */
  lemma {:induction false} PassShrinks(s: string, a: string, b: string)
    requires |a| > 0 && |b| < |a|
    ensures |ReplacePass(s, a, b)| <= |s|
    ensures Occurs(a, s) ==> |ReplacePass(s, a, b)| < |s|
    decreases |s|
  {
    if |s| >= |a| {
      if s[..|a|] == a {
        PassShrinks(s[|a|..], a, b);
      } else {
        OccursTail(a, s);
        PassShrinks(s[1..], a, b);
      }
    }
  }

  /** A pass changes the string exactly when `a` occurs in it. */
  lemma PassChanges(s: string, a: string, b: string)
    requires |a| > 0 && |b| < |a|
    ensures ReplacePass(s, a, b) == s <==> !Occurs(a, s)
  {
    if Occurs(a, s) {
      PassShrinks(s, a, b);
    } else {
      PassIdentity(s, a, b);
    }
  }

  // ---------------------------------------------------------------------------
  // replaceAll: passes until nothing changes
  // ---------------------------------------------------------------------------

  /** The string the `replaceAll` loop stops at: passes are repeated while
      they change the string. Each changing pass shortens it, so this ends,
      with no occurrence of `a` left. */
  function ReplaceAllFix(s: string, a: string, b: string): (r: string)
    requires |a| > 0 && |b| < |a|
    ensures !Occurs(a, r)
    ensures ReplacePass(r, a, b) == r
    ensures |r| <= |s|
    ensures !Occurs(a, s) ==> r == s
    decreases |s|
  {
    var t := ReplacePass(s, a, b);
    PassChanges(s, a, b);
    PassShrinks(s, a, b);
    if t == s then s else ReplaceAllFix(t, a, b)
  }

  /** `replaceAll` is idempotent. */
  lemma ReplaceAllIdempotent(s: string, a: string, b: string)
    requires |a| > 0 && |b| < |a|
    ensures ReplaceAllFix(ReplaceAllFix(s, a, b), a, b) == ReplaceAllFix(s, a, b)
  {
  }

  /** `replaceAll` (src/utils.ts:3-10): a do-while loop around one pass. The
      loop terminates because every pass that changes the string shortens it. */
  method ReplaceAll(str: string, a: string, b: string) returns (r: string)
    requires |a| > 0 && |b| < |a|
    ensures r == ReplaceAllFix(str, a, b)
  {
    var s := str;
    var prev := s;
    s := ReplacePass(s, a, b);
    while prev != s
      invariant s == ReplacePass(prev, a, b)
      invariant ReplaceAllFix(prev, a, b) == ReplaceAllFix(str, a, b)
      decreases |prev|
    {
      PassChanges(prev, a, b);
      PassShrinks(prev, a, b);
      prev := s;
      s := ReplacePass(s, a, b);
    }
    r := s;
  }

  // ---------------------------------------------------------------------------
  // makePathReducer
  // ---------------------------------------------------------------------------

  /** A rewrite pair whose replacement is strictly shorter than its pattern. */
  type Rewrite = r: (string, string) | |r.1| < |r.0| witness (".", "")

  /** The three rewrites of one collapse name `c`. */
  function CollapseRewrites(c: string): seq<Rewrite> {
    [ ("." + c + ".#." + c + ".#", "." + c + ".#"),
      ("." + c + ".#." + c, "." + c),
      ("." + c + "." + c, "." + c) ]
  }

  /** The two rewrites of one remove name `r`. */
  function RemoveRewrites(r: string): seq<Rewrite> {
    [ ("." + r + ".#", ""),
      ("." + r, "") ]
  }

  function CollapseAll(cs: seq<string>): seq<Rewrite> {
    if cs == [] then [] else CollapseRewrites(cs[0]) + CollapseAll(cs[1..])
  }

  function RemoveAll(rs: seq<string>): seq<Rewrite> {
    if rs == [] then [] else RemoveRewrites(rs[0]) + RemoveAll(rs[1..])
  }

  /** The `replaces` list: the collapse rewrites of every collapse name in
      order, then the remove rewrites of every remove name in order. */
  function Replaces(collapseList: Option<seq<string>>, removeList: Option<seq<string>>): (rs: seq<Rewrite>)
    ensures |rs| == 3 * |collapseList.GetOr([])| + 2 * |removeList.GetOr([])|
  {
    CollapseAllLength(collapseList.GetOr([]));
    RemoveAllLength(removeList.GetOr([]));
    CollapseAll(collapseList.GetOr([])) + RemoveAll(removeList.GetOr([]))
  }

  lemma {:induction false} CollapseAllLength(cs: seq<string>)
    ensures |CollapseAll(cs)| == 3 * |cs|
  {
    if cs != [] {
      CollapseAllLength(cs[1..]);
    }
  }

  lemma {:induction false} RemoveAllLength(rs: seq<string>)
    ensures |RemoveAll(rs)| == 2 * |rs|
  {
    if rs != [] {
      RemoveAllLength(rs[1..]);
    }
  }

  /** Each rewrite in turn, each repeated until it no longer applies. */
  function ApplyRewrites(s: string, rs: seq<Rewrite>): string
    decreases rs
  {
    if rs == [] then s else ApplyRewrites(ReplaceAllFix(s, rs[0].0, rs[0].1), rs[1..])
  }

  /** `makePathReducer(collapseList, removeList)` */
  function MakePathReducer(collapseList: Option<seq<string>>, removeList: Option<seq<string>>): PathReducer {
    path => ApplyRewrites("." + Join(path, "."), Replaces(collapseList, removeList))
  }

  /** The body of the closure `makePathReducer` returns: the `for` loop over
      the rewrite pairs. */
  method ReducePath(collapseList: Option<seq<string>>, removeList: Option<seq<string>>, path: seq<string>)
    returns (ret: string)
    ensures ret == MakePathReducer(collapseList, removeList)(path)
  {
    ret := "." + Join(path, ".");
    var rewrites := Replaces(collapseList, removeList);
    for i := 0 to |rewrites|
      invariant ApplyRewrites(ret, rewrites[i..]) == MakePathReducer(collapseList, removeList)(path)
    {
      var (pattern, replacement) := rewrites[i];
      assert rewrites[i..][1..] == rewrites[i + 1..];
      ret := ReplaceAll(ret, pattern, replacement);
    }
  }

  // ---------------------------------------------------------------------------
  // What the reducer guarantees
  // ---------------------------------------------------------------------------

  /** The last rewrite leaves no occurrence of its pattern. */
  lemma {:induction false} ApplyRewritesLast(s: string, rs: seq<Rewrite>)
    requires rs != []
    ensures !Occurs(rs[|rs| - 1].0, ApplyRewrites(s, rs))
    decreases rs
  {
    if |rs| > 1 {
      ApplyRewritesLast(ReplaceAllFix(s, rs[0].0, rs[0].1), rs[1..]);
    }
  }

  /** With no rewrite lists the reducer only joins the path behind a ".". */
  lemma NoRewrites(collapseList: Option<seq<string>>, removeList: Option<seq<string>>, path: seq<string>)
    requires collapseList.GetOr([]) == [] && removeList.GetOr([]) == []
    ensures MakePathReducer(collapseList, removeList)(path) == "." + Join(path, ".")
  {
    assert Replaces(collapseList, removeList) == [];
  }

  /** With one collapse name and nothing to remove, no doubled name remains. */
  lemma SingleCollapse(c: string, removeList: Option<seq<string>>, path: seq<string>)
    requires removeList.GetOr([]) == []
    ensures !Occurs("." + c + "." + c, MakePathReducer(Some([c]), removeList)(path))
  {
    var rs := Replaces(Some([c]), removeList);
    assert rs == CollapseRewrites(c) by {
      assert CollapseAll([c]) == CollapseRewrites(c) + CollapseAll([]);
    }
    ApplyRewritesLast("." + Join(path, "."), rs);
  }

  /** With one remove name and nothing to collapse, no ".r" remains anywhere,
      not even as the start of a longer segment. */
  lemma SingleRemove(r: string, collapseList: Option<seq<string>>, path: seq<string>)
    requires collapseList.GetOr([]) == []
    ensures !Occurs("." + r, MakePathReducer(collapseList, Some([r]))(path))
  {
    var rs := Replaces(collapseList, Some([r]));
    assert rs == RemoveRewrites(r) by {
      assert RemoveAll([r]) == RemoveRewrites(r) + RemoveAll([]);
    }
    ApplyRewritesLast("." + Join(path, "."), rs);
  }
}
