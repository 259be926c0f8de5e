/** The include/exclude globs: segments matched one by one, with `**` for any run of segments. How one
    segment matches one pattern (`fnmatchcase`) is a parameter. */
module GlobMatching {
  type SegmentMatch = (string, string) -> bool

  const ANY_RUN := "**"

  function MatchSegments(fn: SegmentMatch, path: seq<string>, pattern: seq<string>): bool
    decreases |path| + |pattern|
  {
    if pattern == [] then path == []
    else if pattern[0] == ANY_RUN then
      MatchSegments(fn, path, pattern[1..]) || (path != [] && MatchSegments(fn, path[1..], pattern))
    else path != [] && fn(path[0], pattern[0]) && MatchSegments(fn, path[1..], pattern[1..])
  }

  /** A path matches two patterns in a row exactly when it splits into a match of each. */
  lemma {:induction false} MatchConcatenation(fn: SegmentMatch, path: seq<string>, p: seq<string>, q: seq<string>)
    ensures MatchSegments(fn, path, p + q)
            <==> exists i :: 0 <= i <= |path| && MatchSegments(fn, path[..i], p) && MatchSegments(fn, path[i..], q)
  {
    if MatchSegments(fn, path, p + q) {
      var _ := SplitOf(fn, path, p, q);
    }
    if i :| 0 <= i <= |path| && MatchSegments(fn, path[..i], p) && MatchSegments(fn, path[i..], q) {
      Joined(fn, path[..i], path[i..], p, q);
      assert path[..i] + path[i..] == path;
    }
  }

  lemma {:induction false} SplitOf(fn: SegmentMatch, path: seq<string>, p: seq<string>, q: seq<string>) returns (i: nat)
    requires MatchSegments(fn, path, p + q)
    ensures i <= |path| && MatchSegments(fn, path[..i], p) && MatchSegments(fn, path[i..], q)
    decreases |path| + |p|
  {
    if p == [] {
      i := 0;
      assert p + q == q && path[0..] == path;
    } else {
      assert (p + q)[1..] == p[1..] + q;
      if p[0] == ANY_RUN && MatchSegments(fn, path, p[1..] + q) {
        i := SplitOf(fn, path, p[1..], q);
      } else {
        var j := SplitOf(fn, path[1..], if p[0] == ANY_RUN then p else p[1..], q);
        i := j + 1;
        assert path[..i][1..] == path[1..][..j] && path[1..][j..] == path[i..];
      }
    }
  }

  lemma {:induction false} Joined(fn: SegmentMatch, a: seq<string>, b: seq<string>, p: seq<string>, q: seq<string>)
    requires MatchSegments(fn, a, p) && MatchSegments(fn, b, q)
    ensures MatchSegments(fn, a + b, p + q)
    decreases |a| + |p|
  {
    if p == [] {
      assert a + b == b && p + q == q;
    } else {
      assert (p + q)[1..] == p[1..] + q;
      if p[0] == ANY_RUN && MatchSegments(fn, a, p[1..]) {
        Joined(fn, a, b, p[1..], q);
      } else {
        assert (a + b)[1..] == a[1..] + b;
        Joined(fn, a[1..], b, if p[0] == ANY_RUN then p else p[1..], q);
      }
    }
  }

  /** `**` alone matches every run of segments, none included. */
  lemma {:induction false} AnyRunMatchesAll(fn: SegmentMatch, path: seq<string>)
    ensures MatchSegments(fn, path, [ANY_RUN])
  {
    if path == [] {
      assert MatchSegments(fn, path, []);
      assert [ANY_RUN][1..] == [];
    } else {
      AnyRunMatchesAll(fn, path[1..]);
    }
  }

  /** Adjacent `**` collapse, anywhere in a pattern. */
  lemma AdjacentRunsCollapse(fn: SegmentMatch, path: seq<string>, p: seq<string>, q: seq<string>)
    ensures MatchSegments(fn, path, p + [ANY_RUN, ANY_RUN] + q) <==> MatchSegments(fn, path, p + [ANY_RUN] + q)
  {
    forall rest
      ensures MatchSegments(fn, rest, [ANY_RUN, ANY_RUN] + q) <==> MatchSegments(fn, rest, [ANY_RUN] + q)
    {
      TwoRunsAreOne(fn, rest, q);
    }
    assert p + [ANY_RUN, ANY_RUN] + q == p + ([ANY_RUN, ANY_RUN] + q) && p + [ANY_RUN] + q == p + ([ANY_RUN] + q);
    MatchConcatenation(fn, path, p, [ANY_RUN, ANY_RUN] + q);
    MatchConcatenation(fn, path, p, [ANY_RUN] + q);
  }

  lemma {:induction false} TwoRunsAreOne(fn: SegmentMatch, path: seq<string>, q: seq<string>)
    ensures MatchSegments(fn, path, [ANY_RUN, ANY_RUN] + q) <==> MatchSegments(fn, path, [ANY_RUN] + q)
  {
    assert ([ANY_RUN, ANY_RUN] + q)[1..] == [ANY_RUN] + q && ([ANY_RUN] + q)[1..] == q;
    if path != [] {
      TwoRunsAreOne(fn, path[1..], q);
    }
  }

  /** `**` in the middle: a match of the left part, any run, a match of the right part. */
  lemma RunInTheMiddle(fn: SegmentMatch, path: seq<string>, p: seq<string>, q: seq<string>)
    ensures MatchSegments(fn, path, p + [ANY_RUN] + q)
            <==> exists i, j :: 0 <= i <= j <= |path| && MatchSegments(fn, path[..i], p)
                                && MatchSegments(fn, path[j..], q)
  {
    var right := [ANY_RUN] + q;
    assert p + [ANY_RUN] + q == p + right;
    MatchConcatenation(fn, path, p, right);
    if MatchSegments(fn, path, p + right) {
      var i := SplitOf(fn, path, p, right);
      var k := SplitOf(fn, path[i..], [ANY_RUN], q);
      assert path[i..][k..] == path[i + k..];
    }
    if i, j :| 0 <= i <= j <= |path| && MatchSegments(fn, path[..i], p) && MatchSegments(fn, path[j..], q) {
      AnyRunMatchesAll(fn, path[i..j]);
      Joined(fn, path[i..j], path[j..], [ANY_RUN], q);
      assert path[i..j] + path[j..] == path[i..];
    }
  }

  // ------------------------------------------------------------ what a match is

  /** The k-th run of a path cut into runs, `path[cuts[k]..cuts[k + 1]]`, matches the k-th pattern segment: any run
      matches `**`, and one matching segment every other. */
  predicate RunMatches(fn: SegmentMatch, path: seq<string>, pattern: seq<string>, cuts: seq<nat>, k: nat)
    requires k < |pattern| && |cuts| == |pattern| + 1
  {
    && cuts[k] <= cuts[k + 1] <= |path|
    && (pattern[k] != "**" ==> cuts[k + 1] == cuts[k] + 1 && fn(path[cuts[k]], pattern[k]))
  }

  ghost predicate CutsMatch(fn: SegmentMatch, path: seq<string>, pattern: seq<string>, cuts: seq<nat>) {
    && |cuts| == |pattern| + 1 && cuts[0] == 0 && cuts[|pattern|] == |path|
    && forall k :: 0 <= k < |pattern| ==> RunMatches(fn, path, pattern, cuts, k)
  }

  ghost predicate Matches(fn: SegmentMatch, path: seq<string>, pattern: seq<string>) {
    exists cuts :: CutsMatch(fn, path, pattern, cuts)
  }

  /** The recursion finds such cuts exactly when there are any. */
  lemma {:induction false} MatchIffCuts(fn: SegmentMatch, path: seq<string>, pattern: seq<string>)
    ensures MatchSegments(fn, path, pattern) <==> Matches(fn, path, pattern)
  {
    if MatchSegments(fn, path, pattern) {
      var _ := CutsOf(fn, path, pattern);
    }
    if cuts :| CutsMatch(fn, path, pattern, cuts) {
      CutsAreFound(fn, path, pattern, cuts);
    }
  }

  /** Cuts of the rest of a path, counted on the whole path. */
  function Shifted(cuts: seq<nat>): (r: seq<nat>)
    ensures |r| == |cuts| && forall k :: 0 <= k < |r| ==> r[k] == cuts[k] + 1
  {
    seq(|cuts|, k requires 0 <= k < |cuts| => cuts[k] + 1)
  }

  lemma {:induction false} CutsOf(fn: SegmentMatch, path: seq<string>, pattern: seq<string>) returns (cuts: seq<nat>)
    requires MatchSegments(fn, path, pattern)
    ensures CutsMatch(fn, path, pattern, cuts)
    decreases |path| + |pattern|
  {
    hide CutsMatch;
    if pattern == [] {
      cuts := [0];
      assert CutsMatch(fn, [], [], [0]) by { NoRuns(fn); }
    } else if pattern[0] == ANY_RUN && MatchSegments(fn, path, pattern[1..]) {
      var rest := CutsOf(fn, path, pattern[1..]);
      cuts := [0] + rest;
      EmptyRun(fn, path, pattern, rest);
    } else if pattern[0] == ANY_RUN {
      var rest := CutsOf(fn, path[1..], pattern);
      cuts := LongerRun(fn, path, pattern, rest);
    } else {
      var rest := CutsOf(fn, path[1..], pattern[1..]);
      cuts := [0] + Shifted(rest);
      OneSegment(fn, path, pattern, rest);
    }
  }

  lemma NoRuns(fn: SegmentMatch)
    ensures CutsMatch(fn, [], [], [0])
  {
  }

  lemma EmptyRun(fn: SegmentMatch, path: seq<string>, pattern: seq<string>, rest: seq<nat>)
    requires pattern != [] && pattern[0] == ANY_RUN && CutsMatch(fn, path, pattern[1..], rest)
    ensures CutsMatch(fn, path, pattern, [0] + rest)
  {
    forall k | 0 <= k < |pattern|
      ensures RunMatches(fn, path, pattern, [0] + rest, k)
    {
      if k > 0 {
        assert RunMatches(fn, path, pattern[1..], rest, k - 1);
      } else if |pattern| > 1 {
        assert RunMatches(fn, path, pattern[1..], rest, 0);
      }
    }
  }

  lemma LongerRun(fn: SegmentMatch, path: seq<string>, pattern: seq<string>, rest: seq<nat>) returns (cuts: seq<nat>)
    requires path != [] && pattern != [] && pattern[0] == ANY_RUN && CutsMatch(fn, path[1..], pattern, rest)
    ensures CutsMatch(fn, path, pattern, cuts)
  {
    cuts := [0] + Shifted(rest)[1..];
    forall k | 0 <= k < |pattern|
      ensures RunMatches(fn, path, pattern, cuts, k)
    {
      assert RunMatches(fn, path[1..], pattern, rest, k);
    }
  }

  lemma OneSegment(fn: SegmentMatch, path: seq<string>, pattern: seq<string>, rest: seq<nat>)
    requires path != [] && pattern != [] && pattern[0] != ANY_RUN && fn(path[0], pattern[0])
    requires CutsMatch(fn, path[1..], pattern[1..], rest)
    ensures CutsMatch(fn, path, pattern, [0] + Shifted(rest))
  {
    var cuts := [0] + Shifted(rest);
    forall k | 0 <= k < |pattern|
      ensures RunMatches(fn, path, pattern, cuts, k)
    {
      if k > 0 {
        assert RunMatches(fn, path[1..], pattern[1..], rest, k - 1);
      }
    }
  }

  lemma {:induction false} CutsAreFound(fn: SegmentMatch, path: seq<string>, pattern: seq<string>, cuts: seq<nat>)
    requires CutsMatch(fn, path, pattern, cuts)
    ensures MatchSegments(fn, path, pattern)
    decreases |path| + |pattern|
  {
    hide CutsMatch;
    if pattern == [] {
      NoPatternNoPath(fn, path, cuts);
    } else {
      FirstRun(fn, path, pattern, cuts);
      if pattern[0] == ANY_RUN && cuts[1] == 0 {
        CutsAreFound(fn, path, pattern[1..], cuts[1..]);
      } else {
        var lower := Lowered(fn, path, pattern, cuts);
        if pattern[0] == ANY_RUN {
          CutsAreFound(fn, path[1..], pattern, [0] + lower);
        } else {
          CutsAreFound(fn, path[1..], pattern[1..], lower);
        }
      }
    }
  }

  lemma NoPatternNoPath(fn: SegmentMatch, path: seq<string>, cuts: seq<nat>)
    requires CutsMatch(fn, path, [], cuts)
    ensures path == []
  {
  }

  lemma FirstRun(fn: SegmentMatch, path: seq<string>, pattern: seq<string>, cuts: seq<nat>)
    requires pattern != [] && CutsMatch(fn, path, pattern, cuts)
    ensures |cuts| == |pattern| + 1
    ensures cuts[1] == 0 ==> pattern[0] == ANY_RUN && CutsMatch(fn, path, pattern[1..], cuts[1..])
    ensures cuts[1] > 0 ==> path != [] && (pattern[0] != ANY_RUN ==> fn(path[0], pattern[0]))
  {
    assert RunMatches(fn, path, pattern, cuts, 0);
    if cuts[1] == 0 {
      forall k | 0 <= k < |pattern| - 1
        ensures RunMatches(fn, path, pattern[1..], cuts[1..], k)
      {
        assert RunMatches(fn, path, pattern, cuts, k + 1);
      }
    }
  }

  lemma {:induction false} Rising(fn: SegmentMatch, path: seq<string>, pattern: seq<string>, cuts: seq<nat>, k: nat)
    requires CutsMatch(fn, path, pattern, cuts) && 1 <= k < |cuts|
    ensures forall j :: 1 <= j <= k ==> cuts[1] <= cuts[j]
  {
    if k > 1 {
      Rising(fn, path, pattern, cuts, k - 1);
      assert RunMatches(fn, path, pattern, cuts, k - 1);
    }
  }

  /** The later cuts, counted on the path without its first segment. */
  lemma Lowered(fn: SegmentMatch, path: seq<string>, pattern: seq<string>, cuts: seq<nat>) returns (lower: seq<nat>)
    requires path != [] && pattern != [] && CutsMatch(fn, path, pattern, cuts) && cuts[1] > 0
    ensures pattern[0] == ANY_RUN ==> CutsMatch(fn, path[1..], pattern, [0] + lower)
    ensures pattern[0] != ANY_RUN ==> CutsMatch(fn, path[1..], pattern[1..], lower)
  {
    Rising(fn, path, pattern, cuts, |pattern|);
    lower := seq(|pattern|, k requires 0 <= k < |pattern| => Less(cuts[k + 1]));
    assert RunMatches(fn, path, pattern, cuts, 0);
    forall k | 1 <= k < |pattern|
      ensures lower[k - 1] <= lower[k] <= |path[1..]|
      ensures pattern[k] != "**" ==> lower[k] == lower[k - 1] + 1 && fn(path[1..][lower[k - 1]], pattern[k])
    {
      assert RunMatches(fn, path, pattern, cuts, k);
    }
    if pattern[0] == ANY_RUN {
      forall k | 0 <= k < |pattern|
        ensures RunMatches(fn, path[1..], pattern, [0] + lower, k)
      {
      }
    } else {
      forall k | 0 <= k < |pattern| - 1
        ensures RunMatches(fn, path[1..], pattern[1..], lower, k)
      {
        assert pattern[1..][k] == pattern[k + 1];
      }
    }
  }

  function Less(cut: nat): nat {
    if cut == 0 then 0 else cut - 1
  }
}
