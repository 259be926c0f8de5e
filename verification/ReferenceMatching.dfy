/** Comparing references, picking a best edge, and generating candidates from edges. The normalised text
    of a reference and the similarity of two texts are parameters; scores are reals. */
module ReferenceMatching {
  import opened Foundations

  /** `text` folds case, width and spacing; `ratio` is the similarity of two texts. */
  datatype Norms = Norms(text: string -> string, ratio: (string, string) -> real)

  /** All that is used of the similarity: it is a share, and whole only for equal texts. */
  ghost predicate GoodRatio(n: Norms) {
    forall a, b :: 0.0 <= n.ratio(a, b) <= 1.0 && (n.ratio(a, b) == 1.0 <==> a == b)
  }

  datatype Level = Unrelated | Exact | Normalized | Fuzzy

  datatype Edge = Edge(level: Level, score: real)

  const FUZZY_THRESHOLD: real := 0.88

  predicate Alphanumeric(c: char) {
    'a' <= c <= 'z' || '0' <= c <= '9'
  }

  /** The folded text without anything but letters and digits. */
  function NormalizeReference(n: Norms, reference: string): string {
    Filter(Alphanumeric, n.text(reference))
  }

  function CompareReferences(n: Norms, left: string, right: string): Edge {
    if left == "" || right == "" then Edge(Unrelated, 0.0)
    else if n.text(left) == n.text(right) then Edge(Exact, 1.0)
    else
      var l, r := NormalizeReference(n, left), NormalizeReference(n, right);
      if l != "" && l == r then Edge(Normalized, 1.0)
      else
        var score := n.ratio(l, r);
        if score >= FUZZY_THRESHOLD then Edge(Fuzzy, score) else Edge(Unrelated, score)
  }

  predicate Strong(e: Edge) {
    e.level == Exact || e.level == Normalized
  }

  /** The first edge of the highest score, as Python's `max` picks it; no edge at all is no relation. */
  function Best(edges: seq<Edge>): Edge {
    if edges == [] then Edge(Unrelated, 0.0)
    else if |edges| == 1 then edges[0]
    else
      var before, last := Best(edges[..|edges| - 1]), edges[|edges| - 1];
      if last.score > before.score then last else before
  }

  /** The picked edge is the first of the highest score. */
  lemma {:induction false} BestIsFirstMaximum(edges: seq<Edge>) returns (k: nat)
    requires edges != []
    ensures k < |edges| && Best(edges) == edges[k] && FirstMaximum(edges, k)
  {
    var n := |edges| - 1;
    if n == 0 {
      k := 0;
    } else {
      k := BestIsFirstMaximum(edges[..n]);
      assert forall j :: 0 <= j < n ==> edges[j] == edges[..n][j];
      if edges[n].score > edges[k].score {
        k := n;
      }
    }
  }

  predicate FirstMaximum(edges: seq<Edge>, k: nat) {
    && k < |edges|
    && (forall j :: 0 <= j < |edges| ==> edges[j].score <= edges[k].score)
    && (forall j :: 0 <= j < k ==> edges[j].score < edges[k].score)
  }

  lemma FirstMaximumMeans(edges: seq<Edge>, k: nat, j: nat)
    requires FirstMaximum(edges, k) && j < |edges|
    ensures edges[j].score <= edges[k].score && (j < k ==> edges[j].score < edges[k].score)
  {
  }

  /** A settlement's reference against another record's, which stands on the left when `flipped`. */
  function Compare(n: Norms, reference: string, other: string, flipped: bool): Edge {
    if flipped then CompareReferences(n, other, reference) else CompareReferences(n, reference, other)
  }

  function EdgesFrom(n: Norms, references: seq<string>, other: string, flipped: bool): (r: seq<Edge>)
    ensures |r| == |references|
    ensures forall k :: 0 <= k < |r| ==> r[k] == Compare(n, references[k], other, flipped)
  {
    seq(|references|, k requires 0 <= k < |references| => Compare(n, references[k], other, flipped))
  }

  // ------------------------------------------------------------ when the best edge is strong

  /** Strong edges score the maximum; besides them only two references with nothing left after
      normalisation do. */
  lemma WholeScoreIff(n: Norms, left: string, right: string)
    requires GoodRatio(n)
    ensures CompareReferences(n, left, right).score <= 1.0
    ensures Strong(CompareReferences(n, left, right)) ==> CompareReferences(n, left, right).score == 1.0
    ensures CompareReferences(n, left, right).score == 1.0 && !Strong(CompareReferences(n, left, right))
       <==> left != "" && right != "" && n.text(left) != n.text(right)
            && NormalizeReference(n, left) == "" && NormalizeReference(n, right) == ""
  {
  }

  ghost predicate SomeStrong(n: Norms, references: seq<string>, other: string, flipped: bool) {
    exists k :: 0 <= k < |references| && Strong(Compare(n, references[k], other, flipped))
  }

  /** If what is looked for keeps a letter or a digit, the best edge is strong exactly when some edge is. */
  lemma BestIsStrongIffSomeIs(n: Norms, references: seq<string>, other: string, flipped: bool)
    requires GoodRatio(n) && NormalizeReference(n, other) != ""
    ensures Strong(Best(EdgesFrom(n, references, other, flipped))) <==> SomeStrong(n, references, other, flipped)
  {
    var edges := EdgesFrom(n, references, other, flipped);
    forall k | 0 <= k < |references|
      ensures edges[k].score <= 1.0 && (edges[k].score == 1.0 <==> Strong(edges[k]))
    {
      WholeScoreIff(n, other, references[k]);
      WholeScoreIff(n, references[k], other);
    }
    if references != [] {
      var b := BestIsFirstMaximum(edges);
      forall k | 0 <= k < |references| && Strong(edges[k])
        ensures Strong(edges[b])
      {
        FirstMaximumMeans(edges, b, k);
      }
    }
  }

  /** Something that normalises to nothing, against a reference that does too but reads differently. */
  predicate BlankMismatch(n: Norms, other: string, reference: string) {
    other != "" && reference != "" && n.text(other) != n.text(reference)
    && NormalizeReference(n, other) == "" && NormalizeReference(n, reference) == ""
  }

  /** A weak edge of the whole score, before any strong one and with a strong one after it. */
  ghost predicate Masked(edges: seq<Edge>, k: nat, m: nat) {
    && k < m < |edges| && edges[k].score == 1.0 && !Strong(edges[k]) && Strong(edges[m])
    && forall j :: 0 <= j < k ==> !Strong(edges[j])
  }

  lemma BestIsWeakIffMasked(edges: seq<Edge>)
    requires forall e :: e in edges ==> e.score <= 1.0 && (Strong(e) ==> e.score == 1.0)
    ensures (exists e :: e in edges && Strong(e)) && !Strong(Best(edges)) <==> exists k, m :: Masked(edges, k, m)
  {
    hide Best;
    if edges != [] {
      var b := BestIsFirstMaximum(edges);
      assert edges[b] in edges;
      if e :| e in edges && Strong(e) {
        var m: nat :| m < |edges| && edges[m] == e;
        if !Strong(edges[b]) {
          FirstMaximumMeans(edges, b, m);
          forall j: nat | j < b
            ensures !Strong(edges[j])
          {
            FirstMaximumMeans(edges, b, j);
            assert edges[j] in edges;
          }
          assert Masked(edges, b, m);
        }
      }
      if k: nat, m: nat :| Masked(edges, k, m) {
        FirstMaximumMeans(edges, b, k);
        assert edges[m] in edges;
      }
    }
  }

  /** Exactly when a strong edge is overlooked, in either direction of comparison: a blank mismatch stands
      before the first strong edge. */
  lemma StrongEdgeIsOverlookedIff(n: Norms, references: seq<string>, other: string, flipped: bool)
    requires GoodRatio(n)
    ensures SomeStrong(n, references, other, flipped) && !Strong(Best(EdgesFrom(n, references, other, flipped)))
       <==> MaskedReference(n, references, other, flipped)
    ensures Strong(Best(EdgesFrom(n, references, other, flipped))) ==> SomeStrong(n, references, other, flipped)
  {
    hide CompareReferences, Compare, NormalizeReference, Best, GoodRatio, BlankMismatch;
    var edges := EdgesFrom(n, references, other, flipped);
    forall k | 0 <= k < |references|
      ensures edges[k].score <= 1.0 && (Strong(edges[k]) ==> edges[k].score == 1.0)
      ensures edges[k].score == 1.0 && !Strong(edges[k]) <==> BlankMismatch(n, other, references[k])
    {
      BlankMismatchIff(n, other, references[k], flipped);
    }
    BestIsWeakIffMasked(edges);
    forall k: nat, m: nat
      ensures Masked(edges, k, m) <==> Overlooks(n, references, other, flipped, k, m)
    {
    }
    assert (exists e :: e in edges && Strong(e)) <==> exists k :: 0 <= k < |edges| && Strong(edges[k]);
    BestIsListed(edges);
  }

  lemma BestIsListed(edges: seq<Edge>)
    ensures edges != [] ==> Best(edges) in edges
    ensures Strong(Best(edges)) ==> edges != []
  {
    if edges != [] {
      var k := BestIsFirstMaximum(edges);
    }
  }

  lemma BlankMismatchIff(n: Norms, other: string, reference: string, flipped: bool)
    requires GoodRatio(n)
    ensures var e := Compare(n, reference, other, flipped);
            && e.score <= 1.0 && (Strong(e) ==> e.score == 1.0)
            && (e.score == 1.0 && !Strong(e) <==> BlankMismatch(n, other, reference))
  {
    WholeScoreIff(n, other, reference);
    WholeScoreIff(n, reference, other);
  }

  ghost predicate Overlooks(n: Norms, references: seq<string>, other: string, flipped: bool, k: nat, m: nat) {
    && k < m < |references| && BlankMismatch(n, other, references[k])
    && Strong(Compare(n, references[m], other, flipped))
    && forall j :: 0 <= j < k ==> !Strong(Compare(n, references[j], other, flipped))
  }

  ghost predicate MaskedReference(n: Norms, references: seq<string>, other: string, flipped: bool) {
    exists k, m :: Overlooks(n, references, other, flipped, k, m)
  }

  /** Such an input: "?" looked for among "!" and "?". */
  lemma OverlookedExample(n: Norms)
    requires GoodRatio(n) && n.text("?") == "?" && n.text("!") == "!"
    ensures !Strong(Best(EdgesFrom(n, ["!", "?"], "?", true)))
    ensures Strong(CompareReferences(n, "?", "?"))
  {
    assert NormalizeReference(n, "?") == "" && NormalizeReference(n, "!") == "";
    var references := ["!", "?"];
    assert references[0] == "!" && references[1] == "?";
    assert "?"[0] != "!"[0];
    assert BlankMismatch(n, "?", references[0]) && Strong(CompareReferences(n, "?", references[1]));
    StrongEdgeIsOverlookedIff(n, references, "?", true);
    assert Overlooks(n, references, "?", true, 0, 1);
  }
}
