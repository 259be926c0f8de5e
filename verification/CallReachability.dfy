/** The baseline mapper's breadth-first reachability over call edges, with its optional depth bound,
    and the role sets it computes with it. */
module CallReachability {
  import opened Foundations

  type Symbol = string
  type Adjacency = map<Symbol, set<Symbol>>

  function Callees(adjacency: Adjacency, s: Symbol): set<Symbol> {
    if s in adjacency then adjacency[s] else {}
  }

  /** A call path, first symbol first. */
  ghost predicate IsPath(adjacency: Adjacency, path: seq<Symbol>) {
    path != [] && forall i :: 0 <= i < |path| - 1 ==> path[i + 1] in Callees(adjacency, path[i])
  }

  /** Some call path of exactly `n` calls leads from a start to `s`. */
  ghost predicate PathOfLength(starts: set<Symbol>, adjacency: Adjacency, s: Symbol, n: nat) {
    exists path :: IsPath(adjacency, path) && |path| == n + 1 && path[0] in starts && path[n] == s
  }

  /** Everything within `n` calls of the starts. */
  ghost predicate Within(starts: set<Symbol>, adjacency: Adjacency, n: nat, s: Symbol)
    decreases n
  {
    s in starts
    || (n > 0 && (Within(starts, adjacency, n - 1, s)
                  || exists t :: Within(starts, adjacency, n - 1, t) && s in Callees(adjacency, t)))
  }

  lemma {:induction false} WithinGrows(starts: set<Symbol>, adjacency: Adjacency, m: nat, n: nat, s: Symbol)
    requires m <= n && Within(starts, adjacency, m, s)
    ensures Within(starts, adjacency, n, s)
    decreases n
  {
    if m < n {
      WithinGrows(starts, adjacency, m, n - 1, s);
    }
  }

  /** Layers are shortest call paths: within `n` means some path of at most `n` calls. */
  lemma {:induction false} WithinIsPathLength(starts: set<Symbol>, adjacency: Adjacency, n: nat, s: Symbol)
    ensures Within(starts, adjacency, n, s) <==> exists k: nat :: k <= n && PathOfLength(starts, adjacency, s, k)
  {
    if Within(starts, adjacency, n, s) {
      WithinHasPath(starts, adjacency, n, s);
    }
    if k: nat :| k <= n && PathOfLength(starts, adjacency, s, k) {
      PathIsWithin(starts, adjacency, k, s);
      WithinGrows(starts, adjacency, k, n, s);
    }
  }

  lemma {:induction false} WithinHasPath(starts: set<Symbol>, adjacency: Adjacency, n: nat, s: Symbol)
    requires Within(starts, adjacency, n, s)
    ensures exists k: nat :: k <= n && PathOfLength(starts, adjacency, s, k)
  {
    if s in starts {
      assert IsPath(adjacency, [s]);
      assert PathOfLength(starts, adjacency, s, 0);
    } else if Within(starts, adjacency, n - 1, s) {
      WithinHasPath(starts, adjacency, n - 1, s);
    } else {
      var t :| Within(starts, adjacency, n - 1, t) && s in Callees(adjacency, t);
      WithinHasPath(starts, adjacency, n - 1, t);
      var k: nat :| k <= n - 1 && PathOfLength(starts, adjacency, t, k);
      var path :| IsPath(adjacency, path) && |path| == k + 1 && path[0] in starts && path[k] == t;
      var longer := path + [s];
      assert IsPath(adjacency, longer) && |longer| == k + 2 && longer[0] in starts && longer[k + 1] == s;
      assert PathOfLength(starts, adjacency, s, k + 1);
    }
  }

  lemma {:induction false} PathIsWithin(starts: set<Symbol>, adjacency: Adjacency, k: nat, s: Symbol)
    requires PathOfLength(starts, adjacency, s, k)
    ensures Within(starts, adjacency, k, s)
  {
    var path :| IsPath(adjacency, path) && |path| == k + 1 && path[0] in starts && path[k] == s;
    if k > 0 {
      var shorter := path[..k];
      assert IsPath(adjacency, shorter) && |shorter| == k && shorter[0] in starts && shorter[k - 1] == path[k - 1];
      assert PathOfLength(starts, adjacency, path[k - 1], k - 1);
      PathIsWithin(starts, adjacency, k - 1, path[k - 1]);
      assert path[k] in Callees(adjacency, path[k - 1]);
    }
  }

  /** The depth a bound allows; a negative bound expands nothing. */
  function Levels(maxDepth: int): nat {
    if maxDepth < 0 then 0 else maxDepth
  }

  /** What `_reachable` must return: the symbols within the bound, or all reachable ones. */
  ghost predicate InReach(starts: set<Symbol>, adjacency: Adjacency, maxDepth: Option<int>, s: Symbol) {
    match maxDepth
    case Some(d) => Within(starts, adjacency, Levels(d), s)
    case None => exists n: nat :: Within(starts, adjacency, n, s)
  }

  // ------------------------------------------------------------ the queue

  datatype Item = Item(symbol: Symbol, depth: nat)

  predicate Pending(queue: seq<Item>, s: Symbol) {
    exists i :: 0 <= i < |queue| && queue[i].symbol == s
  }

  /** First in, first out: queued depths never decrease, span at most one level, and respect the bound. */
  ghost predicate Layered(maxDepth: Option<int>, queue: seq<Item>) {
    && (forall i, j :: 0 <= i < j < |queue| ==> queue[i].depth <= queue[j].depth)
    && (forall i :: 0 <= i < |queue| ==> queue[i].depth <= queue[0].depth + 1)
    && (maxDepth.Some? ==> forall i :: 0 <= i < |queue| ==> queue[i].depth <= Levels(maxDepth.value))
  }

  /** A queued depth is the symbol's exact distance from the starts. */
  ghost predicate ExactDepth(starts: set<Symbol>, adjacency: Adjacency, item: Item) {
    Within(starts, adjacency, item.depth, item.symbol)
    && (item.depth > 0 ==> !Within(starts, adjacency, item.depth - 1, item.symbol))
  }

  /** Lying at the bound, so not expanded. */
  ghost predicate AtBound(starts: set<Symbol>, adjacency: Adjacency, maxDepth: Option<int>, s: Symbol) {
    maxDepth.Some? && (Levels(maxDepth.value) == 0 || !Within(starts, adjacency, Levels(maxDepth.value) - 1, s))
  }

  ghost predicate Expanded(starts: set<Symbol>, adjacency: Adjacency, maxDepth: Option<int>, seen: set<Symbol>,
                           s: Symbol) {
    Callees(adjacency, s) <= seen || AtBound(starts, adjacency, maxDepth, s)
  }

  ghost predicate Progress(starts: set<Symbol>, adjacency: Adjacency, maxDepth: Option<int>, seen: set<Symbol>,
                           queue: seq<Item>) {
    && starts <= seen
    && Layered(maxDepth, queue)
    && (forall i :: 0 <= i < |queue| ==> queue[i].symbol in seen && ExactDepth(starts, adjacency, queue[i]))
    && (forall s :: s in seen ==> InReach(starts, adjacency, maxDepth, s))
    && (forall s :: s in seen && !Pending(queue, s) ==> Expanded(starts, adjacency, maxDepth, seen, s))
  }

  /** With the front at depth d, everything within d calls has been seen: nothing nearer comes later. */
  lemma FrontIsNearest(starts: set<Symbol>, adjacency: Adjacency, maxDepth: Option<int>, seen: set<Symbol>,
                       queue: seq<Item>, n: nat, s: Symbol)
    requires Progress(starts, adjacency, maxDepth, seen, queue) && queue != []
    requires n <= queue[0].depth && Within(starts, adjacency, n, s)
    ensures s in seen
    decreases n
  {
    if s !in starts {
      if Within(starts, adjacency, n - 1, s) {
        FrontIsNearest(starts, adjacency, maxDepth, seen, queue, n - 1, s);
      } else {
        var t :| Within(starts, adjacency, n - 1, t) && s in Callees(adjacency, t);
        FrontIsNearest(starts, adjacency, maxDepth, seen, queue, n - 1, t);
        if Pending(queue, t) {
          var i :| 0 <= i < |queue| && queue[i].symbol == t;
          assert queue[0].depth <= queue[i].depth;
          WithinGrows(starts, adjacency, n - 1, queue[i].depth - 1, t);
        }
        if AtBound(starts, adjacency, maxDepth, t) {
          WithinGrows(starts, adjacency, n - 1, Levels(maxDepth.value) - 1, t);
        }
      }
    }
  }

  /** The depth at the front is the length of a shortest path to its symbol, and everything within that
      distance has been seen. */
  lemma FrontDepthIsShortest(starts: set<Symbol>, adjacency: Adjacency, maxDepth: Option<int>, seen: set<Symbol>,
                             queue: seq<Item>)
    requires Progress(starts, adjacency, maxDepth, seen, queue) && queue != []
    ensures PathOfLength(starts, adjacency, queue[0].symbol, queue[0].depth)
    ensures forall n: nat :: n < queue[0].depth ==> !PathOfLength(starts, adjacency, queue[0].symbol, n)
    ensures forall n: nat, s :: n <= queue[0].depth && PathOfLength(starts, adjacency, s, n) ==> s in seen
  {
    hide PathOfLength, Layered, InReach, Expanded;
    var front := queue[0];
    assert ExactDepth(starts, adjacency, front);
    WithinIsPathLength(starts, adjacency, front.depth, front.symbol);
    if front.depth > 0 {
      WithinIsPathLength(starts, adjacency, front.depth - 1, front.symbol);
    }
    forall n: nat, s | n <= front.depth && PathOfLength(starts, adjacency, s, n)
      ensures s in seen
    {
      WithinIsPathLength(starts, adjacency, front.depth, s);
      FrontIsNearest(starts, adjacency, maxDepth, seen, queue, front.depth, s);
    }
  }

  /** When the queue is empty, everything in reach has been seen. */
  lemma {:induction false} NothingMissed(starts: set<Symbol>, adjacency: Adjacency, maxDepth: Option<int>,
                                         seen: set<Symbol>, n: nat, s: Symbol)
    requires Progress(starts, adjacency, maxDepth, seen, [])
    requires Within(starts, adjacency, n, s) && (maxDepth.Some? ==> n <= Levels(maxDepth.value))
    ensures s in seen
    decreases n
  {
    if s !in starts {
      if Within(starts, adjacency, n - 1, s) {
        NothingMissed(starts, adjacency, maxDepth, seen, n - 1, s);
      } else {
        var t :| Within(starts, adjacency, n - 1, t) && s in Callees(adjacency, t);
        NothingMissed(starts, adjacency, maxDepth, seen, n - 1, t);
        assert !Pending([], t);
        if AtBound(starts, adjacency, maxDepth, t) {
          WithinGrows(starts, adjacency, n - 1, Levels(maxDepth.value) - 1, t);
        }
      }
    }
  }

  /** Dropping a front that lies at the bound. */
  lemma DropKeepsProgress(starts: set<Symbol>, adjacency: Adjacency, maxDepth: Option<int>, seen: set<Symbol>,
                          queue: seq<Item>)
    requires Progress(starts, adjacency, maxDepth, seen, queue) && queue != []
    requires maxDepth.Some? && queue[0].depth >= maxDepth.value
    ensures Progress(starts, adjacency, maxDepth, seen, queue[1..])
  {
    var rest := queue[1..];
    assert forall i :: 0 <= i < |rest| ==> rest[i] == queue[i + 1];
    assert AtBound(starts, adjacency, maxDepth, queue[0].symbol);
    forall s | s in seen && !Pending(rest, s)
      ensures Expanded(starts, adjacency, maxDepth, seen, s)
    {
      PendingTail(queue, s);
    }
  }

  lemma PendingTail(queue: seq<Item>, s: Symbol)
    requires queue != []
    ensures Pending(queue, s) <==> s == queue[0].symbol || Pending(queue[1..], s)
  {
    var rest := queue[1..];
    assert forall i :: 0 <= i < |rest| ==> rest[i] == queue[i + 1];
    if i :| 0 <= i < |queue| && queue[i].symbol == s && i > 0 {
      assert rest[i - 1].symbol == s;
    }
  }

  /** What visiting the callees of a symbol does to the seen set and the queue. */
  ghost predicate Visited(targets: set<Symbol>, depth: nat, seen: set<Symbol>, queue: seq<Item>,
                          seen': set<Symbol>, queue': seq<Item>) {
    && seen' == seen + targets
    && |queue'| == |queue| + |targets - seen| && queue'[..|queue|] == queue
    && (forall i :: |queue| <= i < |queue'| ==> queue'[i].depth == depth && queue'[i].symbol in targets - seen)
    && (forall s :: s in targets - seen ==> Pending(queue', s))
  }

  lemma VisitKeepsProgress(starts: set<Symbol>, adjacency: Adjacency, maxDepth: Option<int>, seen: set<Symbol>,
                           queue: seq<Item>, seen': set<Symbol>, queue': seq<Item>)
    requires Progress(starts, adjacency, maxDepth, seen, queue) && queue != []
    requires maxDepth.Some? ==> queue[0].depth < maxDepth.value
    requires Visited(Callees(adjacency, queue[0].symbol), queue[0].depth + 1, seen, queue[1..], seen', queue')
    ensures Progress(starts, adjacency, maxDepth, seen', queue')
  {
    var front, rest, targets := queue[0], queue[1..], Callees(adjacency, queue[0].symbol);
    assert forall i :: 0 <= i < |rest| ==> queue'[i] == rest[i] == queue[i + 1];
    forall t | t in targets - seen
      ensures ExactDepth(starts, adjacency, Item(t, front.depth + 1)) && InReach(starts, adjacency, maxDepth, t)
    {
      assert Within(starts, adjacency, front.depth, front.symbol);
      assert Within(starts, adjacency, front.depth + 1, t);
      if Within(starts, adjacency, front.depth, t) {
        FrontIsNearest(starts, adjacency, maxDepth, seen, queue, front.depth, t);
      }
      if maxDepth.Some? {
        WithinGrows(starts, adjacency, front.depth + 1, Levels(maxDepth.value), t);
      }
    }
    forall i | 0 <= i < |queue'|
      ensures queue'[i].symbol in seen' && ExactDepth(starts, adjacency, queue'[i])
    {
      if i >= |rest| {
        assert queue'[i] == Item(queue'[i].symbol, front.depth + 1);
      }
    }
    forall s | s in seen' && !Pending(queue', s)
      ensures Expanded(starts, adjacency, maxDepth, seen', s)
    {
      if s != front.symbol {
        PendingTail(queue, s);
        assert forall i :: 0 <= i < |rest| ==> queue'[i].symbol != s;
        assert Expanded(starts, adjacency, maxDepth, seen, s);
      }
    }
  }

  // ------------------------------------------------------------ the algorithm

  /** Symbols that can ever be seen. */
  function Symbols(starts: set<Symbol>, adjacency: Adjacency): set<Symbol> {
    starts + set s, t | s in adjacency && t in adjacency[s] :: t
  }

  lemma VisitOneMore(done: set<Symbol>, target: Symbol, depth: nat, seen: set<Symbol>, queue: seq<Item>,
                     seen': set<Symbol>, queue': seq<Item>)
    requires target !in done && Visited(done, depth, seen, queue, seen', queue')
    ensures target in seen' ==> Visited(done + {target}, depth, seen, queue, seen', queue')
    ensures target !in seen' ==>
              Visited(done + {target}, depth, seen, queue, seen' + {target}, queue' + [Item(target, depth)])
  {
    if target in seen' {
      assert (done + {target}) - seen == done - seen;
    } else {
      var longer := queue' + [Item(target, depth)];
      assert (done + {target}) - seen == (done - seen) + {target};
      assert longer[..|queue|] == queue'[..|queue|];
      forall s | s in (done + {target}) - seen
        ensures Pending(longer, s)
      {
        if s == target {
          assert longer[|queue'|].symbol == s;
        } else {
          var i :| 0 <= i < |queue'| && queue'[i].symbol == s;
          assert longer[i].symbol == s;
        }
      }
    }
  }

  method Enqueue(targets: set<Symbol>, depth: nat, seen: set<Symbol>, queue: seq<Item>)
    returns (seen': set<Symbol>, queue': seq<Item>)
    ensures Visited(targets, depth, seen, queue, seen', queue')
  {
    seen', queue' := seen, queue;
    var left := targets;
    ghost var done: set<Symbol> := {};
    while left != {}
      invariant done + left == targets && done !! left
      invariant Visited(done, depth, seen, queue, seen', queue')
    {
      var target :| target in left;
      VisitOneMore(done, target, depth, seen, queue, seen', queue');
      left, done := left - {target}, done + {target};
      if target !in seen' {
        seen', queue' := seen' + {target}, queue' + [Item(target, depth)];
      }
    }
  }

  lemma StartsInProgress(starts: set<Symbol>, adjacency: Adjacency, maxDepth: Option<int>, seen: set<Symbol>,
                         queue: seq<Item>)
    requires Visited(starts, 0, {}, [], seen, queue)
    ensures seen == starts && Progress(starts, adjacency, maxDepth, seen, queue)
  {
    assert starts - {} == starts;
    forall s | s in starts
      ensures InReach(starts, adjacency, maxDepth, s)
    {
      assert Within(starts, adjacency, 0, s);
      if maxDepth.Some? {
        WithinGrows(starts, adjacency, 0, Levels(maxDepth.value), s);
      }
    }
  }

  lemma NothingInReachMissed(starts: set<Symbol>, adjacency: Adjacency, maxDepth: Option<int>, seen: set<Symbol>)
    requires Progress(starts, adjacency, maxDepth, seen, [])
    ensures forall s :: s in seen <==> InReach(starts, adjacency, maxDepth, s)
  {
    forall s | InReach(starts, adjacency, maxDepth, s)
      ensures s in seen
    {
      var n: nat :| Within(starts, adjacency, n, s) && (maxDepth.Some? ==> n == Levels(maxDepth.value));
      NothingMissed(starts, adjacency, maxDepth, seen, n, s);
    }
  }

  lemma LessLeft(symbols: set<Symbol>, seen: set<Symbol>, targets: set<Symbol>)
    requires seen <= symbols && targets <= symbols
    ensures |symbols - seen| == |symbols - (seen + targets)| + |targets - seen|
  {
    assert symbols - seen == (symbols - (seen + targets)) + (targets - seen);
  }

  /** The symbols within the bound of the starts, or all reachable ones without a bound. */
  method Reachable(starts: set<Symbol>, adjacency: Adjacency, maxDepth: Option<int>) returns (seen: set<Symbol>)
    ensures forall s :: s in seen <==> InReach(starts, adjacency, maxDepth, s)
  {
    ghost var symbols := Symbols(starts, adjacency);
    var queue;
    seen, queue := Enqueue(starts, 0, {}, []);
    StartsInProgress(starts, adjacency, maxDepth, seen, queue);
    while queue != []
      invariant seen <= symbols
      invariant Progress(starts, adjacency, maxDepth, seen, queue)
      decreases |queue| + |symbols - seen|
    {
      var front := queue[0];
      if maxDepth.Some? && front.depth >= maxDepth.value {
        DropKeepsProgress(starts, adjacency, maxDepth, seen, queue);
        queue := queue[1..];
      } else {
        var targets := Callees(adjacency, front.symbol);
        var seen', queue' := Enqueue(targets, front.depth + 1, seen, queue[1..]);
        VisitKeepsProgress(starts, adjacency, maxDepth, seen, queue, seen', queue');
        LessLeft(symbols, seen, targets);
        seen, queue := seen', queue';
      }
    }
    NothingInReachMissed(starts, adjacency, maxDepth, seen);
  }

  // ------------------------------------------------------------ the mapper's sets

  datatype CallEdge = CallEdge(caller: Symbol, callee: Symbol, paymentState: Option<string>)

  predicate HasEdge(edges: seq<CallEdge>, caller: Symbol, callee: Symbol) {
    exists e :: e in edges && e.caller == caller && e.callee == callee
  }

  lemma HasEdgeAppend(edges: seq<CallEdge>, edge: CallEdge, s: Symbol, t: Symbol)
    ensures HasEdge(edges + [edge], s, t) <==> HasEdge(edges, s, t) || (edge.caller == s && edge.callee == t)
  {
    assert edge in edges + [edge];
    assert forall e :: e in edges ==> e in edges + [edge];
  }

  /** Only edges into known symbols count. */
  method BuildAdjacency(symbols: set<Symbol>, edges: seq<CallEdge>) returns (adjacency: Adjacency)
    ensures forall s, t :: t in Callees(adjacency, s) <==> t in symbols && HasEdge(edges, s, t)
  {
    adjacency := map[];
    for i := 0 to |edges|
      invariant forall s, t :: t in Callees(adjacency, s) <==> t in symbols && HasEdge(edges[..i], s, t)
    {
      var edge := edges[i];
      assert edges[..i + 1] == edges[..i] + [edge];
      ghost var before := adjacency;
      if edge.callee in symbols {
        adjacency := adjacency[edge.caller := Callees(adjacency, edge.caller) + {edge.callee}];
      }
      forall s, t
        ensures t in Callees(adjacency, s) <==> t in symbols && HasEdge(edges[..i + 1], s, t)
      {
        HasEdgeAppend(edges[..i], edge, s, t);
        assert t in Callees(before, s) <==> t in symbols && HasEdge(edges[..i], s, t);
      }
    }
    assert edges[..|edges|] == edges;
  }

  const CAPTURE_DEPTH := 3

  /** Symbols one to three calls below a captured callee, captured callees themselves excluded. */
  method TransitiveCaptured(directCaptured: set<Symbol>, adjacency: Adjacency) returns (transitive: set<Symbol>)
    ensures forall s :: s in transitive <==>
              && !PathOfLength(directCaptured, adjacency, s, 0)
              && exists k: nat :: 1 <= k <= 3 && PathOfLength(directCaptured, adjacency, s, k)
  {
    var reached := Reachable(directCaptured, adjacency, Some(CAPTURE_DEPTH));
    transitive := reached - directCaptured;
    forall s
      ensures s in directCaptured <==> PathOfLength(directCaptured, adjacency, s, 0)
      ensures s in reached <==> exists k: nat :: k <= CAPTURE_DEPTH && PathOfLength(directCaptured, adjacency, s, k)
    {
      WithinIsPathLength(directCaptured, adjacency, CAPTURE_DEPTH, s);
      if s in directCaptured {
        assert IsPath(adjacency, [s]);
      }
    }
  }
}
