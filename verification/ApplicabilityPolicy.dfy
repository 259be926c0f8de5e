/** What the policy assessment says, on the graph, the controls and the merchant's confirmations: the states the
    evidence shows, its status, what is suggested, and whether a confirmation is for the present evidence; and what
    the fingerprints of that evidence cover. */
module ApplicabilityPolicy {
  import opened Foundations
  import opened PaymentGraph
  import opened ApplicabilityContracts
  import opened ApplicabilityEngine
  import opened PaymentFacts
  import opened ApplicabilityGating

  /** A branch taken on the state leads from some control's route to some control's value. */
  ghost predicate Shown(x: Context, controls: seq<Control>, state: string) {
    exists c :: c in controls && RouteMentions(x, controls, c.route, state)
  }

  /** Every control's route is analysed and shows a payment state. */
  ghost predicate WholeEvidence(x: Context, controls: seq<Control>) {
    && controls != []
    && (forall c :: c in controls ==> !CoverageReduced(x, c.route))
    && (forall c :: c in controls ==>
          RouteMentions(x, controls, c.route, "authorized") || RouteMentions(x, controls, c.route, "captured"))
  }

  lemma ObservedIsShown(x: Context, controls: seq<Control>, state: string)
    ensures state in Observed(PolicyEdges(x, controls, Routes(controls)))
       <==> (state == "authorized" || state == "captured") && Shown(x, controls, state)
  {
    hide PolicyEdges, RouteMentions;
    ObservedRange(PolicyEdges(x, controls, Routes(controls)));
    if state == "authorized" || state == "captured" {
      ObservedOnRoute(x, controls, Routes(controls), state);
    }
  }

  /** The assessment, field by field. */
  lemma PolicyAssessed(x: Context, controls: seq<Control>)
    ensures var f, whole := AssessPolicy(x, controls).fulfilment, WholeEvidence(x, controls);
            var authorized, captured := Shown(x, controls, "authorized"), Shown(x, controls, "captured");
            && (forall state :: state in f.observed <==>
                  (state == "authorized" || state == "captured") && Shown(x, controls, state))
            && (f.status == INSUFFICIENT_EVIDENCE <==> !whole)
            && (f.status == CONFLICTING_EVIDENCE <==> whole && authorized && captured)
            && f.suggested == (if !whole || (authorized && captured) then None
                               else Some(if captured then CAPTURE_REQUIRED else AUTHORIZED_ALLOWED))
            && f.fingerprint == x.fulfilmentPrint(FulfilmentEvidence(x, controls))
            && match x.fulfilment
               case None => f.confirmed == None && f.current == None && !f.mismatch
               case Some(given) =>
                 f.confirmed == Some(given.value) && f.current == Some(given.fingerprint == f.fingerprint)
                 && (f.mismatch <==> f.suggested.Some? && f.suggested.value != given.value)
    ensures var l := AssessPolicy(x, controls).late;
            && l.fingerprint == x.latePrint(LateEvidence(x, controls))
            && match x.late
               case None => l.confirmed == None && l.current == None
               case Some(given) =>
                 l.confirmed == Some(given.value) && l.current == Some(given.fingerprint == l.fingerprint)
  {
    hide FulfilmentEvidence, LateEvidence, PolicyEdges, Observed, RouteMentions, Shown, WholeEvidence, Suggestion;
    forall state
      ensures state in Observed(PolicyEdges(x, controls, Routes(controls)))
         <==> (state == "authorized" || state == "captured") && Shown(x, controls, state)
    {
      ObservedIsShown(x, controls, state);
    }
    StatusIff(x, controls);
  }

  lemma StatusIff(x: Context, controls: seq<Control>)
    ensures var (status, suggested), whole := Suggestion(x, controls), WholeEvidence(x, controls);
            var authorized, captured := Shown(x, controls, "authorized"), Shown(x, controls, "captured");
            && (status == INSUFFICIENT_EVIDENCE <==> !whole)
            && (status == CONFLICTING_EVIDENCE <==> whole && authorized && captured)
            && suggested == (if !whole || (authorized && captured) then None
                             else Some(if captured then CAPTURE_REQUIRED else AUTHORIZED_ALLOWED))
  {
    hide PolicyEdges, Observed, RouteMentions, CoverageReduced, RelevantDiagnostics, Routes;
    var edges := PolicyEdges(x, controls, Routes(controls));
    ObservedRange(edges);
    ObservedIsShown(x, controls, "authorized");
    ObservedIsShown(x, controls, "captured");
    DiagnosticsOnRoutes(x, controls);
    forall c | c in controls
      ensures SilentRoute(x, controls, c.route)
         <==> !RouteMentions(x, controls, c.route, "authorized") && !RouteMentions(x, controls, c.route, "captured")
    {
      ObservedOnRoute(x, controls, {c.route}, "authorized");
      ObservedOnRoute(x, controls, {c.route}, "captured");
      ObservedRange(PolicyEdges(x, controls, {c.route}));
    }
    if controls != [] {
      assert controls[0] in controls;
    }
  }

  // ------------------------------------------------------------ what the fingerprints cover

  predicate PathOf(c: Control, path: PathEvidence) {
    && path.ingress == c.ingress && path.route == c.route && path.ingressKind == c.ingressKind
    && path.valueNode == c.valueNode && path.valueSymbol == c.valueSymbol && path.callPath == c.callPath
  }

  /** The branch taken into a control's value from a route, with its states in order. */
  ghost predicate BranchOf(x: Context, controls: seq<Control>, routes: set<string>, e: Edge, b: BranchEvidence) {
    && e.kind == BranchesTo && e.branch.Some? && e.branch.value.disposition == Matched
    && (exists c :: c in controls && c.valueNode == e.target)
    && (exists route :: route in routes && StandsOn(x.graph, e.source, route) && b.route == Some(route))
    && b.source == e.source && b.target == e.target && b.disposition == Matched && b.provenance == e.provenance
    && Sorted(StringLe, b.states) && multiset(b.states) == multiset(e.branch.value.states)
  }

  ghost predicate Covers(x: Context, controls: seq<Control>, among: seq<Control>, evidence: PolicyEvidence) {
    && (forall path :: path in evidence.paths <==> exists c :: c in among && PathOf(c, path))
    && (forall d :: d in evidence.diagnostics <==>
          d in x.graph.diagnostics && d.coverageReduced && exists c :: c in among && d.route == Some(c.route))
    && (forall b :: b in evidence.branches ==>
          exists e :: e in x.graph.edges && BranchOf(x, controls, Routes(among), e, b))
    && (forall e :: e in x.graph.edges && (exists b :: BranchOf(x, controls, Routes(among), e, b)) ==>
          exists b :: b in evidence.branches && BranchOf(x, controls, Routes(among), e, b))
  }

  lemma PathsExact(controls: seq<Control>, path: PathEvidence)
    ensures path in PathsOf(controls) <==> exists c :: c in controls && PathOf(c, path)
  {
    if path in PathsOf(controls) {
      var k :| 0 <= k < |controls| && PathsOf(controls)[k] == path;
      assert controls[k] in controls && PathOf(controls[k], path);
    }
    if c :| c in controls && PathOf(c, path) {
      var k :| 0 <= k < |controls| && controls[k] == c;
      assert PathsOf(controls)[k] == path;
    }
  }

  lemma StringLeIsOrder()
    ensures TotalPreorder(StringLe)
  {
    forall a, b
      ensures StringLe(a, b) || StringLe(b, a)
    {
      StringLeTotal(a, b);
    }
    forall a, b, c | StringLe(a, b) && StringLe(b, c)
      ensures StringLe(a, c)
    {
      StringLeTransitive(a, b, c);
    }
  }

  lemma MatchedOnRoutes(x: Context, controls: seq<Control>, routes: set<string>, e: Edge)
    ensures var values := set c | c in controls :: c.valueNode;
            MatchedBranch(x, values, routes, e)
            <==> && e.kind == BranchesTo && e.branch.Some? && e.branch.value.disposition == Matched
                 && (exists c :: c in controls && c.valueNode == e.target)
                 && (exists route :: route in routes && StandsOn(x.graph, e.source, route))
  {
  }

  lemma {:induction false} BranchesExact(x: Context, controls: seq<Control>, values: set<string>, routes: set<string>,
                                         edges: seq<Edge>)
    requires values == set c | c in controls :: c.valueNode
    requires forall e :: e in edges ==> MatchedBranch(x, values, routes, e)
    ensures forall b :: b in BranchesOf(x, edges) ==> exists e :: e in edges && BranchOf(x, controls, routes, e, b)
    ensures forall e :: e in edges ==> exists b :: b in BranchesOf(x, edges) && BranchOf(x, controls, routes, e, b)
  {
    hide BranchOf, MatchedBranch;
    if edges != [] {
      var e, rest := edges[0], edges[1..];
      assert edges == [e] + rest;
      BranchesExact(x, controls, values, routes, rest);
      var b := FirstBranch(x, controls, values, routes, edges);
      assert BranchesOf(x, edges) == [b] + BranchesOf(x, rest);
    }
  }

  lemma FirstBranch(x: Context, controls: seq<Control>, values: set<string>, routes: set<string>, edges: seq<Edge>)
    returns (b: BranchEvidence)
    requires values == set c | c in controls :: c.valueNode
    requires edges != [] && MatchedBranch(x, values, routes, edges[0])
    ensures BranchOf(x, controls, routes, edges[0], b)
    ensures BranchesOf(x, edges) == [b] + BranchesOf(x, edges[1..])
  {
    var e := edges[0];
    MatchedOnRoutes(x, controls, routes, e);
    StringLeIsOrder();
    SortSorts(StringLe, e.branch.value.states);
    SortPermutes(StringLe, e.branch.value.states);
    b := BranchEvidence(e.source, RouteOf(At(x, e.source).value), e.target, e.branch.value.disposition,
                        Sort(StringLe, e.branch.value.states), e.provenance);
  }

  lemma PolicyBranchesExact(x: Context, controls: seq<Control>, among: seq<Control>)
    ensures var branches, routes := BranchesOf(x, PolicyEdges(x, controls, Routes(among))), Routes(among);
            && (forall b :: b in branches ==> exists e :: e in x.graph.edges && BranchOf(x, controls, routes, e, b))
            && (forall e :: e in x.graph.edges && (exists b :: BranchOf(x, controls, routes, e, b)) ==>
                  exists b :: b in branches && BranchOf(x, controls, routes, e, b))
  {
    hide BranchOf, MatchedBranch, BranchesOf, Routes;
    var routes, values := Routes(among), set c | c in controls :: c.valueNode;
    var edges := PolicyEdges(x, controls, routes);
    forall e
      ensures e in edges <==> e in x.graph.edges && MatchedBranch(x, values, routes, e)
    {
      FilterMember((f: Edge) => MatchedBranch(x, values, routes, f), x.graph.edges, e);
    }
    BranchesExact(x, controls, values, routes, edges);
    forall e, b | BranchOf(x, controls, routes, e, b)
      ensures MatchedBranch(x, values, routes, e)
    {
      BranchIsMatched(x, controls, values, routes, e, b);
    }
  }

  lemma BranchIsMatched(x: Context, controls: seq<Control>, values: set<string>, routes: set<string>, e: Edge,
                        b: BranchEvidence)
    requires values == set c | c in controls :: c.valueNode
    requires BranchOf(x, controls, routes, e, b)
    ensures MatchedBranch(x, values, routes, e)
  {
    MatchedOnRoutes(x, controls, routes, e);
  }

  lemma RelevantExact(x: Context, among: seq<Control>, d: Diagnostic)
    ensures d in RelevantDiagnostics(x, Routes(among)) <==>
              d in x.graph.diagnostics && d.coverageReduced && exists c :: c in among && d.route == Some(c.route)
  {
    FilterMember((o: Diagnostic) => Relevant(Routes(among), o), x.graph.diagnostics, d);
  }

  lemma CoversIff(x: Context, controls: seq<Control>, among: seq<Control>, evidence: PolicyEvidence)
    requires evidence.paths == PathsOf(among) && evidence.diagnostics == RelevantDiagnostics(x, Routes(among))
    requires evidence.branches == BranchesOf(x, PolicyEdges(x, controls, Routes(among)))
    ensures Covers(x, controls, among, evidence)
  {
    hide PathsOf, PathOf, BranchesOf, BranchOf, PolicyEdges, RelevantDiagnostics, Routes;
    PolicyBranchesExact(x, controls, among);
    forall path
      ensures path in PathsOf(among) <==> exists c :: c in among && PathOf(c, path)
    {
      PathsExact(among, path);
    }
    forall d
      ensures d in RelevantDiagnostics(x, Routes(among)) <==>
                d in x.graph.diagnostics && d.coverageReduced && exists c :: c in among && d.route == Some(c.route)
    {
      RelevantExact(x, among, d);
    }
  }

  /** The fulfilment fingerprint is over the paths, branches and diagnostics of all controls, the late fingerprint
      over those of the webhook controls together with their ingresses. */
  lemma FingerprintsCover(x: Context, controls: seq<Control>)
    ensures Covers(x, controls, controls, FulfilmentEvidence(x, controls))
    ensures FulfilmentEvidence(x, controls).webhooks == []
    ensures Covers(x, controls, WebhookControls(controls), LateEvidence(x, controls))
    ensures forall c :: c in WebhookControls(controls) <==> c in controls && c.ingressKind == Webhook
    ensures forall n :: n in LateEvidence(x, controls).webhooks <==>
              n in x.graph.nodes && n.details.IngressDetails? && n.details.ingressKind == Webhook
              && exists c :: c in controls && c.ingressKind == Webhook && c.ingress == n.id
  {
    hide Covers, PathsOf, BranchesOf, PolicyEdges, RelevantDiagnostics, Routes;
    var webhooks := WebhookControls(controls);
    CoversIff(x, controls, controls, FulfilmentEvidence(x, controls));
    CoversIff(x, controls, webhooks, LateEvidence(x, controls));
    forall c
      ensures c in webhooks <==> c in controls && c.ingressKind == Webhook
    {
      FilterMember((o: Control) => o.ingressKind == Webhook, controls, c);
    }
    var ingresses := set c | c in webhooks :: c.ingress;
    forall n
      ensures n in LateEvidence(x, controls).webhooks <==>
                n in x.graph.nodes && n.details.IngressDetails? && n.details.ingressKind == Webhook && n.id in ingresses
    {
      FilterMember((m: Node) => m.details.IngressDetails? && m.details.ingressKind == Webhook && m.id in ingresses,
                   x.graph.nodes, n);
    }
  }
}
