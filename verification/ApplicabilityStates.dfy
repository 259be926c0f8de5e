/** What the evaluation answers, on the graph, the controls and the policy alone: which instances every scenario
    has, which of the four states each assertion gets and why, and the state of the scenario. Applicable is
    only one of the four; the other three tell a merchant what to do. */
module ApplicabilityStates {
  import opened Foundations
  import opened Identity
  import opened PaymentGraph
  import opened ApplicabilityContracts
  import opened ApplicabilityEngine
  import opened ApplicabilityCatalog
  import opened PaymentFacts
  import opened ApplicabilityGating

  /** The one reason of an assertion has the code. */
  predicate For(a: Assertion, code: ReasonCode) {
    |a.reasons| == 1 && a.reasons[0].code == code
  }

  // ------------------------------------------------------------ the controls

  /** The edge is a recorded call from an ingress to the uniquely resolved customer value, and the control repeats
      its identities, in that order also in its own identity. */
  ghost predicate Joins(x: Context, e: Edge, c: Control) {
    var source, target := NodeAt(x.graph.nodes, e.source), NodeAt(x.graph.nodes, e.target);
    && e in x.graph.edges && e.kind == Calls && x.fingerprint.Some? && x.resolution.Some? && x.resolution.value.unique
    && source.Some? && source.value.details.IngressDetails? && target.Some? && target.value.kind == CustomerValueAction
    && x.resolution.value.selected == Some(target.value.symbol)
    && c.ingress == e.source && c.route == source.value.details.route
    && c.ingressKind == source.value.details.ingressKind
    && c.valueNode == e.target && c.valueSymbol == target.value.symbol && c.edge == e.id
    && c.callPath == Filter((r: string) => "call-site:" <= r, e.provenance) && c.callPath != []
    && c.resolution == x.fingerprint.value
    && c.id == StableId(x.digest, "sgcontrol",
                        [c.ingress, c.route, c.valueNode, c.valueSymbol, c.edge] + c.callPath + [c.resolution])
  }

  /** The controls are exactly those. */
  lemma ControlsAreJoins(x: Context, c: Control)
    ensures c in Controls(x) <==> exists e :: Joins(x, e, c)
  {
    hide Controls, Filter;
    ControlsExact(x, c);
    forall e
      ensures e in x.graph.edges && Connects(x, e) && c == ControlOn(x, e) <==> Joins(x, e, c)
    {
      CallSitesAreCalls(e.provenance);
      JoinsIff(x, e, c);
    }
  }

  lemma CallSitesAreCalls(provenance: seq<string>)
    ensures CallPath(provenance) == Filter((r: string) => "call-site:" <= r, provenance)
  {
    FilterAgrees((r: string) => CALL_SITE <= r, (r: string) => "call-site:" <= r, provenance);
  }

  lemma JoinsIff(x: Context, e: Edge, c: Control)
    requires CallPath(e.provenance) == Filter((r: string) => "call-site:" <= r, e.provenance)
    ensures e in x.graph.edges && Connects(x, e) && c == ControlOn(x, e) <==> Joins(x, e, c)
  {
    hide CallPath, Filter, StableId;
  }

  // ------------------------------------------------------------ the catalogue instance

  /** Some ingress of the kind the scenario is about exists. */
  ghost predicate HasSurface(x: Context, s: ScenarioId) {
    match s
    case SG01 => HasIngress(x, Webhook) || HasIngress(x, CheckoutCallback)
    case SG06 => HasIngress(x, CheckoutCallback)
    case _ => HasIngress(x, Webhook)
  }

  /** Controls exist, and the scenario is not about them; or SG-07 lacks its checkout. */
  ghost predicate Excluded(x: Context, controls: seq<Control>, s: ScenarioId) {
    || (s == SG07 && (!HasIngress(x, CheckoutCallback) || HasWebhookControl(controls)))
    || (s == SG08 && HasWebhookControl(controls))
  }

  /** The state and the reason where there is nothing to run against. */
  ghost predicate NothingToRun(x: Context, surface: bool, state: State, code: ReasonCode) {
    && state != APPLICABLE
    && (state == NEEDS_INPUT <==> surface && !ValueResolved(x))
    && (state == INDETERMINATE <==> (surface ==> ValueResolved(x)) && PartlyAnalysed(x))
    && (state == NEEDS_INPUT ==> code == CUSTOMER_VALUE_UNRESOLVED)
    && (state == INDETERMINATE ==> code == GRAPH_COVERAGE_INSUFFICIENT)
    && (state == NOT_APPLICABLE ==> code == if surface then CUSTOMER_VALUE_PATH_ABSENT else INGRESS_ABSENT)
  }

  lemma FallbackStates(x: Context, ingresses: seq<Node>)
    ensures NothingToRun(x, ingresses != [], Fallback(x, ingresses).state, Fallback(x, ingresses).reason.code)
  {
    if d :| d in x.graph.diagnostics && d.coverageReduced {
      var i :| 0 <= i < |x.graph.diagnostics| && x.graph.diagnostics[i] == d;
      assert x.graph.diagnostics[i].coverageReduced;
    }
  }

  lemma IngressesExist(x: Context)
    ensures forall kind :: IngressesOf(x, kind) != [] <==> HasIngress(x, kind)
    ensures IngressNodes(x) != [] <==> HasIngress(x, Webhook) || HasIngress(x, CheckoutCallback)
    ensures forall controls :: WebhookControls(controls) != [] <==> HasWebhookControl(controls)
  {
    forall kind
      ensures IngressesOf(x, kind) != [] <==> HasIngress(x, kind)
    {
      FilterEmptyIff((n: Node) => n.details.IngressDetails? && n.details.ingressKind == kind, x.graph.nodes);
    }
    FilterEmptyIff((n: Node) => n.details.IngressDetails?, x.graph.nodes);
    if n :| n in x.graph.nodes && n.details.IngressDetails? {
      assert n.details.ingressKind == Webhook || n.details.ingressKind == CheckoutCallback;
    }
    forall controls
      ensures WebhookControls(controls) != [] <==> HasWebhookControl(controls)
    {
      FilterEmptyIff((c: Control) => c.ingressKind == Webhook, controls);
    }
  }

  lemma CatalogVerdictStates(x: Context, controls: seq<Control>, s: ScenarioId)
    ensures var v := CatalogVerdict(x, controls, s);
            if Excluded(x, controls, s)
            then v.state == NOT_APPLICABLE
                 && v.reason.code == if s == SG07 then CHECKOUT_SURFACE_REQUIRED else LATE_SEQUENCE_NOT_SUPPORTED
            else NothingToRun(x, HasSurface(x, s), v.state, v.reason.code)
  {
    hide Fallback, IngressNodes, IngressesOf, WebhookControls, HasIngress, HasWebhookControl, NothingToRun;
    IngressesExist(x);
    FallbackStates(x, IngressNodes(x));
    FallbackStates(x, IngressesOf(x, Webhook));
    FallbackStates(x, IngressesOf(x, CheckoutCallback));
  }

  // ------------------------------------------------------------ which instances there are

  /** A webhook control the scenario runs against: SG-07 needs a checkout beside it, and SG-08 leaves out the
      routes whose gates name states but not the authorized one. */
  ghost predicate RunsAgainst(x: Context, controls: seq<Control>, s: ScenarioId, c: Control) {
    && c in controls && c.ingressKind == Webhook
    && (s == SG07 ==> HasIngress(x, CheckoutCallback))
    && (s == SG08 && StatesKnown(x, c) ==> AuthorizedNamed(x, c))
  }

  predicate TrustKindOf(s: ScenarioId, kind: IngressKind) {
    (s == SG05 && kind == Webhook) || (s == SG06 && kind == CheckoutCallback)
  }

  /** An ingress of SG-05 or SG-06 with one of its controls, or with none if it has none. */
  ghost predicate TrustPair(x: Context, controls: seq<Control>, s: ScenarioId, n: Node, c: Option<Control>) {
    && n in x.graph.nodes && n.details.IngressDetails? && TrustKindOf(s, n.details.ingressKind)
    && if c.Some? then c.value in controls && c.value.ingress == n.id
       else forall o :: o in controls ==> o.ingress != n.id
  }

  /** What a scenario's instances are about, said without the engine's lists. */
  ghost predicate Concerns(x: Context, controls: seq<Control>, s: ScenarioId, t: Subject) {
    match t
    case ForControl(c) => s != SG05 && s != SG06 && RunsAgainst(x, controls, s, c)
    case ForIngress(n, c) => TrustPair(x, controls, s, n, c)
    case Catalog =>
      && (s != SG05 && s != SG06 ==> forall c :: !RunsAgainst(x, controls, s, c))
      && (s == SG05 ==> !HasIngress(x, Webhook)) && (s == SG06 ==> !HasIngress(x, CheckoutCallback))
  }

  lemma ServedIff(x: Context, controls: seq<Control>, s: ScenarioId, c: Control)
    requires NoDuplicates(controls)
    ensures c in Served(x, s, WebhookControls(controls)) && (s == SG07 ==> HasIngress(x, CheckoutCallback))
       <==> RunsAgainst(x, controls, s, c)
  {
    hide Served, StatesKnown, AuthorizedNamed, HasIngress, RoutePaymentStates;
    ServedIsGood(x, s, controls);
    RouteStatesIff(x, c);
  }

  lemma {:induction false} TrustSubjectsExact(x: Context, controls: seq<Control>, ingresses: seq<Node>, t: Subject)
    ensures t in TrustSubjects(controls, ingresses) <==>
              t.ForIngress? && t.ingress in ingresses
              && if t.matched.Some? then t.matched.value in controls && t.matched.value.ingress == t.ingress.id
                 else forall o :: o in controls ==> o.ingress != t.ingress.id
  {
    if ingresses != [] {
      var n := |ingresses| - 1;
      assert ingresses == ingresses[..n] + [ingresses[n]];
      TrustSubjectsExact(x, controls, ingresses[..n], t);
      IngressSubjectsExact(controls, ingresses[n], t);
    }
  }

  lemma IngressSubjectsExact(controls: seq<Control>, ingress: Node, t: Subject)
    ensures t in IngressSubjects(controls, ingress) <==>
              t.ForIngress? && t.ingress == ingress
              && if t.matched.Some? then t.matched.value in controls && t.matched.value.ingress == ingress.id
                 else forall o :: o in controls ==> o.ingress != ingress.id
  {
    var keep := (c: Control) => c.ingress == ingress.id;
    var matched := Matching(controls, ingress);
    FilterEmptyIff(keep, controls);
    MatchedSubjectsExact(ingress, matched);
    if t.ForIngress? && t.matched.Some? {
      FilterMember(keep, controls, t.matched.value);
      if t.matched.value in matched && t.ingress == ingress {
        var k :| 0 <= k < |matched| && matched[k] == t.matched.value;
        assert MatchedSubjects(ingress, matched)[k] == t;
      }
    }
  }

  lemma ControlSubjectsMember(served: seq<Control>, t: Subject)
    ensures t in ControlSubjects(served) <==> t.ForControl? && t.control in served
  {
    ControlSubjectsExact(served);
    if t.ForControl? && t.control in served {
      var k :| 0 <= k < |served| && served[k] == t.control;
      assert ControlSubjects(served)[k] == t;
    }
  }

  lemma NotRunWithoutCheckout(x: Context, controls: seq<Control>, c: Control)
    requires !HasIngress(x, CheckoutCallback)
    ensures !RunsAgainst(x, controls, SG07, c)
  {
  }

  /** The subjects of a scenario are exactly those it is about. */
  lemma OwnSubjectsExact(x: Context, controls: seq<Control>, s: ScenarioId, t: Subject)
    requires NoDuplicates(controls)
    ensures t in OwnSubjects(x, controls, s) <==> !t.Catalog? && Concerns(x, controls, s, t)
  {
    hide Served, HasIngress, RunsAgainst, ControlSubjects, TrustSubjects, WebhookControls;
    var served := Served(x, s, WebhookControls(controls));
    IngressesExist(x);
    if t.ForControl? {
      ServedIff(x, controls, s, t.control);
    }
    ControlSubjectsMember(served, t);
    if s == SG05 || s == SG06 {
      var kind := if s == SG05 then Webhook else CheckoutCallback;
      TrustSubjectsExact(x, controls, IngressesOf(x, kind), t);
      if t.ForIngress? {
        FilterMember((n: Node) => n.details.IngressDetails? && n.details.ingressKind == kind, x.graph.nodes, t.ingress);
      }
    } else if s == SG07 && t.ForControl? && !HasIngress(x, CheckoutCallback) {
      NotRunWithoutCheckout(x, controls, t.control);
    }
  }

  lemma SubjectsExact(x: Context, controls: seq<Control>, s: ScenarioId, t: Subject)
    requires NoDuplicates(controls)
    ensures t in Subjects(x, controls, s) <==> Concerns(x, controls, s, t)
  {
    hide OwnSubjects, RunsAgainst, TrustPair;
    var own := OwnSubjects(x, controls, s);
    forall u
      ensures u in own <==> !u.Catalog? && Concerns(x, controls, s, u)
    {
      OwnSubjectsExact(x, controls, s, u);
    }
    if own != [] {
      assert own[0] in own;
      NotTheCatalogue(x, controls, s, own[0]);
    } else {
      SomethingConcerned(x, controls, s);
    }
  }

  lemma NotTheCatalogue(x: Context, controls: seq<Control>, s: ScenarioId, t: Subject)
    requires !t.Catalog? && Concerns(x, controls, s, t)
    ensures !Concerns(x, controls, s, Catalog)
  {
  }

  lemma SomethingConcerned(x: Context, controls: seq<Control>, s: ScenarioId)
    ensures Concerns(x, controls, s, Catalog) || exists t: Subject :: !t.Catalog? && Concerns(x, controls, s, t)
  {
    hide RunsAgainst;
    if s == SG05 || s == SG06 {
      var kind := if s == SG05 then Webhook else CheckoutCallback;
      if n :| n in x.graph.nodes && n.details.IngressDetails? && n.details.ingressKind == kind {
        if c :| c in controls && c.ingress == n.id {
          assert Concerns(x, controls, s, ForIngress(n, Some(c)));
        } else {
          assert Concerns(x, controls, s, ForIngress(n, None));
        }
      }
    } else if c :| RunsAgainst(x, controls, s, c) {
      assert Concerns(x, controls, s, ForControl(c));
    }
  }

  // ------------------------------------------------------------ what is cited

  /** There is evidence that the control's own webhook route releases its value on capture. */
  ghost predicate Captured(x: Context, c: Control) {
    FromPostWebhook(x, c) && ReleasesOnCapture(x, c) && !CoverageReduced(x, c.route)
  }

  predicate CitesEdge(e: Edge, v: Evidence) {
    v == Evidence(GRAPH_NODE, e.source) || v == Evidence(GRAPH_EDGE, e.id)
  }

  /** The control, or a branch taken on capture with the gate it starts from. */
  ghost predicate CapturedProof(x: Context, c: Control, v: Evidence) {
    || v == Evidence(NORMAL_CONTROL, c.id)
    || exists e :: e in x.graph.edges && TakenOn(x, c.route, c.valueNode, "captured", e) && CitesEdge(e, v)
  }

  ghost predicate ValueProof(x: Context, controls: seq<Control>, s: ScenarioId, c: Control, v: Evidence) {
    || CapturedProof(x, c, v)
    || (s == SG03 && exists e :: e in x.graph.edges && BeforeAck(x, c, e) && CitesEdge(e, v))
    || (s == SG07 && exists o :: o in controls && SharesValue(o, c) && v == Evidence(NORMAL_CONTROL, o.id))
  }

  lemma {:induction false} CitedEdgesMember(edges: seq<Edge>, v: Evidence)
    ensures v in CitedEdges(edges) <==> exists e :: e in edges && CitesEdge(e, v)
  {
    if edges != [] {
      assert edges == [edges[0]] + edges[1..];
      CitedEdgesMember(edges[1..], v);
      var first := [Evidence(GRAPH_NODE, edges[0].source), Evidence(GRAPH_EDGE, edges[0].id)];
      assert CitedEdges(edges) == first + CitedEdges(edges[1..]);
      assert v in first <==> CitesEdge(edges[0], v);
      assert forall e :: e in edges <==> e == edges[0] || e in edges[1..];
    }
  }

  lemma {:induction false} CitedNodesMember(nodes: seq<Node>, v: Evidence)
    ensures v in CitedNodes(nodes) <==> exists n :: n in nodes && v == Evidence(GRAPH_NODE, n.id)
  {
    if nodes != [] {
      assert nodes == [nodes[0]] + nodes[1..];
      CitedNodesMember(nodes[1..], v);
    }
  }

  lemma {:induction false} CitedControlsMember(controls: seq<Control>, v: Evidence)
    ensures v in CitedControls(controls) <==> exists c :: c in controls && v == Evidence(NORMAL_CONTROL, c.id)
  {
    if controls != [] {
      assert controls == [controls[0]] + controls[1..];
      CitedControlsMember(controls[1..], v);
    }
  }

  lemma CapturedEvidenceExact(x: Context, c: Control, v: Evidence)
    requires ValidGraph(x.graph)
    ensures CapturedEvidence(x, c).Some? <==> Captured(x, c)
    ensures CapturedEvidence(x, c).Some? ==> (v in CapturedEvidence(x, c).value <==> CapturedProof(x, c, v))
  {
    hide CapturedBranch, TakenOn, CoverageReduced, FromPostWebhook, ValidGraph, RelevantDiagnostics;
    CapturedEvidenceIff(x, c);
    CitedEdgesMember(CapturedEdges(x, c), v);
    forall e
      ensures e in CapturedEdges(x, c) <==>
                e in x.graph.edges && TakenOn(x, c.route, c.valueNode, "captured", e)
    {
      CapturedBranchIff(x, c, e);
      FilterMember((f: Edge) => CapturedBranch(x, c, f), x.graph.edges, e);
    }
  }

  lemma CapturedProofs(x: Context, c: Control)
    requires ValidGraph(x.graph)
    ensures CapturedEvidence(x, c).Some? <==> Captured(x, c)
    ensures CapturedEvidence(x, c).Some? ==>
              forall v :: v in CapturedEvidence(x, c).value <==> CapturedProof(x, c, v)
  {
    hide CapturedEvidence, CapturedProof, Captured, ValidGraph;
    CapturedEvidenceExact(x, c, Evidence(NORMAL_CONTROL, c.id));
    forall v
      ensures CapturedEvidence(x, c).Some? ==> (v in CapturedEvidence(x, c).value <==> CapturedProof(x, c, v))
    {
      CapturedEvidenceExact(x, c, v);
    }
  }

  lemma AckEvidenceExact(x: Context, c: Control, v: Evidence)
    ensures v in CitedEdges(AckEdges(x, c)) <==>
              exists e :: e in x.graph.edges && BeforeAck(x, c, e) && CitesEdge(e, v)
  {
    hide AckEdge, BeforeAck;
    CitedEdgesMember(AckEdges(x, c), v);
    forall e
      ensures e in AckEdges(x, c) <==> e in x.graph.edges && BeforeAck(x, c, e)
    {
      AckIff(x, c, e);
      FilterMember((f: Edge) => AckEdge(x, c, f), x.graph.edges, e);
    }
  }

  lemma LinkEvidenceExact(controls: seq<Control>, c: Control, v: Evidence)
    ensures v in CitedControls(LinkedCheckouts(controls, c)) <==>
              exists o :: o in controls && SharesValue(o, c) && v == Evidence(NORMAL_CONTROL, o.id)
  {
    CitedControlsMember(LinkedCheckouts(controls, c), v);
    forall o
      ensures o in LinkedCheckouts(controls, c) <==> o in controls && SharesValue(o, c)
    {
      FilterMember((q: Control) => q.ingressKind == CheckoutCallback && q.valueNode == c.valueNode
                                   && q.valueSymbol == c.valueSymbol, controls, o);
    }
  }

  // ------------------------------------------------------------ the value of one webhook control

  /** In SG-01 to SG-04 and SG-07: input is asked for exactly without a policy confirmed for the present
      evidence, the assertion applies exactly when every gate is open, and it is indeterminate otherwise. */
  ghost predicate ValueState(x: Context, p: PolicyAssessment, controls: seq<Control>, s: ScenarioId, c: Control,
                             state: State)
  {
    && (state == NEEDS_INPUT <==> !PolicyIsCurrent(p))
    && (state == APPLICABLE <==> Open(x, p, controls, s, c))
    && (state == INDETERMINATE <==> PolicyIsCurrent(p) && !Open(x, p, controls, s, c))
  }

  ghost function ValueCode(x: Context, p: PolicyAssessment, controls: seq<Control>, s: ScenarioId, c: Control)
    : ReasonCode
  {
    if p.fulfilment.confirmed.None? then FULFILMENT_POLICY_REQUIRED
    else if !PolicyIsCurrent(p) then FULFILMENT_POLICY_STALE
    else if s == SG01 then
      if Open(x, p, controls, s, c) then NORMAL_CAPTURE_THRESHOLD_AVAILABLE else NORMAL_CAPTURE_THRESHOLD_UNPROVEN
    else if !Captured(x, c) then CAPTURED_EVENT_TARGET_UNPROVEN
    else if s == SG03 then if OneAck(x, c) then VALUE_BEFORE_ACK_PROVEN else ACK_ORDER_UNRESOLVED
    else if s == SG07 then
      if SharesValueWithCheckout(controls, c) then CHECKOUT_TARGET_LINK_AVAILABLE else CHECKOUT_TARGET_LINK_UNRESOLVED
    else CAPTURED_EVENT_TARGET_AVAILABLE
  }

  lemma ValueVerdictStates(x: Context, p: PolicyAssessment, controls: seq<Control>, s: ScenarioId, c: Control)
    requires ValidGraph(x.graph) && RunsOnOneWebhook(s)
    ensures var v := ValueVerdict(x, p, controls, s, c);
            && ValueState(x, p, controls, s, c, v.state) && v.reason.code == ValueCode(x, p, controls, s, c)
            && forall e :: e in v.reason.evidence <==>
                 Open(x, p, controls, s, c) && ValueProof(x, controls, s, c, e)
  {
    hide CapturedEvidence, CapturedProof, AckEdges, LinkedCheckouts, ValidGraph, ReleasesOnCapture, OneAck,
      SharesValueWithCheckout, SharesValue, CoverageReduced, FromPostWebhook, CitedEdges, CitedControls, CitesEdge,
      BeforeAck;
    OneAckIff(x, c);
    LinkedIff(controls, c);
    CapturedEvidenceIff(x, c);
    CapturedProofs(x, c);
    forall e
      ensures e in CitedEdges(AckEdges(x, c)) <==>
                exists f :: f in x.graph.edges && BeforeAck(x, c, f) && CitesEdge(f, e)
      ensures e in CitedControls(LinkedCheckouts(controls, c)) <==>
                exists o :: o in controls && SharesValue(o, c) && e == Evidence(NORMAL_CONTROL, o.id)
    {
      AckEvidenceExact(x, c, e);
      LinkEvidenceExact(controls, c, e);
    }
  }

  // ------------------------------------------------------------ the other assertions

  /** SG-04's optional assertion. */
  ghost predicate RegressionState(x: Context, c: Control, state: State, code: ReasonCode) {
    && (state == INDETERMINATE <==> CoverageReduced(x, c.route))
    && (state == APPLICABLE <==> !CoverageReduced(x, c.route) && Regresses(x, c.route))
    && state != NEEDS_INPUT
    && code == if Regresses(x, c.route) then STATE_REGRESSION_TARGET_AVAILABLE
               else if CoverageReduced(x, c.route) then STATE_REGRESSION_TARGET_UNRESOLVED
               else STATE_REGRESSION_TARGET_ABSENT
  }

  lemma RegressionVerdictStates(x: Context, c: Control)
    ensures RegressionState(x, c, RegressionVerdict(x, c).state, RegressionVerdict(x, c).reason.code)
  {
    hide RegressionMutations, CoverageReduced, RelevantDiagnostics, Regresses;
    DiagnosticsAreRelevant(x, c.route);
    RegressionMutationsIff(x, c);
  }

  /** What SG-05 or SG-06 protects on the ingress's route. */
  ghost predicate ToProtect(x: Context, s: ScenarioId, ingress: Node, control: Option<Control>, n: Node)
    requires ingress.details.IngressDetails?
  {
    if s == SG05 then
      ingress.details.ingressKind == Webhook && ingress.details.httpMethod == "POST"
      && CapturedMutation(x, ingress.details.route, control, n)
    else ProtectedMutation(x, ingress.details.route, n)
  }

  ghost predicate AnyToProtect(x: Context, s: ScenarioId, ingress: Node, control: Option<Control>)
    requires ingress.details.IngressDetails?
  {
    exists n :: ToProtect(x, s, ingress, control, n)
  }

  /** A checkout is only run when its requests can be bound. */
  predicate Runnable(s: ScenarioId, ingress: Node)
    requires ingress.details.IngressDetails?
  {
    s == SG06 ==> ingress.details.hasCheckoutBinding
  }

  ghost predicate MutationState(x: Context, s: ScenarioId, ingress: Node, control: Option<Control>, state: State,
                                code: ReasonCode)
    requires ingress.details.IngressDetails?
  {
    var target := AnyToProtect(x, s, ingress, control);
    && (state == APPLICABLE <==> Runnable(s, ingress) && target)
    && (state == NOT_APPLICABLE <==>
          Runnable(s, ingress) && !target && !PartlyAnalysed(x) && !MutatesRoute(x, ingress.details.route))
    && state != NEEDS_INPUT
    && code == if !Runnable(s, ingress) then CHECKOUT_REQUEST_BINDING_UNRESOLVED
               else if target then MUTATION_TARGET_AVAILABLE else MUTATION_TARGET_ABSENT
  }

  lemma SortedFilterMember(x: Context, keep: Node -> bool, n: Node)
    ensures n in SortNodes(x, Filter(keep, x.graph.nodes)) <==> n in x.graph.nodes && keep(n)
  {
    var kept := Filter(keep, x.graph.nodes);
    SortPermutes((a: Node, b: Node) => StringLe(x.nodeText(a), x.nodeText(b)), kept);
    PermutationMembers(SortNodes(x, kept), kept);
    FilterMember(keep, x.graph.nodes, n);
  }

  lemma MutationsMember(x: Context, s: ScenarioId, ingress: Node, control: Option<Control>, n: Node)
    requires (s == SG05 || s == SG06) && ingress.details.IngressDetails?
    ensures n in (if s == SG05 then CapturedPathMutations(x, ingress, control) else CheckoutMutations(x, ingress))
       <==> ToProtect(x, s, ingress, control, n)
  {
    hide BelowCapture, CapturedMutation, Guarded, ProtectedMutation, SortNodes;
    var route := ingress.details.route;
    BelowCaptureIff(x, route, control, n);
    ProtectedIff(x, route, n);
    SortedFilterMember(x, (m: Node) => BelowCapture(x, ingress.details.route, control, m), n);
    SortedFilterMember(x, (m: Node) => m.details.MutationDetails? && m.details.route == route
                                       && (Guarded(x, route, m.id) || m.details.written.Some?), n);
  }

  lemma MutationVerdictStates(x: Context, s: ScenarioId, ingress: Node, control: Option<Control>)
    requires (s == SG05 || s == SG06) && ingress.details.IngressDetails?
    ensures var v := MutationVerdict(x, s, ingress, control);
            && MutationState(x, s, ingress, control, v.state, v.reason.code)
            && forall e :: e in v.reason.evidence <==>
                 exists n :: ToProtect(x, s, ingress, control, n) && e == Evidence(GRAPH_NODE, n.id)
  {
    hide CapturedPathMutations, CheckoutMutations, ToProtect, CitedNodes;
    var mutations := if s == SG05 then CapturedPathMutations(x, ingress, control) else CheckoutMutations(x, ingress);
    forall n
      ensures n in mutations <==> ToProtect(x, s, ingress, control, n)
    {
      MutationsMember(x, s, ingress, control, n);
    }
    forall e
      ensures e in CitedNodes(mutations) <==> exists n :: n in mutations && e == Evidence(GRAPH_NODE, n.id)
    {
      CitedNodesMember(mutations, e);
    }
    if mutations != [] {
      assert mutations[0] in mutations;
    }
    PartialIff(x);
    assert MutatesOn(x, RouteOf(ingress)) <==> MutatesRoute(x, ingress.details.route);
  }

  lemma PartialIff(x: Context)
    ensures Partial(x.graph) <==> PartlyAnalysed(x)
  {
    if d :| d in x.graph.diagnostics && d.coverageReduced {
      var i :| 0 <= i < |x.graph.diagnostics| && x.graph.diagnostics[i] == d;
      assert x.graph.diagnostics[i].coverageReduced;
    }
  }

  /** The value assertion of SG-05 and SG-06: no policy is asked for. */
  ghost predicate TrustState(x: Context, s: ScenarioId, ingress: Node, control: Option<Control>, state: State,
                             code: ReasonCode)
    requires ingress.details.IngressDetails?
  {
    if control.None? then NothingToRun(x, true, state, code)
    else
      var open := if s == SG05 then Captured(x, control.value) else Runnable(s, ingress);
      && state == (if open then APPLICABLE else INDETERMINATE)
      && code == if s == SG05 then if open then CAPTURED_EVENT_TARGET_AVAILABLE else CAPTURED_EVENT_TARGET_UNPROVEN
                 else if open then CHECKOUT_REQUEST_BINDING_AVAILABLE else CHECKOUT_REQUEST_BINDING_UNRESOLVED
  }

  ghost predicate TrustProof(x: Context, s: ScenarioId, control: Option<Control>, v: Evidence) {
    && control.Some?
    && if s == SG05 then CapturedProof(x, control.value, v) else v == Evidence(NORMAL_CONTROL, control.value.id)
  }

  lemma TrustVerdictStates(x: Context, s: ScenarioId, ingress: Node, control: Option<Control>)
    requires ValidGraph(x.graph) && (s == SG05 || s == SG06) && ingress.details.IngressDetails?
    ensures var v := TrustValueVerdict(x, s, ingress, control);
            && TrustState(x, s, ingress, control, v.state, v.reason.code)
            && forall e :: e in v.reason.evidence <==> v.state == APPLICABLE && TrustProof(x, s, control, e)
  {
    hide CapturedEvidence, Captured, CapturedProof, ValidGraph, Fallback, NothingToRun;
    FallbackStates(x, [ingress]);
    FallbackCitesNothing(x, [ingress]);
    if control.Some? {
      CapturedProofs(x, control.value);
    }
  }

  lemma FallbackCitesNothing(x: Context, ingresses: seq<Node>)
    ensures Fallback(x, ingresses).reason.evidence == [] && Fallback(x, ingresses).state != APPLICABLE
  {
  }

  // ------------------------------------------------------------ SG-08

  predicate LateIsCurrent(p: PolicyAssessment) {
    p.late.confirmed.Some? && p.late.current == Some(true)
  }

  /** What stands in the way of SG-08's assertions, if anything does: a policy that is missing or was confirmed
      for other evidence, a sequence of states that is not known, or value that does not wait for capture. */
  ghost function LateObstacle(x: Context, p: PolicyAssessment, c: Control): Option<(State, ReasonCode)> {
    if p.fulfilment.confirmed.None? then Some((NEEDS_INPUT, FULFILMENT_POLICY_REQUIRED))
    else if !PolicyIsCurrent(p) then Some((NEEDS_INPUT, FULFILMENT_POLICY_STALE))
    else if p.late.confirmed.None? then Some((NEEDS_INPUT, LATE_AUTHORISATION_POLICY_REQUIRED))
    else if !LateIsCurrent(p) then Some((NEEDS_INPUT, LATE_AUTHORISATION_POLICY_STALE))
    else if !StatesKnown(x, c) || CoverageReduced(x, c.route) then Some((INDETERMINATE, LATE_SEQUENCE_UNRESOLVED))
    else if p.fulfilment.confirmed != Some(CAPTURE_REQUIRED) then Some((INDETERMINATE, MERCHANT_LATE_CONTEXT_UNPROVEN))
    else None
  }

  /** With an obstacle there is the policy-outcome assertion alone, which says so. Without, no value may be
      released before capture; and if the merchant fulfils later, value once after capture, where captured
      evidence decides. */
  ghost predicate LateOutcome(x: Context, p: PolicyAssessment, c: Control, v: seq<(AssertionKey, Verdict)>) {
    match LateObstacle(x, p, c)
    case Some((state, code)) =>
      |v| == 1 && v[0].0 == SG08_VALUE && v[0].1.state == state && v[0].1.reason.code == code
    case None =>
      && |v| == (if p.late.confirmed == Some(FULFIL_LATER) then 2 else 1)
      && v[0] == (SG08_PRECAPTURE, Verdict(APPLICABLE, Reason(POLICY_MATRIX_SELECTED, [])))
      && (|v| == 2 ==>
            && v[1].0 == SG08_CAPTURE
            && v[1].1.state == (if Captured(x, c) then APPLICABLE else INDETERMINATE)
            && v[1].1.reason.code == (if Captured(x, c) then POLICY_MATRIX_SELECTED else CAPTURED_EVENT_TARGET_UNPROVEN)
            && forall e :: e in v[1].1.reason.evidence <==> Captured(x, c) && CapturedProof(x, c, e))
  }

  lemma LateVerdictStates(x: Context, p: PolicyAssessment, c: Control)
    requires ValidGraph(x.graph)
    ensures LateOutcome(x, p, c, LateVerdicts(x, p, c))
  {
    hide CapturedEvidence, Captured, CapturedProof, CoverageReduced, ValidGraph, RoutePaymentStates,
      RelevantDiagnostics, StatesKnown, AuthorizedNamed;
    DiagnosticsAreRelevant(x, c.route);
    RouteStatesIff(x, c);
    CapturedProofs(x, c);
  }

  // ------------------------------------------------------------ all assertions of an instance

  predicate Is(a: Assertion, key: AssertionKey, role: Role, control: Option<Control>) {
    && a.key == key && a.role == role && |a.reasons| == 1
    && a.control == if control.Some? then Some(control.value.id) else None
  }

  function VerdictOf(a: Assertion): Verdict {
    Verdict(a.state, if |a.reasons| == 1 then a.reasons[0] else Reason(INGRESS_ABSENT, []))
  }

  ghost predicate CatalogueAssessed(x: Context, controls: seq<Control>, s: ScenarioId, v: seq<Assertion>) {
    && |v| == 1 && Is(v[0], ValueKey(s), CORE, None)
    && if Excluded(x, controls, s)
       then v[0].state == NOT_APPLICABLE
            && For(v[0], if s == SG07 then CHECKOUT_SURFACE_REQUIRED else LATE_SEQUENCE_NOT_SUPPORTED)
       else NothingToRun(x, HasSurface(x, s), v[0].state, v[0].reasons[0].code)
  }

  ghost predicate TrustAssessed(x: Context, s: ScenarioId, n: Node, c: Option<Control>, v: seq<Assertion>)
    requires n.details.IngressDetails?
  {
    && |v| == 2 && Is(v[0], if s == SG05 then SG05_MUTATION else SG06_MUTATION, CORE, None)
    && Is(v[1], ValueKey(s), CORE, c)
    && MutationState(x, s, n, c, v[0].state, v[0].reasons[0].code)
    && (forall e :: e in v[0].reasons[0].evidence <==>
          exists m :: ToProtect(x, s, n, c, m) && e == Evidence(GRAPH_NODE, m.id))
    && TrustState(x, s, n, c, v[1].state, v[1].reasons[0].code)
    && (forall e :: e in v[1].reasons[0].evidence <==> v[1].state == APPLICABLE && TrustProof(x, s, c, e))
  }

  ghost predicate WebhookAssessed(x: Context, p: PolicyAssessment, controls: seq<Control>, s: ScenarioId, c: Control,
                                  v: seq<Assertion>)
  {
    && |v| == (if s == SG04 then 2 else 1) && Is(v[0], ValueKey(s), CORE, Some(c))
    && ValueState(x, p, controls, s, c, v[0].state) && For(v[0], ValueCode(x, p, controls, s, c))
    && (forall e :: e in v[0].reasons[0].evidence <==>
          Open(x, p, controls, s, c) && ValueProof(x, controls, s, c, e))
    && (s == SG04 ==>
          Is(v[1], SG04_REGRESSION, OPTIONAL, Some(c)) && RegressionState(x, c, v[1].state, v[1].reasons[0].code))
  }

  ghost predicate LateAssessed(x: Context, p: PolicyAssessment, c: Control, v: seq<Assertion>) {
    && LateOutcome(x, p, c, seq(|v|, k requires 0 <= k < |v| => (v[k].key, VerdictOf(v[k]))))
    && forall a :: a in v ==> Is(a, a.key, CORE, Some(c))
  }

  /** Which assertions an instance about the subject has, with their roles, states and reasons. */
  ghost predicate Assessed(x: Context, p: PolicyAssessment, controls: seq<Control>, s: ScenarioId, t: Subject,
                           v: seq<Assertion>)
  {
    match t
    case Catalog => CatalogueAssessed(x, controls, s, v)
    case ForIngress(n, c) => n.details.IngressDetails? && TrustAssessed(x, s, n, c, v)
    case ForControl(c) =>
      if s == SG08 then LateAssessed(x, p, c, v) else WebhookAssessed(x, p, controls, s, c, v)
  }

  lemma AssertionsAssessed(x: Context, p: PolicyAssessment, controls: seq<Control>, s: ScenarioId, t: Subject)
    requires ValidGraph(x.graph) && Concerns(x, controls, s, t)
    ensures Assessed(x, p, controls, s, t, Assertions(x, p, controls, s, t))
  {
    hide ValidGraph, CatalogVerdict, Excluded, NothingToRun, HasSurface, MutationVerdict, MutationState, ToProtect,
      TrustValueVerdict, TrustState, TrustProof, ValueVerdict, ValueState, ValueCode, Open, ValueProof,
      RegressionVerdict, RegressionState, LateVerdicts, LateOutcome, AssertionId, InstanceId, RunsAgainst, ValueKey;
    match t
    case Catalog =>
      CatalogVerdictStates(x, controls, s);
    case ForIngress(n, c) =>
      MutationVerdictStates(x, s, n, c);
      TrustVerdictStates(x, s, n, c);
    case ForControl(c) =>
      if s == SG08 {
        LateVerdictStates(x, p, c);
        var v, verdicts := Assertions(x, p, controls, s, t), LateVerdicts(x, p, c);
        assert seq(|v|, k requires 0 <= k < |v| => (v[k].key, VerdictOf(v[k]))) == verdicts;
      } else {
        ValueVerdictStates(x, p, controls, s, c);
        RegressionVerdictStates(x, c);
      }
  }

  /** The instance is about the subject: its identity is made of the scenario and the subject, and it repeats the
      subject's identities. */
  predicate About(x: Context, s: ScenarioId, i: Instance, t: Subject) {
    match t
    case Catalog =>
      && i.id == StableId(x.digest, "sgscenario", [ScenarioText(s), "catalog"])
      && i.ingress == None && i.control == None && i.route == None && i.valueNode == None && i.valueSymbol == None
    case ForIngress(n, None) =>
      && i.id == StableId(x.digest, "sgscenario", [ScenarioText(s), n.id])
      && i.ingress == Some(n.id) && i.control == None && i.route == None && i.valueNode == None && i.valueSymbol == None
    case ForIngress(n, Some(c)) => i.ingress == Some(n.id) && AboutControl(x, s, i, c)
    case ForControl(c) => i.ingress == Some(c.ingress) && AboutControl(x, s, i, c)
  }

  predicate AboutControl(x: Context, s: ScenarioId, i: Instance, c: Control) {
    && i.id == StableId(x.digest, "sgscenario", [ScenarioText(s), c.id]) && i.control == Some(c.id)
    && i.route == Some(c.route) && i.valueNode == Some(c.valueNode) && i.valueSymbol == Some(c.valueSymbol)
  }

  lemma InstanceIsAbout(x: Context, p: PolicyAssessment, controls: seq<Control>, s: ScenarioId, t: Subject)
    ensures About(x, s, InstanceFor(x, p, controls, s, t), t)
    ensures InstanceFor(x, p, controls, s, t).assertions == Assertions(x, p, controls, s, t)
  {
    hide Assertions, RollUp;
  }

  ghost predicate Answers(x: Context, p: PolicyAssessment, controls: seq<Control>, s: ScenarioId, i: Instance,
                          t: Subject)
  {
    Concerns(x, controls, s, t) && About(x, s, i, t) && Assessed(x, p, controls, s, t, i.assertions)
  }

  /** A scenario has an instance for everything it is about and for nothing else, each with exactly the
      assertions, roles, states, reasons and citations that the graph and the policy call for. */
  lemma InstancesExact(x: Context, p: PolicyAssessment, controls: seq<Control>, s: ScenarioId)
    requires ValidGraph(x.graph) && NoDuplicates(controls)
    ensures var instances := ScenarioFor(x, p, controls, s).instances;
            && (forall i :: i in instances ==> exists t :: Answers(x, p, controls, s, i, t))
            && (forall t :: Concerns(x, controls, s, t) ==>
                  exists i :: i in instances && Answers(x, p, controls, s, i, t))
  {
    hide ValidGraph, Subjects, Concerns, About, Assessed, InstanceFor, Assertions, ScenarioFor;
    var instances := ScenarioFor(x, p, controls, s).instances;
    var subjects := Subjects(x, controls, s);
    ScenarioParts(x, p, controls, s);
    forall k | 0 <= k < |subjects|
      ensures Answers(x, p, controls, s, instances[k], subjects[k])
    {
      SubjectsExact(x, controls, s, subjects[k]);
      AssertionsAssessed(x, p, controls, s, subjects[k]);
      InstanceIsAbout(x, p, controls, s, subjects[k]);
    }
    forall i | i in instances
      ensures exists t :: Answers(x, p, controls, s, i, t)
    {
      var k :| 0 <= k < |instances| && instances[k] == i;
      assert Answers(x, p, controls, s, i, subjects[k]);
    }
    forall t | Concerns(x, controls, s, t)
      ensures exists i :: i in instances && Answers(x, p, controls, s, i, t)
    {
      SubjectsExact(x, controls, s, t);
      var k :| 0 <= k < |subjects| && subjects[k] == t;
      assert instances[k] in instances;
    }
  }

  // ------------------------------------------------------------ scenarios

  /** A scenario's state is the prevailing one among the core assertions of its instances. */
  lemma ScenarioRollsUp(x: Context, p: PolicyAssessment, controls: seq<Control>, s: ScenarioId, state: State)
    ensures var r := ScenarioFor(x, p, controls, s);
            r.state == state
            <==> && (exists i, a :: i in r.instances && a in i.assertions && a.role == CORE && a.state == state)
                 && (forall i, a :: i in r.instances && a in i.assertions && a.role == CORE ==>
                       Rank(state) <= Rank(a.state))
  {
    hide InstancesFor, RollUp, Subjects;
    var r := ScenarioFor(x, p, controls, s);
    ScenarioParts(x, p, controls, s);
    RollUpPrevails(Flatten(r.instances), state);
    FlattenMember(r.instances);
  }

  /** SG-01 to SG-04 and SG-07 with something to run against: input is asked for exactly without a policy confirmed
      for the present evidence; with one, the scenario applies exactly when some control's gates are all open and
      is indeterminate otherwise. It is never called not applicable. */
  lemma WebhookScenarioStates(x: Context, p: PolicyAssessment, controls: seq<Control>, s: ScenarioId)
    requires ValidGraph(x.graph) && GoodControls(x, controls) && RunsOnOneWebhook(s)
    requires exists c :: RunsAgainst(x, controls, s, c)
    ensures var state, open := ScenarioFor(x, p, controls, s).state,
                               exists c :: c in controls && Open(x, p, controls, s, c);
            && (state == NEEDS_INPUT <==> !PolicyIsCurrent(p))
            && (state == APPLICABLE <==> open)
            && (state == INDETERMINATE <==> PolicyIsCurrent(p) && !open)
  {
    hide Open, RunsAgainst, GoodControl, ValidGraph, Answers, ScenarioFor, PolicyIsCurrent;
    var r := ScenarioFor(x, p, controls, s);
    var c :| RunsAgainst(x, controls, s, c);
    InstancesExact(x, p, controls, s);
    ScenarioRollsUp(x, p, controls, s, r.state);
    ScenarioAppliesIff(x, p, controls, s);
    OpenNeedsPolicy(x, p, controls, s);
    var i, a :| i in r.instances && a in i.assertions && a.role == CORE && a.state == r.state;
    var t :| Answers(x, p, controls, s, i, t);
    CoreOfControl(x, p, controls, s, c, i, t, a);
  }

  lemma CoreOfControl(x: Context, p: PolicyAssessment, controls: seq<Control>, s: ScenarioId, c: Control, i: Instance,
                      t: Subject, a: Assertion)
    requires RunsOnOneWebhook(s) && RunsAgainst(x, controls, s, c) && Answers(x, p, controls, s, i, t)
    requires a in i.assertions && a.role == CORE
    ensures exists d :: ValueState(x, p, controls, s, d, a.state)
  {
    hide Open, RunsAgainst, About, ValueState, RegressionState, ValueCode, ValueProof;
    OnlyControls(x, controls, s, c, t);
    assert a == i.assertions[0];
    assert ValueState(x, p, controls, s, t.control, a.state);
  }

  lemma OnlyControls(x: Context, controls: seq<Control>, s: ScenarioId, c: Control, t: Subject)
    requires RunsOnOneWebhook(s) && RunsAgainst(x, controls, s, c) && Concerns(x, controls, s, t)
    ensures t.ForControl?
  {
  }

  lemma OpenNeedsPolicy(x: Context, p: PolicyAssessment, controls: seq<Control>, s: ScenarioId)
    ensures forall c :: Open(x, p, controls, s, c) ==> PolicyIsCurrent(p)
  {
  }

  /** A scenario with nothing to run against says why. */
  lemma CatalogueScenarioStates(x: Context, p: PolicyAssessment, controls: seq<Control>, s: ScenarioId)
    requires ValidGraph(x.graph) && NoDuplicates(controls) && Concerns(x, controls, s, Catalog)
    ensures var state := ScenarioFor(x, p, controls, s).state;
            && (state == NEEDS_INPUT <==>
                  !Excluded(x, controls, s) && HasSurface(x, s) && !ValueResolved(x))
            && (state == INDETERMINATE <==>
                  !Excluded(x, controls, s) && (HasSurface(x, s) ==> ValueResolved(x)) && PartlyAnalysed(x))
            && state != APPLICABLE
  {
    hide Concerns, Answers, ValidGraph, Excluded, HasSurface, ValueResolved, PartlyAnalysed, ScenarioFor;
    var r := ScenarioFor(x, p, controls, s);
    InstancesExact(x, p, controls, s);
    ScenarioRollsUp(x, p, controls, s, r.state);
    var i, a :| i in r.instances && a in i.assertions && a.role == CORE && a.state == r.state;
    var t :| Answers(x, p, controls, s, i, t);
    CoreOfCatalogue(x, p, controls, s, i, t, a);
  }

  lemma CoreOfCatalogue(x: Context, p: PolicyAssessment, controls: seq<Control>, s: ScenarioId, i: Instance,
                        t: Subject, a: Assertion)
    requires Concerns(x, controls, s, Catalog) && Answers(x, p, controls, s, i, t) && a in i.assertions
    ensures CatalogueAssessed(x, controls, s, [a])
  {
    hide Concerns, About, Excluded, NothingToRun, HasSurface;
    OnlyTheCatalogue(x, controls, s, t);
    assert i.assertions == [a];
  }

  lemma OnlyTheCatalogue(x: Context, controls: seq<Control>, s: ScenarioId, t: Subject)
    requires Concerns(x, controls, s, Catalog) && Concerns(x, controls, s, t)
    ensures t == Catalog
  {
    if t != Catalog {
      NotTheCatalogue(x, controls, s, t);
    }
  }
}
