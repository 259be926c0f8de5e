/** The applicability engine: which scenarios of the fixed catalogue apply to a payment graph. */
module ApplicabilityEngine {
  import opened Foundations
  import opened Identity
  import opened PaymentGraph
  import opened ApplicabilityContracts
  import opened AssertionTexts

  datatype Resolution = Resolution(unique: bool, selected: Option<string>)

  datatype Confirmation<P> = Confirmation(value: P, fingerprint: string)

  /** What a policy fingerprint covers: the paths, branches and diagnostics that bear on the policy, but
      neither the connectivity edges nor the resolution they came from. */
  datatype PolicyEvidence = PolicyEvidence(paths: seq<PathEvidence>, webhooks: seq<Node>,
                                           branches: seq<BranchEvidence>, diagnostics: seq<Diagnostic>)

  datatype PathEvidence = PathEvidence(ingress: string, route: string, ingressKind: IngressKind,
                                       valueNode: string, valueSymbol: string, callPath: seq<string>)

  datatype BranchEvidence = BranchEvidence(source: string, route: Option<string>, target: string,
                                           disposition: Disposition, states: seq<string>, provenance: seq<string>)

  /** Everything the evaluation reads. Digests, fingerprints and the canonical texts that records are
      sorted by are functions. */
  datatype Context = Context(
    digest: Digest, texts: Texts, controlText: Control -> string, nodeText: Node -> string,
    fulfilmentPrint: PolicyEvidence -> string, latePrint: PolicyEvidence -> string,
    graph: Graph, resolution: Option<Resolution>, fingerprint: Option<string>,
    fulfilment: Option<Confirmation<FulfilmentPolicy>>, late: Option<Confirmation<LatePolicy>>)

  ghost predicate Ready(x: Context) {
    GoodDigest(x.digest) && GoodTexts(x.texts) && ValidGraph(x.graph)
  }

  function At(x: Context, id: string): Option<Node> {
    NodeAt(x.graph.nodes, id)
  }

  function SortNodes(x: Context, nodes: seq<Node>): seq<Node> {
    Sort((a: Node, b: Node) => StringLe(x.nodeText(a), x.nodeText(b)), nodes)
  }

  // ------------------------------------------------------------ normal controls

  const CALL_SITE := "call-site:"

  function CallPath(provenance: seq<string>): seq<string> {
    Filter((reference: string) => CALL_SITE <= reference, provenance)
  }

  /** The edge leads from an ingress to the resolved customer value along a recorded call path. */
  predicate Connects(x: Context, e: Edge) {
    && x.fingerprint.Some?
    && x.resolution.Some? && x.resolution.value.unique && x.resolution.value.selected.Some?
    && e.kind == Calls
    && At(x, e.source).Some? && At(x, e.source).value.details.IngressDetails?
    && At(x, e.target).Some? && At(x, e.target).value.kind == CustomerValueAction
    && At(x, e.target).value.symbol == x.resolution.value.selected.value
    && CallPath(e.provenance) != []
  }

  function ControlId(x: Context, e: Edge): string
    requires Connects(x, e)
  {
    StableId(x.digest, "sgcontrol",
             [e.source, At(x, e.source).value.details.route, e.target, x.resolution.value.selected.value, e.id]
             + CallPath(e.provenance) + [x.fingerprint.value])
  }

  function ControlOn(x: Context, e: Edge): (c: Control)
    requires Connects(x, e)
  {
    var details := At(x, e.source).value.details;
    Control(ControlId(x, e), e.source, details.route, details.ingressKind, e.target,
            x.resolution.value.selected.value, e.id, CallPath(e.provenance), x.fingerprint.value)
  }

  function ControlsOn(x: Context, edges: seq<Edge>): seq<Control> {
    if edges == [] then []
    else
      var last := edges[|edges| - 1];
      ControlsOn(x, edges[..|edges| - 1]) + (if Connects(x, last) then [ControlOn(x, last)] else [])
  }

  function ControlOrder(x: Context): (Control, Control) -> bool {
    (a: Control, b: Control) => StringLe(x.controlText(a), x.controlText(b))
  }

  function Controls(x: Context): seq<Control> {
    Sort(ControlOrder(x), ControlsOn(x, x.graph.edges))
  }

  method NormalControls(x: Context) returns (controls: seq<Control>)
    ensures controls == Controls(x)
  {
    var found: seq<Control> := [];
    if x.resolution.None? || !x.resolution.value.unique || x.resolution.value.selected.None? || x.fingerprint.None? {
      NothingConnects(x, x.graph.edges);
      return [];
    }
    var selected := x.resolution.value.selected.value;
    for k := 0 to |x.graph.edges|
      invariant found == ControlsOn(x, x.graph.edges[..k])
    {
      var edge := x.graph.edges[k];
      assert x.graph.edges[..k + 1] == x.graph.edges[..k] + [edge];
      var source, target := At(x, edge.source), At(x, edge.target);
      if edge.kind != Calls || source.None? || target.None? || !source.value.details.IngressDetails?
         || target.value.kind != CustomerValueAction || target.value.symbol != selected {
        continue;
      }
      var path := CallPath(edge.provenance);
      if path == [] {
        continue;
      }
      var details := source.value.details;
      var id := StableId(x.digest, "sgcontrol", [source.value.id, details.route, target.value.id, selected, edge.id]
                                                + path + [x.fingerprint.value]);
      found := found + [Control(id, source.value.id, details.route, details.ingressKind, target.value.id,
                                selected, edge.id, path, x.fingerprint.value)];
    }
    assert x.graph.edges[..|x.graph.edges|] == x.graph.edges;
    controls := Sort(ControlOrder(x), found);
  }

  lemma {:induction false} NothingConnects(x: Context, edges: seq<Edge>)
    requires forall e :: e in edges ==> !Connects(x, e)
    ensures ControlsOn(x, edges) == []
  {
    if edges != [] {
      NothingConnects(x, edges[..|edges| - 1]);
    }
  }

  // ------------------------------------------------------------ branches on payment states

  predicate Relevant(routes: set<string>, d: Diagnostic) {
    d.coverageReduced && d.route.Some? && d.route.value in routes
  }

  function RelevantDiagnostics(x: Context, routes: set<string>): seq<Diagnostic> {
    Filter((d: Diagnostic) => Relevant(routes, d), x.graph.diagnostics)
  }

  function Routes(controls: seq<Control>): set<string> {
    set c | c in controls :: c.route
  }

  predicate MatchedBranch(x: Context, values: set<string>, routes: set<string>, e: Edge) {
    && e.kind == BranchesTo && e.branch.Some? && e.branch.value.disposition == Matched
    && e.target in values
    && At(x, e.source).Some? && RouteOf(At(x, e.source).value).Some?
    && RouteOf(At(x, e.source).value).value in routes
  }

  function StateEdges(x: Context, values: set<string>, routes: set<string>): seq<Edge> {
    Filter((e: Edge) => MatchedBranch(x, values, routes, e), x.graph.edges)
  }

  predicate Mentions(states: seq<string>, state: string) {
    exists i :: 0 <= i < |states| && PaymentState(states[i]) == state
  }

  /** A matched branch on the control's route into its customer value that mentions "captured". */
  predicate CapturedBranch(x: Context, c: Control, e: Edge) {
    MatchedBranch(x, {c.valueNode}, {c.route}, e) && Mentions(e.branch.value.states, "captured")
  }

  function CapturedEdges(x: Context, c: Control): seq<Edge> {
    Filter((e: Edge) => CapturedBranch(x, c, e), x.graph.edges)
  }

  predicate IsPostWebhook(n: Node) {
    n.details.IngressDetails? && n.details.ingressKind == Webhook && n.details.httpMethod == "POST"
  }

  function CitedEdges(edges: seq<Edge>): seq<Evidence> {
    if edges == [] then []
    else [Evidence(GRAPH_NODE, edges[0].source), Evidence(GRAPH_EDGE, edges[0].id)] + CitedEdges(edges[1..])
  }

  function CitedNodes(nodes: seq<Node>): seq<Evidence> {
    if nodes == [] then [] else [Evidence(GRAPH_NODE, nodes[0].id)] + CitedNodes(nodes[1..])
  }

  function CitedControls(controls: seq<Control>): seq<Evidence> {
    if controls == [] then [] else [Evidence(NORMAL_CONTROL, controls[0].id)] + CitedControls(controls[1..])
  }

  /** Evidence that the control's own webhook route releases value on capture, if there is any. */
  function CapturedEvidence(x: Context, c: Control): Option<seq<Evidence>> {
    if At(x, c.ingress).None? || !IsPostWebhook(At(x, c.ingress).value) || RelevantDiagnostics(x, {c.route}) != []
    then None
    else if CapturedEdges(x, c) == [] then None
    else Some([Evidence(NORMAL_CONTROL, c.id)] + CitedEdges(CapturedEdges(x, c)))
  }

  // ------------------------------------------------------------ policy

  predicate AnyMentions(edges: seq<Edge>, state: string) {
    exists i :: 0 <= i < |edges| && edges[i].branch.Some? && Mentions(edges[i].branch.value.states, state)
  }

  function Observed(edges: seq<Edge>): set<string> {
    (if AnyMentions(edges, "authorized") then {"authorized"} else {})
    + (if AnyMentions(edges, "captured") then {"captured"} else {})
  }

  /** The policy's branches: any control's value node, on any control's route. */
  function PolicyEdges(x: Context, controls: seq<Control>, routes: set<string>): seq<Edge> {
    StateEdges(x, set c | c in controls :: c.valueNode, routes)
  }

  predicate SilentRoute(x: Context, controls: seq<Control>, route: string) {
    Observed(PolicyEdges(x, controls, {route})) == {}
  }

  function Suggestion(x: Context, controls: seq<Control>): (EvidenceStatus, Option<FulfilmentPolicy>) {
    var observed := Observed(PolicyEdges(x, controls, Routes(controls)));
    if RelevantDiagnostics(x, Routes(controls)) != [] || controls == [] || observed == {}
       || (exists c :: c in controls && SilentRoute(x, controls, c.route))
    then (INSUFFICIENT_EVIDENCE, None)
    else if observed == {"captured"} then (CONSISTENT_SUGGESTION, Some(CAPTURE_REQUIRED))
    else if observed == {"authorized"} then (CONSISTENT_SUGGESTION, Some(AUTHORIZED_ALLOWED))
    else (CONFLICTING_EVIDENCE, None)
  }

  function PathsOf(controls: seq<Control>): seq<PathEvidence> {
    seq(|controls|, i requires 0 <= i < |controls| =>
      var c := controls[i]; PathEvidence(c.ingress, c.route, c.ingressKind, c.valueNode, c.valueSymbol, c.callPath))
  }

  function BranchesOf(x: Context, edges: seq<Edge>): seq<BranchEvidence> {
    if edges == [] then []
    else
      (if edges[0].branch.None? || At(x, edges[0].source).None? then []
       else [BranchEvidence(edges[0].source, RouteOf(At(x, edges[0].source).value), edges[0].target,
                            edges[0].branch.value.disposition, Sort(StringLe, edges[0].branch.value.states),
                            edges[0].provenance)])
      + BranchesOf(x, edges[1..])
  }

  function WebhookControls(controls: seq<Control>): seq<Control> {
    Filter((c: Control) => c.ingressKind == Webhook, controls)
  }

  function FulfilmentEvidence(x: Context, controls: seq<Control>): PolicyEvidence {
    PolicyEvidence(PathsOf(controls), [], BranchesOf(x, PolicyEdges(x, controls, Routes(controls))),
                   RelevantDiagnostics(x, Routes(controls)))
  }

  function LateEvidence(x: Context, controls: seq<Control>): PolicyEvidence {
    var webhooks := WebhookControls(controls);
    var ingresses := set c | c in webhooks :: c.ingress;
    PolicyEvidence(PathsOf(webhooks),
                   Filter((n: Node) => n.details.IngressDetails? && n.details.ingressKind == Webhook
                                       && n.id in ingresses, x.graph.nodes),
                   BranchesOf(x, PolicyEdges(x, controls, Routes(webhooks))),
                   RelevantDiagnostics(x, Routes(webhooks)))
  }

  function AssessPolicy(x: Context, controls: seq<Control>): (p: PolicyAssessment)
    ensures ValidPolicy(p)
  {
    var (status, suggestion) := Suggestion(x, controls);
    var fulfilmentPrint := x.fulfilmentPrint(FulfilmentEvidence(x, controls));
    var latePrint := x.latePrint(LateEvidence(x, controls));
    PolicyAssessment(
      FulfilmentAssessment(
        status, fulfilmentPrint, Observed(PolicyEdges(x, controls, Routes(controls))), suggestion,
        if x.fulfilment.Some? then Some(x.fulfilment.value.value) else None,
        if x.fulfilment.Some? then Some(x.fulfilment.value.fingerprint == fulfilmentPrint) else None,
        x.fulfilment.Some? && suggestion.Some? && x.fulfilment.value.value != suggestion.value),
      LateAssessment(
        latePrint,
        if x.late.Some? then Some(x.late.value.value) else None,
        if x.late.Some? then Some(x.late.value.fingerprint == latePrint) else None))
  }

  // ------------------------------------------------------------ verdicts

  /** The state of one assertion with its one reason. */
  datatype Verdict = Verdict(state: State, reason: Reason)

  function Because(state: State, code: ReasonCode, evidence: seq<Evidence>): Verdict {
    Verdict(state, Reason(code, evidence))
  }

  function Fallback(x: Context, ingresses: seq<Node>): Verdict {
    if ingresses == [] then
      if Partial(x.graph) then Because(INDETERMINATE, GRAPH_COVERAGE_INSUFFICIENT, [])
      else Because(NOT_APPLICABLE, INGRESS_ABSENT, [])
    else if x.resolution.None? || !x.resolution.value.unique then Because(NEEDS_INPUT, CUSTOMER_VALUE_UNRESOLVED, [])
    else if Partial(x.graph) then Because(INDETERMINATE, GRAPH_COVERAGE_INSUFFICIENT, [])
    else Because(NOT_APPLICABLE, CUSTOMER_VALUE_PATH_ABSENT, [])
  }

  function PolicyGate(p: PolicyAssessment, c: Control): Verdict {
    if p.fulfilment.confirmed.None? then Because(NEEDS_INPUT, FULFILMENT_POLICY_REQUIRED, [])
    else if p.fulfilment.current != Some(true) then Because(NEEDS_INPUT, FULFILMENT_POLICY_STALE, [])
    else Because(APPLICABLE, EXACT_CONTROL_AVAILABLE, [Evidence(NORMAL_CONTROL, c.id)])
  }

  function NormalCapture(x: Context, p: PolicyAssessment, c: Control): Verdict {
    var gate := PolicyGate(p, c);
    if gate.state != APPLICABLE then gate
    else if p.fulfilment.confirmed != Some(CAPTURE_REQUIRED) then
      Because(INDETERMINATE, NORMAL_CAPTURE_THRESHOLD_UNPROVEN, [])
    else if CapturedEvidence(x, c).None? then Because(INDETERMINATE, NORMAL_CAPTURE_THRESHOLD_UNPROVEN, [])
    else Because(APPLICABLE, NORMAL_CAPTURE_THRESHOLD_AVAILABLE, CapturedEvidence(x, c).value)
  }

  function CapturedTarget(x: Context, c: Control): Verdict {
    if CapturedEvidence(x, c).None? then Because(INDETERMINATE, CAPTURED_EVENT_TARGET_UNPROVEN, [])
    else Because(APPLICABLE, CAPTURED_EVENT_TARGET_AVAILABLE, CapturedEvidence(x, c).value)
  }

  function DuplicateCapture(x: Context, p: PolicyAssessment, c: Control): Verdict {
    var gate := PolicyGate(p, c);
    if gate.state != APPLICABLE then gate else CapturedTarget(x, c)
  }

  /** The customer value is recorded as happening before a 2xx acknowledgement of known status on the
      control's route. */
  predicate AckEdge(x: Context, c: Control, e: Edge) {
    && e.kind == AcknowledgesAfter && e.target == c.valueNode
    && At(x, e.source).Some? && At(x, e.source).value.details.AcknowledgementDetails?
    && At(x, e.source).value.details.route == c.route
    && At(x, e.source).value.details.success && At(x, e.source).value.details.hasStatus
  }

  function AckEdges(x: Context, c: Control): seq<Edge> {
    Filter((e: Edge) => AckEdge(x, c, e), x.graph.edges)
  }

  function RetryAfterAck(x: Context, p: PolicyAssessment, c: Control): Verdict {
    var base := DuplicateCapture(x, p, c);
    if base.state != APPLICABLE then base
    else if |AckEdges(x, c)| == 1 then
      Because(APPLICABLE, VALUE_BEFORE_ACK_PROVEN, base.reason.evidence + CitedEdges(AckEdges(x, c)))
    else Because(INDETERMINATE, ACK_ORDER_UNRESOLVED, [])
  }

  function LinkedCheckouts(controls: seq<Control>, c: Control): seq<Control> {
    Filter((o: Control) => o.ingressKind == CheckoutCallback && o.valueNode == c.valueNode
                           && o.valueSymbol == c.valueSymbol, controls)
  }

  function WithoutCallback(x: Context, p: PolicyAssessment, controls: seq<Control>, c: Control): Verdict {
    var base := DuplicateCapture(x, p, c);
    if base.state != APPLICABLE then base
    else if LinkedCheckouts(controls, c) == [] then Because(INDETERMINATE, CHECKOUT_TARGET_LINK_UNRESOLVED, [])
    else Because(APPLICABLE, CHECKOUT_TARGET_LINK_AVAILABLE,
                 CitedControls(LinkedCheckouts(controls, c)) + base.reason.evidence)
  }

  // ------------------------------------------------------------ mutations

  /** The mutation node a matched branch of a payment-state gate reaches on the route, if the branch
      mentions the very state the mutation writes. */
  function RegressionTarget(x: Context, route: string, e: Edge): (r: Option<Node>)
    ensures r.Some? ==> r.value in x.graph.nodes && r.value.details.MutationDetails?
                        && r.value.details.written in {Some("authorized"), Some("captured")}
  {
    var gate, mutation := At(x, e.source), At(x, e.target);
    if e.kind == BranchesTo && e.branch.Some? && e.branch.value.disposition == Matched
       && gate.Some? && gate.value.details.StateGateDetails? && gate.value.details.route == route
       && mutation.Some? && mutation.value.details.MutationDetails? && mutation.value.details.route == route
       && mutation.value.details.written in {Some("authorized"), Some("captured")}
       && Mentions(e.branch.value.states, mutation.value.details.written.value)
    then mutation else None
  }

  /** The mutation kept for a carrier and a state: the one the last such edge reaches. */
  function LastMutation(x: Context, route: string, edges: seq<Edge>, carrier: string, state: string): (r: Option<Node>)
    ensures r.Some? ==> r.value in x.graph.nodes && r.value.details.MutationDetails?
                        && r.value.details.carrier == carrier && r.value.details.written == Some(state)
  {
    if edges == [] then None
    else
      var target := RegressionTarget(x, route, edges[|edges| - 1]);
      if target.Some? && target.value.details.carrier == carrier && target.value.details.written == Some(state)
      then target else LastMutation(x, route, edges[..|edges| - 1], carrier, state)
  }

  predicate OnRegressingCarrier(x: Context, route: string, n: Node) {
    && n.details.MutationDetails? && n.details.written.Some?
    && LastMutation(x, route, x.graph.edges, n.details.carrier, n.details.written.value) == Some(n)
    && LastMutation(x, route, x.graph.edges, n.details.carrier, "authorized").Some?
    && LastMutation(x, route, x.graph.edges, n.details.carrier, "captured").Some?
  }

  function RegressionMutations(x: Context, c: Control): seq<Node> {
    SortNodes(x, Filter((n: Node) => OnRegressingCarrier(x, c.route, n), x.graph.nodes))
  }

  function Kept(byCarrier: map<string, map<string, Node>>, carrier: string, state: string): Option<Node> {
    if carrier in byCarrier && state in byCarrier[carrier] then Some(byCarrier[carrier][state]) else None
  }

  ghost predicate KeepsLast(x: Context, route: string, edges: seq<Edge>, byCarrier: map<string, map<string, Node>>) {
    forall carrier, state :: Kept(byCarrier, carrier, state) == LastMutation(x, route, edges, carrier, state)
  }

  method SelectRegressionMutations(x: Context, c: Control) returns (mutations: seq<Node>)
    ensures mutations == RegressionMutations(x, c)
  {
    var byCarrier: map<string, map<string, Node>> := map[];
    for k := 0 to |x.graph.edges|
      invariant KeepsLast(x, c.route, x.graph.edges[..k], byCarrier)
    {
      var target := RegressionTarget(x, c.route, x.graph.edges[k]);
      assert x.graph.edges[..k + 1][..k] == x.graph.edges[..k];
      if target.Some? {
        var carrier, state := target.value.details.carrier, target.value.details.written.value;
        var states := if carrier in byCarrier then byCarrier[carrier] else map[];
        byCarrier := byCarrier[carrier := states[state := target.value]];
      }
    }
    assert x.graph.edges[..|x.graph.edges|] == x.graph.edges;
    var selected := set carrier, state | carrier in byCarrier && state in byCarrier[carrier]
                                         && "authorized" in byCarrier[carrier] && "captured" in byCarrier[carrier]
                      :: byCarrier[carrier][state];
    forall n | n in x.graph.nodes
      ensures n in selected <==> OnRegressingCarrier(x, c.route, n)
    {
      SelectedIff(x, c.route, byCarrier, selected, n);
    }
    FilterAgrees((n: Node) => n in selected, (n: Node) => OnRegressingCarrier(x, c.route, n), x.graph.nodes);
    mutations := SortNodes(x, Filter((n: Node) => n in selected, x.graph.nodes));
  }

  lemma SelectedIff(x: Context, route: string, byCarrier: map<string, map<string, Node>>, selected: set<Node>, n: Node)
    requires KeepsLast(x, route, x.graph.edges, byCarrier)
    requires selected == set carrier, state | carrier in byCarrier && state in byCarrier[carrier]
                               && "authorized" in byCarrier[carrier] && "captured" in byCarrier[carrier]
                           :: byCarrier[carrier][state]
    ensures n in selected <==> OnRegressingCarrier(x, route, n)
  {
    hide LastMutation;
    if n in selected {
      var carrier, state :| carrier in byCarrier && state in byCarrier[carrier] && "authorized" in byCarrier[carrier]
                            && "captured" in byCarrier[carrier] && byCarrier[carrier][state] == n;
      assert Kept(byCarrier, carrier, state) == Some(n);
      assert Kept(byCarrier, carrier, "authorized").Some? && Kept(byCarrier, carrier, "captured").Some?;
    }
    if OnRegressingCarrier(x, route, n) {
      var carrier := n.details.carrier;
      assert Kept(byCarrier, carrier, n.details.written.value) == Some(n);
      assert Kept(byCarrier, carrier, "authorized").Some? && Kept(byCarrier, carrier, "captured").Some?;
    }
  }

  predicate ProtectedGate(x: Context, route: string, id: string) {
    exists n :: n in x.graph.nodes && n.id == id && n.details.TrustDetails? && n.details.route == route
                && (n.details.trust == CheckoutSignature || n.details.trust == ServerOrderIdentity)
  }

  predicate Guarded(x: Context, route: string, id: string) {
    exists e :: e in x.graph.edges && e.kind == Guards && e.target == id && ProtectedGate(x, route, e.source)
  }

  function CheckoutMutations(x: Context, ingress: Node): seq<Node> {
    if !ingress.details.IngressDetails? then [] else
    var route := ingress.details.route;
    SortNodes(x, Filter((n: Node) => n.details.MutationDetails? && n.details.route == route
                                     && (Guarded(x, route, n.id) || n.details.written.Some?), x.graph.nodes))
  }

  /** A gate that only captured payments pass: with a control, one of its captured branches; otherwise
      any payment-state gate of the route that names the captured state. */
  predicate CapturedGate(x: Context, route: string, control: Option<Control>, id: string) {
    if control.Some? then exists e :: e in CapturedEdges(x, control.value) && e.source == id
    else exists n :: n in x.graph.nodes && n.id == id && n.details.StateGateDetails? && n.details.route == route
                     && Mentions(n.details.states, "captured")
  }

  predicate BelowCapture(x: Context, route: string, control: Option<Control>, n: Node) {
    && n.details.MutationDetails? && n.details.route == route
    && exists e :: e in x.graph.edges && e.kind == BranchesTo && e.target == n.id && e.branch.Some?
                   && e.branch.value.disposition == Matched && Mentions(e.branch.value.states, "captured")
                   && CapturedGate(x, route, control, e.source)
  }

  function CapturedPathMutations(x: Context, ingress: Node, control: Option<Control>): seq<Node> {
    if !IsPostWebhook(ingress) then []
    else SortNodes(x, Filter((n: Node) => BelowCapture(x, ingress.details.route, control, n), x.graph.nodes))
  }

  predicate MutatesOn(x: Context, route: Option<string>) {
    exists n :: n in x.graph.nodes && n.details.MutationDetails? && Some(n.details.route) == route
  }

  function RoutePaymentStates(x: Context, c: Control): set<string> {
    set n, i | n in x.graph.nodes && n.details.StateGateDetails? && n.details.route == c.route
               && 0 <= i < |n.details.states| :: PaymentState(n.details.states[i])
  }

  // ------------------------------------------------------------ instances

  /** What one instance is about. `ForIngress` is the subject of the two trust scenarios: an ingress with
      one of its controls, or with none. */
  datatype Subject = ForControl(control: Control) | ForIngress(ingress: Node, matched: Option<Control>) | Catalog

  function ControlOf(subject: Subject): Option<Control> {
    match subject
    case ForControl(c) => Some(c)
    case ForIngress(_, c) => c
    case Catalog => None
  }

  function Discriminator(subject: Subject): string {
    match subject
    case ForControl(c) => c.id
    case ForIngress(n, c) => if c.Some? then c.value.id else n.id
    case Catalog => "catalog"
  }

  function InstanceId(x: Context, s: ScenarioId, subject: Subject): string {
    StableId(x.digest, "sgscenario", [ScenarioText(s), Discriminator(subject)])
  }

  function AssertionId(x: Context, instance: string, key: AssertionKey): string {
    StableId(x.digest, "sgassert", [instance, x.texts.key(key)])
  }

  function Assert(x: Context, s: ScenarioId, subject: Subject, key: AssertionKey, role: Role, v: Verdict,
                  control: Option<Control>): Assertion
  {
    Assertion(AssertionId(x, InstanceId(x, s, subject), key), key, role, v.state, [v.reason],
              if control.Some? then Some(control.value.id) else None)
  }


  /** The key of the scenario's customer-value assertion; for SG-08, of its policy-outcome assertion. */
  function ValueKey(s: ScenarioId): AssertionKey {
    match s
    case SG01 => SG01_VALUE
    case SG02 => SG02_VALUE
    case SG03 => SG03_VALUE
    case SG04 => SG04_VALUE
    case SG05 => SG05_VALUE
    case SG06 => SG06_VALUE
    case SG07 => SG07_VALUE
    case SG08 => SG08_VALUE
  }

  /** The verdict on the customer value in the five scenarios run against one webhook control. */
  function ValueVerdict(x: Context, p: PolicyAssessment, controls: seq<Control>, s: ScenarioId, c: Control): Verdict {
    match s
    case SG01 => NormalCapture(x, p, c)
    case SG03 => RetryAfterAck(x, p, c)
    case SG07 => WithoutCallback(x, p, controls, c)
    case _ => DuplicateCapture(x, p, c)
  }

  function RegressionVerdict(x: Context, c: Control): Verdict {
    var mutations, unclear := RegressionMutations(x, c), RelevantDiagnostics(x, {c.route}) != [];
    Because(if mutations != [] && !unclear then APPLICABLE else if unclear then INDETERMINATE else NOT_APPLICABLE,
            if mutations != [] then STATE_REGRESSION_TARGET_AVAILABLE
            else if unclear then STATE_REGRESSION_TARGET_UNRESOLVED else STATE_REGRESSION_TARGET_ABSENT,
            CitedNodes(mutations))
  }

  function MutationVerdict(x: Context, s: ScenarioId, ingress: Node, control: Option<Control>): Verdict {
    var mutations := if s == SG05 then CapturedPathMutations(x, ingress, control) else CheckoutMutations(x, ingress);
    var unbound := s == SG06 && !(ingress.details.IngressDetails? && ingress.details.hasCheckoutBinding);
    Because(if unbound then INDETERMINATE
            else if mutations != [] then APPLICABLE
            else if Partial(x.graph) || MutatesOn(x, RouteOf(ingress)) then INDETERMINATE else NOT_APPLICABLE,
            if unbound then CHECKOUT_REQUEST_BINDING_UNRESOLVED
            else if mutations != [] then MUTATION_TARGET_AVAILABLE else MUTATION_TARGET_ABSENT,
            CitedNodes(mutations))
  }

  function TrustValueVerdict(x: Context, s: ScenarioId, ingress: Node, control: Option<Control>): Verdict {
    if control.None? then Fallback(x, [ingress])
    else if s == SG05 then CapturedTarget(x, control.value)
    else if !(ingress.details.IngressDetails? && ingress.details.hasCheckoutBinding) then
      Because(INDETERMINATE, CHECKOUT_REQUEST_BINDING_UNRESOLVED, [])
    else Because(APPLICABLE, CHECKOUT_REQUEST_BINDING_AVAILABLE, [Evidence(NORMAL_CONTROL, control.value.id)])
  }

  /** The keyed verdicts of SG-08, whose assertions depend on both merchant policies. */
  function LateVerdicts(x: Context, p: PolicyAssessment, c: Control): (r: seq<(AssertionKey, Verdict)>)
    ensures |r| > 0
  {
    var fulfilment, late := p.fulfilment, p.late;
    if fulfilment.confirmed.None? then [(ValueKey(SG08), Because(NEEDS_INPUT, FULFILMENT_POLICY_REQUIRED, []))]
    else if fulfilment.current != Some(true) then
      [(ValueKey(SG08), Because(NEEDS_INPUT, FULFILMENT_POLICY_STALE, []))]
    else if late.confirmed.None? then
      [(ValueKey(SG08), Because(NEEDS_INPUT, LATE_AUTHORISATION_POLICY_REQUIRED, []))]
    else if late.current != Some(true) then
      [(ValueKey(SG08), Because(NEEDS_INPUT, LATE_AUTHORISATION_POLICY_STALE, []))]
    else if RoutePaymentStates(x, c) == {} || RelevantDiagnostics(x, {c.route}) != [] then
      [(ValueKey(SG08), Because(INDETERMINATE, LATE_SEQUENCE_UNRESOLVED, [Evidence(NORMAL_CONTROL, c.id)]))]
    else if fulfilment.confirmed == Some(CAPTURE_REQUIRED) then
      [(SG08_PRECAPTURE, Because(APPLICABLE, POLICY_MATRIX_SELECTED, []))]
      + (if late.confirmed != Some(FULFIL_LATER) then []
         else if CapturedEvidence(x, c).Some? then
           [(SG08_CAPTURE, Because(APPLICABLE, POLICY_MATRIX_SELECTED, CapturedEvidence(x, c).value))]
         else [(SG08_CAPTURE, Because(INDETERMINATE, CAPTURED_EVENT_TARGET_UNPROVEN, []))])
    else [(ValueKey(SG08), Because(INDETERMINATE, MERCHANT_LATE_CONTEXT_UNPROVEN, []))]
  }

  /** No late authorisation can arrive on a route whose gates name states but not "authorized". */
  predicate LateUnsupported(x: Context, c: Control) {
    RoutePaymentStates(x, c) != {} && "authorized" !in RoutePaymentStates(x, c)
  }

  function IngressNodes(x: Context): seq<Node> {
    Filter((n: Node) => n.details.IngressDetails?, x.graph.nodes)
  }

  function IngressesOf(x: Context, kind: IngressKind): seq<Node> {
    Filter((n: Node) => n.details.IngressDetails? && n.details.ingressKind == kind, x.graph.nodes)
  }

  function CatalogVerdict(x: Context, controls: seq<Control>, s: ScenarioId): Verdict {
    match s
    case SG01 => Fallback(x, IngressNodes(x))
    case SG06 => Fallback(x, IngressesOf(x, CheckoutCallback))
    case SG07 =>
      if IngressesOf(x, CheckoutCallback) != [] && WebhookControls(controls) == [] then
        Fallback(x, IngressesOf(x, Webhook))
      else Because(NOT_APPLICABLE, CHECKOUT_SURFACE_REQUIRED, [])
    case SG08 =>
      if WebhookControls(controls) != [] then Because(NOT_APPLICABLE, LATE_SEQUENCE_NOT_SUPPORTED, [])
      else Fallback(x, IngressesOf(x, Webhook))
    case _ => Fallback(x, IngressesOf(x, Webhook))
  }

  function Assertions(x: Context, p: PolicyAssessment, controls: seq<Control>, s: ScenarioId, subject: Subject)
    : (r: seq<Assertion>)
    ensures r != [] && r[0].role == CORE
  {
    match subject
    case Catalog => [Assert(x, s, subject, ValueKey(s), CORE, CatalogVerdict(x, controls, s), None)]
    case ForIngress(n, c) =>
      [Assert(x, s, subject, if s == SG05 then SG05_MUTATION else SG06_MUTATION, CORE, MutationVerdict(x, s, n, c),
              None),
       Assert(x, s, subject, ValueKey(s), CORE, TrustValueVerdict(x, s, n, c), c)]
    case ForControl(c) =>
      if s == SG08 then
        var verdicts := LateVerdicts(x, p, c);
        seq(|verdicts|, i requires 0 <= i < |verdicts| =>
          Assert(x, s, subject, verdicts[i].0, CORE, verdicts[i].1, Some(c)))
      else
        [Assert(x, s, subject, ValueKey(s), CORE, ValueVerdict(x, p, controls, s, c), Some(c))]
        + (if s == SG04 then [Assert(x, s, subject, SG04_REGRESSION, OPTIONAL, RegressionVerdict(x, c), Some(c))]
           else [])
  }

  function InstanceOf(x: Context, s: ScenarioId, subject: Subject, assertions: seq<Assertion>): (i: Instance)
    requires RollUp(assertions).Some?
  {
    var control := ControlOf(subject);
    Instance(InstanceId(x, s, subject), RollUp(assertions).value,
             match subject
             case ForControl(c) => Some(c.ingress)
             case ForIngress(n, _) => Some(n.id)
             case Catalog => None,
             if control.Some? then Some(control.value.id) else None,
             if control.Some? then Some(control.value.route) else None,
             if control.Some? then Some(control.value.valueNode) else None,
             if control.Some? then Some(control.value.valueSymbol) else None,
             assertions)
  }

  function InstanceFor(x: Context, p: PolicyAssessment, controls: seq<Control>, s: ScenarioId, subject: Subject)
    : Instance
  {
    var assertions := Assertions(x, p, controls, s, subject);
    assert assertions[0] in assertions;
    InstanceOf(x, s, subject, assertions)
  }

  lemma InstanceIsValid(x: Context, p: PolicyAssessment, controls: seq<Control>, s: ScenarioId, subject: Subject)
    ensures ValidInstance(InstanceFor(x, p, controls, s, subject))
  {
    AssertionsHaveReasons(x, p, controls, s, subject);
  }

  lemma AssertionsHaveReasons(x: Context, p: PolicyAssessment, controls: seq<Control>, s: ScenarioId, subject: Subject)
    ensures forall a :: a in Assertions(x, p, controls, s, subject) ==> a.reasons != []
  {
  }

  // ------------------------------------------------------------ scenarios

  function ControlSubjects(controls: seq<Control>): seq<Subject> {
    if controls == [] then [] else ControlSubjects(controls[..|controls| - 1]) + [ForControl(controls[|controls| - 1])]
  }

  function Matching(controls: seq<Control>, ingress: Node): seq<Control> {
    Filter((c: Control) => c.ingress == ingress.id, controls)
  }

  function MatchedSubjects(ingress: Node, controls: seq<Control>): seq<Subject> {
    if controls == [] then []
    else MatchedSubjects(ingress, controls[..|controls| - 1]) + [ForIngress(ingress, Some(controls[|controls| - 1]))]
  }

  function IngressSubjects(controls: seq<Control>, ingress: Node): seq<Subject> {
    if Matching(controls, ingress) == [] then [ForIngress(ingress, None)]
    else MatchedSubjects(ingress, Matching(controls, ingress))
  }

  function TrustSubjects(controls: seq<Control>, ingresses: seq<Node>): seq<Subject> {
    if ingresses == [] then []
    else TrustSubjects(controls, ingresses[..|ingresses| - 1]) + IngressSubjects(controls, ingresses[|ingresses| - 1])
  }

  /** SG-08 skips the controls on whose route no late authorisation can arrive. */
  function Served(x: Context, s: ScenarioId, controls: seq<Control>): seq<Control> {
    if s == SG08 then Filter((c: Control) => !LateUnsupported(x, c), controls) else controls
  }

  function OwnSubjects(x: Context, controls: seq<Control>, s: ScenarioId): seq<Subject> {
    match s
    case SG05 => TrustSubjects(controls, IngressesOf(x, Webhook))
    case SG06 => TrustSubjects(controls, IngressesOf(x, CheckoutCallback))
    case SG07 => if IngressesOf(x, CheckoutCallback) == [] then []
                 else ControlSubjects(Served(x, s, WebhookControls(controls)))
    case _ => ControlSubjects(Served(x, s, WebhookControls(controls)))
  }

  function Subjects(x: Context, controls: seq<Control>, s: ScenarioId): (r: seq<Subject>)
    ensures r != []
  {
    if OwnSubjects(x, controls, s) == [] then [Catalog] else OwnSubjects(x, controls, s)
  }

  function InstancesFor(x: Context, p: PolicyAssessment, controls: seq<Control>, s: ScenarioId, subjects: seq<Subject>)
    : (r: seq<Instance>)
    ensures |r| == |subjects|
    ensures forall k :: 0 <= k < |r| ==> r[k] == InstanceFor(x, p, controls, s, subjects[k])
  {
    seq(|subjects|, k requires 0 <= k < |subjects| => InstanceFor(x, p, controls, s, subjects[k]))
  }

  lemma InstancesRollUp(x: Context, p: PolicyAssessment, controls: seq<Control>, s: ScenarioId, subjects: seq<Subject>)
    requires subjects != []
    ensures forall i :: i in InstancesFor(x, p, controls, s, subjects) ==> ValidInstance(i)
    ensures RollUp(Flatten(InstancesFor(x, p, controls, s, subjects))).Some?
  {
    hide InstanceFor, ValidInstance, RollUp;
    var instances := InstancesFor(x, p, controls, s, subjects);
    forall k | 0 <= k < |instances|
      ensures ValidInstance(instances[k])
    {
      InstanceIsValid(x, p, controls, s, subjects[k]);
    }
    RollUpIsFlat(instances);
    assert instances[0].state in InstanceStates(instances);
    DominantIsDefined(InstanceStates(instances));
  }

  function ScenarioFor(x: Context, p: PolicyAssessment, controls: seq<Control>, s: ScenarioId): Scenario {
    var instances := InstancesFor(x, p, controls, s, Subjects(x, controls, s));
    InstancesRollUp(x, p, controls, s, Subjects(x, controls, s));
    Scenario(s, RollUp(Flatten(instances)).value, instances)
  }

  lemma ScenarioParts(x: Context, p: PolicyAssessment, controls: seq<Control>, s: ScenarioId)
    ensures var r := ScenarioFor(x, p, controls, s);
            && r.id == s && r.instances == InstancesFor(x, p, controls, s, Subjects(x, controls, s))
            && RollUp(Flatten(r.instances)) == Some(r.state)
            && forall i :: i in r.instances ==> ValidInstance(i)
  {
    hide InstancesFor, RollUp, ValidInstance, Flatten;
    InstancesRollUp(x, p, controls, s, Subjects(x, controls, s));
  }
}
