/** When a scenario applies, said without the engine's own branching: the customer-value assertion of a
    webhook scenario is APPLICABLE exactly when every gate of the design is open for its control. Also:
    every piece of evidence cited by an assertion exists. */
module ApplicabilityGating {
  import opened Foundations
  import opened PaymentGraph
  import opened ApplicabilityContracts
  import opened ApplicabilityEngine
  import opened ApplicabilityCatalog
  import opened PaymentFacts

  ghost predicate PolicyIsCurrent(p: PolicyAssessment) {
    p.fulfilment.confirmed.Some? && p.fulfilment.current == Some(true)
  }

  /** A policy counts as confirmed and current exactly when the merchant confirmed one for precisely the
      evidence found now. */
  lemma CurrentIffSameEvidence(x: Context, controls: seq<Control>)
    ensures PolicyIsCurrent(AssessPolicy(x, controls))
       <==> x.fulfilment.Some? && x.fulfilment.value.fingerprint == x.fulfilmentPrint(FulfilmentEvidence(x, controls))
    ensures x.fulfilment.Some? ==> AssessPolicy(x, controls).fulfilment.confirmed == Some(x.fulfilment.value.value)
  {
    hide FulfilmentEvidence, LateEvidence, Suggestion;
  }

  /** All gates the scenario places before a control's customer value. */
  ghost predicate Open(x: Context, p: PolicyAssessment, controls: seq<Control>, s: ScenarioId, c: Control) {
    && PolicyIsCurrent(p)
    && (s == SG01 ==> p.fulfilment.confirmed == Some(CAPTURE_REQUIRED))
    && FromPostWebhook(x, c) && ReleasesOnCapture(x, c) && !CoverageReduced(x, c.route)
    && (s == SG03 ==> OneAck(x, c))
    && (s == SG07 ==> SharesValueWithCheckout(controls, c))
  }

  predicate RunsOnOneWebhook(s: ScenarioId) {
    s == SG01 || s == SG02 || s == SG03 || s == SG04 || s == SG07
  }

  // ------------------------------------------------------------ one control

  lemma DiagnosticsAreRelevant(x: Context, route: string)
    ensures RelevantDiagnostics(x, {route}) != [] <==> CoverageReduced(x, route)
  {
    var keep := (d: Diagnostic) => Relevant({route}, d);
    FilterEmptyIff(keep, x.graph.diagnostics);
    assert RelevantDiagnostics(x, {route}) == Filter(keep, x.graph.diagnostics);
    forall d
      ensures keep(d) <==> d.coverageReduced && d.route == Some(route)
    {
    }
  }

  lemma CapturedEvidenceIff(x: Context, c: Control)
    requires ValidGraph(x.graph)
    ensures CapturedEvidence(x, c).Some?
       <==> FromPostWebhook(x, c) && ReleasesOnCapture(x, c) && !CoverageReduced(x, c.route)
  {
    hide CapturedBranch, TakenOn;
    DiagnosticsAreRelevant(x, c.route);
    FilterEmptyIff((e: Edge) => CapturedBranch(x, c, e), x.graph.edges);
    forall e
      ensures CapturedBranch(x, c, e) <==> TakenOn(x, c.route, c.valueNode, "captured", e)
    {
      CapturedBranchIff(x, c, e);
    }
    forall n | n in x.graph.nodes && n.id == c.ingress
      ensures At(x, c.ingress) == Some(n)
    {
      NodeAtFinds(x.graph.nodes, n);
    }
  }

  lemma OneAckIff(x: Context, c: Control)
    requires ValidGraph(x.graph)
    ensures |AckEdges(x, c)| == 1 <==> OneAck(x, c)
  {
    hide AckEdge, BeforeAck, Filter, ValidNode;
    forall e
      ensures AckEdge(x, c, e) <==> BeforeAck(x, c, e)
    {
      AckIff(x, c, e);
    }
    var keep := (e: Edge) => AckEdge(x, c, e);
    FilterSingleIff(keep, x.graph.edges);
    assert AckEdges(x, c) == Filter(keep, x.graph.edges);
    if e :| Only(keep, x.graph.edges, e) {
      assert OnlyAck(x, c, e);
    }
    if e :| OnlyAck(x, c, e) {
      assert Only(keep, x.graph.edges, e);
    }
  }

  lemma LinkedIff(controls: seq<Control>, c: Control)
    ensures LinkedCheckouts(controls, c) != [] <==> SharesValueWithCheckout(controls, c)
  {
    FilterEmptyIff((o: Control) => o.ingressKind == CheckoutCallback && o.valueNode == c.valueNode
                                   && o.valueSymbol == c.valueSymbol, controls);
  }

  lemma VerdictIsGate(x: Context, p: PolicyAssessment, controls: seq<Control>, s: ScenarioId, c: Control)
    requires ValidGraph(x.graph) && RunsOnOneWebhook(s)
    ensures ValueVerdict(x, p, controls, s, c).state == APPLICABLE <==> Open(x, p, controls, s, c)
  {
    hide CapturedEvidence, AckEdges, LinkedCheckouts, ValidGraph, ReleasesOnCapture, OneAck, SharesValueWithCheckout,
      CoverageReduced, FromPostWebhook;
    CapturedEvidenceIff(x, c);
    OneAckIff(x, c);
    LinkedIff(controls, c);
  }

  lemma CatalogNeverApplies(x: Context, controls: seq<Control>, s: ScenarioId)
    ensures CatalogVerdict(x, controls, s).state != APPLICABLE
  {
  }

  // ------------------------------------------------------------ the catalogue

  ghost predicate ValueAssertionOf(x: Context, p: PolicyAssessment, controls: seq<Control>, s: ScenarioId, i: Instance,
                                   a: Assertion)
  {
    i in ScenarioFor(x, p, controls, s).instances && a in i.assertions && a.key == ValueKey(s)
  }

  /** The customer-value assertion of an instance is applicable exactly when the instance is about a
      control all of whose gates are open. */
  lemma CustomerValueGate(x: Context, p: PolicyAssessment, controls: seq<Control>, s: ScenarioId, i: Instance,
                          a: Assertion)
    requires ValidGraph(x.graph) && GoodControls(x, controls) && RunsOnOneWebhook(s)
    ensures ValueAssertionOf(x, p, controls, s, i, a) ==>
              (a.state == APPLICABLE
               <==> exists c :: c in controls && i.control == Some(c.id) && Open(x, p, controls, s, c))
  {
    hide Open, ValidGraph, Subjects, GoodSubject, Assertions, ScenarioFor, GoodControl;
    if ValueAssertionOf(x, p, controls, s, i, a) {
      SubjectsAreGood(x, controls, s);
      var k := SubjectOf(x, p, controls, s, i);
      var t := Subjects(x, controls, s)[k];
      InstanceIdentity(x, p, controls, s, t);
      assert t in Subjects(x, controls, s) && ShapeFits(s, t);
      ValueAssertionState(x, p, controls, s, t, a);
      if t.Catalog? {
        CatalogNeverApplies(x, controls, s);
      } else {
        VerdictIsGate(x, p, controls, s, t.control);
        GoodSubjectControl(x, controls, t);
      }
    }
  }

  lemma ValueAssertionState(x: Context, p: PolicyAssessment, controls: seq<Control>, s: ScenarioId, t: Subject,
                            a: Assertion)
    requires RunsOnOneWebhook(s) && !t.ForIngress?
    requires a in Assertions(x, p, controls, s, t) && a.key == ValueKey(s)
    ensures a.state == if t.Catalog? then CatalogVerdict(x, controls, s).state
                       else ValueVerdict(x, p, controls, s, t.control).state
  {
    hide CatalogVerdict, ValueVerdict, RegressionVerdict;
  }

  lemma GoodSubjectControl(x: Context, controls: seq<Control>, t: Subject)
    requires GoodSubject(x, controls, t) && t.ForControl?
    ensures t.control in controls
  {
  }

  lemma SubjectOf(x: Context, p: PolicyAssessment, controls: seq<Control>, s: ScenarioId, i: Instance) returns (k: nat)
    requires i in ScenarioFor(x, p, controls, s).instances
    ensures k < |Subjects(x, controls, s)| && i == InstanceFor(x, p, controls, s, Subjects(x, controls, s)[k])
    ensures i.control == if ControlOf(Subjects(x, controls, s)[k]).Some?
                         then Some(ControlOf(Subjects(x, controls, s)[k]).value.id) else None
  {
    hide Subjects, Assertions;
    var instances := ScenarioFor(x, p, controls, s).instances;
    k :| 0 <= k < |instances| && instances[k] == i;
  }

  /** A webhook scenario applies to the project exactly when some control's gates are all open. */
  lemma ScenarioAppliesIff(x: Context, p: PolicyAssessment, controls: seq<Control>, s: ScenarioId)
    requires ValidGraph(x.graph) && GoodControls(x, controls) && RunsOnOneWebhook(s)
    ensures ScenarioFor(x, p, controls, s).state == APPLICABLE
       <==> exists c :: c in controls && Open(x, p, controls, s, c)
  {
    hide Open, ValidGraph, Subjects, InstanceFor, Assertions, GoodControl;
    var scenario := ScenarioFor(x, p, controls, s);
    ScenarioParts(x, p, controls, s);
    AppliesIffSomeCore(scenario.instances);
    if scenario.state == APPLICABLE {
      var i, a :| i in scenario.instances && a in i.assertions && a.role == CORE && a.state == APPLICABLE;
      CoreIsCustomerValue(x, p, controls, s, i, a);
      CustomerValueGate(x, p, controls, s, i, a);
    }
    if c :| c in controls && Open(x, p, controls, s, c) {
      OpenControlIsServed(x, p, controls, s, c);
      var k :| 0 <= k < |Subjects(x, controls, s)| && Subjects(x, controls, s)[k] == ForControl(c);
      var i := scenario.instances[k];
      InstanceIdentity(x, p, controls, s, ForControl(c));
      var a := ValueAssertion(x, p, controls, s, c);
      assert i in scenario.instances && a in i.assertions;
      VerdictIsGate(x, p, controls, s, c);
    }
  }

  lemma ValueAssertion(x: Context, p: PolicyAssessment, controls: seq<Control>, s: ScenarioId, c: Control)
    returns (a: Assertion)
    requires RunsOnOneWebhook(s)
    ensures a in Assertions(x, p, controls, s, ForControl(c)) && a.role == CORE
    ensures a.state == ValueVerdict(x, p, controls, s, c).state
  {
    hide ValueVerdict, RegressionVerdict;
    a := Assertions(x, p, controls, s, ForControl(c))[0];
  }

  lemma CoreIsCustomerValue(x: Context, p: PolicyAssessment, controls: seq<Control>, s: ScenarioId, i: Instance,
                            a: Assertion)
    requires ValidGraph(x.graph) && NoDuplicates(controls) && RunsOnOneWebhook(s)
    requires i in ScenarioFor(x, p, controls, s).instances && a in i.assertions && a.role == CORE
    ensures a.key == ValueKey(s)
  {
    hide Subjects, GoodSubject, ValidGraph, Assertions;
    var k := SubjectOf(x, p, controls, s, i);
    var t := Subjects(x, controls, s)[k];
    InstanceIdentity(x, p, controls, s, t);
    SubjectsAreGood(x, controls, s);
    assert t in Subjects(x, controls, s) && ShapeFits(s, t);
    CoreKeys(x, p, controls, s, t);
  }

  lemma CoreKeys(x: Context, p: PolicyAssessment, controls: seq<Control>, s: ScenarioId, t: Subject)
    requires RunsOnOneWebhook(s) && !t.ForIngress?
    ensures forall a :: a in Assertions(x, p, controls, s, t) && a.role == CORE ==> a.key == ValueKey(s)
  {
    hide CatalogVerdict, ValueVerdict, RegressionVerdict;
  }

  lemma {:induction false} AppliesIffSomeCore(instances: seq<Instance>)
    ensures RollUp(Flatten(instances)) == Some(APPLICABLE)
       <==> exists i, a :: i in instances && a in i.assertions && a.role == CORE && a.state == APPLICABLE
  {
    FlattenMember(instances);
  }

  lemma {:induction false} FlattenMember(instances: seq<Instance>)
    ensures forall a :: a in Flatten(instances) <==> exists i :: i in instances && a in i.assertions
  {
    if instances != [] {
      assert instances == [instances[0]] + instances[1..];
      FlattenMember(instances[1..]);
    }
  }

  lemma CheckoutIngressExists(x: Context, o: Control)
    requires GoodControl(x, o) && o.ingressKind == CheckoutCallback
    ensures IngressesOf(x, CheckoutCallback) != []
  {
    FilterMember((n: Node) => n.details.IngressDetails? && n.details.ingressKind == CheckoutCallback,
                 x.graph.nodes, At(x, o.ingress).value);
    assert At(x, o.ingress).value in IngressesOf(x, CheckoutCallback);
  }

  lemma FromWebhookIsWebhook(x: Context, c: Control)
    requires ValidGraph(x.graph) && GoodControl(x, c) && FromPostWebhook(x, c)
    ensures c.ingressKind == Webhook
  {
    var n :| n in x.graph.nodes && n.id == c.ingress && n.details.IngressDetails? && n.details.ingressKind == Webhook;
    NodeAtFinds(x.graph.nodes, n);
  }

  /** A control from a POST webhook is a webhook control, and a linked checkout control proves a checkout
      ingress: so the scenario has an instance for it. */
  lemma OpenControlIsServed(x: Context, p: PolicyAssessment, controls: seq<Control>, s: ScenarioId, c: Control)
    requires ValidGraph(x.graph) && GoodControls(x, controls) && RunsOnOneWebhook(s)
    requires c in controls && Open(x, p, controls, s, c)
    ensures ForControl(c) in Subjects(x, controls, s)
  {
    hide ReleasesOnCapture, CoverageReduced, OneAck, PolicyIsCurrent, Served, IngressesOf, FromPostWebhook,
      ControlSubjects, ValidGraph, GoodControl;
    FromWebhookIsWebhook(x, c);
    if s == SG07 {
      var o :| o in controls && o.ingressKind == CheckoutCallback && o.valueNode == c.valueNode;
      CheckoutIngressExists(x, o);
    }
    ServedIsGood(x, s, controls);
    var served := Served(x, s, WebhookControls(controls));
    ControlSubjectsExact(served);
    var k :| 0 <= k < |served| && served[k] == c;
    assert ControlSubjects(served)[k] == ForControl(c);
  }

  // ------------------------------------------------------------ policy suggestion

  ghost predicate RouteMentions(x: Context, controls: seq<Control>, route: string, state: string) {
    exists e, c :: e in x.graph.edges && c in controls && TakenOn(x, route, c.valueNode, state, e)
  }

  lemma AnyMentionsIff(keep: Edge -> bool, edges: seq<Edge>, state: string)
    requires forall e :: keep(e) ==> e.branch.Some?
    ensures AnyMentions(Filter(keep, edges), state)
       <==> exists e :: e in edges && keep(e) && Mentions(e.branch.value.states, state)
  {
    hide Mentions;
    var kept := Filter(keep, edges);
    if AnyMentions(kept, state) {
      var i :| 0 <= i < |kept| && kept[i].branch.Some? && Mentions(kept[i].branch.value.states, state);
      FilterMember(keep, edges, kept[i]);
    }
    if e :| e in edges && keep(e) && Mentions(e.branch.value.states, state) {
      FilterMember(keep, edges, e);
      var i :| 0 <= i < |kept| && kept[i] == e;
    }
  }

  lemma ObservedOnRoute(x: Context, controls: seq<Control>, routes: set<string>, state: string)
    requires state == "authorized" || state == "captured"
    ensures state in Observed(PolicyEdges(x, controls, routes))
       <==> exists route :: route in routes && RouteMentions(x, controls, route, state)
  {
    hide Mentions, AnyMentions, TakenOn;
    forall e, value, route
      ensures MatchedBranch(x, {value}, {route}, e) && Mentions(e.branch.value.states, state)
         <==> TakenOn(x, route, value, state, e)
    {
      MatchedBranchIff(x, value, route, state, e);
    }
    var values := set c | c in controls :: c.valueNode;
    var keep := (e: Edge) => MatchedBranch(x, values, routes, e);
    AnyMentionsIff(keep, x.graph.edges, state);
    if e :| e in x.graph.edges && keep(e) && Mentions(e.branch.value.states, state) {
      var c :| c in controls && c.valueNode == e.target;
      var route := RouteOf(At(x, e.source).value).value;
      assert MatchedBranch(x, {c.valueNode}, {route}, e) && TakenOn(x, route, c.valueNode, state, e);
      assert RouteMentions(x, controls, route, state);
    }
    if route :| route in routes && RouteMentions(x, controls, route, state) {
      var e, c :| e in x.graph.edges && c in controls && TakenOn(x, route, c.valueNode, state, e);
      assert MatchedBranch(x, {c.valueNode}, {route}, e) && keep(e);
    }
    ObservedMember(PolicyEdges(x, controls, routes), state);
  }

  lemma ObservedMember(edges: seq<Edge>, state: string)
    requires state == "authorized" || state == "captured"
    ensures state in Observed(edges) <==> AnyMentions(edges, state)
  {
    hide AnyMentions;
    assert "captured" != "authorized" by {
      assert |"captured"| == 8 && |"authorized"| == 10;
    }
  }

  /** A policy is suggested exactly when coverage is whole, every control's route shows the one state,
      and no control's route shows the other. */
  lemma SuggestionIff(x: Context, controls: seq<Control>, policy: FulfilmentPolicy)
    ensures Suggestion(x, controls).1 == Some(policy)
       <==> && controls != []
            && (forall c :: c in controls ==> !CoverageReduced(x, c.route))
            && (forall c :: c in controls ==> RouteMentions(x, controls, c.route, StateFor(policy)))
            && (forall c :: c in controls ==> !RouteMentions(x, controls, c.route, OtherState(policy)))
  {
    hide RouteMentions, CoverageReduced, PolicyEdges, Observed, RelevantDiagnostics;
    var routes := Routes(controls);
    var observed := Observed(PolicyEdges(x, controls, routes));
    DiagnosticsOnRoutes(x, controls);
    ObservedOnRoute(x, controls, routes, "authorized");
    ObservedOnRoute(x, controls, routes, "captured");
    ObservedRange(PolicyEdges(x, controls, routes));
    forall c | c in controls
      ensures c.route in routes
      ensures SilentRoute(x, controls, c.route)
         <==> !RouteMentions(x, controls, c.route, "authorized") && !RouteMentions(x, controls, c.route, "captured")
    {
      ObservedOnRoute(x, controls, {c.route}, "authorized");
      ObservedOnRoute(x, controls, {c.route}, "captured");
      ObservedRange(PolicyEdges(x, controls, {c.route}));
    }
    if controls != [] {
      assert controls[0] in controls;
    }
  }

  function StateFor(policy: FulfilmentPolicy): string {
    if policy == CAPTURE_REQUIRED then "captured" else "authorized"
  }

  function OtherState(policy: FulfilmentPolicy): string {
    if policy == CAPTURE_REQUIRED then "authorized" else "captured"
  }

  lemma ObservedRange(edges: seq<Edge>)
    ensures Observed(edges) <= {"authorized", "captured"}
    ensures Observed(edges) == {} <==> "authorized" !in Observed(edges) && "captured" !in Observed(edges)
    ensures Observed(edges) == {"captured"} <==> "authorized" !in Observed(edges) && "captured" in Observed(edges)
    ensures Observed(edges) == {"authorized"} <==> "authorized" in Observed(edges) && "captured" !in Observed(edges)
  {
    assert "captured" != "authorized" by {
      assert |"captured"| == 8 && |"authorized"| == 10;
    }
  }

  lemma DiagnosticsOnRoutes(x: Context, controls: seq<Control>)
    ensures RelevantDiagnostics(x, Routes(controls)) != [] <==> exists c :: c in controls && CoverageReduced(x, c.route)
  {
    FilterEmptyIff((d: Diagnostic) => Relevant(Routes(controls), d), x.graph.diagnostics);
    if d :| d in x.graph.diagnostics && Relevant(Routes(controls), d) {
      var c :| c in controls && c.route == d.route.value;
      assert CoverageReduced(x, c.route);
    }
  }

  // ------------------------------------------------------------ the other assertions

  lemma {:induction false} LastMutationIff(x: Context, route: string, edges: seq<Edge>, carrier: string, state: string)
    requires state == "authorized" || state == "captured"
    ensures LastMutation(x, route, edges, carrier, state).Some?
       <==> exists e :: e in edges && BranchWrites(x, route, e, carrier, state)
  {
    hide RegressionTarget, BranchWrites;
    if edges != [] {
      var n := |edges| - 1;
      assert edges == edges[..n] + [edges[n]];
      LastMutationIff(x, route, edges[..n], carrier, state);
      RegressionTargetIff(x, route, edges[n], carrier, state);
      assert forall e :: e in edges <==> e in edges[..n] || e == edges[n];
      assert BranchWrites(x, route, edges[n], carrier, state)
          || LastMutation(x, route, edges, carrier, state) == LastMutation(x, route, edges[..n], carrier, state);
    }
  }

  lemma RegressionMutationsIff(x: Context, c: Control)
    ensures RegressionMutations(x, c) != [] <==> Regresses(x, c.route)
  {
    hide RegressionTarget, LastMutation, BranchWrites;
    var keep := (n: Node) => OnRegressingCarrier(x, c.route, n);
    SortedFilterIff(x, keep);
    if n :| n in x.graph.nodes && keep(n) {
      var carrier := n.details.carrier;
      LastMutationIff(x, c.route, x.graph.edges, carrier, "authorized");
      LastMutationIff(x, c.route, x.graph.edges, carrier, "captured");
    }
    if e, f, carrier :| e in x.graph.edges && f in x.graph.edges && BranchWrites(x, c.route, e, carrier, "authorized")
                        && BranchWrites(x, c.route, f, carrier, "captured") {
      LastMutationIff(x, c.route, x.graph.edges, carrier, "authorized");
      LastMutationIff(x, c.route, x.graph.edges, carrier, "captured");
      var n := LastMutation(x, c.route, x.graph.edges, carrier, "authorized").value;
      assert keep(n);
    }
  }

  /** The regression assertion of SG-04 applies exactly when the route writes both states through one
      carrier and is fully covered. */
  lemma RegressionAppliesIff(x: Context, c: Control)
    ensures RegressionVerdict(x, c).state == APPLICABLE <==> !CoverageReduced(x, c.route) && Regresses(x, c.route)
  {
    hide RegressionMutations, CoverageReduced, RelevantDiagnostics, Regresses;
    DiagnosticsAreRelevant(x, c.route);
    RegressionMutationsIff(x, c);
  }

  /** The value assertion of the trust scenarios applies exactly when there is a control, and for SG-05
      captured webhook evidence for it, for SG-06 a checkout request binding. No policy is asked for. */
  lemma TrustValueAppliesIff(x: Context, s: ScenarioId, ingress: Node, control: Option<Control>)
    requires ValidGraph(x.graph) && (s == SG05 || s == SG06) && ingress.details.IngressDetails?
    ensures TrustValueVerdict(x, s, ingress, control).state == APPLICABLE
       <==> control.Some?
            && if s == SG06 then ingress.details.hasCheckoutBinding
               else FromPostWebhook(x, control.value) && ReleasesOnCapture(x, control.value)
                    && !CoverageReduced(x, control.value.route)
  {
    hide CapturedEvidence, ReleasesOnCapture, CoverageReduced, FromPostWebhook, ValidGraph;
    if control.Some? {
      CapturedEvidenceIff(x, control.value);
    }
  }

  lemma SortedFilterIff(x: Context, keep: Node -> bool)
    ensures SortNodes(x, Filter(keep, x.graph.nodes)) != [] <==> exists n :: n in x.graph.nodes && keep(n)
  {
    var kept := Filter(keep, x.graph.nodes);
    SortPermutes((a: Node, b: Node) => StringLe(x.nodeText(a), x.nodeText(b)), kept);
    PermutationMembers(SortNodes(x, kept), kept);
    FilterEmptyIff(keep, x.graph.nodes);
  }

  lemma MutationsIff(x: Context, ingress: Node, control: Option<Control>)
    requires ingress.details.IngressDetails?
    ensures CapturedPathMutations(x, ingress, control) != []
       <==> && ingress.details.ingressKind == Webhook && ingress.details.httpMethod == "POST"
            && exists n :: CapturedMutation(x, ingress.details.route, control, n)
    ensures CheckoutMutations(x, ingress) != [] <==> exists n :: ProtectedMutation(x, ingress.details.route, n)
  {
    hide BelowCapture, CapturedMutation, Guarded, ProtectedMutation;
    var route := ingress.details.route;
    var below := (n: Node) => BelowCapture(x, ingress.details.route, control, n);
    var protected := (n: Node) => n.details.MutationDetails? && n.details.route == route
                                  && (Guarded(x, route, n.id) || n.details.written.Some?);
    SortedFilterIff(x, below);
    SortedFilterIff(x, protected);
    forall n
      ensures CapturedMutation(x, route, control, n) <==> n in x.graph.nodes && below(n)
      ensures ProtectedMutation(x, route, n) <==> n in x.graph.nodes && protected(n)
    {
      BelowCaptureIff(x, route, control, n);
      ProtectedIff(x, route, n);
    }
  }

  /** The mutation assertion of the trust scenarios applies exactly when there is a mutation to protect, and
      for SG-05 a POST webhook, for SG-06 a checkout request binding. */
  lemma MutationAppliesIff(x: Context, s: ScenarioId, ingress: Node, control: Option<Control>)
    requires (s == SG05 || s == SG06) && ingress.details.IngressDetails?
    ensures var d := ingress.details;
            MutationVerdict(x, s, ingress, control).state == APPLICABLE
            <==> if s == SG05
                 then d.ingressKind == Webhook && d.httpMethod == "POST"
                      && exists n :: CapturedMutation(x, d.route, control, n)
                 else d.hasCheckoutBinding && exists n :: ProtectedMutation(x, d.route, n)
  {
    hide CapturedPathMutations, CheckoutMutations, CapturedMutation, ProtectedMutation;
    MutationsIff(x, ingress, control);
  }

  /** Both policies are confirmed and current, value waits for capture, and the route's payment states are
      known and fully covered. */
  ghost predicate LateMatrixSelected(x: Context, p: PolicyAssessment, c: Control) {
    && PolicyIsCurrent(p) && p.late.confirmed.Some? && p.late.current == Some(true)
    && p.fulfilment.confirmed == Some(CAPTURE_REQUIRED)
    && StatesKnown(x, c)
    && !CoverageReduced(x, c.route)
  }

  /** The late-payment assertions: "no value before capture" applies exactly when the matrix is selected;
      "value once after capture" when moreover the merchant fulfils later and captured evidence exists; and
      the policy-outcome assertion never applies, it only says what is missing. */
  lemma LateAssertionsIff(x: Context, p: PolicyAssessment, c: Control)
    requires ValidGraph(x.graph)
    ensures var v := LateVerdicts(x, p, c);
            && ((exists i :: 0 <= i < |v| && v[i].0 == SG08_PRECAPTURE && v[i].1.state == APPLICABLE)
                <==> LateMatrixSelected(x, p, c))
            && ((exists i :: 0 <= i < |v| && v[i].0 == SG08_CAPTURE && v[i].1.state == APPLICABLE)
                <==> LateMatrixSelected(x, p, c) && p.late.confirmed == Some(FULFIL_LATER)
                     && FromPostWebhook(x, c) && ReleasesOnCapture(x, c))
            && (forall i :: 0 <= i < |v| && v[i].0 == SG08_VALUE ==> v[i].1.state != APPLICABLE)
  {
    hide CapturedEvidence, ReleasesOnCapture, CoverageReduced, FromPostWebhook, ValidGraph, RoutePaymentStates,
      RelevantDiagnostics, StatesKnown, AuthorizedNamed;
    CapturedEvidenceIff(x, c);
    DiagnosticsAreRelevant(x, c.route);
    RouteStatesIff(x, c);
    var v := LateVerdicts(x, p, c);
    assert v == [v[0]] || v == [v[0], v[1]];
  }
}
