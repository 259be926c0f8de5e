/** Building the catalogue, and why what is built always passes the record contracts: the eight
    scenarios are all there, nonempty, uniquely identified, and consistent with their controls. */
module ApplicabilityCatalog {
  import opened Foundations
  import opened Identity
  import opened PaymentGraph
  import opened ApplicabilityContracts
  import opened ApplicabilityEngine

  // ------------------------------------------------------------ construction

  /** One instance per webhook control the scenario serves, and whether any was skipped. */
  method ControlInstances(x: Context, p: PolicyAssessment, controls: seq<Control>, s: ScenarioId,
                          webhooks: seq<Control>)
    returns (instances: seq<Instance>, skipped: bool)
    ensures instances == InstancesFor(x, p, controls, s, ControlSubjects(Served(x, s, webhooks)))
    ensures skipped ==> s == SG08 && webhooks != []
    ensures instances == [] && webhooks != [] ==> skipped
  {
    hide InstanceFor, InstancesFor, Served, LateUnsupported, ControlSubjects;
    instances, skipped := [], false;
    NoInstances(x, p, controls, s);
    ServedOfNone(x, s);
    for k := 0 to |webhooks|
      invariant instances == InstancesFor(x, p, controls, s, ControlSubjects(Served(x, s, webhooks[..k])))
      invariant skipped ==> s == SG08 && k > 0
      invariant instances == [] && k > 0 ==> skipped
    {
      var control := webhooks[k];
      ServedGrows(x, s, webhooks, k);
      if s == SG08 && LateUnsupported(x, control) {
        skipped := true;
        continue;
      }
      InstancesAppend(x, p, controls, s, ControlSubjects(Served(x, s, webhooks[..k])), ForControl(control));
      ControlSubjectsAppend(Served(x, s, webhooks[..k]), control);
      instances := instances + [InstanceFor(x, p, controls, s, ForControl(control))];
    }
    assert webhooks[..|webhooks|] == webhooks;
  }

  method ControlScenario(x: Context, p: PolicyAssessment, controls: seq<Control>, s: ScenarioId) returns (r: Scenario)
    requires s != SG05 && s != SG06
    ensures r == ScenarioFor(x, p, controls, s)
  {
    hide InstanceFor, InstancesFor, InstanceOf, Served, ControlSubjects, RollUp, Fallback, Assert, ScenarioFor;
    var webhooks := WebhookControls(controls);
    var checkouts, ingresses := IngressesOf(x, CheckoutCallback), IngressesOf(x, Webhook);
    var instances: seq<Instance>, skipped := [], false;
    CatalogInstances(x, p, controls, s);
    SameSize(x, p, controls, s, OwnSubjects(x, controls, s));
    if s != SG07 || checkouts != [] {
      instances, skipped := ControlInstances(x, p, controls, s, webhooks);
    }
    if instances == [] {
      var verdict;
      if s == SG07 && (checkouts == [] || webhooks != []) {
        verdict := Because(NOT_APPLICABLE, CHECKOUT_SURFACE_REQUIRED, []);
      } else if skipped && webhooks != [] {
        verdict := Because(NOT_APPLICABLE, LATE_SEQUENCE_NOT_SUPPORTED, []);
      } else {
        verdict := Fallback(x, if s == SG01 then IngressNodes(x) else ingresses);
      }
      instances := [InstanceOf(x, s, Catalog, [Assert(x, s, Catalog, ValueKey(s), CORE, verdict, None)])];
    }
    r := Rolled(x, p, controls, s, instances);
  }

  lemma ServedOfNone(x: Context, s: ScenarioId)
    ensures Served(x, s, []) == [] && ControlSubjects([]) == []
  {
  }

  lemma InstancesAppend(x: Context, p: PolicyAssessment, controls: seq<Control>, s: ScenarioId, done: seq<Subject>,
                        t: Subject)
    ensures InstancesFor(x, p, controls, s, done + [t])
         == InstancesFor(x, p, controls, s, done) + [InstanceFor(x, p, controls, s, t)]
  {
    hide InstanceFor;
  }

  lemma NoInstances(x: Context, p: PolicyAssessment, controls: seq<Control>, s: ScenarioId)
    ensures InstancesFor(x, p, controls, s, []) == []
  {
  }

  lemma InstancesConcat(x: Context, p: PolicyAssessment, controls: seq<Control>, s: ScenarioId,
                        a: seq<Subject>, b: seq<Subject>)
    ensures InstancesFor(x, p, controls, s, a + b)
         == InstancesFor(x, p, controls, s, a) + InstancesFor(x, p, controls, s, b)
  {
    hide InstanceFor;
  }

  /** Of nothing there are no instances; a lone subject has one. */
  lemma CatalogInstances(x: Context, p: PolicyAssessment, controls: seq<Control>, s: ScenarioId)
    ensures InstancesFor(x, p, controls, s, []) == []
    ensures CatalogAssertions(x, controls, s) == Assertions(x, p, controls, s, Catalog)
    ensures RollUp(CatalogAssertions(x, controls, s)).Some?
    ensures InstancesFor(x, p, controls, s, [Catalog]) == [InstanceOf(x, s, Catalog, CatalogAssertions(x, controls, s))]
  {
    hide ValidInstance;
    var assertions := CatalogAssertions(x, controls, s);
    assert assertions[0] in assertions;
  }

  function CatalogAssertions(x: Context, controls: seq<Control>, s: ScenarioId): seq<Assertion> {
    [Assert(x, s, Catalog, ValueKey(s), CORE, CatalogVerdict(x, controls, s), None)]
  }

  lemma ServedGrows(x: Context, s: ScenarioId, webhooks: seq<Control>, k: nat)
    requires k < |webhooks|
    ensures Served(x, s, webhooks[..k + 1])
         == if s == SG08 && LateUnsupported(x, webhooks[k]) then Served(x, s, webhooks[..k])
            else Served(x, s, webhooks[..k]) + [webhooks[k]]
  {
    assert webhooks[..k + 1] == webhooks[..k] + [webhooks[k]];
    FilterAppend((c: Control) => !LateUnsupported(x, c), webhooks[..k], [webhooks[k]]);
  }

  function Rolled(x: Context, p: PolicyAssessment, controls: seq<Control>, s: ScenarioId, instances: seq<Instance>)
    : (r: Scenario)
    requires instances == InstancesFor(x, p, controls, s, Subjects(x, controls, s))
    ensures r == ScenarioFor(x, p, controls, s)
  {
    InstancesRollUp(x, p, controls, s, Subjects(x, controls, s));
    Scenario(s, RollUp(Flatten(instances)).value, instances)
  }

  lemma ControlSubjectsAppend(controls: seq<Control>, c: Control)
    ensures ControlSubjects(controls + [c]) == ControlSubjects(controls) + [ForControl(c)]
  {
    assert (controls + [c])[..|controls|] == controls;
  }

  lemma MatchedSubjectsAppend(ingress: Node, controls: seq<Control>, c: Control)
    ensures MatchedSubjects(ingress, controls + [c])
         == MatchedSubjects(ingress, controls) + [ForIngress(ingress, Some(c))]
  {
    assert (controls + [c])[..|controls|] == controls;
  }

  lemma TrustSubjectsAppend(controls: seq<Control>, ingresses: seq<Node>, n: Node)
    ensures TrustSubjects(controls, ingresses + [n])
         == TrustSubjects(controls, ingresses) + IngressSubjects(controls, n)
  {
    hide IngressSubjects;
    assert (ingresses + [n])[..|ingresses|] == ingresses;
  }

  /** One trust instance per control of the ingress, or one without a control. */
  method IngressInstances(x: Context, p: PolicyAssessment, controls: seq<Control>, s: ScenarioId, ingress: Node)
    returns (instances: seq<Instance>)
    ensures instances == InstancesFor(x, p, controls, s, IngressSubjects(controls, ingress))
  {
    hide InstanceFor, InstancesFor, Matching, MatchedSubjects, ValidInstance;
    var matched := Matching(controls, ingress);
    NoInstances(x, p, controls, s);
    if matched == [] {
      InstancesAppend(x, p, controls, s, [], ForIngress(ingress, None));
      assert [] + [ForIngress(ingress, None)] == IngressSubjects(controls, ingress);
      return [InstanceFor(x, p, controls, s, ForIngress(ingress, None))];
    }
    instances := [];
    MatchedOfNone(controls);
    for m := 0 to |matched|
      invariant instances == InstancesFor(x, p, controls, s, MatchedSubjects(ingress, matched[..m]))
    {
      assert matched[..m + 1] == matched[..m] + [matched[m]];
      MatchedSubjectsAppend(ingress, matched[..m], matched[m]);
      InstancesAppend(x, p, controls, s, MatchedSubjects(ingress, matched[..m]), ForIngress(ingress, Some(matched[m])));
      instances := instances + [InstanceFor(x, p, controls, s, ForIngress(ingress, Some(matched[m])))];
    }
    assert matched[..|matched|] == matched;
  }

  lemma MatchedOfNone(controls: seq<Control>)
    ensures forall ingress :: MatchedSubjects(ingress, []) == []
    ensures TrustSubjects(controls, []) == []
  {
  }

  /** The instances of all the given ingresses. */
  method TrustInstances(x: Context, p: PolicyAssessment, controls: seq<Control>, s: ScenarioId, ingresses: seq<Node>)
    returns (instances: seq<Instance>)
    ensures instances == InstancesFor(x, p, controls, s, TrustSubjects(controls, ingresses))
  {
    hide InstanceFor, InstancesFor, IngressSubjects, TrustSubjects, ValidInstance;
    instances := [];
    NoInstances(x, p, controls, s);
    MatchedOfNone(controls);
    for k := 0 to |ingresses|
      invariant instances == InstancesFor(x, p, controls, s, TrustSubjects(controls, ingresses[..k]))
    {
      assert ingresses[..k + 1] == ingresses[..k] + [ingresses[k]];
      TrustSubjectsAppend(controls, ingresses[..k], ingresses[k]);
      InstancesConcat(x, p, controls, s, TrustSubjects(controls, ingresses[..k]),
                      IngressSubjects(controls, ingresses[k]));
      var more := IngressInstances(x, p, controls, s, ingresses[k]);
      instances := instances + more;
    }
    assert ingresses[..|ingresses|] == ingresses;
  }

  method TrustScenario(x: Context, p: PolicyAssessment, controls: seq<Control>, s: ScenarioId) returns (r: Scenario)
    requires s == SG05 || s == SG06
    ensures r == ScenarioFor(x, p, controls, s)
  {
    hide InstanceFor, InstancesFor, InstanceOf, RollUp, Fallback, Assert, ScenarioFor, IngressSubjects, TrustSubjects,
      IngressesOf, ValidInstance, Flatten;
    var ingresses := IngressesOf(x, if s == SG05 then Webhook else CheckoutCallback);
    var instances := TrustInstances(x, p, controls, s, ingresses);
    CatalogInstances(x, p, controls, s);
    SameSize(x, p, controls, s, TrustSubjects(controls, ingresses));
    if instances == [] {
      var verdict := Fallback(x, ingresses);
      instances := [InstanceOf(x, s, Catalog, [Assert(x, s, Catalog, ValueKey(s), CORE, verdict, None)])];
    }
    r := Rolled(x, p, controls, s, instances);
  }

  lemma SameSize(x: Context, p: PolicyAssessment, controls: seq<Control>, s: ScenarioId, subjects: seq<Subject>)
    ensures |InstancesFor(x, p, controls, s, subjects)| == |subjects|
  {
  }

  function ScenariosFor(x: Context, p: PolicyAssessment, controls: seq<Control>): seq<Scenario> {
    seq(8, k requires 0 <= k < 8 => ScenarioFor(x, p, controls, CATALOG[k]))
  }

  method CatalogScenarios(x: Context, p: PolicyAssessment, controls: seq<Control>) returns (scenarios: seq<Scenario>)
    ensures |scenarios| == 8
    ensures forall k :: 0 <= k < 8 ==> scenarios[k] == ScenarioFor(x, p, controls, CATALOG[k])
  {
    hide ScenarioFor, InstancesFor, InstanceFor, Subjects, RollUp, Flatten, ValidInstance;
    scenarios := [];
    for k := 0 to 8
      invariant |scenarios| == k
      invariant forall j :: 0 <= j < k ==> scenarios[j] == ScenarioFor(x, p, controls, CATALOG[j])
    {
      var s := CATALOG[k];
      var scenario;
      if s == SG05 || s == SG06 {
        scenario := TrustScenario(x, p, controls, s);
      } else {
        scenario := ControlScenario(x, p, controls, s);
      }
      scenarios := scenarios + [scenario];
    }
  }

  method EvaluateApplicability(x: Context)
    returns (policy: PolicyAssessment, controls: seq<Control>, scenarios: seq<Scenario>)
    requires Ready(x)
    ensures controls == Controls(x) && policy == AssessPolicy(x, controls)
    ensures scenarios == ScenariosFor(x, policy, controls)
    ensures ValidArtifact(policy, controls, scenarios)
  {
    hide ScenarioFor, Controls, AssessPolicy, ValidArtifact, GoodControls;
    controls := NormalControls(x);
    policy := AssessPolicy(x, controls);
    scenarios := CatalogScenarios(x, policy, controls);
    assert scenarios == ScenariosFor(x, policy, controls);
    ControlsAreGood(x);
    EvaluationIsValid(x, policy, controls);
  }

  // ------------------------------------------------------------ controls

  lemma ConnectedPartsAreFree(x: Context, e: Edge)
    requires Ready(x) && Connects(x, e) && e in x.graph.edges
    ensures Free(UNIT_SEPARATOR, [e.source, At(x, e.source).value.details.route, e.target,
                                  x.resolution.value.selected.value, e.id])
  {
    EndpointsAreIds(x, e);
    IdIsSeparatorFree("sgnode", e.source);
    IdIsSeparatorFree("sgroute", At(x, e.source).value.details.route);
    IdIsSeparatorFree("sgnode", e.target);
    IdIsSeparatorFree("sgsym", x.resolution.value.selected.value);
    IdIsSeparatorFree("sgedge", e.id);
  }

  /** One control per connectivity edge: equal control identities come from the same edge. */
  lemma ControlIdNamesTheEdge(x: Context, e: Edge, f: Edge)
    requires Ready(x) && e in x.graph.edges && f in x.graph.edges && Connects(x, e) && Connects(x, f)
    requires ControlId(x, e) == ControlId(x, f)
    ensures e == f
  {
    var selected := x.resolution.value.selected.value;
    var p := [e.source, At(x, e.source).value.details.route, e.target, selected, e.id];
    var q := [f.source, At(x, f.source).value.details.route, f.target, selected, f.id];
    ConnectedPartsAreFree(x, e);
    ConnectedPartsAreFree(x, f);
    var xs := p + CallPath(e.provenance) + [x.fingerprint.value];
    var ys := q + CallPath(f.provenance) + [x.fingerprint.value];
    assert xs[..5] == p && ys[..5] == q;
    StableIdPrefixInjective(x.digest, "sgcontrol", xs, ys, 5);
    assert p[4] == q[4];
  }

  lemma {:induction false} ControlsOnExact(x: Context, edges: seq<Edge>, c: Control)
    ensures c in ControlsOn(x, edges) <==> exists e :: e in edges && Connects(x, e) && c == ControlOn(x, e)
  {
    if edges != [] {
      var n := |edges| - 1;
      assert edges == edges[..n] + [edges[n]];
      ControlsOnExact(x, edges[..n], c);
    }
  }

  lemma ControlsExact(x: Context, c: Control)
    ensures c in Controls(x) <==> exists e :: e in x.graph.edges && Connects(x, e) && c == ControlOn(x, e)
  {
    SortPermutes(ControlOrder(x), ControlsOn(x, x.graph.edges));
    PermutationMembers(Controls(x), ControlsOn(x, x.graph.edges));
    ControlsOnExact(x, x.graph.edges, c);
  }

  lemma {:induction false} ControlsOnDistinct(x: Context, edges: seq<Edge>)
    requires Ready(x) && NoDuplicates(edges) && forall e :: e in edges ==> e in x.graph.edges
    ensures NoDuplicates(ControlsOn(x, edges))
  {
    if edges != [] {
      var n := |edges| - 1;
      var last := edges[n];
      ControlsOnDistinct(x, edges[..n]);
      if Connects(x, last) && ControlOn(x, last) in ControlsOn(x, edges[..n]) {
        ControlsOnExact(x, edges[..n], ControlOn(x, last));
        var e :| e in edges[..n] && Connects(x, e) && ControlOn(x, last) == ControlOn(x, e);
        ControlIdNamesTheEdge(x, e, last);
        assert false;
      }
    }
  }

  /** Identities tell controls apart, and so do connectivity edges. */
  ghost predicate ControlsTellApart(controls: seq<Control>) {
    && NoDuplicates(controls)
    && (forall c, d :: c in controls && d in controls && c.id == d.id ==> c == d)
    && (forall c, d :: c in controls && d in controls && c.edge == d.edge ==> c == d)
  }

  /** What an evaluation relies on about one control: its identities are of the right kinds, and its
      ingress is the ingress node it names, with that kind and route. */
  ghost predicate GoodControl(x: Context, c: Control) {
    && IsId("sgcontrol", c.id) && IsId("sgedge", c.edge) && IsId("sgnode", c.ingress) && IsId("sgroute", c.route)
    && IsId("sgnode", c.valueNode) && IsId("sgsym", c.valueSymbol) && c.callPath != []
    && At(x, c.ingress).Some? && At(x, c.ingress).value.details.IngressDetails?
    && At(x, c.ingress).value.details.ingressKind == c.ingressKind && At(x, c.ingress).value.details.route == c.route
  }

  ghost predicate GoodControls(x: Context, controls: seq<Control>) {
    ControlsTellApart(controls) && forall c :: c in controls ==> GoodControl(x, c)
  }

  lemma ControlEdge(x: Context, c: Control) returns (e: Edge)
    requires Ready(x) && c in Controls(x)
    ensures e in x.graph.edges && Connects(x, e) && c == ControlOn(x, e)
    ensures c.id == ControlId(x, e) && c.edge == e.id && GoodControl(x, c)
  {
    hide ValidNode, Controls, IsId;
    ControlsExact(x, c);
    e :| e in x.graph.edges && Connects(x, e) && c == ControlOn(x, e);
    StableIdIsId(x.digest, "sgcontrol", [e.source, At(x, e.source).value.details.route, e.target,
                                         x.resolution.value.selected.value, e.id]
                                        + CallPath(e.provenance) + [x.fingerprint.value]);
    EndpointsAreIds(x, e);
  }

  lemma EndpointsAreIds(x: Context, e: Edge)
    requires Ready(x) && Connects(x, e) && e in x.graph.edges
    ensures IsId("sgnode", e.source) && IsId("sgroute", At(x, e.source).value.details.route) && IsId("sgnode", e.target)
    ensures IsId("sgsym", x.resolution.value.selected.value) && IsId("sgedge", e.id)
  {
    hide IsId;
    assert ValidNode(At(x, e.source).value) && ValidNode(At(x, e.target).value);
  }

  /** The engine's controls are good: one per connectivity edge, told apart by identity. */
  lemma ControlsAreGood(x: Context)
    requires Ready(x)
    ensures GoodControls(x, Controls(x))
  {
    hide ValidNode, Controls, ControlOn, ControlId, Connects, IsId, GoodDigest, GoodControl;
    var controls := Controls(x);
    ControlsHaveNoDuplicates(x);
    forall c | c in controls
      ensures GoodControl(x, c)
    {
      var e := ControlEdge(x, c);
    }
    forall c, d | c in controls && d in controls && (c.id == d.id || c.edge == d.edge)
      ensures c == d
    {
      var e := ControlEdge(x, c);
      var f := ControlEdge(x, d);
      if c.id == d.id {
        ControlIdNamesTheEdge(x, e, f);
      } else {
        assert e.id == f.id;
      }
    }
  }

  lemma ControlsHaveNoDuplicates(x: Context)
    requires Ready(x)
    ensures NoDuplicates(Controls(x))
  {
    ControlsOnDistinct(x, x.graph.edges);
    SortPermutes(ControlOrder(x), ControlsOn(x, x.graph.edges));
    PermutationNoDuplicates(ControlsOn(x, x.graph.edges), Controls(x));
  }

  // ------------------------------------------------------------ subjects

  ghost predicate GoodSubject(x: Context, controls: seq<Control>, subject: Subject) {
    && (ControlOf(subject).Some? ==> ControlOf(subject).value in controls)
    && (subject.ForIngress? ==> subject.ingress in x.graph.nodes && subject.ingress.details.IngressDetails?)
    && (subject.ForIngress? && subject.matched.Some? ==> subject.matched.value.ingress == subject.ingress.id)
  }

  lemma {:induction false} ControlSubjectsExact(controls: seq<Control>)
    ensures |ControlSubjects(controls)| == |controls|
    ensures forall k :: 0 <= k < |controls| ==> ControlSubjects(controls)[k] == ForControl(controls[k])
  {
    if controls != [] {
      ControlSubjectsExact(controls[..|controls| - 1]);
    }
  }

  lemma {:induction false} MatchedSubjectsExact(ingress: Node, controls: seq<Control>)
    ensures |MatchedSubjects(ingress, controls)| == |controls|
    ensures forall k :: 0 <= k < |controls| ==>
              MatchedSubjects(ingress, controls)[k] == ForIngress(ingress, Some(controls[k]))
  {
    if controls != [] {
      MatchedSubjectsExact(ingress, controls[..|controls| - 1]);
    }
  }

  lemma IngressSubjectsAreGood(x: Context, controls: seq<Control>, ingress: Node)
    requires NoDuplicates(controls) && ingress in x.graph.nodes && ingress.details.IngressDetails?
    ensures NoDuplicates(IngressSubjects(controls, ingress))
    ensures forall t :: t in IngressSubjects(controls, ingress) ==>
              GoodSubject(x, controls, t) && t.ForIngress? && t.ingress == ingress
    ensures (exists t :: t in IngressSubjects(controls, ingress) && t.matched.None?)
            ==> |IngressSubjects(controls, ingress)| == 1
  {
    var keep := (c: Control) => c.ingress == ingress.id;
    var matched := Matching(controls, ingress);
    FilterNoDuplicates(keep, controls);
    MatchedSubjectsExact(ingress, matched);
    forall k | 0 <= k < |matched|
      ensures matched[k] in controls && matched[k].ingress == ingress.id
    {
      FilterMember(keep, controls, matched[k]);
    }
  }

  lemma {:induction false} TrustSubjectsAreGood(x: Context, controls: seq<Control>, ingresses: seq<Node>)
    requires NoDuplicates(controls) && NoDuplicates(ingresses)
    requires forall n :: n in ingresses ==> n in x.graph.nodes && n.details.IngressDetails?
    ensures NoDuplicates(TrustSubjects(controls, ingresses))
    ensures forall t :: t in TrustSubjects(controls, ingresses) ==>
              GoodSubject(x, controls, t) && t.ForIngress? && t.ingress in ingresses
  {
    if ingresses != [] {
      var n := |ingresses| - 1;
      assert ingresses == ingresses[..n] + [ingresses[n]];
      TrustSubjectsAreGood(x, controls, ingresses[..n]);
      IngressSubjectsAreGood(x, controls, ingresses[n]);
      NoDuplicatesAppend(TrustSubjects(controls, ingresses[..n]), IngressSubjects(controls, ingresses[n]));
    }
  }

  lemma IngressesAreGood(x: Context, kind: IngressKind)
    requires ValidGraph(x.graph)
    ensures NoDuplicates(IngressesOf(x, kind))
    ensures forall n :: n in IngressesOf(x, kind) ==>
              n in x.graph.nodes && n.details.IngressDetails? && n.details.ingressKind == kind
  {
    var keep := (n: Node) => n.details.IngressDetails? && n.details.ingressKind == kind;
    FilterNoDuplicates(keep, x.graph.nodes);
    forall n | n in IngressesOf(x, kind)
      ensures n in x.graph.nodes && n.details.IngressDetails? && n.details.ingressKind == kind
    {
      FilterMember(keep, x.graph.nodes, n);
    }
  }

  lemma ServedIsGood(x: Context, s: ScenarioId, controls: seq<Control>)
    requires NoDuplicates(controls)
    ensures NoDuplicates(Served(x, s, WebhookControls(controls)))
    ensures forall c :: c in Served(x, s, WebhookControls(controls)) <==>
              c in controls && c.ingressKind == Webhook && (s == SG08 ==> !LateUnsupported(x, c))
  {
    var webhook, supported := (c: Control) => c.ingressKind == Webhook, (c: Control) => !LateUnsupported(x, c);
    FilterNoDuplicates(webhook, controls);
    FilterNoDuplicates(supported, WebhookControls(controls));
    forall c
      ensures c in Served(x, s, WebhookControls(controls)) <==>
              c in controls && c.ingressKind == Webhook && (s == SG08 ==> !LateUnsupported(x, c))
    {
      FilterMember(webhook, controls, c);
      FilterMember(supported, WebhookControls(controls), c);
    }
  }

  /** Which form a scenario's subjects take. */
  ghost predicate ShapeFits(s: ScenarioId, subject: Subject) {
    subject.Catalog? || (subject.ForIngress? <==> s == SG05 || s == SG06)
  }

  lemma ControlSubjectsAreGood(x: Context, controls: seq<Control>, served: seq<Control>)
    requires NoDuplicates(served) && forall c :: c in served ==> c in controls
    ensures NoDuplicates(ControlSubjects(served))
    ensures forall t :: t in ControlSubjects(served) ==> t.ForControl? && t.control in controls
  {
    ControlSubjectsExact(served);
  }

  /** What is proved of a scenario's subjects. */
  ghost predicate GoodSubjects(x: Context, controls: seq<Control>, s: ScenarioId, r: seq<Subject>) {
    NoDuplicates(r) && forall t :: t in r ==> GoodSubject(x, controls, t) && !t.Catalog? && ShapeFits(s, t)
  }

  lemma OwnSubjectsAreGood(x: Context, controls: seq<Control>, s: ScenarioId)
    requires ValidGraph(x.graph) && NoDuplicates(controls)
    ensures GoodSubjects(x, controls, s, OwnSubjects(x, controls, s))
  {
    hide ValidGraph, IngressesOf, WebhookControls, Served, ControlSubjects, TrustSubjects;
    if s == SG05 {
      IngressesAreGood(x, Webhook);
      TrustSubjectsAreGood(x, controls, IngressesOf(x, Webhook));
    } else if s == SG06 {
      IngressesAreGood(x, CheckoutCallback);
      TrustSubjectsAreGood(x, controls, IngressesOf(x, CheckoutCallback));
    } else {
      ServedIsGood(x, s, controls);
      ControlSubjectsAreGood(x, controls, Served(x, s, WebhookControls(controls)));
    }
  }

  lemma SubjectsAreGood(x: Context, controls: seq<Control>, s: ScenarioId)
    requires ValidGraph(x.graph) && NoDuplicates(controls)
    ensures NoDuplicates(Subjects(x, controls, s))
    ensures forall t :: t in Subjects(x, controls, s) ==> GoodSubject(x, controls, t) && ShapeFits(s, t)
    ensures Catalog in Subjects(x, controls, s) ==> |Subjects(x, controls, s)| == 1
  {
    hide OwnSubjects, ValidGraph;
    OwnSubjectsAreGood(x, controls, s);
  }

  /** A subject of a given shape is read back from its discriminator. */
  lemma DiscriminatorReadsBack(x: Context, controls: seq<Control>, t: Subject, u: Subject)
    requires ValidGraph(x.graph) && GoodControls(x, controls)
    requires GoodSubject(x, controls, t) && GoodSubject(x, controls, u)
    requires (t.ForControl? && u.ForControl?) || (t.ForIngress? && u.ForIngress?)
    requires Discriminator(t) == Discriminator(u)
    ensures t == u
  {
    hide ValidNode, IsId;
    if t.ForIngress? {
      IngressIsNode(x, t.ingress);
      IngressIsNode(x, u.ingress);
      IdKindsDiffer(Discriminator(t));
      assert t.ingress.id == u.ingress.id;
    }
  }

  lemma IngressIsNode(x: Context, n: Node)
    requires ValidGraph(x.graph) && n in x.graph.nodes
    ensures IsId("sgnode", n.id)
  {
    assert ValidNode(n);
  }

  lemma IdKindsDiffer(s: string)
    ensures !(IsId("sgcontrol", s) && IsId("sgnode", s))
  {
    if IsId("sgcontrol", s) {
      assert s[..10][2] == 'c';
    }
    if IsId("sgnode", s) {
      assert s[..7][2] == 'n';
    }
  }

  lemma DiscriminatorIsFree(x: Context, controls: seq<Control>, t: Subject)
    requires ValidGraph(x.graph) && GoodControls(x, controls) && GoodSubject(x, controls, t)
    ensures UNIT_SEPARATOR !in Discriminator(t)
  {
    hide ValidNode, IsId;
    if ControlOf(t).Some? {
      IdIsSeparatorFree("sgcontrol", Discriminator(t));
    } else if t.ForIngress? {
      IngressIsNode(x, t.ingress);
      IdIsSeparatorFree("sgnode", Discriminator(t));
    }
  }

  /** Distinct subjects of a scenario get distinct instance identities. */
  lemma InstanceIdsDiffer(x: Context, controls: seq<Control>, s: ScenarioId, i: nat, j: nat)
    requires Ready(x) && GoodControls(x, controls) && i < j < |Subjects(x, controls, s)|
    ensures InstanceId(x, s, Subjects(x, controls, s)[i]) != InstanceId(x, s, Subjects(x, controls, s)[j])
  {
    hide Subjects, Discriminator, GoodSubject, ValidGraph, GoodControl;
    var t, u := Subjects(x, controls, s)[i], Subjects(x, controls, s)[j];
    SubjectsAreGood(x, controls, s);
    DiscriminatorIsFree(x, controls, t);
    DiscriminatorIsFree(x, controls, u);
    if InstanceId(x, s, t) == InstanceId(x, s, u) {
      var xs, ys := [ScenarioText(s), Discriminator(t)], [ScenarioText(s), Discriminator(u)];
      StableIdInjective(x.digest, "sgscenario", xs, ys);
      assert xs[1] == ys[1];
      DiscriminatorReadsBack(x, controls, t, u);
    }
  }

  // ------------------------------------------------------------ the artifact is valid

  lemma AssertionControls(x: Context, p: PolicyAssessment, controls: seq<Control>, s: ScenarioId, t: Subject)
    ensures forall a :: a in Assertions(x, p, controls, s, t) && a.control.Some? ==>
              ControlOf(t).Some? && a.control.value == ControlOf(t).value.id
    ensures forall a :: a in Assertions(x, p, controls, s, t) ==>
              a.id == AssertionId(x, InstanceId(x, s, t), a.key)
  {
    hide CatalogVerdict, ValueVerdict, RegressionVerdict, MutationVerdict, TrustValueVerdict, LateVerdicts, ValueKey,
      AssertionId, InstanceId;
  }

  lemma InstanceKeepsControlIdentity(x: Context, p: PolicyAssessment, controls: seq<Control>, s: ScenarioId, t: Subject)
    requires ControlsTellApart(controls) && GoodSubject(x, controls, t)
    ensures ControlIdentityKept(controls, InstanceFor(x, p, controls, s, t))
  {
    hide Assertions, RollUp;
    AssertionControls(x, p, controls, s, t);
    var i := InstanceFor(x, p, controls, s, t);
    assert i.assertions == Assertions(x, p, controls, s, t);
    assert ControlOf(t).Some? ==> KnownControl(controls, ControlOf(t).value.id);
  }

  lemma ScenarioIsValid(x: Context, p: PolicyAssessment, controls: seq<Control>, s: ScenarioId)
    requires Ready(x) && GoodControls(x, controls)
    ensures ValidScenario(ScenarioFor(x, p, controls, s))
    ensures forall i :: i in ScenarioFor(x, p, controls, s).instances ==> ControlIdentityKept(controls, i)
  {
    hide InstanceFor, ScenarioFor, Subjects, ValidInstance, RollUp, Flatten, ControlIdentityKept, GoodSubject,
      InstanceId, GoodControl;
    var subjects := Subjects(x, controls, s);
    var r := ScenarioFor(x, p, controls, s);
    ScenarioParts(x, p, controls, s);
    SubjectsAreGood(x, controls, s);
    forall k | 0 <= k < |subjects|
      ensures ControlIdentityKept(controls, r.instances[k]) && r.instances[k].id == InstanceId(x, s, subjects[k])
    {
      InstanceKeepsControlIdentity(x, p, controls, s, subjects[k]);
      InstanceIdentity(x, p, controls, s, subjects[k]);
    }
    forall i, j | 0 <= i < j < |r.instances|
      ensures r.instances[i].id != r.instances[j].id
    {
      InstanceIdsDiffer(x, controls, s, i, j);
    }
  }

  lemma InstanceIdentity(x: Context, p: PolicyAssessment, controls: seq<Control>, s: ScenarioId, t: Subject)
    ensures InstanceFor(x, p, controls, s, t).id == InstanceId(x, s, t)
    ensures InstanceFor(x, p, controls, s, t).assertions == Assertions(x, p, controls, s, t)
  {
    hide Assertions;
  }

  /** Whatever the graph, the resolution and the policy: the evaluation is a valid artifact. */
  lemma EvaluationIsValid(x: Context, p: PolicyAssessment, controls: seq<Control>)
    requires Ready(x) && ValidPolicy(p) && GoodControls(x, controls)
    ensures ValidArtifact(p, controls, ScenariosFor(x, p, controls))
  {
    hide ScenarioFor, ValidScenario, ControlIdentityKept, ValidPolicy;
    var scenarios := ScenariosFor(x, p, controls);
    forall k | 0 <= k < 8
      ensures scenarios[k].id == CATALOG[k] && ValidScenario(scenarios[k])
      ensures forall i :: i in scenarios[k].instances ==> ControlIdentityKept(controls, i)
    {
      ScenarioIsValid(x, p, controls, CATALOG[k]);
      ScenarioParts(x, p, controls, CATALOG[k]);
    }
    forall id: ScenarioId
      ensures Lists(scenarios, id)
    {
      var k := CatalogIndex(id);
      assert scenarios[k] in scenarios && scenarios[k].id == id;
    }
  }

  function CatalogIndex(id: ScenarioId): (k: nat)
    ensures k < 8 && CATALOG[k] == id
  {
    match id
    case SG01 => 0 case SG02 => 1 case SG03 => 2 case SG04 => 3
    case SG05 => 4 case SG06 => 5 case SG07 => 6 case SG08 => 7
  }
}
