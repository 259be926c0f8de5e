/** Every piece of evidence an assertion cites is a node or an edge of the graph or one of the controls,
    so a later projection of the evidence never meets a kind it cannot place. */
module ApplicabilityEvidence {
  import opened Foundations
  import opened PaymentGraph
  import opened ApplicabilityContracts
  import opened ApplicabilityEngine
  import opened ApplicabilityCatalog

  ghost predicate Exists(x: Context, controls: seq<Control>, v: Evidence) {
    match v.kind
    case GRAPH_NODE => exists n :: n in x.graph.nodes && n.id == v.reference
    case GRAPH_EDGE => exists e :: e in x.graph.edges && e.id == v.reference
    case NORMAL_CONTROL => KnownControl(controls, v.reference)
    case _ => false
  }

  ghost predicate AllExist(x: Context, controls: seq<Control>, evidence: seq<Evidence>) {
    forall v :: v in evidence ==> Exists(x, controls, v)
  }

  lemma {:induction false} CitedEdgesExist(x: Context, controls: seq<Control>, edges: seq<Edge>)
    requires ValidGraph(x.graph) && forall e :: e in edges ==> e in x.graph.edges
    ensures AllExist(x, controls, CitedEdges(edges))
  {
    if edges != [] {
      assert edges[0] in x.graph.edges && At(x, edges[0].source).Some?;
      CitedEdgesExist(x, controls, edges[1..]);
    }
  }

  lemma {:induction false} CitedNodesExist(x: Context, controls: seq<Control>, nodes: seq<Node>)
    requires forall n :: n in nodes ==> n in x.graph.nodes
    ensures AllExist(x, controls, CitedNodes(nodes))
  {
    if nodes != [] {
      assert nodes[0] in nodes;
      CitedNodesExist(x, controls, nodes[1..]);
    }
  }

  lemma {:induction false} CitedControlsExist(x: Context, controls: seq<Control>, cited: seq<Control>)
    requires forall c :: c in cited ==> c in controls
    ensures AllExist(x, controls, CitedControls(cited))
  {
    if cited != [] {
      assert cited[0] in cited;
      CitedControlsExist(x, controls, cited[1..]);
    }
  }

  lemma FilterWithin<T>(keep: T -> bool, s: seq<T>)
    ensures forall v :: v in Filter(keep, s) ==> v in s
  {
    forall v | v in Filter(keep, s)
      ensures v in s
    {
      FilterMember(keep, s, v);
    }
  }

  lemma CapturedEvidenceExists(x: Context, controls: seq<Control>, c: Control)
    requires ValidGraph(x.graph) && c in controls
    ensures CapturedEvidence(x, c).Some? ==> AllExist(x, controls, CapturedEvidence(x, c).value)
  {
    FilterWithin((e: Edge) => CapturedBranch(x, c, e), x.graph.edges);
    CitedEdgesExist(x, controls, CapturedEdges(x, c));
  }

  lemma ValueEvidenceExists(x: Context, p: PolicyAssessment, controls: seq<Control>, s: ScenarioId, c: Control)
    requires ValidGraph(x.graph) && c in controls
    ensures AllExist(x, controls, ValueVerdict(x, p, controls, s, c).reason.evidence)
  {
    hide CapturedEvidence, AckEdges, LinkedCheckouts, CitedEdges, CitedControls;
    CapturedEvidenceExists(x, controls, c);
    AckEvidenceExists(x, controls, c);
    LinkedEvidenceExists(x, controls, c);
  }

  lemma AckEvidenceExists(x: Context, controls: seq<Control>, c: Control)
    requires ValidGraph(x.graph)
    ensures AllExist(x, controls, CitedEdges(AckEdges(x, c)))
  {
    FilterWithin((e: Edge) => AckEdge(x, c, e), x.graph.edges);
    CitedEdgesExist(x, controls, AckEdges(x, c));
  }

  lemma LinkedEvidenceExists(x: Context, controls: seq<Control>, c: Control)
    ensures AllExist(x, controls, CitedControls(LinkedCheckouts(controls, c)))
  {
    FilterWithin((o: Control) => o.ingressKind == CheckoutCallback && o.valueNode == c.valueNode
                                 && o.valueSymbol == c.valueSymbol, controls);
    CitedControlsExist(x, controls, LinkedCheckouts(controls, c));
  }

  lemma SortedNodesExist(x: Context, controls: seq<Control>, keep: Node -> bool)
    ensures AllExist(x, controls, CitedNodes(SortNodes(x, Filter(keep, x.graph.nodes))))
  {
    var le := (a: Node, b: Node) => StringLe(x.nodeText(a), x.nodeText(b));
    FilterWithin(keep, x.graph.nodes);
    SortPermutes(le, Filter(keep, x.graph.nodes));
    PermutationMembers(Sort(le, Filter(keep, x.graph.nodes)), Filter(keep, x.graph.nodes));
    CitedNodesExist(x, controls, SortNodes(x, Filter(keep, x.graph.nodes)));
  }

  lemma RegressionEvidenceExists(x: Context, controls: seq<Control>, c: Control)
    ensures AllExist(x, controls, RegressionVerdict(x, c).reason.evidence)
  {
    SortedNodesExist(x, controls, (n: Node) => OnRegressingCarrier(x, c.route, n));
  }

  lemma MutationEvidenceExists(x: Context, controls: seq<Control>, s: ScenarioId, n: Node, c: Option<Control>)
    ensures AllExist(x, controls, MutationVerdict(x, s, n, c).reason.evidence)
  {
    if n.details.IngressDetails? {
      var route := n.details.route;
      SortedNodesExist(x, controls, (m: Node) => BelowCapture(x, n.details.route, c, m));
      SortedNodesExist(x, controls, (m: Node) => m.details.MutationDetails? && m.details.route == route
                                                 && (Guarded(x, route, m.id) || m.details.written.Some?));
    }
    assert CitedNodes([]) == [];
  }

  lemma LateEvidenceExists(x: Context, p: PolicyAssessment, controls: seq<Control>, c: Control)
    requires ValidGraph(x.graph) && c in controls
    ensures forall k :: 0 <= k < |LateVerdicts(x, p, c)| ==>
              AllExist(x, controls, LateVerdicts(x, p, c)[k].1.reason.evidence)
  {
    hide CapturedEvidence, RoutePaymentStates, RelevantDiagnostics;
    CapturedEvidenceExists(x, controls, c);
  }

  lemma TrustEvidenceExists(x: Context, controls: seq<Control>, s: ScenarioId, n: Node, c: Option<Control>)
    requires ValidGraph(x.graph) && (c.Some? ==> c.value in controls)
    ensures AllExist(x, controls, TrustValueVerdict(x, s, n, c).reason.evidence)
  {
    hide CapturedEvidence;
    if c.Some? {
      CapturedEvidenceExists(x, controls, c.value);
    }
  }

  lemma AssertionEvidenceExists(x: Context, p: PolicyAssessment, controls: seq<Control>, s: ScenarioId, t: Subject)
    requires ValidGraph(x.graph) && GoodSubject(x, controls, t)
    ensures forall a, r :: a in Assertions(x, p, controls, s, t) && r in a.reasons ==> AllExist(x, controls, r.evidence)
  {
    hide ValueVerdict, RegressionVerdict, MutationVerdict, TrustValueVerdict, LateVerdicts, AllExist, ValidGraph,
      CatalogVerdict;
    match t
    case Catalog =>
      CatalogEvidenceIsEmpty(x, controls, s);
    case ForIngress(n, c) =>
      MutationEvidenceExists(x, controls, s, n, c);
      TrustEvidenceExists(x, controls, s, n, c);
    case ForControl(c) =>
      ValueEvidenceExists(x, p, controls, s, c);
      RegressionEvidenceExists(x, controls, c);
      LateEvidenceExists(x, p, controls, c);
  }

  lemma CatalogEvidenceIsEmpty(x: Context, controls: seq<Control>, s: ScenarioId)
    ensures AllExist(x, controls, CatalogVerdict(x, controls, s).reason.evidence)
  {
  }

  /** Nothing the evaluation cites is dangling or of another kind. */
  lemma CitedEvidenceExists(x: Context, p: PolicyAssessment, controls: seq<Control>, s: ScenarioId, i: Instance,
                            a: Assertion, r: Reason)
    requires ValidGraph(x.graph) && NoDuplicates(controls)
    ensures i in ScenarioFor(x, p, controls, s).instances && a in i.assertions && r in a.reasons ==>
              AllExist(x, controls, r.evidence)
  {
    hide Subjects, Assertions, AllExist, ValidGraph, GoodSubject;
    if i in ScenarioFor(x, p, controls, s).instances && a in i.assertions && r in a.reasons {
      var instances := ScenarioFor(x, p, controls, s).instances;
      var k :| 0 <= k < |instances| && instances[k] == i;
      var t := Subjects(x, controls, s)[k];
      InstanceIdentity(x, p, controls, s, t);
      SubjectsAreGood(x, controls, s);
      assert t in Subjects(x, controls, s);
      AssertionEvidenceExists(x, p, controls, s, t);
    }
  }
}
