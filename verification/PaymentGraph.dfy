/** The payment-safety graph as the applicability engine reads it, with the constraints its own
    contract places on a graph. */
module PaymentGraph {
  import opened Foundations
  import opened Identity

  datatype IngressKind = Webhook | CheckoutCallback

  datatype TrustKind = WebhookSignature | CheckoutSignature | ServerOrderIdentity

  datatype NodeKind =
    | PaymentIngress | TrustGate | EventIdentityGuard | PaymentStateGate | MerchantStateMutation
    | CustomerValueAction | AcknowledgementBoundary

  /** `written` is the payment state a mutation writes, "authorized" or "captured" when known. */
  datatype Details =
    | NoDetails
    | IngressDetails(ingressKind: IngressKind, route: string, httpMethod: string, hasCheckoutBinding: bool)
    | TrustDetails(trust: TrustKind, route: string)
    | EventGuardDetails(route: string)
    | StateGateDetails(route: string, states: seq<string>)
    | MutationDetails(route: string, carrier: string, written: Option<string>)
    | AcknowledgementDetails(route: string, success: bool, hasStatus: bool)

  datatype Node = Node(id: string, kind: NodeKind, symbol: string, details: Details)

  datatype EdgeKind = Calls | Guards | BranchesTo | Mutates | Triggers | AcknowledgesAfter

  datatype Disposition = Matched | NotMatched | DefaultBranch

  datatype Branch = Branch(disposition: Disposition, states: seq<string>)

  /** `provenance` holds the references of the edge's provenance records. */
  datatype Edge = Edge(id: string, source: string, target: string, kind: EdgeKind, branch: Option<Branch>,
                       provenance: seq<string>)

  datatype Diagnostic = Diagnostic(coverageReduced: bool, route: Option<string>, description: string)

  datatype Graph = Graph(nodes: seq<Node>, edges: seq<Edge>, diagnostics: seq<Diagnostic>)

  predicate Partial(g: Graph) {
    exists i :: 0 <= i < |g.diagnostics| && g.diagnostics[i].coverageReduced
  }

  function RouteOf(n: Node): Option<string> {
    if n.details.NoDetails? then None else Some(n.details.route)
  }

  predicate KindMatchesDetails(n: Node) {
    match n.kind
    case PaymentIngress => n.details.IngressDetails?
    case TrustGate => n.details.TrustDetails?
    case EventIdentityGuard => n.details.EventGuardDetails?
    case PaymentStateGate => n.details.StateGateDetails?
    case MerchantStateMutation => n.details.MutationDetails?
    case CustomerValueAction => n.details.NoDetails?
    case AcknowledgementBoundary => n.details.AcknowledgementDetails?
  }

  ghost predicate ValidNode(n: Node) {
    && IsId("sgnode", n.id) && IsId("sgsym", n.symbol) && KindMatchesDetails(n)
    && (RouteOf(n).Some? ==> IsId("sgroute", RouteOf(n).value))
    && (n.details.IngressDetails? && n.details.ingressKind == Webhook ==> !n.details.hasCheckoutBinding)
  }

  ghost predicate ValidGraph(g: Graph) {
    && (forall i, j :: 0 <= i < j < |g.nodes| ==> g.nodes[i].id != g.nodes[j].id)
    && (forall i, j :: 0 <= i < j < |g.edges| ==> g.edges[i].id != g.edges[j].id)
    && (forall n :: n in g.nodes ==> ValidNode(n))
    && (forall e :: e in g.edges ==>
          IsId("sgedge", e.id) && NodeAt(g.nodes, e.source).Some? && NodeAt(g.nodes, e.target).Some?
          && (e.kind.BranchesTo? <==> e.branch.Some?))
  }

  /** `nodes.get(id)` of the dictionary keyed by node identity. */
  function NodeAt(nodes: seq<Node>, id: string): (r: Option<Node>)
    ensures r.Some? ==> r.value in nodes && r.value.id == id
  {
    if nodes == [] then None
    else if nodes[|nodes| - 1].id == id then Some(nodes[|nodes| - 1])
    else NodeAt(nodes[..|nodes| - 1], id)
  }

  /** With unique identities every listed node is found under its own identity. */
  lemma {:induction false} NodeAtFinds(nodes: seq<Node>, n: Node)
    requires forall i, j :: 0 <= i < j < |nodes| ==> nodes[i].id != nodes[j].id
    requires n in nodes
    ensures NodeAt(nodes, n.id) == Some(n)
  {
    var k := |nodes| - 1;
    if nodes[k] != n {
      assert n in nodes[..k];
      NodeAtFinds(nodes[..k], n);
    }
  }

  const PAYMENT_PREFIX := "payment."

  /** `state.removeprefix("payment.")`. */
  function PaymentState(state: string): string {
    if PAYMENT_PREFIX <= state then state[|PAYMENT_PREFIX|..] else state
  }
}
