/** What the design of the applicability rules asks of a payment graph, said on its nodes, edges and diagnostics
    alone. The engine's own tests are shown to be these facts. */
module PaymentFacts {
  import opened Foundations
  import opened PaymentGraph
  import opened ApplicabilityContracts
  import opened ApplicabilityEngine

  // ------------------------------------------------------------ facts

  /** The states name the payment state, with or without the provider's prefix. */
  ghost predicate Names(states: seq<string>, state: string) {
    exists t :: t in states && (t == state || t == "payment." + state)
  }

  predicate StandsOn(g: Graph, id: string, route: string) {
    var n := NodeAt(g.nodes, id);
    n.Some? && !n.value.details.NoDetails? && n.value.details.route == route
  }

  /** Something of the route that bears on coverage was not analysed. */
  ghost predicate CoverageReduced(x: Context, route: string) {
    exists d :: d in x.graph.diagnostics && d.coverageReduced && d.route == Some(route)
  }

  /** A branch taken on the payment state leads from the route to the target. */
  ghost predicate TakenOn(x: Context, route: string, target: string, state: string, e: Edge) {
    && e.kind == BranchesTo && e.target == target
    && e.branch.Some? && e.branch.value.disposition == Matched && Names(e.branch.value.states, state)
    && StandsOn(x.graph, e.source, route)
  }

  ghost predicate FromPostWebhook(x: Context, c: Control) {
    exists n :: n in x.graph.nodes && n.id == c.ingress && n.details.IngressDetails?
                && n.details.ingressKind == Webhook && n.details.httpMethod == "POST"
  }

  ghost predicate ReleasesOnCapture(x: Context, c: Control) {
    exists e :: e in x.graph.edges && TakenOn(x, c.route, c.valueNode, "captured", e)
  }

  /** The value is recorded as happening before a successful acknowledgement of known status on the route. */
  predicate BeforeAck(x: Context, c: Control, e: Edge) {
    && e.kind == AcknowledgesAfter && e.target == c.valueNode
    && var ack := NodeAt(x.graph.nodes, e.source);
       && ack.Some? && ack.value.details.AcknowledgementDetails? && ack.value.details.route == c.route
       && ack.value.details.success && ack.value.details.hasStatus
  }

  ghost predicate OnlyAck(x: Context, c: Control, e: Edge) {
    e in x.graph.edges && BeforeAck(x, c, e) && forall f :: f in x.graph.edges && BeforeAck(x, c, f) ==> f == e
  }

  ghost predicate OneAck(x: Context, c: Control) {
    exists e :: OnlyAck(x, c, e)
  }

  predicate SharesValue(o: Control, c: Control) {
    o.ingressKind == CheckoutCallback && o.valueNode == c.valueNode && o.valueSymbol == c.valueSymbol
  }

  ghost predicate SharesValueWithCheckout(controls: seq<Control>, c: Control) {
    exists o :: o in controls && SharesValue(o, c)
  }

  ghost predicate HasIngress(x: Context, kind: IngressKind) {
    exists n :: n in x.graph.nodes && n.details.IngressDetails? && n.details.ingressKind == kind
  }

  ghost predicate HasWebhookControl(controls: seq<Control>) {
    exists c :: c in controls && c.ingressKind == Webhook
  }

  ghost predicate PartlyAnalysed(x: Context) {
    exists d :: d in x.graph.diagnostics && d.coverageReduced
  }

  predicate ValueResolved(x: Context) {
    x.resolution.Some? && x.resolution.value.unique
  }

  /** A payment-state gate stands on the route and names a state. */
  ghost predicate StatesKnown(x: Context, c: Control) {
    exists n :: n in x.graph.nodes && n.details.StateGateDetails? && n.details.route == c.route
                && n.details.states != []
  }

  ghost predicate AuthorizedNamed(x: Context, c: Control) {
    exists n :: n in x.graph.nodes && n.details.StateGateDetails? && n.details.route == c.route
                && Names(n.details.states, "authorized")
  }

  /** A branch taken on the state of a payment-state gate of the route writes that state through the carrier. */
  ghost predicate BranchWrites(x: Context, route: string, e: Edge, carrier: string, state: string) {
    && e.kind == BranchesTo && e.branch.Some? && e.branch.value.disposition == Matched
    && Names(e.branch.value.states, state)
    && var gate, mutation := NodeAt(x.graph.nodes, e.source), NodeAt(x.graph.nodes, e.target);
       && gate.Some? && gate.value.details.StateGateDetails? && gate.value.details.route == route
       && mutation.Some? && mutation.value.details.MutationDetails? && mutation.value.details.route == route
       && mutation.value.details.carrier == carrier && mutation.value.details.written == Some(state)
  }

  /** Both payment states are written through one carrier. */
  ghost predicate Regresses(x: Context, route: string) {
    exists e, f, carrier :: e in x.graph.edges && f in x.graph.edges
                            && BranchWrites(x, route, e, carrier, "authorized")
                            && BranchWrites(x, route, f, carrier, "captured")
  }

  /** Only captured payments pass the gate: with a control, one of its branches taken on capture starts there;
      without, it is any payment-state gate of the route that names the captured state. */
  ghost predicate PassedOnCapture(x: Context, route: string, control: Option<Control>, id: string) {
    if control.Some? then
      exists e :: e in x.graph.edges && TakenOn(x, control.value.route, control.value.valueNode, "captured", e)
                  && e.source == id
    else
      exists n :: n in x.graph.nodes && n.id == id && n.details.StateGateDetails? && n.details.route == route
                  && Names(n.details.states, "captured")
  }

  /** A mutation of the route that a branch taken on capture reaches from such a gate. */
  ghost predicate CapturedMutation(x: Context, route: string, control: Option<Control>, n: Node) {
    && n in x.graph.nodes && n.details.MutationDetails? && n.details.route == route
    && exists e :: e in x.graph.edges && e.kind == BranchesTo && e.target == n.id && e.branch.Some?
                   && e.branch.value.disposition == Matched && Names(e.branch.value.states, "captured")
                   && PassedOnCapture(x, route, control, e.source)
  }

  /** A mutation of the route that a checkout trust gate of the route guards, or that writes a payment state. */
  ghost predicate ProtectedMutation(x: Context, route: string, n: Node) {
    && n in x.graph.nodes && n.details.MutationDetails? && n.details.route == route
    && (n.details.written.Some?
        || exists e, t :: e in x.graph.edges && e.kind == Guards && e.target == n.id && t in x.graph.nodes
                          && t.id == e.source && t.details.TrustDetails? && t.details.route == route
                          && t.details.trust != WebhookSignature)
  }

  ghost predicate MutatesRoute(x: Context, route: string) {
    exists n :: n in x.graph.nodes && n.details.MutationDetails? && n.details.route == route
  }

  // ------------------------------------------------------------ the engine's tests are these facts

  lemma MentionsIff(states: seq<string>, state: string)
    requires state == "authorized" || state == "captured"
    ensures Mentions(states, state) <==> Names(states, state)
  {
    forall t
      ensures PaymentState(t) == state <==> t == state || t == "payment." + state
    {
      PrefixedState(t, state);
    }
    if Mentions(states, state) {
      var i :| 0 <= i < |states| && PaymentState(states[i]) == state;
      assert states[i] in states;
    }
    if t :| t in states && (t == state || t == "payment." + state) {
      var i :| 0 <= i < |states| && states[i] == t;
      assert PaymentState(states[i]) == state;
    }
  }

  lemma PrefixedState(t: string, state: string)
    requires state == "authorized" || state == "captured"
    ensures PaymentState(t) == state <==> t == state || t == "payment." + state
  {
    assert state[0] != 'p';
    if PAYMENT_PREFIX <= t {
      assert t == PAYMENT_PREFIX + t[|PAYMENT_PREFIX|..];
      assert t[0] == 'p';
    }
    if t == "payment." + state {
      assert t[..8] == PAYMENT_PREFIX && t[8..] == state;
    }
  }

  lemma CapturedBranchIff(x: Context, c: Control, e: Edge)
    ensures CapturedBranch(x, c, e) <==> TakenOn(x, c.route, c.valueNode, "captured", e)
  {
    hide Mentions, Names;
    if e.branch.Some? {
      MentionsIff(e.branch.value.states, "captured");
    }
  }

  lemma MatchedBranchIff(x: Context, value: string, route: string, state: string, e: Edge)
    requires state == "authorized" || state == "captured"
    ensures MatchedBranch(x, {value}, {route}, e) && Mentions(e.branch.value.states, state)
       <==> TakenOn(x, route, value, state, e)
  {
    hide Mentions, Names;
    if e.branch.Some? {
      MentionsIff(e.branch.value.states, state);
    }
  }

  lemma AckIff(x: Context, c: Control, e: Edge)
    ensures AckEdge(x, c, e) <==> BeforeAck(x, c, e)
  {
  }

  lemma RegressionTargetIff(x: Context, route: string, e: Edge, carrier: string, state: string)
    requires state == "authorized" || state == "captured"
    ensures var target := RegressionTarget(x, route, e);
            target.Some? && target.value.details.carrier == carrier && target.value.details.written == Some(state)
            <==> BranchWrites(x, route, e, carrier, state)
  {
    hide Mentions, Names;
    if e.branch.Some? {
      MentionsIff(e.branch.value.states, state);
      MentionsIff(e.branch.value.states, "authorized");
      MentionsIff(e.branch.value.states, "captured");
    }
  }

  lemma CapturedGateIff(x: Context, route: string, control: Option<Control>, id: string)
    ensures CapturedGate(x, route, control, id) <==> PassedOnCapture(x, route, control, id)
  {
    hide CapturedBranch, TakenOn, Mentions, Names;
    if control.Some? {
      forall e
        ensures e in CapturedEdges(x, control.value) <==>
                  e in x.graph.edges && TakenOn(x, control.value.route, control.value.valueNode, "captured", e)
      {
        CapturedBranchIff(x, control.value, e);
        FilterMember((f: Edge) => CapturedBranch(x, control.value, f), x.graph.edges, e);
      }
    } else {
      forall n: Node | n.details.StateGateDetails?
        ensures Mentions(n.details.states, "captured") <==> Names(n.details.states, "captured")
      {
        MentionsIff(n.details.states, "captured");
      }
    }
  }

  lemma BelowCaptureIff(x: Context, route: string, control: Option<Control>, n: Node)
    ensures n in x.graph.nodes && BelowCapture(x, route, control, n) <==> CapturedMutation(x, route, control, n)
  {
    hide CapturedGate, PassedOnCapture, Mentions, Names;
    forall e: Edge
      ensures CapturedGate(x, route, control, e.source) <==> PassedOnCapture(x, route, control, e.source)
      ensures e.branch.Some? ==>
                (Mentions(e.branch.value.states, "captured") <==> Names(e.branch.value.states, "captured"))
    {
      CapturedGateIff(x, route, control, e.source);
      if e.branch.Some? {
        MentionsIff(e.branch.value.states, "captured");
      }
    }
  }

  lemma ProtectedIff(x: Context, route: string, n: Node)
    ensures n in x.graph.nodes && n.details.MutationDetails? && n.details.route == route
            && (Guarded(x, route, n.id) || n.details.written.Some?)
       <==> ProtectedMutation(x, route, n)
  {
  }

  lemma RouteStatesIff(x: Context, c: Control)
    ensures RoutePaymentStates(x, c) != {} <==> StatesKnown(x, c)
    ensures "authorized" in RoutePaymentStates(x, c) <==> AuthorizedNamed(x, c)
    ensures AuthorizedNamed(x, c) ==> StatesKnown(x, c)
  {
    hide Names;
    forall n: Node | n.details.StateGateDetails?
      ensures (exists i :: 0 <= i < |n.details.states| && PaymentState(n.details.states[i]) == "authorized")
         <==> Names(n.details.states, "authorized")
    {
      MentionsIff(n.details.states, "authorized");
    }
    if n :| n in x.graph.nodes && n.details.StateGateDetails? && n.details.route == c.route && n.details.states != [] {
      assert PaymentState(n.details.states[0]) in RoutePaymentStates(x, c);
    }
    if RoutePaymentStates(x, c) != {} {
      var state :| state in RoutePaymentStates(x, c);
    }
  }
}
