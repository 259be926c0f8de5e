/** The applicability records and the rules their contracts enforce on construction. */
module ApplicabilityContracts {
  import opened Foundations
  import opened PaymentGraph

  datatype State = APPLICABLE | NOT_APPLICABLE | NEEDS_INPUT | INDETERMINATE

  datatype Role = CORE | OPTIONAL

  datatype ScenarioId = SG01 | SG02 | SG03 | SG04 | SG05 | SG06 | SG07 | SG08

  function ScenarioText(s: ScenarioId): string {
    match s
    case SG01 => "SG-01" case SG02 => "SG-02" case SG03 => "SG-03" case SG04 => "SG-04"
    case SG05 => "SG-05" case SG06 => "SG-06" case SG07 => "SG-07" case SG08 => "SG-08"
  }

  /** The catalogue's assertions, named after their scenario: its customer-value assertion (for SG-08, its
      policy-outcome assertion) and the others. */
  datatype AssertionKey =
    | SG01_VALUE | SG02_VALUE | SG03_VALUE | SG04_VALUE | SG04_REGRESSION | SG05_MUTATION | SG05_VALUE
    | SG06_MUTATION | SG06_VALUE | SG07_VALUE | SG08_PRECAPTURE | SG08_CAPTURE | SG08_VALUE

  const CATALOG := [SG01, SG02, SG03, SG04, SG05, SG06, SG07, SG08]

  datatype EvidenceKind = GRAPH_NODE | GRAPH_EDGE | GRAPH_DIAGNOSTIC | SEMANTIC_RESOLUTION | MERCHANT_POLICY
                        | RAZORPAY_RULE | NORMAL_CONTROL

  datatype Evidence = Evidence(kind: EvidenceKind, reference: string)

  datatype ReasonCode =
    | EXACT_CONTROL_AVAILABLE | INGRESS_ABSENT | CUSTOMER_VALUE_UNRESOLVED | CUSTOMER_VALUE_PATH_ABSENT
    | GRAPH_COVERAGE_INSUFFICIENT | FULFILMENT_POLICY_REQUIRED | FULFILMENT_POLICY_STALE
    | NORMAL_CAPTURE_THRESHOLD_AVAILABLE | NORMAL_CAPTURE_THRESHOLD_UNPROVEN
    | CAPTURED_EVENT_TARGET_AVAILABLE | CAPTURED_EVENT_TARGET_UNPROVEN
    | LATE_AUTHORISATION_POLICY_REQUIRED | LATE_AUTHORISATION_POLICY_STALE | MERCHANT_LATE_CONTEXT_UNPROVEN
    | VALUE_BEFORE_ACK_PROVEN | ACK_ORDER_UNRESOLVED | MUTATION_TARGET_AVAILABLE | MUTATION_TARGET_ABSENT
    | CHECKOUT_SURFACE_REQUIRED | CHECKOUT_REQUEST_BINDING_AVAILABLE | CHECKOUT_REQUEST_BINDING_UNRESOLVED
    | CHECKOUT_TARGET_LINK_AVAILABLE | CHECKOUT_TARGET_LINK_UNRESOLVED
    | STATE_REGRESSION_TARGET_AVAILABLE | STATE_REGRESSION_TARGET_ABSENT | STATE_REGRESSION_TARGET_UNRESOLVED
    | POLICY_MATRIX_SELECTED | LATE_SEQUENCE_NOT_SUPPORTED | LATE_SEQUENCE_UNRESOLVED

  datatype Reason = Reason(code: ReasonCode, evidence: seq<Evidence>)

  datatype Control = Control(id: string, ingress: string, route: string, ingressKind: IngressKind, valueNode: string,
                             valueSymbol: string, edge: string, callPath: seq<string>, resolution: string)

  datatype Assertion = Assertion(id: string, key: AssertionKey, role: Role, state: State, reasons: seq<Reason>,
                                 control: Option<string>)

  datatype Instance = Instance(id: string, state: State, ingress: Option<string>, control: Option<string>,
                               route: Option<string>, valueNode: Option<string>, valueSymbol: Option<string>,
                               assertions: seq<Assertion>)

  datatype Scenario = Scenario(id: ScenarioId, state: State, instances: seq<Instance>)

  // ------------------------------------------------------------ policy

  datatype FulfilmentPolicy = CAPTURE_REQUIRED | AUTHORIZED_ALLOWED

  datatype LatePolicy = FULFIL_LATER | DO_NOT_FULFIL

  datatype EvidenceStatus = CONSISTENT_SUGGESTION | CONFLICTING_EVIDENCE | INSUFFICIENT_EVIDENCE

  datatype FulfilmentAssessment = FulfilmentAssessment(
    status: EvidenceStatus, fingerprint: string, observed: set<string>, suggested: Option<FulfilmentPolicy>,
    confirmed: Option<FulfilmentPolicy>, current: Option<bool>, mismatch: bool)

  datatype LateAssessment = LateAssessment(fingerprint: string, confirmed: Option<LatePolicy>, current: Option<bool>)

  datatype PolicyAssessment = PolicyAssessment(fulfilment: FulfilmentAssessment, late: LateAssessment)

  predicate ValidPolicy(p: PolicyAssessment) {
    var f := p.fulfilment;
    && (f.status == CONSISTENT_SUGGESTION <==> f.suggested.Some?)
    && (f.confirmed.None? ==> f.current.None? && !f.mismatch)
    && (f.confirmed.Some? ==> f.current.Some?)
    && (f.mismatch <==> f.confirmed.Some? && f.suggested.Some? && f.confirmed != f.suggested)
    && (p.late.confirmed.None? <==> p.late.current.None?)
  }

  // ------------------------------------------------------------ roll-up

  /** States of the core assertions. */
  function CoreStates(assertions: seq<Assertion>): set<State> {
    set a | a in assertions && a.role == CORE :: a.state
  }

  /** The first of APPLICABLE, NEEDS_INPUT, INDETERMINATE, NOT_APPLICABLE that occurs. */
  function Dominant(states: set<State>): Option<State> {
    if APPLICABLE in states then Some(APPLICABLE)
    else if NEEDS_INPUT in states then Some(NEEDS_INPUT)
    else if INDETERMINATE in states then Some(INDETERMINATE)
    else if NOT_APPLICABLE in states then Some(NOT_APPLICABLE)
    else None
  }

  /** None stands for the ValueError of a roll-up without a core assertion. */
  function RollUp(assertions: seq<Assertion>): (r: Option<State>)
    ensures r.None? <==> forall a :: a in assertions ==> a.role != CORE
  {
    var states := CoreStates(assertions);
    assert forall a :: a in assertions && a.role == CORE ==> a.state in states;
    DominantIsDefined(states);
    Dominant(states)
  }

  /** The order in which states prevail. */
  function Rank(s: State): nat {
    match s
    case APPLICABLE => 0
    case NEEDS_INPUT => 1
    case INDETERMINATE => 2
    case NOT_APPLICABLE => 3
  }

  /** A roll-up is the prevailing state among the core assertions, whatever the others say. */
  lemma RollUpPrevails(assertions: seq<Assertion>, s: State)
    ensures RollUp(assertions) == Some(s)
       <==> && (exists a :: a in assertions && a.role == CORE && a.state == s)
            && (forall a :: a in assertions && a.role == CORE ==> Rank(s) <= Rank(a.state))
  {
    var states := CoreStates(assertions);
    assert forall t :: t in states <==> exists a :: a in assertions && a.role == CORE && a.state == t;
    PrevailingIsDominant(states, s);
  }

  lemma PrevailingIsDominant(states: set<State>, s: State)
    ensures Dominant(states) == Some(s) <==> s in states && forall t :: t in states ==> Rank(s) <= Rank(t)
  {
    DominantIsDefined(states);
  }

  function Flatten(instances: seq<Instance>): seq<Assertion> {
    if instances == [] then [] else instances[0].assertions + Flatten(instances[1..])
  }

  predicate ValidInstance(i: Instance) {
    i.assertions != [] && RollUp(i.assertions) == Some(i.state)
    && forall a :: a in i.assertions ==> a.reasons != []
  }

  ghost predicate ValidScenario(s: Scenario) {
    && s.instances != []
    && (forall i :: i in s.instances ==> ValidInstance(i))
    && RollUp(Flatten(s.instances)) == Some(s.state)
    && (forall i, j :: 0 <= i < j < |s.instances| ==> s.instances[i].id != s.instances[j].id)
  }

  ghost predicate KnownControl(controls: seq<Control>, id: string) {
    exists c :: c in controls && c.id == id
  }

  /** The instance names its exact control's identities, or none at all. */
  ghost predicate ControlIdentityKept(controls: seq<Control>, i: Instance) {
    && (i.control.Some? ==> KnownControl(controls, i.control.value))
    && (forall c :: c in controls && i.control == Some(c.id) ==>
          && i.ingress == Some(c.ingress) && i.route == Some(c.route)
          && i.valueNode == Some(c.valueNode) && i.valueSymbol == Some(c.valueSymbol))
    && (i.control.None? ==> i.route.None? && i.valueNode.None? && i.valueSymbol.None?)
    && (forall a :: a in i.assertions && a.control.Some? ==>
          KnownControl(controls, a.control.value) && (i.control.Some? ==> a.control == i.control))
  }

  ghost predicate Lists(scenarios: seq<Scenario>, id: ScenarioId) {
    exists s :: s in scenarios && s.id == id
  }

  ghost predicate ValidArtifact(policy: PolicyAssessment, controls: seq<Control>, scenarios: seq<Scenario>) {
    && ValidPolicy(policy)
    && (forall i, j :: 0 <= i < j < |controls| ==> controls[i].id != controls[j].id)
    && (forall c :: c in controls ==> c.callPath != [])
    && |scenarios| == 8
    && (forall id: ScenarioId :: Lists(scenarios, id))
    && (forall s :: s in scenarios ==> ValidScenario(s))
    && (forall s, i :: s in scenarios && i in s.instances ==> ControlIdentityKept(controls, i))
  }

  // ------------------------------------------------------------ roll-up is flat and unordered

  lemma DominantOfUnion(a: set<State>, b: set<State>)
    requires a != {} && b != {}
    ensures Dominant(a).Some? && Dominant(b).Some?
    ensures Dominant(a + b) == Dominant({Dominant(a).value, Dominant(b).value})
  {
    DominantIsDefined(a);
    DominantIsDefined(b);
  }

  lemma DominantIsDefined(s: set<State>)
    ensures Dominant(s).None? <==> s == {}
    ensures Dominant(s).Some? ==> Dominant(s).value in s
  {
    if s != {} {
      var x :| x in s;
      match x
      case APPLICABLE => case NEEDS_INPUT => case INDETERMINATE => case NOT_APPLICABLE =>
    }
  }

  function InstanceStates(instances: seq<Instance>): set<State> {
    set i | i in instances :: i.state
  }

  lemma CoreStatesAppend(a: seq<Assertion>, b: seq<Assertion>)
    ensures CoreStates(a + b) == CoreStates(a) + CoreStates(b)
  {
  }

  lemma InstanceStatesSplit(instances: seq<Instance>)
    requires instances != []
    ensures InstanceStates(instances) == {instances[0].state} + InstanceStates(instances[1..])
    ensures |instances| > 1 ==> InstanceStates(instances[1..]) != {}
    ensures |instances| == 1 ==> InstanceStates(instances[1..]) == {}
  {
    assert instances == [instances[0]] + instances[1..];
    if |instances| > 1 {
      assert instances[1..][0].state in InstanceStates(instances[1..]);
    }
  }

  /** Rolling up the instance states is rolling up all assertions at once. */
  lemma {:induction false} RollUpIsFlat(instances: seq<Instance>)
    requires instances != [] && forall i :: i in instances ==> ValidInstance(i)
    ensures RollUp(Flatten(instances)) == Dominant(InstanceStates(instances))
  {
    hide CoreStates, InstanceStates, Dominant;
    var first, rest := instances[0], instances[1..];
    assert first in instances;
    CoreStatesAppend(first.assertions, Flatten(rest));
    InstanceStatesSplit(instances);
    DominantIsDefined(CoreStates(first.assertions));
    DominantOfOne(first.state);
    if rest == [] {
      assert first.assertions + Flatten(rest) == first.assertions;
      assert InstanceStates(instances) == {first.state};
    } else {
      RollUpIsFlat(rest);
      DominantIsDefined(InstanceStates(rest));
      DominantIsDefined(CoreStates(Flatten(rest)));
      DominantOfUnion(CoreStates(first.assertions), CoreStates(Flatten(rest)));
      DominantOfUnion({first.state}, InstanceStates(rest));
    }
  }

  lemma DominantOfOne(s: State)
    ensures Dominant({s}) == Some(s)
  {
  }

  /** The order of the assertions does not matter. */
  lemma RollUpIsUnordered(a: seq<Assertion>, b: seq<Assertion>)
    requires multiset(a) == multiset(b)
    ensures RollUp(a) == RollUp(b)
  {
    PermutationMembers(a, b);
    assert CoreStates(a) == CoreStates(b);
  }
}
