/** What executing one scenario instance reports, and the contract every such result meets. */
module ScenarioResults {
  import opened Foundations
  import opened ApplicabilityContracts

  datatype ResultState = VERIFIED_PASS | VERIFIED_FAIL | STATIC_WARNING | RESULT_NEEDS_INPUT | UNVERIFIED
                       | RESULT_NOT_APPLICABLE

  datatype Tier = E0_DISCOVERED | E1_RESOLVED | E2_STATIC_VERIFIED | E3_DYNAMIC_VERIFIED | E4_RAZORPAY_GROUNDED

  /** The recorded input of a scenario. A grounded input is a webhook built from a real test resource. */
  datatype Input =
    | WebhookInput
    | GroundedInput(fingerprint: string, projection: string)
    | WebhookSequence
    | CheckoutSequence
    | LateSequence(fulfilment: FulfilmentPolicy, events: nat)

  /** What one request observed: the customer-value target, with the acknowledgement node where a failure was
      injected, or mutation targets. `summary` stands for the counts, sequence numbers and status. */
  datatype Observation =
    | CustomerObservation(request: string, failedAck: Option<string>, summary: string)
    | MutationObservation(request: string, mutations: seq<string>, summary: string)

  datatype RuntimeAuthority = RuntimeAuthority(capability: Option<string>, session: Option<string>,
                                               transcript: Option<string>, requests: seq<string>)

  /** One result: the assertion it answers, the authority it was produced under, its input and what its
      requests observed, under a schema version and a fingerprint of all of it. */
  datatype ExecutionResult = ExecutionResult(
    schema: int, fingerprint: string, scenario: ScenarioId, instance: string, assertion: string,
    control: Option<string>, applicability: string, definition: string, runtime: RuntimeAuthority,
    input: Option<Input>, observations: seq<Observation>, result: ResultState, tier: Option<Tier>, reason: string,
    diagnostics: seq<string>)

  predicate Verified(r: ResultState) {
    r == VERIFIED_PASS || r == VERIFIED_FAIL
  }

  /** `len(set(s)) == len(s)`. */
  predicate Unique(s: seq<string>) {
    |Elements(s)| == |s|
  }

  function RequestIds(observations: seq<Observation>): (ids: seq<string>)
    ensures |ids| == |observations| && forall k :: 0 <= k < |ids| ==> ids[k] == observations[k].request
  {
    seq(|observations|, k requires 0 <= k < |observations| => observations[k].request)
  }

  function ObservedMutations(observations: seq<Observation>): seq<string> {
    if observations == [] then []
    else (if observations[0].MutationObservation? then observations[0].mutations else [])
         + ObservedMutations(observations[1..])
  }

  function FailedAcks(observations: seq<Observation>): seq<string> {
    if observations == [] then []
    else (if observations[0].CustomerObservation? && observations[0].failedAck.Some?
          then [observations[0].failedAck.value] else [])
         + FailedAcks(observations[1..])
  }

  predicate AllCustomer(observations: seq<Observation>) {
    forall o :: o in observations ==> o.CustomerObservation?
  }

  predicate AllMutation(observations: seq<Observation>) {
    forall o :: o in observations ==> o.MutationObservation?
  }

  predicate ValidRuntime(u: RuntimeAuthority) {
    && (u.requests != [] ==> u.session.Some?)
    && Unique(u.requests)
    && (u.transcript.Some? ==> u.capability.Some? && u.session.Some?)
  }

  predicate IsWebhook(input: Option<Input>) {
    input == Some(WebhookInput) || (input.Some? && input.value.GroundedInput?)
  }

  /** How many requests a verified result of the scenario has. */
  function VerifiedCount(r: ExecutionResult): nat {
    match r.scenario
    case SG01 => 1
    case SG07 => 1
    case SG08 => if r.input.Some? && r.input.value.LateSequence? && r.input.value.events == 2 then 2 else 1
    case _ => 2
  }

  /** The clauses of the eight scenarios about the number and kind of observations, the input and the
      control. */
  predicate ScenarioRules(r: ExecutionResult) {
    var verified := Verified(r.result);
    && (verified ==> |r.observations| == VerifiedCount(r))
    && match r.scenario
       case SG01 => (verified || r.observations != [] ==> r.control.Some?) && AllCustomer(r.observations)
       case SG02 => (verified || r.observations != [] ==> r.control.Some?) && AllCustomer(r.observations)
       case SG03 => (verified || r.observations != [] ==> r.control.Some?) && AllCustomer(r.observations)
                    && (verified ==> IsWebhook(r.input))
       case SG04 => verified ==> r.input == Some(WebhookSequence) && r.control.Some?
                                 && AllCustomer(r.observations) != AllMutation(r.observations)
       case SG05 => verified ==> AllCustomer(r.observations) != AllMutation(r.observations)
                                 && (AllCustomer(r.observations) <==> r.control.Some?)
                                 && (AllMutation(r.observations) ==>
                                       |r.observations| == 2
                                       && r.observations[0].mutations == r.observations[1].mutations)
       case SG06 => verified ==> r.input == Some(CheckoutSequence)
                                 && AllCustomer(r.observations) != AllMutation(r.observations)
                                 && (AllCustomer(r.observations) ==> r.control.Some?)
       case SG07 => verified ==> IsWebhook(r.input) && r.control.Some? && AllCustomer(r.observations)
       case SG08 => (verified || r.observations != [] ==> r.control.Some?) && AllCustomer(r.observations)
                    && (verified ==> r.input.Some? && r.input.value.LateSequence?
                                     && r.input.value.fulfilment == CAPTURE_REQUIRED)
  }

  /** What the contract of a result is relative to: what the scenarios demand of the counts, sequences and
      reasons of a verified result, and the fingerprint of a result, which is taken without its own. */
  datatype ResultContract = ResultContract(lifecycle: ExecutionResult -> bool, fingerprintOf: ExecutionResult -> string)

  function Fingerprint(k: ResultContract, r: ExecutionResult): string {
    k.fingerprintOf(r.(fingerprint := ""))
  }

  /** The contract of a result. */
  predicate ValidResult(k: ResultContract, r: ExecutionResult) {
    var verified, ids := Verified(r.result), RequestIds(r.observations);
    && (r.schema == 2 || r.schema == 3)
    && r.fingerprint == Fingerprint(k, r)
    && ValidRuntime(r.runtime)
    && (forall o :: o in r.observations && o.MutationObservation? ==> o.mutations != [] && Unique(o.mutations))
    && (verified <==> r.tier == Some(E3_DYNAMIC_VERIFIED))
    && r.tier != Some(E4_RAZORPAY_GROUNDED)
    && (r.input.Some? && r.input.value.GroundedInput? ==> r.schema == 3 && r.scenario == SG01)
    && ids <= r.runtime.requests
    && (r.observations != [] ==> r.input.Some?)
    && (verified ==> r.runtime.capability.Some? && r.runtime.session.Some? && r.runtime.transcript.Some?
                     && r.input.Some? && ids == r.runtime.requests)
    && (r.scenario != SG03 ==> FailedAcks(r.observations) == [])
    && ScenarioRules(r)
    && (verified ==> k.lifecycle(r))
  }

  /** The requests a valid result observed are distinct, and there are some if it is verified. */
  lemma ObservedRequests(k: ResultContract, r: ExecutionResult)
    requires ValidResult(k, r)
    ensures Unique(RequestIds(r.observations))
    ensures Verified(r.result) ==> r.observations != []
    ensures r.observations != [] ==> r.runtime.session.Some? && r.input.Some?
  {
    var ids := RequestIds(r.observations);
    CountedElements(r.runtime.requests);
    CountedElements(ids);
    assert forall i :: 0 <= i < |ids| ==> ids[i] == r.runtime.requests[i];
  }

  predicate AllOf(observations: seq<Observation>, customer: bool) {
    forall o :: o in observations ==> o.CustomerObservation? == customer
  }

  /** What a verified result of each scenario rests on: how many requests, of which kind, with which input, and
      whether against a control. */
  predicate RestsOn(r: ExecutionResult) {
    var n, customers, mutations := |r.observations|, AllOf(r.observations, true), AllOf(r.observations, false);
    match r.scenario
    case SG01 => n == 1 && customers && r.control.Some?
    case SG02 => n == 2 && customers && r.control.Some?
    case SG03 => n == 2 && customers && r.control.Some? && r.input == Some(WebhookInput)
    case SG04 => n == 2 && (customers || mutations) && r.control.Some? && r.input == Some(WebhookSequence)
    case SG05 => n == 2 && ((customers && r.control.Some?)
                            || (mutations && r.control.None?
                                && r.observations[0].mutations == r.observations[1].mutations))
    case SG06 => n == 2 && ((customers && r.control.Some?) || mutations) && r.input == Some(CheckoutSequence)
    case SG07 => n == 1 && customers && r.control.Some? && r.input == Some(WebhookInput)
    case SG08 => customers && r.control.Some? && r.input.Some? && r.input.value.LateSequence?
                 && r.input.value.fulfilment == CAPTURE_REQUIRED && n == (if r.input.value.events == 2 then 2 else 1)
  }

  /** A verified result rests on that, with dynamic evidence from a complete run-time authority whose requests, all
      different, are the observed ones in order; an injected acknowledgement failure occurs in SG-03 only. */
  lemma VerifiedRestsOn(k: ResultContract, r: ExecutionResult)
    requires ValidResult(k, r) && (r.result == VERIFIED_PASS || r.result == VERIFIED_FAIL)
    ensures RestsOn(r) && k.lifecycle(r) && r.tier == Some(E3_DYNAMIC_VERIFIED)
    ensures r.runtime.capability.Some? && r.runtime.session.Some? && r.runtime.transcript.Some? && r.input.Some?
    ensures |r.runtime.requests| == |r.observations| && NoDuplicates(r.runtime.requests)
    ensures forall i :: 0 <= i < |r.observations| ==> r.observations[i].request == r.runtime.requests[i]
    ensures forall o :: o in r.observations && o.CustomerObservation? && o.failedAck.Some? ==> r.scenario == SG03
  {
    CountedElements(r.runtime.requests);
    FailedAcksMember(r.observations);
    assert RequestIds(r.observations) == r.runtime.requests;
    if |r.observations| > 0 {
      assert r.observations[0] in r.observations;
    }
  }

  /** Any valid result: it is of a current schema and sealed by its fingerprint, which is taken without itself; it has
      dynamic evidence exactly if it is verified, and is never called grounded itself; its observed requests are the
      first of its authority's; a grounded input is SG-01's, in the latest schema; and a mutation observation names
      mutations, each once. */
  lemma ValidResultIsSealed(k: ResultContract, r: ExecutionResult)
    requires ValidResult(k, r)
    ensures (r.schema == 2 || r.schema == 3) && r.fingerprint == k.fingerprintOf(r.(fingerprint := ""))
    ensures r.tier == Some(E3_DYNAMIC_VERIFIED) <==> r.result == VERIFIED_PASS || r.result == VERIFIED_FAIL
    ensures r.tier != Some(E4_RAZORPAY_GROUNDED)
    ensures |r.observations| <= |r.runtime.requests| && NoDuplicates(r.runtime.requests)
    ensures forall i :: 0 <= i < |r.observations| ==> r.observations[i].request == r.runtime.requests[i]
    ensures r.runtime.requests != [] ==> r.runtime.session.Some?
    ensures r.runtime.transcript.Some? ==> r.runtime.session.Some? && r.runtime.capability.Some?
    ensures r.observations != [] ==> r.input.Some?
    ensures r.input.Some? && r.input.value.GroundedInput? ==> r.schema == 3 && r.scenario == SG01
    ensures forall o :: o in r.observations && o.MutationObservation? ==> o.mutations != [] && NoDuplicates(o.mutations)
  {
    CountedElements(r.runtime.requests);
    var ids := RequestIds(r.observations);
    assert forall i :: 0 <= i < |ids| ==> ids[i] == r.runtime.requests[i];
    forall o | o in r.observations && o.MutationObservation?
      ensures NoDuplicates(o.mutations)
    {
      CountedElements(o.mutations);
    }
  }

  /** The mutations and the failed acknowledgements that the requests observed. */
  lemma {:induction false} ObservedMember(observations: seq<Observation>, id: string)
    ensures id in ObservedMutations(observations)
       <==> exists o :: o in observations && o.MutationObservation? && id in o.mutations
    ensures id in FailedAcks(observations)
       <==> exists o :: o in observations && o.CustomerObservation? && o.failedAck == Some(id)
  {
    if observations != [] {
      assert observations == [observations[0]] + observations[1..];
      ObservedMember(observations[1..], id);
    }
  }

  lemma FailedAcksMember(observations: seq<Observation>)
    ensures FailedAcks(observations) == [] ==>
              forall o :: o in observations && o.CustomerObservation? ==> o.failedAck.None?
  {
    forall o | o in observations && o.CustomerObservation? && o.failedAck.Some?
      ensures o.failedAck.value in FailedAcks(observations)
    {
      ObservedMember(observations, o.failedAck.value);
    }
  }
}
