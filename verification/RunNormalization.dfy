/** Normalising scenario results into the checks of one run. */
module RunNormalization {
  import opened Foundations
  import opened Identity
  import opened PaymentGraph
  import opened ApplicabilityContracts
  import opened AssertionTexts
  import opened ApplicabilityEngine
  import opened ScenarioResults
  import opened VerificationChecks

  datatype Refusal = StaleUpstream | AssertionIdNotCanonical | DuplicateAuthority | InvalidResult | DuplicateResult
                   | NotOneToOne | InvalidSemantics | ForeignApplicability | ForeignDefinition | UnknownDefinition
                   | SubstitutedControl | UnknownControl | UnsupportedEvidence | SurplusRequests | ForeignGrounding
                   | UnreadableSpan | InvalidCheck | CompletedTooEarly | NoChecks | DuplicateCheckId | DuplicateCheckKey
                   | ForeignGroundingRun | ManyGroundedChecks

  datatype Outcome<+T> = Built(value: T) | Refused(why: Refusal)

  /** The project and the fingerprints of the artifacts an evaluation starts from. */
  datatype Upstream = Upstream(project: string, sourceIndex: string, structural: string, projected: string)

  /** An attempt to acquire a test resource for a run. */
  datatype RunGrounding = RunGrounding(run: string, acquired: int, grounded: bool, fingerprint: string,
                                       projection: Option<string>)

  /** The artifacts a run is built from: those at hand (`found`), those the applicability artifact records, and
      the artifact itself. `definitionOf` gives the current definition fingerprints, `contract` what results
      are validated against, and `spansReadable` tells whether the source spans a check relies on can be read.
      Times are points on one clock. */
  datatype Authorities = Authorities(
    digest: Digest, texts: Texts, contract: ResultContract, run: string, created: int, completed: int,
    found: Upstream, recorded: Upstream,
    resolution: Option<Resolution>, resolutionFingerprint: Option<string>, grounding: Option<RunGrounding>,
    applicability: string, definitionOf: ScenarioId -> string, spansReadable: (Authority, ExecutionResult) -> bool,
    graph: Graph, policy: PolicyAssessment, controls: seq<Control>, scenarios: seq<Scenario>)

  /** The contract of the semantic snapshot: a unique resolution selects a symbol and is fingerprinted, any
      other selects none. */
  predicate ValidSemantics(resolution: Option<Resolution>, fingerprint: Option<string>) {
    resolution.Some? ==>
      if resolution.value.unique then resolution.value.selected.Some? && fingerprint.Some?
      else resolution.value.selected.None?
  }

  // ------------------------------------------------------------ authorities

  datatype Authority = Authority(scenario: ScenarioId, instance: Instance, assertion: Assertion)

  datatype Key = Key(scenario: ScenarioId, instance: string, assertion: string)

  function KeyOf(a: Authority): Key {
    Key(a.scenario, a.instance.id, a.assertion.id)
  }

  function ResultKey(r: ExecutionResult): Key {
    Key(r.scenario, r.instance, r.assertion)
  }

  function OfInstance(s: ScenarioId, i: Instance): (r: seq<Authority>) {
    seq(|i.assertions|, k requires 0 <= k < |i.assertions| => Authority(s, i, i.assertions[k]))
  }

  function OfInstances(s: ScenarioId, instances: seq<Instance>): seq<Authority> {
    if instances == [] then [] else OfInstance(s, instances[0]) + OfInstances(s, instances[1..])
  }

  function OfScenarios(scenarios: seq<Scenario>): seq<Authority> {
    if scenarios == [] then []
    else OfInstances(scenarios[0].id, scenarios[0].instances) + OfScenarios(scenarios[1..])
  }

  predicate Canonical(h: Digest, texts: Texts, a: Authority) {
    a.assertion.id == StableId(h, "sgassert", [a.instance.id, texts.key(a.assertion.key)])
  }

  ghost predicate KeysDiffer(s: seq<Authority>) {
    forall i, j :: 0 <= i < j < |s| ==> KeyOf(s[i]) != KeyOf(s[j])
  }

  function Keys(s: seq<Authority>): set<Key> {
    set a | a in s :: KeyOf(a)
  }

  lemma KeysAppend(s: seq<Authority>, a: Authority)
    ensures Keys(s + [a]) == Keys(s) + {KeyOf(a)}
    ensures KeysDiffer(s + [a]) <==> KeysDiffer(s) && KeyOf(a) !in Keys(s)
  {
    hide KeyOf;
    assert forall k :: 0 <= k < |s| ==> (s + [a])[k] == s[k];
    assert (s + [a])[|s|] == a;
  }

  lemma KeysDifferOnPrefixes(s: seq<Authority>, k: nat)
    requires k <= |s| && KeysDiffer(s)
    ensures KeysDiffer(s[..k])
  {
  }

  ghost predicate AllCanonical(h: Digest, texts: Texts, all: seq<Authority>) {
    forall a :: a in all ==> Canonical(h, texts, a)
  }

  /** The map of assertion authorities, in the order of the artifact. */
  method AssertionAuthorities(x: Authorities) returns (r: Outcome<seq<Authority>>)
    ensures r.Built?
       <==> KeysDiffer(OfScenarios(x.scenarios)) && AllCanonical(x.digest, x.texts, OfScenarios(x.scenarios))
    ensures r.Built? ==> r.value == OfScenarios(x.scenarios)
    ensures r.Refused? ==>
      || (r.why == AssertionIdNotCanonical && !AllCanonical(x.digest, x.texts, OfScenarios(x.scenarios)))
      || (r.why == DuplicateAuthority && !KeysDiffer(OfScenarios(x.scenarios)))
  {
    hide Canonical, OfScenarios, KeyOf, Keys, KeysDiffer;
    var all := OfScenarios(x.scenarios);
    var known: set<Key> := {};
    NoKeys();
    for k := 0 to |all|
      invariant known == Keys(all[..k])
      invariant KeysDiffer(all[..k])
      invariant AllCanonical(x.digest, x.texts, all[..k])
    {
      assert all[..k + 1] == all[..k] + [all[k]];
      KeysAppend(all[..k], all[k]);
      if !Canonical(x.digest, x.texts, all[k]) {
        assert all[k] in all;
        return Refused(AssertionIdNotCanonical);
      }
      if KeyOf(all[k]) in known {
        if KeysDiffer(all) {
          KeysDifferOnPrefixes(all, k + 1);
        }
        return Refused(DuplicateAuthority);
      }
      known := known + {KeyOf(all[k])};
    }
    assert all[..|all|] == all;
    r := Built(all);
  }

  lemma NoKeys()
    ensures Keys([]) == {} && KeysDiffer([])
  {
  }

  ghost predicate ResultsDiffer(results: seq<ExecutionResult>) {
    forall i, j :: 0 <= i < j < |results| ==> ResultKey(results[i]) != ResultKey(results[j])
  }

  ghost predicate Indexes(results: seq<ExecutionResult>, m: map<Key, ExecutionResult>) {
    && (forall r :: r in results ==> ResultKey(r) in m && m[ResultKey(r)] == r)
    && (forall key :: key in m ==> m[key] in results && ResultKey(m[key]) == key)
  }

  ghost predicate AllValid(k: ResultContract, results: seq<ExecutionResult>) {
    forall r :: r in results ==> ValidResult(k, r)
  }

  /** Every result is validated again before it is mapped. */
  method ExecutionResults(x: Authorities, results: seq<ExecutionResult>) returns (r: Outcome<map<Key, ExecutionResult>>)
    ensures r.Built? <==> ResultsDiffer(results) && AllValid(x.contract, results)
    ensures r.Built? ==> Indexes(results, r.value)
    ensures r.Refused? ==>
      || (r.why == DuplicateResult && !ResultsDiffer(results))
      || (r.why == InvalidResult && !AllValid(x.contract, results))
  {
    hide ValidResult;
    var mapped: map<Key, ExecutionResult> := map[];
    for k := 0 to |results|
      invariant ResultsDiffer(results[..k]) && Indexes(results[..k], mapped) && AllValid(x.contract, results[..k])
    {
      if !ValidResult(x.contract, results[k]) {
        assert results[k] in results;
        return Refused(InvalidResult);
      }
      var key := ResultKey(results[k]);
      assert results[..k + 1] == results[..k] + [results[k]];
      if key in mapped {
        assert mapped[key] in results[..k];
        var j :| 0 <= j < k && results[j] == mapped[key];
        return Refused(DuplicateResult);
      }
      assert forall j :: 0 <= j < k ==> results[j] in results[..k];
      mapped := mapped[key := results[k]];
    }
    assert results[..|results|] == results;
    r := Built(mapped);
  }

  // ------------------------------------------------------------ one check

  function ControlAt(controls: seq<Control>, id: string): (r: Option<Control>)
    ensures r.Some? <==> KnownControl(controls, id)
    ensures r.Some? ==> r.value in controls && r.value.id == id
  {
    if controls == [] then None
    else if controls[|controls| - 1].id == id then Some(controls[|controls| - 1])
    else
      assert forall c :: c in controls ==> c == controls[|controls| - 1] || c in controls[..|controls| - 1];
      ControlAt(controls[..|controls| - 1], id)
  }

  function Distinct(s: seq<string>): (r: seq<string>)
    ensures NoDuplicates(r) && forall v :: v in r <==> v in s
  {
    if s == [] then []
    else
      var rest := Distinct(s[..|s| - 1]);
      assert forall v :: v in s <==> v in s[..|s| - 1] || v == s[|s| - 1];
      if s[|s| - 1] in rest then rest else rest + [s[|s| - 1]]
  }

  function NodesCited(evidence: seq<Evidence>): seq<string> {
    if evidence == [] then []
    else (if evidence[0].kind == GRAPH_NODE then [evidence[0].reference] else []) + NodesCited(evidence[1..])
  }

  function NodesOfReasons(reasons: seq<Reason>): seq<string> {
    if reasons == [] then [] else NodesCited(reasons[0].evidence) + NodesOfReasons(reasons[1..])
  }

  function OfKind(g: Graph, kind: NodeKind, ids: seq<string>): seq<string> {
    Filter((id: string) => NodeAt(g.nodes, id).Some? && NodeAt(g.nodes, id).value.kind == kind, ids)
  }

  /** A set of identities as the sorted tuple it is stored as. */
  function SortedSet(ids: seq<string>): seq<string> {
    Sort(StringLe, Distinct(ids))
  }

  /** The control whose value identities a check carries: the instance's, or else the result's. */
  function IdentityControl(x: Authorities, a: Authority, r: ExecutionResult): Option<Control> {
    if a.instance.control.Some? then ControlAt(x.controls, a.instance.control.value)
    else if r.control.Some? then ControlAt(x.controls, r.control.value) else None
  }

  function TargetsOf(x: Authorities, a: Authority, r: ExecutionResult): Targets {
    var control, cited := IdentityControl(x, a, r), NodesOfReasons(a.assertion.reasons);
    var ingress := if a.instance.ingress.Some? then NodeAt(x.graph.nodes, a.instance.ingress.value) else None;
    Targets(a.instance.ingress, a.instance.route,
            if ingress.Some? then Some(ingress.value.symbol) else None, r.control,
            if control.Some? then Some(control.value.valueNode) else None,
            if control.Some? then Some(control.value.valueSymbol) else None,
            if control.Some? then Some(control.value.edge) else None,
            SortedSet(OfKind(x.graph, MerchantStateMutation, cited + ObservedMutations(r.observations))),
            SortedSet(OfKind(x.graph, AcknowledgementBoundary, cited) + FailedAcks(r.observations)))
  }

  /** Evidence the snapshot of a check has a place for. */
  predicate Projectable(reasons: seq<Reason>) {
    forall r, v :: r in reasons && v in r.evidence ==>
      v.kind == GRAPH_NODE || v.kind == GRAPH_EDGE || v.kind == NORMAL_CONTROL
  }

  /** The result was produced under the current artifact and definition, and under the very control the
      assertion names. */
  predicate SameAuthority(x: Authorities, a: Authority, r: ExecutionResult) {
    r.applicability == x.applicability && r.definition == x.definitionOf(a.scenario) && r.control == a.assertion.control
  }

  predicate FromResource(r: ExecutionResult) {
    r.input.Some? && r.input.value.GroundedInput?
  }

  /** A grounded input was built from the very resource acquired for the run. */
  predicate GroundedHere(x: Authorities, s: ScenarioId, r: ExecutionResult) {
    FromResource(r) ==>
      && s == SG01 && x.grounding.Some? && x.grounding.value.grounded
      && x.grounding.value.fingerprint == r.input.value.fingerprint
      && x.grounding.value.projection == Some(r.input.value.projection)
  }

  /** Dynamic evidence on a grounded input is promoted. */
  predicate Promoted(r: ExecutionResult) {
    FromResource(r) && r.tier == Some(E3_DYNAMIC_VERIFIED)
  }

  function CheckOf(x: Authorities, a: Authority, r: ExecutionResult, d: Definition): Check {
    var targets := TargetsOf(x, a, r);
    Check(CheckId(x.digest, x.run, a.instance.id, a.assertion.id),
          CheckKey(x.digest, x.texts, x.recorded.project, a.scenario, a.assertion.key, d, targets, x.policy),
          a.scenario, a.instance.id, a.assertion.id, a.assertion.key, a.assertion.role, targets, r.input,
          RuntimeEvidence(r.runtime.capability, r.runtime.session, r.runtime.transcript, RequestIds(r.observations),
                          r.diagnostics),
          r.result, if Promoted(r) then Some(E4_RAZORPAY_GROUNDED) else r.tier,
          if Promoted(r) then Some(Grounding(r.input.value.fingerprint, r.input.value.projection)) else None, r.reason)
  }

  function CheckFor(x: Authorities, a: Authority, r: ExecutionResult): Outcome<Check> {
    var definition := DefinitionOf(a.scenario, a.assertion.key);
    if r.applicability != x.applicability then Refused(ForeignApplicability)
    else if r.definition != x.definitionOf(a.scenario) then Refused(ForeignDefinition)
    else if definition.None? then Refused(UnknownDefinition)
    else if r.control != a.assertion.control then Refused(SubstitutedControl)
    else if r.control.Some? && ControlAt(x.controls, r.control.value).None? then Refused(UnknownControl)
    else if !Projectable(a.assertion.reasons) then Refused(UnsupportedEvidence)
    else if |r.observations| > RoleCount(a.assertion.key) then Refused(SurplusRequests)
    else if !GroundedHere(x, a.scenario, r) then Refused(ForeignGrounding)
    else if !x.spansReadable(a, r) then Refused(UnreadableSpan)
    else if !ValidCheck(CheckOf(x, a, r, definition.value)) then Refused(InvalidCheck)
    else Built(CheckOf(x, a, r, definition.value))
  }

  /** For a valid result of the assertion's scenario the check's own contract asks for one thing more: no
      runtime diagnostic is listed twice. */
  lemma CheckIsValidIff(x: Authorities, a: Authority, r: ExecutionResult, d: Definition)
    requires ValidResult(x.contract, r) && r.scenario == a.scenario
    ensures ValidCheck(CheckOf(x, a, r, d)) <==> Unique(r.diagnostics)
  {
    hide TargetsOf, CheckKey, CheckId, Unique, ScenarioRules, FailedAcks;
    ObservedRequests(x.contract, r);
  }

  /** A verified result has no more requests than its definition has roles, except that the policy-outcome
      assertion of SG-08 has one role where a late sequence may have two events. */
  lemma VerifiedFitsRoles(k: ResultContract, key: AssertionKey, r: ExecutionResult)
    requires ValidResult(k, r) && Verified(r.result) && r.scenario == OwnerOf(key)
    ensures |r.observations| > RoleCount(key) <==>
              key == SG08_VALUE && r.input.Some? && r.input.value.LateSequence? && r.input.value.events == 2
  {
    hide Unique, FailedAcks, ValidRuntime;
  }

  /** A result with its fingerprint. */
  function Sealed(k: ResultContract, r: ExecutionResult): ExecutionResult {
    r.(fingerprint := Fingerprint(k, r))
  }

  /** An unverified answer to the assertion, under the current authority, with the given requests and
      diagnostics. */
  function UnverifiedAnswer(x: Authorities, a: Authority, session: Option<string>, requests: seq<string>,
                            diagnostics: seq<string>): ExecutionResult
  {
    Sealed(x.contract,
           ExecutionResult(3, "", a.scenario, a.instance.id, a.assertion.id, a.assertion.control, x.applicability,
                           x.definitionOf(a.scenario), RuntimeAuthority(None, session, None, requests),
                           if requests == [] then None else Some(WebhookInput),
                           seq(|requests|,
                               i requires 0 <= i < |requests| => CustomerObservation(requests[i], None, "")),
                           UNVERIFIED, None, "", diagnostics))
  }

  lemma UnverifiedAnswerIsValid(x: Authorities, a: Authority, session: Option<string>, requests: seq<string>,
                                diagnostics: seq<string>)
    requires NoDuplicates(requests) && (requests != [] ==> session.Some? && a.assertion.control.Some?)
    ensures var r := UnverifiedAnswer(x, a, session, requests, diagnostics);
            ValidResult(x.contract, r) && SameAuthority(x, a, r) && ResultKey(r) == KeyOf(a)
  {
    hide Elements;
    var r := UnverifiedAnswer(x, a, session, requests, diagnostics);
    CountedElements(requests);
    assert RequestIds(r.observations) == requests;
    NoFailedAcks(r.observations);
    assert r.(fingerprint := "") == r.(fingerprint := "").(fingerprint := "");
  }

  /** Other results are refused for surplus requests although they are valid: for every assertion with a
      control, any session and any distinct requests, if they are more than its definition has roles. */
  lemma SurplusIsRefused(x: Authorities, a: Authority, session: string, requests: seq<string>)
    requires a.assertion.control.Some? && ControlAt(x.controls, a.assertion.control.value).Some?
    requires DefinitionOf(a.scenario, a.assertion.key).Some? && Projectable(a.assertion.reasons)
    requires NoDuplicates(requests) && |requests| > RoleCount(a.assertion.key)
    ensures var r := UnverifiedAnswer(x, a, Some(session), requests, []);
            && ValidResult(x.contract, r) && SameAuthority(x, a, r) && ResultKey(r) == KeyOf(a)
            && CheckFor(x, a, r) == Refused(SurplusRequests)
  {
    hide ControlAt, Projectable, DefinitionOf, ValidResult, CheckOf, ValidCheck;
    UnverifiedAnswerIsValid(x, a, Some(session), requests, []);
  }

  /** A diagnostic listed twice: the result is valid, and its check is not. */
  lemma RepeatedDiagnosticIsRefused(x: Authorities, a: Authority, code: string)
    requires a.assertion.control.Some? ==> ControlAt(x.controls, a.assertion.control.value).Some?
    requires DefinitionOf(a.scenario, a.assertion.key).Some? && Projectable(a.assertion.reasons)
    ensures var r := UnverifiedAnswer(x, a, None, [], [code, code]);
            && ValidResult(x.contract, r) && SameAuthority(x, a, r) && ResultKey(r) == KeyOf(a)
            && (x.spansReadable(a, r) ==> CheckFor(x, a, r) == Refused(InvalidCheck))
  {
    hide ControlAt, Projectable, DefinitionOf, ValidResult, CheckOf, ValidCheck;
    var r := UnverifiedAnswer(x, a, None, [], [code, code]);
    UnverifiedAnswerIsValid(x, a, None, [], [code, code]);
    CheckIsValidIff(x, a, r, DefinitionOf(a.scenario, a.assertion.key).value);
    assert !Unique([code, code]) by {
      CountedElements([code, code]);
      assert [code, code][0] == [code, code][1];
    }
  }

  lemma {:induction false} NoFailedAcks(observations: seq<Observation>)
    requires forall o :: o in observations ==> o.CustomerObservation? && o.failedAck.None?
    ensures FailedAcks(observations) == []
  {
    if observations != [] {
      assert observations[0] in observations;
      NoFailedAcks(observations[1..]);
    }
  }

  lemma DistinctTargets(ids: seq<string>)
    ensures NoDuplicates(SortedSet(ids)) && Sorted(StringLe, SortedSet(ids))
    ensures forall v :: v in SortedSet(ids) <==> v in ids
  {
    StringOrder();
    SortPermutes(StringLe, Distinct(ids));
    SortSorts(StringLe, Distinct(ids));
    PermutationMembers(SortedSet(ids), Distinct(ids));
    PermutationNoDuplicates(Distinct(ids), SortedSet(ids));
  }

  ghost predicate Cited(reasons: seq<Reason>, id: string) {
    exists r :: r in reasons && Evidence(GRAPH_NODE, id) in r.evidence
  }

  lemma {:induction false} NodesCitedExact(evidence: seq<Evidence>, id: string)
    ensures id in NodesCited(evidence) <==> Evidence(GRAPH_NODE, id) in evidence
  {
    if evidence != [] {
      assert evidence == [evidence[0]] + evidence[1..];
      NodesCitedExact(evidence[1..], id);
    }
  }

  lemma {:induction false} NodesOfReasonsExact(reasons: seq<Reason>, id: string)
    ensures id in NodesOfReasons(reasons) <==> Cited(reasons, id)
  {
    if reasons != [] {
      assert reasons == [reasons[0]] + reasons[1..];
      NodesCitedExact(reasons[0].evidence, id);
      NodesOfReasonsExact(reasons[1..], id);
    }
  }

  ghost predicate IsOfKind(g: Graph, kind: NodeKind, id: string) {
    NodeAt(g.nodes, id).Some? && NodeAt(g.nodes, id).value.kind == kind
  }

  /** The targets of a check: the mutation nodes its evidence cites or its requests observed, and the
      acknowledgement nodes its evidence cites together with those whose failure was injected; both in
      order and without repetition. */
  lemma TargetsExact(x: Authorities, a: Authority, r: ExecutionResult)
    ensures var t := TargetsOf(x, a, r);
            && NoDuplicates(t.mutations) && Sorted(StringLe, t.mutations)
            && NoDuplicates(t.acknowledgements) && Sorted(StringLe, t.acknowledgements)
            && (forall id :: id in t.mutations <==>
                  IsOfKind(x.graph, MerchantStateMutation, id)
                  && (Cited(a.assertion.reasons, id) || id in ObservedMutations(r.observations)))
            && (forall id :: id in t.acknowledgements <==>
                  (IsOfKind(x.graph, AcknowledgementBoundary, id) && Cited(a.assertion.reasons, id))
                  || id in FailedAcks(r.observations))
  {
    hide SortedSet, NodesOfReasons, Cited;
    var cited := NodesOfReasons(a.assertion.reasons);
    var mutations := OfKind(x.graph, MerchantStateMutation, cited + ObservedMutations(r.observations));
    var acknowledgements := OfKind(x.graph, AcknowledgementBoundary, cited) + FailedAcks(r.observations);
    DistinctTargets(mutations);
    DistinctTargets(acknowledgements);
    forall id
      ensures id in mutations <==> IsOfKind(x.graph, MerchantStateMutation, id)
                                   && (Cited(a.assertion.reasons, id) || id in ObservedMutations(r.observations))
      ensures id in acknowledgements <==>
                (IsOfKind(x.graph, AcknowledgementBoundary, id) && Cited(a.assertion.reasons, id))
                || id in FailedAcks(r.observations)
    {
      NodesOfReasonsExact(a.assertion.reasons, id);
      OfKindMember(x.graph, MerchantStateMutation, cited + ObservedMutations(r.observations), id);
      OfKindMember(x.graph, AcknowledgementBoundary, cited, id);
    }
  }

  lemma OfKindMember(g: Graph, kind: NodeKind, ids: seq<string>, id: string)
    ensures id in OfKind(g, kind, ids) <==> id in ids && IsOfKind(g, kind, id)
  {
    FilterMember((i: string) => NodeAt(g.nodes, i).Some? && NodeAt(g.nodes, i).value.kind == kind, ids, id);
  }

  lemma StringOrder()
    ensures TotalPreorder(StringLe)
  {
    forall a, b
      ensures StringLe(a, b) || StringLe(b, a)
    {
      StringLeTotal(a, b);
    }
    forall a, b, c | StringLe(a, b) && StringLe(b, c)
      ensures StringLe(a, c)
    {
      StringLeTransitive(a, b, c);
    }
  }

  // ------------------------------------------------------------ the run

  /** The result that answers an assertion. */
  function Answer(results: seq<ExecutionResult>, key: Key): (r: Option<ExecutionResult>)
    ensures r.Some? ==> r.value in results && ResultKey(r.value) == key
    ensures r.None? ==> forall v :: v in results ==> ResultKey(v) != key
  {
    if results == [] then None
    else if ResultKey(results[0]) == key then Some(results[0])
    else Answer(results[1..], key)
  }

  /** Each authority's check, for the authorities whose result is admitted. */
  function ChecksFor(x: Authorities, all: seq<Authority>, results: seq<ExecutionResult>): seq<Check> {
    if all == [] then []
    else
      var last := all[|all| - 1];
      var answer := Answer(results, KeyOf(last));
      ChecksFor(x, all[..|all| - 1], results)
      + (if answer.Some? && CheckFor(x, last, answer.value).Built? then [CheckFor(x, last, answer.value).value] else [])
  }

  function RunOrder(): (Check, Check) -> bool {
    ByTuple(RunPlace)
  }

  function RunChecks(x: Authorities, results: seq<ExecutionResult>): seq<Check> {
    Sort(RunOrder(), ChecksFor(x, OfScenarios(x.scenarios), results))
  }

  function Ids(checks: seq<Check>): set<string> {
    set c | c in checks :: c.id
  }

  function LogicalKeys(checks: seq<Check>): set<string> {
    set c | c in checks :: c.key
  }

  predicate IdsUnique(checks: seq<Check>) {
    |Ids(checks)| == |checks|
  }

  predicate KeysUnique(checks: seq<Check>) {
    |LogicalKeys(checks)| == |checks|
  }

  /** The results answer the assertions one to one. */
  ghost predicate OneToOne(all: seq<Authority>, results: seq<ExecutionResult>) {
    && ResultsDiffer(results)
    && (forall a :: a in all ==> Answer(results, KeyOf(a)).Some?)
    && (forall r :: r in results ==> ResultKey(r) in Keys(all))
  }

  /** A grounding attempt belongs to the run and was made while it was in progress. */
  predicate GroundingFits(x: Authorities) {
    x.grounding.Some? ==> x.grounding.value.run == x.run && x.created <= x.grounding.value.acquired <= x.completed
  }

  /** Everything a caller has to see to: the artifacts are current, the results valid, one to one with the
      assertions and each under the artifact's authority; no result has more requests than its assertion has
      roles or lists a diagnostic twice; grounded inputs come from the run's own resource, at most one
      of them with dynamic evidence; the source spans are there to read; and the run ends after it began. */
  ghost predicate Proper(x: Authorities, results: seq<ExecutionResult>) {
    && x.found == x.recorded && ValidSemantics(x.resolution, x.resolutionFingerprint)
    && GroundingFits(x) && x.created <= x.completed
    && AllValid(x.contract, results)
    && OneToOne(OfScenarios(x.scenarios), results)
    && (forall a :: a in OfScenarios(x.scenarios) ==> ProperAnswer(x, a, Answer(results, KeyOf(a)).value))
    && (forall r, q :: r in results && q in results && Promoted(r) && Promoted(q) ==> r == q)
  }

  ghost predicate ProperAnswer(x: Authorities, a: Authority, r: ExecutionResult) {
    && SameAuthority(x, a, r) && |r.observations| <= RoleCount(a.assertion.key) && Unique(r.diagnostics)
    && GroundedHere(x, a.scenario, r) && x.spansReadable(a, r)
  }

  ghost predicate Admitted(x: Authorities, all: seq<Authority>, results: seq<ExecutionResult>) {
    forall a :: a in all ==>
      Answer(results, KeyOf(a)).Some? && CheckFor(x, a, Answer(results, KeyOf(a)).value).Built?
  }

  function GroundedChecks(checks: seq<Check>): seq<Check> {
    Filter((c: Check) => c.tier == Some(E4_RAZORPAY_GROUNDED), checks)
  }

  /** Everything normalisation, the contracts of results, checks and semantic snapshot, and the run's own
      contract demand. */
  ghost predicate Accepted(x: Authorities, results: seq<ExecutionResult>) {
    && x.found == x.recorded
    && KeysDiffer(OfScenarios(x.scenarios)) && AllCanonical(x.digest, x.texts, OfScenarios(x.scenarios))
    && AllValid(x.contract, results)
    && OneToOne(OfScenarios(x.scenarios), results) && ValidSemantics(x.resolution, x.resolutionFingerprint)
    && Admitted(x, OfScenarios(x.scenarios), results)
    && RunChecks(x, results) != [] && IdsUnique(RunChecks(x, results)) && KeysUnique(RunChecks(x, results))
    && GroundingFits(x) && x.created <= x.completed
    && |GroundedChecks(RunChecks(x, results))| <= 1
  }

  /** What each refusal of one result says is the case. */
  ghost predicate HoldsOf(x: Authorities, a: Authority, r: ExecutionResult, why: Refusal) {
    match why
    case ForeignApplicability => r.applicability != x.applicability
    case ForeignDefinition => r.definition != x.definitionOf(a.scenario)
    case UnknownDefinition => DefinitionOf(a.scenario, a.assertion.key).None?
    case SubstitutedControl => r.control != a.assertion.control
    case UnknownControl => r.control.Some? && !KnownControl(x.controls, r.control.value)
    case UnsupportedEvidence => !Projectable(a.assertion.reasons)
    case SurplusRequests => |r.observations| > RoleCount(a.assertion.key)
    case ForeignGrounding => FromResource(r) && !GroundedHere(x, a.scenario, r)
    case UnreadableSpan => !x.spansReadable(a, r)
    case InvalidCheck => ValidResult(x.contract, r) && r.scenario == a.scenario ==> !Unique(r.diagnostics)
    case _ => false
  }

  /** What each refusal of a run says is the case. */
  ghost predicate Holds(x: Authorities, results: seq<ExecutionResult>, why: Refusal) {
    match why
    case StaleUpstream => x.found != x.recorded
    case AssertionIdNotCanonical => !AllCanonical(x.digest, x.texts, OfScenarios(x.scenarios))
    case DuplicateAuthority => !KeysDiffer(OfScenarios(x.scenarios))
    case InvalidResult => !AllValid(x.contract, results)
    case DuplicateResult => !ResultsDiffer(results)
    case NotOneToOne => ResultsDiffer(results) && !OneToOne(OfScenarios(x.scenarios), results)
    case InvalidSemantics => !ValidSemantics(x.resolution, x.resolutionFingerprint)
    case CompletedTooEarly => x.completed < x.created
    case ForeignGroundingRun => !GroundingFits(x)
    case NoChecks => OfScenarios(x.scenarios) == []
    case DuplicateCheckId => !IdsUnique(RunChecks(x, results))
    case DuplicateCheckKey => !KeysUnique(RunChecks(x, results))
    case ManyGroundedChecks => |GroundedChecks(RunChecks(x, results))| > 1
    case _ => exists a, r :: a in OfScenarios(x.scenarios) && r in results && ResultKey(r) == KeyOf(a)
                             && HoldsOf(x, a, r, why)
  }

  lemma RefusalHolds(x: Authorities, a: Authority, r: ExecutionResult)
    ensures CheckFor(x, a, r).Refused? ==> HoldsOf(x, a, r, CheckFor(x, a, r).why)
  {
    hide ValidCheck, CheckOf, ValidResult, Projectable, Unique;
    var d := DefinitionOf(a.scenario, a.assertion.key);
    if d.Some? && ValidResult(x.contract, r) && r.scenario == a.scenario {
      CheckIsValidIff(x, a, r, d.value);
    }
  }

  lemma ArtifactRefusals(x: Authorities, results: seq<ExecutionResult>)
    ensures x.found != x.recorded ==> Holds(x, results, StaleUpstream)
    ensures !AllCanonical(x.digest, x.texts, OfScenarios(x.scenarios)) ==> Holds(x, results, AssertionIdNotCanonical)
    ensures !KeysDiffer(OfScenarios(x.scenarios)) ==> Holds(x, results, DuplicateAuthority)
    ensures !AllValid(x.contract, results) ==> Holds(x, results, InvalidResult)
    ensures !ResultsDiffer(results) ==> Holds(x, results, DuplicateResult)
    ensures ResultsDiffer(results) && !OneToOne(OfScenarios(x.scenarios), results) ==> Holds(x, results, NotOneToOne)
    ensures !ValidSemantics(x.resolution, x.resolutionFingerprint) ==> Holds(x, results, InvalidSemantics)
  {
    hide AllCanonical, KeysDiffer, AllValid, ResultsDiffer, OneToOne, ValidSemantics, IdsUnique, KeysUnique,
      GroundedChecks, RunChecks, OfScenarios, HoldsOf, GroundingFits, ResultKey, KeyOf;
  }

  lemma RunRefusals(x: Authorities, results: seq<ExecutionResult>)
    ensures x.completed < x.created ==> Holds(x, results, CompletedTooEarly)
    ensures !GroundingFits(x) ==> Holds(x, results, ForeignGroundingRun)
    ensures OfScenarios(x.scenarios) == [] ==> Holds(x, results, NoChecks)
    ensures !IdsUnique(RunChecks(x, results)) ==> Holds(x, results, DuplicateCheckId)
    ensures !KeysUnique(RunChecks(x, results)) ==> Holds(x, results, DuplicateCheckKey)
    ensures |GroundedChecks(RunChecks(x, results))| > 1 ==> Holds(x, results, ManyGroundedChecks)
  {
    hide AllCanonical, KeysDiffer, AllValid, ResultsDiffer, OneToOne, ValidSemantics, IdsUnique, KeysUnique,
      GroundedChecks, RunChecks, OfScenarios, HoldsOf, GroundingFits, ResultKey, KeyOf;
  }

  /** A refusal is one of the run or of one of its results. */
  lemma RefusalHoldsOfRun(x: Authorities, results: seq<ExecutionResult>, a: Authority, r: ExecutionResult)
    requires a in OfScenarios(x.scenarios) && r in results && ResultKey(r) == KeyOf(a)
    ensures CheckFor(x, a, r).Refused? ==> Holds(x, results, CheckFor(x, a, r).why)
  {
    hide CheckFor, OfScenarios, ResultKey, KeyOf;
    RefusalHolds(x, a, r);
  }

  /** Without assertions there are no checks, and only then. */
  lemma NoChecksIff(x: Authorities, results: seq<ExecutionResult>)
    requires Admitted(x, OfScenarios(x.scenarios), results)
    ensures RunChecks(x, results) == [] <==> OfScenarios(x.scenarios) == []
  {
    hide OfScenarios, CheckFor, KeyOf;
    ChecksForLength(x, OfScenarios(x.scenarios), results);
    SortPermutes(RunOrder(), ChecksFor(x, OfScenarios(x.scenarios), results));
    assert |multiset(RunChecks(x, results))| == |multiset(ChecksFor(x, OfScenarios(x.scenarios), results))|;
  }

  /** The check of every assertion, from the result that answers it. */
  method BuildChecks(x: Authorities, results: seq<ExecutionResult>, all: seq<Authority>,
                     answers: map<Key, ExecutionResult>)
    returns (r: Outcome<seq<Check>>)
    requires all == OfScenarios(x.scenarios) && Indexes(results, answers) && Keys(all) == answers.Keys
    ensures r.Built? <==> Admitted(x, all, results)
    ensures r.Built? ==> r.value == ChecksFor(x, all, results)
    ensures r.Refused? ==> Holds(x, results, r.why)
  {
    hide KeyOf, OfScenarios, CheckFor, Holds, ResultKey, Answer;
    var checks: seq<Check> := [];
    for k := 0 to |all|
      invariant checks == ChecksFor(x, all[..k], results)
      invariant Admitted(x, all[..k], results)
    {
      assert all[..k + 1] == all[..k] + [all[k]] && all[..k + 1][..k] == all[..k];
      assert all[k] in all;
      AnswerIsMapped(results, answers, KeyOf(all[k]));
      var check := CheckFor(x, all[k], answers[KeyOf(all[k])]);
      if check.Refused? {
        RefusalHoldsOfRun(x, results, all[k], answers[KeyOf(all[k])]);
        return Refused(check.why);
      }
      checks := checks + [check.value];
    }
    assert all[..|all|] == all;
    r := Built(checks);
  }

  /** Builds the checks and validates the run: nonempty, with no identity and no key used twice, its grounding
      its own, and at most one check grounded. */
  method BuildVerificationRun(x: Authorities, results: seq<ExecutionResult>) returns (r: Outcome<seq<Check>>)
    ensures r.Built? <==> Accepted(x, results)
    ensures r.Built? ==> r.value == RunChecks(x, results)
    ensures r.Refused? ==> Holds(x, results, r.why)
  {
    hide KeyOf, Canonical, KeysDiffer, AllCanonical, OfScenarios, CheckFor, ResultsDiffer, IdsUnique, KeysUnique, Sort,
      Indexes, AllValid, ValidSemantics, GroundedChecks, Holds;
    ArtifactRefusals(x, results);
    RunRefusals(x, results);
    if x.found != x.recorded {
      return Refused(StaleUpstream);
    }
    var authorities := AssertionAuthorities(x);
    if authorities.Refused? {
      return Refused(authorities.why);
    }
    var mapped := ExecutionResults(x, results);
    if mapped.Refused? {
      return Refused(mapped.why);
    }
    var all, answers := authorities.value, mapped.value;
    KeysMatchIff(all, results, answers);
    if Keys(all) != answers.Keys {
      return Refused(NotOneToOne);
    }
    if !ValidSemantics(x.resolution, x.resolutionFingerprint) {
      return Refused(InvalidSemantics);
    }
    var built := BuildChecks(x, results, all, answers);
    if built.Refused? {
      return Refused(built.why);
    }
    var checks := Sort(RunOrder(), built.value);
    if x.completed < x.created {
      return Refused(CompletedTooEarly);
    }
    NoChecksIff(x, results);
    if checks == [] {
      return Refused(NoChecks);
    }
    if !IdsUnique(checks) {
      return Refused(DuplicateCheckId);
    }
    if !KeysUnique(checks) {
      return Refused(DuplicateCheckKey);
    }
    if !GroundingFits(x) {
      return Refused(ForeignGroundingRun);
    }
    if |GroundedChecks(checks)| > 1 {
      return Refused(ManyGroundedChecks);
    }
    r := Built(checks);
  }

  lemma AnswerIsMapped(results: seq<ExecutionResult>, m: map<Key, ExecutionResult>, key: Key)
    requires Indexes(results, m)
    ensures key in m <==> Answer(results, key).Some?
    ensures key in m ==> Answer(results, key).value == m[key]
  {
  }

  lemma KeysMatchIff(all: seq<Authority>, results: seq<ExecutionResult>, m: map<Key, ExecutionResult>)
    requires Indexes(results, m) && ResultsDiffer(results)
    ensures Keys(all) == m.Keys <==> OneToOne(all, results)
  {
    hide KeyOf;
    forall key
      ensures key in m <==> Answer(results, key).Some?
    {
      AnswerIsMapped(results, m, key);
    }
    if OneToOne(all, results) {
      forall key
        ensures key in Keys(all) <==> key in m
      {
        if key in m {
          assert m[key] in results && ResultKey(m[key]) == key;
        }
      }
    } else {
      if Keys(all) == m.Keys {
        forall a | a in all
          ensures Answer(results, KeyOf(a)).Some?
        {
          assert KeyOf(a) in Keys(all);
        }
      }
    }
  }

  lemma {:induction false} ChecksForLength(x: Authorities, all: seq<Authority>, results: seq<ExecutionResult>)
    requires Admitted(x, all, results)
    ensures |ChecksFor(x, all, results)| == |all|
    ensures forall k :: 0 <= k < |all| ==>
              CheckFor(x, all[k], Answer(results, KeyOf(all[k])).value) == Built(ChecksFor(x, all, results)[k])
  {
    hide CheckFor, KeyOf;
    if all != [] {
      var n := |all| - 1;
      assert all == all[..n] + [all[n]];
      assert all[n] in all;
      ChecksForLength(x, all[..n], results);
      forall k | 0 <= k < n
        ensures CheckFor(x, all[k], Answer(results, KeyOf(all[k])).value) == Built(ChecksFor(x, all, results)[k])
      {
        assert all[..n][k] == all[k];
      }
    }
  }
}
