/** What a verification run holds, field by field: which run is accepted, what each of its checks says about the
    assertion and the result it is made of, in which order the checks stand, and what two checks have in common
    whose logical keys are equal, within one run or across runs. */
module RunContents {
  import opened Foundations
  import opened Identity
  import opened PaymentGraph
  import opened ApplicabilityContracts
  import opened AssertionTexts
  import opened ApplicabilityEngine
  import opened ApplicabilityCatalog
  import opened ScenarioResults
  import opened VerificationChecks
  import opened RunNormalization
  import opened RunIdentities

  // ------------------------------------------------------------ which run is accepted

  /** The artifact lists the assertion, in this instance of this scenario. */
  ghost predicate Listed(x: Authorities, a: Authority) {
    exists c :: c in x.scenarios && c.id == a.scenario && a.instance in c.instances
                && a.assertion in a.instance.assertions
  }

  predicate AnswersTo(r: ExecutionResult, a: Authority) {
    r.scenario == a.scenario && r.instance == a.instance.id && r.assertion == a.assertion.id
  }

  /** One request where the definition has one role, two elsewhere. */
  function Roles(key: AssertionKey): nat {
    if key in {SG01_VALUE, SG07_VALUE, SG08_VALUE} then 1 else 2
  }

  /** The result is under the artifact, definition and control of the assertion; it has no more requests than
      there are roles and no diagnostic twice; a grounded input is SG-01's and is the very resource acquired for
      the run; and the source spans can be read. */
  ghost predicate Acceptable(x: Authorities, a: Authority, r: ExecutionResult) {
    && r.applicability == x.applicability && r.definition == x.definitionOf(a.scenario)
    && r.control == a.assertion.control
    && |r.observations| <= Roles(a.assertion.key) && NoDuplicates(r.diagnostics)
    && (r.input.Some? && r.input.value.GroundedInput? ==>
          && a.scenario == SG01 && x.grounding.Some? && x.grounding.value.grounded
          && x.grounding.value.fingerprint == r.input.value.fingerprint
          && x.grounding.value.projection == Some(r.input.value.projection))
    && x.spansReadable(a, r)
  }

  /** The result has dynamic evidence on a grounded input. */
  predicate GroundedDynamically(r: ExecutionResult) {
    r.input.Some? && r.input.value.GroundedInput? && r.tier == Some(E3_DYNAMIC_VERIFIED)
  }

  ghost predicate AcceptableRun(x: Authorities, results: seq<ExecutionResult>) {
    && x.found.project == x.recorded.project && x.found.sourceIndex == x.recorded.sourceIndex
    && x.found.structural == x.recorded.structural && x.found.projected == x.recorded.projected
    && (x.resolution.Some? ==>
          if x.resolution.value.unique then x.resolution.value.selected.Some? && x.resolutionFingerprint.Some?
          else x.resolution.value.selected.None?)
    && x.created <= x.completed
    && (x.grounding.Some? ==>
          x.grounding.value.run == x.run && x.created <= x.grounding.value.acquired <= x.completed)
    && (forall r :: r in results ==> ValidResult(x.contract, r))
    && (forall i, j :: 0 <= i < j < |results| ==>
          !(results[i].scenario == results[j].scenario && results[i].instance == results[j].instance
            && results[i].assertion == results[j].assertion))
    && (forall r :: r in results ==> exists a :: Listed(x, a) && AnswersTo(r, a))
    && (forall a :: Listed(x, a) ==> exists r :: r in results && AnswersTo(r, a) && Acceptable(x, a, r))
    && (forall r, q :: r in results && q in results && GroundedDynamically(r) && GroundedDynamically(q) ==> r == q)
  }

  lemma ListedIff(x: Authorities, a: Authority)
    ensures a in OfScenarios(x.scenarios) <==> Listed(x, a)
  {
    OfScenariosExact(x.scenarios, a);
  }

  lemma AcceptableIff(x: Authorities, a: Authority, r: ExecutionResult)
    ensures ProperAnswer(x, a, r) <==> Acceptable(x, a, r)
    ensures Promoted(r) <==> GroundedDynamically(r)
  {
    CountedElements(r.diagnostics);
  }

  lemma AnswersToIff(results: seq<ExecutionResult>, a: Authority, r: ExecutionResult)
    requires ResultsDiffer(results)
    ensures ResultKey(r) == KeyOf(a) <==> AnswersTo(r, a)
    ensures r in results && AnswersTo(r, a) <==> Answer(results, KeyOf(a)) == Some(r)
  {
    if r in results && AnswersTo(r, a) {
      AnswerIsTheResult(results, r);
    }
  }

  lemma ProperIff(x: Authorities, results: seq<ExecutionResult>)
    ensures Proper(x, results) <==> AcceptableRun(x, results)
  {
    hide OfScenarios, ProperAnswer, Acceptable, Promoted, GroundedDynamically, ValidResult, Answer, KeyOf, AnswersTo,
      Listed;
    var all := OfScenarios(x.scenarios);
    ResultsDifferIff(results);
    forall a
      ensures a in all <==> Listed(x, a)
    {
      ListedIff(x, a);
    }
    forall a, r
      ensures ProperAnswer(x, a, r) <==> Acceptable(x, a, r)
      ensures Promoted(r) <==> GroundedDynamically(r)
    {
      AcceptableIff(x, a, r);
    }
    if ResultsDiffer(results) {
      forall a, r
        ensures ResultKey(r) == KeyOf(a) <==> AnswersTo(r, a)
        ensures r in results && AnswersTo(r, a) <==> Answer(results, KeyOf(a)) == Some(r)
      {
        AnswersToIff(results, a, r);
      }
      PromotedIff(results);
      KeysAreListed(x, results);
    }
  }

  lemma PromotedIff(results: seq<ExecutionResult>)
    ensures forall r :: Promoted(r) <==> GroundedDynamically(r)
  {
  }

  lemma ResultsDifferIff(results: seq<ExecutionResult>)
    ensures ResultsDiffer(results)
       <==> forall i, j :: 0 <= i < j < |results| ==>
              !(results[i].scenario == results[j].scenario && results[i].instance == results[j].instance
                && results[i].assertion == results[j].assertion)
  {
  }

  lemma KeysAreListed(x: Authorities, results: seq<ExecutionResult>)
    ensures (forall r :: r in results ==> ResultKey(r) in Keys(OfScenarios(x.scenarios)))
       <==> (forall r :: r in results ==> exists a :: Listed(x, a) && AnswersTo(r, a))
  {
    hide OfScenarios, Listed;
    forall a
      ensures a in OfScenarios(x.scenarios) <==> Listed(x, a)
    {
      ListedIff(x, a);
    }
    forall r | r in results
      ensures ResultKey(r) in Keys(OfScenarios(x.scenarios)) <==> exists a :: Listed(x, a) && AnswersTo(r, a)
    {
    }
  }

  /** For an artifact of the engine a run is accepted exactly when it is acceptable. */
  lemma RunIsAcceptedIff(x: Authorities, e: Context, results: seq<ExecutionResult>)
    requires FromEngine(x, e)
    ensures Accepted(x, results) <==> AcceptableRun(x, results)
  {
    hide FromEngine, Accepted, Proper, AcceptableRun;
    EngineRunIsAccepted(x, e, results);
    ProperIff(x, results);
  }

  // ------------------------------------------------------------ what a check says

  /** The control whose value a check is about: the instance's, or else the result's. */
  function ControlIds(a: Authority, r: ExecutionResult): set<string> {
    if a.instance.control.Some? then {a.instance.control.value}
    else if r.control.Some? then {r.control.value} else {}
  }

  ghost predicate OnlyOneOf(controls: seq<Control>, c: Control) {
    forall d :: d in controls && d.id == c.id ==> d == c
  }

  ghost predicate TellsTargets(x: Authorities, a: Authority, r: ExecutionResult, t: Targets) {
    var ingress := if a.instance.ingress.Some? then NodeAt(x.graph.nodes, a.instance.ingress.value) else None;
    && t.ingress == a.instance.ingress && t.route == a.instance.route && t.control == r.control
    && t.ingressSymbol == (if ingress.Some? then Some(ingress.value.symbol) else None)
    && (forall c :: c in x.controls && c.id in ControlIds(a, r) && OnlyOneOf(x.controls, c) ==>
          t.valueNode == Some(c.valueNode) && t.valueSymbol == Some(c.valueSymbol) && t.edge == Some(c.edge))
    && (a.instance.control.None? && r.control.None? ==> t.valueNode.None? && t.valueSymbol.None? && t.edge.None?)
  }

  /** The check repeats the assertion's identities and the result's evidence; dynamic evidence on a grounded input
      is called grounded, and only that. */
  ghost predicate Tells(x: Authorities, a: Authority, r: ExecutionResult, c: Check) {
    && c.id == StableId(x.digest, "sgcheck", [x.run, a.instance.id, a.assertion.id])
    && c.scenario == a.scenario && c.instance == a.instance.id && c.assertion == a.assertion.id
    && c.assertionKey == a.assertion.key && c.role == a.assertion.role
    && c.result == r.result && c.reason == r.reason && c.input == r.input
    && c.runtime.capability == r.runtime.capability && c.runtime.session == r.runtime.session
    && c.runtime.transcript == r.runtime.transcript && c.runtime.diagnostics == r.diagnostics
    && |c.runtime.requests| == |r.observations|
    && (forall k :: 0 <= k < |r.observations| ==> c.runtime.requests[k] == r.observations[k].request)
    && (if GroundedDynamically(r) then
          c.tier == Some(E4_RAZORPAY_GROUNDED)
          && c.grounding == Some(Grounding(r.input.value.fingerprint, r.input.value.projection))
        else c.tier == r.tier && c.grounding == None)
    && TellsTargets(x, a, r, c.targets)
  }

  lemma BuiltCheckTells(x: Authorities, a: Authority, r: ExecutionResult)
    ensures CheckFor(x, a, r).Built? ==> Tells(x, a, r, CheckFor(x, a, r).value)
  {
    hide CheckKey, SortedSet, OfKind, NodesOfReasons, ValidCheck, GroundedHere, Projectable, StableId;
    if CheckFor(x, a, r).Built? {
      TargetsAreTold(x, a, r);
    }
  }

  lemma TargetsAreTold(x: Authorities, a: Authority, r: ExecutionResult)
    ensures TellsTargets(x, a, r, TargetsOf(x, a, r))
  {
    hide SortedSet, OfKind, NodesOfReasons;
  }

  ghost predicate OfGraph(x: Authorities, kind: NodeKind, id: string) {
    NodeAt(x.graph.nodes, id).Some? && NodeAt(x.graph.nodes, id).value.kind == kind
  }

  /** A reason of the assertion cites the node. */
  ghost predicate CitedBy(a: Authority, id: string) {
    exists reason :: reason in a.assertion.reasons && Evidence(GRAPH_NODE, id) in reason.evidence
  }

  /** The mutations and acknowledgements of a check: those of the graph that its assertion cites, the mutations that
      requests observed, and the acknowledgements whose failure was injected; in order, each once. */
  lemma TargetListsTold(x: Authorities, a: Authority, r: ExecutionResult)
    ensures var t := TargetsOf(x, a, r);
            && NoDuplicates(t.mutations) && Sorted(StringLe, t.mutations)
            && NoDuplicates(t.acknowledgements) && Sorted(StringLe, t.acknowledgements)
            && (forall id :: id in t.mutations <==>
                  OfGraph(x, MerchantStateMutation, id)
                  && (CitedBy(a, id)
                      || exists o :: o in r.observations && o.MutationObservation? && id in o.mutations))
            && (forall id :: id in t.acknowledgements <==>
                  (OfGraph(x, AcknowledgementBoundary, id) && CitedBy(a, id))
                  || exists o :: o in r.observations && o.CustomerObservation? && o.failedAck == Some(id))
  {
    hide TargetsOf;
    TargetsExact(x, a, r);
    forall id
      ensures id in ObservedMutations(r.observations)
         <==> exists o :: o in r.observations && o.MutationObservation? && id in o.mutations
      ensures id in FailedAcks(r.observations)
         <==> exists o :: o in r.observations && o.CustomerObservation? && o.failedAck == Some(id)
    {
      ObservedMember(r.observations, id);
    }
  }

  /** The number of a scenario and the place of an assertion in it. */
  function Number(s: ScenarioId): nat {
    match s
    case SG01 => 1 case SG02 => 2 case SG03 => 3 case SG04 => 4
    case SG05 => 5 case SG06 => 6 case SG07 => 7 case SG08 => 8
  }

  function Place(key: AssertionKey): nat {
    if key in {SG04_REGRESSION, SG05_VALUE, SG06_VALUE, SG08_CAPTURE} then 1 else if key == SG08_VALUE then 2 else 0
  }

  /** By scenario, then by instance identity, then by the order of the scenario's assertions. */
  predicate NotAfter(c: Check, d: Check) {
    || Number(c.scenario) < Number(d.scenario)
    || (c.scenario == d.scenario
        && (c.instance == d.instance ==> Place(c.assertionKey) <= Place(d.assertionKey))
        && StringLe(c.instance, d.instance))
  }

  lemma OneCharacterOrder(front: string, a: char, b: char)
    ensures StringLe(front + [a], front + [b]) <==> a <= b
  {
    if front != "" {
      assert (front + [a])[1..] == front[1..] + [a] && (front + [b])[1..] == front[1..] + [b];
      OneCharacterOrder(front[1..], a, b);
    }
  }

  function Digit(n: nat): char
    requires n < 9
  {
    '0' + n as char
  }

  lemma ScenarioTextOrder(s: ScenarioId, t: ScenarioId)
    ensures StringLe(ScenarioText(s), ScenarioText(t)) <==> Number(s) <= Number(t)
  {
    assert ScenarioText(s) == "SG-0" + [Digit(Number(s))];
    assert ScenarioText(t) == "SG-0" + [Digit(Number(t))];
    OneCharacterOrder("SG-0", Digit(Number(s)), Digit(Number(t)));
  }

  lemma RankOrder(k: AssertionKey, l: AssertionKey)
    ensures StringLe(AssertionRank(k), AssertionRank(l)) <==> Place(k) <= Place(l)
  {
    assert AssertionRank(k) == "" + [Digit(Place(k))] && AssertionRank(l) == "" + [Digit(Place(l))];
    OneCharacterOrder("", Digit(Place(k)), Digit(Place(l)));
  }

  lemma RunOrderIsNotAfter(c: Check, d: Check)
    requires RunOrder()(c, d)
    ensures NotAfter(c, d)
  {
    hide ScenarioText, AssertionRank, StringLe, Place;
    ScenarioTextOrder(c.scenario, d.scenario);
    RankOrder(c.assertionKey, d.assertionKey);
    ScenarioTextsAgree(c.scenario, d.scenario);
    StringLeTotal(c.instance, c.instance);
    StringLeTotal(AssertionRank(c.assertionKey), AssertionRank(c.assertionKey));
    assert TupleLe(RunPlace(c), RunPlace(d));
    TupleOfThree(ScenarioText(c.scenario), c.instance, AssertionRank(c.assertionKey),
                 ScenarioText(d.scenario), d.instance, AssertionRank(d.assertionKey));
  }

  lemma TupleOfThree(a: string, b: string, c: string, a': string, b': string, c': string)
    requires TupleLe([a, b, c], [a', b', c'])
    ensures a == a' || StringLe(a, a')
    ensures a == a' ==> b == b' || StringLe(b, b')
    ensures a == a' && b == b' ==> c == c' || StringLe(c, c')
  {
    hide StringLe, TupleLe;
    assert [a, b, c] == [a] + [b, c] && [a', b', c'] == [a'] + [b', c'];
    assert [b, c] == [b] + [c] && [b', c'] == [b'] + [c'];
    assert [c] == [c] + [] && [c'] == [c'] + [];
    TupleStep(a, [b, c], a', [b', c']);
    TupleStep(b, [c], b', [c']);
    TupleStep(c, [], c', []);
  }

  lemma TupleStep(a: string, s: seq<string>, b: string, t: seq<string>)
    ensures TupleLe([a] + s, [b] + t) ==> if a == b then TupleLe(s, t) else StringLe(a, b)
  {
    hide StringLe;
    assert ([a] + s)[1..] == s && ([b] + t)[1..] == t;
  }

  lemma ScenarioTextsAgree(s: ScenarioId, t: ScenarioId)
    ensures ScenarioText(s) == ScenarioText(t) <==> s == t
    ensures Number(s) == Number(t) <==> s == t
  {
    if ScenarioText(s) == ScenarioText(t) {
      ScenarioTextsDiffer(s, t);
    }
  }

  /** The check of the k-th assertion, and the result it is made of. */
  ghost predicate ToldAt(x: Authorities, results: seq<ExecutionResult>, a: Authority, r: ExecutionResult, c: Check) {
    Listed(x, a) && r in results && AnswersTo(r, a) && Tells(x, a, r, c)
  }

  lemma UnsortedTells(x: Authorities, results: seq<ExecutionResult>)
    requires Accepted(x, results)
    ensures var all := OfScenarios(x.scenarios);
            var unsorted := ChecksFor(x, all, results);
            && |unsorted| == |all| && (forall a :: a in all ==> Answer(results, KeyOf(a)).Some?)
            && forall k :: 0 <= k < |all| ==>
                 ToldAt(x, results, all[k], Answer(results, KeyOf(all[k])).value, unsorted[k])
  {
    hide OfScenarios, CheckFor, KeyOf, ValidResult, Listed, AnswersTo, Tells, IdsUnique, KeysUnique, GroundedChecks,
      AllCanonical, KeysDiffer, ValidSemantics, Answer, ResultKey, RunChecks;
    var all := OfScenarios(x.scenarios);
    ChecksForLength(x, all, results);
    forall k | 0 <= k < |all|
      ensures ToldAt(x, results, all[k], Answer(results, KeyOf(all[k])).value, ChecksFor(x, all, results)[k])
    {
      var r := Answer(results, KeyOf(all[k])).value;
      ListedIff(x, all[k]);
      BuiltCheckTells(x, all[k], r);
      AnswersToIff(results, all[k], r);
    }
  }

  lemma RunIsInOrder(x: Authorities, results: seq<ExecutionResult>)
    ensures var checks, unsorted := RunChecks(x, results), ChecksFor(x, OfScenarios(x.scenarios), results);
            && |checks| == |unsorted| && (forall c :: c in checks <==> c in unsorted)
            && forall i, j :: 0 <= i < j < |checks| ==> NotAfter(checks[i], checks[j])
  {
    hide OfScenarios, ChecksFor, Sort, RunPlace, NotAfter, TupleLe;
    var checks, unsorted := RunChecks(x, results), ChecksFor(x, OfScenarios(x.scenarios), results);
    ByTupleIsPreorder(RunPlace);
    SortPermutes(RunOrder(), unsorted);
    SortSorts(RunOrder(), unsorted);
    PermutationMembers(checks, unsorted);
    assert |multiset(checks)| == |multiset(unsorted)|;
    forall i, j | 0 <= i < j < |checks|
      ensures NotAfter(checks[i], checks[j])
    {
      RunOrderIsNotAfter(checks[i], checks[j]);
    }
  }

  lemma CheckIsTold(x: Authorities, results: seq<ExecutionResult>, c: Check)
    requires Accepted(x, results) && c in RunChecks(x, results)
    ensures exists a, r :: ToldAt(x, results, a, r, c)
  {
    hide OfScenarios, KeyOf, ToldAt, Answer, RunChecks, ChecksFor, Accepted, NotAfter;
    var all := OfScenarios(x.scenarios);
    var unsorted := ChecksFor(x, all, results);
    UnsortedTells(x, results);
    RunIsInOrder(x, results);
    var k :| 0 <= k < |unsorted| && unsorted[k] == c;
    assert ToldAt(x, results, all[k], Answer(results, KeyOf(all[k])).value, c);
  }

  lemma AssertionIsTold(x: Authorities, results: seq<ExecutionResult>, a: Authority)
    requires Accepted(x, results) && Listed(x, a)
    ensures exists r, c :: c in RunChecks(x, results) && ToldAt(x, results, a, r, c)
    ensures Answer(results, KeyOf(a)).Some?
            && exists c :: c in RunChecks(x, results) && ToldAt(x, results, a, Answer(results, KeyOf(a)).value, c)
  {
    hide OfScenarios, KeyOf, ToldAt, Answer, RunChecks, ChecksFor, Accepted, Listed, NotAfter;
    var all := OfScenarios(x.scenarios);
    var unsorted := ChecksFor(x, all, results);
    UnsortedTells(x, results);
    RunIsInOrder(x, results);
    ListedIff(x, a);
    var k :| 0 <= k < |all| && all[k] == a;
    assert unsorted[k] in RunChecks(x, results);
    assert ToldAt(x, results, a, Answer(results, KeyOf(a)).value, unsorted[k]);
  }

  lemma ResultIsTold(x: Authorities, results: seq<ExecutionResult>, r: ExecutionResult)
    requires Accepted(x, results) && r in results
    ensures exists a, c :: c in RunChecks(x, results) && ToldAt(x, results, a, r, c)
  {
    hide OfScenarios, KeyOf, ToldAt, Answer, RunChecks, Accepted, AnswersTo, Listed;
    ResultIsAnswered(x, results, r);
    var all := OfScenarios(x.scenarios);
    var k :| 0 <= k < |all| && Answer(results, KeyOf(all[k])) == Some(r) && AnswersTo(r, all[k]);
    ListedIff(x, all[k]);
    AssertionIsTold(x, results, all[k]);
  }

  lemma EveryAssertionOnce(x: Authorities, results: seq<ExecutionResult>)
    requires Accepted(x, results)
    ensures var checks := RunChecks(x, results);
            && |checks| == |OfScenarios(x.scenarios)|
            && (forall i, j :: 0 <= i < j < |checks| ==> NotAfter(checks[i], checks[j]))
  {
    hide *;
    UnsortedTells(x, results);
    RunIsInOrder(x, results);
  }

  /** The checks of an accepted run: one for every result and every listed assertion, saying exactly what they say,
      in order. */
  lemma RunTells(x: Authorities, results: seq<ExecutionResult>)
    requires Accepted(x, results)
    ensures forall c :: c in RunChecks(x, results) ==> exists a, r :: ToldAt(x, results, a, r, c)
    ensures forall r :: r in results ==> exists a, c :: c in RunChecks(x, results) && ToldAt(x, results, a, r, c)
    ensures forall a :: Listed(x, a) ==> exists r, c :: c in RunChecks(x, results) && ToldAt(x, results, a, r, c)
    ensures |RunChecks(x, results)| == |OfScenarios(x.scenarios)|
    ensures forall i, j :: 0 <= i < j < |RunChecks(x, results)| ==>
              NotAfter(RunChecks(x, results)[i], RunChecks(x, results)[j])
  {
    hide *;
    EveryAssertionOnce(x, results);
    forall c | c in RunChecks(x, results)
      ensures exists a, r :: ToldAt(x, results, a, r, c)
    {
      CheckIsTold(x, results, c);
    }
    forall r | r in results
      ensures exists a, c :: c in RunChecks(x, results) && ToldAt(x, results, a, r, c)
    {
      ResultIsTold(x, results, r);
    }
    forall a | Listed(x, a)
      ensures exists r, c :: c in RunChecks(x, results) && ToldAt(x, results, a, r, c)
    {
      AssertionIsTold(x, results, a);
    }
  }

  lemma ResultIsAnswered(x: Authorities, results: seq<ExecutionResult>, r: ExecutionResult)
    requires Accepted(x, results) && r in results
    ensures exists k :: 0 <= k < |OfScenarios(x.scenarios)|
                        && Answer(results, KeyOf(OfScenarios(x.scenarios)[k])) == Some(r)
                        && AnswersTo(r, OfScenarios(x.scenarios)[k])
  {
    hide OfScenarios, Admitted, RunChecks, ValidResult, AllCanonical;
    var all := OfScenarios(x.scenarios);
    var a :| a in all && KeyOf(a) == ResultKey(r);
    var k :| 0 <= k < |all| && all[k] == a;
    AnswerIsTheResult(results, r);
  }

  /** A check of an accepted run is verified exactly when its evidence is dynamic, and then it has an input,
      requests, and a session with its capability and transcript; only SG-01 is called grounded. */
  lemma VerifiedChecksAreEvidenced(x: Authorities, results: seq<ExecutionResult>, c: Check)
    requires Accepted(x, results) && c in RunChecks(x, results)
    ensures c.result == VERIFIED_PASS || c.result == VERIFIED_FAIL
       <==> c.tier == Some(E3_DYNAMIC_VERIFIED) || c.tier == Some(E4_RAZORPAY_GROUNDED)
    ensures c.result == VERIFIED_PASS || c.result == VERIFIED_FAIL ==>
              c.input.Some? && c.runtime.requests != [] && c.runtime.session.Some? && c.runtime.capability.Some?
              && c.runtime.transcript.Some?
    ensures c.tier == Some(E4_RAZORPAY_GROUNDED) ==>
              c.scenario == SG01 && c.grounding.Some?
              && c.input == Some(GroundedInput(c.grounding.value.fingerprint, c.grounding.value.projection))
    ensures c.tier != Some(E4_RAZORPAY_GROUNDED) ==> c.grounding.None?
    ensures NoDuplicates(c.runtime.requests) && NoDuplicates(c.runtime.diagnostics)
  {
    hide Accepted, RunChecks, CountTier, CountResult;
    AcceptedRunIsDynamic(x, results);
    CountedElements(c.runtime.requests);
    CountedElements(c.runtime.diagnostics);
  }

  // ------------------------------------------------------------ what equal keys have in common

  /** The fields of the two checks that name their assertion. */
  predicate SameNames(x: Authorities, c: Check, y: Authorities, d: Check) {
    && x.recorded.project == y.recorded.project && c.scenario == d.scenario && c.assertionKey == d.assertionKey
    && c.targets.ingress == d.targets.ingress && c.targets.route == d.targets.route
    && c.targets.ingressSymbol == d.targets.ingressSymbol && c.targets.valueNode == d.targets.valueNode
    && c.targets.valueSymbol == d.targets.valueSymbol && c.targets.edge == d.targets.edge
  }

  /** The policies that the scenario's outcome depends on are the same: the fulfilment policy for SG-01, both for
      SG-08, none for the others. */
  predicate SamePolicies(x: Authorities, y: Authorities, s: ScenarioId) {
    && (s == SG01 || s == SG08 ==> x.policy.fulfilment.confirmed == y.policy.fulfilment.confirmed)
    && (s == SG08 ==> x.policy.late.confirmed == y.policy.late.confirmed)
  }

  function PolicyTexts(x: Authorities, s: ScenarioId): seq<string> {
    var fulfilment := "('FULFILMENT', '" + FulfilmentText(x.policy.fulfilment.confirmed) + "')";
    var late := "('LATE_AUTHORISATION', '" + LateText(x.policy.late.confirmed) + "')";
    if s == SG01 then [fulfilment] else if s == SG08 then [fulfilment, late] else []
  }

  function LogicalKey(x: Authorities, c: Check): string {
    StableId(x.digest, "sgcheckkey",
             FixedParts(x.texts, x.recorded.project, c.scenario, c.assertionKey, c.targets)
             + c.targets.mutations + c.targets.acknowledgements + PolicyTexts(x, c.scenario))
  }

  lemma KeyIsLogical(x: Authorities, a: Authority, r: ExecutionResult)
    ensures CheckFor(x, a, r).Built? ==> CheckFor(x, a, r).value.key == LogicalKey(x, CheckFor(x, a, r).value)
  {
    hide ValidCheck, GroundedHere, Projectable, StableId, FixedParts, TargetsOf, PolicyParts, PolicyTexts;
    if CheckFor(x, a, r).Built? {
      PartsAreTexts(x, a.scenario);
    }
  }

  lemma PartsAreTexts(x: Authorities, s: ScenarioId)
    ensures PolicyParts(Definition(s == SG01 || s == SG08, s == SG08), x.policy) == PolicyTexts(x, s)
  {
    hide FulfilmentText, LateText;
  }

  lemma TextsDiffer()
    ensures forall p, q :: FulfilmentText(p) == FulfilmentText(q) ==> p == q
    ensures forall p, q :: LateText(p) == LateText(q) ==> p == q
    ensures forall p :: Plain(FulfilmentText(p))
    ensures forall p :: Plain(LateText(p))
  {
    assert |"UNRESOLVED"| == 10 && |"CAPTURE_REQUIRED"| == 16 && |"AUTHORIZED_ALLOWED"| == 18;
    assert |"FULFIL_LATER"| == 12 && |"DO_NOT_FULFIL"| == 13;
  }

  lemma LabelReadsBack(front: string, a: string, b: string, back: string)
    requires front + a + back == front + b + back
    ensures a == b
  {
    assert (front + a + back)[|front|..|front| + |a|] == a;
    assert |a| == |b|;
    assert (front + b + back)[|front|..|front| + |b|] == b;
  }

  lemma PlainAround(front: string, a: string, back: string)
    requires Plain(front) && Plain(a) && Plain(back)
    ensures UNIT_SEPARATOR !in front + a + back
  {
  }

  lemma FrontsArePlain()
    ensures Plain("('FULFILMENT', '") && Plain("('LATE_AUTHORISATION', '") && Plain("')")
  {
  }

  lemma PolicyTextsReadBack(x: Authorities, y: Authorities, s: ScenarioId)
    ensures Free(UNIT_SEPARATOR, PolicyTexts(x, s))
    ensures PolicyTexts(x, s) == PolicyTexts(y, s) <==> SamePolicies(x, y, s)
  {
    hide FulfilmentText, LateText, Plain;
    TextsDiffer();
    FrontsArePlain();
    var f, g := FulfilmentText(x.policy.fulfilment.confirmed), FulfilmentText(y.policy.fulfilment.confirmed);
    var l, m := LateText(x.policy.late.confirmed), LateText(y.policy.late.confirmed);
    PlainAround("('FULFILMENT', '", f, "')");
    PlainAround("('LATE_AUTHORISATION', '", l, "')");
    if PolicyTexts(x, s) == PolicyTexts(y, s) {
      if s == SG01 || s == SG08 {
        assert PolicyTexts(x, s)[0] == PolicyTexts(y, s)[0];
        LabelReadsBack("('FULFILMENT', '", f, g, "')");
      }
      if s == SG08 {
        assert PolicyTexts(x, s)[1] == PolicyTexts(y, s)[1];
        LabelReadsBack("('LATE_AUTHORISATION', '", l, m, "')");
      }
    }
  }

  lemma OrReadsBack(a: Option<string>, b: Option<string>, absent: string, prefix: string)
    requires absent != "" && absent[0] == 'N' && prefix != "" && prefix[0] != 'N'
    requires (a.Some? ==> IsId(prefix, a.value)) && (b.Some? ==> IsId(prefix, b.value))
    requires Or(a, absent) == Or(b, absent)
    ensures a == b
  {
    forall v | IsId(prefix, v)
      ensures v != absent
    {
      assert v[..|prefix| + 1][0] == prefix[0];
    }
  }

  /** The identities a check's targets hold are of their kinds. */
  ghost predicate KindsFit(t: Targets) {
    && (t.ingress.Some? ==> IsId("sgnode", t.ingress.value)) && (t.route.Some? ==> IsId("sgroute", t.route.value))
    && (t.ingressSymbol.Some? ==> IsId("sgsym", t.ingressSymbol.value))
    && (t.valueNode.Some? ==> IsId("sgnode", t.valueNode.value))
    && (t.valueSymbol.Some? ==> IsId("sgsym", t.valueSymbol.value))
    && (t.edge.Some? ==> IsId("sgedge", t.edge.value))
  }

  lemma TargetKindsFit(x: Authorities, e: Context, a: Authority, r: ExecutionResult)
    requires FromEngine(x, e) && a in OfScenarios(x.scenarios) && r.control == a.assertion.control
    ensures KindsFit(TargetsOf(x, a, r))
    ensures Free(UNIT_SEPARATOR,
                 FixedParts(x.texts, x.recorded.project, a.scenario, a.assertion.key, TargetsOf(x, a, r)))
  {
    hide TargetsOf, IsId, OfScenarios, Subjects, ScenariosFor, InstanceFor, FixedParts, Ready, DefinitionOf;
    var k := AuthorityTargets(x, e, a, r);
    var t := Subjects(e, x.controls, a.scenario)[k];
    SymbolIsId(x, e, a, r);
    if t.ForIngress? {
      EngineIsReady(x, e);
      IngressIsNode(e, t.ingress);
    }
  }

  lemma FixedPartsReadBack(texts: Texts, p: string, s: ScenarioId, k: AssertionKey, t: Targets,
                           p': string, s': ScenarioId, k': AssertionKey, t': Targets)
    requires GoodTexts(texts) && KindsFit(t) && KindsFit(t')
    requires FixedParts(texts, p, s, k, t) == FixedParts(texts, p', s', k', t')
    ensures p == p' && s == s' && k == k'
    ensures t.ingress == t'.ingress && t.route == t'.route && t.ingressSymbol == t'.ingressSymbol
    ensures t.valueNode == t'.valueNode && t.valueSymbol == t'.valueSymbol && t.edge == t'.edge
  {
    hide IsId, Or, ScenarioText;
    var f, g := FixedParts(texts, p, s, k, t), FixedParts(texts, p', s', k', t');
    assert f[1] == g[1] && f[2] == g[2] && f[3] == g[3];
    assert f[6] == g[6] && f[7] == g[7] && f[8] == g[8] && f[9] == g[9] && f[10] == g[10] && f[11] == g[11];
    ScenarioTextsDiffer(s, s');
    OrReadsBack(t.ingress, t'.ingress, NO_INGRESS, "sgnode");
    OrReadsBack(t.route, t'.route, NO_ROUTE, "sgroute");
    OrReadsBack(t.ingressSymbol, t'.ingressSymbol, NO_INGRESS_SYMBOL, "sgsym");
    OrReadsBack(t.valueNode, t'.valueNode, NO_CUSTOMER_NODE, "sgnode");
    OrReadsBack(t.valueSymbol, t'.valueSymbol, NO_CUSTOMER_SYMBOL, "sgsym");
    OrReadsBack(t.edge, t'.edge, NO_EDGE, "sgedge");
  }

  /** A check built from an artifact of the engine. */
  ghost predicate Made(x: Authorities, e: Context, a: Authority, r: ExecutionResult, c: Check) {
    FromEngine(x, e) && a in OfScenarios(x.scenarios) && CheckFor(x, a, r) == Built(c)
  }

  lemma MadeCheck(x: Authorities, e: Context, a: Authority, r: ExecutionResult, c: Check)
    requires Made(x, e, a, r, c)
    ensures GoodDigest(x.digest) && GoodTexts(x.texts) && KindsFit(c.targets) && c.key == LogicalKey(x, c)
    ensures Free(UNIT_SEPARATOR, FixedParts(x.texts, x.recorded.project, c.scenario, c.assertionKey, c.targets))
    ensures Free(UNIT_SEPARATOR, c.targets.mutations)
  {
    hide ValidCheck, GroundedHere, Projectable, StableId, FixedParts, TargetsOf, KindsFit, OfScenarios, ScenariosFor,
      LogicalKey, CheckKey, IsId;
    EngineIsReady(x, e);
    TargetKindsFit(x, e, a, r);
    KeyIsLogical(x, a, r);
    MutationsAreFree(x, e, a, r);
  }

  lemma MutationsAreFree(x: Authorities, e: Context, a: Authority, r: ExecutionResult)
    requires FromEngine(x, e)
    ensures Free(UNIT_SEPARATOR, TargetsOf(x, a, r).mutations)
  {
    hide TargetsOf, IsId, ScenariosFor, Cited;
    TargetsExact(x, a, r);
    var mutations := TargetsOf(x, a, r).mutations;
    forall i | 0 <= i < |mutations|
      ensures UNIT_SEPARATOR !in mutations[i]
    {
      assert mutations[i] in mutations && IsOfKind(x.graph, MerchantStateMutation, mutations[i]);
      assert ValidNode(NodeAt(x.graph.nodes, mutations[i]).value);
      IdIsSeparatorFree("sgnode", mutations[i]);
    }
  }

  lemma EqualKeysSameNames(x: Authorities, e: Context, a: Authority, r: ExecutionResult, c: Check,
                           y: Authorities, f: Context, b: Authority, q: ExecutionResult, d: Check)
    requires Made(x, e, a, r, c) && Made(y, f, b, q, d) && x.digest == y.digest && x.texts == y.texts
    requires c.key == d.key
    ensures SameNames(x, c, y, d) && SamePolicies(x, y, c.scenario)
    ensures Free(UNIT_SEPARATOR, c.targets.acknowledgements) && Free(UNIT_SEPARATOR, d.targets.acknowledgements) ==>
              c.targets.mutations + c.targets.acknowledgements == d.targets.mutations + d.targets.acknowledgements
  {
    hide Made, KindsFit, GoodDigest, GoodTexts, PolicyTexts, SamePolicies, Join;
    MadeCheck(x, e, a, r, c);
    MadeCheck(y, f, b, q, d);
    var fixed := FixedParts(x.texts, x.recorded.project, c.scenario, c.assertionKey, c.targets);
    var fixed' := FixedParts(y.texts, y.recorded.project, d.scenario, d.assertionKey, d.targets);
    var mid, mid' := c.targets.mutations + c.targets.acknowledgements, d.targets.mutations + d.targets.acknowledgements;
    var p, p' := PolicyTexts(x, c.scenario), PolicyTexts(y, d.scenario);
    PolicyTextsReadBack(x, y, c.scenario);
    PolicyTextsReadBack(y, x, d.scenario);
    assert fixed + c.targets.mutations + c.targets.acknowledgements + p == fixed + mid + p;
    assert fixed' + d.targets.mutations + d.targets.acknowledgements + p' == fixed' + mid' + p';
    PartsReadBack(x.digest, fixed, mid, p, fixed', mid', p');
    FixedPartsReadBack(x.texts, x.recorded.project, c.scenario, c.assertionKey, c.targets,
                       y.recorded.project, d.scenario, d.assertionKey, d.targets);
    PolicyLength(x, y, c.scenario);
  }

  lemma PolicyLength(x: Authorities, y: Authorities, s: ScenarioId)
    ensures |PolicyTexts(x, s)| == |PolicyTexts(y, s)|
  {
  }

  /** Of twelve leading parts, some in the middle and equally many last ones, the ends read back if they are
      separator free, and the middle if it is, too. */
  lemma PartsReadBack(h: Digest, f: seq<string>, m: seq<string>, p: seq<string>,
                      f': seq<string>, m': seq<string>, p': seq<string>)
    requires GoodDigest(h) && |f| == |f'| == 12 && Free(UNIT_SEPARATOR, f) && Free(UNIT_SEPARATOR, f')
    requires Free(UNIT_SEPARATOR, p) && Free(UNIT_SEPARATOR, p')
    requires StableId(h, "sgcheckkey", f + m + p) == StableId(h, "sgcheckkey", f' + m' + p')
    ensures f == f'
    ensures |p| == |p'| ==> p == p'
    ensures |p| == |p'| && Free(UNIT_SEPARATOR, m) && Free(UNIT_SEPARATOR, m') ==> m == m'
  {
    hide GoodDigest, StableId;
    var xs, ys := f + m + p, f' + m' + p';
    assert xs[..12] == f && ys[..12] == f';
    StableIdPrefixInjective(h, "sgcheckkey", xs, ys, 12);
    StableIdReadsBack(h, "sgcheckkey", xs, ys);
    if |p| == |p'| {
      assert xs[|xs| - |p|..] == p && ys[|ys| - |p'|..] == p';
      JoinSuffixReadsBack(UNIT_SEPARATOR, xs, ys, |p|);
      if Free(UNIT_SEPARATOR, m) && Free(UNIT_SEPARATOR, m') {
        JoinInjective(UNIT_SEPARATOR, xs, ys);
        assert xs[12..|xs| - |p|] == m && ys[12..|ys| - |p'|] == m';
      }
    }
  }

  /** Two checks of runs of the engine, the same run or two, have equal logical keys only if they are about the same
      assertion of the same project, and the policies its scenario depends on are the same; and they do have equal
      keys if moreover their mutations and acknowledgements agree. */
  lemma EqualKeysIff(x: Authorities, e: Context, a: Authority, r: ExecutionResult, c: Check,
                     y: Authorities, f: Context, b: Authority, q: ExecutionResult, d: Check)
    requires Made(x, e, a, r, c) && Made(y, f, b, q, d) && x.digest == y.digest && x.texts == y.texts
    ensures c.key == d.key ==> SameNames(x, c, y, d) && SamePolicies(x, y, c.scenario)
    ensures (SameNames(x, c, y, d) && SamePolicies(x, y, c.scenario)
             && c.targets.mutations == d.targets.mutations
             && c.targets.acknowledgements == d.targets.acknowledgements) ==> c.key == d.key
    ensures Free(UNIT_SEPARATOR, c.targets.acknowledgements) && Free(UNIT_SEPARATOR, d.targets.acknowledgements) ==>
              (c.key == d.key ==>
                 c.targets.mutations + c.targets.acknowledgements == d.targets.mutations + d.targets.acknowledgements)
  {
    hide Made, SamePolicies, PolicyTexts, Free;
    MadeCheck(x, e, a, r, c);
    MadeCheck(y, f, b, q, d);
    PolicyTextsReadBack(x, y, c.scenario);
    if c.key == d.key {
      EqualKeysSameNames(x, e, a, r, c, y, f, b, q, d);
    }
  }
}
