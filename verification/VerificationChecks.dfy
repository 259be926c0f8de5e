/** Verification checks: what one check records, its logical key, its place in the run, and the findings
    and summary derived from a run's checks. */
module VerificationChecks {
  import opened Foundations
  import opened Identity
  import opened ApplicabilityContracts
  import opened AssertionTexts
  import opened ScenarioResults

  /** The identities a check is about; the last two lists are in order and without repetition. */
  datatype Targets = Targets(ingress: Option<string>, route: Option<string>, ingressSymbol: Option<string>,
                             control: Option<string>, valueNode: Option<string>, valueSymbol: Option<string>,
                             edge: Option<string>, mutations: seq<string>, acknowledgements: seq<string>)

  datatype Check = Check(id: string, key: string, scenario: ScenarioId, instance: string, assertion: string,
                         assertionKey: AssertionKey, role: Role, targets: Targets, input: Option<Input>,
                         runtime: RuntimeEvidence, result: ResultState, tier: Option<Tier>,
                         grounding: Option<Grounding>, reason: string)

  /** What a check keeps of the run time: the observed requests in order, and the authority. */
  datatype RuntimeEvidence = RuntimeEvidence(capability: Option<string>, session: Option<string>,
                                             transcript: Option<string>, requests: seq<string>,
                                             diagnostics: seq<string>)

  /** Which acquired test resource an input was built from. */
  datatype Grounding = Grounding(fingerprint: string, projection: string)

  predicate ValidRuntimeEvidence(e: RuntimeEvidence) {
    && Unique(e.requests)
    && (e.requests != [] ==> e.session.Some?)
    && (e.transcript.Some? ==> e.session.Some? && e.capability.Some?)
    && Unique(e.diagnostics)
  }

  /** The contract of a check: verified exactly with dynamic evidence and complete run-time authority, and
      grounded only as SG-01 with the very grounding of its input. */
  predicate ValidCheck(c: Check) {
    && ValidRuntimeEvidence(c.runtime)
    && (if Verified(c.result) then
          && (c.tier == Some(E3_DYNAMIC_VERIFIED) || c.tier == Some(E4_RAZORPAY_GROUNDED))
          && c.input.Some? && c.runtime.requests != [] && c.runtime.session.Some?
          && c.runtime.capability.Some? && c.runtime.transcript.Some?
        else c.tier != Some(E3_DYNAMIC_VERIFIED) && c.tier != Some(E4_RAZORPAY_GROUNDED))
    && (if c.tier == Some(E4_RAZORPAY_GROUNDED) then
          && c.scenario == SG01 && c.grounding.Some?
          && c.input == Some(GroundedInput(c.grounding.value.fingerprint, c.grounding.value.projection))
        else c.grounding.None?)
  }

  // ------------------------------------------------------------ assertion definitions

  /** Which policies are part of the check key. */
  datatype Definition = Definition(fulfilmentKeyed: bool, lateKeyed: bool)

  function OwnerOf(key: AssertionKey): ScenarioId {
    match key
    case SG01_VALUE => SG01
    case SG02_VALUE => SG02
    case SG03_VALUE => SG03
    case SG04_VALUE => SG04
    case SG04_REGRESSION => SG04
    case SG05_MUTATION => SG05
    case SG05_VALUE => SG05
    case SG06_MUTATION => SG06
    case SG06_VALUE => SG06
    case SG07_VALUE => SG07
    case SG08_PRECAPTURE => SG08
    case SG08_CAPTURE => SG08
    case SG08_VALUE => SG08
  }

  /** The catalogue of assertion definitions; None stands for its KeyError. */
  function DefinitionOf(s: ScenarioId, key: AssertionKey): Option<Definition> {
    if OwnerOf(key) != s then None else Some(Definition(s == SG01 || s == SG08, s == SG08))
  }

  /** How many request roles the definition of an assertion has. */
  function RoleCount(key: AssertionKey): nat {
    match key
    case SG01_VALUE => 1
    case SG07_VALUE => 1
    case SG08_VALUE => 1
    case _ => 2
  }

  /** Position of the assertion among its scenario's definitions. */
  function AssertionRank(key: AssertionKey): string {
    match key
    case SG04_REGRESSION => "1"
    case SG05_VALUE => "1"
    case SG06_VALUE => "1"
    case SG08_CAPTURE => "1"
    case SG08_VALUE => "2"
    case _ => "0"
  }

  // ------------------------------------------------------------ check keys

  const INVARIANT_VERSION := "1"
  const KEY_VERSION := "VERIFICATION_CHECK_KEY_V1"
  const NO_INGRESS := "NO_INGRESS"
  const NO_ROUTE := "NO_ROUTE"
  const NO_INGRESS_SYMBOL := "NO_INGRESS_SYMBOL"
  const NO_CUSTOMER_NODE := "NO_CUSTOMER_NODE"
  const NO_CUSTOMER_SYMBOL := "NO_CUSTOMER_SYMBOL"
  const NO_EDGE := "NO_CONNECTIVITY_EDGE"

  function Or(value: Option<string>, absent: string): string {
    if value.Some? then value.value else absent
  }

  function FulfilmentText(p: Option<FulfilmentPolicy>): string {
    match p
    case None => "UNRESOLVED"
    case Some(CAPTURE_REQUIRED) => "CAPTURE_REQUIRED"
    case Some(AUTHORIZED_ALLOWED) => "AUTHORIZED_ALLOWED"
  }

  function LateText(p: Option<LatePolicy>): string {
    match p
    case None => "UNRESOLVED"
    case Some(FULFIL_LATER) => "FULFIL_LATER"
    case Some(DO_NOT_FULFIL) => "DO_NOT_FULFIL"
  }

  function PolicyParts(d: Definition, p: PolicyAssessment): seq<string> {
    (if d.fulfilmentKeyed then ["('FULFILMENT', '" + FulfilmentText(p.fulfilment.confirmed) + "')"] else [])
    + (if d.lateKeyed then ["('LATE_AUTHORISATION', '" + LateText(p.late.confirmed) + "')"] else [])
  }

  function FixedParts(texts: Texts, project: string, s: ScenarioId, key: AssertionKey, t: Targets): seq<string> {
    [KEY_VERSION, project, ScenarioText(s), texts.key(key), texts.invariantId(key), INVARIANT_VERSION,
     Or(t.ingress, NO_INGRESS), Or(t.route, NO_ROUTE), Or(t.ingressSymbol, NO_INGRESS_SYMBOL),
     Or(t.valueNode, NO_CUSTOMER_NODE), Or(t.valueSymbol, NO_CUSTOMER_SYMBOL), Or(t.edge, NO_EDGE)]
  }

  function CheckKey(h: Digest, texts: Texts, project: string, s: ScenarioId, key: AssertionKey, d: Definition,
                    t: Targets, p: PolicyAssessment): string {
    StableId(h, "sgcheckkey",
             FixedParts(texts, project, s, key, t) + t.mutations + t.acknowledgements + PolicyParts(d, p))
  }

  function CheckId(h: Digest, run: string, instance: string, assertion: string): string {
    StableId(h, "sgcheck", [run, instance, assertion])
  }

  /** The order of checks in a run: scenario, instance, position of the assertion. */
  function RunPlace(c: Check): seq<string> {
    [ScenarioText(c.scenario), c.instance, AssertionRank(c.assertionKey)]
  }

  // ------------------------------------------------------------ findings and summary

  datatype FindingKind = VERIFIED_FAILURE | WARNING | RESOLUTION_REQUIRED | VERIFICATION_COVERAGE

  datatype Finding = Finding(occurrence: string, key: string, check: string, checkKey: string, kind: FindingKind,
                             critical: bool)

  function KindOf(r: ResultState): Option<FindingKind> {
    match r
    case VERIFIED_FAIL => Some(VERIFIED_FAILURE)
    case STATIC_WARNING => Some(WARNING)
    case RESULT_NEEDS_INPUT => Some(RESOLUTION_REQUIRED)
    case UNVERIFIED => Some(VERIFICATION_COVERAGE)
    case _ => None
  }

  function FindingOf(h: Digest, run: string, c: Check): seq<Finding> {
    var kind := KindOf(c.result);
    if kind.None? then []
    else [Finding(StableId(h, "sgfinding", [run, c.id]), StableId(h, "sgfindingkey", [c.key]), c.id, c.key, kind.value,
                  kind.value == VERIFIED_FAILURE)]
  }

  function DeriveFindings(h: Digest, run: string, checks: seq<Check>): seq<Finding> {
    if checks == [] then [] else FindingOf(h, run, checks[0]) + DeriveFindings(h, run, checks[1..])
  }

  function CountResult(checks: seq<Check>, r: ResultState): nat {
    |Filter((c: Check) => c.result == r, checks)|
  }

  function CountTier(checks: seq<Check>, t: Option<Tier>): nat {
    |Filter((c: Check) => c.tier == t, checks)|
  }

  datatype Summary = Summary(counts: map<ResultState, nat>, tiers: map<Option<Tier>, nat>,
                             coverageNumerator: nat, coverageDenominator: int)

  const STATES := {VERIFIED_PASS, VERIFIED_FAIL, STATIC_WARNING, RESULT_NEEDS_INPUT, UNVERIFIED, RESULT_NOT_APPLICABLE}

  const TIERS := {None, Some(E0_DISCOVERED), Some(E1_RESOLVED), Some(E2_STATIC_VERIFIED), Some(E3_DYNAMIC_VERIFIED),
                  Some(E4_RAZORPAY_GROUNDED)}

  ghost predicate Counts(checks: seq<Check>, counts: map<ResultState, nat>, tiers: map<Option<Tier>, nat>) {
    && counts.Keys == STATES && (forall r :: r in STATES ==> counts[r] == CountResult(checks, r))
    && tiers.Keys == TIERS && (forall t :: t in TIERS ==> tiers[t] == CountTier(checks, t))
  }

  lemma CountsAppend(checks: seq<Check>, c: Check)
    ensures forall r :: CountResult(checks + [c], r) == CountResult(checks, r) + (if c.result == r then 1 else 0)
    ensures forall t :: CountTier(checks + [c], t) == CountTier(checks, t) + (if c.tier == t then 1 else 0)
  {
    forall r
      ensures CountResult(checks + [c], r) == CountResult(checks, r) + (if c.result == r then 1 else 0)
    {
      FilterAppend((d: Check) => d.result == r, checks, [c]);
    }
    forall t
      ensures CountTier(checks + [c], t) == CountTier(checks, t) + (if c.tier == t then 1 else 0)
    {
      FilterAppend((d: Check) => d.tier == t, checks, [c]);
    }
  }

  lemma ElementsListed()
    ensures forall r: ResultState :: r in STATES
    ensures forall t: Option<Tier> :: t in TIERS
  {
    forall t: Option<Tier>
      ensures t in TIERS
    {
      match t
      case None =>
      case Some(tier) => match tier
                         case E0_DISCOVERED => case E1_RESOLVED => case E2_STATIC_VERIFIED =>
                         case E3_DYNAMIC_VERIFIED => case E4_RAZORPAY_GROUNDED =>
    }
    forall r: ResultState
      ensures r in STATES
    {
      match r
      case VERIFIED_PASS => case VERIFIED_FAIL => case STATIC_WARNING => case RESULT_NEEDS_INPUT =>
      case UNVERIFIED => case RESULT_NOT_APPLICABLE =>
    }
  }

  method SummarizeChecks(checks: seq<Check>) returns (s: Summary)
    ensures Counts(checks, s.counts, s.tiers)
    ensures s.coverageNumerator
         == CountTier(checks, Some(E3_DYNAMIC_VERIFIED)) + CountTier(checks, Some(E4_RAZORPAY_GROUNDED))
    ensures s.coverageDenominator == |Filter((c: Check) => c.result != RESULT_NOT_APPLICABLE, checks)|
  {
    hide CountResult, CountTier;
    var counts: map<ResultState, nat> := map r | r in STATES :: 0;
    var tiers: map<Option<Tier>, nat> := map t | t in TIERS :: 0;
    ElementsListed();
    NothingCounted();
    for k := 0 to |checks|
      invariant Counts(checks[..k], counts, tiers)
    {
      assert checks[..k + 1] == checks[..k] + [checks[k]];
      CountsAppend(checks[..k], checks[k]);
      counts := counts[checks[k].result := counts[checks[k].result] + 1];
      tiers := tiers[checks[k].tier := tiers[checks[k].tier] + 1];
    }
    assert checks[..|checks|] == checks;
    RestIsRelevant(checks);
    s := Summary(counts, tiers, tiers[Some(E3_DYNAMIC_VERIFIED)] + tiers[Some(E4_RAZORPAY_GROUNDED)],
                 |checks| - counts[RESULT_NOT_APPLICABLE]);
  }

  lemma NothingCounted()
    ensures forall r :: CountResult([], r) == 0
    ensures forall t :: CountTier([], t) == 0
  {
  }

  lemma {:induction false} RestIsRelevant(checks: seq<Check>)
    ensures |checks| - CountResult(checks, RESULT_NOT_APPLICABLE)
         == |Filter((c: Check) => c.result != RESULT_NOT_APPLICABLE, checks)|
  {
    if checks != [] {
      RestIsRelevant(checks[1..]);
    }
  }

  /** A verdict is verified exactly when its evidence is dynamic; every valid check obeys this. */
  ghost predicate DynamicIffVerified(checks: seq<Check>) {
    forall c :: c in checks ==>
      (c.result == VERIFIED_PASS || c.result == VERIFIED_FAIL
       <==> c.tier == Some(E3_DYNAMIC_VERIFIED) || c.tier == Some(E4_RAZORPAY_GROUNDED))
  }

  /** Dynamic coverage is the verified share of the applicable checks, so it is a proper fraction. */
  lemma {:induction false} CoverageIsVerifiedShare(checks: seq<Check>)
    requires DynamicIffVerified(checks)
    ensures CountTier(checks, Some(E3_DYNAMIC_VERIFIED)) + CountTier(checks, Some(E4_RAZORPAY_GROUNDED))
         == CountResult(checks, VERIFIED_PASS) + CountResult(checks, VERIFIED_FAIL)
         <= |checks| - CountResult(checks, RESULT_NOT_APPLICABLE)
  {
    if checks != [] {
      assert checks[0] in checks;
      CoverageIsVerifiedShare(checks[1..]);
    }
  }

  /** Checks that passed or do not apply are no finding. */
  predicate IsFinding(c: Check) {
    c.result != VERIFIED_PASS && c.result != RESULT_NOT_APPLICABLE
  }

  /** The finding is made of the check: its identity is that of the run and the check, its key that of the check's
      key; it repeats both and is of the kind of the verdict, and critical for a failure. */
  ghost predicate FindingFor(h: Digest, run: string, f: Finding, c: Check) {
    && IsFinding(c)
    && f.occurrence == StableId(h, "sgfinding", [run, c.id]) && f.key == StableId(h, "sgfindingkey", [c.key])
    && f.check == c.id && f.checkKey == c.key
    && (f.kind == VERIFIED_FAILURE <==> c.result == VERIFIED_FAIL)
    && (f.kind == WARNING <==> c.result == STATIC_WARNING)
    && (f.kind == RESOLUTION_REQUIRED <==> c.result == RESULT_NEEDS_INPUT)
    && (f.critical <==> c.result == VERIFIED_FAIL)
  }

  lemma FindingOfCheck(h: Digest, run: string, c: Check)
    ensures if IsFinding(c) then |FindingOf(h, run, c)| == 1 && FindingFor(h, run, FindingOf(h, run, c)[0], c)
            else FindingOf(h, run, c) == []
  {
    hide StableId;
  }

  /** The findings of a run are those of its checks, one each, in order. */
  lemma {:induction false} FindingsAreTheOpenChecks(h: Digest, run: string, checks: seq<Check>)
    ensures var open, findings := Filter((c: Check) => IsFinding(c), checks), DeriveFindings(h, run, checks);
            |findings| == |open| && forall k :: 0 <= k < |open| ==> FindingFor(h, run, findings[k], open[k])
  {
    hide FindingFor, FindingOf;
    if checks != [] {
      FindingsAreTheOpenChecks(h, run, checks[1..]);
      FindingOfCheck(h, run, checks[0]);
    }
  }

  /** The critical findings are as many as the failed checks. */
  lemma {:induction false} CriticalFindingsAreTheFailures(h: Digest, run: string, checks: seq<Check>)
    ensures |Filter((f: Finding) => f.critical, DeriveFindings(h, run, checks))| == CountResult(checks, VERIFIED_FAIL)
  {
    hide StableId;
    if checks != [] {
      CriticalFindingsAreTheFailures(h, run, checks[1..]);
      FilterAppend((f: Finding) => f.critical, FindingOf(h, run, checks[0]), DeriveFindings(h, run, checks[1..]));
    }
  }
}
