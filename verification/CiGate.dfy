/** The release gate over a completed run, and the contract of its result. */
module CiGate {
  import opened Foundations
  import opened Identity
  import opened ApplicabilityContracts
  import opened ScenarioResults
  import opened VerificationChecks
  import opened RunNormalization

  datatype BlockerClass = PROVEN_FAILURE | REQUIRED_NOT_PROVEN

  datatype Blocker = Blocker(kind: BlockerClass, role: Role, key: string, scenario: ScenarioId,
                             assertionKey: AssertionKey, result: ResultState, reason: string)

  datatype Status = GATE_PASSED | VERIFIED_FAILURE_FOUND | NOT_PROVEN

  datatype GateReason = REQUIRED_CHECKS_PASSED | FAILURE_PROVEN | REQUIRED_CHECKS_NOT_PROVEN
                      | NO_APPLICABLE_REQUIRED_CHECKS

  datatype ResultCounts = ResultCounts(pass: nat, fail: nat, warning: nat, needsInput: nat, unverified: nat,
                                       notApplicable: nat) {
    function Total(): nat {
      pass + fail + warning + needsInput + unverified + notApplicable
    }
  }

  datatype GateResult = GateResult(status: Status, reason: GateReason, exitCode: int, all: ResultCounts,
                                   core: ResultCounts, provenFailures: nat, coreNotProven: nat, applicableCore: int,
                                   blockers: seq<Blocker>)

  // ------------------------------------------------------------ the contract of a result

  predicate ValidBlocker(b: Blocker) {
    match b.kind
    case PROVEN_FAILURE => b.result == VERIFIED_FAIL
    case REQUIRED_NOT_PROVEN => b.role == CORE && Unproven(b.result)
  }

  predicate Unproven(r: ResultState) {
    r == STATIC_WARNING || r == RESULT_NEEDS_INPUT || r == UNVERIFIED
  }

  function BlockerOrder(keyText: AssertionKey -> string): (Blocker, Blocker) -> bool {
    ByTuple((b: Blocker) => [ScenarioText(b.scenario), keyText(b.assertionKey), b.key])
  }

  function BlockersOfKind(blockers: seq<Blocker>, kind: BlockerClass): nat {
    |Filter((b: Blocker) => b.kind == kind, blockers)|
  }

  predicate AtMost(a: ResultCounts, b: ResultCounts) {
    a.pass <= b.pass && a.fail <= b.fail && a.warning <= b.warning && a.needsInput <= b.needsInput
    && a.unverified <= b.unverified && a.notApplicable <= b.notApplicable
  }

  ghost predicate ValidGate(keyText: AssertionKey -> string, g: GateResult) {
    && g.core.Total() <= g.all.Total() && AtMost(g.core, g.all)
    && g.provenFailures == g.all.fail
    && g.coreNotProven == g.core.warning + g.core.needsInput + g.core.unverified
    && g.applicableCore == g.core.Total() - g.core.notApplicable
    && (forall b :: b in g.blockers ==> ValidBlocker(b))
    && g.blockers == Sort(BlockerOrder(keyText), g.blockers)
    && |Values(g.blockers, (b: Blocker) => b.key)| == |g.blockers|
    && BlockersOfKind(g.blockers, PROVEN_FAILURE) == g.provenFailures
    && BlockersOfKind(g.blockers, REQUIRED_NOT_PROVEN) == g.coreNotProven
    && (g.status, g.reason, g.exitCode)
       == (if g.provenFailures > 0 then (VERIFIED_FAILURE_FOUND, FAILURE_PROVEN, 1)
           else if g.coreNotProven > 0 then (NOT_PROVEN, REQUIRED_CHECKS_NOT_PROVEN, 2)
           else if g.applicableCore == 0 then (NOT_PROVEN, NO_APPLICABLE_REQUIRED_CHECKS, 2)
           else (GATE_PASSED, REQUIRED_CHECKS_PASSED, 0))
  }

  // ------------------------------------------------------------ evaluation

  function CountsOf(checks: seq<Check>): ResultCounts {
    ResultCounts(CountResult(checks, VERIFIED_PASS), CountResult(checks, VERIFIED_FAIL),
                 CountResult(checks, STATIC_WARNING), CountResult(checks, RESULT_NEEDS_INPUT),
                 CountResult(checks, UNVERIFIED), CountResult(checks, RESULT_NOT_APPLICABLE))
  }

  method CountResults(checks: seq<Check>) returns (r: ResultCounts)
    ensures r == CountsOf(checks)
  {
    hide CountResult;
    var counts: map<ResultState, nat> := map s | s in STATES :: 0;
    NothingCounted();
    ElementsListed();
    for k := 0 to |checks|
      invariant counts.Keys == STATES
      invariant forall s :: s in STATES ==> counts[s] == CountResult(checks[..k], s)
    {
      assert checks[..k + 1] == checks[..k] + [checks[k]];
      CountsAppend(checks[..k], checks[k]);
      counts := counts[checks[k].result := counts[checks[k].result] + 1];
    }
    assert checks[..|checks|] == checks;
    r := ResultCounts(counts[VERIFIED_PASS], counts[VERIFIED_FAIL], counts[STATIC_WARNING],
                      counts[RESULT_NEEDS_INPUT], counts[UNVERIFIED], counts[RESULT_NOT_APPLICABLE]);
  }

  function BlockerOf(c: Check): Blocker {
    Blocker(if c.result == VERIFIED_FAIL then PROVEN_FAILURE else REQUIRED_NOT_PROVEN, c.role, c.key, c.scenario,
            c.assertionKey, c.result, c.reason)
  }

  function BlockersOf(checks: seq<Check>): (r: seq<Blocker>)
    ensures |r| == |checks| && forall k :: 0 <= k < |r| ==> r[k] == BlockerOf(checks[k])
  {
    seq(|checks|, k requires 0 <= k < |checks| => BlockerOf(checks[k]))
  }

  function CoreChecks(checks: seq<Check>): seq<Check> {
    Filter((c: Check) => c.role == CORE, checks)
  }

  function Failures(checks: seq<Check>): seq<Check> {
    Filter((c: Check) => c.result == VERIFIED_FAIL, checks)
  }

  function NotProven(checks: seq<Check>): seq<Check> {
    Filter((c: Check) => Unproven(c.result), CoreChecks(checks))
  }

  /** A check stops the release if it failed, or if it is core and its verdict is open. */
  predicate Stops(c: Check) {
    c.result == VERIFIED_FAIL || (c.role == CORE && Unproven(c.result))
  }

  ghost predicate DistinctKeys(checks: seq<Check>) {
    forall i, j :: 0 <= i < j < |checks| ==> checks[i].key != checks[j].key
  }

  lemma UniqueKeysDiffer(checks: seq<Check>)
    requires KeysUnique(checks)
    ensures DistinctKeys(checks)
  {
    var key := (c: Check) => c.key;
    assert LogicalKeys(checks) == Values(checks, key);
    CountedDistinct(checks, key);
  }

  /** How many checks have the result; of them, how many are core. */
  ghost function Having(checks: seq<Check>, s: ResultState): nat {
    |HavingAt(checks, s)|
  }

  ghost function CoreHaving(checks: seq<Check>, s: ResultState): nat {
    |CoreHavingAt(checks, s)|
  }

  ghost function HavingAt(checks: seq<Check>, s: ResultState): set<nat> {
    set i: nat | i < |checks| && checks[i].result == s
  }

  ghost function CoreHavingAt(checks: seq<Check>, s: ResultState): set<nat> {
    set i: nat | i < |checks| && checks[i].role == CORE && checks[i].result == s
  }

  /** The verdict of a core check is open. */
  predicate CoreIsOpen(c: Check) {
    c.role == CORE && (c.result == STATIC_WARNING || c.result == RESULT_NEEDS_INPUT || c.result == UNVERIFIED)
  }

  /** The blocker repeats a check that failed, or a core check whose verdict is open, and says which. */
  predicate Repeats(b: Blocker, c: Check) {
    && (c.result == VERIFIED_FAIL || CoreIsOpen(c))
    && (b.kind == PROVEN_FAILURE <==> c.result == VERIFIED_FAIL)
    && b.role == c.role && b.key == c.key && b.scenario == c.scenario && b.assertionKey == c.assertionKey
    && b.result == c.result && b.reason == c.reason
  }

  predicate BlockerNotAfter(keyText: AssertionKey -> string, a: Blocker, b: Blocker) {
    TupleLe([ScenarioText(a.scenario), keyText(a.assertionKey), a.key],
            [ScenarioText(b.scenario), keyText(b.assertionKey), b.key])
  }

  /** Everything the result says, on the checks alone. */
  ghost predicate Says(keyText: AssertionKey -> string, checks: seq<Check>, g: GateResult) {
    var failed := exists c :: c in checks && c.result == VERIFIED_FAIL;
    var open := exists c :: c in checks && CoreIsOpen(c);
    var applies := exists c :: c in checks && c.role == CORE && c.result != RESULT_NOT_APPLICABLE;
    && g.all.pass == Having(checks, VERIFIED_PASS) && g.all.fail == Having(checks, VERIFIED_FAIL)
    && g.all.warning == Having(checks, STATIC_WARNING) && g.all.needsInput == Having(checks, RESULT_NEEDS_INPUT)
    && g.all.unverified == Having(checks, UNVERIFIED) && g.all.notApplicable == Having(checks, RESULT_NOT_APPLICABLE)
    && g.core.pass == CoreHaving(checks, VERIFIED_PASS) && g.core.fail == CoreHaving(checks, VERIFIED_FAIL)
    && g.core.warning == CoreHaving(checks, STATIC_WARNING)
    && g.core.needsInput == CoreHaving(checks, RESULT_NEEDS_INPUT)
    && g.core.unverified == CoreHaving(checks, UNVERIFIED)
    && g.core.notApplicable == CoreHaving(checks, RESULT_NOT_APPLICABLE)
    && g.provenFailures == Having(checks, VERIFIED_FAIL)
    && g.coreNotProven == CoreHaving(checks, STATIC_WARNING) + CoreHaving(checks, RESULT_NEEDS_INPUT)
                          + CoreHaving(checks, UNVERIFIED)
    && (g.reason == FAILURE_PROVEN <==> failed)
    && (g.reason == REQUIRED_CHECKS_NOT_PROVEN <==> !failed && open)
    && (g.reason == NO_APPLICABLE_REQUIRED_CHECKS <==> !failed && !open && !applies)
    && (g.reason == FAILURE_PROVEN <==> g.status == VERIFIED_FAILURE_FOUND)
    && (g.reason == REQUIRED_CHECKS_PASSED <==> g.status == GATE_PASSED)
    && (g.exitCode == 0 <==> g.status == GATE_PASSED) && (g.exitCode == 1 <==> g.status == VERIFIED_FAILURE_FOUND)
    && (g.exitCode == 2 <==> g.status == NOT_PROVEN)
    && (forall b :: b in g.blockers <==> exists c :: c in checks && Repeats(b, c))
    && (forall i, j :: 0 <= i < j < |g.blockers| ==> BlockerNotAfter(keyText, g.blockers[i], g.blockers[j]))
  }

  lemma CountsArePositions(checks: seq<Check>)
    ensures forall s :: CountResult(checks, s) == Having(checks, s)
    ensures forall s :: CountResult(CoreChecks(checks), s) == CoreHaving(checks, s)
  {
    forall s
      ensures CountResult(checks, s) == Having(checks, s)
      ensures CountResult(CoreChecks(checks), s) == CoreHaving(checks, s)
    {
      CountIsPositions(checks, s);
      CoreCountIsPositions(checks, s);
    }
  }

  lemma CountIsPositions(checks: seq<Check>, s: ResultState)
    ensures CountResult(checks, s) == Having(checks, s)
  {
    var keep := (c: Check) => c.result == s;
    FilterPositions(keep, checks);
    assert Kept(keep, checks) == HavingAt(checks, s);
    assert CountResult(checks, s) == |Filter(keep, checks)|;
  }

  lemma CoreCountIsPositions(checks: seq<Check>, s: ResultState)
    ensures CountResult(CoreChecks(checks), s) == CoreHaving(checks, s)
  {
    var both := (c: Check) => c.role == CORE && c.result == s;
    FilterPositions(both, checks);
    FilterOfCore(checks, s);
    assert |Filter(both, checks)| == CountResult(CoreChecks(checks), s);
    assert Kept(both, checks) == CoreHavingAt(checks, s);
  }

  lemma {:induction false} FilterOfCore(checks: seq<Check>, s: ResultState)
    ensures CountResult(CoreChecks(checks), s) == |Filter((c: Check) => c.role == CORE && c.result == s, checks)|
  {
    if checks != [] {
      FilterOfCore(checks[1..], s);
      var head := if checks[0].role == CORE then [checks[0]] else [];
      FilterAppend((c: Check) => c.result == s, head, CoreChecks(checks[1..]));
      assert CountResult(CoreChecks(checks), s) == CountResult(head + CoreChecks(checks[1..]), s);
    }
  }

  lemma CoreApplies(checks: seq<Check>)
    ensures var core := CountsOf(CoreChecks(checks));
            core.Total() - core.notApplicable != 0
            <==> exists c :: c in checks && c.role == CORE && c.result != RESULT_NOT_APPLICABLE
  {
    hide CountResult, Filter;
    var core := CoreChecks(checks);
    forall c
      ensures c in core <==> c in checks && c.role == CORE
    {
      FilterMember((d: Check) => d.role == CORE, checks, c);
    }
    CountIsPositive(core, VERIFIED_PASS);
    CountIsPositive(core, VERIFIED_FAIL);
    CountIsPositive(core, STATIC_WARNING);
    CountIsPositive(core, RESULT_NEEDS_INPUT);
    CountIsPositive(core, UNVERIFIED);
  }

  lemma SomeStop(checks: seq<Check>)
    ensures Failures(checks) != [] <==> exists c :: c in checks && c.result == VERIFIED_FAIL
    ensures NotProven(checks) != [] <==> exists c :: c in checks && CoreIsOpen(c)
  {
    hide Filter;
    forall c
      ensures c in Failures(checks) <==> c in checks && c.result == VERIFIED_FAIL
      ensures c in NotProven(checks) <==> c in checks && CoreIsOpen(c)
    {
      StoppingChecks(checks, c);
    }
    if Failures(checks) != [] {
      assert Failures(checks)[0] in Failures(checks);
    }
    if NotProven(checks) != [] {
      assert NotProven(checks)[0] in NotProven(checks);
    }
  }

  lemma BlockersRepeat(keyText: AssertionKey -> string, checks: seq<Check>)
    ensures forall b :: b in Blockers(keyText, checks) <==> exists c :: c in checks && Repeats(b, c)
    ensures var blockers := Blockers(keyText, checks);
            forall i, j :: 0 <= i < j < |blockers| ==> BlockerNotAfter(keyText, blockers[i], blockers[j])
  {
    hide Filter, Sort, Failures, NotProven, TupleLe;
    BlockersAreTheStops(keyText, checks);
    forall b, c
      ensures Stops(c) && b == BlockerOf(c) <==> Repeats(b, c)
    {
    }
    ByTupleIsPreorder((b: Blocker) => [ScenarioText(b.scenario), keyText(b.assertionKey), b.key]);
    SortSorts(BlockerOrder(keyText), BlockersOf(Failures(checks) + NotProven(checks)));
    var blockers := Blockers(keyText, checks);
    forall i, j | 0 <= i < j < |blockers|
      ensures BlockerNotAfter(keyText, blockers[i], blockers[j])
    {
      assert BlockerOrder(keyText)(blockers[i], blockers[j]);
    }
  }

  lemma ResultSays(keyText: AssertionKey -> string, checks: seq<Check>, g: GateResult)
    requires g.all == CountsOf(checks) && g.core == CountsOf(CoreChecks(checks))
    requires g.provenFailures == |Failures(checks)| && g.coreNotProven == |NotProven(checks)|
    requires g.blockers == Blockers(keyText, checks)
    requires (g.status, g.reason, g.exitCode)
          == if Failures(checks) != [] then (VERIFIED_FAILURE_FOUND, FAILURE_PROVEN, 1)
             else if NotProven(checks) != [] then (NOT_PROVEN, REQUIRED_CHECKS_NOT_PROVEN, 2)
             else if g.core.Total() - g.core.notApplicable == 0 then (NOT_PROVEN, NO_APPLICABLE_REQUIRED_CHECKS, 2)
             else (GATE_PASSED, REQUIRED_CHECKS_PASSED, 0)
    ensures Says(keyText, checks, g)
  {
    hide CountResult, Filter, Sort, Having, CoreHaving, Repeats, CoreIsOpen, BlockerNotAfter, Failures, NotProven,
      Blockers;
    GateCounts(checks);
    CountsArePositions(checks);
    CoreApplies(checks);
    SomeStop(checks);
    BlockersRepeat(keyText, checks);
  }

  /** For a run with unique check keys the gate's result satisfies its whole contract; its blockers are
      exactly the checks that stop the release; and its exit code says what it should. */
  method EvaluateCiGate(keyText: AssertionKey -> string, checks: seq<Check>) returns (g: GateResult)
    requires KeysUnique(checks)
    ensures ValidGate(keyText, g) && Says(keyText, checks, g)
    ensures g.all == CountsOf(checks) && g.core == CountsOf(CoreChecks(checks))
    ensures forall b :: b in g.blockers <==> exists c :: c in checks && Stops(c) && b == BlockerOf(c)
    ensures g.exitCode == ExitCode(checks)
    ensures g.exitCode == 1 <==> exists c :: c in checks && c.result == VERIFIED_FAIL
    ensures g.exitCode == 0 <==> ReleaseIsSafe(checks)
  {
    hide CountResult, Filter, Sort, KeysUnique, DistinctKeys, Says;
    var core := CoreChecks(checks);
    var failures, open := Failures(checks), NotProven(checks);
    var blockers := Sort(BlockerOrder(keyText), BlockersOf(failures + open));
    var coreCounts := CountResults(core);
    var applicable := coreCounts.Total() - coreCounts.notApplicable;
    var status, reason, code;
    if failures != [] {
      status, reason, code := VERIFIED_FAILURE_FOUND, FAILURE_PROVEN, 1;
    } else if open != [] {
      status, reason, code := NOT_PROVEN, REQUIRED_CHECKS_NOT_PROVEN, 2;
    } else if applicable == 0 {
      status, reason, code := NOT_PROVEN, NO_APPLICABLE_REQUIRED_CHECKS, 2;
    } else {
      status, reason, code := GATE_PASSED, REQUIRED_CHECKS_PASSED, 0;
    }
    var all := CountResults(checks);
    g := GateResult(status, reason, code, all, coreCounts, |failures|, |open|, applicable, blockers);
    UniqueKeysDiffer(checks);
    GateCounts(checks);
    BlockersAreOrdered(keyText, checks);
    BlockersAreDistinct(keyText, checks);
    BlockersAreTheStops(keyText, checks);
    BlockerClasses(keyText, checks);
    ExitCodeMeans(checks);
    ResultSays(keyText, checks, g);
  }

  /** The exit code: 1 for a failure, 2 if a core verdict is open or no core check applies, else 0. */
  function ExitCode(checks: seq<Check>): int {
    var core := CountsOf(CoreChecks(checks));
    if Failures(checks) != [] then 1
    else if NotProven(checks) != [] || core.Total() - core.notApplicable == 0 then 2
    else 0
  }

  /** What the exit codes mean: 1 exactly when some check failed, 0 exactly when the release is safe. */
  lemma ExitCodeMeans(checks: seq<Check>)
    ensures ExitCode(checks) == 1 <==> exists c :: c in checks && c.result == VERIFIED_FAIL
    ensures ExitCode(checks) == 0 <==> ReleaseIsSafe(checks)
  {
    hide CountsOf, Failures, NotProven;
    SafetyByCounts(checks);
  }

  /** What exit code 0 promises. */
  ghost predicate ReleaseIsSafe(checks: seq<Check>) {
    && (forall c :: c in checks ==> c.result != VERIFIED_FAIL)
    && (forall c :: c in checks && c.role == CORE ==> c.result == VERIFIED_PASS || c.result == RESULT_NOT_APPLICABLE)
    && (exists c :: c in checks && c.role == CORE && c.result == VERIFIED_PASS)
  }

  function Blockers(keyText: AssertionKey -> string, checks: seq<Check>): seq<Blocker> {
    Sort(BlockerOrder(keyText), BlockersOf(Failures(checks) + NotProven(checks)))
  }

  // ------------------------------------------------------------ counting

  lemma {:induction false} TotalIsLength(checks: seq<Check>)
    ensures CountsOf(checks).Total() == |checks|
  {
    if checks != [] {
      TotalIsLength(checks[1..]);
    }
  }

  lemma {:induction false} UnprovenCount(checks: seq<Check>)
    ensures |Filter((c: Check) => Unproven(c.result), checks)|
         == CountResult(checks, STATIC_WARNING) + CountResult(checks, RESULT_NEEDS_INPUT)
           + CountResult(checks, UNVERIFIED)
  {
    if checks != [] {
      UnprovenCount(checks[1..]);
    }
  }

  lemma {:induction false} CoreCountAtMost(checks: seq<Check>, r: ResultState)
    ensures CountResult(CoreChecks(checks), r) <= CountResult(checks, r)
  {
    if checks != [] {
      CoreCountAtMost(checks[1..], r);
      var head := if checks[0].role == CORE then [checks[0]] else [];
      FilterAppend((c: Check) => c.result == r, head, CoreChecks(checks[1..]));
      assert CountResult(CoreChecks(checks), r) == CountResult(head + CoreChecks(checks[1..]), r);
    }
  }

  lemma CoreCountsAtMost(checks: seq<Check>)
    ensures AtMost(CountsOf(CoreChecks(checks)), CountsOf(checks))
  {
    hide CountResult;
    forall r
      ensures CountResult(CoreChecks(checks), r) <= CountResult(checks, r)
    {
      CoreCountAtMost(checks, r);
    }
  }

  lemma GateCounts(checks: seq<Check>)
    ensures var core, all := CountsOf(CoreChecks(checks)), CountsOf(checks);
            && AtMost(core, all) && core.Total() <= all.Total()
            && |Failures(checks)| == all.fail
            && |NotProven(checks)| == core.warning + core.needsInput + core.unverified
  {
    hide Filter;
    CoreCountsAtMost(checks);
    TotalIsLength(checks);
    TotalIsLength(CoreChecks(checks));
    UnprovenCount(CoreChecks(checks));
    FailuresAreCounted(checks);
  }

  lemma FailuresAreCounted(checks: seq<Check>)
    ensures |Failures(checks)| == CountResult(checks, VERIFIED_FAIL)
  {
    FilterAgrees((c: Check) => c.result == VERIFIED_FAIL, (c: Check) => c.result == VERIFIED_FAIL, checks);
  }

  // ------------------------------------------------------------ blockers

  lemma BlockersAreOrdered(keyText: AssertionKey -> string, checks: seq<Check>)
    ensures Blockers(keyText, checks) == Sort(BlockerOrder(keyText), Blockers(keyText, checks))
  {
    hide Sort;
    var unsorted := BlockersOf(Failures(checks) + NotProven(checks));
    ByTupleIsPreorder((b: Blocker) => [ScenarioText(b.scenario), keyText(b.assertionKey), b.key]);
    SortSorts(BlockerOrder(keyText), unsorted);
    SortOfSorted(BlockerOrder(keyText), Blockers(keyText, checks));
  }

  lemma StoppingChecks(checks: seq<Check>, c: Check)
    ensures c in Failures(checks) <==> c in checks && c.result == VERIFIED_FAIL
    ensures c in NotProven(checks) <==> c in checks && c.role == CORE && Unproven(c.result)
  {
    FilterMember((d: Check) => d.result == VERIFIED_FAIL, checks, c);
    FilterMember((d: Check) => d.role == CORE, checks, c);
    FilterMember((d: Check) => Unproven(d.result), CoreChecks(checks), c);
  }

  lemma BlockersAreTheStops(keyText: AssertionKey -> string, checks: seq<Check>)
    ensures forall b :: b in Blockers(keyText, checks) <==> exists c :: c in checks && Stops(c) && b == BlockerOf(c)
    ensures forall b :: b in Blockers(keyText, checks) ==> ValidBlocker(b)
  {
    hide Sort, Filter;
    var stopping := Failures(checks) + NotProven(checks);
    SortPermutes(BlockerOrder(keyText), BlockersOf(stopping));
    PermutationMembers(Blockers(keyText, checks), BlockersOf(stopping));
    forall c
      ensures c in stopping <==> c in checks && Stops(c)
    {
      StoppingChecks(checks, c);
    }
    forall b
      ensures b in BlockersOf(stopping) <==> exists c :: c in checks && Stops(c) && b == BlockerOf(c)
    {
      if b in BlockersOf(stopping) {
        var k :| 0 <= k < |stopping| && BlockersOf(stopping)[k] == b;
        assert stopping[k] in stopping;
      }
      if c :| c in checks && Stops(c) && b == BlockerOf(c) {
        var k :| 0 <= k < |stopping| && stopping[k] == c;
        assert BlockersOf(stopping)[k] == b;
      }
    }
  }

  lemma StoppingChecksAreDistinct(checks: seq<Check>)
    requires DistinctKeys(checks)
    ensures DistinctKeys(Failures(checks) + NotProven(checks))
  {
    hide Filter;
    var stopping := Failures(checks) + NotProven(checks);
    FilterNoDuplicates((c: Check) => c.result == VERIFIED_FAIL, checks);
    FilterNoDuplicates((c: Check) => c.role == CORE, checks);
    FilterNoDuplicates((c: Check) => Unproven(c.result), CoreChecks(checks));
    forall c
      ensures c in stopping ==> c in checks
      ensures !(c in Failures(checks) && c in NotProven(checks))
    {
      StoppingChecks(checks, c);
    }
    NoDuplicatesAppend(Failures(checks), NotProven(checks));
    forall i, j | 0 <= i < j < |stopping|
      ensures stopping[i].key != stopping[j].key
    {
      assert stopping[i] in stopping && stopping[j] in stopping;
      var m, n :| 0 <= m < |checks| && 0 <= n < |checks| && checks[m] == stopping[i] && checks[n] == stopping[j];
      assert m != n;
    }
  }

  lemma BlockersAreDistinct(keyText: AssertionKey -> string, checks: seq<Check>)
    requires DistinctKeys(checks)
    ensures |Values(Blockers(keyText, checks), (b: Blocker) => b.key)| == |Blockers(keyText, checks)|
  {
    hide Sort, Filter;
    StoppingChecksAreDistinct(checks);
    var unsorted := BlockersOf(Failures(checks) + NotProven(checks));
    SortedDistinctCount(BlockerOrder(keyText), unsorted, (b: Blocker) => b.key);
  }

  lemma {:induction false} UniformKind(blockers: seq<Blocker>, kind: BlockerClass, other: BlockerClass)
    requires forall b :: b in blockers ==> b.kind == kind
    ensures BlockersOfKind(blockers, other) == if other == kind then |blockers| else 0
  {
    if blockers != [] {
      assert blockers[0] in blockers;
      UniformKind(blockers[1..], kind, other);
    }
  }

  lemma KindsOf(checks: seq<Check>, kind: BlockerClass)
    ensures BlockersOfKind(BlockersOf(Failures(checks) + NotProven(checks)), kind)
         == if kind == PROVEN_FAILURE then |Failures(checks)| else |NotProven(checks)|
  {
    hide Filter;
    var failed, open := BlockersOf(Failures(checks)), BlockersOf(NotProven(checks));
    assert BlockersOf(Failures(checks) + NotProven(checks)) == failed + open;
    FilterAppend((b: Blocker) => b.kind == kind, failed, open);
    forall b | b in failed
      ensures b.kind == PROVEN_FAILURE
    {
      var k :| 0 <= k < |failed| && failed[k] == b;
      StoppingChecks(checks, Failures(checks)[k]);
    }
    forall b | b in open
      ensures b.kind == REQUIRED_NOT_PROVEN
    {
      var k :| 0 <= k < |open| && open[k] == b;
      StoppingChecks(checks, NotProven(checks)[k]);
    }
    UniformKind(failed, PROVEN_FAILURE, kind);
    UniformKind(open, REQUIRED_NOT_PROVEN, kind);
  }

  lemma BlockerClasses(keyText: AssertionKey -> string, checks: seq<Check>)
    ensures BlockersOfKind(Blockers(keyText, checks), PROVEN_FAILURE) == |Failures(checks)|
    ensures BlockersOfKind(Blockers(keyText, checks), REQUIRED_NOT_PROVEN) == |NotProven(checks)|
  {
    hide Sort, Filter;
    var unsorted := BlockersOf(Failures(checks) + NotProven(checks));
    KindsOf(checks, PROVEN_FAILURE);
    KindsOf(checks, REQUIRED_NOT_PROVEN);
    SortKeepsFilterCount(BlockerOrder(keyText), (b: Blocker) => b.kind == PROVEN_FAILURE, unsorted);
    SortKeepsFilterCount(BlockerOrder(keyText), (b: Blocker) => b.kind == REQUIRED_NOT_PROVEN, unsorted);
  }

  // ------------------------------------------------------------ meaning

  lemma CountIsPositive(checks: seq<Check>, r: ResultState)
    ensures CountResult(checks, r) > 0 <==> exists c :: c in checks && c.result == r
  {
    var keep := (c: Check) => c.result == r;
    if CountResult(checks, r) > 0 {
      FilterMember(keep, checks, Filter(keep, checks)[0]);
    }
    forall c | c in checks && c.result == r
      ensures CountResult(checks, r) > 0
    {
      FilterMember(keep, checks, c);
    }
  }

  lemma SafetyByCounts(checks: seq<Check>)
    ensures var core := CountsOf(CoreChecks(checks));
            && (Failures(checks) != [] <==> exists c :: c in checks && c.result == VERIFIED_FAIL)
            && (ReleaseIsSafe(checks) <==>
                Failures(checks) == [] && NotProven(checks) == [] && core.Total() - core.notApplicable != 0)
  {
    hide CountResult, Filter;
    var core := CoreChecks(checks);
    forall c
      ensures c in core <==> c in checks && c.role == CORE
    {
      FilterMember((d: Check) => d.role == CORE, checks, c);
    }
    GateCounts(checks);
    CountIsPositive(checks, VERIFIED_FAIL);
    CountIsPositive(core, VERIFIED_PASS);
    CountIsPositive(core, VERIFIED_FAIL);
    CountIsPositive(core, STATIC_WARNING);
    CountIsPositive(core, RESULT_NEEDS_INPUT);
    CountIsPositive(core, UNVERIFIED);
  }

  /** The gate's failures, the run's critical findings and its summary all count the same checks. */
  lemma FailuresCountedAlike(h: Digest, run: string, checks: seq<Check>)
    ensures CountsOf(checks).fail == |Filter((f: Finding) => f.critical, DeriveFindings(h, run, checks))|
    ensures CountsOf(checks).fail == CountResult(checks, VERIFIED_FAIL)
  {
    CriticalFindingsAreTheFailures(h, run, checks);
  }
}
