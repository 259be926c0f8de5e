/** From scenario results to the exit code: what a passing gate says about the assertions themselves. */
module ReleaseDecision {
  import opened Foundations
  import opened ApplicabilityContracts
  import opened ApplicabilityEngine
  import opened ScenarioResults
  import opened VerificationChecks
  import opened RunNormalization
  import opened RunIdentities
  import opened RunContents
  import opened CiGate

  function ResultFor(results: seq<ExecutionResult>, a: Authority): ResultState
    requires Answer(results, KeyOf(a)).Some?
  {
    Answer(results, KeyOf(a)).value.result
  }

  /** What the exit code should depend on, said on assertions and their results alone. */
  ghost predicate AssertionsHold(all: seq<Authority>, results: seq<ExecutionResult>)
    requires forall a :: a in all ==> Answer(results, KeyOf(a)).Some?
  {
    && (forall a :: a in all ==> ResultFor(results, a) != VERIFIED_FAIL)
    && (forall a :: a in all && a.assertion.role == CORE ==>
          ResultFor(results, a) == VERIFIED_PASS || ResultFor(results, a) == RESULT_NOT_APPLICABLE)
    && (exists a :: a in all && a.assertion.role == CORE && ResultFor(results, a) == VERIFIED_PASS)
  }

  lemma CheckCarriesResult(x: Authorities, a: Authority, r: ExecutionResult)
    requires CheckFor(x, a, r).Built?
    ensures CheckFor(x, a, r).value.role == a.assertion.role && CheckFor(x, a, r).value.result == r.result
    ensures CheckFor(x, a, r).value.assertion == a.assertion.id && CheckFor(x, a, r).value.instance == a.instance.id
  {
  }

  /** The check is the one of this assertion and carries its role and result. */
  ghost predicate Speaks(results: seq<ExecutionResult>, a: Authority, c: Check)
    requires Answer(results, KeyOf(a)).Some?
  {
    a.assertion.role == c.role && ResultFor(results, a) == c.result && a.assertion.id == c.assertion
    && a.instance.id == c.instance
  }

  ghost predicate Correspond(all: seq<Authority>, results: seq<ExecutionResult>, checks: seq<Check>)
    requires forall a :: a in all ==> Answer(results, KeyOf(a)).Some?
  {
    && |checks| == |all|
    && (forall c :: c in checks ==> exists a :: a in all && Speaks(results, a, c))
    && (forall a :: a in all ==> exists c :: c in checks && Speaks(results, a, c))
  }

  /** The checks of a run and the assertions of the artifact correspond one to one. */
  lemma ChecksAreTheAssertions(x: Authorities, results: seq<ExecutionResult>)
    requires Admitted(x, OfScenarios(x.scenarios), results)
    ensures Correspond(OfScenarios(x.scenarios), results, RunChecks(x, results))
  {
    hide OfScenarios, CheckFor, KeyOf, Sort;
    var all := OfScenarios(x.scenarios);
    var unsorted := ChecksFor(x, all, results);
    ChecksForLength(x, all, results);
    SortPermutes(RunOrder(), unsorted);
    PermutationMembers(RunChecks(x, results), unsorted);
    forall k | 0 <= k < |all|
      ensures Speaks(results, all[k], unsorted[k]) && all[k] in all && unsorted[k] in unsorted
    {
      CheckCarriesResult(x, all[k], Answer(results, KeyOf(all[k])).value);
    }
  }

  lemma SafetyTransfers(all: seq<Authority>, results: seq<ExecutionResult>, checks: seq<Check>)
    requires forall a :: a in all ==> Answer(results, KeyOf(a)).Some?
    requires Correspond(all, results, checks)
    ensures ReleaseIsSafe(checks) <==> AssertionsHold(all, results)
    ensures (exists c :: c in checks && c.result == VERIFIED_FAIL)
       <==> exists a :: a in all && ResultFor(results, a) == VERIFIED_FAIL
  {
    hide KeyOf, Answer, ResultFor;
  }

  /** End to end, for any artifact of the engine and any proper results: the gate runs, since the check keys are
      unique; it exits with 1 exactly when some assertion failed, and with 0 exactly when none failed, every
      core assertion passed or does not apply, and at least one passed. */
  lemma ExitCodeIff(x: Authorities, e: Context, results: seq<ExecutionResult>)
    requires FromEngine(x, e)
    ensures Proper(x, results) ==>
              var all, code := OfScenarios(x.scenarios), ExitCode(RunChecks(x, results));
              && KeysUnique(RunChecks(x, results))
              && (code == 1 <==> exists a :: a in all && ResultFor(results, a) == VERIFIED_FAIL)
              && (code == 0 <==> AssertionsHold(all, results))
  {
    hide OfScenarios, KeyOf, ProperAnswer, FromEngine, RunChecks, KeysUnique, IdsUnique, CheckFor, ReleaseIsSafe,
      AssertionsHold, Correspond, KeysDiffer, AllCanonical, ResultsDiffer, ExitCode, ResultFor, AllValid,
      ValidSemantics;
    if Proper(x, results) {
      EngineRunIsAccepted(x, e, results);
      ChecksAreTheAssertions(x, results);
      SafetyTransfers(OfScenarios(x.scenarios), results, RunChecks(x, results));
      ExitCodeMeans(RunChecks(x, results));
    }
  }

  /** Every core assertion is answered by a pass or does not apply, at least one passed, and nothing failed. */
  ghost predicate ResultsHold(x: Authorities, results: seq<ExecutionResult>) {
    && (forall r :: r in results ==> r.result != VERIFIED_FAIL)
    && (forall a, r :: Listed(x, a) && a.assertion.role == CORE && r in results && AnswersTo(r, a) ==>
          r.result == VERIFIED_PASS || r.result == RESULT_NOT_APPLICABLE)
    && (exists a, r :: Listed(x, a) && a.assertion.role == CORE && r in results && AnswersTo(r, a)
                       && r.result == VERIFIED_PASS)
  }

  lemma AnswersAreResults(x: Authorities, results: seq<ExecutionResult>)
    requires AcceptableRun(x, results)
    ensures var all := OfScenarios(x.scenarios);
            && (forall a :: a in all ==> Answer(results, KeyOf(a)).Some?)
            && (AssertionsHold(all, results) <==> ResultsHold(x, results))
            && ((exists a :: a in all && ResultFor(results, a) == VERIFIED_FAIL)
                <==> exists r :: r in results && r.result == VERIFIED_FAIL)
  {
    hide OfScenarios, KeyOf, Listed, AnswersTo, Acceptable, ValidResult, Answer;
    var all := OfScenarios(x.scenarios);
    ResultsDifferIff(results);
    forall a
      ensures a in all <==> Listed(x, a)
    {
      ListedIff(x, a);
    }
    forall a, r
      ensures r in results && AnswersTo(r, a) <==> Answer(results, KeyOf(a)) == Some(r)
    {
      AnswersToIff(results, a, r);
    }
  }

  /** The same on the results: for an artifact of the engine and an acceptable run the gate exits with 1 exactly when
      some result is a failure, and with 0 exactly when the results hold. */
  lemma ExitCodeOfResults(x: Authorities, e: Context, results: seq<ExecutionResult>)
    requires FromEngine(x, e)
    ensures AcceptableRun(x, results) ==>
              var code := ExitCode(RunChecks(x, results));
              && (code == 1 <==> exists r :: r in results && r.result == VERIFIED_FAIL)
              && (code == 0 <==> ResultsHold(x, results))
  {
    hide FromEngine, RunChecks, ExitCode, AssertionsHold, ResultsHold, OfScenarios, Proper, AcceptableRun, KeyOf,
      ResultFor, Answer, KeysUnique;
    if AcceptableRun(x, results) {
      ProperIff(x, results);
      AnswersAreResults(x, results);
      ExitCodeIff(x, e, results);
    }
  }
}
