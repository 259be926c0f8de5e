/** Runs built from the applicability engine's own artifact: the duplicate and identity errors of
    normalisation can never be raised, and every check has its own identity and its own logical key. */
module RunIdentities {
  import opened Foundations
  import opened Identity
  import opened PaymentGraph
  import opened ApplicabilityContracts
  import opened AssertionTexts
  import opened ApplicabilityEngine
  import opened ApplicabilityCatalog
  import opened ApplicabilityEvidence
  import opened ScenarioResults
  import opened VerificationChecks
  import opened RunNormalization

  /** The authorities are those of one evaluation, for a project and a run with well-formed identities. */
  ghost predicate FromEngine(x: Authorities, e: Context) {
    && Ready(e) && x.digest == e.digest && x.texts == e.texts && x.graph == e.graph && GoodControls(e, x.controls)
    && x.scenarios == ScenariosFor(e, x.policy, x.controls)
    && IsId("sgproj", x.recorded.project) && IsId("sgvrun", x.run)
  }

  // ------------------------------------------------------------ where an authority comes from

  lemma {:induction false} OfInstancesExact(s: ScenarioId, instances: seq<Instance>, a: Authority)
    ensures a in OfInstances(s, instances)
       <==> a.scenario == s && a.instance in instances && a.assertion in a.instance.assertions
  {
    if instances != [] {
      var i := instances[0];
      assert instances == [i] + instances[1..];
      OfInstancesExact(s, instances[1..], a);
      if a.scenario == s && a.instance == i && a.assertion in i.assertions {
        var k :| 0 <= k < |i.assertions| && i.assertions[k] == a.assertion;
        assert OfInstance(s, i)[k] == a;
      }
    }
  }

  lemma {:induction false} OfScenariosExact(scenarios: seq<Scenario>, a: Authority)
    ensures a in OfScenarios(scenarios)
       <==> exists c :: c in scenarios && c.id == a.scenario && a.instance in c.instances
                        && a.assertion in a.instance.assertions
  {
    if scenarios != [] {
      assert scenarios == [scenarios[0]] + scenarios[1..];
      OfInstancesExact(scenarios[0].id, scenarios[0].instances, a);
      OfScenariosExact(scenarios[1..], a);
    }
  }

  /** Every authority is an assertion about some subject of its scenario. */
  lemma AuthoritySubject(x: Authorities, e: Context, a: Authority) returns (k: nat)
    requires FromEngine(x, e) && a in OfScenarios(x.scenarios)
    ensures k < |Subjects(e, x.controls, a.scenario)|
    ensures var t := Subjects(e, x.controls, a.scenario)[k];
            && t in Subjects(e, x.controls, a.scenario) && GoodSubject(e, x.controls, t) && ShapeFits(a.scenario, t)
            && a.instance == InstanceFor(e, x.policy, x.controls, a.scenario, t)
            && a.instance.id == InstanceId(e, a.scenario, t)
            && a.instance.assertions == Assertions(e, x.policy, x.controls, a.scenario, t)
            && a.assertion in a.instance.assertions
  {
    hide Subjects, InstanceFor, GoodSubject, ShapeFits, ValidGraph, ScenariosFor, GoodControl;
    var controls, p := x.controls, x.policy;
    OfScenariosExact(x.scenarios, a);
    var c :| c in x.scenarios && c.id == a.scenario && a.instance in c.instances
                  && a.assertion in a.instance.assertions;
    ScenarioIdsDiffer(x, e);
    assert c == ScenarioFor(e, p, controls, a.scenario);
    k :| 0 <= k < |c.instances| && c.instances[k] == a.instance;
    SubjectsAreGood(e, controls, a.scenario);
    InstanceIdentity(e, p, controls, a.scenario, Subjects(e, controls, a.scenario)[k]);
  }

  // ------------------------------------------------------------ assertions within an instance

  ghost predicate KeysKnownAndDistinct(s: ScenarioId, r: seq<Assertion>) {
    && (forall i, j :: 0 <= i < j < |r| ==> r[i].key != r[j].key)
    && (forall i :: 0 <= i < |r| ==> DefinitionOf(s, r[i].key).Some?)
  }

  lemma LateKeysDiffer(e: Context, p: PolicyAssessment, c: Control)
    ensures var v := LateVerdicts(e, p, c);
            && (forall i, j :: 0 <= i < j < |v| ==> v[i].0 != v[j].0)
            && (forall i :: 0 <= i < |v| ==> v[i].0 in {ValueKey(SG08), SG08_PRECAPTURE, SG08_CAPTURE})
  {
    hide CapturedEvidence, RoutePaymentStates, RelevantDiagnostics;
  }

  lemma AssertionKeysDiffer(e: Context, p: PolicyAssessment, controls: seq<Control>, s: ScenarioId, t: Subject)
    requires ShapeFits(s, t)
    ensures KeysKnownAndDistinct(s, Assertions(e, p, controls, s, t))
  {
    hide CatalogVerdict, ValueVerdict, RegressionVerdict, MutationVerdict, TrustValueVerdict, LateVerdicts, AssertionId,
      InstanceId;
    match t
    case Catalog =>
    case ForIngress(n, c) =>
    case ForControl(c) =>
      LateKeysDiffer(e, p, c);
  }

  lemma ScenarioTextsDiffer(s: ScenarioId, t: ScenarioId)
    requires ScenarioText(s) == ScenarioText(t)
    ensures s == t
  {
    assert ScenarioText(s)[4] == ScenarioText(t)[4];
  }

  lemma ScenarioTextIsFree(s: ScenarioId)
    ensures UNIT_SEPARATOR !in ScenarioText(s)
  {
  }

  // ------------------------------------------------------------ authority keys

  lemma InstanceIdIsId(e: Context, s: ScenarioId, t: Subject)
    requires Ready(e)
    ensures IsId("sgscenario", InstanceId(e, s, t)) && UNIT_SEPARATOR !in InstanceId(e, s, t)
  {
    StableIdIsId(e.digest, "sgscenario", [ScenarioText(s), Discriminator(t)]);
    IdIsSeparatorFree("sgscenario", InstanceId(e, s, t));
  }

  /** A two-part identity with a separator-free head names its head and its tail. */
  lemma PairReadsBack(h: Digest, prefix: string, a: string, b: string, c: string, d: string)
    requires GoodDigest(h) && UNIT_SEPARATOR !in a && UNIT_SEPARATOR !in c
    requires StableId(h, prefix, [a, b]) == StableId(h, prefix, [c, d])
    ensures a == c && b == d
  {
    StableIdReadsBack(h, prefix, [a, b], [c, d]);
    assert [a, b][1..] == [b] && [c, d][1..] == [d];
    HeadReadsBack(UNIT_SEPARATOR, a, b, c, d);
  }

  lemma SameInstanceId(x: Authorities, e: Context, a: Authority, b: Authority)
    requires FromEngine(x, e) && a in OfScenarios(x.scenarios) && b in OfScenarios(x.scenarios)
    requires a.instance.id == b.instance.id
    ensures a.scenario == b.scenario && a.instance == b.instance
  {
    hide Subjects, InstanceFor, GoodSubject, ShapeFits, ValidGraph, Assertions, OfScenarios, ScenariosFor;
    var i := AuthoritySubject(x, e, a);
    var j := AuthoritySubject(x, e, b);
    var t, u := Subjects(e, x.controls, a.scenario)[i], Subjects(e, x.controls, b.scenario)[j];
    ScenarioTextIsFree(a.scenario);
    ScenarioTextIsFree(b.scenario);
    PairReadsBack(e.digest, "sgscenario", ScenarioText(a.scenario), Discriminator(t), ScenarioText(b.scenario),
                  Discriminator(u));
    ScenarioTextsDiffer(a.scenario, b.scenario);
    if i < j {
      InstanceIdsDiffer(e, x.controls, a.scenario, i, j);
    } else if j < i {
      InstanceIdsDiffer(e, x.controls, a.scenario, j, i);
    }
  }

  lemma SameAssertionKey(x: Authorities, e: Context, a: Authority, b: Authority)
    requires FromEngine(x, e) && a in OfScenarios(x.scenarios) && b in OfScenarios(x.scenarios)
    requires a.scenario == b.scenario && a.instance == b.instance && a.assertion.key == b.assertion.key
    ensures a == b
  {
    hide Subjects, InstanceFor, GoodSubject, ValidGraph, Assertions, OfScenarios, ScenariosFor;
    var i := AuthoritySubject(x, e, a);
    var t := Subjects(e, x.controls, a.scenario)[i];
    var j := AuthoritySubject(x, e, b);
    AssertionKeysDiffer(e, x.policy, x.controls, a.scenario, t);
    var r := a.instance.assertions;
    var m, n :| 0 <= m < |r| && 0 <= n < |r| && r[m] == a.assertion && r[n] == b.assertion;
  }

  lemma AuthorityIdentities(x: Authorities, e: Context, a: Authority)
    requires FromEngine(x, e) && a in OfScenarios(x.scenarios)
    ensures Canonical(e.digest, e.texts, a)
    ensures IsId("sgscenario", a.instance.id) && UNIT_SEPARATOR !in a.instance.id
    ensures IsId("sgassert", a.assertion.id) && UNIT_SEPARATOR !in a.assertion.id
  {
    hide Subjects, InstanceFor, GoodSubject, ValidGraph, Assertions, OfScenarios, ScenariosFor, ShapeFits, InstanceId,
      IsId;
    var i := AuthoritySubject(x, e, a);
    var t := Subjects(e, x.controls, a.scenario)[i];
    AssertionControls(e, x.policy, x.controls, a.scenario, t);
    InstanceIdIsId(e, a.scenario, t);
    StableIdIsId(e.digest, "sgassert", [a.instance.id, e.texts.key(a.assertion.key)]);
    IdIsSeparatorFree("sgassert", a.assertion.id);
  }

  /** Instance and assertion identities determine the authority. */
  lemma SameIds(x: Authorities, e: Context, a: Authority, b: Authority)
    requires FromEngine(x, e) && a in OfScenarios(x.scenarios) && b in OfScenarios(x.scenarios)
    requires a.instance.id == b.instance.id && a.assertion.id == b.assertion.id
    ensures a == b
  {
    hide OfScenarios, ScenariosFor, ValidGraph, IsId;
    SameInstanceId(x, e, a, b);
    AuthorityIdentities(x, e, a);
    AuthorityIdentities(x, e, b);
    PairReadsBack(e.digest, "sgassert", a.instance.id, e.texts.key(a.assertion.key), b.instance.id,
                  e.texts.key(b.assertion.key));
    SameAssertionKey(x, e, a, b);
  }

  // ------------------------------------------------------------ no authority twice

  ghost predicate DistinctAssertions(i: Instance) {
    NoDuplicates(i.assertions)
  }

  lemma {:induction false} OfInstancesDistinct(s: ScenarioId, instances: seq<Instance>)
    requires forall i, j :: 0 <= i < j < |instances| ==> instances[i].id != instances[j].id
    requires forall i :: i in instances ==> DistinctAssertions(i)
    ensures NoDuplicates(OfInstances(s, instances))
  {
    if instances != [] {
      OfInstancesDistinct(s, instances[1..]);
      assert DistinctAssertions(instances[0]);
      forall a | a in OfInstance(s, instances[0])
        ensures a !in OfInstances(s, instances[1..])
      {
        OfInstancesExact(s, instances[1..], a);
      }
      NoDuplicatesAppend(OfInstance(s, instances[0]), OfInstances(s, instances[1..]));
    }
  }

  ghost predicate DistinctInstances(c: Scenario) {
    && (forall i, j :: 0 <= i < j < |c.instances| ==> c.instances[i].id != c.instances[j].id)
    && (forall i :: i in c.instances ==> DistinctAssertions(i))
  }

  lemma {:induction false} OfScenariosDistinct(scenarios: seq<Scenario>)
    requires forall i, j :: 0 <= i < j < |scenarios| ==> scenarios[i].id != scenarios[j].id
    requires forall c :: c in scenarios ==> DistinctInstances(c)
    ensures NoDuplicates(OfScenarios(scenarios))
  {
    if scenarios != [] {
      var c := scenarios[0];
      OfScenariosDistinct(scenarios[1..]);
      assert DistinctInstances(c);
      OfInstancesDistinct(c.id, c.instances);
      forall a | a in OfInstances(c.id, c.instances)
        ensures a !in OfScenarios(scenarios[1..])
      {
        OfInstancesExact(c.id, c.instances, a);
        OfScenariosExact(scenarios[1..], a);
      }
      NoDuplicatesAppend(OfInstances(c.id, c.instances), OfScenarios(scenarios[1..]));
    }
  }

  lemma ScenarioIsDistinct(x: Authorities, e: Context, s: ScenarioId)
    requires Ready(e) && GoodControls(e, x.controls)
    ensures DistinctInstances(ScenarioFor(e, x.policy, x.controls, s))
  {
    hide Subjects, GoodSubject, ValidGraph, Assertions, ShapeFits, ValidInstance;
    var controls, p := x.controls, x.policy;
    var c := ScenarioFor(e, p, controls, s);
    ScenarioIsValid(e, p, controls, s);
    SubjectsAreGood(e, controls, s);
    forall i | i in c.instances
      ensures DistinctAssertions(i)
    {
      var k :| 0 <= k < |c.instances| && c.instances[k] == i;
      var t := Subjects(e, controls, s)[k];
      assert t in Subjects(e, controls, s);
      InstanceIdentity(e, p, controls, s, t);
      AssertionKeysDiffer(e, p, controls, s, t);
    }
  }

  lemma ScenarioIdsDiffer(x: Authorities, e: Context)
    requires x.scenarios == ScenariosFor(e, x.policy, x.controls)
    ensures forall c :: c in x.scenarios ==> c == ScenarioFor(e, x.policy, x.controls, c.id)
    ensures forall i, j :: 0 <= i < j < |x.scenarios| ==> x.scenarios[i].id != x.scenarios[j].id
  {
    hide ScenarioFor, InstancesFor, Subjects, RollUp, Flatten, ValidInstance;
    forall k | 0 <= k < 8
      ensures x.scenarios[k].id == CATALOG[k]
    {
      ScenarioParts(e, x.policy, x.controls, CATALOG[k]);
    }
  }

  lemma AuthoritiesAreDistinct(x: Authorities, e: Context)
    requires FromEngine(x, e)
    ensures NoDuplicates(OfScenarios(x.scenarios))
  {
    hide ScenariosFor, ScenarioFor, DistinctInstances, OfScenarios, Ready;
    ScenarioIdsDiffer(x, e);
    forall c | c in x.scenarios
      ensures DistinctInstances(c)
    {
      ScenarioIsDistinct(x, e, c.id);
    }
    OfScenariosDistinct(x.scenarios);
  }

  /** Neither authority error can be raised for the engine's artifact. */
  lemma AuthoritiesAreSound(x: Authorities, e: Context)
    requires FromEngine(x, e)
    ensures KeysDiffer(OfScenarios(x.scenarios)) && AllCanonical(e.digest, e.texts, OfScenarios(x.scenarios))
  {
    hide ScenariosFor, Canonical, OfScenarios, Ready, IsId;
    var all := OfScenarios(x.scenarios);
    AuthoritiesAreDistinct(x, e);
    forall a | a in all
      ensures Canonical(e.digest, e.texts, a)
    {
      AuthorityIdentities(x, e, a);
    }
    forall i, j | 0 <= i < j < |all|
      ensures KeyOf(all[i]) != KeyOf(all[j])
    {
      if KeyOf(all[i]) == KeyOf(all[j]) {
        SameIds(x, e, all[i], all[j]);
      }
    }
  }

  // ------------------------------------------------------------ check keys

  lemma PlainIsFree()
    ensures forall s :: Plain(s) ==> UNIT_SEPARATOR !in s
  {
  }

  lemma SentinelsAreFree()
    ensures Plain(KEY_VERSION)
    ensures Plain(NO_INGRESS) && Plain(NO_ROUTE) && Plain(NO_INGRESS_SYMBOL)
    ensures Plain(INVARIANT_VERSION) && Plain(NO_CUSTOMER_NODE) && Plain(NO_CUSTOMER_SYMBOL) && Plain(NO_EDGE)
  {
  }

  function IngressText(t: Subject): Option<string> {
    match t
    case ForControl(c) => Some(c.ingress)
    case ForIngress(n, _) => Some(n.id)
    case Catalog => None
  }

  /** What the targets of a check say about the subject. */
  ghost predicate TargetsTell(t: Subject, r: Targets) {
    && r.ingress == IngressText(t)
    && (ControlOf(t).None? ==> r.route.None? && r.valueNode.None? && r.valueSymbol.None? && r.edge.None?)
    && (ControlOf(t).Some? ==>
          var c := ControlOf(t).value;
          r.route == Some(c.route) && r.valueNode == Some(c.valueNode) && r.valueSymbol == Some(c.valueSymbol)
          && r.edge == Some(c.edge))
  }

  lemma TargetsTellSubject(x: Authorities, e: Context, a: Authority, r: ExecutionResult, t: Subject)
    requires FromEngine(x, e) && GoodSubject(e, x.controls, t) && r.control == a.assertion.control
    requires a.instance == InstanceFor(e, x.policy, x.controls, a.scenario, t)
    requires a.assertion in Assertions(e, x.policy, x.controls, a.scenario, t)
    ensures TargetsTell(t, TargetsOf(x, a, r))
  {
    hide Assertions, RollUp, ScenariosFor, SortedSet, OfKind, NodesOfReasons, ValidInstance, Ready, IsId, GoodControl;
    AssertionControls(e, x.policy, x.controls, a.scenario, t);
    if ControlOf(t).Some? {
      assert KnownControl(x.controls, ControlOf(t).value.id);
    }
  }

  lemma OrIsFree(value: Option<string>, absent: string, prefix: string)
    requires UNIT_SEPARATOR !in absent && UNIT_SEPARATOR !in prefix && (value.Some? ==> IsId(prefix, value.value))
    ensures UNIT_SEPARATOR !in Or(value, absent)
  {
    if value.Some? {
      IdIsSeparatorFree(prefix, value.value);
    }
  }

  lemma FixedPartsAreFree(x: Authorities, e: Context, s: ScenarioId, key: AssertionKey, t: Subject, r: Targets)
    requires FromEngine(x, e) && GoodSubject(e, x.controls, t) && TargetsTell(t, r)
    requires r.ingressSymbol.Some? ==> IsId("sgsym", r.ingressSymbol.value)
    ensures Free(UNIT_SEPARATOR, FixedParts(x.texts, x.recorded.project, s, key, r))
  {
    hide IsId, ScenariosFor, KEY_VERSION, INVARIANT_VERSION, NO_INGRESS, NO_ROUTE, NO_INGRESS_SYMBOL,
      NO_CUSTOMER_NODE, NO_CUSTOMER_SYMBOL, NO_EDGE, ScenarioText, Or, Plain;
    SentinelsAreFree();
    PlainIsFree();
    if t.ForIngress? {
      EngineIsReady(x, e);
      IngressIsNode(e, t.ingress);
    }
    ScenarioTextIsFree(s);
    IdIsSeparatorFree("sgproj", x.recorded.project);
    OrIsFree(r.ingress, NO_INGRESS, "sgnode");
    OrIsFree(r.route, NO_ROUTE, "sgroute");
    OrIsFree(r.ingressSymbol, NO_INGRESS_SYMBOL, "sgsym");
    OrIsFree(r.valueNode, NO_CUSTOMER_NODE, "sgnode");
    OrIsFree(r.valueSymbol, NO_CUSTOMER_SYMBOL, "sgsym");
    OrIsFree(r.edge, NO_EDGE, "sgedge");
  }

  lemma SymbolIsId(x: Authorities, e: Context, a: Authority, r: ExecutionResult)
    requires FromEngine(x, e)
    ensures var symbol := TargetsOf(x, a, r).ingressSymbol; symbol.Some? ==> IsId("sgsym", symbol.value)
  {
    hide ScenariosFor, IsId, SortedSet, IdentityControl;
    var ingress := if a.instance.ingress.Some? then NodeAt(x.graph.nodes, a.instance.ingress.value) else None;
    if ingress.Some? {
      assert ValidNode(ingress.value);
    }
  }

  /** A subject is known from its ingress and the edge of its control. */
  lemma SubjectFromTargets(e: Context, controls: seq<Control>, t: Subject, u: Subject, r: Targets, q: Targets)
    requires ValidGraph(e.graph) && GoodControls(e, controls) && GoodSubject(e, controls, t)
          && GoodSubject(e, controls, u)
    requires (t.ForControl? && u.ForControl?) || (t.ForIngress? && u.ForIngress?)
    requires TargetsTell(t, r) && TargetsTell(u, q)
    requires Or(r.ingress, NO_INGRESS) == Or(q.ingress, NO_INGRESS)
    requires Or(r.edge, NO_EDGE) == Or(q.edge, NO_EDGE)
    ensures t == u
  {
    hide IsId;
    if t.ForIngress? {
      SentinelIsNoEdge(Or(r.edge, NO_EDGE));
      assert t.ingress.id == u.ingress.id;
    }
  }

  lemma SentinelIsNoEdge(s: string)
    ensures IsId("sgedge", s) ==> s != NO_EDGE
  {
    if IsId("sgedge", s) {
      assert s[..7][0] == 's';
    }
  }

  lemma AuthorityTargets(x: Authorities, e: Context, a: Authority, r: ExecutionResult) returns (k: nat)
    requires FromEngine(x, e) && a in OfScenarios(x.scenarios) && r.control == a.assertion.control
    ensures k < |Subjects(e, x.controls, a.scenario)|
    ensures var t := Subjects(e, x.controls, a.scenario)[k];
            && t in Subjects(e, x.controls, a.scenario) && GoodSubject(e, x.controls, t) && ShapeFits(a.scenario, t)
            && TargetsTell(t, TargetsOf(x, a, r)) && a.instance == InstanceFor(e, x.policy, x.controls, a.scenario, t)
    ensures DefinitionOf(a.scenario, a.assertion.key).Some?
    ensures Free(UNIT_SEPARATOR,
                 FixedParts(x.texts, x.recorded.project, a.scenario, a.assertion.key, TargetsOf(x, a, r)))
  {
    hide Subjects, ScenariosFor, OfScenarios, GoodSubject, ShapeFits, InstanceFor, Assertions, Ready,
      TargetsTell, TargetsOf, FixedParts, IsId, DefinitionOf, Free;
    k := AuthoritySubject(x, e, a);
    var t := Subjects(e, x.controls, a.scenario)[k];
    TargetsTellSubject(x, e, a, r, t);
    SymbolIsId(x, e, a, r);
    AssertionKeysDiffer(e, x.policy, x.controls, a.scenario, t);
    FixedPartsAreFree(x, e, a.scenario, a.assertion.key, t, TargetsOf(x, a, r));
  }

  lemma EqualKeysEqualParts(h: Digest, texts: Texts, project: string, p: PolicyAssessment, s: ScenarioId,
                            k: AssertionKey, d: Definition, t: Targets, s': ScenarioId, k': AssertionKey,
                                d': Definition, t': Targets)
    requires GoodDigest(h) && GoodTexts(texts)
    requires CheckKey(h, texts, project, s, k, d, t, p) == CheckKey(h, texts, project, s', k', d', t', p)
    requires Free(UNIT_SEPARATOR, FixedParts(texts, project, s, k, t))
    requires Free(UNIT_SEPARATOR, FixedParts(texts, project, s', k', t'))
    ensures s == s' && k == k'
    ensures Or(t.ingress, NO_INGRESS) == Or(t'.ingress, NO_INGRESS)
    ensures Or(t.edge, NO_EDGE) == Or(t'.edge, NO_EDGE)
  {
    hide PolicyParts, Free, GoodDigest, Or;
    var f, g := FixedParts(texts, project, s, k, t), FixedParts(texts, project, s', k', t');
    var xs := f + t.mutations + t.acknowledgements + PolicyParts(d, p);
    var ys := g + t'.mutations + t'.acknowledgements + PolicyParts(d', p);
    assert xs[..12] == f && ys[..12] == g;
    StableIdPrefixInjective(h, "sgcheckkey", xs, ys, 12);
    assert f[2] == g[2] && f[3] == g[3] && f[6] == g[6] && f[11] == g[11];
    ScenarioTextsDiffer(s, s');
  }

  ghost predicate SameKey(x: Authorities, a: Authority, b: Authority, r: ExecutionResult, q: ExecutionResult) {
    && a in OfScenarios(x.scenarios) && b in OfScenarios(x.scenarios)
    && CheckFor(x, a, r).Built? && CheckFor(x, b, q).Built?
    && CheckFor(x, a, r).value.key == CheckFor(x, b, q).value.key
  }

  /** The logical key of a check determines the assertion it is about, whatever was observed at run time. */
  lemma CheckKeyNamesTheAssertion(x: Authorities, e: Context, a: Authority, b: Authority, r: ExecutionResult,
                                  q: ExecutionResult)
    requires FromEngine(x, e)
    ensures SameKey(x, a, b, r, q) ==> a == b
  {
    hide Subjects, ScenariosFor, OfScenarios, GoodSubject, InstanceFor, Assertions, Ready,
      TargetsTell, TargetsOf, FixedParts, IsId, DefinitionOf, Free, CheckKey, CheckId, Projectable, Or, ControlAt,
      ValidCheck, GroundedHere, Unique, Promoted, SameAuthority;
    if SameKey(x, a, b, r, q) {
      var i := AuthorityTargets(x, e, a, r);
      var j := AuthorityTargets(x, e, b, q);
      EngineIsReady(x, e);
      EqualKeysEqualParts(x.digest, x.texts, x.recorded.project, x.policy, a.scenario, a.assertion.key,
                          DefinitionOf(a.scenario, a.assertion.key).value, TargetsOf(x, a, r),
                          b.scenario, b.assertion.key, DefinitionOf(b.scenario, b.assertion.key).value,
                          TargetsOf(x, b, q));
      var t, u := Subjects(e, x.controls, a.scenario)[i], Subjects(e, x.controls, a.scenario)[j];
      SubjectsAreGood(e, x.controls, a.scenario);
      if !t.Catalog? && !u.Catalog? {
        SubjectFromTargets(e, x.controls, t, u, TargetsOf(x, a, r), TargetsOf(x, b, q));
      }
      assert t == u;
      SameAssertionKey(x, e, a, b);
    }
  }

  lemma EngineIsReady(x: Authorities, e: Context)
    requires FromEngine(x, e)
    ensures GoodDigest(x.digest) && GoodTexts(x.texts) && ValidGraph(e.graph)
  {
  }

  ghost predicate SameId(x: Authorities, a: Authority, b: Authority) {
    && a in OfScenarios(x.scenarios) && b in OfScenarios(x.scenarios)
    && CheckId(x.digest, x.run, a.instance.id, a.assertion.id)
       == CheckId(x.digest, x.run, b.instance.id, b.assertion.id)
  }

  lemma CheckIdNamesTheAssertion(x: Authorities, e: Context, a: Authority, b: Authority)
    requires FromEngine(x, e)
    ensures SameId(x, a, b) ==> a == b
  {
    hide ScenariosFor, OfScenarios, IsId, ValidGraph;
    if SameId(x, a, b) {
      AuthorityIdentities(x, e, a);
      AuthorityIdentities(x, e, b);
      IdIsSeparatorFree("sgvrun", x.run);
      var xs, ys := [x.run, a.instance.id, a.assertion.id], [x.run, b.instance.id, b.assertion.id];
      StableIdInjective(x.digest, "sgcheck", xs, ys);
      assert xs[1] == ys[1] && xs[2] == ys[2];
      SameIds(x, e, a, b);
    }
  }

  // ------------------------------------------------------------ the run

  ghost predicate PairwiseDifferent(checks: seq<Check>) {
    forall i, j :: 0 <= i < j < |checks| ==> checks[i].id != checks[j].id && checks[i].key != checks[j].key
  }

  /** All checks of one run have pairwise distinct identities and pairwise distinct logical keys. */
  lemma ChecksDiffer(x: Authorities, e: Context, results: seq<ExecutionResult>)
    requires FromEngine(x, e)
    ensures Admitted(x, OfScenarios(x.scenarios), results) ==>
              PairwiseDifferent(ChecksFor(x, OfScenarios(x.scenarios), results))
  {
    hide OfScenarios, CheckFor, FromEngine, KeyOf, CheckId, ChecksFor;
    if Admitted(x, OfScenarios(x.scenarios), results) {
      var all := OfScenarios(x.scenarios);
      var checks := ChecksFor(x, all, results);
      ChecksForLength(x, all, results);
      EngineAuthoritiesDiffer(x, e);
      forall i, j | 0 <= i < j < |checks|
        ensures checks[i].id != checks[j].id && checks[i].key != checks[j].key
      {
        var a, b := all[i], all[j];
        var r, q := Answer(results, KeyOf(a)).value, Answer(results, KeyOf(b)).value;
        assert a in all && b in all && a != b;
        CheckIdOf(x, a, r);
        CheckIdOf(x, b, q);
        if checks[i].key == checks[j].key {
          CheckKeyNamesTheAssertion(x, e, a, b, r, q);
        }
        if checks[i].id == checks[j].id {
          CheckIdNamesTheAssertion(x, e, a, b);
        }
      }
    }
  }

  lemma DifferentChecksAreUnique(x: Authorities, results: seq<ExecutionResult>)
    requires PairwiseDifferent(ChecksFor(x, OfScenarios(x.scenarios), results))
    ensures IdsUnique(RunChecks(x, results)) && KeysUnique(RunChecks(x, results))
  {
    hide OfScenarios, ChecksFor, Sort;
    var checks, sorted := ChecksFor(x, OfScenarios(x.scenarios), results), RunChecks(x, results);
    var ids, keys := (c: Check) => c.id, (c: Check) => c.key;
    SortedDistinctCount(RunOrder(), checks, ids);
    SortedDistinctCount(RunOrder(), checks, keys);
    assert Ids(sorted) == Values(sorted, ids);
    assert LogicalKeys(sorted) == Values(sorted, keys);
  }

  lemma EngineAuthoritiesDiffer(x: Authorities, e: Context)
    requires FromEngine(x, e)
    ensures NoDuplicates(OfScenarios(x.scenarios)) && OfScenarios(x.scenarios) != []
    ensures KeysDiffer(OfScenarios(x.scenarios)) && AllCanonical(x.digest, x.texts, OfScenarios(x.scenarios))
  {
    hide ScenariosFor, Canonical, KeysDiffer, AllCanonical, Ready, IsId, ScenarioFor, InstanceFor;
    AuthoritiesAreDistinct(x, e);
    AuthoritiesAreSound(x, e);
    SomeAuthority(x, e);
  }

  lemma SomeAuthority(x: Authorities, e: Context)
    requires x.scenarios == ScenariosFor(e, x.policy, x.controls)
    ensures OfScenarios(x.scenarios) != []
  {
    hide Subjects, Assertions, RollUp, Flatten;
    var c := x.scenarios[0];
    ScenarioParts(e, x.policy, x.controls, SG01);
    var i := c.instances[0];
    assert ValidInstance(i);
    assert i.assertions[0] in i.assertions && i in c.instances && c in x.scenarios;
    OfScenariosExact(x.scenarios, Authority(c.id, i, i.assertions[0]));
  }

  lemma CheckIdOf(x: Authorities, a: Authority, r: ExecutionResult)
    ensures CheckFor(x, a, r).Built? ==>
              CheckFor(x, a, r).value.id == CheckId(x.digest, x.run, a.instance.id, a.assertion.id)
  {
  }

  /** A valid result is admitted exactly when it is proper: definition, control and evidence are always known,
      and the check's contract asks for nothing more. */
  lemma AdmittedIffProper(x: Authorities, e: Context, a: Authority, r: ExecutionResult)
    requires FromEngine(x, e)
    ensures a in OfScenarios(x.scenarios) && ValidResult(x.contract, r) && r.scenario == a.scenario ==>
              (CheckFor(x, a, r).Built? <==> ProperAnswer(x, a, r))
  {
    hide Subjects, OfScenarios, InstanceFor, Assertions, ValidGraph, IsId, DefinitionOf, CheckOf, ScenariosFor,
      ValidResult, ValidCheck, GroundedHere, Unique;
    if a in OfScenarios(x.scenarios) && ValidResult(x.contract, r) && r.scenario == a.scenario {
      var k := AuthoritySubject(x, e, a);
      var t := Subjects(e, x.controls, a.scenario)[k];
      AssertionKeysDiffer(e, x.policy, x.controls, a.scenario, t);
      AssertionControls(e, x.policy, x.controls, a.scenario, t);
      if a.assertion.control.Some? {
        assert KnownControl(x.controls, a.assertion.control.value);
      }
      EvidenceIsProjectable(x, e, a, t);
      CheckIsValidIff(x, a, r, DefinitionOf(a.scenario, a.assertion.key).value);
    }
  }

  lemma EvidenceIsProjectable(x: Authorities, e: Context, a: Authority, t: Subject)
    requires FromEngine(x, e) && GoodSubject(e, x.controls, t)
    requires a.assertion in Assertions(e, x.policy, x.controls, a.scenario, t)
    ensures Projectable(a.assertion.reasons)
  {
    hide Assertions, ScenariosFor, GoodControls, IsId;
    AssertionEvidenceExists(e, x.policy, x.controls, a.scenario, t);
    forall v, reason | reason in a.assertion.reasons && v in reason.evidence
      ensures v.kind == GRAPH_NODE || v.kind == GRAPH_EDGE || v.kind == NORMAL_CONTROL
    {
      assert Exists(e, x.controls, v);
    }
  }

  // ------------------------------------------------------------ at most one grounded check

  lemma {:induction false} AtMostOneIff<T>(keep: T -> bool, s: seq<T>)
    ensures |Filter(keep, s)| <= 1 <==> forall i, j :: 0 <= i < j < |s| ==> !(keep(s[i]) && keep(s[j]))
  {
    if s != [] {
      AtMostOneIff(keep, s[1..]);
      FilterEmptyIff(keep, s[1..]);
      assert forall k :: 0 < k < |s| ==> s[k] == s[1..][k - 1];
    }
  }

  /** The grounded checks are those of the promoted results. */
  lemma GroundedChecksIff(x: Authorities, results: seq<ExecutionResult>)
    requires Admitted(x, OfScenarios(x.scenarios), results) && AllValid(x.contract, results)
    ensures var all := OfScenarios(x.scenarios);
            |GroundedChecks(RunChecks(x, results))| <= 1
            <==> forall i, j :: 0 <= i < j < |all| ==>
                   !(Promoted(Answer(results, KeyOf(all[i])).value) && Promoted(Answer(results, KeyOf(all[j])).value))
  {
    hide OfScenarios, CheckFor, KeyOf, Sort, ValidResult;
    var all := OfScenarios(x.scenarios);
    var unsorted, keep := ChecksFor(x, all, results), (c: Check) => c.tier == Some(E4_RAZORPAY_GROUNDED);
    ChecksForLength(x, all, results);
    SortKeepsFilterCount(RunOrder(), keep, unsorted);
    AtMostOneIff(keep, unsorted);
    assert GroundedChecks(RunChecks(x, results)) == Filter(keep, RunChecks(x, results));
    forall k | 0 <= k < |all|
      ensures keep(unsorted[k]) <==> Promoted(Answer(results, KeyOf(all[k])).value)
    {
      assert all[k] in all;
      CheckIsPromoted(x, all[k], Answer(results, KeyOf(all[k])).value);
    }
  }

  lemma CheckIsPromoted(x: Authorities, a: Authority, r: ExecutionResult)
    requires ValidResult(x.contract, r)
    ensures CheckFor(x, a, r).Built? ==>
              (CheckFor(x, a, r).value.tier == Some(E4_RAZORPAY_GROUNDED) <==> Promoted(r))
  {
    hide TargetsOf, ValidCheck, ScenarioRules, Unique, GroundedHere, FailedAcks;
  }

  /** At most one promoted answer is at most one promoted result. */
  lemma PromotedAnswersAreResults(x: Authorities, results: seq<ExecutionResult>)
    requires OneToOne(OfScenarios(x.scenarios), results) && KeysDiffer(OfScenarios(x.scenarios))
    ensures var all := OfScenarios(x.scenarios);
            (forall i, j :: 0 <= i < j < |all| ==>
               !(Promoted(Answer(results, KeyOf(all[i])).value) && Promoted(Answer(results, KeyOf(all[j])).value)))
            <==> forall r, q :: r in results && q in results && Promoted(r) && Promoted(q) ==> r == q
  {
    hide OfScenarios, KeyOf, Promoted;
    var all := OfScenarios(x.scenarios);
    forall r | r in results
      ensures exists i :: 0 <= i < |all| && Answer(results, KeyOf(all[i])) == Some(r)
    {
      var a :| a in all && KeyOf(a) == ResultKey(r);
      var i :| 0 <= i < |all| && all[i] == a;
      AnswerIsTheResult(results, r);
    }
  }

  lemma AnswerIsTheResult(results: seq<ExecutionResult>, r: ExecutionResult)
    requires ResultsDiffer(results) && r in results
    ensures Answer(results, ResultKey(r)) == Some(r)
  {
    var q := Answer(results, ResultKey(r)).value;
    var i, j :| 0 <= i < |results| && 0 <= j < |results| && results[i] == r && results[j] == q;
  }

  /** For an artifact of the engine the build fails only over what its caller can see to: current artifacts,
      and valid, proper results one to one with the assertions. No identity, uniqueness, projection or check
      validation error is left. */
  lemma EngineRunIsAccepted(x: Authorities, e: Context, results: seq<ExecutionResult>)
    requires FromEngine(x, e)
    ensures Accepted(x, results) <==> Proper(x, results)
  {
    hide OfScenarios, FromEngine, CheckFor, ProperAnswer, IdsUnique, KeysUnique, ValidResult, ValidSemantics,
      GroundedChecks, Promoted, ResultsDiffer;
    var all := OfScenarios(x.scenarios);
    EngineAuthoritiesDiffer(x, e);
    if OneToOne(all, results) && AllValid(x.contract, results) {
      forall a | a in all
        ensures CheckFor(x, a, Answer(results, KeyOf(a)).value).Built?
           <==> ProperAnswer(x, a, Answer(results, KeyOf(a)).value)
      {
        AdmittedIffProper(x, e, a, Answer(results, KeyOf(a)).value);
      }
      PromotedAnswersAreResults(x, results);
      if Admitted(x, all, results) {
        GroundedChecksIff(x, results);
        ChecksDiffer(x, e, results);
        DifferentChecksAreUnique(x, results);
        RunIsNonempty(x, results);
      }
    }
  }

  lemma RunIsNonempty(x: Authorities, results: seq<ExecutionResult>)
    requires Admitted(x, OfScenarios(x.scenarios), results) && OfScenarios(x.scenarios) != []
    ensures RunChecks(x, results) != []
  {
    hide OfScenarios, CheckFor, KeyOf;
    ChecksForLength(x, OfScenarios(x.scenarios), results);
    SortPermutes(RunOrder(), ChecksFor(x, OfScenarios(x.scenarios), results));
    PermutationMembers(RunChecks(x, results), ChecksFor(x, OfScenarios(x.scenarios), results));
  }

  // ------------------------------------------------------------ what every accepted run's checks meet

  lemma BuiltCheckIsValid(x: Authorities, a: Authority, r: ExecutionResult)
    ensures CheckFor(x, a, r).Built? ==> ValidCheck(CheckFor(x, a, r).value)
  {
    hide ValidCheck, CheckOf;
  }

  /** Every check of an accepted run meets its contract; so its verdicts are verified exactly where the
      evidence is dynamic, and the coverage the summary reports is the verified share. */
  lemma AcceptedRunIsDynamic(x: Authorities, results: seq<ExecutionResult>)
    ensures Accepted(x, results) ==>
              var checks := RunChecks(x, results);
              && (forall c :: c in checks ==> ValidCheck(c)) && DynamicIffVerified(checks)
              && CountTier(checks, Some(E3_DYNAMIC_VERIFIED)) + CountTier(checks, Some(E4_RAZORPAY_GROUNDED))
                 == CountResult(checks, VERIFIED_PASS) + CountResult(checks, VERIFIED_FAIL)
  {
    hide OfScenarios, CheckFor, KeyOf, Sort, ValidRuntimeEvidence, AllValid, ValidSemantics, CountTier, CountResult;
    if Accepted(x, results) {
      var all, checks := OfScenarios(x.scenarios), RunChecks(x, results);
      var unsorted := ChecksFor(x, all, results);
      ChecksForLength(x, all, results);
      SortPermutes(RunOrder(), unsorted);
      PermutationMembers(checks, unsorted);
      forall c | c in checks
        ensures ValidCheck(c)
      {
        var k :| 0 <= k < |unsorted| && unsorted[k] == c;
        BuiltCheckIsValid(x, all[k], Answer(results, KeyOf(all[k])).value);
      }
      CoverageIsVerifiedShare(checks);
    }
  }

  /** What one evaluation of the engine returns is such an artifact. */
  lemma EvaluationIsFromEngine(x: Authorities, e: Context)
    requires Ready(e) && x.digest == e.digest && x.texts == e.texts && x.graph == e.graph
    requires IsId("sgproj", x.recorded.project) && IsId("sgvrun", x.run)
    requires x.controls == Controls(e) && x.scenarios == ScenariosFor(e, x.policy, x.controls)
    ensures FromEngine(x, e)
  {
    hide Controls, ScenariosFor, GoodControls, IsId;
    ControlsAreGood(e);
  }
}
