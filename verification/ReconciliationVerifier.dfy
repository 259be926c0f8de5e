/** Deterministic verification of settlement and bank candidates for one ledger record. */
module ReconciliationVerifier {
  import opened Foundations
  import opened SettlementGrouping
  import opened ReferenceMatching

  datatype Direction = Incoming | Outgoing

  datatype Ledger = Ledger(id: string, bookedOn: int, amount: int, currency: string, direction: Direction,
                           reference: string)

  datatype Bank = Bank(id: string, postedOn: int, amount: int, currency: string, direction: Direction,
                       reference: string)

  datatype Candidate = Candidate(ledger: string, settlement: string, bank: string, source: string)

  datatype Identity = Identity(settlement: string, bank: string)

  function IdentityOf(c: Candidate): Identity {
    Identity(c.settlement, c.bank)
  }

  /** The records candidates refer to. Both lists stand for dictionaries: no identity occurs twice. */
  datatype Tables = Tables(settlements: seq<Group>, banks: seq<Bank>)

  ghost predicate ValidTables(t: Tables) {
    && (forall i, j :: 0 <= i < j < |t.settlements| ==> t.settlements[i].id != t.settlements[j].id)
    && (forall i, j :: 0 <= i < j < |t.banks| ==> t.banks[i].id != t.banks[j].id)
    && (forall g :: g in t.settlements ==> g.components != [])
  }

  const DATE_WINDOW_DAYS := 4
  const BANK_DATE_WINDOW_DAYS := 3

  function Distance(a: int, b: int): nat {
    if a <= b then b - a else a - b
  }

  // ------------------------------------------------------------ compatibility

  predicate StructureOk(g: Group) {
    && g.components != []
    && (exists c :: c in g.components && c.kind == Credit) && (exists c :: c in g.components && c.kind == Debit)
    && (forall c :: c in g.components ==> c.amount >= 0)
    && Reconstructed(g.components) > 0
  }

  predicate HardPairCompatible(l: Ledger, g: Group, b: Bank)
    requires g.components != []
  {
    && StructureOk(g)
    && |Currencies(g)| == 1
    && Reconstructed(g.components) == l.amount
    && b.amount == Reconstructed(g.components)
    && Currencies(g) == {l.currency}
    && b.currency == l.currency
    && l.direction == Incoming && b.direction == Incoming
    && Distance(l.bookedOn, SettledOn(g.components)) <= DATE_WINDOW_DAYS
    && Distance(SettledOn(g.components), b.postedOn) <= BANK_DATE_WINDOW_DAYS
  }

  function CompatibleBanks(l: Ledger, g: Group, banks: seq<Bank>): nat
    requires g.components != []
  {
    if banks == [] then 0
    else (if HardPairCompatible(l, g, banks[0]) then 1 else 0) + CompatibleBanks(l, g, banks[1..])
  }

  function FinancialPairCount(l: Ledger, settlements: seq<Group>, banks: seq<Bank>): nat
    requires forall g :: g in settlements ==> g.components != []
  {
    if settlements == [] then 0
    else
      assert settlements[0] in settlements;
      CompatibleBanks(l, settlements[0], banks) + FinancialPairCount(l, settlements[1..], banks)
  }

  // ------------------------------------------------------------ checks

  datatype CheckName = ReconStructure | ReconCurrency | LedgerReconAmount | ReconBankAmount | LedgerReconCurrency
                     | ReconBankCurrency | BankDirection | LedgerSettlementDate | SettlementBankDate
                     | ReferenceEvidence | FinancialUniqueness

  datatype Check = Check(name: CheckName, passed: bool, hard: bool)

  predicate Contradicts(name: CheckName) {
    name in {ReconStructure, ReconCurrency, LedgerReconAmount, ReconBankAmount, LedgerReconCurrency, ReconBankCurrency,
             BankDirection}
  }

  function References(components: seq<Component>): (r: seq<string>) {
    if components == [] then []
    else
      var before, last := References(components[..|components| - 1]), components[|components| - 1].reference;
      if last == "" || last in before then before else before + [last]
  }

  /** Without a reference the settlement is compared by an empty one, which is related to nothing. */
  function LinkReferences(g: Group): seq<string> {
    if References(g.components) == [] then [""] else References(g.components)
  }

  function ReferenceEdges(n: Norms, l: Ledger, g: Group, b: Bank): seq<Edge> {
    var references := LinkReferences(g);
    [Best(EdgesFrom(n, references, l.reference, true)), CompareReferences(n, l.reference, b.reference),
     Best(EdgesFrom(n, references, b.reference, false))]
  }

  predicate StrongSourceLink(n: Norms, l: Ledger, g: Group, b: Bank) {
    |Filter(Strong, ReferenceEdges(n, l, g, b))| >= 2
  }

  function HardChecks(l: Ledger, g: Group, b: Bank): seq<Check>
    requires g.components != []
  {
    [Check(ReconStructure, StructureOk(g), true),
     Check(ReconCurrency, |Currencies(g)| == 1, true),
     Check(LedgerReconAmount, l.amount == Reconstructed(g.components), true),
     Check(ReconBankAmount, Reconstructed(g.components) == b.amount, true),
     Check(LedgerReconCurrency, Currencies(g) == {l.currency}, true),
     Check(ReconBankCurrency, |Currencies(g)| == 1 && b.currency in Currencies(g), true),
     Check(BankDirection, l.direction == Incoming && b.direction == Incoming, true),
     Check(LedgerSettlementDate, Distance(l.bookedOn, SettledOn(g.components)) <= DATE_WINDOW_DAYS, true),
     Check(SettlementBankDate, Distance(SettledOn(g.components), b.postedOn) <= BANK_DATE_WINDOW_DAYS, true)]
  }

  datatype Evidence = Evidence(candidate: Candidate, checks: seq<Check>, viable: bool, sufficient: bool, strong: bool)

  predicate AllHardPass(checks: seq<Check>) {
    forall c :: c in checks && c.hard ==> c.passed
  }

  function GroupAt(settlements: seq<Group>, id: string): (r: Option<Group>)
    ensures r.Some? ==> r.value in settlements && r.value.id == id
    ensures r.Some? <==> exists g :: g in settlements && g.id == id
  {
    if settlements == [] then None
    else if settlements[0].id == id then Some(settlements[0])
    else
      assert settlements == [settlements[0]] + settlements[1..];
      GroupAt(settlements[1..], id)
  }

  function BankAt(banks: seq<Bank>, id: string): (r: Option<Bank>)
    ensures r.Some? ==> r.value in banks && r.value.id == id
    ensures r.Some? <==> exists b :: b in banks && b.id == id
  {
    if banks == [] then None
    else if banks[0].id == id then Some(banks[0])
    else
      assert banks == [banks[0]] + banks[1..];
      BankAt(banks[1..], id)
  }

  /** The candidate's records exist; looking up one that does not raises a KeyError in the verifier. */
  predicate Known(t: Tables, id: Identity) {
    GroupAt(t.settlements, id.settlement).Some? && BankAt(t.banks, id.bank).Some?
  }

  ghost predicate AllKnown(t: Tables, candidates: seq<Candidate>) {
    forall c :: c in candidates ==> Known(t, IdentityOf(c))
  }

  function EvaluateCandidate(n: Norms, l: Ledger, c: Candidate, t: Tables, pairs: nat): (e: Evidence)
    requires ValidTables(t) && Known(t, IdentityOf(c))
    ensures e.candidate == c
  {
    var g, b := GroupAt(t.settlements, c.settlement).value, BankAt(t.banks, c.bank).value;
    var strong := StrongSourceLink(n, l, g, b);
    var checks := HardChecks(l, g, b)
                  + [Check(ReferenceEvidence, strong, false), Check(FinancialUniqueness, pairs == 1, false)];
    var viable := AllHardPass(checks);
    Evidence(c, checks, viable, viable && (strong || pairs == 1), strong)
  }

  /** The check list passes exactly on the pairs that the separate compatibility test accepts. */
  lemma ChecksAreCompatibility(n: Norms, l: Ledger, c: Candidate, t: Tables, pairs: nat)
    requires ValidTables(t) && Known(t, IdentityOf(c))
    ensures EvaluateCandidate(n, l, c, t, pairs).viable
       <==> HardPairCompatible(l, GroupAt(t.settlements, c.settlement).value, BankAt(t.banks, c.bank).value)
  {
    hide StructureOk, StrongSourceLink, Reconstructed, SettledOn;
    var g, b := GroupAt(t.settlements, c.settlement).value, BankAt(t.banks, c.bank).value;
    HardChecksIff(l, g, b);
    var extra := [Check(ReferenceEvidence, StrongSourceLink(n, l, g, b), false),
                  Check(FinancialUniqueness, pairs == 1, false)];
    assert forall k :: k in extra ==> !k.hard;
    assert forall k :: k in HardChecks(l, g, b) + extra <==> k in HardChecks(l, g, b) || k in extra;
  }

  lemma HardChecksIff(l: Ledger, g: Group, b: Bank)
    requires g.components != []
    ensures AllHardPass(HardChecks(l, g, b)) <==> HardPairCompatible(l, g, b)
  {
    hide StructureOk, Reconstructed, SettledOn, Distance;
    var r := HardChecks(l, g, b);
    assert AllHardPass(r) <==> forall k :: 0 <= k < 9 ==> r[k].passed;
    if Currencies(g) == {l.currency} {
      assert |Currencies(g)| == 1;
    }
  }

  // ------------------------------------------------------------ decisions

  datatype Decision = Verified(candidate: Candidate) | Review | Exception

  function Evaluations(n: Norms, l: Ledger, candidates: seq<Candidate>, t: Tables): (r: seq<Evidence>)
    requires ValidTables(t) && AllKnown(t, candidates)
    ensures |r| == |candidates|
    ensures forall k :: 0 <= k < |r| ==>
              r[k] == EvaluateCandidate(n, l, candidates[k], t, FinancialPairCount(l, t.settlements, t.banks))
  {
    seq(|candidates|, k requires 0 <= k < |candidates| =>
      EvaluateCandidate(n, l, candidates[k], t, FinancialPairCount(l, t.settlements, t.banks)))
  }

  /** A dictionary keeps the last of the evidences with one identity. */
  function LastSufficient(evidence: seq<Evidence>): Option<Candidate> {
    if evidence == [] then None
    else
      var n := |evidence| - 1;
      if evidence[n].sufficient then Some(evidence[n].candidate) else LastSufficient(evidence[..n])
  }

  lemma {:induction false} LastSufficientIsListed(evidence: seq<Evidence>)
    ensures LastSufficient(evidence).Some? <==> exists e :: e in evidence && e.sufficient
    ensures LastSufficient(evidence).Some? ==>
              exists e :: e in evidence && e.sufficient && e.candidate == LastSufficient(evidence).value
  {
    if evidence != [] {
      var n := |evidence| - 1;
      assert evidence == evidence[..n] + [evidence[n]];
      LastSufficientIsListed(evidence[..n]);
    }
  }

  predicate Contradicted(e: Evidence) {
    e.strong && exists c :: c in e.checks && c.hard && !c.passed && Contradicts(c.name)
  }

  function SufficientIdentities(evidence: seq<Evidence>): set<Identity> {
    set e | e in evidence && e.sufficient :: IdentityOf(e.candidate)
  }

  function Decide(evidence: seq<Evidence>): Decision {
    var sufficient := SufficientIdentities(evidence);
    if |sufficient| == 1 && LastSufficient(evidence).Some? then Verified(LastSufficient(evidence).value)
    else if |sufficient| > 1 then Review
    else if (exists e :: e in evidence && Contradicted(e)) && !(exists e :: e in evidence && e.viable) then Exception
    else Review
  }

  function VerifyCase(n: Norms, l: Ledger, candidates: seq<Candidate>, t: Tables): Decision
    requires ValidTables(t) && AllKnown(t, candidates)
  {
    Decide(Evaluations(n, l, candidates, t))
  }

  lemma DecideByCases(evidence: seq<Evidence>)
    ensures var d, sufficient := Decide(evidence), SufficientIdentities(evidence);
            && (d.Verified? <==> |sufficient| == 1)
            && (d.Verified? ==> sufficient == {IdentityOf(d.candidate)})
            && (d.Exception? <==> sufficient == {} && (exists e :: e in evidence && Contradicted(e))
                                  && !(exists e :: e in evidence && e.viable))
  {
    hide Contradicted;
    var sufficient := SufficientIdentities(evidence);
    LastSufficientIsListed(evidence);
    if |sufficient| == 1 {
      var id :| id in sufficient;
      var e :| e in evidence && e.sufficient && IdentityOf(e.candidate) == id;
      var last :| last in evidence && last.sufficient && last.candidate == LastSufficient(evidence).value;
      Singleton(sufficient, IdentityOf(last.candidate));
    }
  }

  lemma Singleton<T>(s: set<T>, x: T)
    requires |s| == 1 && x in s
    ensures s == {x}
  {
    assert |s - {x}| == 0;
  }

  // ------------------------------------------------------------ soundness

  /** The hard-compatible pairs, as one list. */
  ghost predicate CompatiblePair(l: Ledger, t: Tables, g: Group, b: Bank) {
    g in t.settlements && b in t.banks && g.components != [] && HardPairCompatible(l, g, b)
  }

  lemma {:induction false} CountedBank(l: Ledger, g: Group, banks: seq<Bank>, b: Bank)
    requires g.components != [] && b in banks && HardPairCompatible(l, g, b)
    ensures CompatibleBanks(l, g, banks) >= 1
    ensures CompatibleBanks(l, g, banks) == 1 ==> forall c :: c in banks && HardPairCompatible(l, g, c) ==> c == b
  {
    if b in banks[1..] {
      CountedBank(l, g, banks[1..], b);
    } else {
      assert banks[0] == b;
      forall c | c in banks[1..] && HardPairCompatible(l, g, c)
        ensures CompatibleBanks(l, g, banks[1..]) >= 1
      {
        CountedBank(l, g, banks[1..], c);
      }
    }
  }

  /** If the nested sum is one, the pair that was counted is the only one. */
  lemma {:induction false} CountOneIsUnique(l: Ledger, settlements: seq<Group>, banks: seq<Bank>, g: Group, b: Bank)
    requires forall h :: h in settlements ==> h.components != []
    requires g in settlements && b in banks && HardPairCompatible(l, g, b)
    ensures FinancialPairCount(l, settlements, banks) >= 1
    ensures FinancialPairCount(l, settlements, banks) == 1 ==>
              forall h, c :: h in settlements && c in banks && HardPairCompatible(l, h, c) ==> h == g && c == b
  {
    hide HardPairCompatible;
    var first, rest := settlements[0], settlements[1..];
    assert settlements == [first] + rest && first in settlements;
    forall h, c | h in rest && c in banks && HardPairCompatible(l, h, c)
      ensures FinancialPairCount(l, rest, banks) >= 1
      ensures FinancialPairCount(l, rest, banks) == 1 ==>
                forall h', c' :: h' in rest && c' in banks && HardPairCompatible(l, h', c') ==> h' == h && c' == c
    {
      CountOneIsUnique(l, rest, banks, h, c);
    }
    forall c | c in banks && HardPairCompatible(l, first, c)
      ensures CompatibleBanks(l, first, banks) >= 1
      ensures CompatibleBanks(l, first, banks) == 1 ==>
                forall c' :: c' in banks && HardPairCompatible(l, first, c') ==> c' == c
    {
      CountedBank(l, first, banks, c);
    }
  }

  lemma SufficientIsSound(n: Norms, l: Ledger, c: Candidate, t: Tables)
    requires ValidTables(t) && Known(t, IdentityOf(c))
    requires EvaluateCandidate(n, l, c, t, FinancialPairCount(l, t.settlements, t.banks)).sufficient
    ensures var g, b := GroupAt(t.settlements, c.settlement).value, BankAt(t.banks, c.bank).value;
            && CompatiblePair(l, t, g, b)
            && (StrongSourceLink(n, l, g, b)
                || forall h, d :: CompatiblePair(l, t, h, d) ==> h == g && d == b)
  {
    hide HardPairCompatible, StrongSourceLink, HardChecks, AllHardPass;
    var g, b := GroupAt(t.settlements, c.settlement).value, BankAt(t.banks, c.bank).value;
    ChecksAreCompatibility(n, l, c, t, FinancialPairCount(l, t.settlements, t.banks));
    CountOneIsUnique(l, t.settlements, t.banks, g, b);
  }

  /** A verified decision selects one of the candidates; its pair passes the compatibility test; and either
      its source references are strongly linked or it is the only compatible pair there is. */
  lemma VerifiedIsSound(n: Norms, l: Ledger, candidates: seq<Candidate>, t: Tables)
    requires ValidTables(t) && AllKnown(t, candidates)
    ensures var d := VerifyCase(n, l, candidates, t);
            d.Verified? ==>
              && d.candidate in candidates && Known(t, IdentityOf(d.candidate))
              && var g, b := GroupAt(t.settlements, d.candidate.settlement).value,
                             BankAt(t.banks, d.candidate.bank).value;
                 && CompatiblePair(l, t, g, b)
                 && (StrongSourceLink(n, l, g, b)
                     || forall h, d' :: CompatiblePair(l, t, h, d') ==> h == g && d' == b)
  {
    hide EvaluateCandidate, CompatiblePair, StrongSourceLink, FinancialPairCount;
    if VerifyCase(n, l, candidates, t).Verified? {
      var evidence := Evaluations(n, l, candidates, t);
      LastSufficientIsListed(evidence);
      var e :| e in evidence && e.sufficient && e.candidate == VerifyCase(n, l, candidates, t).candidate;
      var k :| 0 <= k < |evidence| && evidence[k] == e;
      assert candidates[k] in candidates;
      SufficientIsSound(n, l, candidates[k], t);
    }
  }

  // ------------------------------------------------------------ only identities matter

  function Identities(candidates: seq<Candidate>): set<Identity> {
    set c | c in candidates :: IdentityOf(c)
  }

  /** The evidence about an identity, whoever proposed it. */
  function Judge(n: Norms, l: Ledger, id: Identity, t: Tables): Evidence
    requires ValidTables(t) && Known(t, id)
  {
    EvaluateCandidate(n, l, Candidate("", id.settlement, id.bank, ""), t, FinancialPairCount(l, t.settlements, t.banks))
  }

  predicate Sufficient(n: Norms, l: Ledger, id: Identity, t: Tables)
    requires ValidTables(t) && Known(t, id)
  {
    Judge(n, l, id, t).sufficient
  }

  function SufficientIn(n: Norms, l: Ledger, ids: set<Identity>, t: Tables): set<Identity>
    requires ValidTables(t) && forall id :: id in ids ==> Known(t, id)
  {
    set id | id in ids && Sufficient(n, l, id, t)
  }

  ghost predicate IsException(n: Norms, l: Ledger, ids: set<Identity>, t: Tables)
    requires ValidTables(t) && forall id :: id in ids ==> Known(t, id)
  {
    && (exists id :: id in ids && Contradicted(Judge(n, l, id, t)))
    && forall id :: id in ids ==> !Judge(n, l, id, t).viable
  }

  lemma JudgedByIdentity(n: Norms, l: Ledger, c: Candidate, t: Tables)
    requires ValidTables(t) && Known(t, IdentityOf(c))
    ensures var e := EvaluateCandidate(n, l, c, t, FinancialPairCount(l, t.settlements, t.banks));
            e.(candidate := Judge(n, l, IdentityOf(c), t).candidate) == Judge(n, l, IdentityOf(c), t)
  {
  }

  lemma EvidenceByIdentity(n: Norms, l: Ledger, candidates: seq<Candidate>, t: Tables)
    requires ValidTables(t) && AllKnown(t, candidates)
    ensures var evidence, ids := Evaluations(n, l, candidates, t), Identities(candidates);
            && SufficientIdentities(evidence) == SufficientIn(n, l, ids, t)
            && ((exists e :: e in evidence && Contradicted(e))
                <==> exists id :: id in ids && Contradicted(Judge(n, l, id, t)))
            && ((exists e :: e in evidence && e.viable) <==> exists id :: id in ids && Judge(n, l, id, t).viable)
  {
    hide EvaluateCandidate, Judge, FinancialPairCount;
    var evidence, ids := Evaluations(n, l, candidates, t), Identities(candidates);
    forall k | 0 <= k < |evidence|
      ensures IdentityOf(candidates[k]) in ids && evidence[k].candidate == candidates[k]
      ensures Contradicted(evidence[k]) <==> Contradicted(Judge(n, l, IdentityOf(candidates[k]), t))
      ensures evidence[k].viable == Judge(n, l, IdentityOf(candidates[k]), t).viable
      ensures evidence[k].sufficient == Sufficient(n, l, IdentityOf(candidates[k]), t)
    {
      assert candidates[k] in candidates;
      JudgedByIdentity(n, l, candidates[k], t);
    }
    forall id | id in ids
      ensures exists k :: 0 <= k < |evidence| && IdentityOf(candidates[k]) == id && evidence[k] in evidence
    {
      var c :| c in candidates && IdentityOf(c) == id;
      var k :| 0 <= k < |candidates| && candidates[k] == c;
      assert evidence[k] in evidence;
    }
  }

  /** Status and selected identity are a function of the set of proposed identities: neither order nor
      repetition nor origin of the candidates matters. */
  lemma DecisionByIdentities(n: Norms, l: Ledger, candidates: seq<Candidate>, t: Tables)
    requires ValidTables(t) && AllKnown(t, candidates)
    ensures var ids, d := Identities(candidates), VerifyCase(n, l, candidates, t);
            && (forall id :: id in ids ==> Known(t, id))
            && (d.Verified? <==> |SufficientIn(n, l, ids, t)| == 1)
            && (d.Verified? ==> SufficientIn(n, l, ids, t) == {IdentityOf(d.candidate)})
            && (d.Exception? <==> IsException(n, l, ids, t) && SufficientIn(n, l, ids, t) == {})
  {
    hide Judge, Sufficient, Evaluations, EvaluateCandidate, Contradicted, SufficientIdentities, SufficientIn, Decide;
    EvidenceByIdentity(n, l, candidates, t);
    DecideByCases(Evaluations(n, l, candidates, t));
  }

  lemma SameIdentitiesSameDecision(n: Norms, l: Ledger, a: seq<Candidate>, b: seq<Candidate>, t: Tables)
    requires ValidTables(t) && AllKnown(t, a) && AllKnown(t, b) && Identities(a) == Identities(b)
    ensures var d, e := VerifyCase(n, l, a, t), VerifyCase(n, l, b, t);
            && (d.Verified? <==> e.Verified?) && (d.Exception? <==> e.Exception?) && (d.Review? <==> e.Review?)
            && (d.Verified? ==> IdentityOf(d.candidate) == IdentityOf(e.candidate))
  {
    hide VerifyCase, SufficientIn, IsException;
    DecisionByIdentities(n, l, a, t);
    DecisionByIdentities(n, l, b, t);
    if VerifyCase(n, l, a, t).Verified? {
      assert IdentityOf(VerifyCase(n, l, a, t).candidate) in SufficientIn(n, l, Identities(b), t);
    }
  }

  /** More candidates never turn a verified case into an exception or into another identity, never resolve
      a case with several sufficient identities, and resolve an open one only to an added identity. */
  lemma AddingCandidates(n: Norms, l: Ledger, a: seq<Candidate>, b: seq<Candidate>, t: Tables)
    requires ValidTables(t) && AllKnown(t, a) && AllKnown(t, b) && Identities(a) <= Identities(b)
    ensures var d, e := VerifyCase(n, l, a, t), VerifyCase(n, l, b, t);
            && (d.Verified? ==> e.Review? || (e.Verified? && IdentityOf(e.candidate) == IdentityOf(d.candidate)))
            && (|SufficientIn(n, l, Identities(a), t)| > 1 ==> d.Review? && e.Review?)
            && (e.Exception? ==> d.Exception? || (d.Review? && SufficientIn(n, l, Identities(a), t) == {}))
            && (!d.Verified? && e.Verified? ==> IdentityOf(e.candidate) !in Identities(a))
  {
    hide VerifyCase, IsException, Sufficient;
    DecisionByIdentities(n, l, a, t);
    DecisionByIdentities(n, l, b, t);
    var small, large := SufficientIn(n, l, Identities(a), t), SufficientIn(n, l, Identities(b), t);
    assert small <= large;
    SubsetSize(small, large);
    if VerifyCase(n, l, a, t).Verified? && VerifyCase(n, l, b, t).Verified? {
      assert IdentityOf(VerifyCase(n, l, a, t).candidate) in large;
    }
    var e := VerifyCase(n, l, b, t);
    if e.Verified? && IdentityOf(e.candidate) in Identities(a) {
      assert IdentityOf(e.candidate) in large;
      assert small == {IdentityOf(e.candidate)};
    }
  }

  lemma SubsetSize<T>(a: set<T>, b: set<T>)
    requires a <= b
    ensures |a| <= |b|
  {
    assert b == a + (b - a);
  }

  // ------------------------------------------------------------ what masked references cost

  predicate AtLeastTwo(a: bool, b: bool, c: bool) {
    (a && b) || (a && c) || (b && c)
  }

  /** At least two of the three records' pairs have a strong edge, picked or not. */
  ghost predicate LinkExists(n: Norms, l: Ledger, g: Group, b: Bank) {
    AtLeastTwo(SomeStrong(n, LinkReferences(g), l.reference, true),
               Strong(CompareReferences(n, l.reference, b.reference)),
               SomeStrong(n, LinkReferences(g), b.reference, false))
  }

  /** The verifier sees a link exactly when two pairs have a strong edge that no blank reference masks. */
  lemma StrongLinkIff(n: Norms, l: Ledger, g: Group, b: Bank)
    requires GoodRatio(n)
    ensures var references := LinkReferences(g);
            StrongSourceLink(n, l, g, b)
            <==> AtLeastTwo(SomeStrong(n, references, l.reference, true)
                            && !MaskedReference(n, references, l.reference, true),
                            Strong(CompareReferences(n, l.reference, b.reference)),
                            SomeStrong(n, references, b.reference, false)
                            && !MaskedReference(n, references, b.reference, false))
    ensures StrongSourceLink(n, l, g, b) ==> LinkExists(n, l, g, b)
  {
    hide SomeStrong, MaskedReference, Best, GoodRatio, CompareReferences, LinkReferences, EdgesFrom;
    var references := LinkReferences(g);
    StrongEdgeIsOverlookedIff(n, references, l.reference, true);
    StrongEdgeIsOverlookedIff(n, references, b.reference, false);
    CountOfThree(ReferenceEdges(n, l, g, b));
  }

  lemma CountOfThree(edges: seq<Edge>)
    requires |edges| == 3
    ensures |Filter(Strong, edges)| >= 2 <==> AtLeastTwo(Strong(edges[0]), Strong(edges[1]), Strong(edges[2]))
  {
    FilterAppend(Strong, [edges[0]], [edges[1], edges[2]]);
    FilterAppend(Strong, [edges[1]], [edges[2]]);
    assert edges == [edges[0]] + ([edges[1]] + [edges[2]]);
    forall e
      ensures Filter(Strong, [e]) == if Strong(e) then [e] else []
    {
      assert [e][1..] == [];
    }
  }

  /** The decision on a single candidate. */
  lemma SingleCandidateDecision(n: Norms, l: Ledger, c: Candidate, t: Tables)
    requires ValidTables(t) && Known(t, IdentityOf(c))
    ensures var g, b := GroupAt(t.settlements, c.settlement).value, BankAt(t.banks, c.bank).value;
            && AllKnown(t, [c])
            && (VerifyCase(n, l, [c], t).Verified?
                <==> HardPairCompatible(l, g, b)
                     && (StrongSourceLink(n, l, g, b) || FinancialPairCount(l, t.settlements, t.banks) == 1))
            && (HardPairCompatible(l, g, b) ==> !VerifyCase(n, l, [c], t).Exception?)
  {
    hide HardPairCompatible, StrongSourceLink, FinancialPairCount, HardChecks, AllHardPass, Contradicted;
    var pairs := FinancialPairCount(l, t.settlements, t.banks);
    var e := EvaluateCandidate(n, l, c, t, pairs);
    ChecksAreCompatibility(n, l, c, t, pairs);
    assert Evaluations(n, l, [c], t) == [e];
    DecideByCases([e]);
    assert e.sufficient ==> SufficientIdentities([e]) == {IdentityOf(c)};
    assert !e.sufficient ==> SufficientIdentities([e]) == {};
    assert e in [e];
  }

  /** Two of the pairs have a strong edge that no blank reference masks. */
  ghost predicate LinkSeen(n: Norms, l: Ledger, g: Group, b: Bank) {
    var references := LinkReferences(g);
    AtLeastTwo(SomeStrong(n, references, l.reference, true) && !MaskedReference(n, references, l.reference, true),
               Strong(CompareReferences(n, l.reference, b.reference)),
               SomeStrong(n, references, b.reference, false) && !MaskedReference(n, references, b.reference, false))
  }

  /** The identity's pair is compatible, and linked or the only compatible one. */
  ghost predicate Deserves(n: Norms, l: Ledger, id: Identity, t: Tables)
    requires ValidTables(t) && Known(t, id)
  {
    var g, b := GroupAt(t.settlements, id.settlement).value, BankAt(t.banks, id.bank).value;
    HardPairCompatible(l, g, b) && (LinkExists(n, l, g, b) || FinancialPairCount(l, t.settlements, t.banks) == 1)
  }

  /** Masked references leave the linked pair fewer than two edges, and it is not the only compatible one. */
  ghost predicate MaskedOut(n: Norms, l: Ledger, id: Identity, t: Tables)
    requires ValidTables(t) && Known(t, id)
  {
    var g, b := GroupAt(t.settlements, id.settlement).value, BankAt(t.banks, id.bank).value;
    !LinkSeen(n, l, g, b) && FinancialPairCount(l, t.settlements, t.banks) != 1
  }

  ghost function DeservingIn(n: Norms, l: Ledger, ids: set<Identity>, t: Tables): set<Identity>
    requires ValidTables(t) && forall id :: id in ids ==> Known(t, id)
  {
    set id | id in ids && Deserves(n, l, id, t)
  }

  ghost function MaskedIn(n: Norms, l: Ledger, ids: set<Identity>, t: Tables): set<Identity>
    requires ValidTables(t) && forall id :: id in ids ==> Known(t, id)
  {
    set id | id in ids && MaskedOut(n, l, id, t)
  }

  lemma SufficientIff(n: Norms, l: Ledger, id: Identity, t: Tables)
    requires GoodRatio(n) && ValidTables(t) && Known(t, id)
    ensures Sufficient(n, l, id, t) <==> Deserves(n, l, id, t) && !MaskedOut(n, l, id, t)
    ensures Judge(n, l, id, t).viable <== Deserves(n, l, id, t)
  {
    hide HardPairCompatible, StrongSourceLink, FinancialPairCount, HardChecks, AllHardPass, LinkExists, GoodRatio,
      CompareReferences, SomeStrong, MaskedReference;
    var g, b := GroupAt(t.settlements, id.settlement).value, BankAt(t.banks, id.bank).value;
    ChecksAreCompatibility(n, l, Candidate("", id.settlement, id.bank, ""), t,
                           FinancialPairCount(l, t.settlements, t.banks));
    StrongLinkIff(n, l, g, b);
  }

  lemma SufficientAreDeservingUnmasked(n: Norms, l: Ledger, ids: set<Identity>, t: Tables)
    requires GoodRatio(n) && ValidTables(t) && forall id :: id in ids ==> Known(t, id)
    ensures SufficientIn(n, l, ids, t) == DeservingIn(n, l, ids, t) - MaskedIn(n, l, ids, t)
    ensures DeservingIn(n, l, ids, t) != {} ==> !IsException(n, l, ids, t)
  {
    hide Sufficient, Deserves, MaskedOut, Judge, GoodRatio, Contradicted;
    forall id | id in ids
      ensures Sufficient(n, l, id, t) <==> Deserves(n, l, id, t) && !MaskedOut(n, l, id, t)
      ensures Judge(n, l, id, t).viable <== Deserves(n, l, id, t)
    {
      SufficientIff(n, l, id, t);
    }
  }

  /** What masked references do to the decision on any candidates. Seeing every strong edge it would be
      verified exactly with one deserving identity; it is verified exactly with one deserving identity that is
      not masked. So masking turns a verified case into REVIEW exactly when its one deserving identity is
      masked, and it verifies a case with several exactly when it masks all but one. */
  lemma MaskingChangesDecisionIff(n: Norms, l: Ledger, candidates: seq<Candidate>, t: Tables)
    requires GoodRatio(n) && ValidTables(t) && AllKnown(t, candidates)
    ensures var ids, d := Identities(candidates), VerifyCase(n, l, candidates, t);
            && (forall id :: id in ids ==> Known(t, id))
            && var deserving, masked := DeservingIn(n, l, ids, t), MaskedIn(n, l, ids, t);
               && (d.Verified? <==> |deserving - masked| == 1)
               && (d.Verified? ==> deserving - masked == {IdentityOf(d.candidate)})
               && (|deserving| == 1 ==> (d.Review? <==> deserving <= masked))
               && (|deserving| > 1 ==> (d.Verified? <==> exists id :: deserving - masked == {id}))
               && (deserving != {} ==> !d.Exception?)
  {
    hide VerifyCase, SufficientIn, DeservingIn, MaskedIn, IsException, GoodRatio;
    DecisionByIdentities(n, l, candidates, t);
    var ids := Identities(candidates);
    SufficientAreDeservingUnmasked(n, l, ids, t);
    var deserving, masked := DeservingIn(n, l, ids, t), MaskedIn(n, l, ids, t);
    if |deserving| == 1 {
      SubsetSize(deserving - masked, deserving);
      if !(deserving <= masked) {
        var id :| id in deserving && id !in masked;
        Singleton(deserving, id);
        assert deserving - masked == {id};
      } else {
        assert deserving - masked == {};
      }
    }
  }
}
