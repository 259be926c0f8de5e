/** The two stages of reconciliation: candidates from references alone, then semantic candidates for what
    the first stage left open. */
module ReconciliationPipeline {
  import opened Foundations
  import opened SettlementGrouping
  import opened ReferenceMatching
  import opened ReconciliationVerifier
  import opened ReconciliationDecisions

  // ------------------------------------------------------------ baseline candidates

  function LedgerEdge(n: Norms, l: Ledger, g: Group): Edge {
    Best(EdgesFrom(n, References(g.components), l.reference, true))
  }

  function EdgesOf(n: Norms, l: Ledger, g: Group, b: Bank): seq<Edge> {
    [LedgerEdge(n, l, g), CompareReferences(n, l.reference, b.reference),
     Best(EdgesFrom(n, References(g.components), b.reference, false))]
  }

  predicate Related(e: Edge) {
    e.level != Unrelated
  }

  /** The ledger record is related to the settlement, and at least one other pair of the three is related. */
  predicate Proposes(n: Norms, l: Ledger, g: Group, b: Bank) {
    Related(LedgerEdge(n, l, g)) && |Filter(Related, EdgesOf(n, l, g, b))| >= 2
  }

  function SourceOf(edges: seq<Edge>): string {
    if forall e :: e in edges && Related(e) ==> e.level == Exact then "deterministic_exact"
    else if forall e :: e in edges ==> e.level != Fuzzy then "deterministic_normalized"
    else "deterministic_fuzzy"
  }

  function CandidateOf(n: Norms, l: Ledger, g: Group, b: Bank): Candidate {
    Candidate(l.id, g.id, b.id, SourceOf(EdgesOf(n, l, g, b)))
  }

  function FromBanks(n: Norms, l: Ledger, g: Group, banks: seq<Bank>): seq<Candidate> {
    if banks == [] then []
    else
      var b := banks[|banks| - 1];
      FromBanks(n, l, g, banks[..|banks| - 1]) + (if Proposes(n, l, g, b) then [CandidateOf(n, l, g, b)] else [])
  }

  function FromSettlements(n: Norms, l: Ledger, settlements: seq<Group>, banks: seq<Bank>): seq<Candidate> {
    if settlements == [] then []
    else FromSettlements(n, l, settlements[..|settlements| - 1], banks)
         + FromBanks(n, l, settlements[|settlements| - 1], banks)
  }

  /** Records that share an identity share its list. */
  function FromLedgers(n: Norms, ledgers: seq<Ledger>, id: string, t: Tables): seq<Candidate> {
    if ledgers == [] then []
    else
      var l := ledgers[|ledgers| - 1];
      FromLedgers(n, ledgers[..|ledgers| - 1], id, t)
      + (if l.id == id then FromSettlements(n, l, t.settlements, t.banks) else [])
  }

  function LedgerIds(ledgers: seq<Ledger>): set<string> {
    set l | l in ledgers :: l.id
  }

  method SettlementCandidates(n: Norms, l: Ledger, g: Group, banks: seq<Bank>) returns (r: seq<Candidate>)
    ensures r == FromBanks(n, l, g, banks)
  {
    r := [];
    var ledgerEdge := LedgerEdge(n, l, g);
    if !Related(ledgerEdge) {
      NothingFromBanks(n, l, g, banks);
      return;
    }
    for k := 0 to |banks|
      invariant r == FromBanks(n, l, g, banks[..k])
    {
      assert banks[..k + 1][..k] == banks[..k];
      var edges := EdgesOf(n, l, g, banks[k]);
      if |Filter(Related, edges)| >= 2 {
        r := r + [Candidate(l.id, g.id, banks[k].id, SourceOf(edges))];
      }
    }
    assert banks[..|banks|] == banks;
  }

  lemma {:induction false} NothingFromBanks(n: Norms, l: Ledger, g: Group, banks: seq<Bank>)
    requires !Related(LedgerEdge(n, l, g))
    ensures FromBanks(n, l, g, banks) == []
  {
    if banks != [] {
      NothingFromBanks(n, l, g, banks[..|banks| - 1]);
    }
  }

  method LedgerCandidates(n: Norms, l: Ledger, t: Tables) returns (r: seq<Candidate>)
    ensures r == FromSettlements(n, l, t.settlements, t.banks)
  {
    hide FromBanks, FromSettlements;
    r := [];
    NoSettlements(n, l, t.banks);
    for m := 0 to |t.settlements|
      invariant r == FromSettlements(n, l, t.settlements[..m], t.banks)
    {
      var more := SettlementCandidates(n, l, t.settlements[m], t.banks);
      NextSettlement(n, l, t.settlements, m, t.banks);
      r := r + more;
    }
    assert t.settlements[..|t.settlements|] == t.settlements;
  }

  method GenerateBaselineCandidates(n: Norms, ledgers: seq<Ledger>, t: Tables) returns (r: map<string, seq<Candidate>>)
    ensures r.Keys == LedgerIds(ledgers)
    ensures forall id :: id in r ==> r[id] == FromLedgers(n, ledgers, id, t)
  {
    hide FromSettlements;
    r := map id | id in LedgerIds(ledgers) :: [];
    for k := 0 to |ledgers|
      invariant r.Keys == LedgerIds(ledgers)
      invariant forall id :: id in r ==> r[id] == FromLedgers(n, ledgers[..k], id, t)
    {
      var l := ledgers[k];
      assert ledgers[..k + 1][..k] == ledgers[..k] && l in ledgers;
      var more := LedgerCandidates(n, l, t);
      r := r[l.id := r[l.id] + more];
    }
    assert ledgers[..|ledgers|] == ledgers;
  }

  lemma NoSettlements(n: Norms, l: Ledger, banks: seq<Bank>)
    ensures FromSettlements(n, l, [], banks) == []
  {
  }

  lemma NextSettlement(n: Norms, l: Ledger, settlements: seq<Group>, m: nat, banks: seq<Bank>)
    requires m < |settlements|
    ensures FromSettlements(n, l, settlements[..m + 1], banks)
         == FromSettlements(n, l, settlements[..m], banks) + FromBanks(n, l, settlements[m], banks)
  {
    assert settlements[..m + 1][..m] == settlements[..m];
  }

  // ------------------------------------------------------------ what is proposed

  lemma {:induction false} FromBanksExact(n: Norms, l: Ledger, g: Group, banks: seq<Bank>, c: Candidate)
    ensures c in FromBanks(n, l, g, banks)
       <==> exists b :: b in banks && Proposes(n, l, g, b) && c == CandidateOf(n, l, g, b)
  {
    hide Proposes, CandidateOf;
    if banks != [] {
      var k := |banks| - 1;
      assert banks == banks[..k] + [banks[k]];
      FromBanksExact(n, l, g, banks[..k], c);
    }
  }

  lemma {:induction false} FromSettlementsExact(n: Norms, l: Ledger, settlements: seq<Group>, banks: seq<Bank>,
                                                c: Candidate)
    ensures c in FromSettlements(n, l, settlements, banks)
       <==> exists g, b :: g in settlements && b in banks && Proposes(n, l, g, b) && c == CandidateOf(n, l, g, b)
  {
    hide Proposes, CandidateOf, FromBanks;
    if settlements != [] {
      var k := |settlements| - 1;
      assert settlements == settlements[..k] + [settlements[k]];
      FromSettlementsExact(n, l, settlements[..k], banks, c);
      FromBanksExact(n, l, settlements[k], banks, c);
    }
  }

  /** A candidate is proposed exactly for the triples with enough related references; in particular only
      for settlements and bank transactions that exist. */
  lemma {:induction false} FromLedgersExact(n: Norms, ledgers: seq<Ledger>, id: string, t: Tables, c: Candidate)
    ensures c in FromLedgers(n, ledgers, id, t)
       <==> exists l, g, b :: l in ledgers && l.id == id && g in t.settlements && b in t.banks
                              && Proposes(n, l, g, b) && c == CandidateOf(n, l, g, b)
  {
    hide Proposes, CandidateOf, FromSettlements;
    if ledgers != [] {
      var k := |ledgers| - 1;
      assert ledgers == ledgers[..k] + [ledgers[k]];
      FromLedgersExact(n, ledgers[..k], id, t, c);
      FromSettlementsExact(n, ledgers[k], t.settlements, t.banks, c);
    }
  }

  /** Neither reference is empty, and they are the same or similar enough. */
  predicate RelatedReferences(n: Norms, a: string, b: string) {
    && a != "" && b != ""
    && (SameReference(n, a, b) || n.ratio(LettersAndDigits(n, a), LettersAndDigits(n, b)) >= 0.88)
  }

  /** Some component of the settlement has a reference related to the ledger's, and one to the bank's. */
  predicate RelatedToLedger(n: Norms, l: Ledger, g: Group) {
    exists c :: c in g.components && RelatedReferences(n, l.reference, c.reference)
  }

  predicate RelatedToBank(n: Norms, g: Group, b: Bank) {
    exists c :: c in g.components && RelatedReferences(n, c.reference, b.reference)
  }

  lemma RelatedIff(n: Norms, a: string, b: string)
    ensures Related(CompareReferences(n, a, b)) <==> RelatedReferences(n, a, b)
    ensures Related(CompareReferences(n, a, b)) <==> CompareReferences(n, a, b).score >= 0.88
  {
    LettersIff(n, a);
    LettersIff(n, b);
  }

  /** The best edge is related exactly when some edge is. */
  lemma BestIsRelatedIff(n: Norms, references: seq<string>, other: string, flipped: bool)
    ensures Related(Best(EdgesFrom(n, references, other, flipped)))
       <==> exists v :: v in references
                        && if flipped then RelatedReferences(n, other, v) else RelatedReferences(n, v, other)
  {
    hide CompareReferences, RelatedReferences, Best;
    var edges := EdgesFrom(n, references, other, flipped);
    forall k | 0 <= k < |references|
      ensures Related(edges[k]) <==> edges[k].score >= 0.88
      ensures Related(edges[k])
         <==> if flipped then RelatedReferences(n, other, references[k]) else RelatedReferences(n, references[k], other)
    {
      RelatedIff(n, other, references[k]);
      RelatedIff(n, references[k], other);
    }
    if references != [] {
      var b := BestIsFirstMaximum(edges);
      assert references[b] in references;
    } else {
      BestOfNone();
    }
  }

  lemma BestOfNone()
    ensures !Related(Best([]))
  {
  }

  lemma ReferencesRelatedIff(n: Norms, l: Ledger, g: Group, b: Bank)
    ensures Related(LedgerEdge(n, l, g)) <==> RelatedToLedger(n, l, g)
    ensures Related(Best(EdgesFrom(n, References(g.components), b.reference, false))) <==> RelatedToBank(n, g, b)
  {
    hide RelatedReferences, Best, EdgesFrom, References, Related;
    BestIsRelatedIff(n, References(g.components), l.reference, true);
    BestIsRelatedIff(n, References(g.components), b.reference, false);
    ReferencesAreFirstSeen(g.components);
    EmptyIsUnrelated(n);
  }

  lemma EmptyIsUnrelated(n: Norms)
    ensures forall a :: !RelatedReferences(n, a, "") && !RelatedReferences(n, "", a)
  {
  }

  /** A triple is proposed exactly when the settlement is related to the ledger record and one of them to the bank
      transaction. */
  lemma ProposesIff(n: Norms, l: Ledger, g: Group, b: Bank)
    ensures Proposes(n, l, g, b) <==>
              RelatedToLedger(n, l, g) && (RelatedReferences(n, l.reference, b.reference) || RelatedToBank(n, g, b))
  {
    hide Related, RelatedReferences, RelatedToLedger, RelatedToBank, CompareReferences, Best, EdgesFrom, References;
    ReferencesRelatedIff(n, l, g, b);
    RelatedIff(n, l.reference, b.reference);
    RelatedOfThree(EdgesOf(n, l, g, b));
  }

  lemma RelatedOfThree(edges: seq<Edge>)
    requires |edges| == 3
    ensures |Filter(Related, edges)| >= 2 <==> AtLeastTwo(Related(edges[0]), Related(edges[1]), Related(edges[2]))
  {
    FilterAppend(Related, [edges[0]], [edges[1], edges[2]]);
    FilterAppend(Related, [edges[1]], [edges[2]]);
    assert edges == [edges[0]] + ([edges[1]] + [edges[2]]);
    forall e
      ensures Filter(Related, [e]) == if Related(e) then [e] else []
    {
      assert [e][1..] == [];
    }
  }

  /** The candidate names the three records; its source says how exact the related edges are. */
  predicate NamesTriple(n: Norms, l: Ledger, g: Group, b: Bank, c: Candidate) {
    var edges := EdgesOf(n, l, g, b);
    && c.ledger == l.id && c.settlement == g.id && c.bank == b.id
    && (c.source == "deterministic_fuzzy" <==> exists e :: e in edges && e.level == Fuzzy)
    && (c.source == "deterministic_exact" <==> forall e :: e in edges ==> e.level == Exact || e.level == Unrelated)
    && c.source in {"deterministic_exact", "deterministic_normalized", "deterministic_fuzzy"}
  }

  lemma CandidateNamesTriple(n: Norms, l: Ledger, g: Group, b: Bank, c: Candidate)
    ensures c == CandidateOf(n, l, g, b) <==> NamesTriple(n, l, g, b, c)
  {
    hide EdgesOf;
    assert |"deterministic_exact"| == 19 && |"deterministic_normalized"| == 24 && |"deterministic_fuzzy"| == 19;
    assert "deterministic_exact"[14] == 'e' && "deterministic_fuzzy"[14] == 'f';
  }

  /** The baseline proposes exactly the triples whose references are related, each under its ledger record. */
  lemma BaselineExact(n: Norms, ledgers: seq<Ledger>, id: string, t: Tables, c: Candidate)
    ensures c in FromLedgers(n, ledgers, id, t)
       <==> exists l, g, b :: l in ledgers && l.id == id && g in t.settlements && b in t.banks
                              && RelatedToLedger(n, l, g)
                              && (RelatedReferences(n, l.reference, b.reference) || RelatedToBank(n, g, b))
                              && NamesTriple(n, l, g, b, c)
  {
    hide Proposes, CandidateOf, FromLedgers, RelatedToLedger, RelatedToBank, RelatedReferences, NamesTriple;
    FromLedgersExact(n, ledgers, id, t, c);
    forall l, g, b
      ensures Proposes(n, l, g, b) <==>
                RelatedToLedger(n, l, g) && (RelatedReferences(n, l.reference, b.reference) || RelatedToBank(n, g, b))
      ensures c == CandidateOf(n, l, g, b) <==> NamesTriple(n, l, g, b, c)
    {
      ProposesIff(n, l, g, b);
      CandidateNamesTriple(n, l, g, b, c);
    }
  }

  lemma BaselineIsKnown(n: Norms, ledgers: seq<Ledger>, id: string, t: Tables)
    ensures AllKnown(t, FromLedgers(n, ledgers, id, t))
  {
    hide Proposes;
    forall c | c in FromLedgers(n, ledgers, id, t)
      ensures Known(t, IdentityOf(c))
    {
      FromLedgersExact(n, ledgers, id, t, c);
    }
  }

  // ------------------------------------------------------------ two stages

  /** The record that decides for an identity is the last one with it. */
  function RecordAt(ledgers: seq<Ledger>, id: string): (r: Ledger)
    requires id in LedgerIds(ledgers)
    ensures r in ledgers && r.id == id
  {
    var k := |ledgers| - 1;
    assert ledgers == ledgers[..k] + [ledgers[k]];
    if ledgers[k].id == id then ledgers[k] else RecordAt(ledgers[..k], id)
  }

  function Get(candidates: map<string, seq<Candidate>>, id: string): seq<Candidate> {
    if id in candidates then candidates[id] else []
  }

  ghost predicate MapKnown(t: Tables, candidates: map<string, seq<Candidate>>) {
    forall id :: id in candidates ==> AllKnown(t, candidates[id])
  }

  function VerifyAll(n: Norms, ledgers: seq<Ledger>, candidates: map<string, seq<Candidate>>,
                     t: Tables): map<string, Decision>
    requires ValidTables(t) && MapKnown(t, candidates)
  {
    map id | id in LedgerIds(ledgers) :: VerifyCase(n, RecordAt(ledgers, id), Get(candidates, id), t)
  }

  function Unresolved(decisions: map<string, Decision>): set<string> {
    set id | id in decisions && decisions[id].Review?
  }

  /** The semantic candidates that name an identity the baseline does not. */
  function Added(baseline: seq<Candidate>, semantic: seq<Candidate>): seq<Candidate> {
    var known := Identities(baseline);
    Filter((c: Candidate) => IdentityOf(c) !in known, semantic)
  }

  function HybridCandidates(ledgers: seq<Ledger>, baseline: map<string, seq<Candidate>>,
                            semantic: map<string, seq<Candidate>>): map<string, seq<Candidate>> {
    map id | id in LedgerIds(ledgers) :: Get(baseline, id) + Added(Get(baseline, id), Get(semantic, id))
  }

  lemma HybridIsKnown(ledgers: seq<Ledger>, baseline: map<string, seq<Candidate>>,
                      semantic: map<string, seq<Candidate>>, t: Tables)
    requires MapKnown(t, baseline) && MapKnown(t, semantic)
    ensures MapKnown(t, HybridCandidates(ledgers, baseline, semantic))
  {
    forall id, c | id in LedgerIds(ledgers) && c in Added(Get(baseline, id), Get(semantic, id))
      ensures Known(t, IdentityOf(c))
    {
      FilterMember((d: Candidate) => IdentityOf(d) !in Identities(Get(baseline, id)), Get(semantic, id), c);
    }
  }

  /** The second stage touches only what the first left open: every other decision is the same; an open
      case is settled only by an identity the semantic stage added; and a case with several sufficient
      candidates stays open. The only demand on the semantic stage is that it proposes for open cases and
      names existing records. */
  lemma HybridKeepsBaselineDecisions(n: Norms, ledgers: seq<Ledger>, baseline: map<string, seq<Candidate>>,
                                     semantic: map<string, seq<Candidate>>, t: Tables, id: string)
    requires ValidTables(t) && MapKnown(t, baseline) && MapKnown(t, semantic) && id in LedgerIds(ledgers)
    requires semantic.Keys == Unresolved(VerifyAll(n, ledgers, baseline, t))
    ensures MapKnown(t, HybridCandidates(ledgers, baseline, semantic)) && AllKnown(t, Get(baseline, id))
    ensures var before := VerifyAll(n, ledgers, baseline, t)[id];
            var after := VerifyAll(n, ledgers, HybridCandidates(ledgers, baseline, semantic), t)[id];
            && (!before.Review? ==> after == before)
            && (before.Review? && after.Verified? ==>
                  IdentityOf(after.candidate) in Identities(Get(semantic, id)) - Identities(Get(baseline, id)))
            && (|SufficientIn(n, RecordAt(ledgers, id), Identities(Get(baseline, id)), t)| > 1 ==> after.Review?)
  {
    hide VerifyCase, SufficientIn, Known;
    HybridIsKnown(ledgers, baseline, semantic, t);
    var a, s := Get(baseline, id), Get(semantic, id);
    var b := a + Added(a, s);
    var before := VerifyAll(n, ledgers, baseline, t)[id];
    assert HybridCandidates(ledgers, baseline, semantic)[id] == b;
    if !before.Review? {
      assert id !in semantic && Added(a, s) == [];
      assert b == a;
    } else {
      AddingCandidates(n, RecordAt(ledgers, id), a, b, t);
      forall c | c in Added(a, s)
        ensures c in s
      {
        FilterMember((d: Candidate) => IdentityOf(d) !in Identities(a), s, c);
      }
      var after := VerifyAll(n, ledgers, HybridCandidates(ledgers, baseline, semantic), t)[id];
      if after.Verified? {
        VerifiedIsProposed(n, RecordAt(ledgers, id), b, t);
      }
    }
    if |SufficientIn(n, RecordAt(ledgers, id), Identities(a), t)| > 1 {
      AddingCandidates(n, RecordAt(ledgers, id), a, b, t);
    }
  }

  lemma VerifiedIsProposed(n: Norms, l: Ledger, candidates: seq<Candidate>, t: Tables)
    requires ValidTables(t) && AllKnown(t, candidates)
    ensures var d := VerifyCase(n, l, candidates, t); d.Verified? ==> d.candidate in candidates
  {
    hide VerifyCase, CompatiblePair, StrongSourceLink, Known;
    if VerifyCase(n, l, candidates, t).Verified? {
      VerifiedIsSound(n, l, candidates, t);
    }
  }
}
