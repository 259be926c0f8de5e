/** The decision on a case, said on the records alone: which pairs fit the ledger record, which are linked by their
    references, and when the case is verified, an exception or open. */
module ReconciliationDecisions {
  import opened Foundations
  import opened SettlementGrouping
  import opened ReferenceMatching
  import opened ReconciliationVerifier

  // ------------------------------------------------------------ facts about a pair

  /** A settlement has credits and debits, no negative component, and pays out something. */
  predicate Sound(g: Group) {
    && (exists c :: c in g.components && c.kind == Credit) && (exists c :: c in g.components && c.kind == Debit)
    && (forall c :: c in g.components ==> c.amount >= 0)
    && Total(g.components, Credit) > Total(g.components, Debit)
  }

  predicate SameMoney(l: Ledger, g: Group, b: Bank) {
    && Total(g.components, Credit) - Total(g.components, Debit) == l.amount == b.amount
    && (forall c :: c in g.components ==> c.currency == l.currency) && b.currency == l.currency
  }

  /** Ledger and bank are compared with the settlement's earliest date. */
  predicate InTime(l: Ledger, g: Group, b: Bank) {
    exists first :: first in g.components && (forall c :: c in g.components ==> first.settledOn <= c.settledOn)
                    && l.bookedOn - 4 <= first.settledOn <= l.bookedOn + 4
                    && first.settledOn - 3 <= b.postedOn <= first.settledOn + 3
  }

  /** The money does not agree, flows out, or cannot be explained; a late date alone contradicts nothing. */
  predicate Conflicts(l: Ledger, g: Group, b: Bank) {
    !Sound(g) || !SameMoney(l, g, b) || l.direction != Incoming || b.direction != Incoming
  }

  predicate Fits(l: Ledger, g: Group, b: Bank) {
    !Conflicts(l, g, b) && InTime(l, g, b)
  }

  function LettersAndDigits(n: Norms, reference: string): string {
    Filter((c: char) => 'a' <= c <= 'z' || '0' <= c <= '9', n.text(reference))
  }

  /** Neither is empty, and they read the same, or do so when only letters and digits count and there are any. */
  predicate SameReference(n: Norms, a: string, b: string) {
    && a != "" && b != ""
    && (n.text(a) == n.text(b)
        || (LettersAndDigits(n, a) == LettersAndDigits(n, b) && LettersAndDigits(n, a) != ""))
  }

  /** Neither is empty or has a letter or digit, and they do not read the same. */
  predicate BlankPair(n: Norms, a: string, b: string) {
    && a != "" && b != "" && n.text(a) != n.text(b)
    && LettersAndDigits(n, a) == "" && LettersAndDigits(n, b) == ""
  }

  /** One of the settlement's references is the record's, and no blank one stands before the first such. */
  predicate Recognised(n: Norms, references: seq<string>, other: string) {
    exists m :: 0 <= m < |references| && SameReference(n, other, references[m])
                && forall k :: 0 <= k < m ==> !BlankPair(n, other, references[k])
  }

  /** Two of ledger, settlement and bank pairs share a reference that is recognised. */
  predicate Linked(n: Norms, l: Ledger, g: Group, b: Bank) {
    var references := References(g.components);
    AtLeastTwo(Recognised(n, references, l.reference), SameReference(n, l.reference, b.reference),
               Recognised(n, references, b.reference))
  }

  // ------------------------------------------------------------ the verifier's tests are these facts

  lemma {:induction false} TotalOfOneAndMore(c: Component, rest: seq<Component>, kind: ComponentType)
    ensures Total([c] + rest, kind) == (if c.kind == kind then c.amount else 0) + Total(rest, kind)
    ensures Total([], kind) == 0
  {
    assert ([c] + rest)[1..] == rest;
  }

  lemma StructureIff(g: Group)
    requires g.components != []
    ensures StructureOk(g) <==> Sound(g)
  {
  }

  lemma OneCurrencyIff(g: Group, currency: string)
    requires g.components != []
    ensures Currencies(g) == {currency} <==> forall c :: c in g.components ==> c.currency == currency
    ensures |Currencies(g)| == 1 <==> exists one :: Currencies(g) == {one}
  {
    assert g.components[0] in g.components && g.components[0].currency in Currencies(g);
    if |Currencies(g)| == 1 {
      Singleton(Currencies(g), g.components[0].currency);
    }
    if Currencies(g) == {currency} {
      forall c | c in g.components
        ensures c.currency == currency
      {
        assert c.currency in Currencies(g);
      }
    }
    if forall c :: c in g.components ==> c.currency == currency {
      assert Currencies(g) == {currency};
    }
  }

  lemma InTimeIff(l: Ledger, g: Group, b: Bank)
    requires g.components != []
    ensures InTime(l, g, b)
       <==> Distance(l.bookedOn, SettledOn(g.components)) <= DATE_WINDOW_DAYS
            && Distance(SettledOn(g.components), b.postedOn) <= BANK_DATE_WINDOW_DAYS
  {
    SettledOnIsEarliest(g.components);
    var first :| first in g.components && first.settledOn == SettledOn(g.components);
  }

  lemma FitsIff(l: Ledger, g: Group, b: Bank)
    requires g.components != []
    ensures HardPairCompatible(l, g, b) <==> Fits(l, g, b)
  {
    hide StructureOk, Sound, SettledOn, InTime, Distance;
    StructureIff(g);
    OneCurrencyIff(g, l.currency);
    InTimeIff(l, g, b);
  }

  /** A failed check among the contradicting ones is a conflict. */
  lemma ConflictIff(l: Ledger, g: Group, b: Bank)
    requires g.components != []
    ensures (exists c :: c in HardChecks(l, g, b) && c.hard && !c.passed && Contradicts(c.name)) <==> Conflicts(l, g, b)
  {
    hide StructureOk, Sound, SettledOn, Distance, Reconstructed, Total;
    FirstSevenDecide(HardChecks(l, g, b));
    StructureIff(g);
    OneCurrencyIff(g, l.currency);
    ReconstructedIsNet(g);
  }

  /** In a list of nine hard checks the first seven of which contradict. */
  lemma FirstSevenDecide(r: seq<Check>)
    requires |r| == 9 && forall k :: 0 <= k < 9 ==> r[k].hard && (Contradicts(r[k].name) <==> k < 7)
    ensures (exists c :: c in r && c.hard && !c.passed && Contradicts(c.name))
       <==> !(r[0].passed && r[1].passed && r[2].passed && r[3].passed && r[4].passed && r[5].passed && r[6].passed)
  {
    hide Contradicts;
    if c :| c in r && c.hard && !c.passed && Contradicts(c.name) {
      var k :| 0 <= k < 9 && r[k] == c;
      assert k < 7;
    }
    if k :| 0 <= k < 7 && !r[k].passed {
      assert r[k] in r;
    }
  }

  lemma ReconstructedIsNet(g: Group)
    ensures Reconstructed(g.components) == Total(g.components, Credit) - Total(g.components, Debit)
  {
  }

  lemma LettersIff(n: Norms, reference: string)
    ensures NormalizeReference(n, reference) == LettersAndDigits(n, reference)
  {
    FilterAgrees(Alphanumeric, (c: char) => 'a' <= c <= 'z' || '0' <= c <= '9', n.text(reference));
  }

  lemma SameReferenceIff(n: Norms, a: string, b: string)
    ensures Strong(CompareReferences(n, a, b)) <==> SameReference(n, a, b)
    ensures SameReference(n, a, b) <==> SameReference(n, b, a)
    ensures BlankMismatch(n, a, b) <==> BlankPair(n, a, b)
  {
    hide LettersAndDigits, NormalizeReference;
    LettersIff(n, a);
    LettersIff(n, b);
  }

  /** The best edge is strong exactly when a reference is recognised. */
  lemma RecognisedIff(n: Norms, references: seq<string>, other: string, flipped: bool)
    requires GoodRatio(n)
    ensures Strong(Best(EdgesFrom(n, references, other, flipped))) <==> Recognised(n, references, other)
  {
    hide CompareReferences, BlankMismatch, BlankPair, SameReference, Best, GoodRatio, Strong;
    forall k | 0 <= k < |references|
      ensures Strong(Compare(n, references[k], other, flipped)) <==> SameReference(n, other, references[k])
      ensures BlankMismatch(n, other, references[k]) <==> BlankPair(n, other, references[k])
    {
      SameReferenceIff(n, other, references[k]);
      SameReferenceIff(n, references[k], other);
    }
    StrongEdgeIsOverlookedIff(n, references, other, flipped);
    if k: nat, m: nat :| Overlooks(n, references, other, flipped, k, m) {
      assert BlankPair(n, other, references[k]);
      assert forall j :: 0 <= j < k ==> !SameReference(n, other, references[j]);
      BlankIsNotSame(n, other, references[k]);
    } else if m: nat :| m < |references| && SameReference(n, other, references[m]) {
      var first := FirstSame(n, references, other, m);
      forall k | 0 <= k < first
        ensures !BlankPair(n, other, references[k])
      {
        assert !Overlooks(n, references, other, flipped, k, first);
      }
    }
  }

  lemma BlankIsNotSame(n: Norms, a: string, b: string)
    ensures !(BlankPair(n, a, b) && SameReference(n, a, b))
  {
  }

  predicate FirstSameAt(n: Norms, references: seq<string>, other: string, m: nat) {
    && m < |references| && SameReference(n, other, references[m])
    && forall j :: 0 <= j < m ==> !SameReference(n, other, references[j])
  }

  /** If a reference is the same, there is a first one; so either it is recognised or a blank one stands before it. */
  lemma {:induction false} FirstSame(n: Norms, references: seq<string>, other: string, m: nat) returns (first: nat)
    requires m < |references| && SameReference(n, other, references[m])
    ensures FirstSameAt(n, references, other, first)
    decreases m
  {
    hide SameReference;
    if j :| 0 <= j < m && SameReference(n, other, references[j]) {
      first := FirstSame(n, references, other, j);
    } else {
      first := m;
    }
  }

  lemma LinkedIff(n: Norms, l: Ledger, g: Group, b: Bank)
    requires GoodRatio(n)
    ensures StrongSourceLink(n, l, g, b) <==> Linked(n, l, g, b)
  {
    hide CompareReferences, SameReference, Best, GoodRatio, Strong, Recognised, References, Filter;
    var references := References(g.components);
    RecognisedIff(n, LinkReferences(g), l.reference, true);
    RecognisedIff(n, LinkReferences(g), b.reference, false);
    SameReferenceIff(n, l.reference, b.reference);
    NothingRecognised(n, l.reference);
    NothingRecognised(n, b.reference);
    CountOfThree(ReferenceEdges(n, l, g, b));
  }

  lemma NothingRecognised(n: Norms, other: string)
    ensures !Recognised(n, [], other) && !Recognised(n, [""], other)
  {
  }

  /** The first component with reference `u` stands before every one with reference `v`. */
  ghost predicate SeenBefore(components: seq<Component>, u: string, v: string) {
    exists p :: 0 <= p < |components| && components[p].reference == u && NotUpTo(components, p, v)
  }

  predicate NotUpTo(components: seq<Component>, p: nat, v: string)
    requires p < |components|
  {
    forall q :: 0 <= q <= p ==> components[q].reference != v
  }

  predicate Carries(components: seq<Component>, v: string) {
    exists c :: c in components && c.reference == v
  }

  lemma SeenBeforeStays(components: seq<Component>, n: nat, u: string, v: string)
    requires n <= |components| && SeenBefore(components[..n], u, v)
    ensures SeenBefore(components, u, v)
  {
    var p :| 0 <= p < n && components[..n][p].reference == u && NotUpTo(components[..n], p, v);
    forall q | 0 <= q <= p
      ensures components[q].reference != v
    {
      assert components[..n][q].reference != v;
    }
    assert NotUpTo(components, p, v);
  }

  lemma SeenBeforeTheNext(components: seq<Component>, n: nat, u: string, v: string)
    requires n <= |components| && Carries(components[..n], u) && !Carries(components[..n], v)
    ensures SeenBefore(components, u, v)
  {
    var c :| c in components[..n] && c.reference == u;
    var p :| 0 <= p < n && components[..n][p] == c;
    forall q | 0 <= q <= p
      ensures components[..n][q].reference != v
    {
      assert components[..n][q] in components[..n];
    }
    assert NotUpTo(components[..n], p, v);
    SeenBeforeStays(components, n, u, v);
  }

  lemma {:induction false} ReferencesMember(components: seq<Component>, v: string)
    ensures v in References(components) <==> v != "" && Carries(components, v)
  {
    if components != [] {
      var n := |components| - 1;
      assert components == components[..n] + [components[n]];
      ReferencesMember(components[..n], v);
      assert Carries(components, v) <==> Carries(components[..n], v) || components[n].reference == v;
    }
  }

  /** The references of a settlement: those of its components, without the empty one and without repetition, in the
      order in which they first occur. */
  lemma {:induction false} ReferencesAreFirstSeen(components: seq<Component>)
    ensures var r := References(components);
            && NoDuplicates(r)
            && (forall v :: v in r <==> v != "" && Carries(components, v))
            && forall i, j :: 0 <= i < j < |r| ==> SeenBefore(components, r[i], r[j])
  {
    hide SeenBefore, Carries;
    forall v
      ensures v in References(components) <==> v != "" && Carries(components, v)
    {
      ReferencesMember(components, v);
    }
    if components != [] {
      var n := |components| - 1;
      var before, r := References(components[..n]), References(components);
      ReferencesAreFirstSeen(components[..n]);
      forall i, j | 0 <= i < j < |r|
        ensures SeenBefore(components, r[i], r[j])
      {
        assert r[i] in before;
        if j < |before| {
          SeenBeforeStays(components, n, r[i], r[j]);
        } else {
          SeenBeforeTheNext(components, n, r[i], r[j]);
        }
      }
    }
  }

  // ------------------------------------------------------------ the only fitting pair

  ghost predicate OnlyFit(l: Ledger, t: Tables, g: Group, b: Bank) {
    forall h, d :: h in t.settlements && d in t.banks && Fits(l, h, d) ==> h == g && d == b
  }

  lemma {:induction false} BanksCounted(l: Ledger, g: Group, banks: seq<Bank>)
    requires g.components != []
    ensures CompatibleBanks(l, g, banks) == 0 <==> forall b :: b in banks ==> !HardPairCompatible(l, g, b)
    ensures NoDuplicates(banks)
            && (forall b, c :: b in banks && c in banks ==>
                  HardPairCompatible(l, g, b) && HardPairCompatible(l, g, c) ==> b == c)
            ==> CompatibleBanks(l, g, banks) <= 1
  {
    hide HardPairCompatible;
    if banks != [] {
      assert banks == [banks[0]] + banks[1..];
      BanksCounted(l, g, banks[1..]);
    }
  }

  lemma {:induction false} PairsCounted(l: Ledger, settlements: seq<Group>, banks: seq<Bank>)
    requires forall g :: g in settlements ==> g.components != []
    requires NoDuplicates(settlements) && NoDuplicates(banks)
    ensures FinancialPairCount(l, settlements, banks) == 0
       <==> forall g, b :: g in settlements && b in banks ==> !HardPairCompatible(l, g, b)
    ensures (forall g, b, h, c ::
               (g in settlements && b in banks && HardPairCompatible(l, g, b)
                && h in settlements && c in banks && HardPairCompatible(l, h, c)) ==> g == h && b == c)
            ==> FinancialPairCount(l, settlements, banks) <= 1
  {
    hide HardPairCompatible;
    if settlements != [] {
      var first, rest := settlements[0], settlements[1..];
      assert settlements == [first] + rest && first in settlements;
      PairsCounted(l, rest, banks);
      BanksCounted(l, first, banks);
    }
  }

  /** The nested sum over settlements and banks is one exactly when the pair that fits is the only one. */
  lemma OnlyFitIff(l: Ledger, t: Tables, g: Group, b: Bank)
    requires ValidTables(t) && g in t.settlements && b in t.banks && Fits(l, g, b)
    ensures FinancialPairCount(l, t.settlements, t.banks) == 1 <==> OnlyFit(l, t, g, b)
  {
    hide HardPairCompatible, Fits;
    forall h, d | h in t.settlements && d in t.banks
      ensures HardPairCompatible(l, h, d) <==> Fits(l, h, d)
    {
      FitsIff(l, h, d);
    }
    assert NoDuplicates(t.settlements) && NoDuplicates(t.banks);
    PairsCounted(l, t.settlements, t.banks);
    CountOneIsUnique(l, t.settlements, t.banks, g, b);
  }

  // ------------------------------------------------------------ the decision

  ghost predicate FitsAt(l: Ledger, t: Tables, id: Identity)
    requires ValidTables(t) && Known(t, id)
  {
    Fits(l, GroupAt(t.settlements, id.settlement).value, BankAt(t.banks, id.bank).value)
  }

  /** The pair fits, and its references link it or no other pair fits. */
  ghost predicate Proven(n: Norms, l: Ledger, t: Tables, id: Identity)
    requires ValidTables(t) && Known(t, id)
  {
    var g, b := GroupAt(t.settlements, id.settlement).value, BankAt(t.banks, id.bank).value;
    Fits(l, g, b) && (Linked(n, l, g, b) || OnlyFit(l, t, g, b))
  }

  /** The references link the pair, and its records conflict. */
  ghost predicate LinkedConflict(n: Norms, l: Ledger, t: Tables, id: Identity)
    requires ValidTables(t) && Known(t, id)
  {
    var g, b := GroupAt(t.settlements, id.settlement).value, BankAt(t.banks, id.bank).value;
    Linked(n, l, g, b) && Conflicts(l, g, b)
  }

  lemma JudgedByFacts(n: Norms, l: Ledger, id: Identity, t: Tables)
    requires GoodRatio(n) && ValidTables(t) && Known(t, id)
    ensures Sufficient(n, l, id, t) <==> Proven(n, l, t, id)
    ensures Judge(n, l, id, t).viable <==> FitsAt(l, t, id)
    ensures Contradicted(Judge(n, l, id, t)) <==> LinkedConflict(n, l, t, id)
  {
    hide HardPairCompatible, StrongSourceLink, FinancialPairCount, HardChecks, AllHardPass, Linked, Fits, Conflicts,
      OnlyFit, GoodRatio, Contradicts;
    var g, b := GroupAt(t.settlements, id.settlement).value, BankAt(t.banks, id.bank).value;
    var pairs := FinancialPairCount(l, t.settlements, t.banks);
    ChecksAreCompatibility(n, l, Candidate("", id.settlement, id.bank, ""), t, pairs);
    FitsIff(l, g, b);
    LinkedIff(n, l, g, b);
    if Fits(l, g, b) {
      OnlyFitIff(l, t, g, b);
    }
    ConflictIff(l, g, b);
    ExtraChecksAreSoft(n, l, g, b, pairs);
  }

  lemma ExtraChecksAreSoft(n: Norms, l: Ledger, g: Group, b: Bank, pairs: nat)
    requires g.components != []
    ensures var hard := HardChecks(l, g, b);
            var all := hard + [Check(ReferenceEvidence, StrongSourceLink(n, l, g, b), false),
                               Check(FinancialUniqueness, pairs == 1, false)];
            (exists c :: c in all && c.hard && !c.passed && Contradicts(c.name))
            <==> exists c :: c in hard && c.hard && !c.passed && Contradicts(c.name)
  {
    hide HardChecks, StrongSourceLink, Contradicts;
  }

  /** One of the proposed identities is proven, and no other. */
  ghost predicate OneIsProven(n: Norms, l: Ledger, candidates: seq<Candidate>, t: Tables)
    requires ValidTables(t) && AllKnown(t, candidates)
  {
    exists c :: c in candidates && Proven(n, l, t, IdentityOf(c))
                && forall o :: o in candidates && Proven(n, l, t, IdentityOf(o)) ==> IdentityOf(o) == IdentityOf(c)
  }

  ghost predicate NoneFitsButOneConflicts(n: Norms, l: Ledger, candidates: seq<Candidate>, t: Tables)
    requires ValidTables(t) && AllKnown(t, candidates)
  {
    && (forall c :: c in candidates ==> !FitsAt(l, t, IdentityOf(c)))
    && exists c :: c in candidates && LinkedConflict(n, l, t, IdentityOf(c))
  }

  lemma CandidatesJudged(n: Norms, l: Ledger, candidates: seq<Candidate>, t: Tables)
    requires GoodRatio(n) && ValidTables(t) && AllKnown(t, candidates)
    ensures forall c :: c in candidates ==>
              && (Sufficient(n, l, IdentityOf(c), t) <==> Proven(n, l, t, IdentityOf(c)))
              && (Judge(n, l, IdentityOf(c), t).viable <==> FitsAt(l, t, IdentityOf(c)))
              && (Contradicted(Judge(n, l, IdentityOf(c), t)) <==> LinkedConflict(n, l, t, IdentityOf(c)))
  {
    hide Sufficient, Judge, Proven, FitsAt, LinkedConflict, Contradicted, GoodRatio;
    forall c | c in candidates
      ensures Sufficient(n, l, IdentityOf(c), t) <==> Proven(n, l, t, IdentityOf(c))
      ensures Judge(n, l, IdentityOf(c), t).viable <==> FitsAt(l, t, IdentityOf(c))
      ensures Contradicted(Judge(n, l, IdentityOf(c), t)) <==> LinkedConflict(n, l, t, IdentityOf(c))
    {
      JudgedByFacts(n, l, IdentityOf(c), t);
    }
  }

  lemma VerifiedIff(n: Norms, l: Ledger, candidates: seq<Candidate>, t: Tables)
    requires GoodRatio(n) && ValidTables(t) && AllKnown(t, candidates)
    ensures var d := VerifyCase(n, l, candidates, t);
            && (d.Verified? <==> OneIsProven(n, l, candidates, t))
            && (d.Verified? ==> LastOf(candidates, d.candidate) && Known(t, IdentityOf(d.candidate))
                                && Proven(n, l, t, IdentityOf(d.candidate)))
  {
    hide VerifyCase, Sufficient, Judge, Proven, GoodRatio, IsException, Contradicted, FitsAt, LinkedConflict;
    DecisionByIdentities(n, l, candidates, t);
    CandidatesJudged(n, l, candidates, t);
    OneProven(n, l, candidates, t);
    var d := VerifyCase(n, l, candidates, t);
    if d.Verified? {
      SelectedIsLast(n, l, candidates, t);
      assert IdentityOf(d.candidate) in SufficientIn(n, l, Identities(candidates), t);
      var c :| c in candidates && IdentityOf(c) == IdentityOf(d.candidate);
    }
  }

  lemma ExceptionIff(n: Norms, l: Ledger, candidates: seq<Candidate>, t: Tables)
    requires GoodRatio(n) && ValidTables(t) && AllKnown(t, candidates)
    ensures VerifyCase(n, l, candidates, t).Exception? <==> NoneFitsButOneConflicts(n, l, candidates, t)
  {
    hide VerifyCase, Judge, GoodRatio, Contradicted, FitsAt, LinkedConflict, Sufficient, SufficientIn;
    DecisionByIdentities(n, l, candidates, t);
    CandidatesJudged(n, l, candidates, t);
    var ids := Identities(candidates);
    NothingSufficient(n, l, candidates, t);
    if IsException(n, l, ids, t) {
      var id :| id in ids && Contradicted(Judge(n, l, id, t));
      var c :| c in candidates && IdentityOf(c) == id;
      forall o | o in candidates
        ensures !FitsAt(l, t, IdentityOf(o))
      {
        assert IdentityOf(o) in ids;
      }
    }
    if NoneFitsButOneConflicts(n, l, candidates, t) {
      var c :| c in candidates && LinkedConflict(n, l, t, IdentityOf(c));
      assert IdentityOf(c) in ids;
      forall id | id in ids
        ensures !Judge(n, l, id, t).viable
      {
        var o :| o in candidates && IdentityOf(o) == id;
      }
    }
  }

  lemma NothingSufficient(n: Norms, l: Ledger, candidates: seq<Candidate>, t: Tables)
    requires ValidTables(t) && AllKnown(t, candidates)
    requires forall id :: id in Identities(candidates) ==> Known(t, id)
    ensures (forall id :: id in Identities(candidates) ==> !Judge(n, l, id, t).viable) ==>
              SufficientIn(n, l, Identities(candidates), t) == {}
  {
    hide HardChecks, StrongSourceLink, AllHardPass, FinancialPairCount;
  }

  /** The decision on any candidates: verified exactly when one proposed identity is proven, with the last candidate
      that proposes it; an exception exactly when no proposed pair fits and some proposed pair is linked although
      its records conflict; and otherwise open. */
  lemma DecisionIff(n: Norms, l: Ledger, candidates: seq<Candidate>, t: Tables)
    requires GoodRatio(n) && ValidTables(t) && AllKnown(t, candidates)
    ensures var d := VerifyCase(n, l, candidates, t);
            && (d.Verified? <==> OneIsProven(n, l, candidates, t))
            && (d.Verified? ==> LastOf(candidates, d.candidate) && Known(t, IdentityOf(d.candidate))
                                && Proven(n, l, t, IdentityOf(d.candidate)))
            && (d.Exception? <==> NoneFitsButOneConflicts(n, l, candidates, t))
            && (d.Review? <==> !OneIsProven(n, l, candidates, t) && !NoneFitsButOneConflicts(n, l, candidates, t))
  {
    hide VerifyCase, OneIsProven, NoneFitsButOneConflicts, Proven, LastOf;
    VerifiedIff(n, l, candidates, t);
    ExceptionIff(n, l, candidates, t);
  }

  /** The last candidate that proposes the identity. */
  ghost predicate LastOf(candidates: seq<Candidate>, c: Candidate) {
    exists k :: 0 <= k < |candidates| && candidates[k] == c
                && forall j :: k < j < |candidates| ==> IdentityOf(candidates[j]) != IdentityOf(c)
  }

  lemma OneProven(n: Norms, l: Ledger, candidates: seq<Candidate>, t: Tables)
    requires ValidTables(t) && AllKnown(t, candidates)
    requires forall id :: id in Identities(candidates) ==> Known(t, id)
    ensures |SufficientIn(n, l, Identities(candidates), t)| == 1
       <==> exists c :: c in candidates && Sufficient(n, l, IdentityOf(c), t)
                        && forall o :: o in candidates && Sufficient(n, l, IdentityOf(o), t) ==>
                             IdentityOf(o) == IdentityOf(c)
  {
    hide Sufficient, SufficientIn, IdentityOf;
    var s := SufficientIn(n, l, Identities(candidates), t);
    if |s| == 1 {
      var id :| id in s;
      Singleton(s, id);
      var c := ProposerOf(n, l, candidates, t, id);
      forall o | o in candidates && Sufficient(n, l, IdentityOf(o), t)
        ensures IdentityOf(o) == IdentityOf(c)
      {
        ProposedIsListed(n, l, candidates, t, o);
      }
    }
    if c :| c in candidates && Sufficient(n, l, IdentityOf(c), t)
            && forall o :: o in candidates && Sufficient(n, l, IdentityOf(o), t) ==> IdentityOf(o) == IdentityOf(c) {
      ProposedIsListed(n, l, candidates, t, c);
      forall id | id in s
        ensures id == IdentityOf(c)
      {
        var o := ProposerOf(n, l, candidates, t, id);
      }
      assert s == {IdentityOf(c)};
    }
  }

  lemma ProposerOf(n: Norms, l: Ledger, candidates: seq<Candidate>, t: Tables, id: Identity) returns (c: Candidate)
    requires ValidTables(t) && AllKnown(t, candidates)
    requires forall id :: id in Identities(candidates) ==> Known(t, id)
    requires id in SufficientIn(n, l, Identities(candidates), t)
    ensures c in candidates && IdentityOf(c) == id && Sufficient(n, l, IdentityOf(c), t)
  {
    hide Sufficient;
    c :| c in candidates && IdentityOf(c) == id;
  }

  lemma ProposedIsListed(n: Norms, l: Ledger, candidates: seq<Candidate>, t: Tables, c: Candidate)
    requires ValidTables(t) && AllKnown(t, candidates)
    requires forall id :: id in Identities(candidates) ==> Known(t, id)
    requires c in candidates && Sufficient(n, l, IdentityOf(c), t)
    ensures IdentityOf(c) in SufficientIn(n, l, Identities(candidates), t)
  {
    hide Sufficient;
  }

  lemma {:induction false} LastSufficientIsLast(evidence: seq<Evidence>) returns (k: nat)
    requires LastSufficient(evidence).Some?
    ensures k < |evidence| && evidence[k].sufficient && evidence[k].candidate == LastSufficient(evidence).value
    ensures forall j :: k < j < |evidence| ==> !evidence[j].sufficient
  {
    var n := |evidence| - 1;
    if evidence[n].sufficient {
      k := n;
    } else {
      k := LastSufficientIsLast(evidence[..n]);
      assert forall j :: k < j < n ==> evidence[j] == evidence[..n][j];
    }
  }

  lemma SelectedIsLast(n: Norms, l: Ledger, candidates: seq<Candidate>, t: Tables)
    requires ValidTables(t) && AllKnown(t, candidates) && VerifyCase(n, l, candidates, t).Verified?
    ensures LastOf(candidates, VerifyCase(n, l, candidates, t).candidate)
  {
    hide EvaluateCandidate, FinancialPairCount, LastSufficient;
    var evidence, d := Evaluations(n, l, candidates, t), VerifyCase(n, l, candidates, t);
    var k := LastSufficientIsLast(evidence);
    assert candidates[k] == d.candidate;
    forall j | k < j < |candidates|
      ensures IdentityOf(candidates[j]) != IdentityOf(d.candidate)
    {
      if IdentityOf(candidates[j]) == IdentityOf(d.candidate) {
        SameEvidence(n, l, candidates[j], candidates[k], t);
      }
    }
  }

  lemma SameEvidence(n: Norms, l: Ledger, c: Candidate, d: Candidate, t: Tables)
    requires ValidTables(t) && Known(t, IdentityOf(c)) && IdentityOf(c) == IdentityOf(d)
    ensures var pairs := FinancialPairCount(l, t.settlements, t.banks);
            EvaluateCandidate(n, l, c, t, pairs).sufficient == EvaluateCandidate(n, l, d, t, pairs).sufficient
  {
    hide StrongSourceLink, HardChecks, AllHardPass, FinancialPairCount;
  }
}
