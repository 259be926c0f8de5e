/** Settlement components grouped by settlement, and the money the groups account for. Amounts are whole
    cents and dates are day numbers. */
module SettlementGrouping {
  import opened Foundations

  datatype ComponentType = Credit | Debit

  datatype Component = Component(id: string, settlement: string, settledOn: int, kind: ComponentType, amount: int,
                                 currency: string, reference: string)

  datatype Group = Group(id: string, components: seq<Component>)

  function Total(components: seq<Component>, kind: ComponentType): int {
    if components == [] then 0
    else (if components[0].kind == kind then components[0].amount else 0) + Total(components[1..], kind)
  }

  /** Credits less debits. */
  function Reconstructed(components: seq<Component>): int {
    Total(components, Credit) - Total(components, Debit)
  }

  function Currencies(g: Group): set<string> {
    set c | c in g.components :: c.currency
  }

  function SettledOn(components: seq<Component>): int
    requires components != []
  {
    if |components| == 1 then components[0].settledOn
    else
      var rest := SettledOn(components[1..]);
      if components[0].settledOn <= rest then components[0].settledOn else rest
  }

  /** The settlement date is the earliest of the components' dates. */
  lemma {:induction false} SettledOnIsEarliest(components: seq<Component>)
    requires components != []
    ensures exists c :: c in components && c.settledOn == SettledOn(components)
    ensures forall c :: c in components ==> SettledOn(components) <= c.settledOn
  {
    assert components == [components[0]] + components[1..];
    assert components[0] in components;
    if |components| > 1 {
      SettledOnIsEarliest(components[1..]);
      var c :| c in components[1..] && c.settledOn == SettledOn(components[1..]);
      assert c in components;
    }
  }

  // ------------------------------------------------------------ grouping

  /** The settlement identities in the order in which they first occur. */
  function FirstSeen(components: seq<Component>): (r: seq<string>)
    ensures NoDuplicates(r) && forall id :: id in r <==> exists c :: c in components && c.settlement == id
  {
    if components == [] then []
    else
      var n := |components| - 1;
      assert components == components[..n] + [components[n]];
      var before := FirstSeen(components[..n]);
      if components[n].settlement in before then before else before + [components[n].settlement]
  }

  function Of(id: string, components: seq<Component>): seq<Component> {
    Filter((c: Component) => c.settlement == id, components)
  }

  function Grouped(components: seq<Component>): seq<Group> {
    var ids := FirstSeen(components);
    seq(|ids|, k requires 0 <= k < |ids| => Group(ids[k], Of(ids[k], components)))
  }

  lemma OfAppend(id: string, components: seq<Component>, c: Component)
    ensures Of(id, components + [c]) == Of(id, components) + (if c.settlement == id then [c] else [])
  {
    FilterAppend((d: Component) => d.settlement == id, components, [c]);
  }

  lemma NothingSeen()
    ensures FirstSeen([]) == []
  {
  }

  lemma GroupingOneMore(components: seq<Component>, c: Component)
    ensures forall id :: Of(id, components + [c]) == Of(id, components) + (if c.settlement == id then [c] else [])
    ensures FirstSeen(components + [c])
         == FirstSeen(components) + (if c.settlement in FirstSeen(components) then [] else [c.settlement])
  {
    assert (components + [c])[..|components|] == components;
    forall id
      ensures Of(id, components + [c]) == Of(id, components) + (if c.settlement == id then [c] else [])
    {
      OfAppend(id, components, c);
    }
  }

  /** A group exists exactly for the settlements that have components. */
  lemma OfIsEmptyIff(id: string, components: seq<Component>)
    ensures Of(id, components) == [] <==> id !in FirstSeen(components)
  {
    FilterEmptyIff((c: Component) => c.settlement == id, components);
  }

  method GroupSettlements(components: seq<Component>) returns (groups: seq<Group>)
    ensures groups == Grouped(components)
  {
    hide Of, FirstSeen;
    var ids: seq<string> := [];
    var rows: map<string, seq<Component>> := map[];
    NothingSeen();
    for k := 0 to |components|
      invariant ids == FirstSeen(components[..k])
      invariant forall id :: id in rows <==> id in ids
      invariant forall id :: id in ids ==> rows[id] == Of(id, components[..k])
    {
      var c := components[k];
      assert components[..k + 1] == components[..k] + [c];
      GroupingOneMore(components[..k], c);
      if c.settlement !in rows {
        OfIsEmptyIff(c.settlement, components[..k]);
        ids := ids + [c.settlement];
        rows := rows[c.settlement := []];
      }
      rows := rows[c.settlement := rows[c.settlement] + [c]];
    }
    assert components[..|components|] == components;
    groups := seq(|ids|, k requires 0 <= k < |ids| => Group(ids[k], rows[ids[k]]));
  }

  // ------------------------------------------------------------ partition and conservation

  function Concatenated(components: seq<Component>, ids: seq<string>): seq<Component> {
    if ids == [] then [] else Concatenated(components, ids[..|ids| - 1]) + Of(ids[|ids| - 1], components)
  }

  lemma {:induction false} ConcatenatedCount(components: seq<Component>, ids: seq<string>, c: Component)
    requires NoDuplicates(ids)
    ensures multiset(Concatenated(components, ids))[c]
         == if c.settlement in ids then multiset(components)[c] else 0
  {
    if ids != [] {
      var n := |ids| - 1;
      ConcatenatedCount(components, ids[..n], c);
      OfCount(ids[n], components, c);
      assert ids == ids[..n] + [ids[n]];
    }
  }

  lemma {:induction false} OfCount(id: string, components: seq<Component>, c: Component)
    ensures multiset(Of(id, components))[c] == if c.settlement == id then multiset(components)[c] else 0
  {
    if components != [] {
      assert components == [components[0]] + components[1..];
      OfCount(id, components[1..], c);
    }
  }

  /** The groups are nonempty, hold their own components in the original order, and together hold every
      component exactly as often as it was given. */
  lemma GroupsPartition(components: seq<Component>)
    ensures forall g :: g in Grouped(components) ==> g.components != [] && g.components == Of(g.id, components)
    ensures forall i, j :: 0 <= i < j < |Grouped(components)| ==> Grouped(components)[i].id != Grouped(components)[j].id
    ensures multiset(Concatenated(components, FirstSeen(components))) == multiset(components)
  {
    forall g | g in Grouped(components)
      ensures g.components != [] && g.components == Of(g.id, components)
    {
      OfIsEmptyIff(g.id, components);
    }
    forall c
      ensures multiset(Concatenated(components, FirstSeen(components)))[c] == multiset(components)[c]
    {
      ConcatenatedCount(components, FirstSeen(components), c);
      assert c in multiset(components) <==> c in components;
    }
  }

  function GroupSum(groups: seq<Group>): int {
    if groups == [] then 0 else GroupSum(groups[..|groups| - 1]) + Reconstructed(groups[|groups| - 1].components)
  }

  lemma {:induction false} TotalAppend(a: seq<Component>, b: seq<Component>, kind: ComponentType)
    ensures Total(a + b, kind) == Total(a, kind) + Total(b, kind)
  {
    if a == [] {
      assert a + b == b;
    } else {
      assert (a + b)[1..] == a[1..] + b;
      TotalAppend(a[1..], b, kind);
    }
  }

  function Without(b: seq<Component>, k: nat): seq<Component>
    requires k < |b|
  {
    b[..k] + b[k + 1..]
  }

  lemma TotalWithout(b: seq<Component>, k: nat, kind: ComponentType)
    requires k < |b|
    ensures Total(b, kind) == Total([b[k]], kind) + Total(Without(b, k), kind)
    ensures multiset(b) == multiset{b[k]} + multiset(Without(b, k))
  {
    assert b == b[..k] + ([b[k]] + b[k + 1..]);
    TotalAppend(b[..k], [b[k]] + b[k + 1..], kind);
    TotalAppend([b[k]], b[k + 1..], kind);
    TotalAppend(b[..k], b[k + 1..], kind);
  }

  lemma Cancel(x: Component, a: multiset<Component>, b: multiset<Component>)
    requires multiset{x} + a == multiset{x} + b
    ensures a == b
  {
    assert a == multiset{x} + a - multiset{x};
    assert b == multiset{x} + b - multiset{x};
  }

  lemma {:induction false} TotalOfPermutation(a: seq<Component>, b: seq<Component>, kind: ComponentType)
    requires multiset(a) == multiset(b)
    ensures Total(a, kind) == Total(b, kind)
    decreases |a|
  {
    hide Without;
    PermutationMembers(a, b);
    if a != [] {
      assert a[0] in b;
      var k :| 0 <= k < |b| && b[k] == a[0];
      TotalWithout(a, 0, kind);
      TotalWithout(b, k, kind);
      assert |multiset(Without(a, 0))| < |multiset(a)|;
      Cancel(a[0], multiset(Without(a, 0)), multiset(Without(b, k)));
      TotalOfPermutation(Without(a, 0), Without(b, k), kind);
    }
  }

  lemma {:induction false} GroupSumIsConcatenated(components: seq<Component>, ids: seq<string>, groups: seq<Group>)
    requires |groups| == |ids| && forall k :: 0 <= k < |ids| ==> groups[k] == Group(ids[k], Of(ids[k], components))
    ensures GroupSum(groups) == Reconstructed(Concatenated(components, ids))
  {
    if ids != [] {
      var n := |ids| - 1;
      GroupSumIsConcatenated(components, ids[..n], groups[..n]);
      TotalAppend(Concatenated(components, ids[..n]), Of(ids[n], components), Credit);
      TotalAppend(Concatenated(components, ids[..n]), Of(ids[n], components), Debit);
    }
  }

  /** No money is lost or invented: the reconstructed amounts add up to all credits less all debits. */
  lemma GroupingConservesMoney(components: seq<Component>)
    ensures GroupSum(Grouped(components)) == Total(components, Credit) - Total(components, Debit)
  {
    var all := Concatenated(components, FirstSeen(components));
    GroupsPartition(components);
    GroupSumIsConcatenated(components, FirstSeen(components), Grouped(components));
    TotalOfPermutation(all, components, Credit);
    TotalOfPermutation(all, components, Debit);
  }
}
