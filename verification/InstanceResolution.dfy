/** Following framework instances (applications and routers) through names and imports. The resolver
    guards against cycles inside a module by `seen`, and forgets the guard when it jumps to another
    module, so cyclic re-exports make it recurse for ever. `Resolve` is that recursion with a bound on
    its depth; `Watch` is the same recursion with a record of the jumps it is inside, which always ends
    and tells exactly when the unguarded recursion does. */
module InstanceResolution {
  import opened Foundations
  import opened NameResolution
  import opened ImportedStrings

  // ------------------------------------------------------------ one call of the resolver

  /** A pending call. */
  datatype Query =
    | ByName(m: string, name: string, limit: Option<Position>, seen: set<string>)       // _active_local_instance
    | ByImport(qualified: string)                                                        // _active_imported_instance
    | ByReference(m: string, reference: string, position: Position, seen: set<string>)  // resolve_instance_reference

  /** What a call does: answer, become another call, or try one call and fall back to a second.
      A dotted reference whose head is itself an instance answers nothing. */
  datatype Move =
    | Answer(result: Option<Instance>)
    | Follow(next: Query)
    | FirstThen(first: Query, dotted: bool, second: Query)

  predicate Known(p: Program, q: Query) {
    match q
    case ByName(m, name, _, _) => m in p.modules && '.' !in name
    case ByImport(_) => true
    case ByReference(m, _, _, _) => m in p.modules
  }

  function Next(p: Program, q: Query): (move: Move)
    requires Known(p, q)
    ensures move.Follow? ==> Known(p, move.next)
    ensures move.FirstThen? ==> Known(p, move.first) && Known(p, move.second)
  {
    match q
    case ByName(m, name, limit, seen) =>
      if name in seen then Answer(None)
      else (
        match LatestBinding(p.modules[m].bindings, name, limit)
        case None =>
          var canonical := Canonicalize(p.modules[m].chain, name);
          if canonical != name then Follow(ByImport(canonical)) else Answer(None)
        case Some(b) =>
          if (m, name, b.position) in p.instances then Answer(Some(p.instances[(m, name, b.position)]))
          else if b.reference.None? then Answer(None)
          else Follow(ByReference(m, b.reference.value, b.position, seen + {name})))
    case ByImport(qualified) => (
      match Target(p, qualified)
      case None => Answer(None)
      case Some(e) => Follow(EntryQuery(e)))
    case ByReference(m, reference, position, seen) =>
      var parts := PartitionDot(reference);
      FirstThen(ByName(m, parts.head, Some(position), seen), parts.dotted,
                ByImport(Canonicalize(p.modules[m].chain, reference)))
  }

  /** The guard starts afresh in the other module. */
  function EntryQuery(e: Entry): Query {
    ByName(e.moduleName, e.name, None, {})
  }

  /** The recursion, to a given depth; None when the depth does not suffice. */
  function Resolve(p: Program, q: Query, depth: nat): Option<Option<Instance>>
    requires Known(p, q)
    decreases depth
  {
    if depth == 0 then None
    else
      match Next(p, q)
      case Answer(result) => Some(result)
      case Follow(next) => Resolve(p, next, depth - 1)
      case FirstThen(first, dotted, second) =>
        match Resolve(p, first, depth - 1)
        case None => None
        case Some(Some(i)) => Some(if dotted then None else Some(i))
        case Some(None) => Resolve(p, second, depth - 1)
  }

  // ------------------------------------------------------------ which instance is answered

  /** A plain name read in a module before a position, or when the module has run. */
  datatype Spot = Spot(m: string, name: string, limit: Option<Position>)

  function BindingAt(p: Program, s: Spot): Option<Binding> {
    if s.m in p.modules then LatestBinding(p.modules[s.m].bindings, s.name, s.limit) else None
  }

  /** The latest binding there is the construction of a collected instance. */
  function InstanceAt(p: Program, s: Spot): Option<Instance> {
    match BindingAt(p, s)
    case None => None
    case Some(b) =>
      if (s.m, s.name, b.position) in p.instances then Some(p.instances[(s.m, s.name, b.position)]) else None
  }

  predicate Imports(p: Program, canonical: string, t: Spot) {
    Target(p, canonical) == Some(Entry(t.m, t.name)) && t.limit.None?
  }

  /** A reference leads to the plain name it is, read where it stands, or into the module that its canonical
      form names. */
  predicate LeadsInto(p: Program, m: string, reference: string, position: Position, t: Spot)
    requires m in p.modules
  {
    || ('.' !in reference && t == Spot(m, reference, Some(position)))
    || Imports(p, Canonicalize(p.modules[m].chain, reference), t)
  }

  /** The latest binding constructs nothing: it is followed by its reference, and a name without one by what it
      imports. */
  predicate Hop(p: Program, s: Spot, t: Spot) {
    && s.m in p.modules && InstanceAt(p, s).None?
    && match BindingAt(p, s)
       case None => Canonicalize(p.modules[s.m].chain, s.name) != s.name
                    && Imports(p, Canonicalize(p.modules[s.m].chain, s.name), t)
       case Some(b) => b.reference.Some? && LeadsInto(p, s.m, b.reference.value, b.position, t)
  }

  predicate StartsAt(p: Program, q: Query, s: Spot)
    requires Known(p, q)
  {
    match q
    case ByName(m, name, limit, _) => s == Spot(m, name, limit)
    case ByImport(qualified) => Imports(p, qualified, s)
    case ByReference(m, reference, position, _) => LeadsInto(p, m, reference, position, s)
  }

  ghost predicate Trail(p: Program, q: Query, trail: seq<Spot>, i: Instance)
    requires Known(p, q)
  {
    && trail != [] && StartsAt(p, q, trail[0])
    && (forall k :: 0 <= k < |trail| - 1 ==> Hop(p, trail[k], trail[k + 1]))
    && InstanceAt(p, trail[|trail| - 1]) == Some(i)
  }

  /** An answer is the instance constructed at the latest binding that the reference leads to, hop by hop. */
  lemma {:induction false} AnswerIsAtTheTrailsEnd(p: Program, q: Query, depth: nat, i: Instance)
    requires Known(p, q) && Resolve(p, q, depth) == Some(Some(i))
    ensures exists trail :: Trail(p, q, trail, i)
    decreases depth
  {
    hide Target, Canonicalize, LatestBinding, PartitionDot, Trail;
    match Next(p, q)
    case Answer(_) =>
      TrailOfOne(p, q, i);
    case Follow(next) =>
      AnswerIsAtTheTrailsEnd(p, next, depth - 1, i);
      var trail :| Trail(p, next, trail, i);
      TrailOfFollow(p, q, trail, i);
    case FirstThen(first, _, second) =>
      PlainPartition(q.reference);
      var taken := if Resolve(p, first, depth - 1) == Some(None) then second else first;
      AnswerIsAtTheTrailsEnd(p, taken, depth - 1, i);
      var trail :| Trail(p, taken, trail, i);
      TrailOfPart(p, q, taken, trail, i);
  }

  lemma TrailOfOne(p: Program, q: Query, i: Instance)
    requires Known(p, q) && Next(p, q) == Answer(Some(i))
    ensures exists trail :: Trail(p, q, trail, i)
  {
    hide Target, Canonicalize, LatestBinding, PartitionDot;
    assert Trail(p, q, [Spot(q.m, q.name, q.limit)], i);
  }

  lemma TrailOfFollow(p: Program, q: Query, trail: seq<Spot>, i: Instance)
    requires Known(p, q) && Next(p, q).Follow? && Trail(p, Next(p, q).next, trail, i)
    ensures exists longer :: Trail(p, q, longer, i)
  {
    hide Target, Canonicalize, LatestBinding, PartitionDot;
    if q.ByImport? {
      assert Trail(p, q, trail, i);
    } else {
      var longer := [Spot(q.m, q.name, q.limit)] + trail;
      assert forall k :: 0 < k < |longer| ==> longer[k] == trail[k - 1];
      assert Hop(p, longer[0], longer[1]);
      assert Trail(p, q, longer, i);
    }
  }

  lemma TrailOfPart(p: Program, q: Query, taken: Query, trail: seq<Spot>, i: Instance)
    requires Known(p, q) && q.ByReference? && Known(p, taken) && Trail(p, taken, trail, i)
    requires taken == Next(p, q).second || (taken == Next(p, q).first && '.' !in q.reference)
    ensures Trail(p, q, trail, i)
  {
    hide Target, Canonicalize, LatestBinding;
    PlainPartition(q.reference);
  }

  /** A name of the module itself comes first: if it is an instance, a reference to it is that instance and an
      attribute of it is none; only if it is none is the canonical form looked up in other modules. */
  lemma ModuleNameComesFirst(p: Program, m: string, reference: string, position: Position, seen: set<string>, d: nat)
    requires m in p.modules
    ensures var head := PartitionDot(reference).head;
            var own := Resolve(p, ByName(m, head, Some(position), seen), d);
            var all := Resolve(p, ByReference(m, reference, position, seen), d + 1);
            && (own.Some? && own.value.Some? ==> all == Some(if '.' in reference then None else own.value))
            && (own == Some(None) ==> all == Resolve(p, ByImport(Canonicalize(p.modules[m].chain, reference)), d))
            && (own.None? ==> all.None?)
  {
  }

  /** A name that is not being resolved already is the instance at its latest binding, if there is one; without
      a reference to follow it is none, and a name that is being resolved is none. */
  lemma NameIsItsLatestBinding(p: Program, m: string, name: string, limit: Option<Position>, seen: set<string>, d: nat)
    requires m in p.modules && '.' !in name && d > 0
    ensures var s, r := Spot(m, name, limit), Resolve(p, ByName(m, name, limit, seen), d);
            && (name in seen ==> r == Some(None))
            && (name !in seen && InstanceAt(p, s).Some? ==> r == Some(InstanceAt(p, s)))
            && (name !in seen && InstanceAt(p, s).None? && BindingAt(p, s).Some? ==>
                  match BindingAt(p, s).value.reference
                  case None => r == Some(None)
                  case Some(other) =>
                    r == Resolve(p, ByReference(m, other, BindingAt(p, s).value.position, seen + {name}), d - 1))
            && (name !in seen && BindingAt(p, s).None? ==>
                  var canonical := Canonicalize(p.modules[m].chain, name);
                  r == if canonical == name then Some(None) else Resolve(p, ByImport(canonical), d - 1))
  {
  }

  /** A canonical name directly inside a known module is what that module holds when it has run; any other is
      no instance. */
  lemma ImportIsReadInItsModule(p: Program, canonical: string, d: nat)
    requires d > 0
    ensures var r, e := Resolve(p, ByImport(canonical), d), Target(p, canonical);
            r == if e.None? then Some(None) else Resolve(p, ByName(e.value.moduleName, e.value.name, None, {}), d - 1)
  {
  }

  // ------------------------------------------------------------ where the jumps can lead

  /** Everywhere the aliases and the binding references of one module can jump to. */
  function JumpsFrom(p: Program, m: string): set<Entry>
    requires m in p.modules
  {
    (set i, name | 0 <= i < |p.modules[m].chain| && name in p.modules[m].chain[i].aliases
                   && Target(p, p.modules[m].chain[i].aliases[name]).Some?
       :: Target(p, p.modules[m].chain[i].aliases[name]).value)
    + (set b | b in p.modules[m].bindings && b.reference.Some?
               && Target(p, Canonicalize(p.modules[m].chain, b.reference.value)).Some?
         :: Target(p, Canonicalize(p.modules[m].chain, b.reference.value)).value)
  }

  function JumpTargets(p: Program): set<Entry> {
    set m, e | m in p.modules && e in JumpsFrom(p, m) :: e
  }

  /** The entry the query's own jump leads to, if it has one. */
  function OwnJump(p: Program, q: Query): Option<Entry>
    requires Known(p, q)
  {
    match q
    case ByName(_, _, _, _) => None
    case ByImport(qualified) => Target(p, qualified)
    case ByReference(m, reference, _, _) => Target(p, Canonicalize(p.modules[m].chain, reference))
  }

  predicate Within(p: Program, q: Query, universe: set<Entry>) {
    Known(p, q) && JumpTargets(p) <= universe && (OwnJump(p, q).Some? ==> OwnJump(p, q).value in universe)
  }

  lemma AliasScope(chain: seq<Scope>, name: string) returns (i: nat)
    requires AliasOf(chain, name).Some?
    ensures i < |chain| && name in chain[i].aliases && AliasOf(chain, name) == Some(chain[i].aliases[name])
  {
    if name in chain[0].aliases {
      i := 0;
    } else {
      var rest := AliasScope(chain[1..], name);
      i := rest + 1;
    }
  }

  /** A call inside a module jumps only where that module's aliases and references lead. */
  lemma NameJumps(p: Program, q: Query)
    requires Known(p, q) && q.ByName? && Next(p, q).Follow?
    ensures var next := Next(p, q).next;
            && (OwnJump(p, next).Some? ==> OwnJump(p, next).value in JumpsFrom(p, q.m))
            && (next.ByReference? ==> next.m == q.m)
            && !next.ByName?
  {
    var chain := p.modules[q.m].chain;
    if LatestBinding(p.modules[q.m].bindings, q.name, q.limit).None? {
      assert PartitionDot(q.name) == Partition(q.name, false, "");
      var i := AliasScope(chain, q.name);
      assert chain[i].aliases[q.name] == Canonicalize(chain, q.name);
    }
  }

  // ------------------------------------------------------------ the watched recursion

  datatype Outcome = Cycle | Done(result: Option<Instance>)

  function OpenEnd(q: Query): nat { if q.ByName? && q.limit.None? then 1 else 0 }

  function LineOf(q: Query): nat {
    if q.ByReference? then q.position.line else if q.ByName? && q.limit.Some? then q.limit.value.line else 0
  }

  function ColumnOf(q: Query): nat {
    if q.ByReference? then q.position.column else if q.ByName? && q.limit.Some? then q.limit.value.column else 0
  }

  function Rung(q: Query): nat { if q.ByImport? then 0 else if q.ByName? then 1 else 2 }

  /** `inside` are the entries being resolved; meeting one of them again is a cycle. */
  function Watch(p: Program, q: Query, inside: set<Entry>, universe: set<Entry>): Outcome
    requires Within(p, q, universe)
    decreases |universe - inside|, OpenEnd(q), LineOf(q), ColumnOf(q), Rung(q)
  {
    match Next(p, q)
    case Answer(result) => Done(result)
    case Follow(next) =>
      if q.ByImport? then
        var e := OwnJump(p, q).value;
        if e in inside then Cycle
        else
          SmallerRoom(universe, inside, e);
          Watch(p, next, inside + {e}, universe)
      else
        NameJumps(p, q);
        Watch(p, next, inside, universe)
    case FirstThen(first, dotted, second) =>
      match Watch(p, first, inside, universe)
      case Cycle => Cycle
      case Done(Some(i)) => Done(if dotted then None else Some(i))
      case Done(None) => Watch(p, second, inside, universe)
  }

  lemma SmallerRoom(universe: set<Entry>, inside: set<Entry>, e: Entry)
    requires e in universe && e !in inside
    ensures |universe - (inside + {e})| < |universe - inside|
  {
    assert universe - inside == (universe - (inside + {e})) + {e};
  }

  // ------------------------------------------------------------ answers

  /** Every answer is a collected instance. */
  lemma {:induction false} AnswerIsCollected(p: Program, q: Query, depth: nat)
    requires Known(p, q)
    ensures Resolve(p, q, depth).Some? && Resolve(p, q, depth).value.Some?
            ==> Resolve(p, q, depth).value.value in p.instances.Values
    decreases depth
  {
    hide Target, Canonicalize, LatestBinding, PartitionDot;
    if depth > 0 {
      match Next(p, q)
      case Answer(_) =>
      case Follow(next) => AnswerIsCollected(p, next, depth - 1);
      case FirstThen(first, _, second) =>
        AnswerIsCollected(p, first, depth - 1);
        AnswerIsCollected(p, second, depth - 1);
    }
  }

  /** More depth does not change an answer. */
  lemma {:induction false} Deeper(p: Program, q: Query, d: nat, deeper: nat)
    requires Known(p, q) && d <= deeper && Resolve(p, q, d).Some?
    ensures Resolve(p, q, deeper) == Resolve(p, q, d)
    decreases d
  {
    hide Next;
    match Next(p, q)
    case Answer(_) =>
    case Follow(next) => Deeper(p, next, d - 1, deeper - 1);
    case FirstThen(first, _, second) =>
      Deeper(p, first, d - 1, deeper - 1);
      if Resolve(p, first, d - 1) == Some(None) {
        Deeper(p, second, d - 1, deeper - 1);
      }
  }

  /** No repeated jump: some depth suffices and gives the watched answer. */
  lemma {:induction false} DoneResolves(p: Program, q: Query, inside: set<Entry>, universe: set<Entry>) returns (d: nat)
    requires Within(p, q, universe) && Watch(p, q, inside, universe).Done?
    ensures Resolve(p, q, d) == Some(Watch(p, q, inside, universe).result)
    decreases |universe - inside|, OpenEnd(q), LineOf(q), ColumnOf(q), Rung(q)
  {
    hide Target, Canonicalize, LatestBinding, PartitionDot, Resolve, JumpsFrom;
    match Next(p, q)
    case Answer(_) =>
      d := 1;
      StepResolves(p, q, 0, 0);
    case Follow(next) =>
      var d';
      if q.ByImport? {
        var e := OwnJump(p, q).value;
        SmallerRoom(universe, inside, e);
        d' := DoneResolves(p, next, inside + {e}, universe);
      } else {
        NameJumps(p, q);
        d' := DoneResolves(p, next, inside, universe);
      }
      d := d' + 1;
      StepResolves(p, q, d', 0);
    case FirstThen(first, _, second) =>
      var d1 := DoneResolves(p, first, inside, universe);
      var d2 := 0;
      if Watch(p, first, inside, universe) == Done(None) {
        d2 := DoneResolves(p, second, inside, universe);
      }
      d := d1 + d2 + 1;
      StepResolves(p, q, d1, d2);
  }

  /** A call ends one level above the calls it makes. */
  lemma StepResolves(p: Program, q: Query, d1: nat, d2: nat)
    requires Known(p, q)
    ensures var move, r := Next(p, q), Resolve(p, q, d1 + d2 + 1);
            && (move.Answer? ==> r == Some(move.result))
            && (move.Follow? && d2 == 0 ==> r == Resolve(p, move.next, d1))
            && (move.FirstThen? && Resolve(p, move.first, d1).Some? ==>
                  && (Resolve(p, move.first, d1).value.Some? ==>
                        r == Some(if move.dotted then None else Resolve(p, move.first, d1).value))
                  && (Resolve(p, move.first, d1).value.None? && Resolve(p, move.second, d2).Some? ==>
                        r == Resolve(p, move.second, d2)))
  {
    hide Next;
    var move := Next(p, q);
    if move.FirstThen? && Resolve(p, move.first, d1).Some? {
      Deeper(p, move.first, d1, d1 + d2);
      if Resolve(p, move.second, d2).Some? {
        Deeper(p, move.second, d2, d1 + d2);
      }
    }
  }

  /** If the watched recursion meets a repeated jump and the plain one ends all the same, then the plain
      one ends from one of the entries it is inside, at a smaller depth. */
  lemma {:induction false} CycleResolvesInside(p: Program, q: Query, inside: set<Entry>, universe: set<Entry>, d: nat)
    returns (e: Entry, k: nat)
    requires Within(p, q, universe) && Watch(p, q, inside, universe) == Cycle && Resolve(p, q, d).Some?
    ensures e in inside && k < d && Known(p, EntryQuery(e)) && Resolve(p, EntryQuery(e), k).Some?
    decreases d
  {
    hide Target, Canonicalize, LatestBinding, PartitionDot;
    match Next(p, q)
    case Follow(next) =>
      if q.ByImport? {
        var target := OwnJump(p, q).value;
        e, k := target, d - 1;
        while e !in inside
          invariant (e == target || e in inside) && k < d
          invariant Known(p, EntryQuery(e)) && Resolve(p, EntryQuery(e), k).Some?
          decreases k
        {
          e, k := CycleResolvesInside(p, EntryQuery(target), inside + {target}, universe, k);
        }
      } else {
        NameJumps(p, q);
        e, k := CycleResolvesInside(p, next, inside, universe, d - 1);
      }
    case FirstThen(first, _, second) =>
      if Watch(p, first, inside, universe) == Cycle {
        e, k := CycleResolvesInside(p, first, inside, universe, d - 1);
      } else {
        var d' := DoneResolves(p, first, inside, universe);
        Deeper(p, first, d', d + d');
        Deeper(p, first, d - 1, d + d');
        e, k := CycleResolvesInside(p, second, inside, universe, d - 1);
      }
  }

  /** All the jumps that resolving this query can make. */
  function Universe(p: Program, q: Query): set<Entry>
    requires Known(p, q)
  {
    JumpTargets(p) + (if OwnJump(p, q).Some? then {OwnJump(p, q).value} else {})
  }

  function Watched(p: Program, q: Query): Outcome
    requires Known(p, q)
  {
    Watch(p, q, {}, Universe(p, q))
  }

  /** The resolver's recursion ends if and only if it never jumps to an entry it is still inside, and
      then every depth that suffices gives the watched answer. The right-hand side is the recursion run with
      a guard; the condition a caller can check beforehand is the rank of `RankedResolutionEnds`. */
  lemma ResolutionEndsIffNoRepeatedJump(p: Program, q: Query)
    requires Known(p, q)
    ensures (exists d: nat :: Resolve(p, q, d).Some?) <==> Watched(p, q).Done?
    ensures forall d: nat :: Resolve(p, q, d).Some? ==> Resolve(p, q, d) == Some(Watched(p, q).result)
  {
    hide Resolve, Watch, Next, Target, JumpTargets;
    if Watched(p, q).Done? {
      var d := DoneResolves(p, q, {}, Universe(p, q));
      forall d': nat | Resolve(p, q, d').Some?
        ensures Resolve(p, q, d') == Some(Watched(p, q).result)
      {
        Deeper(p, q, d, d + d');
        Deeper(p, q, d', d + d');
      }
    } else {
      forall d: nat | Resolve(p, q, d).Some?
        ensures false
      {
        var e, k := CycleResolvesInside(p, q, {}, Universe(p, q), d);
      }
    }
  }

  // ------------------------------------------------------------ ranked modules

  /** Every cross-module jump goes to a module of smaller rank. */
  ghost predicate Ranked(p: Program, rank: string -> nat) {
    forall m, e :: m in p.modules && e in JumpsFrom(p, m) ==> rank(e.moduleName) < rank(m)
  }

  /** The entries the query is inside outrank whatever it can still jump to. */
  ghost predicate Outranked(p: Program, q: Query, inside: set<Entry>, rank: string -> nat)
    requires Known(p, q)
  {
    forall e :: e in inside ==>
      && (!q.ByImport? ==> rank(q.m) <= rank(e.moduleName))
      && (OwnJump(p, q).Some? ==> rank(OwnJump(p, q).value.moduleName) < rank(e.moduleName))
  }

  lemma {:induction false} RankedIsDone(p: Program, q: Query, inside: set<Entry>, universe: set<Entry>,
                                        rank: string -> nat)
    requires Within(p, q, universe) && Ranked(p, rank) && Outranked(p, q, inside, rank)
    ensures Watch(p, q, inside, universe).Done?
    decreases |universe - inside|, OpenEnd(q), LineOf(q), ColumnOf(q), Rung(q)
  {
    hide Ranked, Outranked, JumpsFrom, Target;
    match Next(p, q)
    case Answer(_) =>
    case Follow(next) =>
      if q.ByImport? {
        var e := OwnJump(p, q).value;
        ImportIsNew(p, q, inside, rank);
        SmallerRoom(universe, inside, e);
        RankedIsDone(p, next, inside + {e}, universe, rank);
      } else {
        NameJumps(p, q);
        SameModuleIsOutranked(p, q, next, inside, rank);
        RankedIsDone(p, next, inside, universe, rank);
      }
    case FirstThen(first, _, second) =>
      ReferencePartsAreOutranked(p, q, inside, rank);
      RankedIsDone(p, first, inside, universe, rank);
      RankedIsDone(p, second, inside, universe, rank);
  }

  lemma ImportIsNew(p: Program, q: Query, inside: set<Entry>, rank: string -> nat)
    requires Known(p, q) && Outranked(p, q, inside, rank) && q.ByImport? && Next(p, q).Follow?
    ensures OwnJump(p, q).Some? && OwnJump(p, q).value !in inside
    ensures Outranked(p, Next(p, q).next, inside + {OwnJump(p, q).value}, rank)
  {
  }

  lemma SameModuleIsOutranked(p: Program, q: Query, next: Query, inside: set<Entry>, rank: string -> nat)
    requires Known(p, q) && Known(p, next) && Ranked(p, rank) && Outranked(p, q, inside, rank) && q.ByName?
    requires OwnJump(p, next).Some? ==> OwnJump(p, next).value in JumpsFrom(p, q.m)
    requires next.ByReference? ==> next.m == q.m
    requires !next.ByName?
    ensures Outranked(p, next, inside, rank)
  {
    hide JumpsFrom, Target;
  }

  lemma ReferencePartsAreOutranked(p: Program, q: Query, inside: set<Entry>, rank: string -> nat)
    requires Known(p, q) && Outranked(p, q, inside, rank) && q.ByReference?
    ensures Outranked(p, Next(p, q).first, inside, rank) && Outranked(p, Next(p, q).second, inside, rank)
  {
    hide Target;
  }

  /** If cross-module jumps are ranked, every resolution ends. */
  lemma RankedResolutionEnds(p: Program, q: Query, rank: string -> nat)
    requires Known(p, q) && Ranked(p, rank)
    ensures exists d: nat :: Resolve(p, q, d).Some?
  {
    RankedIsDone(p, q, {}, Universe(p, q), rank);
    ResolutionEndsIffNoRepeatedJump(p, q);
  }

  // ------------------------------------------------------------ the rank is needed

  /** `from b import x` in a and `from a import x` in b. */
  function MutualReexport(): Program {
    Program(map["a" := Module([], [Scope(map["x" := "b.x"], {})]), "b" := Module([], [Scope(map["x" := "a.x"], {})])],
            map[])
  }

  lemma MutualTarget(owner: string)
    requires owner == "a" || owner == "b"
    ensures Target(MutualReexport(), owner + ".x") == Some(Entry(owner, "x"))
  {
    hide Owned;
    var q := owner + ".x";
    assert q[..1] == owner && q[2..] == "x";
    OwnedByLetter(MutualReexport(), q);
  }

  lemma MutualMoves(owner: string)
    requires owner == "a" || owner == "b"
    ensures var p, other := MutualReexport(), if owner == "a" then "b" else "a";
            && Known(p, EntryQuery(Entry(owner, "x")))
            && Next(p, EntryQuery(Entry(owner, "x"))) == Follow(ByImport(other + ".x"))
            && Next(p, ByImport(other + ".x")) == Follow(EntryQuery(Entry(other, "x")))
  {
    var p, other := MutualReexport(), if owner == "a" then "b" else "a";
    MutualTarget(other);
    assert PartitionDot("x") == Partition("x", false, "");
    assert p.modules[owner].chain[0].aliases["x"] == other + ".x";
  }

  /** No depth suffices. */
  lemma {:induction false} MutualReexportNeverEnds(owner: string, d: nat)
    requires owner == "a" || owner == "b"
    ensures Known(MutualReexport(), EntryQuery(Entry(owner, "x")))
    ensures Resolve(MutualReexport(), EntryQuery(Entry(owner, "x")), d) == None
    decreases d
  {
    hide Next, MutualReexport;
    MutualMoves(owner);
    if d >= 2 {
      MutualReexportNeverEnds(if owner == "a" then "b" else "a", d - 2);
    }
  }
}
