/** When the protocol fulfils an event exactly once. A claimed event gets its roster row and its pass unless
    the process that claimed it is lost on the way; the condition is exact over all runs. */
module TicketingFulfilment {
  import opened Foundations
  import opened TicketingStore
  import opened TicketingProtocol

  /** What can happen to an event in one step: it is claimed by a valid capture, or the process fulfilling it
      crashes or fails, at all or before the roster row. */
  datatype Moment = CaptureClaim | Loss | EarlyLoss

  predicate Loses(m: System, step: Step, e: EventId) {
    (step.Crash? || step.StoreError?) && Fulfilling(m, step.process, e)
  }

  predicate Happens(moment: Moment, m: System, step: Step, e: EventId) {
    match moment
    case CaptureClaim =>
      step.Claim? && Enabled(m, step) && M.ValidCapture(m.live[step.process].phase.request)
      && m.live[step.process].phase.request.eventId == Some(e) && e !in m.tables.claimed
    case Loss => Loses(m, step, e)
    case EarlyLoss => Loses(m, step, e) && m.live[step.process].phase.Claimed?
  }

  predicate HappensAt(s: System, steps: seq<Step>, k: nat, moment: Moment, e: EventId) {
    k < |steps| && After(s, steps[..k]).Some? && Happens(moment, After(s, steps[..k]).value, steps[k], e)
  }

  ghost predicate Happened(s: System, steps: seq<Step>, moment: Moment, e: EventId) {
    exists k :: HappensAt(s, steps, k, moment, e)
  }

  lemma HappenedBeforeOrLast(s: System, steps: seq<Step>, moment: Moment, e: EventId)
    requires steps != []
    ensures var n := |steps| - 1;
            Happened(s, steps, moment, e) <==> Happened(s, steps[..n], moment, e) || HappensAt(s, steps, n, moment, e)
  {
    hide Happens, After;
    var n := |steps| - 1;
    forall k: nat | k < n
      ensures HappensAt(s, steps, k, moment, e) == HappensAt(s, steps[..n], k, moment, e)
    {
      assert steps[..n][..k] == steps[..k];
    }
    if k :| HappensAt(s, steps, k, moment, e) && k != n {
      assert HappensAt(s, steps[..n], k, moment, e);
    }
    if k :| HappensAt(s, steps[..n], k, moment, e) {
      assert HappensAt(s, steps, k, moment, e);
    }
  }

  ghost predicate Pending(t: System, e: EventId) {
    exists p :: Fulfilling(t, p, e)
  }

  /** Somebody still has to bind the roster row. */
  ghost predicate RosterPending(t: System, e: EventId) {
    exists p :: Fulfilling(t, p, e) && t.live[p].phase.Claimed?
  }

  /** Where the event stands, given what has happened to it. */
  ghost predicate Account(t: System, e: EventId, captured: bool, lost: bool, early: bool) {
    && (captured ==> e in t.tables.claimed)
    && (lost ==> captured) && (early ==> lost)
    && (Pending(t, e) ==> captured && !lost)
    && RowsFor(t.tables.passes, e) == (if captured && !Pending(t, e) && !lost then 1 else 0)
    && RowsFor(t.tables.roster, e) == (if captured && !RosterPending(t, e) && !early then 1 else 0)
  }

  /** The event's rows and who fulfils it are the same in both states. */
  ghost predicate SameFor(m: System, t: System, e: EventId) {
    && RowsFor(t.tables.roster, e) == RowsFor(m.tables.roster, e)
    && RowsFor(t.tables.passes, e) == RowsFor(m.tables.passes, e)
    && m.tables.claimed <= t.tables.claimed
    && forall p :: Fulfilling(t, p, e) == Fulfilling(m, p, e) && (Fulfilling(m, p, e) ==> t.live[p] == m.live[p])
  }

  lemma SameAccount(m: System, t: System, e: EventId, captured: bool, lost: bool, early: bool)
    requires SameFor(m, t, e) && Account(m, e, captured, lost, early)
    ensures Account(t, e, captured, lost, early)
  {
    assert Pending(t, e) == Pending(m, e);
    assert RosterPending(t, e) == RosterPending(m, e);
  }

  lemma OthersStepElsewhere(m: System, step: Step, e: EventId)
    requires Invariant(m) && Enabled(m, step) && !Fulfilling(m, step.process, e)
    requires !Happens(CaptureClaim, m, step, e)
    ensures SameFor(m, Take(m, step), e)
  {
    hide RowsFor;
    if step.BindRoster? || step.MintPass? || step.CheckoutPass? {
      RowForAnother(m, step, e);
    }
  }

  lemma RowForAnother(m: System, step: Step, e: EventId)
    requires Invariant(m) && Enabled(m, step) && !Fulfilling(m, step.process, e)
    requires step.BindRoster? || step.MintPass? || step.CheckoutPass?
    ensures RowsFor(Take(m, step).tables.roster, e) == RowsFor(m.tables.roster, e)
    ensures RowsFor(Take(m, step).tables.passes, e) == RowsFor(m.tables.passes, e)
  {
    assert WellFormedProcess(m, step.process);
    var row := if step.CheckoutPass? then Row(step.payment, FromCheckout)
               else M.RowOf(m.live[step.process].phase.request);
    RowsForAppend(m.tables.roster, row, e);
    RowsForAppend(m.tables.passes, row, e);
  }

  lemma ClaimCounts(m: System, step: Step, e: EventId, captured: bool, lost: bool, early: bool)
    requires Invariant(m) && Enabled(m, step) && Happens(CaptureClaim, m, step, e)
          && Account(m, e, captured, lost, early)
    ensures Account(Take(m, step), e, true, lost, early)
  {
    var t, p := Take(m, step), step.process;
    assert !captured && !Pending(m, e);
    assert Fulfilling(t, p, e) && t.live[p].phase.Claimed?;
    assert Pending(t, e) && RosterPending(t, e);
  }

  /** The one process fulfilling the event takes a step. */
  lemma FulfillerCounts(m: System, step: Step, e: EventId, captured: bool, lost: bool, early: bool)
    requires Invariant(m) && Enabled(m, step) && Fulfilling(m, step.process, e) && Account(m, e, captured, lost, early)
    ensures Account(Take(m, step), e, captured, lost || Loses(m, step, e), early || Happens(EarlyLoss, m, step, e))
  {
    var t, p := Take(m, step), step.process;
    var r := m.live[p].phase.request;
    assert WellFormedProcess(m, p);
    assert Pending(m, e);
    forall q | q != p
      ensures !Fulfilling(m, q, e) && !Fulfilling(t, q, e)
    {
      assert !Fulfilling(m, q, e);
    }
    RowsForAppend(m.tables.roster, M.RowOf(r), e);
    RowsForAppend(m.tables.passes, M.RowOf(r), e);
    assert RosterPending(m, e) <==> m.live[p].phase.Claimed?;
    assert Pending(t, e) <==> Fulfilling(t, p, e);
    assert RosterPending(t, e) <==> Fulfilling(t, p, e) && t.live[p].phase.Claimed?;
  }

  lemma AccountStep(m: System, step: Step, e: EventId, captured: bool, lost: bool, early: bool)
    requires Invariant(m) && Enabled(m, step) && Account(m, e, captured, lost, early)
    ensures Account(Take(m, step), e, captured || Happens(CaptureClaim, m, step, e), lost || Loses(m, step, e),
                    early || Happens(EarlyLoss, m, step, e))
  {
    hide Account, Invariant, Take;
    if Happens(CaptureClaim, m, step, e) {
      ClaimCounts(m, step, e, captured, lost, early);
    } else if Fulfilling(m, step.process, e) {
      FulfillerCounts(m, step, e, captured, lost, early);
    } else {
      OthersStepElsewhere(m, step, e);
      SameAccount(m, Take(m, step), e, captured, lost, early);
    }
  }

  lemma {:induction false} AccountHolds(s: System, steps: seq<Step>, t: System, e: EventId)
    requires Initial(s) && e !in s.tables.claimed && After(s, steps) == Some(t)
    ensures Account(t, e, Happened(s, steps, CaptureClaim, e), Happened(s, steps, Loss, e),
                    Happened(s, steps, EarlyLoss, e))
  {
    hide Happens;
    if steps == [] {
      assert !Pending(s, e) && !RosterPending(s, e);
    } else {
      var n := |steps| - 1;
      var m, last := After(s, steps[..n]).value, steps[n];
      AccountHolds(s, steps[..n], m, e);
      StartsInvariant(s);
      InvariantHolds(s, steps[..n], m);
      AccountStep(m, last, e, Happened(s, steps[..n], CaptureClaim, e), Happened(s, steps[..n], Loss, e),
                  Happened(s, steps[..n], EarlyLoss, e));
      HappenedBeforeOrLast(s, steps, CaptureClaim, e);
      HappenedBeforeOrLast(s, steps, Loss, e);
      HappenedBeforeOrLast(s, steps, EarlyLoss, e);
      LossIsLosing(m, last, e);
    }
  }

  lemma LossIsLosing(m: System, step: Step, e: EventId)
    ensures Happens(Loss, m, step, e) == Loses(m, step, e)
  {
  }

  lemma StartsInvariant(s: System)
    requires Initial(s)
    ensures Invariant(s)
  {
  }

  /** Exactly-once, exactly: over every run from an initial state in which the event is unclaimed, it has its
      pass at the end if and only if it was claimed by a valid capture, nobody is still on the way to fulfil
      it, and no process was lost fulfilling it; likewise the roster row, where only losses before the row
      count. In all other cases the event has none. */
  lemma ExactlyOnceIff(s: System, steps: seq<Step>, t: System, e: EventId)
    requires Initial(s) && e !in s.tables.claimed && After(s, steps) == Some(t)
    ensures RowsFor(t.tables.passes, e) == 1
       <==> && Happened(s, steps, CaptureClaim, e)
            && (forall p :: !Fulfilling(t, p, e))
            && !Happened(s, steps, Loss, e)
    ensures RowsFor(t.tables.roster, e) == 1
       <==> && Happened(s, steps, CaptureClaim, e)
            && (forall p :: Fulfilling(t, p, e) ==> !t.live[p].phase.Claimed?)
            && !Happened(s, steps, EarlyLoss, e)
    ensures RowsFor(t.tables.passes, e) <= RowsFor(t.tables.roster, e) <= 1
  {
    hide Happened, Fulfilling;
    AccountHolds(s, steps, t, e);
    AtMostOnceInEveryRun(s, steps, t, e);
  }

  // ------------------------------------------------------------ a run that loses the pass

  /** A process starts, takes a capture, claims it and crashes; it starts again and the capture is delivered
      again. */
  function LosingRun(p: ProcessId, r: M.WebhookRequest): seq<Step> {
    [Start(p), Receive(p, r), Claim(p), Crash(p), Start(p), Receive(p, r), Claim(p)]
  }

  lemma EmptyStoreIsInitial()
    ensures Initial(System(Tables({}, [], []), map[]))
  {
  }

  function LosingStates(s: System, p: ProcessId, r: M.WebhookRequest): seq<System>
    requires M.ValidCapture(r)
  {
    var e := r.eventId.value;
    var claimed := s.tables.(claimed := s.tables.claimed + {e});
    [s,
     System(s.tables, map[p := Process({}, Idle)]),
     System(s.tables, map[p := Process({}, Admitted(r))]),
     System(claimed, map[p := Process({e}, Claimed(r))]),
     System(claimed, map[]),
     System(claimed, map[p := Process({}, Idle)]),
     System(claimed, map[p := Process({}, Admitted(r))]),
     System(claimed, map[p := Process({e}, Idle)])]
  }

  lemma LosingStep(s: System, p: ProcessId, r: M.WebhookRequest, k: nat)
    requires Initial(s) && M.ValidCapture(r) && r.eventId.value !in s.tables.claimed && k < 7
    ensures Enabled(LosingStates(s, p, r)[k], LosingRun(p, r)[k])
    ensures Take(LosingStates(s, p, r)[k], LosingRun(p, r)[k]) == LosingStates(s, p, r)[k + 1]
  {
    var before, after := LosingStates(s, p, r)[k], LosingStates(s, p, r)[k + 1];
    var e := r.eventId.value;
    assert {} + {e} == {e};
    assert Take(before, LosingRun(p, r)[k]).live == after.live;
    assert Take(before, LosingRun(p, r)[k]).tables == after.tables;
  }

  lemma {:induction false} LosingPrefix(s: System, p: ProcessId, r: M.WebhookRequest, k: nat)
    requires Initial(s) && M.ValidCapture(r) && r.eventId.value !in s.tables.claimed && k <= 7
    ensures After(s, LosingRun(p, r)[..k]) == Some(LosingStates(s, p, r)[k])
  {
    hide Take, Enabled, Initial;
    if k > 0 {
      LosingPrefix(s, p, r, k - 1);
      LosingStep(s, p, r, k - 1);
      assert LosingRun(p, r)[..k][..k - 1] == LosingRun(p, r)[..k - 1];
    }
  }

  /** Exactly-once fails on this run, from any initial state, for any capture not claimed there: the event ends
      up claimed, delivered again, with nobody fulfilling it and without its roster row or its pass. */
  lemma CrashLosesThePass(s: System, p: ProcessId, r: M.WebhookRequest)
    requires Initial(s) && M.ValidCapture(r) && r.eventId.value !in s.tables.claimed
    ensures var e := r.eventId.value;
            && After(s, LosingRun(p, r)).Some?
            && var t := After(s, LosingRun(p, r)).value;
               && e in t.tables.claimed && (forall q :: !Fulfilling(t, q, e))
               && RowsFor(t.tables.passes, e) == 0 && RowsFor(t.tables.roster, e) == 0
  {
    LosingPrefix(s, p, r, 7);
    assert LosingRun(p, r)[..7] == LosingRun(p, r);
  }
}
