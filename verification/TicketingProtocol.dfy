/** The corrected handler under concurrency: any number of merchant processes share one store, each
    table write commits on its own, and processes start, crash and lose writes between commits.
    Inside one process the handler does not yield after the body is read, so a process runs one
    handler at a time; between two commits of one process every other process may step. */
module TicketingProtocol {
  import opened Foundations
  import opened TicketingStore
  import M = TicketingMerchant

  type ProcessId = M.ProcessId

  /** Where a process is in the handler. */
  datatype Phase =
    | Idle
    | Admitted(request: M.WebhookRequest)   // past the in-memory check, about to claim
    | Claimed(request: M.WebhookRequest)    // claim committed, about to bind the roster row
    | Bound(request: M.WebhookRequest)      // roster row committed, about to mint the pass

  datatype Process = Process(processed: set<EventId>, phase: Phase)

  datatype System = System(tables: Tables, live: map<ProcessId, Process>)

  datatype Step =
    | Start(process: ProcessId)                              // a fresh process, or a restart
    | Receive(process: ProcessId, request: M.WebhookRequest) // up to and including the in-memory check
    | Claim(process: ProcessId)
    | BindRoster(process: ProcessId)
    | MintPass(process: ProcessId)
    | CheckoutPass(process: ProcessId, payment: PaymentId)   // the checkout handler's one commit
    | StoreError(process: ProcessId)                         // the next statement raises; the request fails
    | Crash(process: ProcessId)

  predicate Enabled(s: System, step: Step) {
    match step
    case Start(p) => p !in s.live
    case Receive(p, r) => p in s.live && s.live[p].phase.Idle? && M.Valid(r)
    case Claim(p) => p in s.live && s.live[p].phase.Admitted? && M.Valid(s.live[p].phase.request)
    case BindRoster(p) => p in s.live && s.live[p].phase.Claimed? && M.Valid(s.live[p].phase.request)
    case MintPass(p) => p in s.live && s.live[p].phase.Bound? && M.Valid(s.live[p].phase.request)
    case CheckoutPass(p, _) => p in s.live && s.live[p].phase.Idle?
    case StoreError(p) => p in s.live
    case Crash(p) => p in s.live
  }

  function Take(s: System, step: Step): System
    requires Enabled(s, step)
  {
    match step
    case Start(p) => s.(live := s.live[p := Process({}, Idle)])
    case Receive(p, r) =>
      if r.eventId.value in s.live[p].processed then s
      else s.(live := s.live[p := s.live[p].(phase := Admitted(r))])
    case Claim(p) =>
      var r := s.live[p].phase.request;
      var e := r.eventId.value;
      var remembered := s.live[p].processed + {e};
      if e in s.tables.claimed then s.(live := s.live[p := Process(remembered, Idle)])
      else System(s.tables.(claimed := s.tables.claimed + {e}),
                  s.live[p := Process(remembered,
                                      if r.payload.value.event == M.CAPTURED_EVENT then Claimed(r) else Idle)])
    case BindRoster(p) =>
      var r := s.live[p].phase.request;
      System(s.tables.(roster := s.tables.roster + [M.RowOf(r)]), s.live[p := s.live[p].(phase := Bound(r))])
    case MintPass(p) =>
      System(s.tables.(passes := s.tables.passes + [M.RowOf(s.live[p].phase.request)]),
             s.live[p := s.live[p].(phase := Idle)])
    case CheckoutPass(_, payment) =>
      s.(tables := s.tables.(passes := s.tables.passes + [Row(payment, FromCheckout)]))
    case StoreError(p) => s.(live := s.live[p := s.live[p].(phase := Idle)])
    case Crash(p) => s.(live := s.live - {p})
  }

  /** The state after the given steps, if each is enabled when its turn comes. */
  function After(s: System, steps: seq<Step>): Option<System> {
    if steps == [] then Some(s)
    else
      var last := steps[|steps| - 1];
      match After(s, steps[..|steps| - 1])
      case Some(m) => if Enabled(m, last) then Some(Take(m, last)) else None
      case None => None
  }

  /** No process yet; the tables hold claims from earlier lives but no webhook row. */
  ghost predicate Initial(s: System) {
    s.live == map[] && (forall e :: RowsFor(s.tables.roster, e) == 0 && RowsFor(s.tables.passes, e) == 0)
  }

  // ------------------------------------------------------------ the invariant

  /** Process `p` has committed the claim of `e` and is on its way to fulfil it. */
  predicate Fulfilling(s: System, p: ProcessId, e: EventId) {
    p in s.live && (s.live[p].phase.Claimed? || s.live[p].phase.Bound?)
    && M.ValidCapture(s.live[p].phase.request) && s.live[p].phase.request.eventId.value == e
  }

  ghost predicate WellFormedProcess(s: System, p: ProcessId)
    requires p in s.live
  {
    var process := s.live[p];
    && process.processed <= s.tables.claimed
    && (process.phase.Admitted? ==> M.Valid(process.phase.request))
    && (process.phase.Claimed? || process.phase.Bound? ==> M.ValidCapture(process.phase.request))
    && (process.phase.Claimed? ==> RowsFor(s.tables.roster, process.phase.request.eventId.value) == 0)
    && (process.phase.Bound? ==> RowsFor(s.tables.roster, process.phase.request.eventId.value) == 1
                                 && RowsFor(s.tables.passes, process.phase.request.eventId.value) == 0)
  }

  ghost predicate EventAtMostOnce(t: Tables, e: EventId) {
    && RowsFor(t.passes, e) <= RowsFor(t.roster, e) <= 1
    && (RowsFor(t.roster, e) == 1 ==> e in t.claimed)
  }

  ghost predicate Invariant(s: System) {
    && (forall p :: p in s.live ==> WellFormedProcess(s, p))
    && (forall e :: EventAtMostOnce(s.tables, e))
    && (forall p, e :: Fulfilling(s, p, e) ==> e in s.tables.claimed)
    && (forall p, q, e :: Fulfilling(s, p, e) && Fulfilling(s, q, e) ==> p == q)
  }

  lemma ClaimKeepsInvariant(s: System, step: Step)
    requires Invariant(s) && Enabled(s, step) && step.Claim?
    ensures Invariant(Take(s, step))
  {
    var t, p := Take(s, step), step.process;
    var e := s.live[p].phase.request.eventId.value;
    forall q | q in t.live
      ensures WellFormedProcess(t, q)
    {
      assert WellFormedProcess(s, q);
      if q == p && t.live[p].phase.Claimed? {
        assert EventAtMostOnce(s.tables, e);
      }
    }
    forall x ensures EventAtMostOnce(t.tables, x) { assert EventAtMostOnce(s.tables, x); }
    forall q, x | Fulfilling(t, q, x)
      ensures q != p ==> Fulfilling(s, q, x)
      ensures q == p ==> x == e && e !in s.tables.claimed
      ensures x in t.tables.claimed
    {
      if q != p { assert Fulfilling(s, q, x); }
    }
  }

  lemma RowKeepsInvariant(s: System, step: Step)
    requires Invariant(s) && Enabled(s, step) && (step.BindRoster? || step.MintPass? || step.CheckoutPass?)
    ensures Invariant(Take(s, step))
  {
    var t, p := Take(s, step), step.process;
    assert WellFormedProcess(s, p);
    var row := if step.CheckoutPass? then Row(step.payment, FromCheckout) else M.RowOf(s.live[p].phase.request);
    forall x
      ensures EventAtMostOnce(t.tables, x)
      ensures row.origin != FromWebhook(x)
              ==> RowsFor(t.tables.roster, x) == RowsFor(s.tables.roster, x)
                  && RowsFor(t.tables.passes, x) == RowsFor(s.tables.passes, x)
    {
      RowsForAppend(s.tables.roster, row, x);
      RowsForAppend(s.tables.passes, row, x);
      assert EventAtMostOnce(s.tables, x);
      if row.origin == FromWebhook(x) { assert Fulfilling(s, p, x); }
    }
    forall q, x | Fulfilling(t, q, x)
      ensures Fulfilling(s, q, x)
    {
    }
    forall q | q in t.live
      ensures WellFormedProcess(t, q)
    {
      assert WellFormedProcess(s, q);
      if q != p && (s.live[q].phase.Claimed? || s.live[q].phase.Bound?) {
        var x := s.live[q].phase.request.eventId.value;
        assert Fulfilling(s, q, x);
        if row.origin == FromWebhook(x) { assert Fulfilling(s, p, x); }
      }
      if q == p && step.BindRoster? {
        var x := s.live[p].phase.request.eventId.value;
        RowsForAppend(s.tables.roster, row, x);
        assert EventAtMostOnce(s.tables, x);
      }
    }
  }

  lemma MemoryStepKeepsInvariant(s: System, step: Step)
    requires Invariant(s) && Enabled(s, step)
    requires step.Start? || step.Receive? || step.StoreError? || step.Crash?
    ensures Invariant(Take(s, step))
  {
    var t := Take(s, step);
    forall q | q in t.live
      ensures WellFormedProcess(t, q)
    {
      if q in s.live { assert WellFormedProcess(s, q); }
    }
    forall q, x | Fulfilling(t, q, x)
      ensures Fulfilling(s, q, x)
    {
    }
  }

  lemma StepKeepsInvariant(s: System, step: Step)
    requires Invariant(s) && Enabled(s, step)
    ensures Invariant(Take(s, step))
  {
    match step
    case Claim(_) => ClaimKeepsInvariant(s, step);
    case BindRoster(_) => RowKeepsInvariant(s, step);
    case MintPass(_) => RowKeepsInvariant(s, step);
    case CheckoutPass(_, _) => RowKeepsInvariant(s, step);
    case _ => MemoryStepKeepsInvariant(s, step);
  }

  // ------------------------------------------------------------ safety over all runs

  lemma {:induction false} InvariantHolds(s: System, steps: seq<Step>, t: System)
    requires Invariant(s) && After(s, steps) == Some(t)
    ensures Invariant(t)
  {
    if steps != [] {
      var last, m := steps[|steps| - 1], After(s, steps[..|steps| - 1]).value;
      InvariantHolds(s, steps[..|steps| - 1], m);
      StepKeepsInvariant(m, last);
    }
  }

  /** In every interleaving, with any restarts, crashes and failed statements: at most one roster row
      and one pass per event, never a pass without its roster row or its claim, and every process
      remembers only claimed events. */
  lemma AtMostOnceInEveryRun(s: System, steps: seq<Step>, t: System, e: EventId)
    requires Initial(s) && After(s, steps) == Some(t)
    ensures RowsFor(t.tables.passes, e) <= RowsFor(t.tables.roster, e) <= 1
    ensures RowsFor(t.tables.passes, e) == 1 ==> e in t.tables.claimed
    ensures forall p :: p in t.live ==> t.live[p].processed <= t.tables.claimed
  {
    InvariantHolds(s, steps, t);
    assert EventAtMostOnce(t.tables, e);
    forall p | p in t.live
      ensures t.live[p].processed <= t.tables.claimed
    {
      assert WellFormedProcess(t, p);
    }
  }

  // ------------------------------------------------------------ what the protocol does not promise

  /** The event is claimed and nobody is on the way to fulfil it. */
  ghost predicate Settled(s: System, e: EventId) {
    e in s.tables.claimed && forall p :: !Fulfilling(s, p, e)
  }

  lemma SettledStep(s: System, step: Step, e: EventId)
    requires Invariant(s) && Enabled(s, step) && Settled(s, e)
    ensures var t := Take(s, step);
            && Settled(t, e)
            && RowsFor(t.tables.roster, e) == RowsFor(s.tables.roster, e)
            && RowsFor(t.tables.passes, e) == RowsFor(s.tables.passes, e)
  {
    var t, p := Take(s, step), step.process;
    if step.BindRoster? || step.MintPass? || step.CheckoutPass? {
      assert WellFormedProcess(s, p);
      var row := if step.CheckoutPass? then Row(step.payment, FromCheckout) else M.RowOf(s.live[p].phase.request);
      RowsForAppend(s.tables.roster, row, e);
      RowsForAppend(s.tables.passes, row, e);
      if row.origin == FromWebhook(e) { assert Fulfilling(s, p, e); }
    }
    forall q
      ensures !Fulfilling(t, q, e)
    {
      assert !Fulfilling(s, q, e);
    }
  }

  /** A settled event keeps its row counts for ever: no redelivery, restart or other process can add
      one. So an event whose claimant crashed or failed before the pass never gets its pass. */
  lemma {:induction false} SettledIsFinal(s: System, steps: seq<Step>, t: System, e: EventId)
    requires Invariant(s) && Settled(s, e) && After(s, steps) == Some(t)
    ensures Settled(t, e)
    ensures RowsFor(t.tables.roster, e) == RowsFor(s.tables.roster, e)
    ensures RowsFor(t.tables.passes, e) == RowsFor(s.tables.passes, e)
  {
    if steps != [] {
      var last, m := steps[|steps| - 1], After(s, steps[..|steps| - 1]).value;
      SettledIsFinal(s, steps[..|steps| - 1], m, e);
      InvariantHolds(s, steps[..|steps| - 1], m);
      SettledStep(m, last, e);
    }
  }

  /** Exactly-once fails: losing the process between claim and pass settles the event unfulfilled. */
  lemma LosingTheClaimantSettles(s: System, p: ProcessId, e: EventId, crash: bool)
    requires Invariant(s) && Fulfilling(s, p, e)
    ensures var t := Take(s, if crash then Crash(p) else StoreError(p));
            Settled(t, e) && RowsFor(t.tables.passes, e) == 0
  {
    assert WellFormedProcess(s, p);
    assert EventAtMostOnce(s.tables, e);
    var t := Take(s, if crash then Crash(p) else StoreError(p));
    forall q
      ensures !Fulfilling(t, q, e)
    {
      if Fulfilling(t, q, e) {
        assert Fulfilling(s, q, e);
      }
    }
  }

  // ------------------------------------------------------------ link to the sequential handler

  ghost function RunHandler(s: System, p: ProcessId, r: M.WebhookRequest): System
    requires Enabled(s, Receive(p, r))
  {
    var s1 := Take(s, Receive(p, r));
    if s1.live[p].phase.Idle? then s1
    else
      var s2 := Take(s1, Claim(p));
      if s2.live[p].phase.Idle? then s2
      else Take(Take(s2, BindRoster(p)), MintPass(p))
  }

  /** Without interleaving, the steps of one process are the sequential handler. */
  lemma UninterruptedStepsAreTheHandler(s: System, p: ProcessId, r: M.WebhookRequest, payStatus: string, order: string)
    requires Enabled(s, Receive(p, r))
    ensures var after := RunHandler(s, p, r);
            var h := M.FixedHandler(M.State(s.live[p].processed, payStatus, order, s.tables), r).0;
            after.tables == h.tables && after.live == s.live[p := Process(h.processed, Idle)]
  {
  }
}
