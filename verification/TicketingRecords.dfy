/** What the merchant records and answers, read off the requests alone: which payment every row is for, which
    event is claimed, and what each request is answered, over runs of whole requests and over runs of the
    protocol's steps. Nothing here mentions what the handlers are made of. */
module TicketingRecords {
  import opened Foundations
  import opened TicketingStore
  import opened TicketingProtocol

  // ------------------------------------------------------------ runs of whole requests

  /** A signed, readable delivery of the event. */
  predicate Arrives(op: M.Operation, e: EventId) {
    && op.Deliver? && op.request.hasSignature && op.request.authentic
    && op.request.eventId == Some(e) && op.request.payload.Some?
  }

  predicate ArrivesCaptured(op: M.Operation, e: EventId) {
    Arrives(op, e) && op.request.payload.value.event == "payment.captured"
  }

  /** The event was claimed at the start or arrived in one of the earlier requests. */
  ghost predicate Known(claimed: set<EventId>, earlier: seq<M.Operation>, e: EventId) {
    e in claimed || exists op :: op in earlier && Arrives(op, e)
  }

  ghost predicate FirstCapture(claimed: set<EventId>, earlier: seq<M.Operation>, op: M.Operation) {
    op.Deliver? && op.request.eventId.Some? && ArrivesCaptured(op, op.request.eventId.value)
    && !Known(claimed, earlier, op.request.eventId.value)
  }

  predicate PaysForOrder(orderId: string, op: M.Operation) {
    op.Checkout? && op.checkout.orderId == orderId && op.checkout.authentic
  }

  /** A row for the payment of every first capture, in order. */
  ghost function RosterRows(claimed: set<EventId>, ops: seq<M.Operation>): seq<Row> {
    if ops == [] then []
    else
      var earlier, op := ops[..|ops| - 1], ops[|ops| - 1];
      RosterRows(claimed, earlier)
      + (if FirstCapture(claimed, earlier, op)
         then [Row(op.request.payload.value.payment, FromWebhook(op.request.eventId.value))] else [])
  }

  /** A row for the payment of every first capture and of every genuine checkout, in order. */
  ghost function PassRows(orderId: string, claimed: set<EventId>, ops: seq<M.Operation>): seq<Row> {
    if ops == [] then []
    else
      var earlier, op := ops[..|ops| - 1], ops[|ops| - 1];
      PassRows(orderId, claimed, earlier)
      + (if FirstCapture(claimed, earlier, op)
         then [Row(op.request.payload.value.payment, FromWebhook(op.request.eventId.value))]
         else if PaysForOrder(orderId, op) then [Row(op.checkout.payment, FromCheckout)] else [])
  }

  /** The answer to a request that comes after the earlier ones. */
  ghost predicate Answers(orderId: string, claimed: set<EventId>, earlier: seq<M.Operation>, op: M.Operation,
                          response: M.Response)
  {
    match op
    case Deliver(_, r) =>
      var headers := r.hasSignature && r.eventId.Some?;
      var e := if r.eventId.Some? then r.eventId.value else "";
      && (response.ServerError? <==> !headers || (r.authentic && r.payload.None?))
      && (response.BadRequest? <==> headers && !r.authentic)
      && (response.Duplicate? <==> Arrives(op, e) && Known(claimed, earlier, e))
      && (response.Captured? <==> FirstCapture(claimed, earlier, op))
      && (response.Ignored? <==> Arrives(op, e) && !ArrivesCaptured(op, e) && !Known(claimed, earlier, e))
    case Checkout(_, _) => response == if PaysForOrder(orderId, op) then M.Captured else M.BadRequest
    case Restart(_) => true
  }

  /** Everything a run of the corrected handler stores and answers, whichever processes take the requests and
      whenever they restart. */
  lemma {:induction false} RunRecords(orderId: string, d: M.Deployment, ops: seq<M.Operation>)
    requires M.MemoryIsCache(d)
    ensures var (after, responses), claimed := M.Run(true, orderId, d, ops), d.tables.claimed;
            && after.tables.roster == d.tables.roster + RosterRows(claimed, ops)
            && after.tables.passes == d.tables.passes + PassRows(orderId, claimed, ops)
            && (forall e :: e in after.tables.claimed <==> Known(claimed, ops, e))
            && |responses| == |ops|
            && forall k :: 0 <= k < |ops| ==> Answers(orderId, claimed, ops[..k], ops[k], responses[k])
  {
    hide Answers, FirstCapture;
    if ops != [] {
      var n := |ops| - 1;
      RunRecords(orderId, d, ops[..n]);
      M.MemoryIsOnlyACache(orderId, d, ops[..n]);
      var before, responses := M.Run(true, orderId, d, ops[..n]).0, M.Run(true, orderId, d, ops).1;
      StepRecords(orderId, d.tables.claimed, before, ops[..n], ops[n]);
      forall e
        ensures Known(d.tables.claimed, ops, e) <==> Known(d.tables.claimed, ops[..n], e) || Arrives(ops[n], e)
      {
        assert ops == ops[..n] + [ops[n]];
      }
      forall k | 0 <= k < n
        ensures Answers(orderId, d.tables.claimed, ops[..k], ops[k], responses[k])
      {
        assert ops[..n][..k] == ops[..k] && ops[..n][k] == ops[k];
      }
    }
  }

  lemma StepRecords(orderId: string, claimed: set<EventId>, d: M.Deployment, earlier: seq<M.Operation>, op: M.Operation)
    requires M.MemoryIsCache(d) && forall e :: e in d.tables.claimed <==> Known(claimed, earlier, e)
    ensures var (after, response) := M.Apply(true, orderId, d, op);
            && (forall e :: e in after.tables.claimed <==> Known(claimed, earlier, e) || Arrives(op, e))
            && after.tables.roster
               == d.tables.roster
                  + (if FirstCapture(claimed, earlier, op)
                     then [Row(op.request.payload.value.payment, FromWebhook(op.request.eventId.value))] else [])
            && after.tables.passes
               == d.tables.passes
                  + (if FirstCapture(claimed, earlier, op)
                     then [Row(op.request.payload.value.payment, FromWebhook(op.request.eventId.value))]
                     else if PaysForOrder(orderId, op) then [Row(op.checkout.payment, FromCheckout)] else [])
            && Answers(orderId, claimed, earlier, op, response)
  {
    hide Known;
    if op.Deliver? {
      assert M.Memory(d, op.process) <= d.tables.claimed;
    }
  }

  /** A row for the payment of every capture, in order. */
  function CaptureRows(ops: seq<M.Operation>): seq<Row> {
    if ops == [] then []
    else
      var op := ops[|ops| - 1];
      CaptureRows(ops[..|ops| - 1])
      + (if op.Deliver? && op.request.eventId.Some? && ArrivesCaptured(op, op.request.eventId.value)
         then [Row(op.request.payload.value.payment, FromWebhook(op.request.eventId.value))] else [])
  }

  /** The event was claimed at the start or captured in one of the earlier requests. */
  ghost predicate CapturedBefore(claimed: set<EventId>, earlier: seq<M.Operation>, e: EventId) {
    e in claimed || exists op :: op in earlier && ArrivesCaptured(op, e)
  }

  /** Everything the wrong twin binds, claims and says about duplicates: it fulfils every capture for its own
      payment, and calls duplicate what it fulfils again. */
  lemma {:induction false} TwinRecords(orderId: string, d: M.Deployment, ops: seq<M.Operation>)
    requires M.MemoryIsCache(d)
    ensures var (after, responses), claimed := M.Run(false, orderId, d, ops), d.tables.claimed;
            && M.MemoryIsCache(after)
            && after.tables.roster == d.tables.roster + CaptureRows(ops)
            && (forall e :: e in after.tables.claimed <==> CapturedBefore(claimed, ops, e))
            && |responses| == |ops|
            && forall k, e :: 0 <= k < |ops| && ArrivesCaptured(ops[k], e) ==>
                 responses[k] == M.CapturedTwin(CapturedBefore(claimed, ops[..k], e))
  {
    if ops != [] {
      var n := |ops| - 1;
      TwinRecords(orderId, d, ops[..n]);
      var before, responses := M.Run(false, orderId, d, ops[..n]).0, M.Run(false, orderId, d, ops).1;
      TwinStep(orderId, d.tables.claimed, before, ops[..n], ops[n]);
      forall e
        ensures CapturedBefore(d.tables.claimed, ops, e)
           <==> CapturedBefore(d.tables.claimed, ops[..n], e) || ArrivesCaptured(ops[n], e)
      {
        assert ops == ops[..n] + [ops[n]];
      }
      forall k, e | 0 <= k < n && ArrivesCaptured(ops[k], e)
        ensures responses[k] == M.CapturedTwin(CapturedBefore(d.tables.claimed, ops[..k], e))
      {
        assert ops[..n][..k] == ops[..k] && ops[..n][k] == ops[k];
      }
    }
  }

  lemma TwinStep(orderId: string, claimed: set<EventId>, d: M.Deployment, earlier: seq<M.Operation>, op: M.Operation)
    requires M.MemoryIsCache(d) && forall e :: e in d.tables.claimed <==> CapturedBefore(claimed, earlier, e)
    ensures var (after, response) := M.Apply(false, orderId, d, op);
            && M.MemoryIsCache(after)
            && (forall e :: e in after.tables.claimed <==>
                  CapturedBefore(claimed, earlier, e) || ArrivesCaptured(op, e))
            && after.tables.roster
               == d.tables.roster
                  + (if op.Deliver? && op.request.eventId.Some? && ArrivesCaptured(op, op.request.eventId.value)
                     then [Row(op.request.payload.value.payment, FromWebhook(op.request.eventId.value))] else [])
            && forall e :: ArrivesCaptured(op, e) ==> response == M.CapturedTwin(CapturedBefore(claimed, earlier, e))
  {
    hide CapturedBefore;
    var after := M.Apply(false, orderId, d, op).0;
    if op.Deliver? {
      assert M.Memory(d, op.process) <= d.tables.claimed;
    }
    forall p
      ensures M.Memory(after, p) <= after.tables.claimed
    {
      assert M.Memory(d, p) <= d.tables.claimed;
    }
  }

  /** The payment status turns to captured exactly with a Captured answer to a webhook, the order status exactly
      with one to a checkout; nothing else moves them. */
  lemma StatusesFollowAnswers(s: M.State, orderId: string, r: M.WebhookRequest, c: M.CheckoutRequest)
    ensures var (after, response) := M.FixedHandler(s, r);
            && after.paymentStatus == (if response.Captured? then "captured" else s.paymentStatus)
            && after.orderStatus == s.orderStatus
    ensures var (after, response) := M.VulnerableHandler(s, r);
            && after.paymentStatus == (if response.CapturedTwin? then "captured" else s.paymentStatus)
            && after.orderStatus == s.orderStatus
    ensures var (after, response) := M.CheckoutHandler(s, orderId, c);
            && after.orderStatus == (if response.Captured? then "captured" else s.orderStatus)
            && after.paymentStatus == s.paymentStatus && after.processed == s.processed
  {
  }

  // ------------------------------------------------------------ runs of protocol steps

  /** Some process received the request and then claimed its event with it, which nobody had claimed before. */
  ghost predicate ClaimedWith(s: System, steps: seq<Step>, r: M.WebhookRequest) {
    exists k: nat :: ClaimedAt(s, steps, k, r)
  }

  ghost predicate ClaimedAt(s: System, steps: seq<Step>, k: nat, r: M.WebhookRequest) {
    && k < |steps| && steps[k].Claim? && Receive(steps[k].process, r) in steps[..k]
    && r.eventId.Some?
    && After(s, steps[..k]).Some? && r.eventId.value !in After(s, steps[..k]).value.tables.claimed
  }

  /** The row is for the payment of a signed capture that claimed the row's event. */
  ghost predicate RowOfCapture(s: System, steps: seq<Step>, row: Row) {
    exists r :: ClaimedWith(s, steps, r) && CaptureFor(r, row)
  }

  predicate CaptureFor(r: M.WebhookRequest, row: Row) {
    && r.hasSignature && r.authentic && r.eventId.Some? && row.origin == FromWebhook(r.eventId.value)
    && r.payload.Some? && r.payload.value.event == "payment.captured" && r.payload.value.payment == row.payment
  }

  predicate RowOfCheckout(steps: seq<Step>, row: Row) {
    row.origin == FromCheckout && exists step :: step in steps && step.CheckoutPass? && step.payment == row.payment
  }

  /** The payments of the checkout steps, in order. */
  function CheckoutPayments(steps: seq<Step>): seq<PaymentId> {
    if steps == [] then []
    else
      var last := steps[|steps| - 1];
      CheckoutPayments(steps[..|steps| - 1]) + (if last.CheckoutPass? then [last.payment] else [])
  }

  function CheckoutRowPayments(rows: seq<Row>): seq<PaymentId> {
    if rows == [] then []
    else
      var last := rows[|rows| - 1];
      CheckoutRowPayments(rows[..|rows| - 1]) + (if last.origin.FromCheckout? then [last.payment] else [])
  }

  /** What every process holds comes from its requests. */
  ghost predicate Traced(s: System, steps: seq<Step>, t: System) {
    forall p :: p in t.live && !t.live[p].phase.Idle? ==>
      var r := t.live[p].phase.request;
      && Receive(p, r) in steps && M.Valid(r)
      && (t.live[p].phase.Claimed? || t.live[p].phase.Bound? ==> M.ValidCapture(r) && ClaimedWith(s, steps, r))
  }

  ghost predicate RowsTraced(s: System, steps: seq<Step>, t: System) {
    && s.tables.roster <= t.tables.roster && s.tables.passes <= t.tables.passes
    && (forall i :: |s.tables.roster| <= i < |t.tables.roster| ==> RowOfCapture(s, steps, t.tables.roster[i]))
    && (forall i :: |s.tables.passes| <= i < |t.tables.passes| ==>
          RowOfCapture(s, steps, t.tables.passes[i]) || RowOfCheckout(steps, t.tables.passes[i]))
  }

  lemma ClaimsStay(s: System, steps: seq<Step>, n: nat, r: M.WebhookRequest)
    requires n <= |steps| && ClaimedWith(s, steps[..n], r)
    ensures ClaimedWith(s, steps, r)
  {
    var k: nat :| ClaimedAt(s, steps[..n], k, r);
    assert steps[..n][..k] == steps[..k];
    assert ClaimedAt(s, steps, k, r);
  }

  lemma RowsStay(s: System, steps: seq<Step>, n: nat, row: Row)
    requires n <= |steps|
    ensures RowOfCapture(s, steps[..n], row) ==> RowOfCapture(s, steps, row)
    ensures RowOfCheckout(steps[..n], row) ==> RowOfCheckout(steps, row)
  {
    if r :| ClaimedWith(s, steps[..n], r) && CaptureFor(r, row) {
      ClaimsStay(s, steps, n, r);
    }
  }

  lemma {:induction false} ProcessesTraced(s: System, steps: seq<Step>, t: System)
    requires Initial(s) && After(s, steps) == Some(t)
    ensures Traced(s, steps, t)
  {
    if steps != [] {
      var n := |steps| - 1;
      var m, last := After(s, steps[..n]).value, steps[n];
      ProcessesTraced(s, steps[..n], m);
      assert last in steps && forall step :: step in steps[..n] ==> step in steps;
      forall p | p in t.live && !t.live[p].phase.Idle?
        ensures var r := t.live[p].phase.request;
                && Receive(p, r) in steps && M.Valid(r)
                && (t.live[p].phase.Claimed? || t.live[p].phase.Bound? ==>
                      M.ValidCapture(r) && ClaimedWith(s, steps, r))
      {
        var r := t.live[p].phase.request;
        if p in m.live && !m.live[p].phase.Idle? {
          assert m.live[p].phase.request == r;
          if m.live[p].phase.Claimed? || m.live[p].phase.Bound? {
            ClaimsStay(s, steps, n, r);
          } else if last == Claim(p) {
            assert ClaimedAt(s, steps, n, r);
          }
        }
      }
    }
  }

  /** In every interleaving, every row added is for the payment of the very capture that claimed its event, or
      is a pass for the payment of a checkout; and each checkout mints one pass, in order. */
  lemma {:induction false} RowsTellThePayment(s: System, steps: seq<Step>, t: System)
    requires Initial(s) && After(s, steps) == Some(t)
    ensures RowsTraced(s, steps, t)
    ensures CheckoutRowPayments(t.tables.passes) == CheckoutRowPayments(s.tables.passes) + CheckoutPayments(steps)
  {
    hide RowOfCapture;
    if steps != [] {
      var n := |steps| - 1;
      var m, last := After(s, steps[..n]).value, steps[n];
      RowsTellThePayment(s, steps[..n], m);
      ProcessesTraced(s, steps[..n], m);
      if last.BindRoster? || last.MintPass? {
        CommitTellsThePayment(s, steps, m);
      }
      RowsKept(s, steps, m, t);
      CheckoutStep(m, last);
    }
  }

  /** One row is added, of a capture. */
  ghost predicate GrowsByCapture(s: System, steps: seq<Step>, before: seq<Row>, after: seq<Row>) {
    exists row :: after == before + [row] && RowOfCapture(s, steps, row)
  }

  /** The row that the last step commits. */
  lemma CommitTellsThePayment(s: System, steps: seq<Step>, m: System)
    requires steps != [] && var n := |steps| - 1; After(s, steps[..n]) == Some(m) && Traced(s, steps[..n], m)
    requires var last := steps[|steps| - 1]; Enabled(m, last) && (last.BindRoster? || last.MintPass?)
    ensures var last := steps[|steps| - 1];
            var t := Take(m, last);
            && (last.BindRoster? ==> GrowsByCapture(s, steps, m.tables.roster, t.tables.roster))
            && (last.MintPass? ==> GrowsByCapture(s, steps, m.tables.passes, t.tables.passes))
  {
    var n := |steps| - 1;
    var p := steps[n].process;
    var r := m.live[p].phase.request;
    ClaimsStay(s, steps, n, r);
    var row := Row(r.payload.value.payment, FromWebhook(r.eventId.value));
    assert CaptureFor(r, row);
    assert RowOfCapture(s, steps, row);
  }

  lemma RowsKept(s: System, steps: seq<Step>, m: System, t: System)
    requires steps != [] && var n := |steps| - 1; RowsTraced(s, steps[..n], m)
    requires var last := steps[|steps| - 1];
             && Enabled(m, last) && t == Take(m, last)
             && (last.BindRoster? ==> GrowsByCapture(s, steps, m.tables.roster, t.tables.roster))
             && (last.MintPass? ==> GrowsByCapture(s, steps, m.tables.passes, t.tables.passes))
    ensures RowsTraced(s, steps, t)
  {
    hide RowOfCapture;
    var n := |steps| - 1;
    forall row
      ensures RowOfCapture(s, steps[..n], row) ==> RowOfCapture(s, steps, row)
      ensures RowOfCheckout(steps[..n], row) ==> RowOfCheckout(steps, row)
    {
      RowsStay(s, steps, n, row);
    }
    if steps[n].CheckoutPass? {
      assert steps[n] in steps;
      assert RowOfCheckout(steps, Row(steps[n].payment, FromCheckout));
    }
  }

  lemma CheckoutRowsAppend(rows: seq<Row>, row: Row)
    ensures CheckoutRowPayments(rows + [row])
         == CheckoutRowPayments(rows) + (if row.origin.FromCheckout? then [row.payment] else [])
  {
    assert (rows + [row])[..|rows|] == rows;
  }

  lemma CheckoutStep(m: System, step: Step)
    requires Enabled(m, step)
    ensures CheckoutRowPayments(Take(m, step).tables.passes)
         == CheckoutRowPayments(m.tables.passes) + (if step.CheckoutPass? then [step.payment] else [])
  {
    hide CheckoutRowPayments;
    if step.MintPass? {
      CheckoutRowsAppend(m.tables.passes, M.RowOf(m.live[step.process].phase.request));
    } else if step.CheckoutPass? {
      CheckoutRowsAppend(m.tables.passes, Row(step.payment, FromCheckout));
    }
  }
}
