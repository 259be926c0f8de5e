/** One merchant process: the corrected webhook handler, its deliberately wrong twin, and the
    checkout handler, each as the code runs it and as a function of the state it starts in. */
module TicketingMerchant {
  import opened Foundations
  import opened TicketingStore

  datatype Payload = Payload(event: string, payment: PaymentId)

  /** A webhook request as far as the handler looks at it. `payload` is None when the body is not
      JSON or lacks a key the handler reads. */
  datatype WebhookRequest = WebhookRequest(hasSignature: bool, eventId: Option<EventId>, authentic: bool,
                                           payload: Option<Payload>)

  datatype CheckoutRequest = CheckoutRequest(payment: PaymentId, orderId: string, authentic: bool)

  datatype Response =
    | ServerError            // an escaping KeyError or decoding error
    | BadRequest             // HTTPException 400
    | Duplicate              // accepted, duplicate
    | Captured               // accepted, state captured
    | CapturedTwin(duplicate: bool)
    | Ignored                // accepted, state ignored

  const CAPTURED_EVENT := "payment.captured"

  /** Everything a request can read or change: this process's memory and the shared tables. */
  datatype State = State(processed: set<EventId>, paymentStatus: string, orderStatus: string, tables: Tables)

  /** The delivery gets past the headers, the signature and the body. */
  predicate Valid(r: WebhookRequest) {
    r.hasSignature && r.eventId.Some? && r.authentic && r.payload.Some?
  }

  predicate ValidCapture(r: WebhookRequest) {
    Valid(r) && r.payload.value.event == CAPTURED_EVENT
  }

  function Rejection(r: WebhookRequest): Response
    requires !Valid(r)
  {
    if !r.hasSignature || r.eventId.None? then ServerError
    else if !r.authentic then BadRequest
    else ServerError
  }

  function RowOf(r: WebhookRequest): Row
    requires Valid(r)
  {
    Row(r.payload.value.payment, FromWebhook(r.eventId.value))
  }

  // ------------------------------------------------------------ what the handlers do

  /** The corrected handler. */
  function FixedHandler(s: State, r: WebhookRequest): (State, Response) {
    if !Valid(r) then (s, Rejection(r))
    else
      var e := r.eventId.value;
      if e in s.processed then (s, Duplicate)
      else if e in s.tables.claimed then (s.(processed := s.processed + {e}), Duplicate)
      else
        var s1 := s.(processed := s.processed + {e}, tables := s.tables.(claimed := s.tables.claimed + {e}));
        if r.payload.value.event == CAPTURED_EVENT then
          (s1.(paymentStatus := "captured",
               tables := s1.tables.(roster := s1.tables.roster + [RowOf(r)], passes := s1.tables.passes + [RowOf(r)])),
           Captured)
        else (s1, Ignored)
  }

  /** The wrong twin: value first, duplicate detection after. */
  function VulnerableHandler(s: State, r: WebhookRequest): (State, Response) {
    if !Valid(r) then (s, Rejection(r))
    else if r.payload.value.event != CAPTURED_EVENT then (s, Ignored)
    else
      var e := r.eventId.value;
      (State(s.processed + {e}, "captured", s.orderStatus,
             Tables(if e in s.processed then s.tables.claimed else s.tables.claimed + {e},
                    s.tables.roster + [RowOf(r)], s.tables.passes + [RowOf(r)])),
       CapturedTwin(e in s.processed || e in s.tables.claimed))
  }

  /** The corrected handler with the in-memory check deleted. */
  function DatabaseOnlyHandler(t: Tables, r: WebhookRequest): (Tables, Response) {
    if !Valid(r) then (t, Rejection(r))
    else
      var e := r.eventId.value;
      if e in t.claimed then (t, Duplicate)
      else if r.payload.value.event == CAPTURED_EVENT then
        (Tables(t.claimed + {e}, t.roster + [RowOf(r)], t.passes + [RowOf(r)]), Captured)
      else (t.(claimed := t.claimed + {e}), Ignored)
  }

  function CheckoutHandler(s: State, orderId: string, r: CheckoutRequest): (State, Response) {
    if r.orderId != orderId || !r.authentic then (s, BadRequest)
    else (s.(orderStatus := "captured",
             tables := s.tables.(passes := s.tables.passes + [Row(r.payment, FromCheckout)])), Captured)
  }

  // ------------------------------------------------------------ the process

  class MerchantProcess {
    const database: Database
    const serverOrderId: string
    var processedEventIds: set<EventId>
    var merchantPaymentStatus: string
    var merchantOrderStatus: string

    function Snapshot(): State
      reads this, database
    {
      State(processedEventIds, merchantPaymentStatus, merchantOrderStatus, database.Contents())
    }

    /** A start, or a restart: memory is empty, the database is whatever it was. */
    constructor (database: Database, serverOrderId: string)
      ensures this.database == database && this.serverOrderId == serverOrderId
      ensures Snapshot() == State({}, "created", "created", database.Contents())
    {
      this.database, this.serverOrderId := database, serverOrderId;
      processedEventIds, merchantPaymentStatus, merchantOrderStatus := {}, "created", "created";
    }

    method RazorpayWebhook(r: WebhookRequest) returns (response: Response)
      modifies this, database
      ensures (Snapshot(), response) == FixedHandler(old(Snapshot()), r)
    {
      if !r.hasSignature || r.eventId.None? {
        return ServerError;
      }
      var eventId := r.eventId.value;
      if !r.authentic {
        return BadRequest;
      }
      if r.payload.None? {
        return ServerError;
      }
      var Payload(event, payment) := r.payload.value;
      if eventId in processedEventIds {
        return Duplicate;
      }
      var claimed := database.ClaimWebhookEvent(eventId);
      if !claimed {
        processedEventIds := processedEventIds + {eventId};
        assert database.claimed == old(database.claimed);
        return Duplicate;
      }
      processedEventIds := processedEventIds + {eventId};
      if event == CAPTURED_EVENT {
        merchantPaymentStatus := "captured";
        var _ := database.RecordRosterBinding(payment, FromWebhook(eventId));
        var _ := database.RecordAdmissionPass(payment, FromWebhook(eventId));
        return Captured;
      }
      return Ignored;
    }

    method RazorpayWebhookVulnerable(r: WebhookRequest) returns (response: Response)
      modifies this, database
      ensures (Snapshot(), response) == VulnerableHandler(old(Snapshot()), r)
    {
      if !r.hasSignature || r.eventId.None? {
        return ServerError;
      }
      var eventId := r.eventId.value;
      if !r.authentic {
        return BadRequest;
      }
      if r.payload.None? {
        return ServerError;
      }
      var Payload(event, payment) := r.payload.value;
      if event == CAPTURED_EVENT {
        merchantPaymentStatus := "captured";
        var _ := database.RecordRosterBinding(payment, FromWebhook(eventId));
        var _ := database.RecordAdmissionPass(payment, FromWebhook(eventId));
        var duplicate := true;
        if eventId in processedEventIds {
          assert processedEventIds + {eventId} == processedEventIds;
        } else {
          var claimed := database.ClaimWebhookEvent(eventId);
          processedEventIds := processedEventIds + {eventId};
          duplicate := !claimed;
        }
        return CapturedTwin(duplicate);
      }
      return Ignored;
    }

    method CheckoutComplete(r: CheckoutRequest) returns (response: Response)
      modifies this, database
      ensures (Snapshot(), response) == CheckoutHandler(old(Snapshot()), serverOrderId, r)
    {
      if r.orderId != serverOrderId {
        return BadRequest;
      }
      if !r.authentic {
        return BadRequest;
      }
      merchantOrderStatus := "captured";
      var _ := database.RecordAdmissionPass(r.payment, FromCheckout);
      return Captured;
    }
  }

  // ------------------------------------------------------------ sequential runs

  type ProcessId = nat

  /** One completed request at one process, or a restart of one process. */
  datatype Operation =
    | Deliver(process: ProcessId, request: WebhookRequest)
    | Checkout(process: ProcessId, checkout: CheckoutRequest)
    | Restart(process: ProcessId)

  /** Any number of processes, their memories, and the shared tables. */
  datatype Deployment = Deployment(memory: map<ProcessId, set<EventId>>, tables: Tables)

  function Memory(d: Deployment, p: ProcessId): set<EventId> {
    if p in d.memory then d.memory[p] else {}
  }

  function StateAt(d: Deployment, p: ProcessId): State {
    State(Memory(d, p), "created", "created", d.tables)
  }

  function Apply(fixed: bool, orderId: string, d: Deployment, op: Operation): (Deployment, Response) {
    match op
    case Deliver(p, r) =>
      var (s, response) := if fixed then FixedHandler(StateAt(d, p), r) else VulnerableHandler(StateAt(d, p), r);
      (Deployment(d.memory[p := s.processed], s.tables), response)
    case Checkout(p, c) =>
      var (s, response) := CheckoutHandler(StateAt(d, p), orderId, c);
      (d.(tables := s.tables), response)
    case Restart(p) => (d.(memory := d.memory - {p}), Ignored)
  }

  /** Final deployment and the responses, in order. */
  function Run(fixed: bool, orderId: string, d: Deployment, ops: seq<Operation>): (Deployment, seq<Response>) {
    if ops == [] then (d, [])
    else
      var (d1, responses) := Run(fixed, orderId, d, ops[..|ops| - 1]);
      var (d2, response) := Apply(fixed, orderId, d1, ops[|ops| - 1]);
      (d2, responses + [response])
  }

  function ApplyDatabaseOnly(orderId: string, t: Tables, op: Operation): (Tables, Response) {
    match op
    case Deliver(_, r) => DatabaseOnlyHandler(t, r)
    case Checkout(_, c) =>
      var (s, response) := CheckoutHandler(State({}, "created", "created", t), orderId, c);
      (s.tables, response)
    case Restart(_) => (t, Ignored)
  }

  function RunDatabaseOnly(orderId: string, t: Tables, ops: seq<Operation>): (Tables, seq<Response>) {
    if ops == [] then (t, [])
    else
      var (t1, responses) := RunDatabaseOnly(orderId, t, ops[..|ops| - 1]);
      var (t2, response) := ApplyDatabaseOnly(orderId, t1, ops[|ops| - 1]);
      (t2, responses + [response])
  }

  /** Every process remembers only events the store has claimed. */
  ghost predicate MemoryIsCache(d: Deployment) {
    forall p :: Memory(d, p) <= d.tables.claimed
  }

  /** The in-memory set changes no response and no table, in any run with any restarts. */
  lemma {:induction false} MemoryIsOnlyACache(orderId: string, d: Deployment, ops: seq<Operation>)
    requires MemoryIsCache(d)
    ensures MemoryIsCache(Run(true, orderId, d, ops).0)
    ensures (Run(true, orderId, d, ops).0.tables, Run(true, orderId, d, ops).1)
            == RunDatabaseOnly(orderId, d.tables, ops)
  {
    if ops != [] {
      MemoryIsOnlyACache(orderId, d, ops[..|ops| - 1]);
      var d1 := Run(true, orderId, d, ops[..|ops| - 1]).0;
      StepKeepsCache(orderId, d1, ops[|ops| - 1]);
    }
  }

  lemma StepKeepsCache(orderId: string, d: Deployment, op: Operation)
    requires MemoryIsCache(d)
    ensures MemoryIsCache(Apply(true, orderId, d, op).0)
    ensures (Apply(true, orderId, d, op).0.tables, Apply(true, orderId, d, op).1)
            == ApplyDatabaseOnly(orderId, d.tables, op)
  {
    if op.Deliver? {
      assert Memory(d, op.process) <= d.tables.claimed;
    }
    var after := Apply(true, orderId, d, op).0;
    forall p
      ensures Memory(after, p) <= after.tables.claimed
    {
      assert Memory(d, p) <= d.tables.claimed;
    }
  }

  // ------------------------------------------------------------ counting

  /** Positions of valid captured deliveries. */
  function CapturePositions(ops: seq<Operation>): set<nat> {
    set i: nat | i < |ops| && ops[i].Deliver? && ValidCapture(ops[i].request)
  }

  predicate DeliversEvent(op: Operation, e: EventId) {
    op.Deliver? && Valid(op.request) && op.request.eventId.value == e
  }

  /** The event of the delivery at `i` was claimed before the run or validly delivered earlier in it. */
  predicate Stale(claimed: set<EventId>, ops: seq<Operation>, i: nat)
    requires i < |ops| && ops[i].Deliver? && Valid(ops[i].request)
  {
    || ops[i].request.eventId.value in claimed
    || exists j: nat :: j < i && DeliversEvent(ops[j], ops[i].request.eventId.value)
  }

  ghost function FreshCaptures(claimed: set<EventId>, ops: seq<Operation>): set<nat> {
    set i | i in CapturePositions(ops) && !Stale(claimed, ops, i)
  }

  ghost function StaleCaptures(claimed: set<EventId>, ops: seq<Operation>): set<nat> {
    set i | i in CapturePositions(ops) && Stale(claimed, ops, i)
  }

  /** After any run, exactly the initial and the validly delivered events are claimed. */
  lemma {:induction false} ClaimedAfter(orderId: string, t: Tables, ops: seq<Operation>, e: EventId)
    ensures e in RunDatabaseOnly(orderId, t, ops).0.claimed
            <==> e in t.claimed || exists j: nat :: j < |ops| && DeliversEvent(ops[j], e)
  {
    if ops != [] {
      var k := |ops| - 1;
      ClaimedAfter(orderId, t, ops[..k], e);
      if exists j: nat :: j < |ops| && DeliversEvent(ops[j], e) {
        var j: nat :| j < |ops| && DeliversEvent(ops[j], e);
        assert j == k || (j < k && DeliversEvent(ops[..k][j], e));
      }
      if exists j: nat :: j < k && DeliversEvent(ops[..k][j], e) {
        var j: nat :| j < k && DeliversEvent(ops[..k][j], e);
        assert DeliversEvent(ops[j], e);
      }
    }
  }

  lemma CapturesOfPrefix(claimed: set<EventId>, ops: seq<Operation>)
    requires ops != []
    ensures var k := |ops| - 1;
            var last := if k in CapturePositions(ops) then {k} else {};
            && CapturePositions(ops) == CapturePositions(ops[..k]) + last
            && FreshCaptures(claimed, ops)
               == FreshCaptures(claimed, ops[..k]) + (if k in FreshCaptures(claimed, ops) then {k} else {})
            && k !in CapturePositions(ops[..k])
  {
    var k := |ops| - 1;
    forall i: nat | i < k && i in CapturePositions(ops[..k])
      ensures Stale(claimed, ops, i) == Stale(claimed, ops[..k], i)
    {
      var e := ops[i].request.eventId.value;
      assert forall j: nat :: j < i ==> ops[..k][j] == ops[j];
      if exists j: nat :: j < i && DeliversEvent(ops[j], e) {
        var j: nat :| j < i && DeliversEvent(ops[j], e);
        assert DeliversEvent(ops[..k][j], e);
      }
    }
  }

  lemma LastIsStaleIffClaimed(orderId: string, t: Tables, ops: seq<Operation>)
    requires ops != [] && |ops| - 1 in CapturePositions(ops)
    ensures var k := |ops| - 1;
            Stale(t.claimed, ops, k)
            <==> ops[k].request.eventId.value in RunDatabaseOnly(orderId, t, ops[..k]).0.claimed
  {
    var k: nat := |ops| - 1;
    var e := ops[k].request.eventId.value;
    ClaimedAfter(orderId, t, ops[..k], e);
    assert forall j: nat :: j < k ==> ops[..k][j] == ops[j];
    if exists j: nat :: j < k && DeliversEvent(ops[j], e) {
      var j: nat :| j < k && DeliversEvent(ops[j], e);
      assert DeliversEvent(ops[..k][j], e);
    }
  }

  /** The corrected handler mints one pass and binds one roster row per fresh capture. */
  lemma {:induction false} DatabaseOnlyPasses(orderId: string, t: Tables, ops: seq<Operation>)
    ensures WebhookRows(RunDatabaseOnly(orderId, t, ops).0.passes)
            == WebhookRows(t.passes) + |FreshCaptures(t.claimed, ops)|
    ensures WebhookRows(RunDatabaseOnly(orderId, t, ops).0.roster)
            == WebhookRows(t.roster) + |FreshCaptures(t.claimed, ops)|
  {
    if ops == [] {
      assert FreshCaptures(t.claimed, ops) == {};
    } else {
      var k := |ops| - 1;
      var op := ops[k];
      var before := RunDatabaseOnly(orderId, t, ops[..k]).0;
      DatabaseOnlyPasses(orderId, t, ops[..k]);
      CapturesOfPrefix(t.claimed, ops);
      if k in CapturePositions(ops) {
        LastIsStaleIffClaimed(orderId, t, ops);
        WebhookRowsAppend(before.passes, RowOf(op.request));
        WebhookRowsAppend(before.roster, RowOf(op.request));
      } else if op.Checkout? {
        WebhookRowsAppend(before.passes, Row(op.checkout.payment, FromCheckout));
      }
    }
  }

  lemma VulnerableStep(orderId: string, d: Deployment, op: Operation)
    ensures var after := Apply(false, orderId, d, op).0.tables;
            var minted := if op.Deliver? && ValidCapture(op.request) then 1 else 0;
            && WebhookRows(after.passes) == WebhookRows(d.tables.passes) + minted
            && WebhookRows(after.roster) == WebhookRows(d.tables.roster) + minted
  {
    if op.Deliver? && ValidCapture(op.request) {
      WebhookRowsAppend(d.tables.passes, RowOf(op.request));
      WebhookRowsAppend(d.tables.roster, RowOf(op.request));
    } else if op.Checkout? {
      WebhookRowsAppend(d.tables.passes, Row(op.checkout.payment, FromCheckout));
    }
  }

  /** The wrong twin mints one pass per valid capture, stale or not. */
  lemma {:induction false} VulnerablePasses(orderId: string, d: Deployment, ops: seq<Operation>)
    ensures WebhookRows(Run(false, orderId, d, ops).0.tables.passes)
            == WebhookRows(d.tables.passes) + |CapturePositions(ops)|
    ensures WebhookRows(Run(false, orderId, d, ops).0.tables.roster)
            == WebhookRows(d.tables.roster) + |CapturePositions(ops)|
  {
    if ops == [] {
      assert CapturePositions(ops) == {};
    } else {
      var k := |ops| - 1;
      VulnerablePasses(orderId, d, ops[..k]);
      CapturesOfPrefix({}, ops);
      VulnerableStep(orderId, Run(false, orderId, d, ops[..k]).0, ops[k]);
    }
  }

  /** On every run with restarts the twin mints exactly one extra pass, and binds exactly one extra
      roster row, per stale capture. */
  lemma ExtraPassesOfTheTwin(orderId: string, d: Deployment, ops: seq<Operation>)
    requires MemoryIsCache(d)
    ensures var fixed := Run(true, orderId, d, ops).0.tables;
            var twin := Run(false, orderId, d, ops).0.tables;
            && WebhookRows(twin.passes) == WebhookRows(fixed.passes) + |StaleCaptures(d.tables.claimed, ops)|
            && WebhookRows(twin.roster) == WebhookRows(fixed.roster) + |StaleCaptures(d.tables.claimed, ops)|
  {
    MemoryIsOnlyACache(orderId, d, ops);
    DatabaseOnlyPasses(orderId, d.tables, ops);
    VulnerablePasses(orderId, d, ops);
    var first, stale := FreshCaptures(d.tables.claimed, ops), StaleCaptures(d.tables.claimed, ops);
    assert CapturePositions(ops) == first + stale && first !! stale;
  }

  /** The event's first valid delivery in the run, if any. */
  function FirstDelivery(ops: seq<Operation>, e: EventId): Option<nat> {
    if ops == [] then None
    else
      var k := |ops| - 1;
      match FirstDelivery(ops[..k], e)
      case Some(i) => Some(i)
      case None => if DeliversEvent(ops[k], e) then Some(k) else None
  }

  lemma {:induction false} FirstDeliveryIsFirst(ops: seq<Operation>, e: EventId)
    ensures match FirstDelivery(ops, e)
            case Some(i) => i < |ops| && DeliversEvent(ops[i], e)
                            && forall j: nat :: j < i ==> !DeliversEvent(ops[j], e)
            case None => forall j: nat :: j < |ops| ==> !DeliversEvent(ops[j], e)
  {
    if ops != [] {
      var k := |ops| - 1;
      FirstDeliveryIsFirst(ops[..k], e);
      assert forall j: nat :: j < k ==> ops[..k][j] == ops[j];
      assert forall j: nat :: j < k && !DeliversEvent(ops[..k][j], e) ==> !DeliversEvent(ops[j], e);
    }
  }

  /** Initially unclaimed events whose first valid delivery is a capture. */
  ghost function NewlyCaptured(claimed: set<EventId>, ops: seq<Operation>): set<EventId> {
    set i | i in CapturePositions(ops)
            && ops[i].request.eventId.value !in claimed
            && FirstDelivery(ops, ops[i].request.eventId.value) == Some(i)
      :: ops[i].request.eventId.value
  }

  lemma SameSize<A, B>(a: set<A>, b: set<B>, f: A -> B)
    requires forall x, y :: x in a && y in a && f(x) == f(y) ==> x == y
    requires b == set x | x in a :: f(x)
    ensures |a| == |b|
  {
    if a == {} {
      assert b == {};
    } else {
      var x :| x in a;
      assert f(x) in b;
      var a', b' := a - {x}, b - {f(x)};
      assert b' == set y | y in a' :: f(y);
      SameSize(a', b', f);
    }
  }

  /** Webhook passes added by the corrected handler, over any run of any processes with restarts:
      one per initially unclaimed event whose first valid delivery is `payment.captured`. */
  lemma PassesCountNewlyCapturedEvents(orderId: string, d: Deployment, ops: seq<Operation>)
    requires MemoryIsCache(d)
    ensures WebhookRows(Run(true, orderId, d, ops).0.tables.passes)
            == WebhookRows(d.tables.passes) + |NewlyCaptured(d.tables.claimed, ops)|
  {
    MemoryIsOnlyACache(orderId, d, ops);
    DatabaseOnlyPasses(orderId, d.tables, ops);
    var claimed := d.tables.claimed;
    var eventAt := (i: nat) => if i < |ops| && ops[i].Deliver? && ops[i].request.eventId.Some?
                               then ops[i].request.eventId.value else "";
    var first := FreshCaptures(claimed, ops);
    forall i: nat | i in CapturePositions(ops)
      ensures i in first <==> eventAt(i) !in claimed && FirstDelivery(ops, eventAt(i)) == Some(i)
    {
      FirstDeliveryIsFirst(ops, eventAt(i));
      assert DeliversEvent(ops[i], eventAt(i));
    }
    assert NewlyCaptured(claimed, ops) == set i | i in first :: eventAt(i);
    SameSize(first, NewlyCaptured(claimed, ops), eventAt);
  }

  /** All valid deliveries carry different, initially unclaimed event IDs. */
  ghost predicate DistinctUnclaimed(claimed: set<EventId>, ops: seq<Operation>) {
    forall i: nat :: i < |ops| && ops[i].Deliver? && Valid(ops[i].request) ==> !Stale(claimed, ops, i)
  }

  /** Without duplicates the twin is indistinguishable by its roster and pass tables. */
  lemma {:induction false} TwinAgreesOnDistinctEvents(orderId: string, d: Deployment, ops: seq<Operation>)
    requires MemoryIsCache(d) && DistinctUnclaimed(d.tables.claimed, ops)
    ensures var fixed := Run(true, orderId, d, ops).0.tables;
            var twin := Run(false, orderId, d, ops).0.tables;
            fixed.roster == twin.roster && fixed.passes == twin.passes
  {
    if ops != [] {
      var k: nat := |ops| - 1;
      assert forall j: nat :: j < k ==> ops[..k][j] == ops[j];
      forall i: nat | i < k && ops[..k][i].Deliver? && Valid(ops[..k][i].request)
        ensures !Stale(d.tables.claimed, ops[..k], i)
      {
        assert !Stale(d.tables.claimed, ops, i);
        var e := ops[i].request.eventId.value;
        assert forall j: nat :: j < i ==> (DeliversEvent(ops[..k][j], e) <==> DeliversEvent(ops[j], e));
      }
      TwinAgreesOnDistinctEvents(orderId, d, ops[..k]);
      MemoryIsOnlyACache(orderId, d, ops[..k]);
      if k in CapturePositions(ops) {
        LastIsStaleIffClaimed(orderId, d.tables, ops);
        var d1 := Run(true, orderId, d, ops[..k]).0;
        assert Memory(d1, ops[k].process) <= d1.tables.claimed;
      }
    }
  }
}
