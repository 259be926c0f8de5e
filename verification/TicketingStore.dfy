/** The ticketing example's SQLite boundary: three tables, each touched by one committed statement. */
module TicketingStore {

  type EventId = string
  type PaymentId = string

  /** Which request caused a row. The tables store only the payment; the origin is what the
      properties count by. */
  datatype Origin = FromWebhook(event: EventId) | FromCheckout

  datatype Row = Row(payment: PaymentId, origin: Origin)

  datatype Tables = Tables(claimed: set<EventId>, roster: seq<Row>, passes: seq<Row>)

  /** Rows caused by webhook event `e`. */
  function RowsFor(rows: seq<Row>, e: EventId): nat {
    if rows == [] then 0
    else RowsFor(rows[..|rows| - 1], e) + (if rows[|rows| - 1].origin == FromWebhook(e) then 1 else 0)
  }

  /** Rows caused by any webhook. */
  function WebhookRows(rows: seq<Row>): nat {
    if rows == [] then 0
    else WebhookRows(rows[..|rows| - 1]) + (if rows[|rows| - 1].origin.FromWebhook? then 1 else 0)
  }

  lemma RowsForAppend(rows: seq<Row>, row: Row, e: EventId)
    ensures RowsFor(rows + [row], e) == RowsFor(rows, e) + (if row.origin == FromWebhook(e) then 1 else 0)
  {
    assert (rows + [row])[..|rows|] == rows;
  }

  lemma WebhookRowsAppend(rows: seq<Row>, row: Row)
    ensures WebhookRows(rows + [row]) == WebhookRows(rows) + (if row.origin.FromWebhook? then 1 else 0)
  {
    assert (rows + [row])[..|rows|] == rows;
  }

  /** The persistent store. Every method is one SQL statement in its own committed transaction. */
  class Database {
    var claimed: set<EventId>
    var roster: seq<Row>
    var passes: seq<Row>

    function Contents(): Tables
      reads this
    {
      Tables(claimed, roster, passes)
    }

    constructor ()
      ensures Contents() == Tables({}, [], [])
    {
      claimed, roster, passes := {}, [], [];
    }

    /** INSERT OR IGNORE: true exactly when this call inserted the event. */
    method ClaimWebhookEvent(event: EventId) returns (claimedNow: bool)
      modifies this
      ensures claimedNow == (event !in old(claimed))
      ensures Contents() == old(Contents()).(claimed := old(claimed) + {event})
    {
      claimedNow := event !in claimed;
      claimed := claimed + {event};
    }

    method RecordRosterBinding(payment: PaymentId, origin: Origin) returns (rowId: nat)
      modifies this
      ensures Contents() == old(Contents()).(roster := old(roster) + [Row(payment, origin)])
      ensures rowId == |roster| && roster[rowId - 1].payment == payment
    {
      roster := roster + [Row(payment, origin)];
      rowId := |roster|;
    }

    method RecordAdmissionPass(payment: PaymentId, origin: Origin) returns (passId: nat)
      modifies this
      ensures Contents() == old(Contents()).(passes := old(passes) + [Row(payment, origin)])
      ensures passId == |passes| && passes[passId - 1].payment == payment
    {
      passes := passes + [Row(payment, origin)];
      passId := |passes|;
    }
  }
}
