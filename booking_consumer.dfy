/** The booking participant's `ConsumerService`: it completes a saga instance
    when the payment decision arrives, and reacts to the catalog's cancellation
    and update events. */
module BookingConsumer {
  import opened Common
  import opened BookingModel
  import EventModel
  import opened BookingRepository
  import opened Bus

  // ---------------------------------------------------------------------------
  // processPayment
  // ---------------------------------------------------------------------------

  /** The status a payment decision gives a booking: exactly "APPROVED" confirms,
      any other string rejects. */
  function DecisionStatus(status: string): (s: BookingStatus)
    ensures s == CONFIRMED <==> status == "APPROVED"
    ensures s == CONFIRMED || s == REJECTED
  {
    if status == "APPROVED" then CONFIRMED else REJECTED
  }

  /** The booking table after a payment decision: the referenced booking, if it
      exists, gets the decision's status whatever its current status is. */
  function ApplyPayment(rows: seq<Booking>, p: PaymentView): seq<Booking>
  {
    if p.bookingID.None? then rows
    else match Find(rows, p.bookingID.value)
      case None => rows
      case Some(b) => Replace(rows, b.(status := DecisionStatus(p.status)))
  }

  /** `processPayment`. An absent or unknown booking reference changes nothing. */
  method ProcessPayment(db: BookingDb, p: PaymentView)
    requires db.Valid()
    modifies db
    ensures db.Valid()
    ensures db.rows == ApplyPayment(old(db.rows), p)
  {
    if p.bookingID.None? {
      return;
    }
    var found := Find(db.rows, p.bookingID.value);
    if found.None? {
      return;
    }
    var booking := found.value;
    if p.status == "APPROVED" {
      booking := booking.(status := CONFIRMED);
      db.Save(booking);
    } else {
      booking := booking.(status := REJECTED);
      db.Save(booking);
    }
  }

  /** A decision touches only the booking it names, keeps all its other fields,
      and leaves the set of bookings the same. */
  lemma ApplyPaymentEffect(rows: seq<Booking>, p: PaymentView)
    requires UniqueIds(rows)
    ensures |ApplyPayment(rows, p)| == |rows|
    ensures forall k :: 0 <= k < |rows| ==>
      ApplyPayment(rows, p)[k] ==
        if p.bookingID == Some(rows[k].id) then rows[k].(status := DecisionStatus(p.status)) else rows[k]
  {
    if p.bookingID.Some? {
      var f := Find(rows, p.bookingID.value);
      if f.Some? {
        forall k | 0 <= k < |rows| && rows[k].id == p.bookingID.value ensures f.value == rows[k] {
        }
      }
    }
  }

  /** There is no guard on the booking's current status: a decision arriving for
      a booking that was cancelled in the meantime overwrites CANCELLED. */
  lemma DecisionOverridesCancelled(rows: seq<Booking>, k: nat, p: PaymentView)
    requires UniqueIds(rows) && k < |rows| && rows[k].status == CANCELLED
    requires p.bookingID == Some(rows[k].id)
    ensures ApplyPayment(rows, p)[k].status != CANCELLED
    ensures p.status == "APPROVED" ==> ApplyPayment(rows, p)[k].status == CONFIRMED
  {
    ApplyPaymentEffect(rows, p);
  }

  /** Redelivering the same decision leaves the table as the first delivery did. */
  lemma {:induction false} ApplyPaymentIdempotent(rows: seq<Booking>, p: PaymentView)
    requires UniqueIds(rows)
    ensures ApplyPayment(ApplyPayment(rows, p), p) == ApplyPayment(rows, p)
  {
    var once := ApplyPayment(rows, p);
    ApplyPaymentEffect(rows, p);
    if p.bookingID.Some? && p.bookingID.value in Ids(rows) {
      var b := Find(rows, p.bookingID.value).value;
      assert once == Upsert(rows, b.(status := DecisionStatus(p.status)));
      ApplyPaymentEffect(once, p);
    } else {
      assert once == rows;
    }
  }

  // ---------------------------------------------------------------------------
  // processEventCancelled
  // ---------------------------------------------------------------------------

  function Cancelled(b: Booking): Booking
  {
    b.(status := CANCELLED)
  }

  /** The snapshots published after the cascade: each booking of the list with
      its status set to CANCELLED. */
  function CancelledCopies(bs: seq<Booking>): (r: seq<Booking>)
    ensures |r| == |bs|
    ensures forall k :: 0 <= k < |bs| ==> r[k] == bs[k].(status := CANCELLED)
  {
    seq(|bs|, k requires 0 <= k < |bs| => Cancelled(bs[k]))
  }

  /** The table with every booking whose id is in `ids` cancelled. */
  function CancelIds(rows: seq<Booking>, ids: set<Uuid>): (r: seq<Booking>)
    ensures |r| == |rows|
    ensures forall k :: 0 <= k < |rows| ==> r[k] == if rows[k].id in ids then Cancelled(rows[k]) else rows[k]
  {
    seq(|rows|, k requires 0 <= k < |rows| => if rows[k].id in ids then Cancelled(rows[k]) else rows[k])
  }

  /** The table after the cascade: every active booking of the event cancelled. */
  function CancelActive(rows: seq<Booking>, eventID: Uuid): (r: seq<Booking>)
    ensures |r| == |rows|
    ensures forall k :: 0 <= k < |rows| ==> r[k] == if ActiveFor(rows[k], eventID) then Cancelled(rows[k]) else rows[k]
  {
    seq(|rows|, k requires 0 <= k < |rows| => if ActiveFor(rows[k], eventID) then Cancelled(rows[k]) else rows[k])
  }

  /** Saving one more cancelled copy of a stored booking extends the set of
      cancelled ids by its id. */
  lemma CancelIdsStep(rows: seq<Booking>, ids: set<Uuid>, b: Booking)
    requires UniqueIds(rows) && b in rows
    ensures Upsert(CancelIds(rows, ids), Cancelled(b)) == CancelIds(rows, ids + {b.id})
  {
    var cur := CancelIds(rows, ids);
    var i :| 0 <= i < |rows| && rows[i] == b;
    assert cur[i].id == b.id;
    assert Upsert(cur, Cancelled(b)) == Replace(cur, Cancelled(b));
    forall k | 0 <= k < |rows| ensures Replace(cur, Cancelled(b))[k] == CancelIds(rows, ids + {b.id})[k] {
      if rows[k].id == b.id { assert k == i; }
    }
  }

  /** Cancelling the ids of the active list is cancelling the active bookings. */
  lemma CancelIdsOfActive(rows: seq<Booking>, eventID: Uuid)
    requires UniqueIds(rows)
    ensures CancelIds(rows, IdsOf(ActiveEventBookings(rows, eventID))) == CancelActive(rows, eventID)
  {
    var active := ActiveEventBookings(rows, eventID);
    forall k | 0 <= k < |rows| ensures (rows[k].id in IdsOf(active)) == ActiveFor(rows[k], eventID) {
      if ActiveFor(rows[k], eventID) {
        assert rows[k] in active;
        var j :| 0 <= j < |active| && active[j] == rows[k];
        assert active[j].id == rows[k].id;
      }
      if rows[k].id in IdsOf(active) {
        var j :| 0 <= j < |active| && active[j].id == rows[k].id;
        assert active[j] in rows;
        var i :| 0 <= i < |rows| && rows[i] == active[j];
      }
    }
  }

  function IdsOf(bs: seq<Booking>): set<Uuid>
  {
    set i | 0 <= i < |bs| :: bs[i].id
  }

  lemma IdsOfPrefix(bs: seq<Booking>, i: nat)
    requires i < |bs|
    ensures IdsOf(bs[..i + 1]) == IdsOf(bs[..i]) + {bs[i].id}
  {
    assert bs[..i + 1] == bs[..i] + [bs[i]];
    forall x | x in IdsOf(bs[..i + 1]) ensures x in IdsOf(bs[..i]) + {bs[i].id} {
      var j :| 0 <= j < i + 1 && bs[..i + 1][j].id == x;
      if j < i { assert bs[..i][j].id == x; }
    }
    forall x | x in IdsOf(bs[..i]) ensures x in IdsOf(bs[..i + 1]) {
      var j :| 0 <= j < i && bs[..i][j].id == x;
      assert bs[..i + 1][j].id == x;
    }
  }

  /** The key the native query binds: a message without an event id matches no
      row (`eventID = NULL` is never true). */
  function ActiveOf(rows: seq<Booking>, eventID: Option<Uuid>): (r: seq<Booking>)
    ensures eventID.None? ==> r == []
  {
    if eventID.None? then [] else ActiveEventBookings(rows, eventID.value)
  }

  /** `processEventCancelled`: every active booking of the event becomes
      CANCELLED, one save at a time, and the whole batch of cancelled snapshots
      is published once on "EventBookingsCancelled". No active booking: nothing
      happens and nothing is published. */
  method ProcessEventCancelled(db: BookingDb, bus: Outbox, event: EventModel.EventDto)
    requires db.Valid()
    modifies db, bus
    ensures db.Valid()
    ensures event.id.None? ==> db.rows == old(db.rows)
    ensures event.id.Some? ==> db.rows == CancelActive(old(db.rows), event.id.value)
    ensures var active := ActiveOf(old(db.rows), event.id);
      bus.sent == old(bus.sent) + (if active == [] then [] else [EventBookingsCancelled(CancelledCopies(active))])
  {
    var bookings := ActiveOf(db.rows, event.id);
    if bookings == [] {
      if event.id.Some? {
        assert CancelIds(db.rows, {}) == db.rows;
        assert IdsOf(bookings) == {};
        CancelIdsOfActive(db.rows, event.id.value);
      }
      return;
    }
    ghost var start := db.rows;
    var i := 0;
    while i < |bookings|
      invariant 0 <= i <= |bookings|
      invariant db.Valid()
      invariant db.rows == CancelIds(start, IdsOf(bookings[..i]))
      invariant bus.sent == old(bus.sent)
    {
      var booking := bookings[i].(status := CANCELLED);
      assert bookings[i] in start;
      CancelIdsStep(start, IdsOf(bookings[..i]), bookings[i]);
      db.Save(booking);
      IdsOfPrefix(bookings, i);
      i := i + 1;
    }
    assert bookings[..i] == bookings;
    CancelIdsOfActive(start, event.id.value);
    bus.Send(EventBookingsCancelled(CancelledCopies(bookings)));
  }

  /** After the cascade no booking of the event is active, so its participant
      count is zero; bookings of other events and inactive ones are untouched. */
  lemma {:induction false} CascadeLeavesNoActive(rows: seq<Booking>, eventID: Uuid)
    ensures ActiveEventBookings(CancelActive(rows, eventID), eventID) == []
    ensures ParticipantCount(CancelActive(rows, eventID), eventID) == 0
    ensures forall k :: 0 <= k < |rows| && !ActiveFor(rows[k], eventID) ==> CancelActive(rows, eventID)[k] == rows[k]
  {
    var after := CancelActive(rows, eventID);
    forall b | b in after ensures !ActiveFor(b, eventID) {
      var k :| 0 <= k < |after| && after[k] == b;
    }
    ParticipantCountIsActiveSize(after, eventID);
  }

  /** The cascade is idempotent: a redelivered "EventCancelled" finds nothing
      left to cancel. */
  lemma CascadeIdempotent(rows: seq<Booking>, eventID: Uuid)
    ensures CancelActive(CancelActive(rows, eventID), eventID) == CancelActive(rows, eventID)
  {
  }

  // ---------------------------------------------------------------------------
  // processEventUpdate
  // ---------------------------------------------------------------------------

  /** `processEventUpdate`: the snapshots of the event's active bookings are
      forwarded on "EventUpdatedBookings" when there are any; the table is not
      touched. */
  method ProcessEventUpdate(db: BookingDb, bus: Outbox, event: EventModel.EventDto)
    modifies bus
    ensures var active := ActiveOf(db.rows, event.id);
      bus.sent == old(bus.sent) + (if active == [] then [] else [EventUpdatedBookings(active)])
  {
    var bookings := ActiveOf(db.rows, event.id);
    if bookings == [] {
      return;
    }
    bus.Send(EventUpdatedBookings(bookings));
  }
}
