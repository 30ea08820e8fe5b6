/** The payment participant's `ConsumerService`: the decision step of the
    booking saga (debit the price if the balance covers it) and its
    compensation (refund by flipping the entry to REFUNDED). */
module PaymentConsumer {
  import opened Common
  import BookingModel
  import opened PaymentModel
  import opened PaymentRepository
  import opened Bus

  // ---------------------------------------------------------------------------
  // processBooking
  // ---------------------------------------------------------------------------

  /** The entry `processBooking` stores for a booking snapshot: a debit of the
      price for the booking's user and booking, APPROVED exactly when the
      balance before it covers the price, REJECTED otherwise. */
  function Charge(rows: seq<Payment>, b: BookingModel.Booking, newId: Uuid, now: Minutes): (p: Payment)
    ensures p.id == newId && p.amount == -b.price && p.userID == b.userID && p.bookingID == Some(b.id)
    ensures p.status == APPROVED <==> Balance(rows, b.userID) >= b.price
    ensures p.status == APPROVED || p.status == REJECTED
  {
    Payment(newId, -b.price, b.userID, Some(b.id),
            if Balance(rows, b.userID) >= b.price then APPROVED else REJECTED, now)
  }

  /** `processBooking`: one entry is stored whatever the decision, then its
      snapshot is published on "PaymentCreated". The balance query never yields
      null, so its null test plays no part. */
  method ProcessBooking(ledger: PaymentDb, bus: Outbox, b: BookingModel.Booking, newId: Uuid, now: Minutes)
    requires ledger.Valid() && newId !in Ids(ledger.rows)
    modifies ledger, bus
    ensures ledger.Valid()
    ensures ledger.rows == old(ledger.rows) + [Charge(old(ledger.rows), b, newId, now)]
    ensures bus.sent == old(bus.sent) + [PaymentCreated(Charge(old(ledger.rows), b, newId, now))]
  {
    var payment := Payment(newId, -b.price, b.userID, Some(b.id), REJECTED, now);
    var balance := Balance(ledger.rows, b.userID);
    if balance >= b.price {
      payment := payment.(status := APPROVED);
      ledger.Save(payment);
    } else {
      payment := payment.(status := REJECTED);
      ledger.Save(payment);
    }
    bus.Send(PaymentCreated(payment));
  }

  /** After an approval the user's balance drops by exactly the price; after a
      rejection, and for every other user, it is unchanged. */
  lemma ChargeBalance(rows: seq<Payment>, b: BookingModel.Booking, newId: Uuid, now: Minutes, userID: Uuid)
    ensures var p := Charge(rows, b, newId, now);
      Balance(rows + [p], userID)
        == Balance(rows, userID) - (if userID == b.userID && p.status == APPROVED then b.price else 0)
  {
    BalanceAppend(rows, Charge(rows, b, newId, now), userID);
  }

  /** A charge never takes a non-negative balance below zero. */
  lemma ChargeNeverOverdraws(rows: seq<Payment>, b: BookingModel.Booking, newId: Uuid, now: Minutes)
    requires Balance(rows, b.userID) >= 0
    ensures Balance(rows + [Charge(rows, b, newId, now)], b.userID) >= 0
  {
    ChargeBalance(rows, b, newId, now, b.userID);
  }

  /** There is no deduplication by booking: a redelivered "BookingCreated"
      stores and, if the balance allows, approves a second debit. */
  lemma RedeliveryChargesTwice(rows: seq<Payment>, b: BookingModel.Booking, id1: Uuid, id2: Uuid, now: Minutes)
    requires b.price >= 0 && Balance(rows, b.userID) >= 2 * b.price
    ensures var r1 := rows + [Charge(rows, b, id1, now)];
      var r2 := r1 + [Charge(r1, b, id2, now)];
      && Charge(rows, b, id1, now).status == APPROVED
      && Charge(r1, b, id2, now).status == APPROVED
      && Balance(r2, b.userID) == Balance(rows, b.userID) - 2 * b.price
  {
    var r1 := rows + [Charge(rows, b, id1, now)];
    ChargeBalance(rows, b, id1, now, b.userID);
    ChargeBalance(r1, b, id2, now, b.userID);
  }

  // ---------------------------------------------------------------------------
  // processBookingCancellation
  // ---------------------------------------------------------------------------

  predicate ApprovedFor(p: Payment, bookingID: Uuid)
  {
    p.bookingID == Some(bookingID) && p.status == APPROVED
  }

  /** The position of the first APPROVED entry of the booking, in the order
      `findByBookingID` lists them. */
  function FirstApproved(rows: seq<Payment>, bookingID: Uuid): (r: Option<nat>)
    ensures r.Some? ==> r.value < |rows| && ApprovedFor(rows[r.value], bookingID)
    ensures r.Some? ==> forall j :: 0 <= j < r.value ==> !ApprovedFor(rows[j], bookingID)
    ensures r.None? <==> forall j :: 0 <= j < |rows| ==> !ApprovedFor(rows[j], bookingID)
  {
    if rows == [] then None
    else if ApprovedFor(rows[0], bookingID) then Some(0)
    else match FirstApproved(rows[1..], bookingID)
      case None => None
      case Some(k) => Some(k + 1)
  }

  /** The ledger after a cancellation: the first APPROVED entry of the booking,
      if any, becomes REFUNDED with its amount unchanged; every other entry
      stays as it was. */
  function Refund(rows: seq<Payment>, bookingID: Uuid): (r: seq<Payment>)
    ensures |r| == |rows|
    ensures forall j :: 0 <= j < |rows| ==>
      r[j] == rows[j] || (ApprovedFor(rows[j], bookingID) && r[j] == rows[j].(status := REFUNDED))
    ensures forall i, j :: 0 <= i < |rows| && 0 <= j < |rows| && r[i] != rows[i] && r[j] != rows[j] ==> i == j
    ensures (forall j :: 0 <= j < |rows| ==> !ApprovedFor(rows[j], bookingID)) ==> r == rows
    ensures var k := FirstApproved(rows, bookingID); k.Some? ==> r[k.value].status == REFUNDED
  {
    match FirstApproved(rows, bookingID)
    case None => rows
    case Some(k) => rows[k := rows[k].(status := REFUNDED)]
  }

  /** `processBookingCancellation`. */
  method ProcessBookingCancellation(ledger: PaymentDb, b: BookingModel.Booking)
    requires ledger.Valid()
    modifies ledger
    ensures ledger.Valid()
    ensures ledger.rows == Refund(old(ledger.rows), b.id)
  {
    var k := FirstApproved(ledger.rows, b.id);
    if k.Some? {
      var payment := ledger.rows[k.value].(status := REFUNDED);
      ledger.Save(payment);
    }
  }

  ghost predicate AtMostOneApproved(rows: seq<Payment>, bookingID: Uuid)
  {
    forall i, j ::
      0 <= i < |rows| && 0 <= j < |rows| && ApprovedFor(rows[i], bookingID) && ApprovedFor(rows[j], bookingID)
      ==> i == j
  }

  /** A refund only ever turns APPROVED into REFUNDED, so it creates no
      APPROVED entry for any booking. */
  lemma RefundShrinksApproved(rows: seq<Payment>, x: Uuid, y: Uuid)
    ensures forall j :: 0 <= j < |rows| && ApprovedFor(Refund(rows, x)[j], y) ==> ApprovedFor(rows[j], y)
  {
  }

  /** With at most one APPROVED entry for the booking, a repeated cancellation
      finds none and changes nothing. */
  lemma RefundIdempotent(rows: seq<Payment>, bookingID: Uuid)
    requires AtMostOneApproved(rows, bookingID)
    ensures Refund(Refund(rows, bookingID), bookingID) == Refund(rows, bookingID)
  {
    RefundClearsOne(rows, bookingID);
  }

  /** A refund raises the owner's balance by the refunded debit and leaves every
      other user's balance unchanged. */
  lemma RefundBalance(rows: seq<Payment>, bookingID: Uuid, userID: Uuid)
    ensures var k := FirstApproved(rows, bookingID);
      Balance(Refund(rows, bookingID), userID)
        == Balance(rows, userID) - (if k.Some? && rows[k.value].userID == userID then rows[k.value].amount else 0)
  {
    var k := FirstApproved(rows, bookingID);
    if k.Some? {
      BalanceUpdate(rows, k.value, rows[k.value].(status := REFUNDED), userID);
    }
  }

  /** The saga's compensation undoes its decision: charging a new booking and
      then cancelling it leaves every balance as it was, whether the charge was
      approved or rejected. */
  lemma ChargeThenRefund(rows: seq<Payment>, b: BookingModel.Booking, newId: Uuid, now: Minutes, userID: Uuid)
    requires forall j :: 0 <= j < |rows| ==> !ApprovedFor(rows[j], b.id)
    ensures Balance(Refund(rows + [Charge(rows, b, newId, now)], b.id), userID) == Balance(rows, userID)
  {
    var p := Charge(rows, b, newId, now);
    var after := rows + [p];
    var k := FirstApproved(after, b.id);
    if k.None? {
      // the charge was rejected: nothing is refunded and the charge counts for nothing
      assert !ApprovedFor(after[|rows|], b.id);
      BalanceAppend(rows, p, userID);
    } else {
      // the approved charge is the booking's only APPROVED entry, and it is refunded
      assert forall j :: 0 <= j < |rows| ==> after[j] == rows[j];
      assert k.value == |rows|;
      var q := p.(status := REFUNDED);
      assert Refund(after, b.id) == rows + [q];
      BalanceAppend(rows, q, userID);
    }
  }

  // ---------------------------------------------------------------------------
  // processEventBookingsCancelled
  // ---------------------------------------------------------------------------

  /** The single-booking refund applied to each id of the batch, in order. */
  function RefundAll(rows: seq<Payment>, ids: seq<Uuid>): (r: seq<Payment>)
    ensures |r| == |rows|
  {
    if ids == [] then rows else Refund(RefundAll(rows, ids[..|ids| - 1]), ids[|ids| - 1])
  }

  function IdList(bs: seq<BookingModel.Booking>): (ids: seq<Uuid>)
    ensures |ids| == |bs| && forall k :: 0 <= k < |bs| ==> ids[k] == bs[k].id
  {
    seq(|bs|, k requires 0 <= k < |bs| => bs[k].id)
  }

  /** `processEventBookingsCancelled`: each booking id of the batch gets the
      refund of `processBookingCancellation`. */
  method ProcessEventBookingsCancelled(ledger: PaymentDb, bookings: seq<BookingModel.Booking>)
    requires ledger.Valid()
    modifies ledger
    ensures ledger.Valid()
    ensures ledger.rows == RefundAll(old(ledger.rows), IdList(bookings))
  {
    var ids := IdList(bookings);
    var i := 0;
    while i < |bookings|
      invariant 0 <= i <= |bookings|
      invariant ledger.Valid()
      invariant ledger.rows == RefundAll(old(ledger.rows), ids[..i])
    {
      var bookingID := bookings[i].id;
      var k := FirstApproved(ledger.rows, bookingID);
      if k.Some? {
        var payment := ledger.rows[k.value].(status := REFUNDED);
        ledger.Save(payment);
      }
      assert ids[..i + 1][..i] == ids[..i];
      i := i + 1;
    }
    assert ids[..i] == ids;
  }

  /** When each cancelled booking had at most one APPROVED entry, none of them
      has an APPROVED entry left after the batch. */
  lemma {:induction false} RefundAllClears(rows: seq<Payment>, ids: seq<Uuid>)
    requires forall k :: 0 <= k < |ids| ==> AtMostOneApproved(rows, ids[k])
    ensures forall k, j :: 0 <= k < |ids| && 0 <= j < |rows| ==> !ApprovedFor(RefundAll(rows, ids)[j], ids[k])
  {
    if ids != [] {
      var n := |ids| - 1;
      var prev := RefundAll(rows, ids[..n]);
      RefundAllClears(rows, ids[..n]);
      RefundAllShrinks(rows, ids[..n], ids[n]);
      forall k, j | 0 <= k < |ids| && 0 <= j < |rows| ensures !ApprovedFor(RefundAll(rows, ids)[j], ids[k]) {
        RefundShrinksApproved(prev, ids[n], ids[k]);
        if k == n {
          RefundClearsOne(prev, ids[n]);
        } else {
          assert ids[..n][k] == ids[k];
        }
      }
    }
  }

  /** The batch creates no APPROVED entry, so uniqueness of the APPROVED entry
      of a booking survives it. */
  lemma {:induction false} RefundAllShrinks(rows: seq<Payment>, ids: seq<Uuid>, y: Uuid)
    ensures forall j :: 0 <= j < |rows| && ApprovedFor(RefundAll(rows, ids)[j], y) ==> ApprovedFor(rows[j], y)
    ensures AtMostOneApproved(rows, y) ==> AtMostOneApproved(RefundAll(rows, ids), y)
  {
    if ids != [] {
      RefundAllShrinks(rows, ids[..|ids| - 1], y);
      RefundShrinksApproved(RefundAll(rows, ids[..|ids| - 1]), ids[|ids| - 1], y);
    }
  }

  /** With at most one APPROVED entry, one refund leaves none. */
  lemma RefundClearsOne(rows: seq<Payment>, bookingID: Uuid)
    requires AtMostOneApproved(rows, bookingID)
    ensures forall j :: 0 <= j < |rows| ==> !ApprovedFor(Refund(rows, bookingID)[j], bookingID)
  {
    var k := FirstApproved(rows, bookingID);
    if k.Some? {
      assert forall j :: 0 <= j < |rows| && j != k.value ==> !ApprovedFor(rows[j], bookingID);
    }
  }
}
