/** The booking participant's `BookingService`: the two listing queries, and the
    two state changes that start a saga instance (create a PENDING booking) or
    compensate one (cancel it), each followed by its message. */
module BookingService {
  import opened Common
  import opened BookingModel
  import opened BookingRepository
  import opened Bus

  /** `getEventBookings`: a query by example with only `eventID` set, so every
      booking of the event in any status, in table order. */
  function EventBookings(rows: seq<Booking>, eventID: Uuid): (r: seq<Booking>)
    ensures forall b :: b in r <==> b in rows && b.eventID == eventID
  {
    if rows == [] then []
    else (if rows[0].eventID == eventID then [rows[0]] else []) + EventBookings(rows[1..], eventID)
  }

  /** `getUserBookings`: a query by example with `userID` and, when given,
      `eventID` set; a null example field imposes nothing. */
  function UserBookings(rows: seq<Booking>, userID: Uuid, eventID: Option<Uuid>): (r: seq<Booking>)
    ensures forall b :: b in r <==>
      b in rows && b.userID == userID && (eventID.Some? ==> b.eventID == eventID.value)
  {
    if rows == [] then []
    else
      var keep := rows[0].userID == userID && (eventID.None? || rows[0].eventID == eventID.value);
      (if keep then [rows[0]] else []) + UserBookings(rows[1..], userID, eventID)
  }

  /** `addBooking`: the booking takes its name and e-mail from the request, its
      event and price from the event, its owner from the caller, status PENDING;
      it is saved under the id the database generates, and its snapshot is
      published on "BookingCreated" and returned. */
  method AddBooking(db: BookingDb, bus: Outbox, req: BookingRequest, event: EventView,
                    userID: Uuid, newId: Uuid, now: Minutes) returns (dto: Booking)
    requires db.Valid() && newId !in Ids(db.rows)
    modifies db, bus
    ensures db.Valid()
    ensures dto == Booking(newId, req.fullName, req.email, userID, event.id, event.price, PENDING, now)
    ensures db.rows == old(db.rows) + [dto]
    ensures bus.sent == old(bus.sent) + [BookingCreated(dto)]
  {
    var booking := Booking(newId, req.fullName, req.email, 0, 0, 0, PENDING, now);
    booking := booking.(eventID := event.id);
    booking := booking.(userID := userID);
    booking := booking.(status := PENDING);
    booking := booking.(price := event.price);
    db.Save(booking);
    dto := booking;
    bus.Send(BookingCreated(dto));
  }

  /** `cancelBooking`: `findById(id).get()` fails on an unknown id (None, nothing
      changes); otherwise the status becomes CANCELLED whatever it was, every
      other field stays, and the snapshot is published on "BookingCancelled". */
  method CancelBooking(db: BookingDb, bus: Outbox, id: Uuid) returns (r: Option<Booking>)
    requires db.Valid()
    modifies db, bus
    ensures db.Valid()
    ensures r.None? <==> id !in Ids(old(db.rows))
    ensures r.None? ==> db.rows == old(db.rows) && bus.sent == old(bus.sent)
    ensures r.Some? ==>
      && r.value == Find(old(db.rows), id).value.(status := CANCELLED)
      && db.rows == Replace(old(db.rows), r.value)
      && bus.sent == old(bus.sent) + [BookingCancelled(r.value)]
  {
    var found := Find(db.rows, id);
    if found.None? {
      return None;
    }
    var booking := found.value.(status := CANCELLED);
    db.Save(booking);
    bus.Send(BookingCancelled(booking));
    r := Some(booking);
  }

  /** After a cancel, the booking with that id is CANCELLED and every other
      booking is as it was. */
  lemma CancelTouchesOnlyThatBooking(rows: seq<Booking>, id: Uuid)
    requires UniqueIds(rows) && id in Ids(rows)
    ensures var c := Find(rows, id).value.(status := CANCELLED);
      forall k :: 0 <= k < |rows| ==>
        Replace(rows, c)[k] == if rows[k].id == id then rows[k].(status := CANCELLED) else rows[k]
  {
  }
}
