/** The booking participant's `BookingController`: each handler is an
    early-return chain 401 (no valid token), 404 (booking or event unknown),
    403 (not allowed), 400 (validation failed), and only then calls the service.
    The catalog the event lookups ask (`getEventDetails`) is a map from event id
    to the event it returns; an id it lacks is the 4xx answer that becomes 404. */
module BookingController {
  import opened Common
  import opened BookingModel
  import opened BookingRepository
  import opened BookingValidation
  import opened BookingService
  import opened Bus

  function Lookup(catalog: map<Uuid, EventView>, id: Uuid): (r: Option<EventView>)
    ensures r.Some? <==> id in catalog
  {
    if id in catalog then Some(catalog[id]) else None
  }

  /** Who may view or cancel a booking: its owner, the event's organizer, or an
      administrator. */
  predicate MayAccessBooking(t: Token, booking: Booking, event: EventView)
  {
    booking.userID == t.userID || event.organizerID == t.userID || IsAdmin(t)
  }

  // ---------------------------------------------------------------------------
  // GET /account/bookings and GET /events/{eventID}/bookings
  // ---------------------------------------------------------------------------

  /** `getUserBookings`: the caller's own bookings, optionally of one event. */
  function GetUserBookings(rows: seq<Booking>, t: Token, eventID: Option<Uuid>): (r: Reply<seq<Booking>>)
    ensures r.status == UNAUTHORIZED <==> !t.valid
    ensures r.status == OK ==> (r.body.Some? &&
      forall b :: b in r.body.value <==>
        b in rows && b.userID == t.userID && (eventID.Some? ==> b.eventID == eventID.value))
  {
    if !t.valid then Reply(UNAUTHORIZED, None)
    else Reply(OK, Some(UserBookings(rows, t.userID, eventID)))
  }

  /** `getEventBookings`: every booking of the event, for its organizer or an
      administrator only. */
  function GetEventBookings(rows: seq<Booking>, t: Token, eventID: Uuid,
                            catalog: map<Uuid, EventView>): (r: Reply<seq<Booking>>)
    ensures r.status == UNAUTHORIZED <==> !t.valid
    ensures r.status == NOT_FOUND <==> t.valid && eventID !in catalog
    ensures r.status == FORBIDDEN <==>
      (t.valid && eventID in catalog && catalog[eventID].organizerID != t.userID && !IsAdmin(t))
    ensures r.status == OK <==>
      (t.valid && eventID in catalog && (catalog[eventID].organizerID == t.userID || IsAdmin(t)))
    ensures r.status == OK ==> (r.body.Some? &&
      forall b :: b in r.body.value <==> b in rows && b.eventID == eventID)
  {
    if !t.valid then Reply(UNAUTHORIZED, None)
    else match Lookup(catalog, eventID)
      case None => Reply(NOT_FOUND, None)
      case Some(event) =>
        if event.organizerID != t.userID && !IsAdmin(t) then Reply(FORBIDDEN, None)
        else Reply(OK, Some(EventBookings(rows, eventID)))
  }

  // ---------------------------------------------------------------------------
  // POST /events/{eventID}/bookings
  // ---------------------------------------------------------------------------

  /** The request after the controller overwrites the caller, the event and the
      price; only the name and the e-mail of the body survive. */
  function Prepared(body: BookingRequest, t: Token, eventID: Uuid, event: EventView): (r: BookingRequest)
    ensures r.fullName == body.fullName && r.email == body.email
    ensures r.userID == Some(t.userID) && r.eventID == Some(eventID) && r.price == Some(event.price)
  {
    body.(userID := Some(t.userID)).(eventID := Some(eventID)).(price := Some(event.price))
  }

  /** The status `createEventBooking` answers with. `balance` is what the
      payment participant reports for the caller. */
  function CreateStatus(rows: seq<Booking>, t: Token, eventID: Uuid, body: BookingRequest,
                        catalog: map<Uuid, EventView>, balance: int, now: Minutes): (s: HttpStatus)
    ensures s == UNAUTHORIZED <==> !t.valid
    ensures s == NOT_FOUND <==> t.valid && eventID !in catalog
    ensures s == BAD_REQUEST <==> (t.valid && eventID in catalog &&
      IsBookingValid(Prepared(body, t, eventID, catalog[eventID]), catalog[eventID],
                     ParticipantCount(rows, catalog[eventID].id), balance, now).Rejected?)
    ensures s == CREATED <==> (t.valid && eventID in catalog &&
      IsBookingValid(Prepared(body, t, eventID, catalog[eventID]), catalog[eventID],
                     ParticipantCount(rows, catalog[eventID].id), balance, now) == Accepted)
  {
    if !t.valid then UNAUTHORIZED
    else match Lookup(catalog, eventID)
      case None => NOT_FOUND
      case Some(event) =>
        var req := Prepared(body, t, eventID, event);
        if IsBookingValid(req, event, ParticipantCount(rows, event.id), balance, now).Rejected?
        then BAD_REQUEST
        else CREATED
  }

  /** The caller, event and price a client writes into the body make no
      difference to the outcome. */
  lemma CreateIgnoresBodyIdentity(rows: seq<Booking>, t: Token, eventID: Uuid, b1: BookingRequest,
                                  b2: BookingRequest, catalog: map<Uuid, EventView>, balance: int, now: Minutes)
    requires b1.fullName == b2.fullName && b1.email == b2.email
    ensures CreateStatus(rows, t, eventID, b1, catalog, balance, now)
         == CreateStatus(rows, t, eventID, b2, catalog, balance, now)
  {
    if t.valid && eventID in catalog {
      assert Prepared(b1, t, eventID, catalog[eventID]) == Prepared(b2, t, eventID, catalog[eventID]);
    }
  }

  /** `createEventBooking`: `addBooking` runs only on 201, with the fresh id the
      database generates; every other answer leaves table and outbox as they were. */
  method CreateEventBooking(db: BookingDb, bus: Outbox, t: Token, eventID: Uuid, body: BookingRequest,
                            catalog: map<Uuid, EventView>, balance: int, newId: Uuid, now: Minutes)
    returns (r: Reply<Booking>)
    requires db.Valid() && newId !in Ids(db.rows)
    modifies db, bus
    ensures db.Valid()
    ensures r.status == CreateStatus(old(db.rows), t, eventID, body, catalog, balance, now)
    ensures r.status == CREATED ==>
      var event := catalog[eventID];
      var b := Booking(newId, body.fullName, body.email, t.userID, event.id, event.price, PENDING, now);
      && r.body == Some(b)
      && db.rows == old(db.rows) + [b]
      && bus.sent == old(bus.sent) + [BookingCreated(b)]
    ensures r.status != CREATED ==> r.body.None? && db.rows == old(db.rows) && bus.sent == old(bus.sent)
  {
    if !t.valid {
      return Reply(UNAUTHORIZED, None);
    }
    var found := Lookup(catalog, eventID);
    if found.None? {
      return Reply(NOT_FOUND, None);
    }
    var event := found.value;
    var req := Prepared(body, t, eventID, event);
    var verdict := IsBookingValid(req, event, ParticipantCount(db.rows, event.id), balance, now);
    if verdict.Rejected? {
      return Reply(BAD_REQUEST, None);
    }
    var booking := AddBooking(db, bus, req, event, t.userID, newId, now);
    r := Reply(CREATED, Some(booking));
  }

  // ---------------------------------------------------------------------------
  // GET /bookings/{bookingID}
  // ---------------------------------------------------------------------------

  /** `getBooking`. */
  function GetBooking(rows: seq<Booking>, t: Token, bookingID: Uuid,
                      catalog: map<Uuid, EventView>): (r: Reply<Booking>)
    ensures r.status == UNAUTHORIZED <==> !t.valid
    ensures r.status == NOT_FOUND <==> (t.valid &&
      (bookingID !in Ids(rows) || Find(rows, bookingID).value.eventID !in catalog))
    ensures r.status == OK <==> (t.valid && bookingID in Ids(rows) &&
      var b := Find(rows, bookingID).value;
      b.eventID in catalog && MayAccessBooking(t, b, catalog[b.eventID]))
    ensures r.status == OK ==> r.body == Find(rows, bookingID)
    ensures r.status in {UNAUTHORIZED, NOT_FOUND, FORBIDDEN, OK}
  {
    if !t.valid then Reply(UNAUTHORIZED, None)
    else match Find(rows, bookingID)
      case None => Reply(NOT_FOUND, None)
      case Some(booking) =>
        match Lookup(catalog, booking.eventID)
          case None => Reply(NOT_FOUND, None)
          case Some(event) =>
            if !MayAccessBooking(t, booking, event) then Reply(FORBIDDEN, None)
            else Reply(OK, Some(booking))
  }

  // ---------------------------------------------------------------------------
  // PUT /bookings/{bookingID}/cancel
  // ---------------------------------------------------------------------------

  /** The status `cancelUserBooking` answers with: the same 401/404/403 ladder as
      `getBooking`, then 400 when `canCancelBooking` refuses. */
  function CancelStatus(rows: seq<Booking>, t: Token, bookingID: Uuid,
                        catalog: map<Uuid, EventView>, now: Minutes): (s: HttpStatus)
    ensures s in {UNAUTHORIZED, NOT_FOUND, FORBIDDEN} <==> GetBooking(rows, t, bookingID, catalog).status != OK
    ensures s != BAD_REQUEST && s != OK ==> s == GetBooking(rows, t, bookingID, catalog).status
    ensures s == OK <==> (GetBooking(rows, t, bookingID, catalog).status == OK &&
      var b := Find(rows, bookingID).value;
      CanCancelBooking(b, catalog[b.eventID], now) == Accepted)
  {
    var view := GetBooking(rows, t, bookingID, catalog);
    if view.status != OK then view.status
    else
      var booking := view.body.value;
      if CanCancelBooking(booking, catalog[booking.eventID], now).Rejected? then BAD_REQUEST
      else OK
  }

  /** Only an allowed caller's cancellation of a cancellable booking reaches
      `cancelBooking`: an already cancelled booking is always refused. */
  lemma CancelledBookingIsBadRequest(rows: seq<Booking>, t: Token, bookingID: Uuid,
                                     catalog: map<Uuid, EventView>, now: Minutes)
    requires UniqueIds(rows)
    requires exists i :: 0 <= i < |rows| && rows[i].id == bookingID && rows[i].status == CANCELLED
    ensures CancelStatus(rows, t, bookingID, catalog, now) != OK
  {
    var i :| 0 <= i < |rows| && rows[i].id == bookingID && rows[i].status == CANCELLED;
    assert Find(rows, bookingID) == Some(rows[i]);
  }

  /** `cancelUserBooking`. */
  method CancelUserBooking(db: BookingDb, bus: Outbox, t: Token, bookingID: Uuid,
                           catalog: map<Uuid, EventView>, now: Minutes) returns (r: Reply<Booking>)
    requires db.Valid()
    modifies db, bus
    ensures db.Valid()
    ensures r.status == CancelStatus(old(db.rows), t, bookingID, catalog, now)
    ensures r.status == OK ==>
      var c := Find(old(db.rows), bookingID).value.(status := CANCELLED);
      && r.body == Some(c)
      && db.rows == Replace(old(db.rows), c)
      && bus.sent == old(bus.sent) + [BookingCancelled(c)]
    ensures r.status != OK ==> r.body.None? && db.rows == old(db.rows) && bus.sent == old(bus.sent)
  {
    if !t.valid {
      return Reply(UNAUTHORIZED, None);
    }
    var found := Find(db.rows, bookingID);
    if found.None? {
      return Reply(NOT_FOUND, None);
    }
    var booking := found.value;
    var event := Lookup(catalog, booking.eventID);
    if event.None? {
      return Reply(NOT_FOUND, None);
    }
    if !MayAccessBooking(t, booking, event.value) {
      return Reply(FORBIDDEN, None);
    }
    if CanCancelBooking(booking, event.value, now).Rejected? {
      return Reply(BAD_REQUEST, None);
    }
    var cancelled := CancelBooking(db, bus, bookingID);
    r := Reply(OK, cancelled);
  }
}
