/** The booking participant's `ValidationService`: the ordered precondition chain
    of a new booking, the cancellation rule and the ownership test. The two web
    lookups it makes (event details, the caller's balance) are parameters. */
module BookingValidation {
  import opened Common
  import opened BookingModel
  import opened BookingRepository

  /** One reason per `IllegalArgumentException` the chain can throw. */
  datatype BookingReason =
    | FullNameRequired
    | EmailRequired
    | EmailNotValid
    | EventNotActive
    | FullyBooked
    | StartsWithinAnHour
    | OwnEvent
    | NotEnoughBalance

  // ---------------------------------------------------------------------------
  // The e-mail pattern ^[A-Za-z0-9+_.-]+@(.+)$
  // ---------------------------------------------------------------------------

  predicate LocalChar(c: char)
  {
    ('A' <= c <= 'Z') || ('a' <= c <= 'z') || ('0' <= c <= '9')
    || c == '+' || c == '_' || c == '.' || c == '-'
  }

  /** `.` in a Java pattern matches everything except the line terminators. */
  predicate LineTerminator(c: char)
  {
    c == '\n' || c == '\r' || c == '\U{85}' || c == '\U{2028}' || c == '\U{2029}'
  }

  /** `e` matches the pattern with its `@` at position `k`: a non-empty local
      part from the alphabet, then `@`, then at least one character. */
  ghost predicate MatchesAt(e: string, k: int)
  {
    && 0 < k < |e| - 1
    && e[k] == '@'
    && (forall i :: 0 <= i < k ==> LocalChar(e[i]))
    && (forall i :: k < i < |e| ==> !LineTerminator(e[i]))
  }

  /** `String.matches` on the whole string. */
  function IsValidEmail(e: string): (ok: bool)
    ensures ok <==> exists k :: MatchesAt(e, k)
  {
    if '@' !in e then
      assert forall i | 0 <= i < |e| :: e[i] != '@';
      false
    else
      var k := FirstIndex(e, '@');
      var ok := 0 < k < |e| - 1
        && (forall i :: 0 <= i < k ==> LocalChar(e[i]))
        && (forall i :: k < i < |e| ==> !LineTerminator(e[i]));
      assert ok ==> MatchesAt(e, k);
      // the local alphabet has no '@', so every match splits at the first '@'
      assert forall i | 0 <= i < k :: e[i] != '@' by {
        forall i | 0 <= i < k ensures e[i] != '@' { assert e[..k][i] == e[i]; }
      }
      assert !LocalChar(e[k]);
      ok
  }

  // ---------------------------------------------------------------------------
  // isBookingValid
  // ---------------------------------------------------------------------------

  /** Every check of `isBookingValid` that fails, in the order the code makes them.
      The caller's balance is compared only when `price` is known. */
  function BookingFailures(req: BookingRequest, event: EventView, participants: nat,
                           balance: int, now: Minutes): (fs: seq<BookingReason>)
    requires req.price.Some?
  {
    (if Missing(req.fullName) then [FullNameRequired] else [])
    + (if Missing(req.email) then [EmailRequired] else [])
    + (if !Missing(req.email) && !IsValidEmail(req.email.value) then [EmailNotValid] else [])
    + (if event.status != "ACTIVE" then [EventNotActive] else [])
    + (if event.capacity <= participants then [FullyBooked] else [])
    + (if event.startDateTime < now + OneHour then [StartsWithinAnHour] else [])
    + (if req.userID == Some(event.organizerID) then [OwnEvent] else [])
    + (if req.price.value > balance then [NotEnoughBalance] else [])
  }

  /** `isBookingValid`: the first failing check wins. `participants` is
      `getParticipantCount(event.id)` and `balance` the caller's balance as the
      payment participant reports it; `req.price` has already been overwritten
      with the event's price by the controller. */
  function IsBookingValid(req: BookingRequest, event: EventView, participants: nat,
                          balance: int, now: Minutes): (v: Verdict<BookingReason>)
    requires req.price.Some?
    ensures v == Accepted <==> BookingFailures(req, event, participants, balance, now) == []
    ensures v.Rejected? ==> v.reason == BookingFailures(req, event, participants, balance, now)[0]
  {
    if req.fullName.None? || req.fullName.value == "" then Rejected(FullNameRequired)
    else if req.email.None? || req.email.value == "" then Rejected(EmailRequired)
    else if !IsValidEmail(req.email.value) then Rejected(EmailNotValid)
    else if event.status != "ACTIVE" then Rejected(EventNotActive)
    else if event.capacity <= participants then Rejected(FullyBooked)
    else if event.startDateTime < now + OneHour then Rejected(StartsWithinAnHour)
    else if req.userID == Some(event.organizerID) then Rejected(OwnEvent)
    else if req.price.value > balance then Rejected(NotEnoughBalance)
    else Accepted
  }

  /** The boundaries of the chain: an event starting exactly one hour from now,
      a price equal to the balance and one free seat are all accepted, while a
      full event is rejected. */
  lemma BookingBoundaries(req: BookingRequest, event: EventView, participants: nat, now: Minutes)
    requires !Missing(req.fullName) && !Missing(req.email) && IsValidEmail(req.email.value)
    requires event.status == "ACTIVE" && req.userID != Some(event.organizerID)
    requires req.price.Some?
    ensures event.capacity == participants + 1 && event.startDateTime == now + OneHour
            ==> IsBookingValid(req, event, participants, req.price.value, now) == Accepted
    ensures event.capacity <= participants
            ==> IsBookingValid(req, event, participants, req.price.value, now) == Rejected(FullyBooked)
  {
  }

  // ---------------------------------------------------------------------------
  // canCancelBooking
  // ---------------------------------------------------------------------------

  datatype CancelReason = AlreadyCancelled | CancelWithinAnHour | EventCanceled

  /** `canCancelBooking`: `event` is what `getEventDetails(booking.eventID)` returns.
      The event test compares with the literal "CANCELED". */
  function CanCancelBooking(booking: Booking, event: EventView, now: Minutes): (v: Verdict<CancelReason>)
    ensures v == Accepted <==>
      booking.status != CANCELLED && event.startDateTime >= now + OneHour && event.status != "CANCELED"
    ensures booking.status == CANCELLED ==> v == Rejected(AlreadyCancelled)
    ensures v == Rejected(EventCanceled) ==> event.status == "CANCELED"
  {
    if booking.status == CANCELLED then Rejected(AlreadyCancelled)
    else if event.startDateTime < now + OneHour then Rejected(CancelWithinAnHour)
    else if event.status == "CANCELED" then Rejected(EventCanceled)
    else Accepted
  }

  /** The catalog spells a cancelled event "CANCELLED", so its cancellation does
      not stop a booking from being cancelled; only the lead time and the
      booking's own status do. PENDING, CONFIRMED and REJECTED bookings pass. */
  lemma CancelledEventDoesNotBlockCancel(booking: Booking, event: EventView, now: Minutes)
    requires booking.status in {PENDING, CONFIRMED, REJECTED}
    requires event.status == "CANCELLED" && event.startDateTime >= now + OneHour
    ensures CanCancelBooking(booking, event, now) == Accepted
  {
  }

  // ---------------------------------------------------------------------------
  // isOwner
  // ---------------------------------------------------------------------------

  /** `isOwner`: the booking exists and belongs to `userID`. */
  function IsOwner(rows: seq<Booking>, userID: Uuid, bookingID: Uuid): (r: bool)
    requires UniqueIds(rows)
    ensures r <==> exists i :: 0 <= i < |rows| && rows[i].id == bookingID && rows[i].userID == userID
  {
    var b := Find(rows, bookingID);
    assert b.Some? ==> exists i :: 0 <= i < |rows| && rows[i] == b.value;
    b.Some? && b.value.userID == userID
  }
}
