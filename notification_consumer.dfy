/** The notification participant's `ConsumerService`: five listeners that only
    ever append notifications. Notifications are always new rows (their id is
    generated on insert), so each save is an append. */
module NotificationConsumer {
  import opened Common
  import opened BookingModel
  import opened Bus

  /** A stored notification. The e-mail and payment columns are never filled
      by these listeners and are left out. */
  datatype Notification = Notification(
    title: string,
    message: string,
    userID: Uuid,
    eventID: Option<Uuid>,
    bookingID: Option<Uuid>)

  /** The notification table. */
  class NotificationDb {
    var rows: seq<Notification>

    constructor ()
      ensures rows == []
    {
      rows := [];
    }

    /** `notificationRepository.save(notification)` of a new notification. */
    method Save(n: Notification)
      modifies this
      ensures rows == old(rows) + [n]
    {
      rows := rows + [n];
    }
  }

  const CreatedTitle := "Booking Created"
  const CreatedMessage := "Your booking has been created successfully."
  const CancelledTitle := "Booking Cancelled"
  const CancelledMessage := "Your booking has been cancelled. Your refund will be processed shortly."
  const CascadeTitle := "Booking cancelled because of event cancellation"
  const CascadeMessage :=
    "Your booking has been cancelled because the event has been cancelled. Your refund will be processed shortly."
  const UpdatedTitle := "Event updated"
  const UpdatedMessage :=
    "An update has been made to the event you booked. Please check the event details for more information."
  const ReviewTitle := "A new review has been created"
  const ReviewMessage := "A new review has been created for your event."

  // ---------------------------------------------------------------------------
  // BookingCreated and BookingCancelled
  // ---------------------------------------------------------------------------

  /** `processBooking`: one notice to the booking's user about that booking. */
  method ProcessBooking(db: NotificationDb, b: Booking)
    modifies db
    ensures db.rows == old(db.rows) + [Notification(CreatedTitle, CreatedMessage, b.userID, None, Some(b.id))]
  {
    var n := Notification(CreatedTitle, CreatedMessage, 0, None, None);
    n := n.(userID := b.userID);
    n := n.(bookingID := Some(b.id));
    db.Save(n);
  }

  /** `processBookingCancelled`: one notice to the booking's user about that booking. */
  method ProcessBookingCancelled(db: NotificationDb, b: Booking)
    modifies db
    ensures db.rows == old(db.rows) + [Notification(CancelledTitle, CancelledMessage, b.userID, None, Some(b.id))]
  {
    var n := Notification(CancelledTitle, CancelledMessage, 0, None, None);
    n := n.(userID := b.userID);
    n := n.(bookingID := Some(b.id));
    db.Save(n);
  }

  // ---------------------------------------------------------------------------
  // EventBookingsCancelled
  // ---------------------------------------------------------------------------

  /** One cascade notice per element of the batch, in batch order; a user with
      several cancelled bookings gets several notices. */
  function CascadeNotices(bookings: seq<Booking>): (ns: seq<Notification>)
    ensures |ns| == |bookings|
    ensures forall k :: 0 <= k < |bookings| ==>
      ns[k] == Notification(CascadeTitle, CascadeMessage, bookings[k].userID, None, Some(bookings[k].id))
  {
    seq(|bookings|, k requires 0 <= k < |bookings| =>
      Notification(CascadeTitle, CascadeMessage, bookings[k].userID, None, Some(bookings[k].id)))
  }

  /** `processEventBookingsCancelled`. */
  method ProcessEventBookingsCancelled(db: NotificationDb, bookings: seq<Booking>)
    modifies db
    ensures db.rows == old(db.rows) + CascadeNotices(bookings)
  {
    var i := 0;
    while i < |bookings|
      invariant 0 <= i <= |bookings|
      invariant db.rows == old(db.rows) + CascadeNotices(bookings)[..i]
    {
      var n := Notification(CascadeTitle, CascadeMessage, bookings[i].userID, None, Some(bookings[i].id));
      db.Save(n);
      assert CascadeNotices(bookings)[..i + 1] == CascadeNotices(bookings)[..i] + [n];
      i := i + 1;
    }
  }

  /** Every booking of the batch is announced to its own user. */
  lemma CascadeNoticesReachEveryBooking(bookings: seq<Booking>, b: Booking)
    requires b in bookings
    ensures Notification(CascadeTitle, CascadeMessage, b.userID, None, Some(b.id)) in CascadeNotices(bookings)
  {
    var k :| 0 <= k < |bookings| && bookings[k] == b;
    assert CascadeNotices(bookings)[k] == Notification(CascadeTitle, CascadeMessage, b.userID, None, Some(b.id));
  }

  // ---------------------------------------------------------------------------
  // EventUpdatedBookings
  // ---------------------------------------------------------------------------

  /** `Stream.distinct`: the first occurrence of each element, in order. */
  function Distinct(s: seq<Uuid>): (r: seq<Uuid>)
    ensures forall x :: x in r <==> x in s
    ensures forall i, j :: 0 <= i < j < |r| ==> r[i] != r[j]
    ensures |r| <= |s|
  {
    if s == [] then []
    else
      var n := |s| - 1;
      var front := Distinct(s[..n]);
      assert s == s[..n] + [s[n]];
      if s[n] in front then front else front + [s[n]]
  }

  lemma FirstIndexPrefix<T>(s: seq<T>, n: nat, y: T)
    requires n <= |s| && y in s[..n]
    ensures FirstIndex(s, y) == FirstIndex(s[..n], y) < n
  {
    var k := FirstIndex(s, y);
    var k' := FirstIndex(s[..n], y);
    assert s[..n][..k'] == s[..k'];
  }

  /** `distinct` keeps first occurrences in order: of two users listed, the one
      listed first occurs first in the batch. */
  lemma {:induction false} DistinctKeepsFirstOccurrenceOrder(s: seq<Uuid>, i: nat, j: nat)
    requires i < j < |Distinct(s)|
    ensures FirstIndex(s, Distinct(s)[i]) < FirstIndex(s, Distinct(s)[j])
  {
    var n := |s| - 1;
    var front := Distinct(s[..n]);
    var r := Distinct(s);
    assert r[i] in front;
    FirstIndexPrefix(s, n, r[i]);
    if j < |front| {
      assert r[j] == front[j] && r[j] in front;
      DistinctKeepsFirstOccurrenceOrder(s[..n], i, j);
      FirstIndexPrefix(s, n, r[j]);
    } else {
      assert r[j] == s[n] && s[n] !in s[..n];
    }
  }

  function UserIDs(bookings: seq<Booking>): (ids: seq<Uuid>)
    ensures |ids| == |bookings| && forall k :: 0 <= k < |bookings| ==> ids[k] == bookings[k].userID
  {
    seq(|bookings|, k requires 0 <= k < |bookings| => bookings[k].userID)
  }

  /** One update notice per user, all naming the same event. */
  function UpdateNotices(users: seq<Uuid>, eventID: Uuid): (ns: seq<Notification>)
    ensures |ns| == |users|
    ensures forall k :: 0 <= k < |users| ==>
      ns[k] == Notification(UpdatedTitle, UpdatedMessage, users[k], Some(eventID), None)
  {
    seq(|users|, k requires 0 <= k < |users| =>
      Notification(UpdatedTitle, UpdatedMessage, users[k], Some(eventID), None))
  }

  /** `processEventUpdatedBookings`: one notice per distinct user of the batch,
      each naming the event of the batch's first element. An empty batch fails
      at `get(0)` (false) and stores nothing. */
  method ProcessEventUpdatedBookings(db: NotificationDb, bookings: seq<Booking>) returns (ok: bool)
    modifies db
    ensures ok <==> bookings != []
    ensures !ok ==> db.rows == old(db.rows)
    ensures ok ==> db.rows == old(db.rows) + UpdateNotices(Distinct(UserIDs(bookings)), bookings[0].eventID)
  {
    if bookings == [] {
      return false;
    }
    var eventID := bookings[0].eventID;
    var users := Distinct(UserIDs(bookings));
    var i := 0;
    while i < |users|
      invariant 0 <= i <= |users|
      invariant db.rows == old(db.rows) + UpdateNotices(users, eventID)[..i]
    {
      var n := Notification(UpdatedTitle, UpdatedMessage, users[i], Some(eventID), None);
      db.Save(n);
      assert UpdateNotices(users, eventID)[..i + 1] == UpdateNotices(users, eventID)[..i] + [n];
      i := i + 1;
    }
    ok := true;
  }

  /** Some booking of the batch is the user's. */
  predicate HasBooking(bookings: seq<Booking>, u: Uuid)
  {
    exists k :: 0 <= k < |bookings| && bookings[k].userID == u
  }

  /** Some notice is addressed to the user. */
  predicate Addressed(ns: seq<Notification>, u: Uuid)
  {
    exists k :: 0 <= k < |ns| && ns[k].userID == u
  }

  /** A user occurs among the batch's bookers exactly when one of its bookings is theirs. */
  lemma InUserIDs(bookings: seq<Booking>, u: Uuid)
    ensures HasBooking(bookings, u) <==> u in UserIDs(bookings)
  {
    var ids := UserIDs(bookings);
    if u in ids {
      var m :| 0 <= m < |ids| && ids[m] == u;
      assert bookings[m].userID == u;
    }
    if HasBooking(bookings, u) {
      var k :| 0 <= k < |bookings| && bookings[k].userID == u;
      assert ids[k] == u;
    }
  }

  /** A user is addressed by the update notices exactly when listed. */
  lemma InUpdateNotices(users: seq<Uuid>, eventID: Uuid, u: Uuid)
    ensures u in users <==> Addressed(UpdateNotices(users, eventID), u)
  {
    var ns := UpdateNotices(users, eventID);
    if u in users {
      var m :| 0 <= m < |users| && users[m] == u;
      assert ns[m].userID == u;
    }
    if Addressed(ns, u) {
      var k :| 0 <= k < |ns| && ns[k].userID == u;
      assert users[k] == u;
    }
  }

  /** Each user of a non-empty batch receives exactly one update notice. */
  lemma UpdateNoticesOnePerUser(bookings: seq<Booking>, u: Uuid)
    requires bookings != []
    ensures HasBooking(bookings, u) <==> Addressed(UpdateNotices(Distinct(UserIDs(bookings)), bookings[0].eventID), u)
    ensures var ns := UpdateNotices(Distinct(UserIDs(bookings)), bookings[0].eventID);
      forall i, j :: 0 <= i < |ns| && 0 <= j < |ns| && ns[i].userID == ns[j].userID ==> i == j
  {
    var users := Distinct(UserIDs(bookings));
    var ns := UpdateNotices(users, bookings[0].eventID);
    InUserIDs(bookings, u);
    InUpdateNotices(users, bookings[0].eventID, u);
    assert u in UserIDs(bookings) <==> u in users;
    assert HasBooking(bookings, u) <==> Addressed(ns, u);
    forall i, j | 0 <= i < |ns| && 0 <= j < |ns| && ns[i].userID == ns[j].userID
      ensures i == j
    {
      assert users[i] == ns[i].userID && users[j] == ns[j].userID;
    }
  }

  // ---------------------------------------------------------------------------
  // ReviewCreated
  // ---------------------------------------------------------------------------

  /** `processReview`: `event` is what the catalog returned for the review's
      event, None when the lookup threw; then nothing is stored. Otherwise one
      notice goes to the event's organizer. */
  method ProcessReview(db: NotificationDb, review: ReviewSnapshot, event: Option<EventView>)
    modifies db
    ensures event.None? ==> db.rows == old(db.rows)
    ensures event.Some? ==>
      db.rows == old(db.rows) + [Notification(ReviewTitle, ReviewMessage, event.value.organizerID, Some(event.value.id), None)]
  {
    if event.None? {
      return;
    }
    var n := Notification(ReviewTitle, ReviewMessage, 0, None, None);
    n := n.(userID := event.value.organizerID);
    n := n.(eventID := Some(event.value.id));
    db.Save(n);
  }
}
