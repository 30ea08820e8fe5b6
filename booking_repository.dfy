/** The booking table (`BookingRepository`): the two native queries over the
    active bookings of an event, lookup by id, and `save` as an upsert by id. */
module BookingRepository {
  import opened Common
  import opened BookingModel

  /** Primary keys are unique. */
  ghost predicate UniqueIds(rows: seq<Booking>)
  {
    forall i, j :: 0 <= i < |rows| && 0 <= j < |rows| && rows[i].id == rows[j].id ==> i == j
  }

  function Ids(rows: seq<Booking>): set<Uuid>
  {
    set i | 0 <= i < |rows| :: rows[i].id
  }

  /** A booking is active while it is PENDING or CONFIRMED. */
  predicate IsActive(s: BookingStatus)
  {
    s == PENDING || s == CONFIRMED
  }

  predicate ActiveFor(b: Booking, eventID: Uuid)
  {
    b.eventID == eventID && IsActive(b.status)
  }

  /** `getActiveEventBookings`: the rows of the event whose status is CONFIRMED
      or PENDING, in table order. */
  function ActiveEventBookings(rows: seq<Booking>, eventID: Uuid): (r: seq<Booking>)
    ensures |r| <= |rows|
    ensures forall b :: b in r <==> b in rows && ActiveFor(b, eventID)
    ensures UniqueIds(rows) ==> UniqueIds(r)
  {
    if rows == [] then []
    else
      var rest := ActiveEventBookings(rows[1..], eventID);
      if ActiveFor(rows[0], eventID) then
        var r := [rows[0]] + rest;
        assert UniqueIds(rows) ==> UniqueIds(r) by {
          if UniqueIds(rows) {
            UniqueTail(rows);
            forall k | 0 < k < |r| ensures r[k].id != rows[0].id {
              assert r[k] == rest[k - 1] && rest[k - 1] in rest;
              var j :| 0 <= j < |rows[1..]| && rows[1..][j] == r[k];
              assert rows[j + 1] == r[k];
            }
          }
        }
        r
      else rest
  }

  lemma UniqueTail(rows: seq<Booking>)
    requires rows != [] && UniqueIds(rows)
    ensures UniqueIds(rows[1..])
  {
    forall i, j | 0 <= i < |rows| - 1 && 0 <= j < |rows| - 1 && rows[1..][i].id == rows[1..][j].id
      ensures i == j
    {
      assert rows[i + 1].id == rows[j + 1].id;
    }
  }

  /** `getParticipantCount`: `COALESCE(COUNT(booking_id), 0)` over the same rows,
      a number and never null. */
  function ParticipantCount(rows: seq<Booking>, eventID: Uuid): nat
  {
    if rows == [] then 0
    else (if ActiveFor(rows[0], eventID) then 1 else 0) + ParticipantCount(rows[1..], eventID)
  }

  /** The count is the size of the active list, so it counts neither REJECTED
      nor CANCELLED bookings nor those of other events. */
  lemma {:induction false} ParticipantCountIsActiveSize(rows: seq<Booking>, eventID: Uuid)
    ensures ParticipantCount(rows, eventID) == |ActiveEventBookings(rows, eventID)|
    ensures ParticipantCount(rows, eventID) == 0 <==> forall b :: b in rows ==> !ActiveFor(b, eventID)
  {
    if rows != [] {
      ParticipantCountIsActiveSize(rows[1..], eventID);
      if !ActiveFor(rows[0], eventID) {
        assert forall b :: b in rows ==> b == rows[0] || b in rows[1..];
      }
    }
  }

  /** `findById`. */
  function Find(rows: seq<Booking>, id: Uuid): (r: Option<Booking>)
    ensures r.Some? <==> id in Ids(rows)
    ensures r.Some? ==> r.value in rows && r.value.id == id
    ensures UniqueIds(rows) ==> forall i :: 0 <= i < |rows| && rows[i].id == id ==> r == Some(rows[i])
  {
    if rows == [] then None
    else if rows[0].id == id then Some(rows[0])
    else
      var r := Find(rows[1..], id);
      assert Ids(rows) == {rows[0].id} + Ids(rows[1..]) by {
        forall x | x in Ids(rows) ensures x in {rows[0].id} + Ids(rows[1..]) {
          var i :| 0 <= i < |rows| && rows[i].id == x;
          if i > 0 { assert rows[1..][i - 1].id == x; }
        }
      }
      r
  }

  /** Every row whose id is `b.id` replaced by `b`. */
  function Replace(rows: seq<Booking>, b: Booking): (r: seq<Booking>)
    ensures |r| == |rows|
    ensures forall k :: 0 <= k < |rows| ==> r[k] == if rows[k].id == b.id then b else rows[k]
  {
    seq(|rows|, k requires 0 <= k < |rows| => if rows[k].id == b.id then b else rows[k])
  }

  /** `save`: replaces the row with the same primary key, or inserts a new one. */
  function Upsert(rows: seq<Booking>, b: Booking): (r: seq<Booking>)
    ensures UniqueIds(rows) ==> UniqueIds(r)
    ensures Ids(r) == Ids(rows) + {b.id}
    ensures b in r
    ensures b.id !in Ids(rows) ==> r == rows + [b]
    ensures b.id in Ids(rows) ==>
      |r| == |rows| && forall k :: 0 <= k < |rows| ==> r[k] == if rows[k].id == b.id then b else rows[k]
  {
    if b.id in Ids(rows) then
      var r := Replace(rows, b);
      assert b in r by { var i :| 0 <= i < |rows| && rows[i].id == b.id; assert r[i] == b; }
      assert Ids(r) == Ids(rows) by {
        forall x | x in Ids(rows) ensures x in Ids(r) {
          var i :| 0 <= i < |rows| && rows[i].id == x;
          assert r[i].id == x;
        }
      }
      r
    else
      var r := rows + [b];
      assert r[|rows|] == b;
      assert Ids(r) == Ids(rows) + {b.id} by {
        forall x | x in Ids(r) ensures x in Ids(rows) + {b.id} {
          var i :| 0 <= i < |r| && r[i].id == x;
          if i < |rows| { assert rows[i].id == x; }
        }
        forall x | x in Ids(rows) ensures x in Ids(r) {
          var i :| 0 <= i < |rows| && rows[i].id == x;
          assert r[i].id == x;
        }
      }
      r
  }

  /** The booking table. */
  class BookingDb {
    var rows: seq<Booking>

    ghost predicate Valid()
      reads this
    {
      UniqueIds(rows)
    }

    constructor ()
      ensures Valid() && rows == []
    {
      rows := [];
    }

    /** `bookingRepository.save(booking)`. */
    method Save(b: Booking)
      requires Valid()
      modifies this
      ensures Valid()
      ensures rows == Upsert(old(rows), b)
    {
      rows := Upsert(rows, b);
    }
  }
}
