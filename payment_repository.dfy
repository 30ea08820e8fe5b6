/** The ledger (`PaymentRepository`): the balance query, the two finders, and
    `save` as an upsert by id. */
module PaymentRepository {
  import opened Common
  import opened PaymentModel

  ghost predicate UniqueIds(rows: seq<Payment>)
  {
    forall i, j :: 0 <= i < |rows| && 0 <= j < |rows| && rows[i].id == rows[j].id ==> i == j
  }

  function Ids(rows: seq<Payment>): set<Uuid>
  {
    set i | 0 <= i < |rows| :: rows[i].id
  }

  /** What one entry adds to a user's balance: its amount when it is the user's
      and APPROVED, nothing otherwise. */
  function Contribution(p: Payment, userID: Uuid): int
  {
    if p.userID == userID && p.status == APPROVED then p.amount else 0
  }

  /** `getUserBalance`: `COALESCE(SUM(amount), 0)` over the user's APPROVED
      entries, so 0 and never null when there are none. */
  function Balance(rows: seq<Payment>, userID: Uuid): int
  {
    if rows == [] then 0 else Balance(rows[..|rows| - 1], userID) + Contribution(rows[|rows| - 1], userID)
  }

  /** Appending an entry changes the balance by its contribution alone. */
  lemma BalanceAppend(rows: seq<Payment>, p: Payment, userID: Uuid)
    ensures Balance(rows + [p], userID) == Balance(rows, userID) + Contribution(p, userID)
  {
    assert (rows + [p])[..|rows|] == rows;
  }

  /** Replacing one entry changes the balance by the difference of the two
      contributions; every other entry keeps its share. */
  lemma {:induction false} BalanceUpdate(rows: seq<Payment>, k: nat, p: Payment, userID: Uuid)
    requires k < |rows|
    ensures Balance(rows[k := p], userID)
         == Balance(rows, userID) - Contribution(rows[k], userID) + Contribution(p, userID)
  {
    var n := |rows| - 1;
    if k == n {
      assert rows[k := p][..n] == rows[..n];
    } else {
      BalanceUpdate(rows[..n], k, p, userID);
      assert rows[k := p][..n] == rows[..n][k := p];
    }
  }

  /** With no APPROVED entry of the user the balance is 0. */
  lemma {:induction false} BalanceWithoutApproved(rows: seq<Payment>, userID: Uuid)
    requires forall k :: 0 <= k < |rows| ==> rows[k].userID != userID || rows[k].status != APPROVED
    ensures Balance(rows, userID) == 0
  {
    if rows != [] {
      BalanceWithoutApproved(rows[..|rows| - 1], userID);
    }
  }

  /** `findByUserID`: every entry of the user in any status, in table order. */
  function ByUser(rows: seq<Payment>, userID: Uuid): (r: seq<Payment>)
    ensures forall p :: p in r <==> p in rows && p.userID == userID
  {
    if rows == [] then []
    else (if rows[0].userID == userID then [rows[0]] else []) + ByUser(rows[1..], userID)
  }

  /** `findByBookingID`: every entry for the booking in any status, in table order. */
  function ByBooking(rows: seq<Payment>, bookingID: Uuid): (r: seq<Payment>)
    ensures forall p :: p in r <==> p in rows && p.bookingID == Some(bookingID)
  {
    if rows == [] then []
    else (if rows[0].bookingID == Some(bookingID) then [rows[0]] else []) + ByBooking(rows[1..], bookingID)
  }

  /** `save`: replaces the entry with the same primary key, or appends a new one. */
  function Upsert(rows: seq<Payment>, p: Payment): (r: seq<Payment>)
    ensures UniqueIds(rows) && p.id !in Ids(rows) ==> r == rows + [p] && UniqueIds(r)
    ensures UniqueIds(rows) ==>
      forall k :: 0 <= k < |rows| && rows[k].id == p.id ==> r == rows[k := p] && UniqueIds(r)
  {
    if p.id in Ids(rows) then
      seq(|rows|, k requires 0 <= k < |rows| => if rows[k].id == p.id then p else rows[k])
    else
      var r := rows + [p];
      assert UniqueIds(rows) && p.id !in Ids(rows) ==> UniqueIds(r) by {
        if UniqueIds(rows) && p.id !in Ids(rows) {
          assert forall i | 0 <= i < |rows| :: r[i].id in Ids(rows);
          assert r[|rows|].id !in Ids(rows);
        }
      }
      r
  }

  /** The ledger. */
  class PaymentDb {
    var rows: seq<Payment>

    ghost predicate Valid()
      reads this
    {
      UniqueIds(rows)
    }

    constructor ()
      ensures Valid() && rows == []
    {
      rows := [];
    }

    /** `paymentRepository.save(payment)`. */
    method Save(p: Payment)
      requires Valid()
      modifies this
      ensures Valid()
      ensures rows == Upsert(old(rows), p)
    {
      rows := Upsert(rows, p);
    }
  }
}
