/** The payment participant's `PaymentService`: the ledger reads behind the
    account endpoints, and top-ups. */
module PaymentService {
  import opened Common
  import opened PaymentModel
  import opened PaymentRepository

  /** `getUserPayments`: all of the user's entries, in any status. */
  function GetUserPayments(rows: seq<Payment>, userID: Uuid): (r: seq<Payment>)
    ensures forall p :: p in r <==> p in rows && p.userID == userID
  {
    ByUser(rows, userID)
  }

  /** `getUserBalance`: the approved-sum query, 0 for a user without entries. */
  function GetUserBalance(rows: seq<Payment>, userID: Uuid): (balance: int)
    ensures (forall p :: p in rows ==> p.userID != userID) ==> balance == 0
  {
    assert (forall p :: p in rows ==> p.userID != userID) ==>
      forall k :: 0 <= k < |rows| ==> rows[k].userID != userID;
    if forall p :: p in rows ==> p.userID != userID then BalanceWithoutApproved(rows, userID); Balance(rows, userID)
    else Balance(rows, userID)
  }

  /** The entry a top-up stores: APPROVED, for the user, with no booking. */
  function TopUp(userID: Uuid, amount: int, newId: Uuid, now: Minutes): (p: Payment)
    ensures p.status == APPROVED && p.userID == userID && p.amount == amount && p.bookingID.None?
  {
    Payment(newId, amount, userID, None, APPROVED, now)
  }

  /** `increaseBalance`: the amount is not checked, so a zero or negative
      top-up is stored as APPROVED as well. */
  method IncreaseBalance(ledger: PaymentDb, userID: Uuid, amount: int, newId: Uuid, now: Minutes)
    returns (p: Payment)
    requires ledger.Valid() && newId !in Ids(ledger.rows)
    modifies ledger
    ensures ledger.Valid()
    ensures p == TopUp(userID, amount, newId, now)
    ensures ledger.rows == old(ledger.rows) + [p]
  {
    p := Payment(newId, amount, userID, None, APPROVED, now);
    ledger.Save(p);
  }

  /** A top-up raises its user's balance by exactly the amount, whatever its
      sign, and no other user's balance. */
  lemma TopUpBalance(rows: seq<Payment>, userID: Uuid, amount: int, newId: Uuid, now: Minutes, other: Uuid)
    ensures Balance(rows + [TopUp(userID, amount, newId, now)], userID) == Balance(rows, userID) + amount
    ensures other != userID ==>
      Balance(rows + [TopUp(userID, amount, newId, now)], other) == Balance(rows, other)
  {
    BalanceAppend(rows, TopUp(userID, amount, newId, now), userID);
    BalanceAppend(rows, TopUp(userID, amount, newId, now), other);
  }
}
