/** The ledger entry of the payment participant. */
module PaymentModel {
  import opened Common

  datatype PaymentStatus = APPROVED | REJECTED | REFUNDED

  /** The enum constant's name, as it travels in JSON. */
  function StatusName(s: PaymentStatus): (name: string)
    ensures name == "APPROVED" <==> s == APPROVED
  {
    match s
    case APPROVED => "APPROVED"
    case REJECTED => "REJECTED"
    case REFUNDED => "REFUNDED"
  }

  /** One ledger entry: a signed amount in minor units (negative is a debit),
      its owner, the booking it pays for (none for a top-up) and its status.
      `PaymentDTO` copies these fields one to one. */
  datatype Payment = Payment(
    id: Uuid,
    amount: int,
    userID: Uuid,
    bookingID: Option<Uuid>,
    status: PaymentStatus,
    createdAt: Minutes)
}
