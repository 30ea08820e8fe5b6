/** The message bus as seen by one producer: every `kafkaTemplate.send(topic, payload)`
    appends one message to an outbox. Delivery is left to the caller, who hands
    a message to the consuming handler. */
module Bus {
  import opened Common
  import opened BookingModel
  import opened PaymentModel
  import opened EventModel

  /** The review fields the notification participant reads (`ReviewDTO`). */
  datatype ReviewSnapshot = ReviewSnapshot(id: Uuid, eventID: Uuid, userID: Uuid)

  /** One message per topic, carrying its typed payload. */
  datatype Message =
    | BookingCreated(booking: Booking)
    | BookingCancelled(booking: Booking)
    | EventBookingsCancelled(bookings: seq<Booking>)
    | EventUpdatedBookings(bookings: seq<Booking>)
    | PaymentCreated(payment: Payment)
    | EventUpdated(event: EventDto)
    | EventCancelled(event: EventDto)
    | ReviewCreated(review: ReviewSnapshot)

  /** How the booking participant decodes a `PaymentCreated` payload. */
  function DecodePayment(p: Payment): (v: PaymentView)
    ensures v.status == "APPROVED" <==> p.status == APPROVED
    ensures v.bookingID == p.bookingID
  {
    PaymentView(p.bookingID, StatusName(p.status))
  }

  /** The messages one participant has published, in order. */
  class Outbox {
    var sent: seq<Message>

    constructor ()
      ensures sent == []
    {
      sent := [];
    }

    method Send(m: Message)
      modifies this
      ensures sent == old(sent) + [m]
    {
      sent := sent + [m];
    }
  }
}
