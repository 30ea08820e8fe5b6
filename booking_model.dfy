/** Entities and transfer objects of the booking participant. */
module BookingModel {
  import opened Common

  /** `BookingStatus`: the four states of a booking. */
  datatype BookingStatus = PENDING | CONFIRMED | REJECTED | CANCELLED

  /** A stored booking. Its snapshot (`BookingDTO`, produced by `mapToBookingDTO`)
      copies every field one to one, so the same value serves as the snapshot
      carried on the bus. Full name and e-mail are nullable columns. */
  datatype Booking = Booking(
    id: Uuid,
    fullName: Option<string>,
    email: Option<string>,
    userID: Uuid,
    eventID: Uuid,
    price: int,
    status: BookingStatus,
    createdAt: Minutes)

  /** The request body of `POST /api/events/{eventID}/bookings` (a `BookingDTO`
      with every field nullable). */
  datatype BookingRequest = BookingRequest(
    fullName: Option<string>,
    email: Option<string>,
    userID: Option<Uuid>,
    eventID: Option<Uuid>,
    price: Option<int>)

  /** The event as the booking participant receives it from the catalog
      (`bookingservice/dto/EventDTO`): the status arrives as a plain string. */
  datatype EventView = EventView(
    id: Uuid,
    price: int,
    startDateTime: Minutes,
    capacity: int,
    status: string,
    organizerID: Uuid)

  /** The payment decision as the booking participant decodes it
      (`bookingservice/dto/PaymentDTO`): the status is a plain string and the
      booking reference is nullable. */
  datatype PaymentView = PaymentView(bookingID: Option<Uuid>, status: string)
}
