/** Entities and transfer objects of the event catalog. */
module EventModel {
  import opened Common

  datatype EventStatus = ACTIVE | CANCELLED

  function EventStatusName(s: EventStatus): (name: string)
    ensures name == "ACTIVE" <==> s == ACTIVE
    ensures name == "CANCELLED" <==> s == CANCELLED
  {
    match s
    case ACTIVE => "ACTIVE"
    case CANCELLED => "CANCELLED"
  }

  /** A stored event. Every stored event went through the create validator,
      so its fields are present; the price is in minor units and the start time
      in minutes. */
  datatype Event = Event(
    id: Uuid,
    title: string,
    description: string,
    categoryID: Uuid,
    price: int,
    street: string,
    city: string,
    state: string,
    zipCode: string,
    country: string,
    startDateTime: Minutes,
    capacity: int,
    organizerID: Uuid,
    status: EventStatus,
    createdAt: Minutes)

  /** `EventDTO`: the request body of create and update, and the snapshot the
      catalog publishes and serves. Every field is nullable. */
  datatype EventDto = EventDto(
    id: Option<Uuid>,
    title: Option<string>,
    description: Option<string>,
    categoryID: Option<Uuid>,
    categoryName: Option<string>,
    price: Option<int>,
    street: Option<string>,
    city: Option<string>,
    state: Option<string>,
    zipCode: Option<string>,
    country: Option<string>,
    startDateTime: Option<Minutes>,
    capacity: Option<int>,
    status: Option<EventStatus>,
    organizerID: Option<Uuid>,
    createdAt: Option<Minutes>)
}
