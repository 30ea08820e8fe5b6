/** The catalog's `EventService`: listing and lookup, creation, the null-guarded
    patch of an update, cancellation, and the snapshot (`EventDTO`) published on
    the bus. The category table is a map from category id to name. */
module EventService {
  import opened Common
  import opened EventModel
  import opened Keyed
  import opened EventRepository
  import opened EventValidation
  import opened Bus

  // ---------------------------------------------------------------------------
  // The snapshot
  // ---------------------------------------------------------------------------

  /** A snapshot with every column of the stored event present. */
  predicate Complete(d: EventDto)
  {
    && d.id.Some? && d.title.Some? && d.description.Some? && d.categoryID.Some?
    && d.price.Some? && d.street.Some? && d.city.Some? && d.state.Some?
    && d.zipCode.Some? && d.country.Some? && d.startDateTime.Some? && d.capacity.Some?
    && d.status.Some? && d.organizerID.Some? && d.createdAt.Some?
  }

  /** The stored event a complete snapshot describes. */
  function Stored(d: EventDto): Event
    requires Complete(d)
  {
    Event(d.id.value, d.title.value, d.description.value, d.categoryID.value, d.price.value,
          d.street.value, d.city.value, d.state.value, d.zipCode.value, d.country.value,
          d.startDateTime.value, d.capacity.value, d.organizerID.value, d.status.value, d.createdAt.value)
  }

  /** The category name shown with an event: null when the category is gone. */
  function CategoryName(categories: map<Uuid, string>, categoryID: Uuid): Option<string>
  {
    if categoryID in categories then Some(categories[categoryID]) else None
  }

  /** `mapToEventDTO`: the snapshot carries every column of the event, so the
      event can be read back from it, plus the category's current name. */
  function ToEventDto(e: Event, categories: map<Uuid, string>): (d: EventDto)
    ensures Complete(d) && Stored(d) == e
    ensures d.categoryName == CategoryName(categories, e.categoryID)
  {
    EventDto(Some(e.id), Some(e.title), Some(e.description), Some(e.categoryID),
             CategoryName(categories, e.categoryID), Some(e.price), Some(e.street), Some(e.city),
             Some(e.state), Some(e.zipCode), Some(e.country), Some(e.startDateTime), Some(e.capacity),
             Some(e.status), Some(e.organizerID), Some(e.createdAt))
  }

  // ---------------------------------------------------------------------------
  // Reads
  // ---------------------------------------------------------------------------

  /** The snapshots of a list of events, in the same order. */
  function Snapshots(es: seq<Event>, categories: map<Uuid, string>): (r: seq<EventDto>)
    ensures |r| == |es| && forall k :: 0 <= k < |es| ==> r[k] == ToEventDto(es[k], categories)
    ensures forall k :: 0 <= k < |es| ==> r[k].startDateTime == Some(es[k].startDateTime)
  {
    seq(|es|, k requires 0 <= k < |es| => ToEventDto(es[k], categories))
  }

  lemma SnapshotsKeepOrder(es: seq<Event>, categories: map<Uuid, string>)
    requires LatestFirst(es)
    ensures var r := Snapshots(es, categories);
      forall i, j :: 0 <= i < j < |r| ==> r[i].startDateTime.value >= r[j].startDateTime.value
  {
  }

  lemma SnapshotsKeepMembers(es: seq<Event>, categories: map<Uuid, string>)
    ensures forall d :: d in Snapshots(es, categories) <==> exists e :: e in es && d == ToEventDto(e, categories)
  {
    var r := Snapshots(es, categories);
    forall e | e in es ensures ToEventDto(e, categories) in r {
      var k :| 0 <= k < |es| && es[k] == e;
      assert r[k] == ToEventDto(e, categories);
    }
  }

  /** `getEvents`: the snapshots of the matching events, the latest start first. */
  function GetEvents(rows: seq<Event>, organizerID: Option<Uuid>, categoryID: Option<Uuid>,
                     search: Option<string>, categories: map<Uuid, string>): (r: seq<EventDto>)
    ensures forall d :: d in r <==>
      (exists e :: e in rows && Matches(e, organizerID, categoryID, search) && d == ToEventDto(e, categories))
    ensures forall k :: 0 <= k < |r| ==> Complete(r[k]) && r[k].startDateTime.Some?
    ensures forall i, j :: 0 <= i < j < |r| ==> r[i].startDateTime.value >= r[j].startDateTime.value
  {
    var listing := EventRepository.GetEvents(rows, organizerID, categoryID, search);
    SnapshotsKeepOrder(listing, categories);
    SnapshotsKeepMembers(listing, categories);
    Snapshots(listing, categories)
  }

  /** `getEvent`: the snapshot of the event with that id, if there is one. */
  function GetEvent(rows: seq<Event>, eventID: Uuid, categories: map<Uuid, string>): (r: Option<EventDto>)
    ensures r.Some? <==> eventID in Keys(rows, Key)
    ensures UniqueKeys(rows, Key) ==>
      forall k :: 0 <= k < |rows| && rows[k].id == eventID ==> r == Some(ToEventDto(rows[k], categories))
  {
    match FindKey(rows, Key, eventID)
    case None => None
    case Some(e) => Some(ToEventDto(e, categories))
  }

  // ---------------------------------------------------------------------------
  // addEvent
  // ---------------------------------------------------------------------------

  /** The request fields `addEvent` copies into the new row. */
  predicate Fillable(dto: EventDto)
  {
    && dto.title.Some? && dto.description.Some? && dto.categoryID.Some? && dto.price.Some?
    && dto.street.Some? && dto.city.Some? && dto.state.Some? && dto.zipCode.Some?
    && dto.country.Some? && dto.startDateTime.Some? && dto.capacity.Some? && dto.organizerID.Some?
  }

  /** A request that passed `isEventValid`, with the organizer the controller
      set from the token, has every field `addEvent` copies. */
  lemma ValidRequestIsFillable(dto: EventDto, now: Minutes, organizerID: Uuid)
    requires IsEventValid(dto, now) == Accepted
    ensures Fillable(dto.(organizerID := Some(organizerID)))
  {
  }

  /** The row `addEvent` builds: the request's fields, ACTIVE, with a fresh id
      and the creation time. */
  function NewEvent(dto: EventDto, newId: Uuid, now: Minutes): (e: Event)
    requires Fillable(dto)
    ensures e.id == newId && e.status == ACTIVE && e.createdAt == now
  {
    Event(newId, dto.title.value, dto.description.value, dto.categoryID.value, dto.price.value,
          dto.street.value, dto.city.value, dto.state.value, dto.zipCode.value, dto.country.value,
          dto.startDateTime.value, dto.capacity.value, dto.organizerID.value, ACTIVE, now)
  }

  /** The snapshot `addEvent` returns is the request itself, with only the
      generated id, the category name, the status and the creation time filled
      in by the catalog. */
  lemma AddEventEchoesRequest(dto: EventDto, newId: Uuid, now: Minutes, categories: map<Uuid, string>)
    requires Fillable(dto)
    ensures ToEventDto(NewEvent(dto, newId, now), categories)
         == dto.(id := Some(newId), categoryName := CategoryName(categories, dto.categoryID.value),
                 status := Some(ACTIVE), createdAt := Some(now))
  {
  }

  /** `addEvent`. */
  method AddEvent(db: EventDb, dto: EventDto, categories: map<Uuid, string>, newId: Uuid, now: Minutes)
    returns (d: EventDto)
    requires db.Valid() && newId !in Keys(db.rows, Key) && Fillable(dto)
    modifies db
    ensures db.Valid()
    ensures db.rows == old(db.rows) + [NewEvent(dto, newId, now)]
    ensures d == ToEventDto(NewEvent(dto, newId, now), categories)
  {
    var e := Event(newId, dto.title.value, dto.description.value, dto.categoryID.value, dto.price.value,
                   dto.street.value, dto.city.value, dto.state.value, dto.zipCode.value, dto.country.value,
                   dto.startDateTime.value, dto.capacity.value, dto.organizerID.value, ACTIVE, now);
    db.Save(e);
    d := ToEventDto(e, categories);
  }

  // ---------------------------------------------------------------------------
  // updateEvent
  // ---------------------------------------------------------------------------

  /** One null-guarded setter: the provided value, or the current one. */
  function Pick<T>(given: Option<T>, current: T): T
  {
    if given.Some? then given.value else current
  }

  /** The field-by-field patch of `updateEvent`: every provided field replaces
      the stored one, every null field keeps it. Id, organizer, status and
      creation time are never patched. */
  function ApplyPatch(e: Event, dto: EventDto): (r: Event)
    ensures r.id == e.id && r.organizerID == e.organizerID && r.status == e.status && r.createdAt == e.createdAt
    ensures r.title == (if dto.title.Some? then dto.title.value else e.title)
    ensures r.description == (if dto.description.Some? then dto.description.value else e.description)
    ensures r.categoryID == (if dto.categoryID.Some? then dto.categoryID.value else e.categoryID)
    ensures r.price == (if dto.price.Some? then dto.price.value else e.price)
    ensures r.street == (if dto.street.Some? then dto.street.value else e.street)
    ensures r.city == (if dto.city.Some? then dto.city.value else e.city)
    ensures r.state == (if dto.state.Some? then dto.state.value else e.state)
    ensures r.zipCode == (if dto.zipCode.Some? then dto.zipCode.value else e.zipCode)
    ensures r.country == (if dto.country.Some? then dto.country.value else e.country)
    ensures r.startDateTime == (if dto.startDateTime.Some? then dto.startDateTime.value else e.startDateTime)
    ensures r.capacity == (if dto.capacity.Some? then dto.capacity.value else e.capacity)
  {
    Event(e.id, Pick(dto.title, e.title), Pick(dto.description, e.description),
          Pick(dto.categoryID, e.categoryID), Pick(dto.price, e.price), Pick(dto.street, e.street),
          Pick(dto.city, e.city), Pick(dto.state, e.state), Pick(dto.zipCode, e.zipCode),
          Pick(dto.country, e.country), Pick(dto.startDateTime, e.startDateTime),
          Pick(dto.capacity, e.capacity), e.organizerID, e.status, e.createdAt)
  }

  /** Applying the same patch twice changes nothing more. */
  lemma ApplyPatchIdempotent(e: Event, dto: EventDto)
    ensures ApplyPatch(ApplyPatch(e, dto), dto) == ApplyPatch(e, dto)
  {
  }

  /** The snapshot of another event, used as a patch, copies all of that
      event's editable fields and none of the rest. */
  lemma SnapshotPatchCopiesEditableFields(e: Event, other: Event, categories: map<Uuid, string>)
    ensures ApplyPatch(e, ToEventDto(other, categories))
         == other.(id := e.id, organizerID := e.organizerID, status := e.status, createdAt := e.createdAt)
  {
  }

  /** A patch leaves an event's organizer and status alone, so an update never
      reopens a cancelled event nor hands it to someone else. */
  lemma PatchKeepsOwnerAndStatus(e: Event, dto: EventDto)
    ensures ApplyPatch(e, dto).status == e.status && ApplyPatch(e, dto).organizerID == e.organizerID
  {
  }

  /** `updateEvent`: an unknown id throws (None) and changes nothing; otherwise
      the patched event is saved, and its snapshot is published and returned. */
  method UpdateEvent(db: EventDb, bus: Outbox, eventID: Uuid, dto: EventDto, categories: map<Uuid, string>)
    returns (r: Option<EventDto>)
    requires db.Valid()
    modifies db, bus
    ensures db.Valid()
    ensures r.None? <==> eventID !in Keys(old(db.rows), Key)
    ensures r.None? ==> db.rows == old(db.rows) && bus.sent == old(bus.sent)
    ensures r.Some? ==>
      var e := ApplyPatch(FindKey(old(db.rows), Key, eventID).value, dto);
      && db.rows == Upsert(old(db.rows), Key, e)
      && r.value == ToEventDto(e, categories)
      && bus.sent == old(bus.sent) + [EventUpdated(r.value)]
  {
    var found := FindKey(db.rows, Key, eventID);
    if found.None? {
      return None;
    }
    var e := ApplyPatch(found.value, dto);
    db.Save(e);
    var updated := ToEventDto(e, categories);
    bus.Send(EventUpdated(updated));
    r := Some(updated);
  }

  // ---------------------------------------------------------------------------
  // cancelEvent
  // ---------------------------------------------------------------------------

  /** `cancelEvent`: an unknown id throws (None) and changes nothing; otherwise
      the event is saved as CANCELLED and its snapshot is published and returned. */
  method CancelEvent(db: EventDb, bus: Outbox, eventID: Uuid, categories: map<Uuid, string>)
    returns (r: Option<EventDto>)
    requires db.Valid()
    modifies db, bus
    ensures db.Valid()
    ensures r.None? <==> eventID !in Keys(old(db.rows), Key)
    ensures r.None? ==> db.rows == old(db.rows) && bus.sent == old(bus.sent)
    ensures r.Some? ==>
      var e := FindKey(old(db.rows), Key, eventID).value.(status := CANCELLED);
      && db.rows == Upsert(old(db.rows), Key, e)
      && r.value == ToEventDto(e, categories)
      && bus.sent == old(bus.sent) + [EventCancelled(r.value)]
  {
    var found := FindKey(db.rows, Key, eventID);
    if found.None? {
      return None;
    }
    var e := found.value.(status := CANCELLED);
    db.Save(e);
    var cancelled := ToEventDto(e, categories);
    bus.Send(EventCancelled(cancelled));
    r := Some(cancelled);
  }

  /** Cancellation is final: a cancelled event can be neither updated nor
      cancelled again, and an update keeps it cancelled. */
  lemma CancelledEventIsFinal(e: Event, dto: EventDto, categories: map<Uuid, string>, now: Minutes)
    requires e.status == CANCELLED
    ensures IsEventUpdateValid(e, dto, categories, now) == Refused(AlreadyCancelled)
    ensures CanCancelEvent(e, now) == Rejected(AlreadyCancelled)
    ensures ApplyPatch(e, dto).status == CANCELLED
  {
    assert UpdateFailures(e, dto, categories, now)[0] == AlreadyCancelled;
  }
}
