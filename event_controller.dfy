/** The catalog's `EventController`. Reads need no token; each write is an
    early-return chain 401 (no valid token), 404 (event unknown), 403 (not the
    organizer nor an administrator, or for creation not an ORGANIZER or
    ADMIN), 400 (validation failed), and only then calls the service. */
module EventController {
  import opened Common
  import opened EventModel
  import opened Keyed
  import opened EventRepository
  import opened EventValidation
  import EventService
  import opened Bus

  /** The roles that may create events. */
  const CreatorRoles: seq<string> := ["ORGANIZER", "ADMIN"]

  /** `getEvent`: 404 for an unknown id, else the event's snapshot. */
  function GetEvent(rows: seq<Event>, eventID: Uuid, categories: map<Uuid, string>): (r: Reply<EventDto>)
    ensures r.status == NOT_FOUND <==> eventID !in Keys(rows, Key)
    ensures r.status == OK <==> eventID in Keys(rows, Key)
    ensures r.status == OK ==> r.body == EventService.GetEvent(rows, eventID, categories) && r.body.Some?
  {
    if !IsEventPresent(rows, eventID) then
      assert forall k :: 0 <= k < |rows| ==> Key(rows[k]) != eventID;
      Reply(NOT_FOUND, None)
    else
      Reply(OK, EventService.GetEvent(rows, eventID, categories))
  }

  // ---------------------------------------------------------------------------
  // POST /events
  // ---------------------------------------------------------------------------

  /** The request after the controller sets the organizer from the token. */
  function Owned(dto: EventDto, t: Token): (d: EventDto)
    ensures d.organizerID == Some(t.userID)
    ensures d.(organizerID := dto.organizerID) == dto
  {
    dto.(organizerID := Some(t.userID))
  }

  /** The status `addEvent` answers with. */
  function AddStatus(t: Token, dto: EventDto, now: Minutes): (s: HttpStatus)
    ensures s == UNAUTHORIZED <==> !t.valid
    ensures s == FORBIDDEN <==> t.valid && !HoldsAnyRole(t, CreatorRoles)
    ensures s == BAD_REQUEST <==> t.valid && HoldsAnyRole(t, CreatorRoles) && !Creatable(dto, now)
    ensures s == CREATED <==> t.valid && HoldsAnyRole(t, CreatorRoles) && Creatable(dto, now)
  {
    if !t.valid then UNAUTHORIZED
    else if !HoldsAnyRole(t, CreatorRoles) then FORBIDDEN
    else if IsEventValid(Owned(dto, t), now).Rejected? then BAD_REQUEST
    else CREATED
  }

  /** The organizer a client writes into the body makes no difference: the
      event is always the caller's. */
  lemma AddIgnoresBodyOrganizer(t: Token, d1: EventDto, d2: EventDto, now: Minutes)
    requires d1.(organizerID := None) == d2.(organizerID := None)
    ensures AddStatus(t, d1, now) == AddStatus(t, d2, now)
    ensures Owned(d1, t) == Owned(d2, t)
  {
    assert Owned(d1, t) == d1.(organizerID := None).(organizerID := Some(t.userID));
    assert Owned(d2, t) == d2.(organizerID := None).(organizerID := Some(t.userID));
  }

  /** `addEvent`: `addEvent` of the service runs only on 201; the new event
      belongs to the caller. */
  method AddEvent(db: EventDb, t: Token, dto: EventDto, categories: map<Uuid, string>, newId: Uuid, now: Minutes)
    returns (r: Reply<EventDto>)
    requires db.Valid() && newId !in Keys(db.rows, Key)
    modifies db
    ensures db.Valid()
    ensures r.status == AddStatus(t, dto, now)
    ensures r.status == CREATED ==>
      var e := EventService.NewEvent(Owned(dto, t), newId, now);
      && e.organizerID == t.userID
      && db.rows == old(db.rows) + [e]
      && r.body == Some(EventService.ToEventDto(e, categories))
    ensures r.status != CREATED ==> r.body.None? && db.rows == old(db.rows)
  {
    if !t.valid {
      return Reply(UNAUTHORIZED, None);
    }
    if !HoldsAnyRole(t, CreatorRoles) {
      return Reply(FORBIDDEN, None);
    }
    var owned := Owned(dto, t);
    if IsEventValid(owned, now).Rejected? {
      return Reply(BAD_REQUEST, None);
    }
    var d := EventService.AddEvent(db, owned, categories, newId, now);
    r := Reply(CREATED, Some(d));
  }

  // ---------------------------------------------------------------------------
  // PUT /events/{eventID}
  // ---------------------------------------------------------------------------

  /** The caller organizes the event or is an administrator. */
  predicate MayManage(rows: seq<Event>, t: Token, eventID: Uuid)
    requires UniqueKeys(rows, Key)
  {
    IsOrganizer(rows, t.userID, eventID) || IsAdmin(t)
  }

  /** The status `updateEvent` answers with. A patch without a start that passes
      every check ends in the validator's unchecked dereference: 500. */
  function UpdateStatus(rows: seq<Event>, t: Token, eventID: Uuid, dto: EventDto,
                        categories: map<Uuid, string>, now: Minutes): (s: HttpStatus)
    requires UniqueKeys(rows, Key)
    ensures s == UNAUTHORIZED <==> !t.valid
    ensures s == NOT_FOUND <==> t.valid && eventID !in Keys(rows, Key)
    ensures s == FORBIDDEN <==> t.valid && eventID in Keys(rows, Key) && !MayManage(rows, t, eventID)
    ensures s in {BAD_REQUEST, INTERNAL_SERVER_ERROR, OK} ==>
      t.valid && eventID in Keys(rows, Key) && MayManage(rows, t, eventID)
    ensures t.valid && eventID in Keys(rows, Key) && MayManage(rows, t, eventID) ==>
      var check := IsEventUpdateValid(FindKey(rows, Key, eventID).value, dto, categories, now);
      && (s == BAD_REQUEST <==> check.Refused?)
      && (s == INTERNAL_SERVER_ERROR <==> check == NoStartGiven)
      && (s == OK <==> check == Passed)
  {
    if !t.valid then UNAUTHORIZED
    else match FindKey(rows, Key, eventID)
      case None => NOT_FOUND
      case Some(current) =>
        if !IsOrganizer(rows, t.userID, eventID) && !IsAdmin(t) then FORBIDDEN
        else match IsEventUpdateValid(current, dto, categories, now)
          case Refused(_) => BAD_REQUEST
          case NoStartGiven => INTERNAL_SERVER_ERROR
          case Passed => OK
  }

  /** An update that succeeds moves the start, never earlier than it was and
      never to less than a day ahead, and leaves the event active and with its
      organizer. */
  lemma UpdateOkMeans(rows: seq<Event>, t: Token, eventID: Uuid, dto: EventDto,
                      categories: map<Uuid, string>, now: Minutes)
    requires UniqueKeys(rows, Key)
    requires UpdateStatus(rows, t, eventID, dto, categories, now) == OK
    ensures eventID in Keys(rows, Key) && MayManage(rows, t, eventID)
    ensures var current := FindKey(rows, Key, eventID).value;
      var e := EventService.ApplyPatch(current, dto);
      && e.startDateTime >= current.startDateTime && e.startDateTime >= now + OneDay
      && e.status == ACTIVE && e.organizerID == current.organizerID
  {
    var current := FindKey(rows, Key, eventID).value;
    UpdatePassedMeans(current, dto, categories, now);
  }

  /** `updateEvent`: the service patches, saves and publishes only on 200. */
  method UpdateEvent(db: EventDb, bus: Outbox, t: Token, eventID: Uuid, dto: EventDto,
                     categories: map<Uuid, string>, now: Minutes) returns (r: Reply<EventDto>)
    requires db.Valid()
    modifies db, bus
    ensures db.Valid()
    ensures r.status == UpdateStatus(old(db.rows), t, eventID, dto, categories, now)
    ensures r.status == OK ==>
      var e := EventService.ApplyPatch(FindKey(old(db.rows), Key, eventID).value, dto);
      && db.rows == Upsert(old(db.rows), Key, e)
      && r.body == Some(EventService.ToEventDto(e, categories))
      && bus.sent == old(bus.sent) + [EventUpdated(EventService.ToEventDto(e, categories))]
    ensures r.status != OK ==> r.body.None? && db.rows == old(db.rows) && bus.sent == old(bus.sent)
  {
    if !t.valid {
      return Reply(UNAUTHORIZED, None);
    }
    var found := FindKey(db.rows, Key, eventID);
    if found.None? {
      return Reply(NOT_FOUND, None);
    }
    if !IsOrganizer(db.rows, t.userID, eventID) && !IsAdmin(t) {
      return Reply(FORBIDDEN, None);
    }
    var check := IsEventUpdateValid(found.value, dto, categories, now);
    if check.Refused? {
      return Reply(BAD_REQUEST, None);
    }
    if check == NoStartGiven {
      return Reply(INTERNAL_SERVER_ERROR, None);
    }
    var updated := EventService.UpdateEvent(db, bus, eventID, dto, categories);
    r := Reply(OK, updated);
  }

  // ---------------------------------------------------------------------------
  // PUT /events/{eventID}/cancel
  // ---------------------------------------------------------------------------

  /** The status `cancelEvent` answers with. */
  function CancelStatus(rows: seq<Event>, t: Token, eventID: Uuid, now: Minutes): (s: HttpStatus)
    requires UniqueKeys(rows, Key)
    ensures s == UNAUTHORIZED <==> !t.valid
    ensures s == NOT_FOUND <==> t.valid && eventID !in Keys(rows, Key)
    ensures s == FORBIDDEN <==> t.valid && eventID in Keys(rows, Key) && !MayManage(rows, t, eventID)
    ensures s == OK <==> (t.valid && eventID in Keys(rows, Key) && MayManage(rows, t, eventID) &&
      var current := FindKey(rows, Key, eventID).value;
      current.status == ACTIVE && current.startDateTime >= now + OneDay)
    ensures s in {UNAUTHORIZED, NOT_FOUND, FORBIDDEN, BAD_REQUEST, OK}
  {
    if !t.valid then UNAUTHORIZED
    else match FindKey(rows, Key, eventID)
      case None => NOT_FOUND
      case Some(current) =>
        if !IsOrganizer(rows, t.userID, eventID) && !IsAdmin(t) then FORBIDDEN
        else if CanCancelEvent(current, now).Rejected? then BAD_REQUEST
        else OK
  }

  /** `cancelEvent`: the service cancels and publishes only on 200; the body is
      the confirmation text, so no snapshot is returned. */
  method CancelEvent(db: EventDb, bus: Outbox, t: Token, eventID: Uuid,
                     categories: map<Uuid, string>, now: Minutes) returns (status: HttpStatus)
    requires db.Valid()
    modifies db, bus
    ensures db.Valid()
    ensures status == CancelStatus(old(db.rows), t, eventID, now)
    ensures status == OK ==>
      var e := FindKey(old(db.rows), Key, eventID).value.(status := CANCELLED);
      && db.rows == Upsert(old(db.rows), Key, e)
      && bus.sent == old(bus.sent) + [EventCancelled(EventService.ToEventDto(e, categories))]
    ensures status != OK ==> db.rows == old(db.rows) && bus.sent == old(bus.sent)
  {
    if !t.valid {
      return UNAUTHORIZED;
    }
    var found := FindKey(db.rows, Key, eventID);
    if found.None? {
      return NOT_FOUND;
    }
    if !IsOrganizer(db.rows, t.userID, eventID) && !IsAdmin(t) {
      return FORBIDDEN;
    }
    if CanCancelEvent(found.value, now).Rejected? {
      return BAD_REQUEST;
    }
    var _ := EventService.CancelEvent(db, bus, eventID, categories);
    status := OK;
  }
}
