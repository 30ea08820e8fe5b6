/** The catalog's `ValidationService`: ownership and presence tests, the
    creation chain, the update chain and the cancellation rule. The category
    table is a map from category id to name. */
module EventValidation {
  import opened Common
  import opened EventModel
  import opened Keyed
  import opened EventRepository

  /** One reason per `IllegalArgumentException` the chains can throw. */
  datatype EventReason =
    | TitleRequired
    | DescriptionRequired
    | CategoryRequired
    | PriceRequired
    | StreetRequired
    | CityRequired
    | StateRequired
    | ZipCodeRequired
    | CountryRequired
    | CapacityNotPositive
    | StartRequired
    | StartTooSoon
    | AlreadyCancelled
    | AlreadyStarted
    | CategoryUnknown
    | PriceNotPositive
    | StartBeforeCurrent

  /** `isOrganizer`: the event exists and `userID` organizes it. */
  function IsOrganizer(rows: seq<Event>, userID: Uuid, eventID: Uuid): (ok: bool)
    requires UniqueKeys(rows, Key)
    ensures ok <==> exists k :: 0 <= k < |rows| && rows[k].id == eventID && rows[k].organizerID == userID
  {
    var e := FindKey(rows, Key, eventID);
    assert e.Some? ==> exists k :: 0 <= k < |rows| && rows[k] == e.value;
    e.Some? && e.value.organizerID == userID
  }

  /** `isEventPresent` (`existsById`). */
  function IsEventPresent(rows: seq<Event>, eventID: Uuid): (ok: bool)
    ensures ok <==> exists k :: 0 <= k < |rows| && rows[k].id == eventID
  {
    var ok := FindKey(rows, Key, eventID).Some?;
    assert (exists k :: 0 <= k < |rows| && rows[k].id == eventID) ==> Key(rows[0]) == eventID || eventID in Keys(rows, Key) by {
      if exists k :: 0 <= k < |rows| && rows[k].id == eventID {
        var k :| 0 <= k < |rows| && rows[k].id == eventID;
        assert Key(rows[k]) == eventID;
      }
    }
    ok
  }

  // ---------------------------------------------------------------------------
  // isEventValid
  // ---------------------------------------------------------------------------

  /** Every check of `isEventValid` that fails, in the order the code makes them.
      The start is compared with the clock only when it is given. */
  function CreateFailures(dto: EventDto, now: Minutes): seq<EventReason>
  {
    (if Missing(dto.title) then [TitleRequired] else [])
    + (if Missing(dto.description) then [DescriptionRequired] else [])
    + (if dto.categoryID.None? then [CategoryRequired] else [])
    + (if dto.price.None? then [PriceRequired] else [])
    + (if Missing(dto.street) then [StreetRequired] else [])
    + (if Missing(dto.city) then [CityRequired] else [])
    + (if Missing(dto.state) then [StateRequired] else [])
    + (if Missing(dto.zipCode) then [ZipCodeRequired] else [])
    + (if Missing(dto.country) then [CountryRequired] else [])
    + (if dto.capacity.None? || dto.capacity.value <= 0 then [CapacityNotPositive] else [])
    + (if dto.startDateTime.None? then [StartRequired] else [])
    + (if dto.startDateTime.Some? && dto.startDateTime.value < now + OneDay then [StartTooSoon] else [])
  }

  /** A creation request the chain lets through: every text present and
      non-empty, category, price, capacity and start present, a positive
      capacity and a start at least one day ahead. */
  predicate Creatable(dto: EventDto, now: Minutes)
  {
    && !Missing(dto.title) && !Missing(dto.description)
    && dto.categoryID.Some? && dto.price.Some?
    && !Missing(dto.street) && !Missing(dto.city) && !Missing(dto.state)
    && !Missing(dto.zipCode) && !Missing(dto.country)
    && dto.capacity.Some? && dto.capacity.value > 0
    && dto.startDateTime.Some? && dto.startDateTime.value >= now + OneDay
  }

  /** `isEventValid`: the first failing check wins. The price is only required
      to be present; its sign is not checked. */
  function IsEventValid(dto: EventDto, now: Minutes): (v: Verdict<EventReason>)
    ensures v == Accepted <==> CreateFailures(dto, now) == []
    ensures v.Rejected? ==> v.reason == CreateFailures(dto, now)[0]
    ensures v == Accepted <==> Creatable(dto, now)
  {
    if dto.title.None? || dto.title.value == "" then Rejected(TitleRequired)
    else if dto.description.None? || dto.description.value == "" then Rejected(DescriptionRequired)
    else if dto.categoryID.None? then Rejected(CategoryRequired)
    else if dto.price.None? then Rejected(PriceRequired)
    else if dto.street.None? || dto.street.value == "" then Rejected(StreetRequired)
    else if dto.city.None? || dto.city.value == "" then Rejected(CityRequired)
    else if dto.state.None? || dto.state.value == "" then Rejected(StateRequired)
    else if dto.zipCode.None? || dto.zipCode.value == "" then Rejected(ZipCodeRequired)
    else if dto.country.None? || dto.country.value == "" then Rejected(CountryRequired)
    else if dto.capacity.None? || dto.capacity.value <= 0 then Rejected(CapacityNotPositive)
    else if dto.startDateTime.None? then Rejected(StartRequired)
    else if dto.startDateTime.value < now + OneDay then Rejected(StartTooSoon)
    else Accepted
  }

  /** Creation accepts any price once one is given, zero and negative ones too. */
  lemma CreateIgnoresPriceSign(dto: EventDto, now: Minutes, p: int)
    requires dto.price.Some?
    ensures IsEventValid(dto.(price := Some(p)), now) == IsEventValid(dto, now)
  {
  }

  // ---------------------------------------------------------------------------
  // isEventUpdateValid
  // ---------------------------------------------------------------------------

  /** How `isEventUpdateValid` ends: it returns, it throws
      `IllegalArgumentException`, or, when every check passed but no new start
      was given, its last check dereferences the missing start and throws a
      `NullPointerException`. */
  datatype UpdateCheck = Passed | Refused(reason: EventReason) | NoStartGiven

  /** The checks of `isEventUpdateValid` on the stored event that fail, in order. */
  function CurrentFailures(current: Event, now: Minutes): seq<EventReason>
  {
    (if current.status == CANCELLED then [AlreadyCancelled] else [])
    + (if current.startDateTime < now + OneDay then [AlreadyStarted] else [])
  }

  /** The checks of `isEventUpdateValid` on the provided fields other than the
      start that fail, in order. */
  function FieldFailures(dto: EventDto, categories: map<Uuid, string>): seq<EventReason>
  {
    (if dto.title == Some("") then [TitleRequired] else [])
    + (if dto.description == Some("") then [DescriptionRequired] else [])
    + (if dto.categoryID.Some? && dto.categoryID.value !in categories then [CategoryUnknown] else [])
    + (if dto.price.Some? && dto.price.value <= 0 then [PriceNotPositive] else [])
    + (if dto.street == Some("") then [StreetRequired] else [])
    + (if dto.city == Some("") then [CityRequired] else [])
    + (if dto.state == Some("") then [StateRequired] else [])
    + (if dto.zipCode == Some("") then [ZipCodeRequired] else [])
    + (if dto.country == Some("") then [CountryRequired] else [])
    + (if dto.capacity.Some? && dto.capacity.value <= 0 then [CapacityNotPositive] else [])
  }

  /** The checks of `isEventUpdateValid` on a provided new start that fail, in order. */
  function StartFailures(current: Event, dto: EventDto, now: Minutes): seq<EventReason>
  {
    (if dto.startDateTime.Some? && dto.startDateTime.value < now + OneDay then [StartTooSoon] else [])
    + (if dto.startDateTime.Some? && dto.startDateTime.value < current.startDateTime then [StartBeforeCurrent] else [])
  }

  /** Every check of `isEventUpdateValid` that fails, in the order the code
      makes them. Only the fields the patch provides are checked. */
  function UpdateFailures(current: Event, dto: EventDto, categories: map<Uuid, string>, now: Minutes)
    : seq<EventReason>
  {
    CurrentFailures(current, now) + FieldFailures(dto, categories) + StartFailures(current, dto, now)
  }

  /** The stored-event part of the chain. */
  function CheckCurrent(current: Event, now: Minutes): (v: Verdict<EventReason>)
    ensures v == Accepted <==> CurrentFailures(current, now) == []
    ensures v.Rejected? ==> v.reason == CurrentFailures(current, now)[0]
  {
    if current.status == CANCELLED then Rejected(AlreadyCancelled)
    else if current.startDateTime < now + OneDay then Rejected(AlreadyStarted)
    else Accepted
  }

  /** The provided-field part of the chain. */
  function CheckFields(dto: EventDto, categories: map<Uuid, string>): (v: Verdict<EventReason>)
    ensures v == Accepted <==> FieldFailures(dto, categories) == []
    ensures v.Rejected? ==> v.reason == FieldFailures(dto, categories)[0]
  {
    if dto.title.Some? && dto.title.value == "" then Rejected(TitleRequired)
    else if dto.description.Some? && dto.description.value == "" then Rejected(DescriptionRequired)
    else if dto.categoryID.Some? && dto.categoryID.value !in categories then Rejected(CategoryUnknown)
    else if dto.price.Some? && dto.price.value <= 0 then Rejected(PriceNotPositive)
    else if dto.street.Some? && dto.street.value == "" then Rejected(StreetRequired)
    else if dto.city.Some? && dto.city.value == "" then Rejected(CityRequired)
    else if dto.state.Some? && dto.state.value == "" then Rejected(StateRequired)
    else if dto.zipCode.Some? && dto.zipCode.value == "" then Rejected(ZipCodeRequired)
    else if dto.country.Some? && dto.country.value == "" then Rejected(CountryRequired)
    else if dto.capacity.Some? && dto.capacity.value <= 0 then Rejected(CapacityNotPositive)
    else Accepted
  }

  /** `isEventUpdateValid(current, patch)`: `current` is the stored event the
      controller fetched. The closing re-check of the new start only repeats an
      earlier check when a start is given, and throws when none is. */
  function IsEventUpdateValid(current: Event, dto: EventDto, categories: map<Uuid, string>, now: Minutes)
    : (c: UpdateCheck)
    ensures c.Refused? <==> UpdateFailures(current, dto, categories, now) != []
    ensures c.Refused? ==> c.reason == UpdateFailures(current, dto, categories, now)[0]
    ensures c == NoStartGiven <==> UpdateFailures(current, dto, categories, now) == [] && dto.startDateTime.None?
  {
    var head := CheckCurrent(current, now);
    var fields := CheckFields(dto, categories);
    if head.Rejected? then Refused(head.reason)
    else if fields.Rejected? then Refused(fields.reason)
    else if dto.startDateTime.Some? && dto.startDateTime.value < now + OneDay then Refused(StartTooSoon)
    else if dto.startDateTime.Some? && dto.startDateTime.value < current.startDateTime then Refused(StartBeforeCurrent)
    else if dto.startDateTime.None? then NoStartGiven
    else if dto.startDateTime.value < now + OneDay then Refused(StartTooSoon)
    else Passed
  }

  /** An update passes only for an active event starting at least a day ahead,
      and only when it moves the start to a time no earlier than the current
      one and at least a day ahead; every field it provides is well formed. */
  lemma UpdatePassedMeans(current: Event, dto: EventDto, categories: map<Uuid, string>, now: Minutes)
    requires IsEventUpdateValid(current, dto, categories, now) == Passed
    ensures current.status == ACTIVE && current.startDateTime >= now + OneDay
    ensures dto.startDateTime.Some?
    ensures dto.startDateTime.value >= current.startDateTime && dto.startDateTime.value >= now + OneDay
    ensures dto.title != Some("") && dto.description != Some("")
    ensures dto.categoryID.Some? ==> dto.categoryID.value in categories
    ensures dto.price.Some? ==> dto.price.value > 0
    ensures dto.capacity.Some? ==> dto.capacity.value > 0
  {
    assert CurrentFailures(current, now) == [];
    assert FieldFailures(dto, categories) == [];
    assert StartFailures(current, dto, now) == [];
  }

  // ---------------------------------------------------------------------------
  // canCancelEvent
  // ---------------------------------------------------------------------------

  /** `canCancelEvent(current)`: an active event that starts at least a day ahead. */
  function CanCancelEvent(current: Event, now: Minutes): (v: Verdict<EventReason>)
    ensures v == Accepted <==> current.status == ACTIVE && current.startDateTime >= now + OneDay
    ensures current.status == CANCELLED ==> v == Rejected(AlreadyCancelled)
    ensures current.status == ACTIVE && current.startDateTime < now + OneDay ==> v == Rejected(StartTooSoon)
  {
    if current.status == CANCELLED then Rejected(AlreadyCancelled)
    else if current.startDateTime < now + OneDay then Rejected(StartTooSoon)
    else
      assert current.status == ACTIVE;
      Accepted
  }
}
