/** The review participant's `ValidationService`: whether the caller attended
    the event (a search over the bookings the booking participant returns) and
    the ordered review checks. The two web lookups are parameters. */
module ReviewValidation {
  import opened Common

  /** A booking as the booking participant returns it: the status travels as text. */
  datatype BookingSnapshot = BookingSnapshot(id: Uuid, userID: Uuid, eventID: Uuid, status: string)

  /** The event as the catalog returns it to the review participant: status as
      text, both fields nullable. */
  datatype EventSnapshot = EventSnapshot(status: Option<string>, startDateTime: Option<Minutes>)

  /** The review request body (`ReviewDTO`); the rating is a primitive int. */
  datatype ReviewRequest = ReviewRequest(
    rating: int,
    title: Option<string>,
    description: Option<string>,
    userID: Option<Uuid>,
    eventID: Option<Uuid>)

  /** The columns of a stored review the duplicate query compares. */
  datatype StoredReview = StoredReview(eventID: Option<Uuid>, userID: Option<Uuid>)

  // ---------------------------------------------------------------------------
  // isUserBookingValid
  // ---------------------------------------------------------------------------

  /** The stream filter on the fetched list: the bookings of that event, in order. */
  function OfEvent(bookings: seq<BookingSnapshot>, eventID: Uuid): (r: seq<BookingSnapshot>)
    ensures forall b :: b in r <==> b in bookings && b.eventID == eventID
  {
    if bookings == [] then []
    else (if bookings[0].eventID == eventID then [bookings[0]] else []) + OfEvent(bookings[1..], eventID)
  }

  /** `isUserBookingValid`: `fetched` is the list the booking participant
      returned, None when the body was null. True iff one of the caller's
      bookings of the event is CONFIRMED; an empty or null list gives false. */
  method IsUserBookingValid(fetched: Option<seq<BookingSnapshot>>, eventID: Uuid) returns (ok: bool)
    ensures ok <==> fetched.Some? && exists b :: b in fetched.value && b.eventID == eventID && b.status == "CONFIRMED"
  {
    if fetched.None? {
      return false;
    }
    var bookings := OfEvent(fetched.value, eventID);
    if bookings == [] {
      return false;
    }
    var i := 0;
    while i < |bookings|
      invariant 0 <= i <= |bookings|
      invariant forall k :: 0 <= k < i ==> bookings[k].status != "CONFIRMED"
    {
      if bookings[i].eventID == eventID && bookings[i].status == "CONFIRMED" {
        assert bookings[i] in bookings;
        return true;
      }
      i := i + 1;
    }
    return false;
  }

  // ---------------------------------------------------------------------------
  // isReviewValid
  // ---------------------------------------------------------------------------

  /** One reason per `IllegalArgumentException` the chain can throw. */
  datatype ReviewReason =
    | EventCanceled
    | EventNotStarted
    | AlreadyReviewed
    | RatingOutOfRange
    | TitleRequired
    | DescriptionRequired
    | DescriptionTooLong
    | TitleTooLong

  const MaxTitle := 100
  const MaxDescription := 500

  /** `findByEventIDAndUserID(...).size() > 0`, with the ids as the request body
      carries them (a derived query compares a null parameter with IS NULL). */
  predicate AlreadyReviewedBy(reviews: seq<StoredReview>, review: ReviewRequest)
  {
    exists k :: 0 <= k < |reviews| && reviews[k].eventID == review.eventID && reviews[k].userID == review.userID
  }

  /** Every check of `isReviewValid` that fails, in the order the code makes
      them; the lengths, counted in UTF-16 code units as Java counts them, are
      compared only for present texts. */
  function ReviewFailures(review: ReviewRequest, event: EventSnapshot, reviews: seq<StoredReview>,
                          now: Minutes): seq<ReviewReason>
  {
    (if event.status == Some("CANCELED") then [EventCanceled] else [])
    + (if event.startDateTime.Some? && event.startDateTime.value > now then [EventNotStarted] else [])
    + (if AlreadyReviewedBy(reviews, review) then [AlreadyReviewed] else [])
    + (if review.rating < 1 || review.rating > 5 then [RatingOutOfRange] else [])
    + (if Missing(review.title) then [TitleRequired] else [])
    + (if Missing(review.description) then [DescriptionRequired] else [])
    + (if review.description.Some? && Utf16Length(review.description.value) > MaxDescription then [DescriptionTooLong] else [])
    + (if review.title.Some? && Utf16Length(review.title.value) > MaxTitle then [TitleTooLong] else [])
  }

  /** What an accepted review satisfies. */
  predicate Reviewable(review: ReviewRequest, event: EventSnapshot, reviews: seq<StoredReview>, now: Minutes)
  {
    && event.status != Some("CANCELED")
    && (event.startDateTime.None? || event.startDateTime.value <= now)
    && !AlreadyReviewedBy(reviews, review)
    && 1 <= review.rating <= 5
    && review.title.Some? && 1 <= Utf16Length(review.title.value) <= MaxTitle
    && review.description.Some? && 1 <= Utf16Length(review.description.value) <= MaxDescription
  }

  /** `isReviewValid`: the first failing check wins; `reviews` is the review
      table the duplicate query reads. */
  function IsReviewValid(review: ReviewRequest, event: EventSnapshot, reviews: seq<StoredReview>,
                         now: Minutes): (v: Verdict<ReviewReason>)
    ensures v == Accepted <==> ReviewFailures(review, event, reviews, now) == []
    ensures v.Rejected? ==> v.reason == ReviewFailures(review, event, reviews, now)[0]
    ensures v == Accepted <==> Reviewable(review, event, reviews, now)
  {
    if event.status.Some? && event.status.value == "CANCELED" then Rejected(EventCanceled)
    else if event.startDateTime.Some? && event.startDateTime.value > now then Rejected(EventNotStarted)
    else if AlreadyReviewedBy(reviews, review) then Rejected(AlreadyReviewed)
    else if review.rating < 1 || review.rating > 5 then Rejected(RatingOutOfRange)
    else if review.title.None? || review.title.value == "" then Rejected(TitleRequired)
    else if review.description.None? || review.description.value == "" then Rejected(DescriptionRequired)
    else if Utf16Length(review.description.value) > MaxDescription then Rejected(DescriptionTooLong)
    else if Utf16Length(review.title.value) > MaxTitle then Rejected(TitleTooLong)
    else Accepted
  }

  /** The cancelled-event test compares with "CANCELED": a review of an event
      whose status reads "CANCELLED" is not refused by it. */
  lemma CancelledSpellingPasses(review: ReviewRequest, event: EventSnapshot, reviews: seq<StoredReview>, now: Minutes)
    requires event.status == Some("CANCELLED")
    ensures IsReviewValid(review, event, reviews, now) != Rejected(EventCanceled)
  {
    assert "CANCELLED" != "CANCELED" by {
      assert |"CANCELLED"| != |"CANCELED"|;
    }
  }

  /** The title limit counts UTF-16 code units: a title of more than fifty
      characters outside the Basic Multilingual Plane is refused. */
  lemma SurrogatePairsCountTwice(review: ReviewRequest, event: EventSnapshot, reviews: seq<StoredReview>, now: Minutes)
    requires review.title.Some? && |review.title.value| > MaxTitle / 2
    requires forall i :: 0 <= i < |review.title.value| ==> review.title.value[i] >= '\U{10000}'
    ensures IsReviewValid(review, event, reviews, now) != Accepted
  {
  }

  /** When both texts are too long, the description is reported. */
  lemma DescriptionLengthFirst(review: ReviewRequest, event: EventSnapshot, reviews: seq<StoredReview>, now: Minutes)
    requires event.status != Some("CANCELED") && (event.startDateTime.None? || event.startDateTime.value <= now)
    requires !AlreadyReviewedBy(reviews, review) && 1 <= review.rating <= 5
    requires review.title.Some? && Utf16Length(review.title.value) > MaxTitle
    requires review.description.Some? && Utf16Length(review.description.value) > MaxDescription
    ensures IsReviewValid(review, event, reviews, now) == Rejected(DescriptionTooLong)
  {
  }
}
