# EventBooking in Dafny

A model of the business core of EventBooking, an event-ticketing system. The backend is a set of
Spring microservices connected by Kafka topics: bookings, payments, events, notifications, reviews and
users, behind an API gateway. The frontend is a Vue single-page application. The model covers:

- **Booking service.** Creating a booking (starts PENDING). Cancelling a booking. Reacting to payment
  decisions (APPROVED → CONFIRMED, anything else → REJECTED). Cascading an event cancellation to every
  PENDING or CONFIRMED booking of that event. Fanning an event update out to the affected bookings.
- **Booking rules.** Booking validation (email shape, capacity, lead time, no booking of one's own
  event, balance) and the HTTP controller decision chains.
- **Payment ledger.** Each payment row is a signed amount. A user's balance is the sum of their
  APPROVED rows. The ledger handles charging a new booking, refunding a cancelled one (one booking or a
  whole event's batch) and topping up.
- **Event catalogue.** Listing with filters, newest first. Creating, partially updating and cancelling
  events, with their validation and controller chains.
- **Notifications.** The consumer that writes notification rows for booking, cancellation, event update
  and review messages.
- **Review eligibility** and review request validation.
- **User accounts.** Registration (role assignment, password hashing as a parameter), profile
  update (an ADMIN role request is downgraded), username availability.
- **API gateway.** The `Bearer ` header handling and role check of the JWT utility, and the table of
  open endpoints.
- **Frontend.** The Vuex auth store (token, user, persisted token, default Authorization header; login,
  logout, auto-login) and the router guard.

Each database table is a class whose `rows` field is a sequence. Its `Valid()` invariant is uniqueness
of the primary key, and `Save` is an upsert by id, as JPA's `save` is. The Kafka producer is
`Bus.Outbox`, whose `sent` sequence records every published message in order. Every service
operation that changes state is a method over these objects. It is specified by a pure function of
the old state, and the rule the source promises is proved as lemmas about that function. Money is an
integer number of minor units. Time is an integer number of minutes (`OneHour`, `OneDay`).

Where the descriptive documentation of the system and the code disagree, the model follows the code:

- A payment decision overwrites the booking status even when the booking is already CANCELLED. No
  terminal-state guard exists (`BookingConsumer.DecisionOverridesCancelled`).
- Booking cancellation is blocked only by the event status literal `"CANCELED"`. Events are stored as
  `"CANCELLED"`, so a cancelled event never blocks it (`BookingValidation.CancelledEventDoesNotBlockCancel`).
  The review validator has the same spelling (`ReviewValidation.CancelledSpellingPasses`).
- A redelivered booking message is charged twice. No deduplication by booking id exists
  (`PaymentConsumer.RedeliveryChargesTwice`).
- A balance top-up does not check the sign of the amount (`PaymentService.TopUpBalance`).
- An event update request without a start time reaches a null dereference in the validator. The model
  answers this with `UpdateCheck.NoStartGiven` and INTERNAL_SERVER_ERROR.

## Model

| member | source | states |
|---|---|---|
| Bus.DecodePayment | backend/bookingservice/src/main/java/com/eventbooking/bookingservice/dto/PaymentDTO.java:17-30 | the booking service's view of a payment keeps its booking id, and its status string is "APPROVED" exactly when the payment was approved |
| Bus.Outbox.constructor | backend/bookingservice/src/main/java/com/eventbooking/bookingservice/service/BookingService.java:73 | a fresh producer has published nothing |
| Bus.Outbox.Send | backend/bookingservice/src/main/java/com/eventbooking/bookingservice/service/BookingService.java:73 | publishing appends exactly that message to the sent log |
| Keyed.FindKey | backend/eventservice/src/main/java/com/eventbooking/eventservice/service/EventService.java:40-44 | findById finds a row exactly when the id is stored, and with unique ids it is the row holding that id |
| Keyed.Upsert | backend/eventservice/src/main/java/com/eventbooking/eventservice/service/EventService.java:65 | save appends a row with a new id, replaces the row with an existing id in place, and keeps ids unique |
| PaymentModel.StatusName | backend/paymentservice/src/main/java/com/eventbooking/paymentservice/service/ConsumerService.java:53-62 | a payment status serialises to "APPROVED" exactly for APPROVED |
| EventModel.EventStatusName | backend/eventservice/src/main/java/com/eventbooking/eventservice/service/EventService.java:134-155 | event statuses serialise to "ACTIVE" and "CANCELLED", one to one |
| Common.Split | frontend/src/store/modules/auth.js:44 | the pieces of a split contain no separator and joining them with it gives back the string |
| Common.Trim | frontend/src/store/modules/auth.js:44 | the result is a slice of the input that neither starts nor ends with white space, and everything cut off before and after it is white space (ECMAScript's WhiteSpace and LineTerminator characters) |
| BookingRepository.ActiveEventBookings | backend/bookingservice/src/main/java/com/eventbooking/bookingservice/repository/BookingRepository.java:12-13 | the active bookings of an event are exactly the stored PENDING or CONFIRMED bookings of that event |
| BookingRepository.ParticipantCountIsActiveSize | backend/bookingservice/src/main/java/com/eventbooking/bookingservice/repository/BookingRepository.java:15-16 | the participant count is the number of active bookings of the event, never null, and 0 exactly when there are none |
| BookingRepository.Find | backend/bookingservice/src/main/java/com/eventbooking/bookingservice/service/BookingService.java:46-49 | findById returns a booking exactly when the id is stored, and it is the row holding that id |
| BookingRepository.Replace | backend/bookingservice/src/main/java/com/eventbooking/bookingservice/service/BookingService.java:86 | saving an existing booking replaces exactly the rows with its id |
| BookingRepository.Upsert | backend/bookingservice/src/main/java/com/eventbooking/bookingservice/service/BookingService.java:69 | save appends a booking with a new id at the end, replaces the row holding an existing id and leaves every other row as it was, and keeps ids unique |
| BookingRepository.BookingDb.constructor | backend/bookingservice/src/main/java/com/eventbooking/bookingservice/repository/BookingRepository.java:10-17 | an empty bookings table satisfies the unique-id invariant |
| BookingRepository.BookingDb.Save | backend/bookingservice/src/main/java/com/eventbooking/bookingservice/service/BookingService.java:69 | save upserts by id and keeps the unique-id invariant |
| BookingService.EventBookings | backend/bookingservice/src/main/java/com/eventbooking/bookingservice/service/BookingService.java:29-35 | the result holds exactly the stored bookings of the event |
| BookingService.UserBookings | backend/bookingservice/src/main/java/com/eventbooking/bookingservice/service/BookingService.java:37-44 | the result holds exactly the user's bookings, restricted to the event when one is given |
| BookingService.AddBooking | backend/bookingservice/src/main/java/com/eventbooking/bookingservice/service/BookingService.java:51-78 | the booking is stored PENDING with the event's current price, and exactly one BookingCreated message carrying it is published |
| BookingService.CancelBooking | backend/bookingservice/src/main/java/com/eventbooking/bookingservice/service/BookingService.java:80-95 | an unknown id changes nothing; otherwise only that booking becomes CANCELLED and one BookingCancelled message with the cancelled booking is published |
| BookingService.CancelTouchesOnlyThatBooking | backend/bookingservice/src/main/java/com/eventbooking/bookingservice/service/BookingService.java:80-95 | cancelling one booking leaves every other row unchanged and keeps the set of ids |
| BookingConsumer.DecisionStatus | backend/bookingservice/src/main/java/com/eventbooking/bookingservice/service/ConsumerService.java:41-49 | a payment decision yields CONFIRMED exactly for "APPROVED" and REJECTED otherwise |
| BookingConsumer.ProcessPayment | backend/bookingservice/src/main/java/com/eventbooking/bookingservice/service/ConsumerService.java:31-50 | the bookings table becomes the payment decision applied to the old table, with ids still unique |
| BookingConsumer.ApplyPaymentEffect | backend/bookingservice/src/main/java/com/eventbooking/bookingservice/service/ConsumerService.java:31-50 | only the booking named by the payment changes, and only its status; an unknown or missing booking id changes nothing |
| BookingConsumer.DecisionOverridesCancelled | backend/bookingservice/src/main/java/com/eventbooking/bookingservice/service/ConsumerService.java:41-49 | as written, a payment decision for an already CANCELLED booking takes it out of CANCELLED (to CONFIRMED when approved) |
| BookingConsumer.ApplyPaymentIdempotent | backend/bookingservice/src/main/java/com/eventbooking/bookingservice/service/ConsumerService.java:31-50 | applying the same payment decision twice equals applying it once |
| BookingConsumer.CancelledCopies | backend/bookingservice/src/main/java/com/eventbooking/bookingservice/service/ConsumerService.java:63-70 | the cascade message carries each affected booking with status CANCELLED, in order |
| BookingConsumer.CancelIds | backend/bookingservice/src/main/java/com/eventbooking/bookingservice/service/ConsumerService.java:63-68 | exactly the rows whose id is in the set become CANCELLED |
| BookingConsumer.CancelActive | backend/bookingservice/src/main/java/com/eventbooking/bookingservice/service/ConsumerService.java:56-68 | exactly the active bookings of the event become CANCELLED; every other row is unchanged |
| BookingConsumer.ActiveOf | backend/bookingservice/src/main/java/com/eventbooking/bookingservice/service/ConsumerService.java:56 | an event message without an id selects no bookings |
| BookingConsumer.ProcessEventCancelled | backend/bookingservice/src/main/java/com/eventbooking/bookingservice/service/ConsumerService.java:52-73 | the loop cancels every active booking of the event and nothing else, then publishes one EventBookingsCancelled message with the cancelled copies when the event has at least one active booking; otherwise nothing is published |
| BookingConsumer.CascadeLeavesNoActive | backend/bookingservice/src/main/java/com/eventbooking/bookingservice/service/ConsumerService.java:56-68 | after the cascade the event has no active booking and a participant count of 0, and inactive rows are untouched |
| BookingConsumer.CascadeIdempotent | backend/bookingservice/src/main/java/com/eventbooking/bookingservice/service/ConsumerService.java:52-73 | redelivering an event cancellation leaves the table as the first delivery left it |
| BookingConsumer.ProcessEventUpdate | backend/bookingservice/src/main/java/com/eventbooking/bookingservice/service/ConsumerService.java:75-87 | the table is untouched; one EventUpdatedBookings message with the event's active bookings is published when the event has at least one active booking, otherwise nothing is published |
| BookingValidation.IsValidEmail | backend/bookingservice/src/main/java/com/eventbooking/bookingservice/service/ValidationService.java:50-52 | the whole address matches the pattern exactly when some '@' follows a non-empty local part over letters, digits and `+_.-` and precedes at least one character that is not a line terminator |
| BookingValidation.IsBookingValid | backend/bookingservice/src/main/java/com/eventbooking/bookingservice/service/ValidationService.java:41-77 | a booking is accepted exactly when no rule fails, and a refusal names the first failing rule in source order |
| BookingValidation.BookingBoundaries | backend/bookingservice/src/main/java/com/eventbooking/bookingservice/service/ValidationService.java:58-74 | the last free seat, a start exactly one hour ahead and a balance exactly equal to the price are accepted; a full event is refused |
| BookingValidation.CanCancelBooking | backend/bookingservice/src/main/java/com/eventbooking/bookingservice/service/ValidationService.java:79-95 | cancellation is allowed exactly when the booking is not CANCELLED, the event status is not "CANCELED" and the start is at least an hour ahead |
| BookingValidation.CancelledEventDoesNotBlockCancel | backend/bookingservice/src/main/java/com/eventbooking/bookingservice/service/ValidationService.java:90-92 | as written, an event stored as "CANCELLED" does not block cancelling its bookings |
| BookingValidation.IsOwner | backend/bookingservice/src/main/java/com/eventbooking/bookingservice/service/ValidationService.java:97-100 | true exactly when a booking with that id belongs to the user |
| BookingController.Lookup | backend/bookingservice/src/main/java/com/eventbooking/bookingservice/controller/BookingController.java:59-65 | the event lookup succeeds exactly for catalogued events |
| BookingController.GetUserBookings | backend/bookingservice/src/main/java/com/eventbooking/bookingservice/controller/BookingController.java:38-50 | 401 exactly without a valid token; otherwise 200 with the caller's own bookings |
| BookingController.GetEventBookings | backend/bookingservice/src/main/java/com/eventbooking/bookingservice/controller/BookingController.java:52-75 | 401 without token, 404 for an unknown event, 403 unless organizer or admin, else 200 with exactly the event's bookings |
| BookingController.Prepared | backend/bookingservice/src/main/java/com/eventbooking/bookingservice/controller/BookingController.java:93-97 | the stored request takes user, event and price from the token, the path and the event, and only name and email from the body |
| BookingController.CreateStatus | backend/bookingservice/src/main/java/com/eventbooking/bookingservice/controller/BookingController.java:77-108 | 401, 404, 400 or 201, each exactly under its condition in the source's order |
| BookingController.CreateIgnoresBodyIdentity | backend/bookingservice/src/main/java/com/eventbooking/bookingservice/controller/BookingController.java:93-97 | the user, event and price given in the body never change the outcome |
| BookingController.CreateEventBooking | backend/bookingservice/src/main/java/com/eventbooking/bookingservice/controller/BookingController.java:77-108 | the reply status is the decision chain's; only on 201 is a PENDING booking stored and announced, otherwise nothing changes |
| BookingController.GetBooking | backend/bookingservice/src/main/java/com/eventbooking/bookingservice/controller/BookingController.java:110-139 | 401, 404 (unknown booking or event), 403 unless owner, organizer or admin, else 200 with the stored booking |
| BookingController.CancelStatus | backend/bookingservice/src/main/java/com/eventbooking/bookingservice/controller/BookingController.java:141-177 | the access refusals of the read path come first; then 400 exactly when the cancellation rule refuses, else 200 |
| BookingController.CancelledBookingIsBadRequest | backend/bookingservice/src/main/java/com/eventbooking/bookingservice/controller/BookingController.java:169-173 | an already cancelled booking is never cancelled again |
| BookingController.CancelUserBooking | backend/bookingservice/src/main/java/com/eventbooking/bookingservice/controller/BookingController.java:141-177 | the reply status is the decision chain's; only on 200 is the booking cancelled and announced, otherwise nothing changes |
| PaymentRepository.BalanceAppend | backend/paymentservice/src/main/java/com/eventbooking/paymentservice/repository/PaymentRepository.java:13-14 | appending a row adds its contribution (its amount when APPROVED and the user's) to the balance |
| PaymentRepository.BalanceUpdate | backend/paymentservice/src/main/java/com/eventbooking/paymentservice/repository/PaymentRepository.java:13-14 | replacing one row changes the balance by the difference of the two rows' contributions |
| PaymentRepository.BalanceWithoutApproved | backend/paymentservice/src/main/java/com/eventbooking/paymentservice/repository/PaymentRepository.java:13-14 | the coalesced sum is 0 when the user has no approved row |
| PaymentRepository.ByUser | backend/paymentservice/src/main/java/com/eventbooking/paymentservice/repository/PaymentRepository.java:16 | exactly the user's payments |
| PaymentRepository.ByBooking | backend/paymentservice/src/main/java/com/eventbooking/paymentservice/repository/PaymentRepository.java:18 | exactly the payments attached to the booking |
| PaymentRepository.Upsert | backend/paymentservice/src/main/java/com/eventbooking/paymentservice/service/ConsumerService.java:77-79 | save appends a payment with a new id and replaces one with an existing id, keeping ids unique |
| PaymentRepository.PaymentDb.constructor | backend/paymentservice/src/main/java/com/eventbooking/paymentservice/repository/PaymentRepository.java:12-19 | an empty ledger satisfies the unique-id invariant |
| PaymentRepository.PaymentDb.Save | backend/paymentservice/src/main/java/com/eventbooking/paymentservice/service/ConsumerService.java:43-49 | save upserts by id and keeps the unique-id invariant |
| PaymentConsumer.Charge | backend/paymentservice/src/main/java/com/eventbooking/paymentservice/service/ConsumerService.java:35-51 | the charge is the negated price for that user and booking, APPROVED exactly when the balance covers the price, else REJECTED |
| PaymentConsumer.ProcessBooking | backend/paymentservice/src/main/java/com/eventbooking/paymentservice/service/ConsumerService.java:31-65 | exactly one charge row is appended and exactly one PaymentCreated message with it is published |
| PaymentConsumer.ChargeBalance | backend/paymentservice/src/main/java/com/eventbooking/paymentservice/service/ConsumerService.java:41-51 | an approved charge lowers the booker's balance by the price; a rejected one and other users' balances are unchanged |
| PaymentConsumer.ChargeNeverOverdraws | backend/paymentservice/src/main/java/com/eventbooking/paymentservice/service/ConsumerService.java:41-51 | a non-negative balance stays non-negative after a charge |
| PaymentConsumer.RedeliveryChargesTwice | backend/paymentservice/src/main/java/com/eventbooking/paymentservice/service/ConsumerService.java:31-51 | as written, the same booking delivered twice with enough funds is charged twice |
| PaymentConsumer.FirstApproved | backend/paymentservice/src/main/java/com/eventbooking/paymentservice/service/ConsumerService.java:71-75 | the first APPROVED payment of the booking in ledger order, or none exactly when there is none |
| PaymentConsumer.Refund | backend/paymentservice/src/main/java/com/eventbooking/paymentservice/service/ConsumerService.java:71-83 | at most one row changes, the first APPROVED payment of the booking becomes REFUNDED, and with none the ledger is unchanged |
| PaymentConsumer.ProcessBookingCancellation | backend/paymentservice/src/main/java/com/eventbooking/paymentservice/service/ConsumerService.java:67-84 | the ledger becomes the refund of the booking applied to the old ledger |
| PaymentConsumer.RefundShrinksApproved | backend/paymentservice/src/main/java/com/eventbooking/paymentservice/service/ConsumerService.java:77-79 | a refund never makes any payment APPROVED |
| PaymentConsumer.RefundIdempotent | backend/paymentservice/src/main/java/com/eventbooking/paymentservice/service/ConsumerService.java:71-83 | with at most one approved payment per booking, refunding twice equals refunding once |
| PaymentConsumer.RefundBalance | backend/paymentservice/src/main/java/com/eventbooking/paymentservice/service/ConsumerService.java:77-79 | the refund gives the payment's amount back to its owner's balance and leaves other balances alone |
| PaymentConsumer.ChargeThenRefund | backend/paymentservice/src/main/java/com/eventbooking/paymentservice/service/ConsumerService.java:35-83 | charging a booking and then refunding it restores every balance |
| PaymentConsumer.RefundAll | backend/paymentservice/src/main/java/com/eventbooking/paymentservice/service/ConsumerService.java:90-108 | the batch refund is the fold of the single refund over the batch in order and keeps the ledger's length; what it achieves is stated by RefundAllClears and RefundAllShrinks |
| PaymentConsumer.IdList | backend/paymentservice/src/main/java/com/eventbooking/paymentservice/service/ConsumerService.java:90-91 | the ids of the batch's bookings, in order |
| PaymentConsumer.ProcessEventBookingsCancelled | backend/paymentservice/src/main/java/com/eventbooking/paymentservice/service/ConsumerService.java:86-109 | the loop leaves the ledger equal to the refunds of the batch's bookings applied in order |
| PaymentConsumer.RefundAllClears | backend/paymentservice/src/main/java/com/eventbooking/paymentservice/service/ConsumerService.java:90-108 | after the batch no booking of the batch has an APPROVED payment |
| PaymentConsumer.RefundAllShrinks | backend/paymentservice/src/main/java/com/eventbooking/paymentservice/service/ConsumerService.java:90-108 | the batch never makes a payment APPROVED and keeps at most one approved payment per booking |
| PaymentConsumer.RefundClearsOne | backend/paymentservice/src/main/java/com/eventbooking/paymentservice/service/ConsumerService.java:71-79 | after a refund the booking has no APPROVED payment left |
| PaymentService.GetUserPayments | backend/paymentservice/src/main/java/com/eventbooking/paymentservice/service/PaymentService.java:23-30 | exactly the user's payments |
| PaymentService.GetUserBalance | backend/paymentservice/src/main/java/com/eventbooking/paymentservice/service/PaymentService.java:32-34 | the balance is the approved-sum Balance, 0 for a user without payments; how operations move it is stated by the PaymentRepository and PaymentConsumer Balance lemmas |
| PaymentService.TopUp | backend/paymentservice/src/main/java/com/eventbooking/paymentservice/service/PaymentService.java:39-45 | the top-up row is APPROVED, for that user and amount, attached to no booking |
| PaymentService.IncreaseBalance | backend/paymentservice/src/main/java/com/eventbooking/paymentservice/service/PaymentService.java:36-50 | exactly one top-up row is appended to the ledger and returned |
| PaymentService.TopUpBalance | backend/paymentservice/src/main/java/com/eventbooking/paymentservice/service/PaymentService.java:36-49 | the user's balance grows by the amount, whatever its sign, and no other balance changes |
| NotificationConsumer.NotificationDb.constructor | backend/notificationservice/src/main/java/com/eventbooking/notificationservice/service/ConsumerService.java:44-60 | an empty notification table |
| NotificationConsumer.NotificationDb.Save | backend/notificationservice/src/main/java/com/eventbooking/notificationservice/service/ConsumerService.java:57 | save appends the notification |
| NotificationConsumer.ProcessBooking | backend/notificationservice/src/main/java/com/eventbooking/notificationservice/service/ConsumerService.java:44-60 | exactly one notice with the booking-created texts, addressed to the booker and the booking |
| NotificationConsumer.ProcessBookingCancelled | backend/notificationservice/src/main/java/com/eventbooking/notificationservice/service/ConsumerService.java:62-78 | exactly one notice with the cancellation texts, addressed to the booker and the booking |
| NotificationConsumer.CascadeNotices | backend/notificationservice/src/main/java/com/eventbooking/notificationservice/service/ConsumerService.java:84-98 | one event-cancelled notice per booking, in order, addressed to its booker and booking |
| NotificationConsumer.ProcessEventBookingsCancelled | backend/notificationservice/src/main/java/com/eventbooking/notificationservice/service/ConsumerService.java:80-99 | the loop appends exactly the cascade notices of the batch |
| NotificationConsumer.CascadeNoticesReachEveryBooking | backend/notificationservice/src/main/java/com/eventbooking/notificationservice/service/ConsumerService.java:84-98 | every booking of the batch receives its notice |
| NotificationConsumer.Distinct | backend/notificationservice/src/main/java/com/eventbooking/notificationservice/service/ConsumerService.java:107-110 | the distinct user ids hold the same members without repetition |
| NotificationConsumer.DistinctKeepsFirstOccurrenceOrder | backend/notificationservice/src/main/java/com/eventbooking/notificationservice/service/ConsumerService.java:107-110 | the distinct ids keep the order of their first occurrences |
| NotificationConsumer.UserIDs | backend/notificationservice/src/main/java/com/eventbooking/notificationservice/service/ConsumerService.java:107-108 | the bookers of the batch, in order |
| NotificationConsumer.UpdateNotices | backend/notificationservice/src/main/java/com/eventbooking/notificationservice/service/ConsumerService.java:112-123 | one event-updated notice per user, attached to the event |
| NotificationConsumer.ProcessEventUpdatedBookings | backend/notificationservice/src/main/java/com/eventbooking/notificationservice/service/ConsumerService.java:101-124 | an empty batch fails and writes nothing; otherwise one notice per distinct booker for the first booking's event |
| NotificationConsumer.UpdateNoticesOnePerUser | backend/notificationservice/src/main/java/com/eventbooking/notificationservice/service/ConsumerService.java:105-123 | a booker is notified exactly when they hold a booking in the batch, and exactly once |
| NotificationConsumer.ProcessReview | backend/notificationservice/src/main/java/com/eventbooking/notificationservice/service/ConsumerService.java:126-152 | without the reviewed event nothing is written; otherwise one review notice to the event's organizer |
| EventRepository.SearchIgnoresDescription | backend/eventservice/src/main/java/com/eventbooking/eventservice/repository/EventRepository.java:24-26 | the search text is matched against the title only |
| EventRepository.Filter | backend/eventservice/src/main/java/com/eventbooking/eventservice/repository/EventRepository.java:24-26 | exactly the events satisfying every given filter; an absent filter passes everything |
| EventRepository.Insert | backend/eventservice/src/main/java/com/eventbooking/eventservice/repository/EventRepository.java:27 | inserting adds exactly that event and keeps every other one, and the head is the new event or the old head |
| EventRepository.InsertKeepsOrder | backend/eventservice/src/main/java/com/eventbooking/eventservice/repository/EventRepository.java:27 | inserting into a newest-first list keeps it newest-first |
| EventRepository.FilterKeepsUniqueKeys | backend/eventservice/src/main/java/com/eventbooking/eventservice/repository/EventRepository.java:24-26 | the query never returns two rows with the same id |
| EventRepository.SortLatestFirst | backend/eventservice/src/main/java/com/eventbooking/eventservice/repository/EventRepository.java:27 | the result is a permutation ordered by start time, latest first |
| EventRepository.PermutationKeepsUniqueKeys | backend/eventservice/src/main/java/com/eventbooking/eventservice/repository/EventRepository.java:27 | reordering keeps ids unique |
| EventRepository.GetEvents | backend/eventservice/src/main/java/com/eventbooking/eventservice/repository/EventRepository.java:24-28 | the listing holds exactly the matching events, each once, latest first |
| EventRepository.UnfilteredListsEverything | backend/eventservice/src/main/java/com/eventbooking/eventservice/repository/EventRepository.java:24-28 | with no filters the listing is a permutation of all events |
| EventRepository.FilterAll | backend/eventservice/src/main/java/com/eventbooking/eventservice/repository/EventRepository.java:24-26 | with no filters the filter keeps every event in order |
| EventRepository.EventDb.constructor | backend/eventservice/src/main/java/com/eventbooking/eventservice/repository/EventRepository.java:11-29 | an empty events table satisfies the unique-id invariant |
| EventRepository.EventDb.Save | backend/eventservice/src/main/java/com/eventbooking/eventservice/service/EventService.java:65 | save upserts by id and keeps the unique-id invariant |
| EventService.ToEventDto | backend/eventservice/src/main/java/com/eventbooking/eventservice/service/EventService.java:134-155 | the snapshot carries every stored field (it converts back to the same event) plus the category name when known |
| EventService.Snapshots | backend/eventservice/src/main/java/com/eventbooking/eventservice/service/EventService.java:34-37 | one snapshot per event, in order |
| EventService.SnapshotsKeepOrder | backend/eventservice/src/main/java/com/eventbooking/eventservice/service/EventService.java:34-37 | snapshots of a newest-first list are newest-first |
| EventService.SnapshotsKeepMembers | backend/eventservice/src/main/java/com/eventbooking/eventservice/service/EventService.java:34-37 | a snapshot is in the list exactly when it is the snapshot of a listed event |
| EventService.GetEvents | backend/eventservice/src/main/java/com/eventbooking/eventservice/service/EventService.java:31-38 | exactly the snapshots of the matching events, latest start first |
| EventService.GetEvent | backend/eventservice/src/main/java/com/eventbooking/eventservice/service/EventService.java:40-44 | a snapshot exactly for a stored id, and it is the snapshot of that event |
| EventService.ValidRequestIsFillable | backend/eventservice/src/main/java/com/eventbooking/eventservice/service/ValidationService.java:49-87 | a request that passes creation validation carries every field the new event needs |
| EventService.NewEvent | backend/eventservice/src/main/java/com/eventbooking/eventservice/service/EventService.java:46-63 | the new event gets the generated id, status ACTIVE and the creation time |
| EventService.AddEventEchoesRequest | backend/eventservice/src/main/java/com/eventbooking/eventservice/service/EventService.java:46-69 | the returned snapshot echoes every other field of the request; the catalog fills in the id, the category name, status ACTIVE and the creation time |
| EventService.AddEvent | backend/eventservice/src/main/java/com/eventbooking/eventservice/service/EventService.java:46-70 | exactly one new ACTIVE event is appended and its snapshot returned |
| EventService.ApplyPatch | backend/eventservice/src/main/java/com/eventbooking/eventservice/service/EventService.java:75-106 | each editable field takes the given value when present and keeps its old value when absent; id, organizer, status and creation time never change |
| EventService.ApplyPatchIdempotent | backend/eventservice/src/main/java/com/eventbooking/eventservice/service/EventService.java:75-106 | applying the same patch twice equals applying it once |
| EventService.SnapshotPatchCopiesEditableFields | backend/eventservice/src/main/java/com/eventbooking/eventservice/service/EventService.java:75-106 | patching with a full snapshot of another event copies all its editable fields |
| EventService.PatchKeepsOwnerAndStatus | backend/eventservice/src/main/java/com/eventbooking/eventservice/service/EventService.java:75-106 | an update never changes the organizer or the status |
| EventService.UpdateEvent | backend/eventservice/src/main/java/com/eventbooking/eventservice/service/EventService.java:72-117 | an unknown id changes nothing; otherwise the event is patched in place, and EventUpdated with its snapshot is published |
| EventService.CancelEvent | backend/eventservice/src/main/java/com/eventbooking/eventservice/service/EventService.java:119-132 | an unknown id changes nothing; otherwise only that event becomes CANCELLED and EventCancelled with its snapshot is published |
| EventService.CancelledEventIsFinal | backend/eventservice/src/main/java/com/eventbooking/eventservice/service/ValidationService.java:89-148 | a cancelled event can be neither updated nor cancelled again, and no patch reactivates it |
| EventValidation.IsOrganizer | backend/eventservice/src/main/java/com/eventbooking/eventservice/service/ValidationService.java:28-31 | true exactly when the event exists and the user organises it |
| EventValidation.IsEventPresent | backend/eventservice/src/main/java/com/eventbooking/eventservice/service/ValidationService.java:33-35 | true exactly when an event with that id is stored |
| EventValidation.IsEventValid | backend/eventservice/src/main/java/com/eventbooking/eventservice/service/ValidationService.java:49-87 | a creation request is accepted exactly when every field is present and well formed, and a refusal names the first failing rule |
| EventValidation.CreateIgnoresPriceSign | backend/eventservice/src/main/java/com/eventbooking/eventservice/service/ValidationService.java:49-87 | as written, creation checks only that a price is present, never its value |
| EventValidation.CheckCurrent | backend/eventservice/src/main/java/com/eventbooking/eventservice/service/ValidationService.java:90-94 | the stored event passes exactly when it is not cancelled and starts at least a day ahead |
| EventValidation.CheckFields | backend/eventservice/src/main/java/com/eventbooking/eventservice/service/ValidationService.java:96-124 | the given fields pass exactly when none is blank, the category exists and price and capacity are positive |
| EventValidation.IsEventUpdateValid | backend/eventservice/src/main/java/com/eventbooking/eventservice/service/ValidationService.java:89-138 | an update is refused with the first failing rule, and reaches the missing start time only after every other rule passed |
| EventValidation.UpdatePassedMeans | backend/eventservice/src/main/java/com/eventbooking/eventservice/service/ValidationService.java:89-138 | an accepted update targets an active event a day or more ahead, moves the start no earlier, and carries only well-formed fields |
| EventValidation.CanCancelEvent | backend/eventservice/src/main/java/com/eventbooking/eventservice/service/ValidationService.java:140-148 | cancellation is allowed exactly for an active event starting at least a day ahead, with the matching refusal otherwise |
| EventController.GetEvent | backend/eventservice/src/main/java/com/eventbooking/eventservice/controller/EventController.java:50-58 | 404 exactly for an unknown id, else 200 with the event's snapshot |
| EventController.Owned | backend/eventservice/src/main/java/com/eventbooking/eventservice/controller/EventController.java:70-72 | the organizer is taken from the token and every other field from the body |
| EventController.AddStatus | backend/eventservice/src/main/java/com/eventbooking/eventservice/controller/EventController.java:60-83 | 401, 403 without ORGANIZER or ADMIN, 400 for an invalid request, else 201, each exactly under its condition |
| EventController.AddIgnoresBodyOrganizer | backend/eventservice/src/main/java/com/eventbooking/eventservice/controller/EventController.java:70-75 | the organizer given in the body never changes the outcome or the stored event |
| EventController.AddEvent | backend/eventservice/src/main/java/com/eventbooking/eventservice/controller/EventController.java:60-83 | the reply status is the decision chain's; only on 201 is the event stored with the caller as organizer, otherwise nothing changes |
| EventController.UpdateStatus | backend/eventservice/src/main/java/com/eventbooking/eventservice/controller/EventController.java:85-112 | 401, 404, 403 unless organizer or admin, then the validator decides 400, 500 (no start time) or 200 |
| EventController.UpdateOkMeans | backend/eventservice/src/main/java/com/eventbooking/eventservice/controller/EventController.java:85-112 | a 200 update came from a permitted caller on an existing active event, with a passing request |
| EventController.UpdateEvent | backend/eventservice/src/main/java/com/eventbooking/eventservice/controller/EventController.java:85-112 | the reply status is the decision chain's; only on 200 is the event patched and announced, otherwise nothing changes |
| EventController.CancelStatus | backend/eventservice/src/main/java/com/eventbooking/eventservice/controller/EventController.java:114-140 | 401, 404, 403 unless organizer or admin, 400 when the cancellation rule refuses, else 200 |
| EventController.CancelEvent | backend/eventservice/src/main/java/com/eventbooking/eventservice/controller/EventController.java:114-140 | the reply status is the decision chain's; only on 200 is the event cancelled and announced, otherwise nothing changes |
| ReviewValidation.OfEvent | backend/reviewservice/src/main/java/com/eventbooking/reviewservice/service/ValidationService.java:39-48 | exactly the fetched bookings of the event |
| ReviewValidation.IsUserBookingValid | backend/reviewservice/src/main/java/com/eventbooking/reviewservice/service/ValidationService.java:38-61 | eligible exactly when the fetch succeeded and the user holds a CONFIRMED booking for the event |
| Common.Utf16Length | backend/reviewservice/src/main/java/com/eventbooking/reviewservice/service/ValidationService.java:82-86 | Java's `length()` counts each character outside the Basic Multilingual Plane twice: between one and two units per character, exactly one each when all are in that plane; its effect on the review limits is stated by ReviewValidation.SurrogatePairsCountTwice |
| ReviewValidation.IsReviewValid | backend/reviewservice/src/main/java/com/eventbooking/reviewservice/service/ValidationService.java:63-89 | a review is accepted exactly when every rule passes, with the 100 and 500 limits counted in UTF-16 code units, and a refusal names the first failing rule |
| ReviewValidation.SurrogatePairsCountTwice | backend/reviewservice/src/main/java/com/eventbooking/reviewservice/service/ValidationService.java:85-86 | a title of more than fifty characters outside the Basic Multilingual Plane exceeds the 100-unit limit and is refused |
| ReviewValidation.CancelledSpellingPasses | backend/reviewservice/src/main/java/com/eventbooking/reviewservice/service/ValidationService.java:64-66 | as written, an event stored as "CANCELLED" is not refused as cancelled |
| ReviewValidation.DescriptionLengthFirst | backend/reviewservice/src/main/java/com/eventbooking/reviewservice/service/ValidationService.java:80-86 | when both texts are too long the description refusal is reported |
| UserService.UserDb.constructor | backend/userservice/src/main/java/com/eventbooking/userservice/model/User.java:19-32 | an empty users table with unique ids and usernames |
| UserService.ToUserDto | backend/userservice/src/main/java/com/eventbooking/userservice/service/UserService.java:105-115 | the reply copies every public field of the user |
| UserService.DtoHidesPassword | backend/userservice/src/main/java/com/eventbooking/userservice/service/UserService.java:105-115 | the reply never depends on the password |
| UserService.ByUsername | backend/userservice/src/main/java/com/eventbooking/userservice/service/UserService.java:89 | a user with that username, or none exactly when nobody holds it |
| UserService.IsUsernameAvailable | backend/userservice/src/main/java/com/eventbooking/userservice/service/UserService.java:88-99 | available exactly when nobody holds the name or only the updating user does |
| UserService.RegisteredRole | backend/userservice/src/main/java/com/eventbooking/userservice/service/UserService.java:35-39 | registration never grants ADMIN: ORGANIZER exactly on request, PARTICIPANT otherwise |
| UserService.NewUser | backend/userservice/src/main/java/com/eventbooking/userservice/service/UserService.java:41-48 | the new user stores the encoded password, the registered role and the given profile fields |
| UserService.AddUser | backend/userservice/src/main/java/com/eventbooking/userservice/service/UserService.java:34-56 | exactly one new user is appended, usernames stay unique, and the reply is its public view |
| UserService.UpdatedRole | backend/userservice/src/main/java/com/eventbooking/userservice/service/UserService.java:76-79 | a requested ADMIN role becomes PARTICIPANT; no request keeps the role; any other request is granted |
| UserService.PatchUser | backend/userservice/src/main/java/com/eventbooking/userservice/service/UserService.java:61-79 | every given field replaces the stored one, the password re-encoded; absent fields, id and creation time stay |
| UserService.NoSelfPromotion | backend/userservice/src/main/java/com/eventbooking/userservice/service/UserService.java:35-79 | neither registration nor an update can produce ADMIN unless the user already was one and asked for no role |
| UserService.UpdateUser | backend/userservice/src/main/java/com/eventbooking/userservice/service/UserService.java:58-86 | an unknown id changes nothing; otherwise only that user is patched, usernames stay unique, and the reply is its public view |
| GatewayJwt.GetTokenFromHeader | backend/apigateway/src/main/java/com/eventbooking/apigateway/util/JwtUtil.java:67-72 | a value starting with "Bearer " loses exactly that prefix; anything else passes through unchanged |
| GatewayJwt.PlainIsFixed | backend/apigateway/src/main/java/com/eventbooking/apigateway/util/JwtUtil.java:41-72 | stripping a value without the prefix any number of times changes nothing |
| GatewayJwt.RepeatedStripIsStripOnce | backend/apigateway/src/main/java/com/eventbooking/apigateway/util/JwtUtil.java:41-64 | the repeated stripping in the claim-extraction chain equals one strip for an ordinary bearer header |
| GatewayJwt.IsAuthorized | backend/apigateway/src/main/java/com/eventbooking/apigateway/util/JwtUtil.java:87-91 | authorised exactly when the roles claim of the stripped token contains the role as a substring |
| GatewayJwt.AuthorizedReadsBearerToken | backend/apigateway/src/main/java/com/eventbooking/apigateway/util/JwtUtil.java:41-91 | for a "Bearer " header the check reads the token after the prefix |
| GatewayJwt.ClaimListingRoleAuthorizes | backend/apigateway/src/main/java/com/eventbooking/apigateway/util/JwtUtil.java:87-91 | a role listed in the comma-joined claim is authorised |
| RouteValidator.IsSecured | backend/apigateway/src/main/java/com/eventbooking/apigateway/filter/RouteValidator.java:30-46 | a request is secured exactly when no matching open pattern lists its verb, whatever the iteration order |
| RouteValidator.PostEventsSecured | backend/apigateway/src/main/java/com/eventbooking/apigateway/filter/RouteValidator.java:18-28 | creating an event always needs authentication |
| RouteValidator.AuthenticateOpenOnlyForPost | backend/apigateway/src/main/java/com/eventbooking/apigateway/filter/RouteValidator.java:18-28 | the authenticate endpoint is open exactly for POST |
| RouteValidator.EventByIdOpenOnlyForGet | backend/apigateway/src/main/java/com/eventbooking/apigateway/filter/RouteValidator.java:18-28 | a single event is open exactly for GET |
| RouteValidator.NonApiPathSecured | backend/apigateway/src/main/java/com/eventbooking/apigateway/filter/RouteValidator.java:18-28 | a request is secured whatever its verb when its path does not start at the root, ends with a separator, or has a first token other than "api" |
| RouteValidator.EventListOpenForGet | backend/apigateway/src/main/java/com/eventbooking/apigateway/filter/RouteValidator.java:24 | GET is open at every rooted path whose tokens are api, events |
| RouteValidator.Tokens | backend/apigateway/src/main/java/com/eventbooking/apigateway/filter/RouteValidator.java:40 | the path's tokens are non-empty and contain no separator |
| RouteValidator.DoubledSeparatorTokens | backend/apigateway/src/main/java/com/eventbooking/apigateway/filter/RouteValidator.java:40 | a doubled separator anywhere in a path gives the same tokens as a single one |
| RouteValidator.DoubledSeparatorIgnored | backend/apigateway/src/main/java/com/eventbooking/apigateway/filter/RouteValidator.java:36-45 | a doubled separator never changes whether a request is open, so "//api/events" and "/api/events" get the same verdict |
| RouterGuard.Guard | frontend/src/router/index.js:130-162 | to login (remembering the target) exactly when auth is required and missing, home exactly for guest pages while logged in or missing roles, proceed otherwise |
| RouterGuard.MergedRoles | frontend/src/router/index.js:139 | `to.meta.roles` is absent exactly when no matched record lists roles, and otherwise is the list of the deepest record that does |
| RouterGuard.OwnRolesOverrideParents | frontend/src/router/index.js:137-139 | a route that lists its own roles is guarded by them alone, whatever roles its parents list |
| RouterGuard.ParentRolesInherited | frontend/src/router/index.js:139-157 | a protected child route that lists no roles is guarded by its parent's, so a logged-in user holding none of them is sent home |
| RouterGuard.LoggedInReachesUnrestricted | frontend/src/router/index.js:136-161 | a logged-in user reaches every protected page that lists no roles |
| RouterGuard.MoreRolesNeverHurt | frontend/src/router/index.js:147-157 | holding more roles never turns a permitted navigation into a refusal |
| AuthStore.ParseRoles | frontend/src/store/modules/auth.js:39-46 | an array claim is kept, a comma list is split and trimmed, one name is trimmed, anything else gives no roles |
| AuthStore.TrimAll | frontend/src/store/modules/auth.js:44 | each piece is trimmed, in order |
| AuthStore.TrimAllKeepsTrimmed | frontend/src/store/modules/auth.js:44 | trimming already-trimmed names changes nothing |
| AuthStore.ParseJoinedRoles | frontend/src/store/modules/auth.js:44 | a comma-joined claim parses back into its trimmed pieces |
| AuthStore.ParseJoinedTrimmedRoles | frontend/src/store/modules/auth.js:44 | joining two or more plain role names and parsing the claim gives the names back |
| AuthStore.UserOf | frontend/src/store/modules/auth.js:48-52 | the user record takes the parsed roles, user id and email of the decoded token |
| AuthStore.Store.constructor | frontend/src/store/modules/auth.js:6-9 | the store starts with the persisted token when it is non-empty, no user, the stored token in sync with it, and the header as given |
| AuthStore.Store.SetToken | frontend/src/store/modules/auth.js:11-18 | a truthy token is stored and persisted; a falsy one removes the persisted copy |
| AuthStore.Store.SetUser | frontend/src/store/modules/auth.js:19-21 | only the user changes |
| AuthStore.Store.ClearAuth | frontend/src/store/modules/auth.js:22-27 | logout clears token, user, persisted token and header, leaving the user logged out |
| AuthStore.Store.UserRoles | frontend/src/store/modules/auth.js:121-129 | the logged-in user's roles, or none without a user |
| AuthStore.Store.ProcessLoginToken | frontend/src/store/modules/auth.js:30-66 | login succeeds exactly when the backend confirms the token and it decodes; success installs token and user, failure clears everything |
| AuthStore.Store.TryAutoLogin | frontend/src/store/modules/auth.js:73-119 | without a truthy token nothing changes; otherwise a missing or empty header becomes "Bearer <token>", a confirmed token that decodes restores the user, a refusal, 401 or 403 logs out, and any other error (a failed decode included) keeps token, user and storage with the header installed |

## Left out

- Kafka transport is not modelled: partitions, delivery order between topics, redelivery timing and
  concurrent consumers. A consumer is one call per delivered message. Redelivery is shown by calling
  the handler again (`PaymentConsumer.RedeliveryChargesTwice`, `BookingConsumer.CascadeIdempotent`).
- Calls to other services over WebClient become parameters. The event catalogue is a map, the caller's
  balance a number, the fetched bookings an `Option` (`None` when the call fails), and the reviewed
  event an `Option`.
- JWT parsing, signing and expiry are not modelled, and neither is the gateway's `isAuthenticated`
  signature check. A verified token is the abstract `Common.Token`
  (valid flag, user id, roles). The gateway's claim reader is the function parameter `rolesOf`. The
  JWT utilities inside each service are not part of this model. Neither is the frontend's `jwtDecode`,
  whose result is an input.
- The password encoder is the function parameter `encode`.
- Clocks are a `now` parameter in minutes. Generated ids are parameters, required to be fresh.
  Database timestamps are taken from `now`.
- `BigDecimal` money is an integer number of minor units. Rounding and scale are not modelled.
- The average rating of the review service (floating point) is not modelled. Neither are the CRUD-only
  services: categories, review storage, notification reads and user reads by id. The application
  initializers and the login endpoint's token issuing are left out too.
- EventRepository.Filter: the SQL `LIKE` search is modelled as substring containment of the title.
  `%` and `_` wildcards inside the search text and database collation are not modelled.
- RouteValidator.IsSecured: Spring's `AntPathMatcher` is modelled only for the patterns the open
  table uses: rooted patterns of fixed and `{var}` segments without a trailing separator. Its
  tokenising, empty tokens and the trailing-separator rule are modelled. Wildcards (`*`, `**`, `?`),
  regular expressions inside `{var}` and token trimming are not.
- NotificationConsumer.NotificationDb.Save: the notification's e-mail and payment columns and its
  read flag are not modelled.
- BookingConsumer.ProcessPayment: a payment without a booking id makes the source's `findById(null)`
  throw. The model leaves the table unchanged.
- NotificationConsumer.ProcessEventUpdatedBookings: in the source, an empty batch throws on
  `get(0)`. The model returns `false` and writes nothing.
- UserService.AddUser and UserService.UpdateUser require the username to be free. Both controllers
  check this before calling, and the unique column rejects it otherwise. `UserService.AddUser` also
  requires a password, which the registration request always carries.
- EventService.AddEvent requires every copied field to be present. Its only caller first runs
  creation validation, and `EventService.ValidRequestIsFillable` proves that this suffices.
- Exceptions thrown by the services become `None` or an error status. Spring's exception handlers and
  their response bodies are not modelled.
- Logging and console output are left out.
