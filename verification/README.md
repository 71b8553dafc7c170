# Hotel booking platform, modelled in Dafny

A model of the core of a three-service hotel booking platform, with proofs
about it:

- **Hotel service.** Hotels, rooms and room blocks (holds), with their
  repository queries. It has the two-phase hold protocol: `confirmAvailability`
  and `releaseRoom`. It also has the room operations:
  - the recommendation list, availability today, the popularity list;
  - the booking counter;
  - updating and deleting rooms.

  And the hotel operations: read, list, update, delete with cascade.
- **Booking service.** Users, bookings and the booking saga `createBooking`:
  1. check the dates and look up the caller;
  2. choose the room, either the one named or the first recommended;
  3. look up its price and save a PENDING booking;
  4. ask the hotel to confirm;
  5. mark the booking CONFIRMED and bump the room's counter, or mark it
     CANCELLED and rethrow.

  It also covers reading and cancelling a booking, the user service
  (register, log in, create, update, delete) and the global exception
  handler's mapping of exceptions to HTTP responses.
- **API gateway.** The JWT-presence filter and the authentication filter.

The modules follow the services:

| module | file | what it models |
|---|---|---|
| `Wrappers` | wrappers.dfy | `Option` and `Result` |
| `Lang` | lang.dfy | Java `int`, and the `String` operations used |
| `Seqs` | seqs.dfy | filtering |
| `HotelModel` | hotel_model.dfy | the hotel service's entities and table constraints |
| `RoomRepository` | room_repository.dfy | the room repository's queries |
| `RoomBlockRepository` | room_block_repository.dfy | the block repository's queries |
| `RoomOrder` | room_order.dfy | the two room comparators and the sort |
| `RoomService` | room_service.dfy | the room service |
| `RoomBlockService` | room_block_service.dfy | the hold protocol |
| `HotelService` | hotel_service.dfy | the hotel service proper |
| `BookingModel` | booking_model.dfy | the booking service's entities and exceptions |
| `UserService` | user_service.dfy | the user service |
| `BookingService` | booking_service.dfy | the booking service |
| `GlobalExceptionHandler` | exception_handler.dfy | the exception handler |
| `GatewayConfig` | gateway_config.dfy | the JWT filter |
| `AuthenticationFilter` | authentication_filter.dfy | the authentication filter |
| `Platform` | platform.dfy | both services together |

In `Platform`, the saga's remote calls are answered by the hotel model
through the room controller's error mapping. The calls the saga made are
then applied to the hotel's tables in order. `Platform.BookWith` delivers
every answer. `Platform.BookLosingConfirm` is the same run with the
confirm's answer lost on the way back, after the hotel has acted on it.

## Modelling choices

- **State.** Each service's tables are an immutable value:
  - rooms, hotels and users are sequences in row order;
  - blocks are a map keyed by their unique request id;
  - bookings are a map keyed by id.

  Every operation is a pure function from the tables to a `Result`, and
  each exception the code throws is an `Err`.
- **Parameters.** Clocks (`today`, `now`), generated keys, request UUIDs,
  the password encoder and the token issuer are all parameters. So are the
  token verifier and the hotel service's answers as the booking service sees
  them.
- **Dates.** Dates are day numbers and both ends of a range are inclusive,
  as in the block queries.
- **Money.** Prices are integer cents.
- **Counter.** `timesBooked` is a Java `int`, and incrementing it wraps at
  2^31 - 1.
- **Holds are modelled as written:**
  - A first confirm stores a PENDING hold.
  - Only a second confirm with the same request id makes it CONFIRMED, and
    it does so without any check.
  - Only CONFIRMED holds reject a new confirm.
  - Releasing a PENDING hold never lowers the counter.
  - The booking saga confirms once. So every successful booking leaves a
    PENDING hold behind, and a second booking of the same room for the same
    dates also succeeds (`Platform.SameRoomBookedTwice`).
  - A cancel removes the hold but keeps the counter raised
    (`Platform.CancelKeepsCounterRaised`).
- **Transactions.** `createBooking` is transactional. An exception rolls
  back both booking rows it wrote, so a failed run commits nothing. The
  model still reports the PENDING and CANCELLED saves it made before the
  rollback.
- **Lost answers.** A failed booking leaves both services as they were
  only when every answer arrives (`Platform.FailedBookingChangesNothing`).
  If the answer to an accepted confirm is lost, for example to a read
  timeout, the hotel has already stored the hold. The booking service sees a
  `FeignException`, saves CANCELLED and rolls back, and nothing releases the
  hold, because only a cancel sends a release. The hold is then orphaned
  (`Platform.LostConfirmAnswerOrphansHold`).
- **Not-found messages.** The room lookups throw three different texts: an
  English one, and two Russian ones in `updateRoom` and `deleteRoom`.
  `RoomService.NotFound` abstracts the text to the entity kind and the id.
- **Retry and circuit breaker.** `confirmRoomAvailability` is called on
  `this`, so the retry and circuit-breaker proxies never apply. The model
  makes a single attempt.
- **Exception handler.** Spring picks the most specific handler:
  - A request for somebody else's booking fails with a plain runtime
    exception. Its message says neither "not found" nor "already exists", so
    it is answered with 500, not 403.
  - The handler's `HttpStatus.resolve` table is a parameter.

## Model

| member | source | states |
|---|---|---|
| HotelModel.NewRoom | hotel-service/src/main/java/com/n1str/hotel/entity/Room.java:29-33 | a new room is available and has never been booked |
| HotelModel.FindRoom | hotel-service/src/main/java/com/n1str/hotel/service/RoomService.java:79-83 | finds a room exactly when a row with that id exists, and the row it finds carries the id |
| HotelModel.FindRoomAt | hotel-service/src/main/java/com/n1str/hotel/service/RoomService.java:79-83 | with distinct ids, the lookup by id returns the row at that id's position |
| HotelModel.FindHotel | hotel-service/src/main/java/com/n1str/hotel/service/HotelService.java:52-56 | finds a hotel exactly when a row with that id exists, and the row it finds carries the id |
| Seqs.ReplaceBy | hotel-service/src/main/java/com/n1str/hotel/service/RoomService.java:98-104 | saving a changed row (room, hotel or user) replaces the rows with its id, keeps every other row in place and moves no id |
| HotelModel.ReplaceRoomKeepsIds | hotel-service/src/main/java/com/n1str/hotel/service/RoomService.java:158-158 | saving a room never adds or removes a room id |
| RoomBlockRepository.FindByRequestId | hotel-service/src/main/java/com/n1str/hotel/repository/RoomBlockRepository.java:18 | finds a block exactly when one carries the request id |
| RoomBlockRepository.AtMostOneBlockPerRequestId | hotel-service/src/main/java/com/n1str/hotel/repository/RoomBlockRepository.java:18 | the unique request id makes the single-result lookup well defined |
| RoomBlockRepository.FindConflictingBlocks | hotel-service/src/main/java/com/n1str/hotel/repository/RoomBlockRepository.java:20-24 | a stored block is returned exactly when it belongs to the room and its inclusive range meets the requested one, whatever its status |
| RoomBlockRepository.FindPendingBlocksForDates | hotel-service/src/main/java/com/n1str/hotel/repository/RoomBlockRepository.java:33-37 | the conflicting blocks restricted to PENDING ones |
| RoomBlockRepository.FindExpiredPendingBlocks | hotel-service/src/main/java/com/n1str/hotel/repository/RoomBlockRepository.java:26-27 | a block is returned exactly when it is PENDING and has an expiry earlier than now |
| RoomBlockRepository.FindByBookingId | hotel-service/src/main/java/com/n1str/hotel/repository/RoomBlockRepository.java:39 | a block is returned exactly when it carries the booking id |
| RoomBlockRepository.FindByBookingIdAfterInsert | hotel-service/src/main/java/com/n1str/hotel/repository/RoomBlockRepository.java:39 | storing a block adds it to what its booking id finds and changes nothing else the query finds |
| RoomBlockRepository.DeleteAllPendingBlocks | hotel-service/src/main/java/com/n1str/hotel/repository/RoomBlockRepository.java:29-31 | exactly the CONFIRMED blocks remain, unchanged |
| RoomBlockRepository.DeleteAllByRoomId | hotel-service/src/main/java/com/n1str/hotel/repository/RoomBlockRepository.java:41-43 | exactly the blocks of other rooms remain, unchanged |
| RoomBlockRepository.OverlapIsSymmetric | hotel-service/src/main/java/com/n1str/hotel/repository/RoomBlockRepository.java:20-21 | the conflict test does not depend on which range is the stored one |
| RoomBlockRepository.OverlapIsInclusive | hotel-service/src/main/java/com/n1str/hotel/repository/RoomBlockRepository.java:20-21 | ranges touching on a boundary day conflict; back-to-back ranges do not |
| RoomBlockRepository.OverlapMeansSharedDay | hotel-service/src/main/java/com/n1str/hotel/repository/RoomBlockRepository.java:20-21 | two ranges conflict exactly when some day lies in both |
| RoomBlockRepository.NoExpiryMeansNothingExpires | hotel-service/src/main/java/com/n1str/hotel/repository/RoomBlockRepository.java:26-27 | blocks written without an expiry are never returned as expired |
| RoomBlockRepository.DeletePendingKeepsConfirmedConflicts | hotel-service/src/main/java/com/n1str/hotel/repository/RoomBlockRepository.java:20-31 | after deleting the PENDING blocks no pending block conflicts and every CONFIRMED conflict is still there |
| RoomRepository.FindAllAvailable | hotel-service/src/main/java/com/n1str/hotel/repository/RoomRepository.java:15-16 | the available rows, each as often as it is stored |
| RoomRepository.FindAllAvailableOrderByTimesBooked | hotel-service/src/main/java/com/n1str/hotel/repository/RoomRepository.java:18-19 | the available rows ordered by counter and then id |
| RoomRepository.FindAvailableByHotelId | hotel-service/src/main/java/com/n1str/hotel/repository/RoomRepository.java:21-22 | the available rows of one hotel, each as often as it is stored |
| RoomRepository.ResetAllBookingCounters | hotel-service/src/main/java/com/n1str/hotel/repository/RoomRepository.java:24-26 | every counter becomes zero and nothing else changes |
| RoomRepository.ResetOrdersByIdAlone | hotel-service/src/main/java/com/n1str/hotel/repository/RoomRepository.java:18-26 | after a reset the ordered query lists the available rooms by id alone |
| RoomBlockService.NewHold | hotel-service/src/main/java/com/n1str/hotel/service/RoomBlockService.java:73-84 | a first confirm stores a PENDING block with no expiry, for the requested room, dates, booking and request |
| RoomBlockService.ConfirmAvailability | hotel-service/src/main/java/com/n1str/hotel/service/RoomBlockService.java:29-86 | a known request id succeeds without any check, confirming a PENDING block; a new one fails for a missing or unavailable room and for a CONFIRMED conflict, and otherwise adds a PENDING hold and nothing else |
| RoomBlockService.DecrementIfPositive | hotel-service/src/main/java/com/n1str/hotel/service/RoomBlockService.java:103-111 | only the named room's counter moves, down by one and never below zero |
| RoomBlockService.ReleaseRoom | hotel-service/src/main/java/com/n1str/hotel/service/RoomBlockService.java:88-115 | an unknown request id changes nothing; otherwise the block is deleted and its own room's counter drops by one only when the block was CONFIRMED and the counter positive |
| RoomBlockService.ConfirmSettlesOnSecondCall | hotel-service/src/main/java/com/n1str/hotel/service/RoomBlockService.java:36-51 | the second confirm of a request makes its hold CONFIRMED, and every later one is a no-op |
| RoomBlockService.PendingOverlapsNeverReject | hotel-service/src/main/java/com/n1str/hotel/service/RoomBlockService.java:61-70 | an available room whose blocks are all PENDING accepts a new hold for any dates |
| RoomBlockService.ReleaseUndoesFirstConfirm | hotel-service/src/main/java/com/n1str/hotel/service/RoomBlockService.java:73-115 | releasing a first confirm restores the hotel's tables exactly |
| RoomBlockService.ReleaseIsIdempotent | hotel-service/src/main/java/com/n1str/hotel/service/RoomBlockService.java:93-98 | a second release of the same request is a no-op |
| RoomBlockService.ReleasePendingKeepsCounters | hotel-service/src/main/java/com/n1str/hotel/service/RoomBlockService.java:102-111 | releasing a PENDING hold never changes a counter |
| RoomBlockService.ReleaseKeepsCountersNonNegative | hotel-service/src/main/java/com/n1str/hotel/service/RoomBlockService.java:105-107 | a release never makes a counter negative |
| RoomBlockService.FreshConfirmAndReleaseKeepConfirmedDisjoint | hotel-service/src/main/java/com/n1str/hotel/service/RoomBlockService.java:61-84 | a first confirm and a release keep CONFIRMED holds of a room pairwise disjoint |
| RoomBlockService.RetriedHoldsCanOverlap | hotel-service/src/main/java/com/n1str/hotel/service/RoomBlockService.java:36-51 | two overlapping holds of one room, each confirmed twice, end as two overlapping CONFIRMED blocks |
| RoomService.GetRoomEntityById | hotel-service/src/main/java/com/n1str/hotel/service/RoomService.java:71-83 | a room is returned exactly when its id exists; otherwise the error names the room and its id |
| RoomService.IsRoomAvailableNow | hotel-service/src/main/java/com/n1str/hotel/service/RoomService.java:85-96 | a room is available now exactly when it is flagged available and no block of its covers today |
| RoomService.GetAllAvailableRooms | hotel-service/src/main/java/com/n1str/hotel/service/RoomService.java:50-57 | the rooms flagged available with no block over today, in table order |
| RoomService.GetRecommendedRooms | hotel-service/src/main/java/com/n1str/hotel/service/RoomService.java:59-69 | sorted by counter and then id, and holding exactly the rooms available now, each as often as it is stored |
| RoomService.RecommendedIsSortedAvailability | hotel-service/src/main/java/com/n1str/hotel/service/RoomService.java:50-69 | with distinct ids, the recommendation is the availability listing put in recommendation order |
| RoomService.IncrementTimesBooked | hotel-service/src/main/java/com/n1str/hotel/service/RoomService.java:98-104 | fails exactly for an unknown room; otherwise raises that room's counter by one with Java int wrap-around and changes nothing else |
| RoomService.UpdateRoom | hotel-service/src/main/java/com/n1str/hotel/service/RoomService.java:106-175 | an unknown room or a move to an unknown hotel is not found; otherwise every non-null field is written and the id and counter stay |
| RoomService.DeleteRoom | hotel-service/src/main/java/com/n1str/hotel/service/RoomService.java:177-215 | an unknown room is not found; otherwise exactly that room and its blocks go and every other row stays |
| RoomService.GetPopularRooms | hotel-service/src/main/java/com/n1str/hotel/service/RoomService.java:217-226 | every room, most booked first and then by id |
| RoomService.NewRoomIsRecommended | hotel-service/src/main/java/com/n1str/hotel/service/RoomService.java:59-69 | a new room with no blocks is on the recommendation list |
| RoomOrder.Sort | hotel-service/src/main/java/com/n1str/hotel/service/RoomService.java:62-66 | the in-memory sort returns the same rooms in comparator order |
| RoomOrder.Insert | hotel-service/src/main/java/com/n1str/hotel/service/RoomService.java:62-66 | inserting into a sorted list keeps it sorted and adds exactly the one room |
| RoomOrder.PrecedesIsTotalPreorder | hotel-service/src/main/java/com/n1str/hotel/service/RoomService.java:63-65 | both comparators are total and transitive |
| RoomOrder.PrecedesIsAntisymmetricOnIds | hotel-service/src/main/java/com/n1str/hotel/service/RoomService.java:63-65 | the id tie-break leaves no two distinct rooms tied |
| RoomOrder.FilterKeepsSorted | hotel-service/src/main/java/com/n1str/hotel/service/RoomService.java:62-66 | filtering after sorting keeps the order |
| RoomOrder.HeadPrecedesAll | hotel-service/src/main/java/com/n1str/hotel/service/RoomService.java:62-66 | the first room of a sorted list precedes every room on it |
| RoomOrder.SortedPermutationsEqual | hotel-service/src/main/java/com/n1str/hotel/service/RoomService.java:62-66 | with distinct ids, two sorted lists of the same rooms are equal |
| RoomOrder.SortIsIdempotent | hotel-service/src/main/java/com/n1str/hotel/service/RoomService.java:62-66 | sorting the ordered query result again changes nothing |
| RoomOrder.PermutationKeepsIdsDistinct | hotel-service/src/main/java/com/n1str/hotel/service/RoomService.java:62-66 | reordering rooms keeps their ids distinct |
| HotelService.GetAllHotels | hotel-service/src/main/java/com/n1str/hotel/service/HotelService.java:36-42 | every stored hotel, and no other |
| HotelService.GetHotelById | hotel-service/src/main/java/com/n1str/hotel/service/HotelService.java:44-56 | a hotel is returned exactly when its id exists; otherwise the error names the hotel and its id |
| HotelService.UpdateHotel | hotel-service/src/main/java/com/n1str/hotel/service/HotelService.java:58-79 | an unknown hotel is not found; otherwise every non-null field is written and nothing else changes |
| HotelService.DeleteHotel | hotel-service/src/main/java/com/n1str/hotel/service/HotelService.java:81-89 | an unknown hotel is not found; otherwise the hotel, its rooms and their blocks go, and every other row stays |
| HotelService.WithoutHotelKeepsValid | hotel-service/src/main/java/com/n1str/hotel/entity/Hotel.java:34-35 | the cascade leaves no room without its hotel and no block without its room |
| HotelService.RemainingRoomsKeepHotels | hotel-service/src/main/java/com/n1str/hotel/entity/Hotel.java:34-35 | every room left after the cascade still has its hotel |
| HotelService.RemainingBlocksKeepRooms | hotel-service/src/main/java/com/n1str/hotel/entity/Hotel.java:34-35 | every block left after the cascade still has its room |
| BookingModel.FindByUsername | booking-service/src/main/java/com/n1str/booking/service/UserService.java:126-130 | finds a user exactly when a row carries the username |
| BookingModel.FindUser | booking-service/src/main/java/com/n1str/booking/service/UserService.java:92-93 | finds a user exactly when a row carries the id |
| BookingModel.FindByUsernameAt | booking-service/src/main/java/com/n1str/booking/entity/User.java:23-24 | with unique usernames, the lookup returns the one row carrying it |
| BookingModel.FindUserAt | booking-service/src/main/java/com/n1str/booking/entity/User.java:19-21 | with distinct ids, the lookup returns the one row carrying it |
| UserService.GetUserByUsername | booking-service/src/main/java/com/n1str/booking/service/UserService.java:126-130 | succeeds exactly for a known username; otherwise fails with the user-not-found message |
| UserService.Register | booking-service/src/main/java/com/n1str/booking/service/UserService.java:25-47 | a taken username fails; otherwise one USER account is appended with the encoded password, and a token is issued for it |
| UserService.Authenticate | booking-service/src/main/java/com/n1str/booking/service/UserService.java:49-64 | succeeds exactly when the username exists and the password matches; both failures give the same bad-credentials error |
| UserService.CreateUser | booking-service/src/main/java/com/n1str/booking/service/UserService.java:66-86 | as registration, with the requested role and no token |
| UserService.UpdateUser | booking-service/src/main/java/com/n1str/booking/service/UserService.java:88-112 | an unknown id fails; otherwise the non-null fields are written, and a blank password is ignored |
| UserService.DeleteUser | booking-service/src/main/java/com/n1str/booking/service/UserService.java:114-124 | an unknown id fails; otherwise the user and all their bookings go |
| UserService.AppendUserKeepsValid | booking-service/src/main/java/com/n1str/booking/entity/User.java:19-30 | an account with a fresh id and username keeps the keys unique |
| UserService.DeleteUserKeepsValid | booking-service/src/main/java/com/n1str/booking/entity/User.java:41-42 | the cascade leaves no booking without its user |
| UserService.RegisterThenAuthenticate | booking-service/src/main/java/com/n1str/booking/service/UserService.java:25-64 | a freshly registered account can log in with the password it registered |
| UserService.FindAppendedUsername | booking-service/src/main/java/com/n1str/booking/service/UserService.java:25-47 | the appended account is found by its username |
| UserService.EmptyUpdateIsIdentity | booking-service/src/main/java/com/n1str/booking/service/UserService.java:88-112 | an update naming no field changes nothing |
| UserService.DeleteUserIsFinal | booking-service/src/main/java/com/n1str/booking/service/UserService.java:114-124 | after deletion the user can no longer be found, and a second deletion fails |
| BookingService.Rethrown | booking-service/src/main/java/com/n1str/booking/service/BookingService.java:64-70 | a remote HTTP error is rethrown as a Feign exception with its status; a broken call as a runtime exception |
| BookingService.SelectBestRoom | booking-service/src/main/java/com/n1str/booking/service/BookingService.java:178-193 | the first recommended room; an empty list fails with the no-rooms message |
| BookingService.ResolveRoom | booking-service/src/main/java/com/n1str/booking/service/BookingService.java:49-59 | auto-selection asks for the recommendation; otherwise the request must name a room |
| BookingService.PendingBooking | booking-service/src/main/java/com/n1str/booking/service/BookingService.java:77-92 | the first row is PENDING, for the caller, room, dates and request, priced at nights times the nightly price |
| BookingService.ConfirmPhase | booking-service/src/main/java/com/n1str/booking/service/BookingService.java:95-136 | a confirm the hotel accepts makes the row CONFIRMED and bumps the counter whatever the bump answers; a refused one saves the row CANCELLED, rolls back and rethrows |
| BookingService.LostConfirmRollsBack | booking-service/src/main/java/com/n1str/booking/service/BookingService.java:96-125 | a lost confirm answer turns a run that would succeed into a rollback after the same calls up to the confirm, with no counter bump, and a timeout is rethrown as it came |
| BookingService.CreateBooking | booking-service/src/main/java/com/n1str/booking/service/BookingService.java:34-137 | date, user, room and price failures commit nothing; success commits exactly one CONFIRMED booking, and the hotel calls are lookups, then the confirm, then the counter bump |
| BookingService.CreateBookingSucceeds | booking-service/src/main/java/com/n1str/booking/service/BookingService.java:34-137 | valid dates, a known caller, a priced room and an accepted confirm are enough for success |
| BookingService.GetBookingById | booking-service/src/main/java/com/n1str/booking/service/BookingService.java:205-217 | a missing booking and somebody else's booking fail with their messages; otherwise the booking is returned |
| BookingService.CancelBooking | booking-service/src/main/java/com/n1str/booking/service/BookingService.java:219-251 | fails as the read does; a CANCELLED booking is left alone; otherwise it becomes CANCELLED, and a CONFIRMED one first releases its hold |
| BookingService.CreateBookingKeepsValid | booking-service/src/main/java/com/n1str/booking/entity/Booking.java:16-52 | a run with a fresh key and request id keeps the booking tables' constraints |
| BookingService.CancelIsIdempotent | booking-service/src/main/java/com/n1str/booking/service/BookingService.java:231-235 | a second cancel changes nothing and calls nothing |
| BookingService.CancelFollowsStatusMachine | booking-service/src/main/java/com/n1str/booking/service/BookingService.java:237-248 | a cancel moves a booking only along PENDING/CONFIRMED to CANCELLED and touches no other booking |
| BookingService.ForeignBookingIsServerError | booking-service/src/main/java/com/n1str/booking/service/BookingService.java:212-229 | reading or cancelling somebody else's booking is answered with 500, not 403 |
| BookingService.ConfirmConflictIs409 | booking-service/src/main/java/com/n1str/booking/service/BookingService.java:116-125 | a 409 from the hotel's confirm reaches the client as 409 with the conflict message |
| GlobalExceptionHandler.JavaText | booking-service/src/main/java/com/n1str/booking/exception/GlobalExceptionHandler.java:52 | a null message is rendered as the text null |
| GlobalExceptionHandler.Handle | booking-service/src/main/java/com/n1str/booking/exception/GlobalExceptionHandler.java:24-154 | each exception kind gets its handler's status and message; a runtime message is a client error exactly when it says not found or already exists |
| GlobalExceptionHandler.ValidationMessageListsErrors | booking-service/src/main/java/com/n1str/booking/exception/GlobalExceptionHandler.java:60-82 | the validation message lists every field error, in order |
| GlobalExceptionHandler.LookupFailuresAreClientErrors | booking-service/src/main/java/com/n1str/booking/exception/GlobalExceptionHandler.java:84-106 | a missing user or booking and a taken username are answered with 400 |
| GlobalExceptionHandler.OwnershipViolationIsServerError | booking-service/src/main/java/com/n1str/booking/exception/GlobalExceptionHandler.java:84-106 | the ownership message and a message-less runtime exception are answered with 500 |
| GatewayConfig.ExtractToken | api-gateway/src/main/java/com/n1str/gateway/config/GatewayConfig.java:108-113 | a token exactly for a header starting with the bearer prefix, and the token is the rest of the header |
| GatewayConfig.ExtractTokenRoundTrip | api-gateway/src/main/java/com/n1str/gateway/config/GatewayConfig.java:108-113 | the token put behind the prefix is the token extracted |
| GatewayConfig.JwtValidation | api-gateway/src/main/java/com/n1str/gateway/config/GatewayConfig.java:79-106 | a request passes exactly when its path is public or it carries a bearer token; otherwise 401 with the missing-token message |
| GatewayConfig.AnyBearerPasses | api-gateway/src/main/java/com/n1str/gateway/config/GatewayConfig.java:102-104 | any bearer token passes, valid or not: validation is left to the services |
| GatewayConfig.PublicUnderPrefix | api-gateway/src/main/java/com/n1str/gateway/config/GatewayConfig.java:115-121 | a path containing a public fragment anywhere is public |
| AuthenticationFilter.Filter | api-gateway/src/main/java/com/n1str/gateway/filter/AuthenticationFilter.java:30-80 | public paths pass unchanged; a missing header, a non-bearer header, an invalid token and a failing check are each refused with 401; a valid token passes with its user and roles |
| AuthenticationFilter.PublicPathsNest | api-gateway/src/main/java/com/n1str/gateway/filter/AuthenticationFilter.java:82-89 | every path public to the JWT filter is public here, and the only extra public paths mention /actuator |
| AuthenticationFilter.AuthenticatedPassesJwtCheck | api-gateway/src/main/java/com/n1str/gateway/filter/AuthenticationFilter.java:47-73 | a request this filter lets through with an identity also passes the JWT filter |
| AuthenticationFilter.RolesHeaderRoundTrip | api-gateway/src/main/java/com/n1str/gateway/filter/AuthenticationFilter.java:68-71 | splitting the roles header at commas gives back the roles, provided no role has a comma |
| Platform.RoomEndpoint | hotel-service/src/main/java/com/n1str/hotel/controller/RoomController.java:62-70 | the room endpoint answers exactly for a stored room, with that room's data |
| Platform.ConfirmEndpoint | hotel-service/src/main/java/com/n1str/hotel/controller/RoomController.java:72-85 | the confirm endpoint answers exactly when the hold succeeds; any failure is 409 |
| Platform.Step | booking-service/src/main/java/com/n1str/booking/client/HotelServiceClient.java:13-30 | lookups change nothing, and no call breaks the hotel's constraints |
| Platform.Apply | booking-service/src/main/java/com/n1str/booking/client/HotelServiceClient.java:13-30 | a run of calls keeps the hotel's constraints |
| Platform.SkipLookups | booking-service/src/main/java/com/n1str/booking/client/HotelServiceClient.java:13-17 | leading lookups do not change what a run of calls does |
| Platform.BookWith | booking-service/src/main/java/com/n1str/booking/service/BookingService.java:34-137 | a booking served end to end keeps the hotel's constraints |
| Platform.Book | hotel-service/src/main/java/com/n1str/hotel/service/RoomService.java:59-69 | as BookWith, with the hotel recommending the rooms available today |
| Platform.Cancel | booking-service/src/main/java/com/n1str/booking/service/BookingService.java:219-251 | a refused cancel changes neither service |
| Platform.FailedBookingChangesNothing | booking-service/src/main/java/com/n1str/booking/service/BookingService.java:116-136 | when every answer arrives, a failed booking leaves both services as they were |
| Platform.BookLosingConfirm | booking-service/src/main/java/com/n1str/booking/service/BookingService.java:96-125 | a booking served end to end whose confirm answer is lost still keeps the hotel's constraints |
| Platform.LostConfirmRun | booking-service/src/main/java/com/n1str/booking/service/BookingService.java:96-125 | with the confirm answer lost, the hotel ends with the hold the confirm stored and the booking tables roll back |
| Platform.LostConfirmAnswerOrphansHold | booking-service/src/main/java/com/n1str/booking/service/BookingService.java:96-125 | a lost answer to an accepted confirm rolls the booking back but leaves the PENDING hold in the hotel, unreleased and hiding the room on the held days |
| Platform.BookingHoldFoundByBookingId | hotel-service/src/main/java/com/n1str/hotel/repository/RoomBlockRepository.java:39 | the hold a booking leaves is the one block its booking id finds |
| Platform.ConfirmedRun | booking-service/src/main/java/com/n1str/booking/service/BookingService.java:96-111 | on success the hotel undergoes the hold and then the counter bump |
| Platform.BookingRecordsConfirmed | booking-service/src/main/java/com/n1str/booking/service/BookingService.java:81-114 | a successful booking commits one CONFIRMED booking of the caller's, for the requested dates and room |
| Platform.BookingRun | booking-service/src/main/java/com/n1str/booking/service/BookingService.java:64-111 | a successful booking needed a priced room and an accepted hold, and was followed by the bump |
| Platform.BookedRoomWasFree | hotel-service/src/main/java/com/n1str/hotel/service/RoomBlockService.java:53-70 | the booked room existed, was available and priced, and had no CONFIRMED block over the dates |
| Platform.BookingLeavesPendingHold | hotel-service/src/main/java/com/n1str/hotel/service/RoomBlockService.java:72-84 | the booking is CONFIRMED but the hold it leaves in the hotel is PENDING; nothing else about holds or hotels changes |
| Platform.BookingRaisesCounter | hotel-service/src/main/java/com/n1str/hotel/service/RoomService.java:98-104 | a booking raises the booked room's counter by one and no other |
| Platform.BookingSucceeds | booking-service/src/main/java/com/n1str/booking/service/BookingService.java:34-137 | a request naming a free, available, priced room succeeds for that room |
| Platform.RoomStillFreeAfterBooking | hotel-service/src/main/java/com/n1str/hotel/service/RoomBlockService.java:61-70 | after a booking the room still has no CONFIRMED block over the dates |
| Platform.CounterBumpKeepsRoom | hotel-service/src/main/java/com/n1str/hotel/service/RoomService.java:98-104 | the bump keeps ids, availability and price |
| Platform.PendingHoldKeepsDatesFree | hotel-service/src/main/java/com/n1str/hotel/service/RoomBlockService.java:64-67 | adding a PENDING hold never makes dates taken |
| Platform.SameRoomBookedTwice | hotel-service/src/main/java/com/n1str/hotel/service/RoomBlockService.java:61-84 | a second request for the same room and dates also succeeds, and both bookings are CONFIRMED |
| Platform.CancelReleasesPendingHold | booking-service/src/main/java/com/n1str/booking/service/BookingService.java:237-248 | cancelling a CONFIRMED booking with a PENDING hold removes the hold and leaves every counter |
| Platform.CancelKeepsCounterRaised | hotel-service/src/main/java/com/n1str/hotel/service/RoomBlockService.java:102-113 | booking then cancelling restores the holds but not the counter |
| Platform.CancelAfterBooking | booking-service/src/main/java/com/n1str/booking/service/BookingService.java:219-251 | the cancel half of the previous row, over the tables a booking left |
| Platform.AutoSelectTakesHead | booking-service/src/main/java/com/n1str/booking/service/BookingService.java:178-193 | auto-selection books the first recommended room |
| Platform.RecommendedHeadIsLeastBooked | hotel-service/src/main/java/com/n1str/hotel/service/RoomService.java:59-69 | the first recommended room is available today and has the fewest bookings among such rooms |
| Platform.AutoSelectPicksLeastBooked | booking-service/src/main/java/com/n1str/booking/service/BookingService.java:50-53 | an auto-selected booking is for a least-booked room available today |
| Platform.CancelTwiceIsNoop | booking-service/src/main/java/com/n1str/booking/service/BookingService.java:231-235 | a second cancel changes neither service |
| Platform.BookKeepsValid | booking-service/src/main/java/com/n1str/booking/service/BookingService.java:34-137 | a booking with fresh keys keeps both services' constraints |
| Lang.AddInt32 | hotel-service/src/main/java/com/n1str/hotel/entity/Room.java:33 | Java int addition: exact in range, wrapping by 2^32 outside it |
| Lang.IncrementWrapsOnlyAtMax | hotel-service/src/main/java/com/n1str/hotel/service/RoomService.java:102 | adding one wraps only at the top of the range |
| Lang.SplitJoin | api-gateway/src/main/java/com/n1str/gateway/filter/AuthenticationFilter.java:70 | joining parts without the separator and splitting again gives the parts back |

## Left out

- **Retries.** `@Retryable`, `@CircuitBreaker`, their fallback and the
  `@Recover` method. The method is called on `this`, so Spring never applies
  them.
- **Transactions.** Isolation levels, concurrent transactions and
  `Room.version` (optimistic locking). Each operation is atomic on an
  immutable value, and concurrency is not modelled.
- **Prices.** `Double` prices and totals are integer cents. Floating-point
  rounding and the double multiplication are not modelled.
- **Security libraries.** JWT signing, parsing and expiry, and BCrypt, are
  parameters of the model:
  - `UserService.Crypto` for encoding and issuing;
  - the `verify` function of `AuthenticationFilter.Filter`;
  - a sound encoder is assumed only where a lemma says so.
- **Mapping and web layer.** The DTO mappers, controllers other than the
  room controller's status mapping, the security configuration, the Feign
  auth interceptor and the application bootstrap are not modelled.
  `ensureAdminUser` is not part of this model.
- **Other operations.** These are not modelled:
  - `createHotel` maps the request and saves a row with a generated key;
  - `createRoom` does the same after looking up its hotel, and fails with
    not-found when there is none;
  - `getUserBookings` is a read that maps the caller's bookings and saves
    nothing.
- **Null request id.** The request id column is unique and nullable, and the
  confirm request does not validate it. The booking service always sends a
  fresh UUID, so only a direct call to the internal confirm endpoint could
  send null. Blocks are keyed by a string request id, so a null one is not
  modelled.
- **Gateway extras.**
  - The gateway's CORS filter and correlation-id filter are not modelled.
  - The gateway's `createErrorResponse` JSON body is not modelled, only its
    status and message.
  - The authentication filter's `onError` only sets the status. The message
    it logs is kept in the model but never reaches the client.
- **Response bodies.** The timestamp, path and trace id of every
  `ErrorResponse` are not modelled.
- **Validation handler.** The handler casts every error to `FieldError`, and
  a global object error would throw `ClassCastException`. Only field errors
  are modelled.
- `Platform.RoomEndpoint`: a missing room is answered as HTTP 404 with no
  message. The booking service treats every non-answer alike (the room
  lookup fails with its fixed message), so the status does not matter.
- `Platform.ConfirmEndpoint`: the 409 carries no body message, because the
  room controller builds an empty body.
- `BookingService.CreateBooking`: a null nightly price makes the Java code
  throw `NullPointerException`. That exception is modelled as a runtime
  exception with no message.
- `BookingService.ConfirmPhase`: the counter bump's answer is not modelled,
  because the code catches and ignores any failure of it. A failed bump
  leaves the hotel's tables as they were (`Platform.Step`).
- `RoomBlockRepository.FindConflictingBlocks`: the `status IN ('PENDING',
  'CONFIRMED')` filter is dropped, because `HotelModel.BlockStatus` holds
  only PENDING and CONFIRMED. Those are the only values any code writes.
- `RoomService.UpdateRoom`: a room whose hotel is null is not modelled,
  because the hotel foreign key is NOT NULL. So the "current hotel is null"
  branch cannot be taken.
- `RoomBlockService.NewHold`: `createdAt` is the `now` parameter.
