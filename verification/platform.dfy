/** The booking service and the hotel service together. The booking saga's
    remote calls are answered by the hotel model through its controller's
    mapping (every failed hold is answered 409), and the calls the saga
    made are then applied to the hotel's tables in order. */
module Platform {
  import opened Wrappers
  import opened Lang
  import opened HotelModel
  import RoomOrder
  import RoomService
  import RoomBlockRepository
  import RoomBlockService
  import BookingModel
  import BookingService

  /** The tables of both services. */
  datatype System = System(hotel: Inventory, booking: BookingModel.BookingDb)

  /** A room as the room endpoint sends it. */
  function Info(room: Room): BookingService.RoomInfo {
    BookingService.RoomInfo(room.id, Some(room.hotelId), room.timesBooked as int, room.pricePerNight, room.available)
  }

  function Infos(rooms: seq<Room>): (r: seq<BookingService.RoomInfo>)
    ensures |r| == |rooms| && forall i :: 0 <= i < |rooms| ==> r[i] == Info(rooms[i])
  {
    seq(|rooms|, i requires 0 <= i < |rooms| => Info(rooms[i]))
  }

  /** The body the confirm endpoint receives for a confirm call. */
  function HoldRequest(c: BookingService.HotelCall): RoomBlockService.ConfirmRequest
    requires c.Confirm?
  {
    RoomBlockService.ConfirmRequest(c.startDate, c.endDate, Some(c.bookingId), c.requestId)
  }

  /** The room endpoint: a missing room is an HTTP error. */
  function RoomEndpoint(inv: Inventory, id: int): (r: BookingService.Remote<Option<BookingService.RoomInfo>>)
    ensures r.Answered? <==> HasRoom(inv.rooms, id)
    ensures r.Answered? ==> r.value == Some(Info(FindRoom(inv.rooms, id).value))
  {
    match RoomService.GetRoomEntityById(inv, id)
    case Ok(room) => BookingService.Answered(Some(Info(room)))
    case Err(_) => BookingService.HttpError(404, None)
  }

  /** The confirm endpoint: the hold succeeds or the answer is 409, whatever
      the reason the hold failed. */
  function ConfirmEndpoint(inv: Inventory, c: BookingService.HotelCall, blockId: int, now: int): (r: BookingService.Remote<()>)
    requires BlocksKeyed(inv.blocks)
    ensures c.Confirm? ==> (r.Answered? <==> RoomBlockService.ConfirmAvailability(inv, c.roomId, HoldRequest(c), blockId, now).Ok?)
    ensures !r.Answered? ==> r == BookingService.HttpError(409, None)
  {
    if !c.Confirm? then BookingService.Answered(())
    else match RoomBlockService.ConfirmAvailability(inv, c.roomId, HoldRequest(c), blockId, now)
      case Ok(_) => BookingService.Answered(())
      case Err(_) => BookingService.HttpError(409, None)
  }

  /** The hotel service as the booking service sees it, given the list its
      recommendation endpoint sends. */
  function Client(inv: Inventory, recommended: seq<BookingService.RoomInfo>, blockId: int, now: int): BookingService.HotelClient
    requires BlocksKeyed(inv.blocks)
  {
    BookingService.HotelClient(
      BookingService.Answered(recommended),
      id => RoomEndpoint(inv, id),
      c => ConfirmEndpoint(inv, c, blockId, now))
  }

  /** The effect of one call on the hotel's tables: lookups change nothing,
      a failed confirm or increment changes nothing. */
  function Step(inv: Inventory, c: BookingService.HotelCall, blockId: int, now: int): (r: Inventory)
    requires BlocksKeyed(inv.blocks)
    ensures BlocksKeyed(r.blocks)
    ensures c.IsLookup() ==> r == inv
    // no call the booking service makes breaks the hotel's constraints
    ensures Valid(inv) ==> Valid(r)
  {
    match c
    case GetRecommended => inv
    case GetRoom(_) => inv
    case Confirm(roomId, _, _, _, _) =>
      (match RoomBlockService.ConfirmAvailability(inv, roomId, HoldRequest(c), blockId, now)
       case Ok(next) => next
       case Err(_) => inv)
    case Increment(roomId) =>
      (match RoomService.IncrementTimesBooked(inv, roomId)
       case Ok(next) => next
       case Err(_) => inv)
    case Release(roomId, requestId) => RoomBlockService.ReleaseRoom(inv, roomId, requestId)
  }

  /** The calls applied in order. */
  function Apply(inv: Inventory, calls: seq<BookingService.HotelCall>, blockId: int, now: int): (r: Inventory)
    requires BlocksKeyed(inv.blocks)
    ensures BlocksKeyed(r.blocks)
    ensures Valid(inv) ==> Valid(r)
    decreases |calls|
  {
    if |calls| == 0 then inv else Apply(Step(inv, calls[0], blockId, now), calls[1..], blockId, now)
  }

  /** Leading lookups do not change what a run of calls does. */
  lemma {:induction false} SkipLookups(inv: Inventory, calls: seq<BookingService.HotelCall>, n: int, blockId: int, now: int)
    requires BlocksKeyed(inv.blocks) && 0 <= n <= |calls|
    requires forall i :: 0 <= i < n ==> calls[i].IsLookup()
    ensures Apply(inv, calls, blockId, now) == Apply(inv, calls[n..], blockId, now)
    decreases n
  {
    if n > 0 {
      assert Step(inv, calls[0], blockId, now) == inv;
      SkipLookups(inv, calls[1..], n - 1, blockId, now);
      assert calls[1..][n - 1..] == calls[n..];
    }
  }

  /** A create-booking request served end to end while the hotel's
      recommendation endpoint sends `recommended`. Only an auto-selecting
      request reads that list, so most facts below hold whatever it is. */
  function BookWith(sys: System, recommended: seq<BookingService.RoomInfo>, username: string, req: BookingService.BookingRequest,
                    today: int, now: int, requestId: string, bookingId: int, blockId: int): (r: (System, Result<BookingModel.Booking, BookingModel.Failure>))
    requires BlocksKeyed(sys.hotel.blocks)
    ensures BlocksKeyed(r.0.hotel.blocks)
    ensures Valid(sys.hotel) ==> Valid(r.0.hotel)
  {
    var s := BookingService.CreateBooking(sys.booking, username, req, Client(sys.hotel, recommended, blockId, now), today, now, requestId, bookingId);
    (System(Apply(sys.hotel, s.calls, blockId, now), s.db), s.outcome)
  }

  /** A create-booking request served end to end: the hotel recommends the
      rooms available today, least booked first. */
  function Book(sys: System, username: string, req: BookingService.BookingRequest, today: int, now: int,
                requestId: string, bookingId: int, blockId: int): (r: (System, Result<BookingModel.Booking, BookingModel.Failure>))
    requires BlocksKeyed(sys.hotel.blocks)
    ensures BlocksKeyed(r.0.hotel.blocks)
    ensures Valid(sys.hotel) ==> Valid(r.0.hotel)
  {
    BookWith(sys, Infos(RoomService.GetRecommendedRooms(sys.hotel, today)), username, req, today, now, requestId, bookingId, blockId)
  }

  /** A cancel request served end to end. */
  function Cancel(sys: System, username: string, bookingId: int, now: int): (r: (System, Result<(), BookingModel.Failure>))
    requires BlocksKeyed(sys.hotel.blocks)
    ensures BlocksKeyed(r.0.hotel.blocks)
    ensures Valid(sys.hotel) ==> Valid(r.0.hotel)
    // a refused cancel changes nothing
    ensures r.1.Err? ==> r.0 == sys
  {
    var c := BookingService.CancelBooking(sys.booking, username, bookingId, now);
    match c.0
    case Err(f) => (sys, Err(f))
    case Ok(db) => (System(Apply(sys.hotel, c.1, 0, now), db), Ok(()))
  }

  /** When every answer arrives, a failed booking leaves both services as
      they were: the booking rows roll back, and a hold is only stored by a
      confirm that succeeded. `LostConfirmAnswerOrphansHold` shows what a
      lost answer does instead. */
  lemma FailedBookingChangesNothing(sys: System, recommended: seq<BookingService.RoomInfo>, username: string, req: BookingService.BookingRequest, today: int, now: int,
                                    requestId: string, bookingId: int, blockId: int)
    requires BlocksKeyed(sys.hotel.blocks)
    requires BookWith(sys, recommended, username, req, today, now, requestId, bookingId, blockId).1.Err?
    ensures BookWith(sys, recommended, username, req, today, now, requestId, bookingId, blockId).0 == sys
  {
    var client := Client(sys.hotel, recommended, blockId, now);
    var s := BookingService.CreateBooking(sys.booking, username, req, client, today, now, requestId, bookingId);
    if forall i :: 0 <= i < |s.calls| ==> s.calls[i].IsLookup() {
      SkipLookups(sys.hotel, s.calls, |s.calls|, blockId, now);
    } else {
      var n := |s.calls| - 1;
      SkipLookups(sys.hotel, s.calls, n, blockId, now);
      var c := s.calls[n];
      assert s.calls[n..] == [c];
      assert !ConfirmEndpoint(sys.hotel, c, blockId, now).Answered?;
    }
  }

  /** A create-booking request whose confirm answer is lost on the way back:
      the hotel acts on every call the saga sends, the confirm included,
      while the saga sees `lost` in place of the confirm's answer. */
  function BookLosingConfirm(sys: System, recommended: seq<BookingService.RoomInfo>, username: string, req: BookingService.BookingRequest,
                             today: int, now: int, requestId: string, bookingId: int, blockId: int, lost: BookingService.Remote<()>): (r: (System, Result<BookingModel.Booking, BookingModel.Failure>))
    requires BlocksKeyed(sys.hotel.blocks)
    ensures BlocksKeyed(r.0.hotel.blocks)
    ensures Valid(sys.hotel) ==> Valid(r.0.hotel)
  {
    var client := BookingService.LoseConfirm(Client(sys.hotel, recommended, blockId, now), lost);
    var s := BookingService.CreateBooking(sys.booking, username, req, client, today, now, requestId, bookingId);
    (System(Apply(sys.hotel, s.calls, blockId, now), s.db), s.outcome)
  }

  /** With the confirm's answer lost, the hotel's tables undergo the
      lookups and the confirm, and the booking side rolls back. */
  lemma LostConfirmRun(sys: System, recommended: seq<BookingService.RoomInfo>, username: string, req: BookingService.BookingRequest,
                       today: int, now: int, requestId: string, bookingId: int, blockId: int, lost: BookingService.Remote<()>)
    requires BlocksKeyed(sys.hotel.blocks)
    requires !lost.Answered?
    requires BookWith(sys, recommended, username, req, today, now, requestId, bookingId, blockId).1.Ok?
    ensures var b := BookWith(sys, recommended, username, req, today, now, requestId, bookingId, blockId).1.value;
      var c := BookingService.Confirm(b.roomId, b.startDate, b.endDate, bookingId, requestId);
      var held := RoomBlockService.ConfirmAvailability(sys.hotel, b.roomId, HoldRequest(c), blockId, now);
      var r := BookLosingConfirm(sys, recommended, username, req, today, now, requestId, bookingId, blockId, lost);
      && held.Ok? && r.1.Err? && r.0 == System(held.value, sys.booking)
  {
    var inv := sys.hotel;
    var client := Client(inv, recommended, blockId, now);
    var s := BookingService.CreateBooking(sys.booking, username, req, client, today, now, requestId, bookingId);
    var t := BookingService.CreateBooking(sys.booking, username, req, BookingService.LoseConfirm(client, lost), today, now, requestId, bookingId);
    assert BookWith(sys, recommended, username, req, today, now, requestId, bookingId, blockId) == (System(Apply(inv, s.calls, blockId, now), s.db), s.outcome);
    BookingService.LostConfirmRollsBack(sys.booking, username, req, client, today, now, requestId, bookingId, lost);
    BookingRun(sys, recommended, username, req, today, now, requestId, bookingId, blockId);
    var b := s.outcome.value;
    var c := BookingService.Confirm(b.roomId, b.startDate, b.endDate, bookingId, requestId);
    var n := |s.calls| - 2;
    assert t.calls == s.calls[..n] + [c];
    SkipLookups(inv, t.calls, n, blockId, now);
    assert t.calls[n..] == [c];
  }

  /** When the answer to an accepted confirm is lost, the hold outlives its
      booking: the booking rolls back, so no row carries the booking id,
      but the hotel keeps the PENDING hold, which nothing releases, and the
      room stops counting as available on the held days. The counter is not
      bumped. */
  lemma LostConfirmAnswerOrphansHold(sys: System, recommended: seq<BookingService.RoomInfo>, username: string, req: BookingService.BookingRequest,
                                     today: int, now: int, requestId: string, bookingId: int, blockId: int, lost: BookingService.Remote<()>)
    requires BlocksKeyed(sys.hotel.blocks) && requestId !in sys.hotel.blocks && bookingId !in sys.booking.bookings
    requires !lost.Answered?
    requires BookWith(sys, recommended, username, req, today, now, requestId, bookingId, blockId).1.Ok?
    ensures var b := BookWith(sys, recommended, username, req, today, now, requestId, bookingId, blockId).1.value;
      var r := BookLosingConfirm(sys, recommended, username, req, today, now, requestId, bookingId, blockId, lost);
      && r.1.Err?
      && r.0.booking == sys.booking && bookingId !in r.0.booking.bookings
      && r.0.hotel == sys.hotel.(blocks := sys.hotel.blocks[requestId := RoomBlock(blockId, b.roomId, b.startDate, b.endDate, Some(bookingId), requestId, Pending, now, None)])
      && forall x: Room, day :: x.id == b.roomId && b.startDate <= day <= b.endDate ==> !RoomService.IsRoomAvailableNow(r.0.hotel.blocks, x, day)
  {
    LostConfirmRun(sys, recommended, username, req, today, now, requestId, bookingId, blockId, lost);
    var b := BookWith(sys, recommended, username, req, today, now, requestId, bookingId, blockId).1.value;
    var c := BookingService.Confirm(b.roomId, b.startDate, b.endDate, bookingId, requestId);
    var held := RoomBlockService.ConfirmAvailability(sys.hotel, b.roomId, HoldRequest(c), blockId, now).value;
    var hold := held.blocks[requestId];
    forall x: Room, day | x.id == b.roomId && b.startDate <= day <= b.endDate
      ensures !RoomService.IsRoomAvailableNow(held.blocks, x, day)
    {
      assert requestId in held.blocks && held.blocks[requestId].roomId == x.id;
      assert InRange(day, hold.startDate, hold.endDate);
    }
  }

  /** The hotel side of a successful run: after the lookups, the confirm's
      hold and then the counter bump are what the hotel's tables undergo. */
  lemma ConfirmedRun(inv: Inventory, calls: seq<BookingService.HotelCall>, blockId: int, now: int)
    requires BlocksKeyed(inv.blocks)
    requires |calls| >= 2 && calls[|calls| - 2].Confirm?
    requires forall i :: 0 <= i < |calls| - 2 ==> calls[i].IsLookup()
    requires calls[|calls| - 1] == BookingService.Increment(calls[|calls| - 2].roomId)
    requires RoomBlockService.ConfirmAvailability(inv, calls[|calls| - 2].roomId, HoldRequest(calls[|calls| - 2]), blockId, now).Ok?
    ensures var c := calls[|calls| - 2];
      var held := RoomBlockService.ConfirmAvailability(inv, c.roomId, HoldRequest(c), blockId, now).value;
      Apply(inv, calls, blockId, now) == Step(held, calls[|calls| - 1], blockId, now)
  {
    var n := |calls| - 2;
    var c := calls[n];
    var bump := calls[n + 1];
    SkipLookups(inv, calls, n, blockId, now);
    assert calls[n..] == [c, bump];
    var held := RoomBlockService.ConfirmAvailability(inv, c.roomId, HoldRequest(c), blockId, now).value;
    assert Step(inv, c, blockId, now) == held;
    assert Apply(inv, calls[n..], blockId, now) == Apply(held, [bump], blockId, now);
    assert Apply(held, [bump], blockId, now) == Step(held, bump, blockId, now);
  }

  /** What a successful booking records on the booking side: the request
      had valid dates and a known caller, and exactly one CONFIRMED booking
      of the caller's, for the requested dates and the room the request
      named (when it named one), is committed. */
  lemma BookingRecordsConfirmed(sys: System, recommended: seq<BookingService.RoomInfo>, username: string, req: BookingService.BookingRequest, today: int, now: int,
                                requestId: string, bookingId: int, blockId: int)
    requires BlocksKeyed(sys.hotel.blocks)
    requires BookWith(sys, recommended, username, req, today, now, requestId, bookingId, blockId).1.Ok?
    ensures var r := BookWith(sys, recommended, username, req, today, now, requestId, bookingId, blockId);
      var b := r.1.value;
      && today <= req.startDate <= req.endDate && b.startDate == req.startDate && b.endDate == req.endDate
      && (!req.autoSelect ==> req.roomId == Some(b.roomId))
      && BookingModel.HasUsername(sys.booking.users, username)
      && b.userId == BookingModel.FindByUsername(sys.booking.users, username).value.id
      && b.status == BookingModel.Confirmed && b.id == bookingId && b.requestId == requestId
      && r.0.booking == sys.booking.(bookings := sys.booking.bookings[bookingId := b])
  {
    var s := BookingService.CreateBooking(sys.booking, username, req, Client(sys.hotel, recommended, blockId, now), today, now, requestId, bookingId);
    assert BookWith(sys, recommended, username, req, today, now, requestId, bookingId, blockId) == (System(Apply(sys.hotel, s.calls, blockId, now), s.db), s.outcome);
  }

  /** A successful booking, on the hotel side: the room had a price, the
      hold for the booking was accepted, and the counter bump followed. */
  lemma BookingRun(sys: System, recommended: seq<BookingService.RoomInfo>, username: string, req: BookingService.BookingRequest, today: int, now: int,
                   requestId: string, bookingId: int, blockId: int)
    requires BlocksKeyed(sys.hotel.blocks)
    requires BookWith(sys, recommended, username, req, today, now, requestId, bookingId, blockId).1.Ok?
    ensures var r := BookWith(sys, recommended, username, req, today, now, requestId, bookingId, blockId);
      var b := r.1.value;
      var c := BookingService.Confirm(b.roomId, b.startDate, b.endDate, bookingId, requestId);
      var held := RoomBlockService.ConfirmAvailability(sys.hotel, b.roomId, HoldRequest(c), blockId, now);
      && HasRoom(sys.hotel.rooms, b.roomId) && FindRoom(sys.hotel.rooms, b.roomId).value.pricePerNight.Some?
      && held.Ok?
      && r.0.hotel == Step(held.value, BookingService.Increment(b.roomId), blockId, now)
  {
    var inv := sys.hotel;
    var client := Client(inv, recommended, blockId, now);
    var s := BookingService.CreateBooking(sys.booking, username, req, client, today, now, requestId, bookingId);
    assert BookWith(sys, recommended, username, req, today, now, requestId, bookingId, blockId) == (System(Apply(inv, s.calls, blockId, now), s.db), s.outcome);
    var b := s.outcome.value;
    var c := BookingService.Confirm(b.roomId, b.startDate, b.endDate, bookingId, requestId);
    assert s.calls[|s.calls| - 2] == c;
    assert client.confirm(c) == ConfirmEndpoint(inv, c, blockId, now);
    assert client.room(b.roomId) == RoomEndpoint(inv, b.roomId);
    ConfirmedRun(inv, s.calls, blockId, now);
  }

  /** A successful booking needed the room to exist, be available, carry a
      price and have no CONFIRMED block over the dates. */
  lemma BookedRoomWasFree(sys: System, recommended: seq<BookingService.RoomInfo>, username: string, req: BookingService.BookingRequest, today: int, now: int,
                          requestId: string, bookingId: int, blockId: int)
    requires BlocksKeyed(sys.hotel.blocks) && requestId !in sys.hotel.blocks
    requires BookWith(sys, recommended, username, req, today, now, requestId, bookingId, blockId).1.Ok?
    ensures var b := BookWith(sys, recommended, username, req, today, now, requestId, bookingId, blockId).1.value;
      var room := FindRoom(sys.hotel.rooms, b.roomId);
      && room.Some? && room.value.available && room.value.pricePerNight.Some?
      && !RoomBlockService.HasConfirmedConflict(sys.hotel.blocks, b.roomId, b.startDate, b.endDate)
  {
    BookingRun(sys, recommended, username, req, today, now, requestId, bookingId, blockId);
  }

  /** The hold a successful booking leaves in the hotel is PENDING, although
      the booking itself is CONFIRMED; nothing else about the holds or the
      hotels changes. */
  lemma BookingLeavesPendingHold(sys: System, recommended: seq<BookingService.RoomInfo>, username: string, req: BookingService.BookingRequest, today: int, now: int,
                                 requestId: string, bookingId: int, blockId: int)
    requires BlocksKeyed(sys.hotel.blocks) && requestId !in sys.hotel.blocks
    requires BookWith(sys, recommended, username, req, today, now, requestId, bookingId, blockId).1.Ok?
    ensures var r := BookWith(sys, recommended, username, req, today, now, requestId, bookingId, blockId);
      var b := r.1.value;
      && b.status == BookingModel.Confirmed
      && r.0.hotel.hotels == sys.hotel.hotels
      && r.0.hotel.blocks == sys.hotel.blocks[requestId := RoomBlock(blockId, b.roomId, b.startDate, b.endDate, Some(bookingId), requestId, Pending, now, None)]
  {
    BookingRun(sys, recommended, username, req, today, now, requestId, bookingId, blockId);
    BookingRecordsConfirmed(sys, recommended, username, req, today, now, requestId, bookingId, blockId);
  }

  /** The hold a successful booking leaves is the one block its booking id
      finds, when no block carried that id before. */
  lemma BookingHoldFoundByBookingId(sys: System, recommended: seq<BookingService.RoomInfo>, username: string, req: BookingService.BookingRequest, today: int, now: int,
                                    requestId: string, bookingId: int, blockId: int)
    requires BlocksKeyed(sys.hotel.blocks) && requestId !in sys.hotel.blocks
    requires RoomBlockRepository.FindByBookingId(sys.hotel.blocks, bookingId) == {}
    requires BookWith(sys, recommended, username, req, today, now, requestId, bookingId, blockId).1.Ok?
    ensures var r := BookWith(sys, recommended, username, req, today, now, requestId, bookingId, blockId);
      && requestId in r.0.hotel.blocks
      && RoomBlockRepository.FindByBookingId(r.0.hotel.blocks, bookingId) == {r.0.hotel.blocks[requestId]}
  {
    BookingLeavesPendingHold(sys, recommended, username, req, today, now, requestId, bookingId, blockId);
    var b := BookWith(sys, recommended, username, req, today, now, requestId, bookingId, blockId).1.value;
    var hold := RoomBlock(blockId, b.roomId, b.startDate, b.endDate, Some(bookingId), requestId, Pending, now, None);
    RoomBlockRepository.FindByBookingIdAfterInsert(sys.hotel.blocks, requestId, hold, bookingId);
  }

  /** A successful booking raises the booked room's counter by one (wrapping
      at the top of Java's int) and changes no other room. */
  lemma BookingRaisesCounter(sys: System, recommended: seq<BookingService.RoomInfo>, username: string, req: BookingService.BookingRequest, today: int, now: int,
                             requestId: string, bookingId: int, blockId: int)
    requires BlocksKeyed(sys.hotel.blocks) && RoomIdsDistinct(sys.hotel.rooms) && requestId !in sys.hotel.blocks
    requires BookWith(sys, recommended, username, req, today, now, requestId, bookingId, blockId).1.Ok?
    ensures var r := BookWith(sys, recommended, username, req, today, now, requestId, bookingId, blockId);
      var b := r.1.value;
      && |r.0.hotel.rooms| == |sys.hotel.rooms|
      && forall i :: 0 <= i < |sys.hotel.rooms| ==>
           r.0.hotel.rooms[i] == if sys.hotel.rooms[i].id == b.roomId
             then sys.hotel.rooms[i].(timesBooked := AddInt32(sys.hotel.rooms[i].timesBooked, 1))
             else sys.hotel.rooms[i]
  {
    BookingRun(sys, recommended, username, req, today, now, requestId, bookingId, blockId);
  }

  /** The converse for a request that names its room: valid dates, a
      known caller, a fresh request id, and a room that exists, is
      available, has a price and has no CONFIRMED block over the dates make
      the booking succeed, for the room it named. */
  lemma BookingSucceeds(sys: System, recommended: seq<BookingService.RoomInfo>, username: string, req: BookingService.BookingRequest, today: int, now: int,
                        requestId: string, bookingId: int, blockId: int, roomId: int)
    requires BlocksKeyed(sys.hotel.blocks)
    requires !req.autoSelect && req.roomId == Some(roomId)
    requires today <= req.startDate <= req.endDate && BookingModel.HasUsername(sys.booking.users, username)
    requires requestId !in sys.hotel.blocks
    requires FindRoom(sys.hotel.rooms, roomId).Some?
    requires FindRoom(sys.hotel.rooms, roomId).value.available && FindRoom(sys.hotel.rooms, roomId).value.pricePerNight.Some?
    requires !RoomBlockService.HasConfirmedConflict(sys.hotel.blocks, roomId, req.startDate, req.endDate)
    ensures var r := BookWith(sys, recommended, username, req, today, now, requestId, bookingId, blockId);
      r.1.Ok? && r.1.value.roomId == roomId
  {
    var inv := sys.hotel;
    var client := Client(inv, recommended, blockId, now);
    var c := BookingService.Confirm(roomId, req.startDate, req.endDate, bookingId, requestId);
    assert RoomBlockService.ConfirmAvailability(inv, roomId, HoldRequest(c), blockId, now).Ok?;
    assert client.confirm(c) == ConfirmEndpoint(inv, c, blockId, now);
    assert client.room(roomId) == RoomEndpoint(inv, roomId);
    BookingService.CreateBookingSucceeds(sys.booking, username, req, client, today, now, requestId, bookingId, roomId);
    BookingRecordsConfirmed(sys, recommended, username, req, today, now, requestId, bookingId, blockId);
  }

  /** After a booking the hotel still has the booked room, unchanged but for
      its counter, and no CONFIRMED block over the booked dates. */
  lemma RoomStillFreeAfterBooking(sys: System, recommended: seq<BookingService.RoomInfo>, username: string, req: BookingService.BookingRequest, today: int, now: int,
                                  requestId: string, bookingId: int, blockId: int)
    requires BlocksKeyed(sys.hotel.blocks) && RoomIdsDistinct(sys.hotel.rooms)
    requires requestId !in sys.hotel.blocks
    requires BookWith(sys, recommended, username, req, today, now, requestId, bookingId, blockId).1.Ok?
    ensures var r := BookWith(sys, recommended, username, req, today, now, requestId, bookingId, blockId);
      var b := r.1.value;
      var room := FindRoom(r.0.hotel.rooms, b.roomId);
      && RoomIdsDistinct(r.0.hotel.rooms)
      && room.Some? && room.value.available && room.value.pricePerNight.Some?
      && !RoomBlockService.HasConfirmedConflict(r.0.hotel.blocks, b.roomId, b.startDate, b.endDate)
  {
    BookedRoomWasFree(sys, recommended, username, req, today, now, requestId, bookingId, blockId);
    BookingLeavesPendingHold(sys, recommended, username, req, today, now, requestId, bookingId, blockId);
    BookingRaisesCounter(sys, recommended, username, req, today, now, requestId, bookingId, blockId);
    var r := BookWith(sys, recommended, username, req, today, now, requestId, bookingId, blockId);
    var b := r.1.value;
    CounterBumpKeepsRoom(sys.hotel.rooms, r.0.hotel.rooms, b.roomId);
    PendingHoldKeepsDatesFree(sys.hotel.blocks, requestId, r.0.hotel.blocks[requestId], b.roomId, b.startDate, b.endDate);
  }

  /** Raising one room's counter keeps the ids and every other field. */
  lemma CounterBumpKeepsRoom(rooms: seq<Room>, bumped: seq<Room>, roomId: int)
    requires RoomIdsDistinct(rooms) && HasRoom(rooms, roomId) && |bumped| == |rooms|
    requires forall i :: 0 <= i < |rooms| ==>
      bumped[i] == if rooms[i].id == roomId then rooms[i].(timesBooked := AddInt32(rooms[i].timesBooked, 1)) else rooms[i]
    ensures RoomIdsDistinct(bumped)
    ensures FindRoom(bumped, roomId).Some?
    ensures FindRoom(bumped, roomId).value.available == FindRoom(rooms, roomId).value.available
    ensures FindRoom(bumped, roomId).value.pricePerNight == FindRoom(rooms, roomId).value.pricePerNight
  {
    forall i, k | 0 <= i < k < |bumped| ensures bumped[i].id != bumped[k].id {
      assert bumped[i].id == rooms[i].id && bumped[k].id == rooms[k].id;
    }
    var j :| 0 <= j < |rooms| && rooms[j] == FindRoom(rooms, roomId).value;
    FindRoomAt(bumped, j);
  }

  /** A PENDING hold never makes dates taken. */
  lemma PendingHoldKeepsDatesFree(blocks: map<string, RoomBlock>, k: string, hold: RoomBlock, roomId: int, startDate: int, endDate: int)
    requires hold.status == Pending
    requires !RoomBlockService.HasConfirmedConflict(blocks, roomId, startDate, endDate)
    ensures !RoomBlockService.HasConfirmedConflict(blocks[k := hold], roomId, startDate, endDate)
  {
    var after := blocks[k := hold];
    forall x | x in RoomBlockRepository.FindConflictingBlocks(after, roomId, startDate, endDate)
      ensures x.status != Confirmed
    {
      var k' :| k' in after && after[k'] == x;
      if k' != k {
        assert blocks[k'] == x;
        assert x in RoomBlockRepository.FindConflictingBlocks(blocks, roomId, startDate, endDate);
      }
    }
  }

  /** Nothing stops a second request from booking the same room for the
      same dates once the first has gone through: the first left only a
      PENDING hold, and PENDING holds never reject. Both bookings end up
      CONFIRMED. */
  lemma SameRoomBookedTwice(sys: System, recommended: seq<BookingService.RoomInfo>, username: string, req: BookingService.BookingRequest, today: int,
                            now: int, requestId: string, bookingId: int, blockId: int,
                            recommended2: seq<BookingService.RoomInfo>, now2: int, requestId2: string, bookingId2: int, blockId2: int)
    requires BlocksKeyed(sys.hotel.blocks) && RoomIdsDistinct(sys.hotel.rooms)
    requires !req.autoSelect
    requires requestId !in sys.hotel.blocks && requestId2 !in sys.hotel.blocks && requestId2 != requestId
    requires bookingId2 != bookingId
    requires BookWith(sys, recommended, username, req, today, now, requestId, bookingId, blockId).1.Ok?
    ensures var first := BookWith(sys, recommended, username, req, today, now, requestId, bookingId, blockId);
      var second := BookWith(first.0, recommended2, username, req, today, now2, requestId2, bookingId2, blockId2);
      && second.1.Ok?
      && second.1.value.roomId == first.1.value.roomId
      && second.1.value.startDate == first.1.value.startDate && second.1.value.endDate == first.1.value.endDate
      && second.0.booking.bookings[bookingId].status == BookingModel.Confirmed
      && second.0.booking.bookings[bookingId2].status == BookingModel.Confirmed
  {
    var first := BookWith(sys, recommended, username, req, today, now, requestId, bookingId, blockId);
    BookingRecordsConfirmed(sys, recommended, username, req, today, now, requestId, bookingId, blockId);
    BookingLeavesPendingHold(sys, recommended, username, req, today, now, requestId, bookingId, blockId);
    RoomStillFreeAfterBooking(sys, recommended, username, req, today, now, requestId, bookingId, blockId);
    var b := first.1.value;
    BookingSucceeds(first.0, recommended2, username, req, today, now2, requestId2, bookingId2, blockId2, b.roomId);
    BookingRecordsConfirmed(first.0, recommended2, username, req, today, now2, requestId2, bookingId2, blockId2);
  }

  /** Cancelling a CONFIRMED booking of the caller's whose hold is still
      PENDING removes the hold and leaves every room's counter as it was. */
  lemma CancelReleasesPendingHold(sys: System, username: string, bookingId: int, now: int)
    requires BlocksKeyed(sys.hotel.blocks)
    requires bookingId in sys.booking.bookings
    requires BookingService.OwnedBy(sys.booking, sys.booking.bookings[bookingId], username)
    requires sys.booking.bookings[bookingId].status == BookingModel.Confirmed
    requires sys.booking.bookings[bookingId].requestId in sys.hotel.blocks
    requires sys.hotel.blocks[sys.booking.bookings[bookingId].requestId].status == Pending
    ensures var r := Cancel(sys, username, bookingId, now);
      && r.1.Ok?
      && r.0.hotel == sys.hotel.(blocks := sys.hotel.blocks - {sys.booking.bookings[bookingId].requestId})
      && r.0.booking.bookings[bookingId].status == BookingModel.Cancelled
  {
    var b := sys.booking.bookings[bookingId];
    var release := BookingService.Release(b.roomId, b.requestId);
    assert BookingService.CancelBooking(sys.booking, username, bookingId, now).1 == [release];
    assert Apply(sys.hotel, [release], 0, now) == Step(sys.hotel, release, 0, now);
  }

  /** Booking and then cancelling removes the hold but not the counter
      raise: the saga leaves the hold PENDING, and a release only lowers
      the counter for a CONFIRMED hold, so each cancelled booking still
      counts towards the room's popularity. */
  lemma CancelKeepsCounterRaised(sys: System, recommended: seq<BookingService.RoomInfo>, username: string, req: BookingService.BookingRequest, today: int, now: int,
                                 requestId: string, bookingId: int, blockId: int, later: int)
    requires BlocksKeyed(sys.hotel.blocks) && RoomIdsDistinct(sys.hotel.rooms) && BookingModel.Valid(sys.booking)
    requires requestId !in sys.hotel.blocks
    requires BookWith(sys, recommended, username, req, today, now, requestId, bookingId, blockId).1.Ok?
    ensures var booked := BookWith(sys, recommended, username, req, today, now, requestId, bookingId, blockId);
      var cancelled := Cancel(booked.0, username, bookingId, later);
      && cancelled.1.Ok?
      && cancelled.0.hotel.blocks == sys.hotel.blocks
      && cancelled.0.hotel.rooms == booked.0.hotel.rooms
      && cancelled.0.booking.bookings[bookingId].status == BookingModel.Cancelled
  {
    var booked := BookWith(sys, recommended, username, req, today, now, requestId, bookingId, blockId);
    BookingRecordsConfirmed(sys, recommended, username, req, today, now, requestId, bookingId, blockId);
    BookingLeavesPendingHold(sys, recommended, username, req, today, now, requestId, bookingId, blockId);
    CancelAfterBooking(sys, booked.0, username, bookingId, booked.1.value, later);
  }

  /** The cancel half of `CancelKeepsCounterRaised`, stated over the tables
      a booking left behind. */
  lemma CancelAfterBooking(sys: System, sys1: System, username: string, bookingId: int, b: BookingModel.Booking, later: int)
    requires BlocksKeyed(sys1.hotel.blocks) && BookingModel.Valid(sys.booking)
    requires BookingModel.HasUsername(sys.booking.users, username)
    requires b.userId == BookingModel.FindByUsername(sys.booking.users, username).value.id
    requires b.status == BookingModel.Confirmed
    requires sys1.booking == sys.booking.(bookings := sys.booking.bookings[bookingId := b])
    requires b.requestId !in sys.hotel.blocks && b.requestId in sys1.hotel.blocks
    requires sys1.hotel.blocks == sys.hotel.blocks[b.requestId := sys1.hotel.blocks[b.requestId]]
    requires sys1.hotel.blocks[b.requestId].status == Pending
    ensures var cancelled := Cancel(sys1, username, bookingId, later);
      && cancelled.1.Ok?
      && cancelled.0.hotel.blocks == sys.hotel.blocks
      && cancelled.0.hotel.rooms == sys1.hotel.rooms
      && cancelled.0.booking.bookings[bookingId].status == BookingModel.Cancelled
  {
    var users := sys.booking.users;
    // the booking's user row is the caller's
    var owner := BookingModel.FindByUsername(users, username).value;
    var k :| 0 <= k < |users| && users[k] == owner;
    BookingModel.FindUserAt(users, k);
    assert BookingService.OwnedBy(sys1.booking, sys1.booking.bookings[bookingId], username);
    CancelReleasesPendingHold(sys1, username, bookingId, later);
    RemoveAdded(sys.hotel.blocks, b.requestId, sys1.hotel.blocks[b.requestId]);
  }

  lemma RemoveAdded(blocks: map<string, RoomBlock>, k: string, b: RoomBlock)
    requires k !in blocks
    ensures blocks[k := b] - {k} == blocks
  {
    assert (blocks[k := b] - {k}).Keys == blocks.Keys;
  }

  /** Under auto-selection the booked room is the first one recommended. */
  lemma AutoSelectTakesHead(sys: System, recommended: seq<BookingService.RoomInfo>, username: string, req: BookingService.BookingRequest,
                            today: int, now: int, requestId: string, bookingId: int, blockId: int)
    requires BlocksKeyed(sys.hotel.blocks) && req.autoSelect
    requires BookWith(sys, recommended, username, req, today, now, requestId, bookingId, blockId).1.Ok?
    ensures |recommended| > 0
    ensures BookWith(sys, recommended, username, req, today, now, requestId, bookingId, blockId).1.value.roomId == recommended[0].id
  {
    var client := Client(sys.hotel, recommended, blockId, now);
    BookingRecordsConfirmed(sys, recommended, username, req, today, now, requestId, bookingId, blockId);
    assert BookingService.SelectBestRoom(client.recommended).Ok?;
  }

  /** The first recommended room is a room of the hotel's, available today
      and booked no more often than any other room available today. */
  lemma RecommendedHeadIsLeastBooked(inv: Inventory, today: int)
    requires RoomIdsDistinct(inv.rooms)
    requires |RoomService.GetRecommendedRooms(inv, today)| > 0
    ensures var head := RoomService.GetRecommendedRooms(inv, today)[0];
      && FindRoom(inv.rooms, head.id) == Some(head)
      && RoomService.IsRoomAvailableNow(inv.blocks, head, today)
      && forall x :: x in inv.rooms && RoomService.IsRoomAvailableNow(inv.blocks, x, today) ==> head.timesBooked <= x.timesBooked
  {
    var recs := RoomService.GetRecommendedRooms(inv, today);
    assert recs[0] in recs;
    var j :| 0 <= j < |inv.rooms| && inv.rooms[j] == recs[0];
    FindRoomAt(inv.rooms, j);
    forall x | x in inv.rooms && RoomService.IsRoomAvailableNow(inv.blocks, x, today)
      ensures recs[0].timesBooked <= x.timesBooked
    {
      RoomOrder.HeadPrecedesAll(RoomOrder.ByLeastBooked, recs, x);
    }
  }

  /** Under auto-selection the booked room is one that is available today
      and has the fewest bookings among the rooms available today. */
  lemma AutoSelectPicksLeastBooked(sys: System, username: string, req: BookingService.BookingRequest, today: int, now: int,
                                   requestId: string, bookingId: int, blockId: int)
    requires BlocksKeyed(sys.hotel.blocks) && RoomIdsDistinct(sys.hotel.rooms)
    requires req.autoSelect
    requires Book(sys, username, req, today, now, requestId, bookingId, blockId).1.Ok?
    ensures var b := Book(sys, username, req, today, now, requestId, bookingId, blockId).1.value;
      var room := FindRoom(sys.hotel.rooms, b.roomId);
      && room.Some? && RoomService.IsRoomAvailableNow(sys.hotel.blocks, room.value, today)
      && forall x :: x in sys.hotel.rooms && RoomService.IsRoomAvailableNow(sys.hotel.blocks, x, today) ==>
           room.value.timesBooked <= x.timesBooked
  {
    var recs := RoomService.GetRecommendedRooms(sys.hotel, today);
    AutoSelectTakesHead(sys, Infos(recs), username, req, today, now, requestId, bookingId, blockId);
    RecommendedHeadIsLeastBooked(sys.hotel, today);
  }

  /** A second cancel of the same booking changes nothing on either side. */
  lemma CancelTwiceIsNoop(sys: System, username: string, bookingId: int, now: int, later: int)
    requires BlocksKeyed(sys.hotel.blocks)
    requires Cancel(sys, username, bookingId, now).1.Ok?
    ensures var once := Cancel(sys, username, bookingId, now).0;
      Cancel(once, username, bookingId, later) == (once, Ok(()))
  {
    BookingService.CancelIsIdempotent(sys.booking, username, bookingId, now, later);
  }

  /** With a fresh booking key and request id, a booking keeps both
      services' constraints. */
  lemma BookKeepsValid(sys: System, recommended: seq<BookingService.RoomInfo>, username: string, req: BookingService.BookingRequest, today: int, now: int,
                       requestId: string, bookingId: int, blockId: int)
    requires Valid(sys.hotel) && BookingModel.Valid(sys.booking)
    requires bookingId !in sys.booking.bookings && BookingService.FreshRequest(sys.booking, requestId)
    ensures var r := BookWith(sys, recommended, username, req, today, now, requestId, bookingId, blockId);
      Valid(r.0.hotel) && BookingModel.Valid(r.0.booking)
  {
    BookingService.CreateBookingKeepsValid(sys.booking, username, req, Client(sys.hotel, recommended, blockId, now),
                                           today, now, requestId, bookingId);
  }
}
