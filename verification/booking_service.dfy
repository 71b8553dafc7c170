/** The booking saga of the booking service and the reads and cancels of
    existing bookings. Calls to the hotel service are outcomes supplied by
    the caller; the saga reports which calls it made, which rows it saved
    along the way and what it finally committed. */
module BookingService {
  import opened Wrappers
  import opened Lang
  import opened BookingModel
  import UserService
  import GlobalExceptionHandler

  /** The body of a create-booking request. `hotelId` is accepted but never
      read. */
  datatype BookingRequest = BookingRequest(roomId: Option<int>, startDate: int, endDate: int, autoSelect: bool, hotelId: Option<int>)

  /** The room data the hotel service returns; the price is in integer
      cents and nullable. */
  datatype RoomInfo = RoomInfo(id: int, hotelId: Option<int>, timesBooked: int, pricePerNight: Option<int>, available: bool)

  /** The outcome of one remote call: a reply, an HTTP error raised by the
      HTTP client with its status, or any other exception. */
  datatype Remote<+T> = Answered(value: T) | HttpError(status: int, message: Option<string>) | Broken(message: Option<string>)

  /** The requests the booking service sends to the hotel service. */
  datatype HotelCall =
    | GetRecommended
    | GetRoom(roomId: int)
    | Confirm(roomId: int, startDate: int, endDate: int, bookingId: int, requestId: string)
    | Increment(roomId: int)
    | Release(roomId: int, requestId: string)
  {
    /** The call only reads the hotel's tables. */
    predicate IsLookup() {
      GetRecommended? || GetRoom?
    }
  }

  /** What the hotel service answers: the recommendation list, the room
      lookup, and the confirm. */
  datatype HotelClient = HotelClient(
    recommended: Remote<seq<RoomInfo>>,
    room: int -> Remote<Option<RoomInfo>>,
    confirm: HotelCall -> Remote<()>)

  /** One run of the saga: its result, the committed tables, every booking
      row it wrote before the transaction ended, and its remote calls. */
  datatype Saga = Saga(outcome: Result<Booking, Failure>, db: BookingDb, saves: seq<Booking>, calls: seq<HotelCall>)

  const PastStart := "Нельзя забронировать в прошлое"
  const StartAfterEnd := "Дата начала должна быть раньше даты конца"
  const RoomIdRequired := "ID номера обязателен когда autoSelect=false"
  const NoRooms := "Нет доступных номеров"
  const LookupFailed := "Hotel Service недоступен - не могу получить данные номера"
  const BadRoomData := "Полученные от Hotel Service данные некорректны"
  const ConfirmFailedPrefix := "Не удалось подтвердить бронирование: "

  /** A remote failure as it leaves the booking service when nothing
      catches it: HTTP errors keep their status. */
  function Rethrown<T>(r: Remote<T>): (f: Failure)
    requires !r.Answered?
    ensures r.HttpError? ==> f == Feign(r.status, r.message)
    ensures r.Broken? ==> f == Runtime(r.message)
  {
    if r.HttpError? then Feign(r.status, r.message) else Runtime(r.message)
  }

  /** `selectBestRoom`: the head of the recommendation list. */
  function SelectBestRoom(recommended: Remote<seq<RoomInfo>>): (r: Result<int, Failure>)
    ensures r.Ok? <==> recommended.Answered? && |recommended.value| > 0
    ensures r.Ok? ==> r.value == recommended.value[0].id
    ensures recommended.Answered? && |recommended.value| == 0 ==> r == Err(Fail(NoRooms))
    ensures !recommended.Answered? ==> r == Err(Rethrown(recommended))
  {
    match recommended
    case Answered(rooms) => if |rooms| == 0 then Err(Fail(NoRooms)) else Ok(rooms[0].id)
    case _ => Err(Rethrown(recommended))
  }

  /** Which room a request books: the recommended one under auto-selection,
      otherwise the one it names, which it must name. */
  function ResolveRoom(req: BookingRequest, client: HotelClient): (r: Result<int, Failure>)
    ensures req.autoSelect ==> r == SelectBestRoom(client.recommended)
    ensures !req.autoSelect ==> (r.Ok? <==> req.roomId.Some?)
    ensures !req.autoSelect && r.Ok? ==> r.value == req.roomId.value
    ensures !req.autoSelect && r.Err? ==> r.error == IllegalArgument(RoomIdRequired)
  {
    if req.autoSelect then SelectBestRoom(client.recommended)
    else if req.roomId.None? then Err(IllegalArgument(RoomIdRequired))
    else Ok(req.roomId.value)
  }

  /** A failed run: the transaction rolls back, so nothing is committed. */
  function Aborted(db: BookingDb, f: Failure, saves: seq<Booking>, calls: seq<HotelCall>): (s: Saga)
    ensures s.outcome == Err(f) && s.db == db && s.saves == saves && s.calls == calls
  {
    Saga(Err(f), db, saves, calls)
  }

  /** The booking row the saga writes first. */
  function PendingBooking(bookingId: int, user: User, roomId: int, req: BookingRequest, info: RoomInfo, requestId: string, now: int): (b: Booking)
    requires info.pricePerNight.Some?
    ensures b.status == Pending && b.id == bookingId && b.userId == user.id && b.roomId == roomId
    ensures b.startDate == req.startDate && b.endDate == req.endDate && b.requestId == requestId
    ensures b.hotelId == info.hotelId && b.updatedAt == None && b.createdAt == now
    ensures b.totalPrice == Some(info.pricePerNight.value * (req.endDate - req.startDate))
  {
    Booking(bookingId, user.id, roomId, req.startDate, req.endDate, Pending, now, requestId,
            info.hotelId, Some(info.pricePerNight.value * (req.endDate - req.startDate)), None)
  }

  /** The confirm phase: the PENDING row is saved, the hotel is asked to
      confirm, and the row moves to CONFIRMED (and the room's counter is
      bumped, ignoring the answer) or to CANCELLED with the failure
      rethrown. */
  function ConfirmPhase(db: BookingDb, pending: Booking, client: HotelClient, now: int, calls: seq<HotelCall>): (s: Saga)
    requires pending.status == Pending
    ensures var c := Confirm(pending.roomId, pending.startDate, pending.endDate, pending.id, pending.requestId);
      && |s.saves| == 2 && s.saves[0] == pending
      && s.saves[1] == pending.(status := if client.confirm(c).Answered? then Confirmed else Cancelled, updatedAt := Some(now))
      && (client.confirm(c).Answered? <==> s.outcome.Ok?)
      && (s.outcome.Ok? ==>
            && s.outcome.value == s.saves[1]
            && s.db == db.(bookings := db.bookings[pending.id := s.saves[1]])
            && s.calls == calls + [c, Increment(pending.roomId)])
      && (client.confirm(c).HttpError? ==> s.outcome == Err(Feign(client.confirm(c).status, client.confirm(c).message)))
      && (client.confirm(c).Broken? ==> s.outcome == Err(Fail(ConfirmFailedPrefix + GlobalExceptionHandler.JavaText(client.confirm(c).message))))
      && (s.outcome.Err? ==> s.db == db && s.calls == calls + [c])
  {
    var c := Confirm(pending.roomId, pending.startDate, pending.endDate, pending.id, pending.requestId);
    match client.confirm(c)
    case Answered(_) =>
      var confirmed := pending.(status := Confirmed, updatedAt := Some(now));
      Saga(Ok(confirmed), db.(bookings := db.bookings[pending.id := confirmed]), [pending, confirmed], calls + [c, Increment(pending.roomId)])
    case HttpError(status, message) =>
      Aborted(db, Feign(status, message), [pending, pending.(status := Cancelled, updatedAt := Some(now))], calls + [c])
    case Broken(message) =>
      Aborted(db, Fail(ConfirmFailedPrefix + GlobalExceptionHandler.JavaText(message)),
              [pending, pending.(status := Cancelled, updatedAt := Some(now))], calls + [c])
  }

  /** `createBooking`. The dates are checked against `today` and each
      other, the user is looked up, the room is chosen and looked up for its
      price; any failure so far writes nothing and stops before the confirm.
      Then the confirm phase runs. `requestId` is the fresh trace id,
      `bookingId` the generated key and `now` the clock. */
  function CreateBooking(db: BookingDb, username: string, req: BookingRequest, client: HotelClient,
                         today: int, now: int, requestId: string, bookingId: int): (s: Saga)
    // a failed run commits nothing
    ensures s.outcome.Err? ==> s.db == db
    ensures req.startDate < today ==> s == Aborted(db, IllegalArgument(PastStart), [], [])
    ensures today <= req.startDate && req.startDate > req.endDate ==> s == Aborted(db, IllegalArgument(StartAfterEnd), [], [])
    ensures today <= req.startDate <= req.endDate && !HasUsername(db.users, username) ==> s == Aborted(db, Fail(UserNotFound), [], [])
    // a successful run commits exactly one new CONFIRMED booking, priced per night
    ensures s.outcome.Ok? ==>
      var b := s.outcome.value;
      && today <= req.startDate <= req.endDate
      && HasUsername(db.users, username) && b.userId == FindByUsername(db.users, username).value.id
      && b.id == bookingId && b.status == Confirmed && b.requestId == requestId
      && b.startDate == req.startDate && b.endDate == req.endDate
      && ResolveRoom(req, client) == Ok(b.roomId)
      && client.confirm(Confirm(b.roomId, b.startDate, b.endDate, bookingId, requestId)).Answered?
      && client.room(b.roomId).Answered? && client.room(b.roomId).value.Some?
      && client.room(b.roomId).value.value.pricePerNight.Some?
      && b.totalPrice == Some(client.room(b.roomId).value.value.pricePerNight.value * (req.endDate - req.startDate))
      && s.db == db.(bookings := db.bookings[bookingId := b])
      && s.saves == [b.(status := Pending, updatedAt := None), b]
      && |s.calls| >= 3
      && s.calls[|s.calls| - 2..] == [Confirm(b.roomId, b.startDate, b.endDate, bookingId, requestId), Increment(b.roomId)]
    // rows move only along the status machine
    ensures |s.saves| == 0 || (|s.saves| == 2 && s.saves[0].status == Pending && CanMove(s.saves[0].status, s.saves[1].status))
    // lookups come first; then the confirm, if it is reached, and on success the counter bump
    ensures s.outcome.Ok? ==> forall i :: 0 <= i < |s.calls| - 2 ==> s.calls[i].IsLookup()
    ensures s.outcome.Err? ==> forall i :: 0 <= i < |s.calls| ==>
      s.calls[i].IsLookup() || (i == |s.calls| - 1 && s.calls[i].Confirm? && !client.confirm(s.calls[i]).Answered?)
    // the confirm is the only call that can change the hotel's holds, and it comes last but for the counter
    ensures forall i :: 0 <= i < |s.calls| && s.calls[i].Confirm? ==> i >= |s.calls| - 2 && s.calls[i].requestId == requestId
  {
    if req.startDate < today then Aborted(db, IllegalArgument(PastStart), [], [])
    else if req.startDate > req.endDate then Aborted(db, IllegalArgument(StartAfterEnd), [], [])
    else match UserService.GetUserByUsername(db, username)
    case Err(f) => Aborted(db, f, [], [])
    case Ok(user) =>
      var picked := if req.autoSelect then [GetRecommended] else [];
      match ResolveRoom(req, client)
      case Err(f) => Aborted(db, f, [], picked)
      case Ok(roomId) =>
        var calls := picked + [GetRoom(roomId)];
        match client.room(roomId)
        case HttpError(_, _) => Aborted(db, Fail(LookupFailed), [], calls)
        case Broken(_) => Aborted(db, Fail(LookupFailed), [], calls)
        case Answered(None) => Aborted(db, Fail(BadRoomData), [], calls)
        case Answered(Some(info)) =>
          if info.pricePerNight.None? then Aborted(db, Runtime(None), [], calls)
          else ConfirmPhase(db, PendingBooking(bookingId, user, roomId, req, info, requestId, now), client, now, calls)
  }

  /** The converse of the success postcondition of `CreateBooking`: valid
      dates, a known user, a chosen room that the hotel describes with a
      price, and a confirm the hotel accepts make the run succeed. */
  lemma CreateBookingSucceeds(db: BookingDb, username: string, req: BookingRequest, client: HotelClient,
                              today: int, now: int, requestId: string, bookingId: int, roomId: int)
    requires today <= req.startDate <= req.endDate && HasUsername(db.users, username)
    requires ResolveRoom(req, client) == Ok(roomId)
    requires client.room(roomId).Answered? && client.room(roomId).value.Some?
    requires client.room(roomId).value.value.pricePerNight.Some?
    requires client.confirm(Confirm(roomId, req.startDate, req.endDate, bookingId, requestId)).Answered?
    ensures CreateBooking(db, username, req, client, today, now, requestId, bookingId).outcome.Ok?
  {
    var user := UserService.GetUserByUsername(db, username);
    assert user.Ok?;
    var pending := PendingBooking(bookingId, user.value, roomId, req, client.room(roomId).value.value, requestId, now);
    assert Confirm(pending.roomId, pending.startDate, pending.endDate, pending.id, pending.requestId)
        == Confirm(roomId, req.startDate, req.endDate, bookingId, requestId);
  }

  /** The hotel as the booking service sees it when the confirm's answer
      does not come back (a read timeout, say): the hotel still receives
      the confirm, but the saga only sees `lost`. */
  function LoseConfirm(client: HotelClient, lost: Remote<()>): HotelClient {
    client.(confirm := _ => lost)
  }

  /** A run that would have succeeded, with the confirm's answer lost: the
      same calls go out up to and including the confirm, the row is saved
      CANCELLED, the transaction rolls back and no counter bump is sent. An
      HTTP-client timeout is rethrown as it came. */
  lemma LostConfirmRollsBack(db: BookingDb, username: string, req: BookingRequest, client: HotelClient,
                             today: int, now: int, requestId: string, bookingId: int, lost: Remote<()>)
    requires !lost.Answered?
    requires CreateBooking(db, username, req, client, today, now, requestId, bookingId).outcome.Ok?
    ensures var s := CreateBooking(db, username, req, client, today, now, requestId, bookingId);
      var t := CreateBooking(db, username, req, LoseConfirm(client, lost), today, now, requestId, bookingId);
      && t.outcome.Err? && t.db == db
      && |s.calls| >= 1 && t.calls == s.calls[..|s.calls| - 1]
      && t.saves == [s.saves[0], s.saves[0].(status := Cancelled, updatedAt := Some(now))]
      && (lost.HttpError? ==> t.outcome == Err(Feign(lost.status, lost.message)))
  {
    var lossy := LoseConfirm(client, lost);
    var user := UserService.GetUserByUsername(db, username).value;
    var roomId := ResolveRoom(req, client).value;
    assert ResolveRoom(req, lossy) == Ok(roomId);
    var picked := if req.autoSelect then [GetRecommended] else [];
    var calls := picked + [GetRoom(roomId)];
    var info := client.room(roomId).value.value;
    var pending := PendingBooking(bookingId, user, roomId, req, info, requestId, now);
    var s := CreateBooking(db, username, req, client, today, now, requestId, bookingId);
    var t := CreateBooking(db, username, req, lossy, today, now, requestId, bookingId);
    assert s == ConfirmPhase(db, pending, client, now, calls);
    assert t == ConfirmPhase(db, pending, lossy, now, calls);
    var c := Confirm(pending.roomId, pending.startDate, pending.endDate, pending.id, pending.requestId);
    assert s.calls[..|s.calls| - 1] == calls + [c];
  }

  /** The owner check of reads and cancels: the booking's user row carries
      the caller's username. */
  predicate OwnedBy(db: BookingDb, b: Booking, username: string) {
    match FindUser(db.users, b.userId)
    case Some(u) => u.username == username
    case None => false
  }

  /** `getBookingById`: a missing booking and somebody else's booking fail
      with plain runtime exceptions. */
  function GetBookingById(db: BookingDb, username: string, bookingId: int): (r: Result<Booking, Failure>)
    ensures bookingId !in db.bookings ==> r == Err(Fail(BookingNotFound))
    ensures bookingId in db.bookings ==>
      if OwnedBy(db, db.bookings[bookingId], username) then r == Ok(db.bookings[bookingId])
      else r == Err(Fail(NotOwner))
  {
    if bookingId !in db.bookings then Err(Fail(BookingNotFound))
    else if !OwnedBy(db, db.bookings[bookingId], username) then Err(Fail(NotOwner))
    else Ok(db.bookings[bookingId])
  }

  /** `cancelBooking`: after the same lookup and owner check, a CANCELLED
      booking is left alone; otherwise it becomes CANCELLED, and a CONFIRMED
      one first asks the hotel to release its hold, whatever the answer. */
  function CancelBooking(db: BookingDb, username: string, bookingId: int, now: int): (r: (Result<BookingDb, Failure>, seq<HotelCall>))
    ensures r.0.Ok? <==> GetBookingById(db, username, bookingId).Ok?
    ensures r.0.Err? ==> r.0.error == GetBookingById(db, username, bookingId).error && r.1 == []
    ensures r.0.Ok? ==>
      var b := db.bookings[bookingId];
      && (b.status == Cancelled ==> r.0.value == db)
      && (b.status != Cancelled ==> r.0.value == db.(bookings := db.bookings[bookingId := b.(status := Cancelled, updatedAt := Some(now))]))
      && (r.1 == if b.status == Confirmed then [Release(b.roomId, b.requestId)] else [])
  {
    match GetBookingById(db, username, bookingId)
    case Err(f) => (Err(f), [])
    case Ok(b) =>
      if b.status == Cancelled then (Ok(db), [])
      else
        var calls := if b.status == Confirmed then [Release(b.roomId, b.requestId)] else [];
        (Ok(db.(bookings := db.bookings[bookingId := b.(status := Cancelled, updatedAt := Some(now))])), calls)
  }

  /** No stored booking uses the request id. */
  predicate FreshRequest(db: BookingDb, requestId: string) {
    forall k :: k in db.bookings ==> db.bookings[k].requestId != requestId
  }

  /** With a fresh key and a fresh request id, a booking run keeps the
      booking tables consistent. */
  lemma CreateBookingKeepsValid(db: BookingDb, username: string, req: BookingRequest, client: HotelClient,
                                today: int, now: int, requestId: string, bookingId: int)
    requires Valid(db) && bookingId !in db.bookings && FreshRequest(db, requestId)
    ensures Valid(CreateBooking(db, username, req, client, today, now, requestId, bookingId).db)
  {
    var s := CreateBooking(db, username, req, client, today, now, requestId, bookingId);
    if s.outcome.Ok? {
      var u := FindByUsername(db.users, username).value;
      var j :| 0 <= j < |db.users| && db.users[j] == u;
      assert HasUser(db.users, s.outcome.value.userId);
    }
  }

  /** Cancelling is idempotent: a second cancel of the same booking changes
      nothing and calls nothing. */
  lemma CancelIsIdempotent(db: BookingDb, username: string, bookingId: int, now: int, later: int)
    requires CancelBooking(db, username, bookingId, now).0.Ok?
    ensures var db1 := CancelBooking(db, username, bookingId, now).0.value;
      CancelBooking(db1, username, bookingId, later) == (Ok(db1), [])
  {
    var db1 := CancelBooking(db, username, bookingId, now).0.value;
    assert db1.users == db.users;
    assert bookingId in db1.bookings && db1.bookings[bookingId].status == Cancelled;
    assert db1.bookings[bookingId].userId == db.bookings[bookingId].userId;
  }

  /** A cancel moves a booking only along the status machine and keeps
      the tables consistent. */
  lemma CancelFollowsStatusMachine(db: BookingDb, username: string, bookingId: int, now: int)
    requires Valid(db)
    requires CancelBooking(db, username, bookingId, now).0.Ok?
    ensures var db1 := CancelBooking(db, username, bookingId, now).0.value;
      && Valid(db1)
      && db1.bookings[bookingId].status == Cancelled
      && (db.bookings[bookingId].status == Cancelled || CanMove(db.bookings[bookingId].status, Cancelled))
  {
  }

  /** Asking for somebody else's booking, to read it or to cancel it, is
      answered with 500, not 403. */
  lemma ForeignBookingIsServerError(db: BookingDb, username: string, bookingId: int, now: int, reasons: map<int, string>)
    requires bookingId in db.bookings && !OwnedBy(db, db.bookings[bookingId], username)
    ensures GlobalExceptionHandler.Handle(GetBookingById(db, username, bookingId).error, reasons).status == 500
    ensures GlobalExceptionHandler.Handle(CancelBooking(db, username, bookingId, now).0.error, reasons).status == 500
  {
    GlobalExceptionHandler.OwnershipViolationIsServerError(reasons);
  }

  /** A conflict reported by the hotel's confirm endpoint reaches the client
      as 409, and the run commits nothing although it wrote a CANCELLED row
      before rolling back. */
  lemma ConfirmConflictIs409(db: BookingDb, username: string, req: BookingRequest, client: HotelClient,
                             today: int, now: int, requestId: string, bookingId: int, reasons: map<int, string>)
    requires var s := CreateBooking(db, username, req, client, today, now, requestId, bookingId);
      |s.calls| > 0 && s.calls[|s.calls| - 1].Confirm? && client.confirm(s.calls[|s.calls| - 1]).HttpError?
      && client.confirm(s.calls[|s.calls| - 1]).status == 409
    ensures var s := CreateBooking(db, username, req, client, today, now, requestId, bookingId);
      && s.outcome.Err? && s.db == db
      && GlobalExceptionHandler.Handle(s.outcome.error, reasons).status == 409
      && s.saves[1].status == Cancelled
  {
  }
}
