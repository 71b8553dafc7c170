/** The two-phase hold protocol of the hotel service: `confirmAvailability`
    places (or advances) a hold keyed by the caller's request id, and
    `releaseRoom` removes it, compensating the booking counter. */
module RoomBlockService {
  import opened Wrappers
  import opened Lang
  import opened HotelModel
  import opened RoomBlockRepository

  /** The body of a confirm-availability request. */
  datatype ConfirmRequest = ConfirmRequest(startDate: int, endDate: int, bookingId: Option<int>, requestId: string)

  /** Why a confirm is refused. Each is a runtime exception in the service,
      which the room endpoint answers with 409. */
  datatype ConfirmError = RoomNotFound(roomId: int) | RoomUnavailable | DatesTaken

  const RoomUnavailableMessage := "Номер недоступен для бронирования"
  const DatesTakenMessage := "Номер уже забронирован на выбранные даты"

  /** Some CONFIRMED block of the room meets the requested range. */
  predicate HasConfirmedConflict(blocks: map<string, RoomBlock>, roomId: int, startDate: int, endDate: int) {
    exists b :: b in FindConflictingBlocks(blocks, roomId, startDate, endDate) && b.status == Confirmed
  }

  /** The block a first confirm stores: PENDING, with no expiry. */
  function NewHold(blockId: int, roomId: int, req: ConfirmRequest, now: int): (b: RoomBlock)
    ensures b.status == Pending && b.expiresAt == None
    ensures b.roomId == roomId && b.requestId == req.requestId && b.bookingId == req.bookingId
    ensures b.startDate == req.startDate && b.endDate == req.endDate
  {
    RoomBlock(blockId, roomId, req.startDate, req.endDate, req.bookingId, req.requestId, Pending, now, None)
  }

  /** `confirmAvailability`. A request id seen before short-circuits: a
      CONFIRMED block leaves everything as it is and a PENDING one is moved to
      CONFIRMED, whatever room and dates the retry names. A new request id
      needs the room to exist and be available and no CONFIRMED block of the
      room to meet the dates; it then stores a PENDING hold. `blockId` is the
      generated key and `now` the clock. */
  function ConfirmAvailability(inv: Inventory, roomId: int, req: ConfirmRequest, blockId: int, now: int): (r: Result<Inventory, ConfirmError>)
    requires BlocksKeyed(inv.blocks)
    // a known request id never fails and touches only its own block
    ensures req.requestId in inv.blocks ==>
      && r.Ok?
      && r.value.hotels == inv.hotels && r.value.rooms == inv.rooms
      && r.value.blocks == inv.blocks[req.requestId := inv.blocks[req.requestId].(status := Confirmed)]
    // a new request id fails exactly on a missing or unavailable room or a confirmed overlap
    ensures req.requestId !in inv.blocks ==>
      && (!HasRoom(inv.rooms, roomId) ==> r == Err(RoomNotFound(roomId)))
      && (HasRoom(inv.rooms, roomId) && !FindRoom(inv.rooms, roomId).value.available ==> r == Err(RoomUnavailable))
      && (r.Ok? <==> HasRoom(inv.rooms, roomId) && FindRoom(inv.rooms, roomId).value.available
                     && !HasConfirmedConflict(inv.blocks, roomId, req.startDate, req.endDate))
      && (r.Ok? ==> r.value == inv.(blocks := inv.blocks[req.requestId := NewHold(blockId, roomId, req, now)]))
    ensures r.Ok? ==> BlocksKeyed(r.value.blocks) && r.value.rooms == inv.rooms && r.value.hotels == inv.hotels
    ensures r.Ok? && Valid(inv) && (req.requestId in inv.blocks || HasRoom(inv.rooms, roomId)) ==> Valid(r.value)
  {
    match FindByRequestId(inv.blocks, req.requestId)
    case Some(block) =>
      if block.status == Confirmed then Ok(inv)
      else Ok(inv.(blocks := inv.blocks[req.requestId := block.(status := Confirmed)]))
    case None =>
      match FindRoom(inv.rooms, roomId)
      case None => Err(RoomNotFound(roomId))
      case Some(room) =>
        if !room.available then Err(RoomUnavailable)
        else if HasConfirmedConflict(inv.blocks, roomId, req.startDate, req.endDate) then Err(DatesTaken)
        else Ok(inv.(blocks := inv.blocks[req.requestId := NewHold(blockId, roomId, req, now)]))
  }

  /** The rooms with the counter of room `roomId` lowered by one when it is
      positive. */
  function DecrementIfPositive(rooms: seq<Room>, roomId: int): (r: seq<Room>)
    ensures |r| == |rooms|
    ensures forall i :: 0 <= i < |r| ==> r[i].(timesBooked := rooms[i].timesBooked) == rooms[i]
    ensures forall i :: 0 <= i < |r| ==>
      r[i].timesBooked == if rooms[i].id == roomId && rooms[i].timesBooked > 0 then rooms[i].timesBooked - 1 else rooms[i].timesBooked
  {
    seq(|rooms|, i requires 0 <= i < |rooms| =>
      if rooms[i].id == roomId && rooms[i].timesBooked > 0 then rooms[i].(timesBooked := rooms[i].timesBooked - 1) else rooms[i])
  }

  /** `releaseRoom`. An unknown request id changes nothing. Otherwise the
      block is deleted and, only when it was CONFIRMED, the counter of the
      block's own room (not of the room named in the call) goes down by one
      unless it is already zero. */
  function ReleaseRoom(inv: Inventory, roomId: int, requestId: string): (r: Inventory)
    requires BlocksKeyed(inv.blocks)
    ensures requestId !in inv.blocks ==> r == inv
    ensures requestId in inv.blocks ==>
      && r.hotels == inv.hotels
      && r.blocks == inv.blocks - {requestId}
      && |r.rooms| == |inv.rooms|
      && forall i :: 0 <= i < |inv.rooms| ==>
           r.rooms[i] == if inv.blocks[requestId].status == Confirmed && inv.rooms[i].id == inv.blocks[requestId].roomId && inv.rooms[i].timesBooked > 0
                         then inv.rooms[i].(timesBooked := inv.rooms[i].timesBooked - 1)
                         else inv.rooms[i]
    ensures Valid(inv) ==> Valid(r)
  {
    match FindByRequestId(inv.blocks, requestId)
    case None => inv
    case Some(block) =>
      var rooms := if block.status == Confirmed then DecrementIfPositive(inv.rooms, block.roomId) else inv.rooms;
      var r := Inventory(inv.hotels, rooms, inv.blocks - {requestId});
      assert Valid(inv) ==> Valid(r) by {
        if Valid(inv) {
          forall i, j | 0 <= i < j < |rooms| ensures rooms[i].id != rooms[j].id {
            assert rooms[i].id == inv.rooms[i].id && rooms[j].id == inv.rooms[j].id;
          }
          forall k | k in r.blocks ensures HasRoom(rooms, r.blocks[k].roomId) {
            var i :| 0 <= i < |inv.rooms| && inv.rooms[i].id == inv.blocks[k].roomId;
            assert rooms[i].id == inv.rooms[i].id;
          }
          forall i | 0 <= i < |rooms| ensures HasHotel(r.hotels, rooms[i].hotelId) {
            assert rooms[i].hotelId == inv.rooms[i].hotelId;
          }
        }
      }
      r
  }

  /** No two CONFIRMED blocks of one room meet: the exclusivity the hold
      protocol is meant to give. */
  predicate ConfirmedDisjoint(blocks: map<string, RoomBlock>) {
    forall k1, k2 :: k1 in blocks && k2 in blocks && k1 != k2
      && blocks[k1].roomId == blocks[k2].roomId
      && blocks[k1].status == Confirmed && blocks[k2].status == Confirmed
      ==> !Overlaps(blocks[k1].startDate, blocks[k1].endDate, blocks[k2].startDate, blocks[k2].endDate)
  }

  /** No room's counter is negative. */
  predicate CountersNonNegative(rooms: seq<Room>) {
    forall i :: 0 <= i < |rooms| ==> rooms[i].timesBooked >= 0
  }

  /** A request retried after its first confirm is CONFIRMED by the second
      call, and from then on every further call is a no-op. */
  lemma ConfirmSettlesOnSecondCall(inv: Inventory, roomId: int, req: ConfirmRequest, blockId: int, now: int,
                                   roomId2: int, req2: ConfirmRequest, blockId2: int, now2: int)
    requires BlocksKeyed(inv.blocks)
    requires ConfirmAvailability(inv, roomId, req, blockId, now).Ok?
    requires req2.requestId == req.requestId
    ensures var first := ConfirmAvailability(inv, roomId, req, blockId, now).value;
      && BlocksKeyed(first.blocks)
      && var second := ConfirmAvailability(first, roomId2, req2, blockId2, now2);
      && second.Ok?
      && second.value.blocks[req.requestId].status == Confirmed
      && second.value.blocks[req.requestId] == first.blocks[req.requestId].(status := Confirmed)
      && ConfirmAvailability(second.value, roomId2, req2, blockId2, now2) == second
  {
    var first := ConfirmAvailability(inv, roomId, req, blockId, now).value;
    var second := ConfirmAvailability(first, roomId2, req2, blockId2, now2).value;
    assert second.blocks == first.blocks[req.requestId := first.blocks[req.requestId].(status := Confirmed)];
    assert second.blocks[req.requestId := second.blocks[req.requestId].(status := Confirmed)] == second.blocks;
  }

  /** Only CONFIRMED holds reject: an available room whose meeting blocks are
      all PENDING accepts a new request for the same dates. */
  lemma PendingOverlapsNeverReject(inv: Inventory, roomId: int, req: ConfirmRequest, blockId: int, now: int)
    requires BlocksKeyed(inv.blocks) && req.requestId !in inv.blocks
    requires HasRoom(inv.rooms, roomId) && FindRoom(inv.rooms, roomId).value.available
    requires forall k :: k in inv.blocks && inv.blocks[k].roomId == roomId ==> inv.blocks[k].status == Pending
    ensures ConfirmAvailability(inv, roomId, req, blockId, now).Ok?
  {
    forall b | b in FindConflictingBlocks(inv.blocks, roomId, req.startDate, req.endDate)
      ensures b.status == Pending
    {
      var k :| k in inv.blocks && inv.blocks[k] == b;
    }
  }

  /** A first confirm that is released again leaves the hotel service as it
      found it: the PENDING hold is dropped and no counter moves. */
  lemma ReleaseUndoesFirstConfirm(inv: Inventory, roomId: int, req: ConfirmRequest, blockId: int, now: int, roomId2: int)
    requires BlocksKeyed(inv.blocks) && req.requestId !in inv.blocks
    requires ConfirmAvailability(inv, roomId, req, blockId, now).Ok?
    ensures ReleaseRoom(ConfirmAvailability(inv, roomId, req, blockId, now).value, roomId2, req.requestId) == inv
  {
    var held := ConfirmAvailability(inv, roomId, req, blockId, now).value;
    var r := ReleaseRoom(held, roomId2, req.requestId);
    assert r.blocks == inv.blocks;
    assert r.rooms == inv.rooms;
  }

  /** Releasing twice is releasing once, whatever room either call names. */
  lemma ReleaseIsIdempotent(inv: Inventory, roomId: int, roomId2: int, requestId: string)
    requires BlocksKeyed(inv.blocks)
    ensures BlocksKeyed(ReleaseRoom(inv, roomId, requestId).blocks)
    ensures ReleaseRoom(ReleaseRoom(inv, roomId, requestId), roomId2, requestId) == ReleaseRoom(inv, roomId, requestId)
  {
  }

  /** Releasing a PENDING hold never touches a counter. */
  lemma ReleasePendingKeepsCounters(inv: Inventory, roomId: int, requestId: string)
    requires BlocksKeyed(inv.blocks) && requestId in inv.blocks && inv.blocks[requestId].status == Pending
    ensures ReleaseRoom(inv, roomId, requestId).rooms == inv.rooms
  {
    var r := ReleaseRoom(inv, roomId, requestId);
    assert forall i :: 0 <= i < |inv.rooms| ==> r.rooms[i] == inv.rooms[i];
  }

  /** Release never drives a counter below zero. */
  lemma ReleaseKeepsCountersNonNegative(inv: Inventory, roomId: int, requestId: string)
    requires BlocksKeyed(inv.blocks) && CountersNonNegative(inv.rooms)
    ensures CountersNonNegative(ReleaseRoom(inv, roomId, requestId).rooms)
  {
    var r := ReleaseRoom(inv, roomId, requestId);
    forall i | 0 <= i < |r.rooms| ensures r.rooms[i].timesBooked >= 0 {
      if requestId in inv.blocks {
        assert r.rooms[i].timesBooked >= inv.rooms[i].timesBooked - 1;
      }
    }
  }

  /** A confirm for a new request id adds only a PENDING block, so it keeps
      confirmed holds exclusive; so does a release. */
  lemma FreshConfirmAndReleaseKeepConfirmedDisjoint(inv: Inventory, roomId: int, req: ConfirmRequest, blockId: int, now: int, requestId: string)
    requires BlocksKeyed(inv.blocks) && ConfirmedDisjoint(inv.blocks)
    ensures req.requestId !in inv.blocks && ConfirmAvailability(inv, roomId, req, blockId, now).Ok? ==>
      ConfirmedDisjoint(ConfirmAvailability(inv, roomId, req, blockId, now).value.blocks)
    ensures ConfirmedDisjoint(ReleaseRoom(inv, roomId, requestId).blocks)
  {
  }

  /** The second call of a request moves its hold to CONFIRMED without
      looking for conflicts. Two requests that each hold the same room for
      the same day, both retried, end as two overlapping CONFIRMED blocks. */
  lemma RetriedHoldsCanOverlap()
    ensures var room := NewRoom(1, 1, "101");
      var inv := Inventory([Hotel(1, "H", "A", None, None)], [room], map[]);
      var a := ConfirmRequest(10, 12, Some(1), "a");
      var b := ConfirmRequest(11, 13, Some(2), "b");
      && Valid(inv)
      && ConfirmAvailability(inv, 1, a, 1, 0).Ok?
      && var s1 := ConfirmAvailability(inv, 1, a, 1, 0).value;
      && ConfirmAvailability(s1, 1, b, 2, 0).Ok?
      && var s2 := ConfirmAvailability(s1, 1, b, 2, 0).value;
      && ConfirmAvailability(s2, 1, a, 3, 0).Ok?
      && var s3 := ConfirmAvailability(s2, 1, a, 3, 0).value;
      && ConfirmAvailability(s3, 1, b, 4, 0).Ok?
      && var s4 := ConfirmAvailability(s3, 1, b, 4, 0).value;
      && Valid(s4)
      && !ConfirmedDisjoint(s4.blocks)
  {
    var room := NewRoom(1, 1, "101");
    var inv := Inventory([Hotel(1, "H", "A", None, None)], [room], map[]);
    var a := ConfirmRequest(10, 12, Some(1), "a");
    var b := ConfirmRequest(11, 13, Some(2), "b");
    assert HasRoom(inv.rooms, 1) by { assert inv.rooms[0].id == 1; }
    assert HasHotel(inv.hotels, 1) by { assert inv.hotels[0].id == 1; }
    var s1 := ConfirmAvailability(inv, 1, a, 1, 0).value;
    assert "b" != "a";
    assert s1.blocks == map["a" := NewHold(1, 1, a, 0)];
    PendingOverlapsNeverReject(s1, 1, b, 2, 0);
    var s2 := ConfirmAvailability(s1, 1, b, 2, 0).value;
    var s3 := ConfirmAvailability(s2, 1, a, 3, 0).value;
    var s4 := ConfirmAvailability(s3, 1, b, 4, 0).value;
    assert s4.blocks["a"].status == Confirmed && s4.blocks["b"].status == Confirmed;
    assert Overlaps(s4.blocks["a"].startDate, s4.blocks["a"].endDate, s4.blocks["b"].startDate, s4.blocks["b"].endDate);
  }
}
