/** The room operations of the hotel service: listings, the booking counter,
    partial update and deletion. */
module RoomService {
  import opened Wrappers
  import opened Lang
  import opened HotelModel
  import Seqs
  import opened RoomOrder
  import opened RoomRepository
  import opened RoomBlockRepository

  /** The entity-not-found failure, naming the kind of entity and its id. */
  datatype NotFound = NotFound(entity: string, id: int)

  /** `getRoomEntityById` / `getRoomById` */
  function GetRoomEntityById(inv: Inventory, id: int): (r: Result<Room, NotFound>)
    ensures r.Ok? <==> HasRoom(inv.rooms, id)
    ensures r.Ok? ==> r.value in inv.rooms && r.value.id == id
    ensures r.Err? ==> r.error == NotFound("Room", id)
  {
    match FindRoom(inv.rooms, id)
    case Some(room) => Ok(room)
    case None => Err(NotFound("Room", id))
  }

  /** `isRoomAvailableNow`: the room is flagged available and none of its
      blocks covers `today`. */
  function IsRoomAvailableNow(blocks: map<string, RoomBlock>, room: Room, today: int): (r: bool)
    ensures r <==> (room.available &&
      forall k :: k in blocks && blocks[k].roomId == room.id ==> !InRange(today, blocks[k].startDate, blocks[k].endDate))
  {
    if !room.available then false
    else |FindConflictingBlocks(blocks, room.id, today, today)| == 0
  }

  /** `getAllAvailableRooms`: the table's rows that are available now, in
      table order. */
  function GetAllAvailableRooms(inv: Inventory, today: int): (r: seq<Room>)
    ensures r == Seqs.Filter(inv.rooms, (x: Room) => IsRoomAvailableNow(inv.blocks, x, today))
  {
    var now := (x: Room) => IsRoomAvailableNow(inv.blocks, x, today);
    Seqs.FilterFilter(inv.rooms, (x: Room) => x.available, now, now);
    Seqs.Filter(FindAllAvailable(inv.rooms), now)
  }

  /** `getRecommendedRooms`: the ordered query result, sorted once more in
      memory, then narrowed to the rooms available now. */
  function GetRecommendedRooms(inv: Inventory, today: int): (r: seq<Room>)
    ensures SortedBy(ByLeastBooked, r)
    ensures forall x :: multiset(r)[x] == (if IsRoomAvailableNow(inv.blocks, x, today) then multiset(inv.rooms)[x] else 0)
    ensures forall x :: x in r <==> x in inv.rooms && IsRoomAvailableNow(inv.blocks, x, today)
  {
    var sorted := Sort(ByLeastBooked, FindAllAvailableOrderByTimesBooked(inv.rooms));
    var now := (x: Room) => IsRoomAvailableNow(inv.blocks, x, today);
    FilterKeepsSorted(ByLeastBooked, sorted, now);
    var r := Seqs.Filter(sorted, now);
    assert forall x :: x in r <==> x in multiset(r);
    r
  }

  /** With distinct room ids the recommendation is exactly the current
      availability listing put in recommendation order. */
  lemma RecommendedIsSortedAvailability(inv: Inventory, today: int)
    requires RoomIdsDistinct(inv.rooms)
    ensures GetRecommendedRooms(inv, today) == Sort(ByLeastBooked, GetAllAvailableRooms(inv, today))
  {
    var all := GetAllAvailableRooms(inv, today);
    var rec := GetRecommendedRooms(inv, today);
    FilterKeepsIdsDistinct(inv.rooms, (x: Room) => IsRoomAvailableNow(inv.blocks, x, today));
    assert multiset(rec) == multiset(all);
    PermutationKeepsIdsDistinct(all, rec);
    SortedPermutationsEqual(ByLeastBooked, rec, Sort(ByLeastBooked, all));
  }

  /** `incrementTimesBooked`: the room's counter goes up by one (Java `int`
      arithmetic) and nothing else changes. */
  function IncrementTimesBooked(inv: Inventory, roomId: int): (r: Result<Inventory, NotFound>)
    ensures r.Ok? <==> HasRoom(inv.rooms, roomId)
    ensures r.Err? ==> r.error == NotFound("Room", roomId)
    ensures r.Ok? ==> r.value.hotels == inv.hotels && r.value.blocks == inv.blocks
    ensures r.Ok? ==> |r.value.rooms| == |inv.rooms|
    ensures r.Ok? && RoomIdsDistinct(inv.rooms) ==> forall i :: 0 <= i < |inv.rooms| ==>
      r.value.rooms[i] == if inv.rooms[i].id == roomId
        then inv.rooms[i].(timesBooked := AddInt32(inv.rooms[i].timesBooked, 1))
        else inv.rooms[i]
    ensures r.Ok? && Valid(inv) ==> Valid(r.value)
  {
    match GetRoomEntityById(inv, roomId)
    case Err(e) => Err(e)
    case Ok(room) =>
      var rooms := ReplaceRoom(inv.rooms, room.(timesBooked := AddInt32(room.timesBooked, 1)));
      var r := inv.(rooms := rooms);
      assert RoomIdsDistinct(inv.rooms) ==> forall i :: 0 <= i < |inv.rooms| && inv.rooms[i].id == roomId ==> inv.rooms[i] == room by {
        if RoomIdsDistinct(inv.rooms) {
          forall i | 0 <= i < |inv.rooms| && inv.rooms[i].id == roomId
            ensures inv.rooms[i] == room
          {
            FindRoomAt(inv.rooms, i);
          }
        }
      }
      assert Valid(inv) ==> Valid(r) by {
        if Valid(inv) {
          forall i | 0 <= i < |inv.rooms| && inv.rooms[i].id == roomId
            ensures inv.rooms[i] == room
          {
            FindRoomAt(inv.rooms, i);
          }
          forall k | k in r.blocks
            ensures HasRoom(r.rooms, r.blocks[k].roomId)
          {
            ReplaceRoomKeepsIds(inv.rooms, room.(timesBooked := AddInt32(room.timesBooked, 1)), r.blocks[k].roomId);
          }
        }
      }
      Ok(r)
  }

  /** The optional fields of a room update request; `None` is a field the
      request leaves null. */
  datatype RoomPatch = RoomPatch(
    hotelId: Option<int>,
    number: Option<string>,
    available: Option<bool>,
    roomType: Option<string>,
    pricePerNight: Option<int>,
    capacity: Option<int>)

  /** The room with every non-null field of the patch written over it. */
  function Patched(room: Room, patch: RoomPatch): Room {
    room.(
      hotelId := patch.hotelId.GetOr(room.hotelId),
      number := patch.number.GetOr(room.number),
      available := patch.available.GetOr(room.available),
      roomType := if patch.roomType.Some? then patch.roomType else room.roomType,
      pricePerNight := if patch.pricePerNight.Some? then patch.pricePerNight else room.pricePerNight,
      capacity := if patch.capacity.Some? then patch.capacity else room.capacity)
  }

  /** `updateRoom`: an unknown room, or a move to an unknown hotel, is not
      found; otherwise the non-null fields are overwritten and the counter
      and id are left alone. */
  function UpdateRoom(inv: Inventory, id: int, patch: RoomPatch): (r: Result<(Inventory, Room), NotFound>)
    ensures !HasRoom(inv.rooms, id) ==> r == Err(NotFound("Room", id))
    ensures HasRoom(inv.rooms, id) ==>
      var was := FindRoom(inv.rooms, id).value;
      && (r.Err? <==> patch.hotelId.Some? && patch.hotelId.value != was.hotelId && !HasHotel(inv.hotels, patch.hotelId.value))
      && (r.Err? ==> r.error == NotFound("Hotel", patch.hotelId.value))
      && (r.Ok? ==>
        var room := r.value.1;
        && room.id == id && room.timesBooked == was.timesBooked
        && room.hotelId == (if patch.hotelId.Some? then patch.hotelId.value else was.hotelId)
        && room.number == (if patch.number.Some? then patch.number.value else was.number)
        && room.available == (if patch.available.Some? then patch.available.value else was.available)
        && room.roomType == (if patch.roomType.Some? then patch.roomType else was.roomType)
        && room.pricePerNight == (if patch.pricePerNight.Some? then patch.pricePerNight else was.pricePerNight)
        && room.capacity == (if patch.capacity.Some? then patch.capacity else was.capacity)
        && r.value.0 == inv.(rooms := ReplaceRoom(inv.rooms, room)))
    ensures r.Ok? && Valid(inv) ==> Valid(r.value.0)
  {
    match GetRoomEntityById(inv, id)
    case Err(e) => Err(e)
    case Ok(room) =>
      if patch.hotelId.Some? && patch.hotelId.value != room.hotelId && FindHotel(inv.hotels, patch.hotelId.value).None? then
        Err(NotFound("Hotel", patch.hotelId.value))
      else
        var updated := Patched(room, patch);
        var r := inv.(rooms := ReplaceRoom(inv.rooms, updated));
        assert Valid(inv) ==> Valid(r) by {
          if Valid(inv) {
            forall i | 0 <= i < |inv.rooms| && inv.rooms[i].id == id
              ensures inv.rooms[i] == room
            {
              FindRoomAt(inv.rooms, i);
            }
            forall k | k in r.blocks
              ensures HasRoom(r.rooms, r.blocks[k].roomId)
            {
              ReplaceRoomKeepsIds(inv.rooms, updated, r.blocks[k].roomId);
            }
          }
        }
        Ok((r, updated))
  }

  /** `deleteRoom`: an unknown room is not found; otherwise the room's blocks
      go first and then the room itself, every other row staying. */
  function DeleteRoom(inv: Inventory, id: int): (r: Result<Inventory, NotFound>)
    ensures r.Ok? <==> HasRoom(inv.rooms, id)
    ensures r.Err? ==> r.error == NotFound("Room", id)
    ensures r.Ok? ==> r.value.hotels == inv.hotels
    ensures r.Ok? ==> forall x :: multiset(r.value.rooms)[x] == if x.id == id then 0 else multiset(inv.rooms)[x]
    ensures r.Ok? ==> forall k :: k in r.value.blocks <==> k in inv.blocks && inv.blocks[k].roomId != id
    ensures r.Ok? ==> forall k :: k in r.value.blocks ==> r.value.blocks[k] == inv.blocks[k]
    ensures r.Ok? && Valid(inv) ==> Valid(r.value)
  {
    match GetRoomEntityById(inv, id)
    case Err(e) => Err(e)
    case Ok(_) =>
      var keep := (x: Room) => x.id != id;
      var rooms := Seqs.Filter(inv.rooms, keep);
      var r := Inventory(inv.hotels, rooms, DeleteAllByRoomId(inv.blocks, id));
      assert Valid(inv) ==> Valid(r) by {
        if Valid(inv) {
          FilterKeepsIdsDistinct(inv.rooms, keep);
          forall k | k in r.blocks
            ensures HasRoom(r.rooms, r.blocks[k].roomId)
          {
            var i :| 0 <= i < |inv.rooms| && inv.rooms[i].id == r.blocks[k].roomId;
            assert inv.rooms[i] in rooms;
          }
          forall i | 0 <= i < |rooms|
            ensures HasHotel(r.hotels, rooms[i].hotelId)
          {
            assert rooms[i] in inv.rooms;
          }
        }
      }
      Ok(r)
  }

  /** `getPopularRooms`: every room, available or not, most booked first and
      ties by id. */
  function GetPopularRooms(inv: Inventory): (r: seq<Room>)
    ensures SortedBy(ByMostBooked, r)
    ensures multiset(r) == multiset(inv.rooms)
  {
    Sort(ByMostBooked, inv.rooms)
  }

  /** A room as its entity initialisers leave it, with no blocks against it,
      is on the recommendation list. */
  lemma NewRoomIsRecommended(inv: Inventory, id: int, hotelId: int, number: string, today: int)
    requires NewRoom(id, hotelId, number) in inv.rooms
    requires forall k :: k in inv.blocks ==> inv.blocks[k].roomId != id
    ensures NewRoom(id, hotelId, number) in GetRecommendedRooms(inv, today)
  {
  }
}
