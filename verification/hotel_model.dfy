/** The hotel service's persistent state: hotels, their rooms, and the holds
    (room blocks) placed on rooms for date ranges. Dates are day numbers and
    timestamps are plain integers. */
module HotelModel {
  import opened Wrappers
  import opened Lang
  import Seqs

  datatype Hotel = Hotel(
    id: int,
    name: string,
    address: string,
    description: Option<string>,
    starRating: Option<int>)

  /** A room row. `available` and `timesBooked` are NOT NULL columns, so
      they are plain values; the nullable columns are options. The price is
      in integer cents. */
  datatype Room = Room(
    id: int,
    hotelId: int,
    number: string,
    available: bool,
    timesBooked: Int32,
    roomType: Option<string>,
    pricePerNight: Option<int>,
    capacity: Option<int>)

  /** The only two values the service ever writes to a block's status. */
  datatype BlockStatus = Pending | Confirmed

  /** A hold on a room for the inclusive day range [startDate, endDate].
      The booking id and the expiry are nullable columns. */
  datatype RoomBlock = RoomBlock(
    id: int,
    roomId: int,
    startDate: int,
    endDate: int,
    bookingId: Option<int>,
    requestId: string,
    status: BlockStatus,
    createdAt: int,
    expiresAt: Option<int>)

  /** A room as the entity's field initialisers leave it: available, never
      booked. */
  function NewRoom(id: int, hotelId: int, number: string): (r: Room)
    ensures r.available && r.timesBooked == 0
    ensures r.id == id && r.hotelId == hotelId && r.number == number
  {
    Room(id, hotelId, number, true, 0, None, None, None)
  }

  /** The range test of the block queries: a block from `start` to `end`
      meets the requested range when it starts no later than the request
      ends and ends no earlier than the request starts. */
  predicate Overlaps(start: int, end: int, reqStart: int, reqEnd: int) {
    start <= reqEnd && end >= reqStart
  }

  /** Day `d` lies in the inclusive range [start, end]. */
  predicate InRange(d: int, start: int, end: int) {
    start <= d <= end
  }

  /** The tables of the hotel service. Rooms and hotels are kept in the order
      the database returns them; blocks are keyed by their request id, which
      is a unique column. */
  datatype Inventory = Inventory(
    hotels: seq<Hotel>,
    rooms: seq<Room>,
    blocks: map<string, RoomBlock>)

  predicate HotelIdsDistinct(hotels: seq<Hotel>) {
    forall i, j :: 0 <= i < j < |hotels| ==> hotels[i].id != hotels[j].id
  }

  predicate RoomIdsDistinct(rooms: seq<Room>) {
    forall i, j :: 0 <= i < j < |rooms| ==> rooms[i].id != rooms[j].id
  }

  predicate HasHotel(hotels: seq<Hotel>, id: int) {
    exists i :: 0 <= i < |hotels| && hotels[i].id == id
  }

  predicate HasRoom(rooms: seq<Room>, id: int) {
    exists i :: 0 <= i < |rooms| && rooms[i].id == id
  }

  /** Every block is stored under its own request id. */
  predicate BlocksKeyed(blocks: map<string, RoomBlock>) {
    forall k :: k in blocks ==> blocks[k].requestId == k
  }

  /** The database constraints: primary keys, the NOT NULL foreign keys from
      room to hotel and from block to room, and the unique request id. */
  predicate Valid(inv: Inventory) {
    && HotelIdsDistinct(inv.hotels)
    && RoomIdsDistinct(inv.rooms)
    && (forall i :: 0 <= i < |inv.rooms| ==> HasHotel(inv.hotels, inv.rooms[i].hotelId))
    && BlocksKeyed(inv.blocks)
    && (forall k :: k in inv.blocks ==> HasRoom(inv.rooms, inv.blocks[k].roomId))
  }

  /** `findById` on the rooms table. */
  function FindRoom(rooms: seq<Room>, id: int): (r: Option<Room>)
    ensures r.Some? <==> HasRoom(rooms, id)
    ensures r.Some? ==> r.value in rooms && r.value.id == id
    decreases |rooms|
  {
    if |rooms| == 0 then None
    else if rooms[0].id == id then Some(rooms[0])
    else
      var r := FindRoom(rooms[1..], id);
      assert HasRoom(rooms, id) ==> HasRoom(rooms[1..], id) by {
        if HasRoom(rooms, id) {
          var i :| 0 <= i < |rooms| && rooms[i].id == id;
          assert rooms[1..][i - 1].id == id;
        }
      }
      assert HasRoom(rooms[1..], id) ==> HasRoom(rooms, id) by {
        if HasRoom(rooms[1..], id) {
          var i :| 0 <= i < |rooms[1..]| && rooms[1..][i].id == id;
          assert rooms[i + 1].id == id;
        }
      }
      r
  }

  /** With distinct ids, the room found is the one at the id's position. */
  lemma FindRoomAt(rooms: seq<Room>, i: int)
    requires RoomIdsDistinct(rooms) && 0 <= i < |rooms|
    ensures FindRoom(rooms, rooms[i].id) == Some(rooms[i])
  {
    var r := FindRoom(rooms, rooms[i].id);
    var j :| 0 <= j < |rooms| && rooms[j] == r.value;
    assert j == i;
  }

  /** `findById` on the hotels table. */
  function FindHotel(hotels: seq<Hotel>, id: int): (r: Option<Hotel>)
    ensures r.Some? <==> HasHotel(hotels, id)
    ensures r.Some? ==> r.value in hotels && r.value.id == id
    decreases |hotels|
  {
    if |hotels| == 0 then None
    else if hotels[0].id == id then Some(hotels[0])
    else
      var r := FindHotel(hotels[1..], id);
      assert HasHotel(hotels, id) ==> HasHotel(hotels[1..], id) by {
        if HasHotel(hotels, id) {
          var i :| 0 <= i < |hotels| && hotels[i].id == id;
          assert hotels[1..][i - 1].id == id;
        }
      }
      assert HasHotel(hotels[1..], id) ==> HasHotel(hotels, id) by {
        if HasHotel(hotels[1..], id) {
          var i :| 0 <= i < |hotels[1..]| && hotels[1..][i].id == id;
          assert hotels[i + 1].id == id;
        }
      }
      r
  }

  /** Saving a changed room: the row with the room's id is replaced. */
  function ReplaceRoom(rooms: seq<Room>, room: Room): seq<Room> {
    Seqs.ReplaceBy(rooms, (x: Room) => x.id, room)
  }

  /** Saving a changed hotel: the row with the hotel's id is replaced. */
  function ReplaceHotel(hotels: seq<Hotel>, hotel: Hotel): seq<Hotel> {
    Seqs.ReplaceBy(hotels, (x: Hotel) => x.id, hotel)
  }

  /** Replacing a room by one with the same id keeps the set of ids. */
  lemma ReplaceRoomKeepsIds(rooms: seq<Room>, room: Room, id: int)
    ensures HasRoom(ReplaceRoom(rooms, room), id) <==> HasRoom(rooms, id)
  {
    var r := ReplaceRoom(rooms, room);
    if HasRoom(rooms, id) {
      var i :| 0 <= i < |rooms| && rooms[i].id == id;
      assert r[i].id == id;
    }
    if HasRoom(r, id) {
      var i :| 0 <= i < |r| && r[i].id == id;
      assert rooms[i].id == id;
    }
  }
}
