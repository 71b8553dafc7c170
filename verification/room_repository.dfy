/** The queries of the rooms table, over the rows in database order. */
module RoomRepository {
  import opened HotelModel
  import Seqs
  import opened RoomOrder

  /** `findAllAvailable`: the rows whose `available` flag is set, in table
      order. */
  function FindAllAvailable(rooms: seq<Room>): (r: seq<Room>)
    ensures forall x :: x in r <==> x in rooms && x.available
    ensures forall x :: multiset(r)[x] == if x.available then multiset(rooms)[x] else 0
  {
    Seqs.Filter(rooms, (x: Room) => x.available)
  }

  /** `findAllAvailableOrderByTimesBooked`: the same rows, ordered by
      `timesBooked` and then by id. */
  function FindAllAvailableOrderByTimesBooked(rooms: seq<Room>): (r: seq<Room>)
    ensures SortedBy(ByLeastBooked, r)
    ensures multiset(r) == multiset(FindAllAvailable(rooms))
    ensures forall x :: x in r <==> x in rooms && x.available
  {
    var r := Sort(ByLeastBooked, FindAllAvailable(rooms));
    assert forall x :: x in r <==> x in multiset(FindAllAvailable(rooms));
    r
  }

  /** `findAvailableByHotelId`: the available rows of one hotel. */
  function FindAvailableByHotelId(rooms: seq<Room>, hotelId: int): (r: seq<Room>)
    ensures forall x :: x in r <==> x in rooms && x.hotelId == hotelId && x.available
    ensures forall x :: multiset(r)[x] == if x.hotelId == hotelId && x.available then multiset(rooms)[x] else 0
  {
    Seqs.Filter(rooms, (x: Room) => x.hotelId == hotelId && x.available)
  }

  /** `resetAllBookingCounters`: every counter becomes 0, nothing else moves. */
  function ResetAllBookingCounters(rooms: seq<Room>): (r: seq<Room>)
    ensures |r| == |rooms|
    ensures forall i :: 0 <= i < |r| ==> r[i].timesBooked == 0 && r[i].(timesBooked := rooms[i].timesBooked) == rooms[i]
  {
    seq(|rooms|, i requires 0 <= i < |rooms| => rooms[i].(timesBooked := 0))
  }

  /** After a reset every available room ties on the counter, so the
      recommendation order is by id alone. */
  lemma ResetOrdersByIdAlone(rooms: seq<Room>)
    ensures forall i, j :: 0 <= i < j < |FindAllAvailableOrderByTimesBooked(ResetAllBookingCounters(rooms))| ==>
      FindAllAvailableOrderByTimesBooked(ResetAllBookingCounters(rooms))[i].id
        <= FindAllAvailableOrderByTimesBooked(ResetAllBookingCounters(rooms))[j].id
  {
    var reset := ResetAllBookingCounters(rooms);
    var r := FindAllAvailableOrderByTimesBooked(reset);
    forall i, j | 0 <= i < j < |r|
      ensures r[i].id <= r[j].id
    {
      assert r[i] in reset && r[j] in reset;
      assert Precedes(ByLeastBooked, r[i], r[j]);
    }
  }
}
