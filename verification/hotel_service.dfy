/** The hotel operations of the hotel service. */
module HotelService {
  import opened Wrappers
  import opened HotelModel
  import Seqs
  import RoomService
  import RoomOrder

  /** `getAllHotels`: the table as stored. */
  function GetAllHotels(inv: Inventory): (r: seq<Hotel>)
    ensures forall h :: h in r <==> h in inv.hotels
    ensures |r| == |inv.hotels|
  {
    inv.hotels
  }

  /** `getHotelById` / `getHotelEntityById` */
  function GetHotelById(inv: Inventory, id: int): (r: Result<Hotel, RoomService.NotFound>)
    ensures r.Ok? <==> HasHotel(inv.hotels, id)
    ensures r.Ok? ==> r.value in inv.hotels && r.value.id == id
    ensures r.Err? ==> r.error == RoomService.NotFound("Hotel", id)
  {
    match FindHotel(inv.hotels, id)
    case Some(h) => Ok(h)
    case None => Err(RoomService.NotFound("Hotel", id))
  }

  /** The optional fields of a hotel update request. */
  datatype HotelPatch = HotelPatch(
    name: Option<string>,
    address: Option<string>,
    description: Option<string>,
    starRating: Option<int>)

  /** `updateHotel`: the non-null fields of the request overwrite the stored
      ones; the id and the rooms stay. */
  function UpdateHotel(inv: Inventory, id: int, patch: HotelPatch): (r: Result<(Inventory, Hotel), RoomService.NotFound>)
    ensures r.Ok? <==> HasHotel(inv.hotels, id)
    ensures r.Err? ==> r.error == RoomService.NotFound("Hotel", id)
    ensures r.Ok? ==>
      var was := FindHotel(inv.hotels, id).value;
      var h := r.value.1;
      && h.id == id
      && h.name == (if patch.name.Some? then patch.name.value else was.name)
      && h.address == (if patch.address.Some? then patch.address.value else was.address)
      && h.description == (if patch.description.Some? then patch.description else was.description)
      && h.starRating == (if patch.starRating.Some? then patch.starRating else was.starRating)
      && r.value.0 == inv.(hotels := ReplaceHotel(inv.hotels, h))
    ensures r.Ok? && Valid(inv) ==> Valid(r.value.0)
  {
    match GetHotelById(inv, id)
    case Err(e) => Err(e)
    case Ok(hotel) =>
      var h := hotel.(
        name := patch.name.GetOr(hotel.name),
        address := patch.address.GetOr(hotel.address),
        description := if patch.description.Some? then patch.description else hotel.description,
        starRating := if patch.starRating.Some? then patch.starRating else hotel.starRating);
      var r := inv.(hotels := ReplaceHotel(inv.hotels, h));
      assert Valid(inv) ==> Valid(r) by {
        if Valid(inv) {
          forall i, j | 0 <= i < j < |r.hotels| ensures r.hotels[i].id != r.hotels[j].id {
            assert r.hotels[i].id == inv.hotels[i].id && r.hotels[j].id == inv.hotels[j].id;
          }
          forall i | 0 <= i < |r.rooms| ensures HasHotel(r.hotels, r.rooms[i].hotelId) {
            var j :| 0 <= j < |inv.hotels| && inv.hotels[j].id == inv.rooms[i].hotelId;
            assert r.hotels[j].id == inv.hotels[j].id;
          }
        }
      }
      Ok((r, h))
  }

  /** The block's room, if stored, does not belong to hotel `id`. */
  predicate OutsideHotel(inv: Inventory, b: RoomBlock, id: int) {
    forall x :: x in inv.rooms && x.id == b.roomId ==> x.hotelId != id
  }

  /** The tables once hotel `id`, its rooms and their blocks are gone. */
  function WithoutHotel(inv: Inventory, id: int): Inventory {
    Inventory(
      Seqs.Filter(inv.hotels, (h: Hotel) => h.id != id),
      Seqs.Filter(inv.rooms, (x: Room) => x.hotelId != id),
      map k | k in inv.blocks && OutsideHotel(inv, inv.blocks[k], id) :: inv.blocks[k])
  }

  /** `deleteHotel`: an unknown id is not found; otherwise the hotel goes and,
      through the entity cascades, so do its rooms and their blocks. */
  function DeleteHotel(inv: Inventory, id: int): (r: Result<Inventory, RoomService.NotFound>)
    ensures r.Ok? <==> HasHotel(inv.hotels, id)
    ensures r.Err? ==> r.error == RoomService.NotFound("Hotel", id)
    ensures r.Ok? ==> forall h :: h in r.value.hotels <==> h in inv.hotels && h.id != id
    ensures r.Ok? ==> forall x :: x in r.value.rooms <==> x in inv.rooms && x.hotelId != id
    ensures r.Ok? ==> forall k :: k in r.value.blocks <==> k in inv.blocks && OutsideHotel(inv, inv.blocks[k], id)
    ensures r.Ok? ==> forall k :: k in r.value.blocks ==> r.value.blocks[k] == inv.blocks[k]
    ensures r.Ok? && Valid(inv) ==> Valid(r.value)
  {
    if FindHotel(inv.hotels, id).None? then Err(RoomService.NotFound("Hotel", id))
    else
      if Valid(inv) then WithoutHotelKeepsValid(inv, id); Ok(WithoutHotel(inv, id))
      else Ok(WithoutHotel(inv, id))
  }

  lemma WithoutHotelKeepsValid(inv: Inventory, id: int)
    requires Valid(inv)
    ensures Valid(WithoutHotel(inv, id))
  {
    DistinctHotelFilter(inv.hotels, id);
    RoomOrder.FilterKeepsIdsDistinct(inv.rooms, (x: Room) => x.hotelId != id);
    RemainingRoomsKeepHotels(inv, id);
    RemainingBlocksKeepRooms(inv, id);
  }

  lemma RemainingRoomsKeepHotels(inv: Inventory, id: int)
    requires Valid(inv)
    ensures var r := WithoutHotel(inv, id);
      forall i :: 0 <= i < |r.rooms| ==> HasHotel(r.hotels, r.rooms[i].hotelId)
  {
    var hotels := Seqs.Filter(inv.hotels, (h: Hotel) => h.id != id);
    var rooms := Seqs.Filter(inv.rooms, (x: Room) => x.hotelId != id);
    forall i | 0 <= i < |rooms| ensures HasHotel(hotels, rooms[i].hotelId) {
      var x := rooms[i];
      assert x in inv.rooms && x.hotelId != id;
      var j :| 0 <= j < |inv.rooms| && inv.rooms[j] == x;
      var h :| 0 <= h < |inv.hotels| && inv.hotels[h].id == x.hotelId;
      assert inv.hotels[h] in hotels;
      var t :| 0 <= t < |hotels| && hotels[t] == inv.hotels[h];
    }
  }

  lemma RemainingBlocksKeepRooms(inv: Inventory, id: int)
    requires Valid(inv)
    ensures var r := WithoutHotel(inv, id);
      forall k :: k in r.blocks ==> HasRoom(r.rooms, r.blocks[k].roomId)
  {
    var r := WithoutHotel(inv, id);
    var rooms := Seqs.Filter(inv.rooms, (x: Room) => x.hotelId != id);
    forall k | k in r.blocks ensures HasRoom(rooms, r.blocks[k].roomId) {
      var j :| 0 <= j < |inv.rooms| && inv.rooms[j].id == inv.blocks[k].roomId;
      assert inv.rooms[j] in inv.rooms;
      assert inv.rooms[j] in rooms;
      var t :| 0 <= t < |rooms| && rooms[t] == inv.rooms[j];
    }
  }

  lemma DistinctHotelFilter(hotels: seq<Hotel>, id: int)
    requires HotelIdsDistinct(hotels)
    ensures HotelIdsDistinct(Seqs.Filter(hotels, (h: Hotel) => h.id != id))
  {
    Seqs.FilterKeepsDistinct(hotels, (h: Hotel) => h.id != id, (h: Hotel) => h.id);
  }
}
