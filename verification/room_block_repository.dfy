/** The queries of the block table. Blocks are keyed by request id, so the
    unique constraint on that column holds by construction. Every block's
    status is PENDING or CONFIRMED, so the `status IN ('PENDING',
    'CONFIRMED')` filter of the conflict query admits every block. */
module RoomBlockRepository {
  import opened Wrappers
  import opened HotelModel

  /** `findByRequestId` */
  function FindByRequestId(blocks: map<string, RoomBlock>, requestId: string): (r: Option<RoomBlock>)
    requires BlocksKeyed(blocks)
    ensures r.Some? <==> exists b :: b in blocks.Values && b.requestId == requestId
    ensures r.Some? ==> r.value in blocks.Values && r.value.requestId == requestId
  {
    if requestId in blocks then Some(blocks[requestId]) else None
  }

  /** No two stored blocks share a request id. */
  lemma AtMostOneBlockPerRequestId(blocks: map<string, RoomBlock>, b1: RoomBlock, b2: RoomBlock)
    requires BlocksKeyed(blocks)
    requires b1 in blocks.Values && b2 in blocks.Values
    requires b1.requestId == b2.requestId
    ensures b1 == b2
  {
    var k1 :| k1 in blocks && blocks[k1] == b1;
    var k2 :| k2 in blocks && blocks[k2] == b2;
  }

  /** `findConflictingBlocks`: the blocks of the room whose range meets the
      requested one. */
  function FindConflictingBlocks(blocks: map<string, RoomBlock>, roomId: int, startDate: int, endDate: int): (r: set<RoomBlock>)
    ensures forall k :: k in blocks ==>
      (blocks[k] in r <==> blocks[k].roomId == roomId && blocks[k].startDate <= endDate && blocks[k].endDate >= startDate)
    ensures forall b :: b in r ==> b in blocks.Values
  {
    set b | b in blocks.Values && b.roomId == roomId && Overlaps(b.startDate, b.endDate, startDate, endDate)
  }

  /** `findPendingBlocksForDates`: the same range test, PENDING blocks only. */
  function FindPendingBlocksForDates(blocks: map<string, RoomBlock>, roomId: int, startDate: int, endDate: int): (r: set<RoomBlock>)
    ensures r == set b | b in FindConflictingBlocks(blocks, roomId, startDate, endDate) && b.status == Pending
  {
    set b | b in blocks.Values && b.roomId == roomId && b.status == Pending
              && Overlaps(b.startDate, b.endDate, startDate, endDate)
  }

  /** `findExpiredPendingBlocks`: PENDING blocks whose expiry is set and
      earlier than `now` (a NULL expiry never compares as earlier). */
  function FindExpiredPendingBlocks(blocks: map<string, RoomBlock>, now: int): (r: set<RoomBlock>)
    ensures forall k :: k in blocks ==>
      (blocks[k] in r <==> blocks[k].status == Pending && blocks[k].expiresAt.Some? && blocks[k].expiresAt.value < now)
    ensures forall b :: b in r ==> b in blocks.Values
  {
    set b | b in blocks.Values && b.status == Pending && b.expiresAt.Some? && b.expiresAt.value < now
  }

  /** `findByBookingId`: the blocks carrying the booking's id; a block with
      a null booking id matches no booking. */
  function FindByBookingId(blocks: map<string, RoomBlock>, bookingId: int): (r: set<RoomBlock>)
    ensures forall k :: k in blocks ==> (blocks[k] in r <==> blocks[k].bookingId == Some(bookingId))
    ensures forall b :: b in r ==> b in blocks.Values
  {
    set b | b in blocks.Values && b.bookingId == Some(bookingId)
  }

  /** Storing a block under a new request id adds it to what its booking id
      finds, and changes nothing another booking id finds. */
  lemma FindByBookingIdAfterInsert(blocks: map<string, RoomBlock>, k: string, b: RoomBlock, bookingId: int)
    requires k !in blocks
    ensures FindByBookingId(blocks[k := b], bookingId) ==
      FindByBookingId(blocks, bookingId) + (if b.bookingId == Some(bookingId) then {b} else {})
  {
    var before := FindByBookingId(blocks, bookingId);
    var after := FindByBookingId(blocks[k := b], bookingId);
    forall x | x in after ensures x in before || (x == b && b.bookingId == Some(bookingId)) {
      var j :| j in blocks[k := b] && blocks[k := b][j] == x;
      if j != k {
        assert blocks[j] == x;
      }
    }
    forall x | x in before ensures x in after {
      var j :| j in blocks && blocks[j] == x;
      assert blocks[k := b][j] == x;
    }
    if b.bookingId == Some(bookingId) {
      assert blocks[k := b][k] == b;
    }
  }

  /** `deleteAllPendingBlocks` */
  function DeleteAllPendingBlocks(blocks: map<string, RoomBlock>): (r: map<string, RoomBlock>)
    ensures forall k :: k in r <==> k in blocks && blocks[k].status == Confirmed
    ensures forall k :: k in r ==> r[k] == blocks[k]
  {
    map k | k in blocks && blocks[k].status != Pending :: blocks[k]
  }

  /** `deleteAllByRoomId` */
  function DeleteAllByRoomId(blocks: map<string, RoomBlock>, roomId: int): (r: map<string, RoomBlock>)
    ensures forall k :: k in r <==> k in blocks && blocks[k].roomId != roomId
    ensures forall k :: k in r ==> r[k] == blocks[k]
  {
    map k | k in blocks && blocks[k].roomId != roomId :: blocks[k]
  }

  /** The range test does not depend on which range is the stored one. */
  lemma OverlapIsSymmetric(s1: int, e1: int, s2: int, e2: int)
    ensures Overlaps(s1, e1, s2, e2) <==> Overlaps(s2, e2, s1, e1)
  {
  }

  /** Both ends are inclusive: ranges sharing only their boundary day meet,
      and a range ending the day before another begins does not. */
  lemma OverlapIsInclusive(s1: int, e1: int, s2: int, e2: int)
    requires s1 <= e1 && s2 <= e2
    ensures e1 == s2 ==> Overlaps(s1, e1, s2, e2)
    ensures e1 + 1 == s2 ==> !Overlaps(s1, e1, s2, e2)
  {
  }

  /** A block conflicts with a request exactly when some day lies in both
      ranges: the range test is interval intersection. */
  lemma OverlapMeansSharedDay(s1: int, e1: int, s2: int, e2: int)
    requires s1 <= e1 && s2 <= e2
    ensures Overlaps(s1, e1, s2, e2) <==> exists d :: InRange(d, s1, e1) && InRange(d, s2, e2)
  {
    if Overlaps(s1, e1, s2, e2) {
      var d := if s1 < s2 then s2 else s1;
      assert InRange(d, s1, e1) && InRange(d, s2, e2);
    }
  }

  /** When every block carries no expiry, as the hold service writes them,
      nothing ever counts as expired. */
  lemma NoExpiryMeansNothingExpires(blocks: map<string, RoomBlock>, now: int)
    requires forall k :: k in blocks ==> blocks[k].expiresAt == None
    ensures FindExpiredPendingBlocks(blocks, now) == {}
  {
  }

  /** Deleting the pending blocks keeps every confirmed conflict and leaves
      no pending one. */
  lemma DeletePendingKeepsConfirmedConflicts(blocks: map<string, RoomBlock>, roomId: int, startDate: int, endDate: int)
    ensures FindPendingBlocksForDates(DeleteAllPendingBlocks(blocks), roomId, startDate, endDate) == {}
    ensures FindConflictingBlocks(DeleteAllPendingBlocks(blocks), roomId, startDate, endDate)
         == set b | b in FindConflictingBlocks(blocks, roomId, startDate, endDate) && b.status == Confirmed
  {
    var kept := DeleteAllPendingBlocks(blocks);
    forall b | b in FindConflictingBlocks(blocks, roomId, startDate, endDate) && b.status == Confirmed
      ensures b in FindConflictingBlocks(kept, roomId, startDate, endDate)
    {
      var k :| k in blocks && blocks[k] == b;
      assert k in kept;
    }
  }
}
