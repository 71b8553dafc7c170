/** The two orders the room listings use and a sort that produces them.
    Java's `sorted` is stable; with distinct room ids both orders are strict
    total orders, so every sort that yields a sorted permutation yields the
    same sequence (`SortedPermutationsEqual`). */
module RoomOrder {
  import opened HotelModel
  import Seqs

  /** `ByLeastBooked`: `timesBooked` ascending, then id ascending (the
      recommendation order). `ByMostBooked`: `timesBooked` descending, then
      id ascending (the popularity order). */
  datatype Ordering = ByLeastBooked | ByMostBooked

  /** `a` may come before `b`. */
  predicate Precedes(o: Ordering, a: Room, b: Room) {
    match o
    case ByLeastBooked =>
      a.timesBooked < b.timesBooked || (a.timesBooked == b.timesBooked && a.id <= b.id)
    case ByMostBooked =>
      a.timesBooked > b.timesBooked || (a.timesBooked == b.timesBooked && a.id <= b.id)
  }

  predicate SortedBy(o: Ordering, s: seq<Room>) {
    forall i, j :: 0 <= i < j < |s| ==> Precedes(o, s[i], s[j])
  }

  lemma PrecedesIsTotalPreorder(o: Ordering)
    ensures forall a, b :: Precedes(o, a, b) || Precedes(o, b, a)
    ensures forall a, b, c :: Precedes(o, a, b) && Precedes(o, b, c) ==> Precedes(o, a, c)
  {
  }

  /** Rooms with different ids are never tied. */
  lemma PrecedesIsAntisymmetricOnIds(o: Ordering, a: Room, b: Room)
    requires Precedes(o, a, b) && Precedes(o, b, a)
    ensures a.id == b.id
  {
  }

  /** `s` with `x` inserted before the first element that `x` precedes. */
  function Insert(o: Ordering, x: Room, s: seq<Room>): (r: seq<Room>)
    requires SortedBy(o, s)
    ensures SortedBy(o, r)
    ensures multiset(r) == multiset(s) + multiset{x}
    decreases |s|
  {
    PrecedesIsTotalPreorder(o);
    if |s| == 0 then [x]
    else if Precedes(o, x, s[0]) then [x] + s
    else
      var rest := Insert(o, x, s[1..]);
      assert s == [s[0]] + s[1..];
      assert forall y :: y in rest ==> Precedes(o, s[0], y) by {
        forall y | y in rest
          ensures Precedes(o, s[0], y)
        {
          assert y in multiset(rest);
          if y != x {
            assert y in multiset(s[1..]);
            assert y in s[1..];
          }
        }
      }
      [s[0]] + rest
  }

  /** Insertion sort. */
  function Sort(o: Ordering, s: seq<Room>): (r: seq<Room>)
    ensures SortedBy(o, r)
    ensures multiset(r) == multiset(s)
    decreases |s|
  {
    if |s| == 0 then []
    else
      assert s == [s[0]] + s[1..];
      Insert(o, s[0], Sort(o, s[1..]))
  }

  /** Filtering a sorted sequence leaves it sorted. */
  lemma {:induction false} FilterKeepsSorted(o: Ordering, s: seq<Room>, p: Room -> bool)
    requires SortedBy(o, s)
    ensures SortedBy(o, Seqs.Filter(s, p))
    decreases |s|
  {
    if |s| > 0 {
      assert SortedBy(o, s[1..]);
      FilterKeepsSorted(o, s[1..], p);
      if p(s[0]) {
        var rest := Seqs.Filter(s[1..], p);
        assert Seqs.Filter(s, p) == [s[0]] + rest;
        forall y | y in rest
          ensures Precedes(o, s[0], y)
        {
          HeadPrecedesAll(o, s, y);
        }
        PrependKeepsSorted(o, s[0], rest);
      }
    }
  }

  lemma PrependKeepsSorted(o: Ordering, x: Room, s: seq<Room>)
    requires SortedBy(o, s)
    requires forall y :: y in s ==> Precedes(o, x, y)
    ensures SortedBy(o, [x] + s)
  {
    var t := [x] + s;
    forall i, j | 0 <= i < j < |t|
      ensures Precedes(o, t[i], t[j])
    {
      if i == 0 {
        assert t[j] == s[j - 1];
      } else {
        assert t[i] == s[i - 1] && t[j] == s[j - 1];
      }
    }
  }

  lemma FilterKeepsIdsDistinct(s: seq<Room>, p: Room -> bool)
    requires RoomIdsDistinct(s)
    ensures RoomIdsDistinct(Seqs.Filter(s, p))
  {
    Seqs.FilterKeepsDistinct(s, p, (x: Room) => x.id);
  }

  /** Distinct ids, as a property of the elements rather than positions. */
  lemma DistinctIdsByElement(s: seq<Room>)
    requires RoomIdsDistinct(s)
    ensures forall x, y :: x in s && y in s && x.id == y.id ==> x == y
  {
    forall x, y | x in s && y in s && x.id == y.id
      ensures x == y
    {
      var i :| 0 <= i < |s| && s[i] == x;
      var j :| 0 <= j < |s| && s[j] == y;
      assert !(i < j) && !(j < i);
    }
  }

  /** The head of a sorted sequence precedes every element of it. */
  lemma HeadPrecedesAll(o: Ordering, s: seq<Room>, x: Room)
    requires SortedBy(o, s) && x in s
    ensures Precedes(o, s[0], x)
  {
    var i :| 0 <= i < |s| && s[i] == x;
    if i > 0 {
      assert Precedes(o, s[0], s[i]);
    }
  }

  /** Two sorted sequences with the same rooms start with the same room. */
  lemma SortedPermutationsSameHead(o: Ordering, s: seq<Room>, t: seq<Room>)
    requires SortedBy(o, s) && SortedBy(o, t)
    requires multiset(s) == multiset(t) && |s| > 0
    requires RoomIdsDistinct(s)
    ensures |t| > 0 && s[0] == t[0]
  {
    assert s[0] in multiset(s);
    assert s[0] in t;
    assert t[0] in multiset(t);
    assert t[0] in s;
    HeadPrecedesAll(o, t, s[0]);
    HeadPrecedesAll(o, s, t[0]);
    PrecedesIsAntisymmetricOnIds(o, s[0], t[0]);
    DistinctIdsByElement(s);
  }

  /** Two sorted sequences holding the same rooms, with distinct ids, are
      equal: the order leaves no freedom, so stability does not matter. */
  lemma {:induction false} SortedPermutationsEqual(o: Ordering, s: seq<Room>, t: seq<Room>)
    requires SortedBy(o, s) && SortedBy(o, t)
    requires multiset(s) == multiset(t)
    requires RoomIdsDistinct(s)
    ensures s == t
    decreases |s|
  {
    assert |s| == |multiset(s)| == |multiset(t)| == |t|;
    if |s| > 0 {
      SortedPermutationsSameHead(o, s, t);
      assert s == [s[0]] + s[1..];
      assert t == [t[0]] + t[1..];
      assert multiset(s) == multiset{s[0]} + multiset(s[1..]);
      assert multiset(t) == multiset{t[0]} + multiset(t[1..]);
      assert multiset(s[1..]) == multiset(s) - multiset{s[0]};
      assert multiset(t[1..]) == multiset(t) - multiset{t[0]};
      assert SortedBy(o, s[1..]) && SortedBy(o, t[1..]);
      assert RoomIdsDistinct(s[1..]);
      SortedPermutationsEqual(o, s[1..], t[1..]);
    }
  }

  /** Sorting an already sorted sequence with distinct ids changes nothing. */
  lemma SortIsIdempotent(o: Ordering, s: seq<Room>)
    requires SortedBy(o, s) && RoomIdsDistinct(s)
    ensures Sort(o, s) == s
  {
    SortedPermutationsEqual(o, s, Sort(o, s));
  }

  /** Reordering a list of rows keeps their ids distinct. */
  lemma PermutationKeepsIdsDistinct(s: seq<Room>, t: seq<Room>)
    requires multiset(s) == multiset(t) && RoomIdsDistinct(s)
    ensures RoomIdsDistinct(t)
  {
    DistinctIdsByElement(s);
    forall i, j | 0 <= i < j < |t|
      ensures t[i].id != t[j].id
    {
      assert t[i] in multiset(s) && t[j] in multiset(s);
      if t[i] == t[j] {
        CountTwoPositions(t, i, j);
        DistinctIdsCountOnce(s, t[i]);
      }
    }
  }

  lemma CountTwoPositions(s: seq<Room>, i: int, j: int)
    requires 0 <= i < j < |s| && s[i] == s[j]
    ensures multiset(s)[s[i]] >= 2
  {
    assert s == s[..j] + [s[j]] + s[j + 1..];
    assert s[i] in s[..j];
  }

  lemma {:induction false} DistinctIdsCountOnce(s: seq<Room>, x: Room)
    requires RoomIdsDistinct(s)
    ensures multiset(s)[x] <= 1
    decreases |s|
  {
    if |s| > 0 {
      assert s == [s[0]] + s[1..];
      assert RoomIdsDistinct(s[1..]);
      DistinctIdsCountOnce(s[1..], x);
      if s[0] == x {
        forall j | 0 <= j < |s[1..]|
          ensures s[1..][j] != x
        {
          assert s[j + 1].id != s[0].id;
        }
      }
    }
  }
}
