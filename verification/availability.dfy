/** The availability search: which rooms can be offered for a requested stay
    [checkIn, checkOut), and the search step that turns them into an offer
    the booking step works from. */
module Availability {
  import opened Store
  import opened RoomOrder

  /** Day `d` is one of the nights of the stay [checkIn, checkOut). */
  predicate Night(checkIn: Day, checkOut: Day, d: Day) {
    checkIn <= d < checkOut
  }

  /** The overlap test agrees with "the two stays share a night" whenever
      both stays are non-empty. */
  lemma OverlapIffSharedNight(aIn: Day, aOut: Day, bIn: Day, bOut: Day)
    requires aIn < aOut && bIn < bOut
    ensures Overlap(aIn, aOut, bIn, bOut) <==> exists d :: Night(aIn, aOut, d) && Night(bIn, bOut, d)
  {
    if Overlap(aIn, aOut, bIn, bOut) {
      var d := if aIn < bIn then bIn else aIn;
      assert Night(aIn, aOut, d) && Night(bIn, bOut, d);
    }
  }

  /** Same-day turnover: a stay that ends on the day another starts does not
      conflict with it, in either order. */
  lemma SameDayTurnover(aIn: Day, day: Day, bOut: Day)
    ensures !Overlap(aIn, day, day, bOut)
    ensures !Overlap(day, bOut, aIn, day)
  {
  }

  /** The test is symmetric, so which stay is "existing" does not matter. */
  lemma OverlapSymmetric(aIn: Day, aOut: Day, bIn: Day, bOut: Day)
    ensures Overlap(aIn, aOut, bIn, bOut) == Overlap(bIn, bOut, aIn, aOut)
  {
  }

  /** Reservation `r` keeps room `roomId` out of the results for [checkIn, checkOut). */
  predicate Blocks(s: Store, r: Reservation, roomId: nat, checkIn: Day, checkOut: Day) {
    Holds(s, r, roomId) && Overlap(r.checkIn, r.checkOut, checkIn, checkOut)
  }

  /** Reference definition: no reservation of the store blocks the room. */
  ghost predicate Free(s: Store, roomId: nat, checkIn: Day, checkOut: Day) {
    forall r :: r in s.reservations ==> !Blocks(s, r, roomId, checkIn, checkOut)
  }

  /** Reference definition of a room the search must return. */
  ghost predicate Offerable(s: Store, room: Room, checkIn: Day, checkOut: Day) {
    room.status == Available && Free(s, room.id, checkIn, checkOut)
  }

  /** Ids of the Confirmed reservations that overlap the query. */
  function ConflictingIds(rs: seq<Reservation>, checkIn: Day, checkOut: Day): (ids: set<nat>)
    ensures forall id :: id in ids <==>
      exists r :: r in rs && r.id == id && r.status == Confirmed && Overlap(r.checkIn, r.checkOut, checkIn, checkOut)
  {
    if |rs| == 0 then {}
    else
      var rest := ConflictingIds(rs[1..], checkIn, checkOut);
      assert rs == [rs[0]] + rs[1..];
      if rs[0].status == Confirmed && Overlap(rs[0].checkIn, rs[0].checkOut, checkIn, checkOut)
      then rest + {rs[0].id}
      else rest
  }

  /** Ids of the rooms linked to any of the reservations `ids`. */
  function LinkedRoomIds(ls: seq<Link>, ids: set<nat>): (roomIds: set<nat>)
    ensures forall roomId :: roomId in roomIds <==> exists id :: id in ids && Link(id, roomId) in ls
  {
    if |ls| == 0 then {}
    else
      var rest := LinkedRoomIds(ls[1..], ids);
      assert ls == [ls[0]] + ls[1..];
      if ls[0].reservationId in ids then rest + {ls[0].roomId} else rest
  }

  /** The sub-query of the search: rooms taken by an overlapping Confirmed reservation. */
  function BlockedRoomIds(s: Store, checkIn: Day, checkOut: Day): (blocked: set<nat>)
    ensures forall roomId :: roomId in blocked <==> !Free(s, roomId, checkIn, checkOut)
  {
    var ids := ConflictingIds(s.reservations, checkIn, checkOut);
    var blocked := LinkedRoomIds(s.links, ids);
    assert forall roomId :: roomId in blocked ==> !Free(s, roomId, checkIn, checkOut) by {
      forall roomId | roomId in blocked ensures !Free(s, roomId, checkIn, checkOut) {
        var id :| id in ids && Link(id, roomId) in s.links;
        var r :| r in s.reservations && r.id == id && r.status == Confirmed
                 && Overlap(r.checkIn, r.checkOut, checkIn, checkOut);
        assert Blocks(s, r, roomId, checkIn, checkOut);
      }
    }
    blocked
  }

  /** Rooms with status Available whose id is not blocked. */
  function AvailableUnblocked(rooms: seq<Room>, blocked: set<nat>): (r: seq<Room>)
    ensures forall x :: multiset(r)[x] ==
                        (if x.status == Available && x.id !in blocked then multiset(rooms)[x] else 0)
  {
    if |rooms| == 0 then []
    else
      var rest := AvailableUnblocked(rooms[1..], blocked);
      assert rooms == [rooms[0]] + rooms[1..];
      assert multiset(rooms) == multiset{rooms[0]} + multiset(rooms[1..]);
      if rooms[0].status == Available && rooms[0].id !in blocked then [rooms[0]] + rest else rest
  }

  /** The availability query: every Available room with no overlapping
      Confirmed reservation, each as often as it is in the store, ordered by
      room number. */
  function FindAvailableRooms(s: Store, checkIn: Day, checkOut: Day): (r: seq<Room>)
    ensures SortedByNumber(r)
    ensures forall x :: multiset(r)[x] == if Offerable(s, x, checkIn, checkOut) then multiset(s.rooms)[x] else 0
    ensures forall x :: x in r <==> x in s.rooms && Offerable(s, x, checkIn, checkOut)
  {
    var blocked := BlockedRoomIds(s, checkIn, checkOut);
    var r := SortByNumber(AvailableUnblocked(s.rooms, blocked));
    assert forall x :: x in r <==> multiset(r)[x] > 0;
    r
  }

  /** Soundness of the search, per reservation: no returned room is held by a
      Confirmed reservation overlapping the query. */
  lemma SearchSound(s: Store, checkIn: Day, checkOut: Day, room: Room, r: Reservation)
    requires room in FindAvailableRooms(s, checkIn, checkOut)
    requires r in s.reservations && Link(r.id, room.id) in s.links && r.status == Confirmed
    ensures room.status == Available
    ensures !Overlap(r.checkIn, r.checkOut, checkIn, checkOut)
  {
  }

  /** Reservations that are not Confirmed never keep a room out: a stored
      Available room none of whose reservations is Confirmed is returned for
      every stay. */
  lemma NonConfirmedNeverBlock(s: Store, room: Room, checkIn: Day, checkOut: Day)
    requires room in s.rooms && room.status == Available
    requires forall r :: r in s.reservations && Link(r.id, room.id) in s.links ==> r.status != Confirmed
    ensures room in FindAvailableRooms(s, checkIn, checkOut)
  {
    assert Offerable(s, room, checkIn, checkOut);
  }

  /** When room ids are distinct, each returned room appears exactly once. */
  lemma {:induction false} ResultHasNoDuplicates(s: Store, checkIn: Day, checkOut: Day, room: Room)
    requires WellFormed(s)
    requires room in FindAvailableRooms(s, checkIn, checkOut)
    ensures multiset(FindAvailableRooms(s, checkIn, checkOut))[room] == 1
  {
    CountDistinct(s.rooms, room);
  }

  lemma {:induction false} CountDistinct(rooms: seq<Room>, room: Room)
    requires forall i, j :: 0 <= i < j < |rooms| ==> rooms[i].id != rooms[j].id
    requires room in rooms
    ensures multiset(rooms)[room] == 1
  {
    assert rooms == [rooms[0]] + rooms[1..];
    assert multiset(rooms) == multiset{rooms[0]} + multiset(rooms[1..]);
    if rooms[0] == room {
      forall k | 0 <= k < |rooms[1..]| ensures rooms[1..][k] != room {
        assert rooms[1..][k] == rooms[k + 1];
      }
    } else {
      CountDistinct(rooms[1..], room);
    }
  }

  /** The search result kept between the search and the booking step: who
      searched, for which stay, and the rooms found. */
  datatype Offer = Offer(guestId: nat, checkIn: Day, checkOut: Day, rooms: seq<Room>)

  /** `o` is what a successful search on `s` hands to the booking step. */
  ghost predicate OfferFrom(s: Store, o: Offer) {
    && o.checkIn < o.checkOut
    && |o.rooms| > 0
    && forall x :: x in o.rooms ==> x in s.rooms && Offerable(s, x, o.checkIn, o.checkOut)
  }

  /** The search step: the date check, then the query; an empty result
      produces no offer. */
  function Search(s: Store, guestId: nat, checkIn: Day, checkOut: Day): (r: Result<Offer>)
    ensures r == Err(InvalidDateRange) <==> checkOut <= checkIn
    ensures r == Err(NoRoomsAvailable) <==>
      checkIn < checkOut && forall x :: x in s.rooms ==> !Offerable(s, x, checkIn, checkOut)
    ensures r.Ok? <==> checkIn < checkOut && exists x :: x in s.rooms && Offerable(s, x, checkIn, checkOut)
    ensures r.Ok? ==> OfferFrom(s, r.value)
    ensures r.Ok? ==> r.value.guestId == guestId && r.value.checkIn == checkIn && r.value.checkOut == checkOut
    ensures r.Ok? ==> r.value.rooms == FindAvailableRooms(s, checkIn, checkOut)
  {
    if checkOut <= checkIn then Err(InvalidDateRange)
    else
      var rooms := FindAvailableRooms(s, checkIn, checkOut);
      if |rooms| == 0 then
        assert forall x :: x in s.rooms ==> !Offerable(s, x, checkIn, checkOut);
        Err(NoRoomsAvailable)
      else
        Ok(Offer(guestId, checkIn, checkOut, rooms))
  }
}
