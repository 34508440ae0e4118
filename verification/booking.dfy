/** The booking step: from an offer produced by the search, insert one
    Confirmed reservation priced at nights times the chosen room's price and
    one link to that room, in one transaction. */
module Booking {
  import opened Store
  import opened Availability

  /** Where the database may raise while the booking transaction runs. */
  datatype BookingFault = NoFault | ReservationInsertFails | LinkInsertFails | CommitFails

  /** The number of nights of the offered stay: the difference of the dates in days. */
  function Nights(o: Offer): int { o.checkOut - o.checkIn }

  /** The room number can be chosen from the offer's list. */
  predicate Lists(rooms: seq<Room>, number: string) {
    exists x :: x in rooms && x.number == number
  }

  /** Position of the first room carrying `number`: picking a number selects
      the first row with that number. */
  function FirstWithNumber(rooms: seq<Room>, number: string): (i: nat)
    requires Lists(rooms, number)
    ensures i < |rooms| && rooms[i].number == number
    ensures forall j :: 0 <= j < i ==> rooms[j].number != number
  {
    if rooms[0].number == number then 0
    else
      assert rooms == [rooms[0]] + rooms[1..];
      1 + FirstWithNumber(rooms[1..], number)
  }

  function SelectRoom(rooms: seq<Room>, number: string): (room: Room)
    requires Lists(rooms, number)
    ensures room in rooms && room.number == number
  {
    rooms[FirstWithNumber(rooms, number)]
  }

  /** The reservation row a successful booking inserts under id `id`. */
  function NewReservation(o: Offer, room: Room, id: nat): Reservation {
    Reservation(id, o.guestId, o.checkIn, o.checkOut, Nights(o) * room.roomType.basePrice, Confirmed)
  }

  /** Booking: insert the reservation, insert its link, commit; any fault
      rolls the whole transaction back. Availability is not checked again:
      the offer is trusted. */
  function Book(s: Store, o: Offer, number: string, fault: BookingFault): (out: Outcome<nat>)
    requires Lists(o.rooms, number)
    ensures out.result.Err? <==> fault != NoFault
    ensures out.result.Err? ==> out.store == s && out.result.error == DatabaseError
    ensures out.result.Ok? ==>
      var id := out.result.value;
      var room := SelectRoom(o.rooms, number);
      && id !in ReservationIds(s)
      && out.store.reservations == s.reservations + [NewReservation(o, room, id)]
      && out.store.links == s.links + [Link(id, room.id)]
      && out.store.rooms == s.rooms
      && out.store.guests == s.guests
  {
    var room := SelectRoom(o.rooms, number);
    var tx := Begin(s);
    var id := FreshReservationId(tx.working);
    if fault == ReservationInsertFails then Outcome(Rollback(tx), Err(DatabaseError))
    else
      var tx1 := tx.(working := tx.working.(reservations := tx.working.reservations + [NewReservation(o, room, id)]));
      if fault == LinkInsertFails then Outcome(Rollback(tx1), Err(DatabaseError))
      else
        var tx2 := tx1.(working := tx1.working.(links := tx1.working.links + [Link(id, room.id)]));
        if fault == CommitFails then Outcome(Rollback(tx2), Err(DatabaseError))
        else
          assert fault == NoFault;
          Outcome(Commit(tx2), Ok(id))
  }

  /** A booking from an offer whose stay is non-empty inserts a total of
      nights times the chosen room's price, and so at least one night's price. */
  lemma BookPricing(s: Store, o: Offer, number: string)
    requires o.checkIn < o.checkOut && Lists(o.rooms, number)
    ensures var out := Book(s, o, number, NoFault);
            var room := SelectRoom(o.rooms, number);
            && out.result.Ok?
            && out.store.reservations[|s.reservations|].total == (o.checkOut - o.checkIn) * room.roomType.basePrice
            && out.store.reservations[|s.reservations|].total >= room.roomType.basePrice
  {
    var room := SelectRoom(o.rooms, number);
    AtLeastOneNight(Nights(o), room.roomType.basePrice);
  }

  lemma AtLeastOneNight(nights: int, price: Money)
    requires nights >= 1
    ensures nights * price >= price
  {
    assert nights * price == (nights - 1) * price + price;
  }

  /** Pricing of a booking made from a successful search: at least one night,
      and the total is nights times the chosen room's nightly price. */
  lemma BookFromSearchPricing(s: Store, guestId: nat, checkIn: Day, checkOut: Day, o: Offer, number: string)
    requires Search(s, guestId, checkIn, checkOut) == Ok(o)
    requires Lists(o.rooms, number)
    ensures Nights(o) >= 1
    ensures var out := Book(s, o, number, NoFault);
            var room := SelectRoom(o.rooms, number);
            && out.result.Ok?
            && out.store.reservations[|s.reservations|].total == (checkOut - checkIn) * room.roomType.basePrice
            && out.store.reservations[|s.reservations|].total >= room.roomType.basePrice
  {
    assert o.checkIn == checkIn && o.checkOut == checkOut && checkIn < checkOut;
    BookPricing(s, o, number);
  }

  /** A reservation already in the store holds the same rooms after a booking. */
  lemma HoldsAfterBook(s: Store, s': Store, r: Reservation, id: nat, extra: Link, roomId: nat)
    requires s'.links == s.links + [extra] && extra.reservationId == id && r.id != id
    ensures Holds(s', r, roomId) <==> Holds(s, r, roomId)
  {
  }

  /** The store after a successful booking of `room` under the fresh id `id`. */
  ghost predicate BookedInto(s: Store, s': Store, o: Offer, room: Room, id: nat) {
    && id !in ReservationIds(s)
    && s'.reservations == s.reservations + [NewReservation(o, room, id)]
    && s'.links == s.links + [Link(id, room.id)]
    && s'.rooms == s.rooms
    && s'.guests == s.guests
  }

  lemma BookingKeepsWellFormed(s: Store, s': Store, o: Offer, room: Room, id: nat)
    requires WellFormed(s) && BookedInto(s, s', o, room, id) && room in s.rooms
    ensures WellFormed(s')
  {
  }

  lemma BookingKeepsNoDoubleBooking(s: Store, s': Store, o: Offer, room: Room, id: nat)
    requires WellFormed(s) && NoDoubleBooking(s) && BookedInto(s, s', o, room, id)
    requires Offerable(s, room, o.checkIn, o.checkOut)
    ensures NoDoubleBooking(s')
  {
    var n := |s.reservations|;
    var extra := Link(id, room.id);
    forall i, j, roomId |
      0 <= i < |s'.reservations| && 0 <= j < |s'.reservations| && i != j &&
      Holds(s', s'.reservations[i], roomId) && Holds(s', s'.reservations[j], roomId)
      ensures !Overlap(s'.reservations[i].checkIn, s'.reservations[i].checkOut,
                       s'.reservations[j].checkIn, s'.reservations[j].checkOut)
    {
      if i < n && j < n {
        assert s'.reservations[i] == s.reservations[i] && s'.reservations[j] == s.reservations[j];
        assert s.reservations[i] in s.reservations && s.reservations[j] in s.reservations;
        HoldsAfterBook(s, s', s.reservations[i], id, extra, roomId);
        HoldsAfterBook(s, s', s.reservations[j], id, extra, roomId);
      } else {
        var k := if i < n then i else j;
        var r := s.reservations[k];
        assert s'.reservations[k] == r && r in s.reservations;
        assert s'.reservations[n] == NewReservation(o, room, id);
        HoldsAfterBook(s, s', r, id, extra, roomId);
        assert Link(id, roomId) in s'.links;
        assert Link(id, roomId) !in s.links;
        assert roomId == room.id;
        assert !Blocks(s, r, room.id, o.checkIn, o.checkOut);
      }
    }
  }

  /** Booking from an offer computed on the same, unchanged store keeps the
      keys and the no-double-booking invariant. */
  lemma BookFromOfferKeepsInvariants(s: Store, o: Offer, number: string, fault: BookingFault)
    requires WellFormed(s) && NoDoubleBooking(s)
    requires OfferFrom(s, o) && Lists(o.rooms, number)
    ensures WellFormed(Book(s, o, number, fault).store)
    ensures NoDoubleBooking(Book(s, o, number, fault).store)
  {
    var out := Book(s, o, number, fault);
    if out.result.Ok? {
      var room := SelectRoom(o.rooms, number);
      assert BookedInto(s, out.store, o, room, out.result.value);
      BookingKeepsWellFormed(s, out.store, o, room, out.result.value);
      BookingKeepsNoDoubleBooking(s, out.store, o, room, out.result.value);
    }
  }

  /** Once booked, the room is no longer offered for any stay that overlaps
      the booked one. */
  lemma BookedRoomLeavesSearch(s: Store, o: Offer, number: string, checkIn: Day, checkOut: Day)
    requires Lists(o.rooms, number)
    requires Overlap(o.checkIn, o.checkOut, checkIn, checkOut)
    ensures var out := Book(s, o, number, NoFault);
            SelectRoom(o.rooms, number) !in FindAvailableRooms(out.store, checkIn, checkOut)
  {
  }

  /** Booking does not re-check availability, so two equal offers (two
      sessions that searched the same store) book the same room twice for the
      same stay. */
  lemma SameOfferTwiceDoubleBooks(s: Store, o: Offer, number: string)
    requires Lists(o.rooms, number) && o.checkIn < o.checkOut
    ensures !NoDoubleBooking(Book(Book(s, o, number, NoFault).store, o, number, NoFault).store)
  {
    var out1 := Book(s, o, number, NoFault);
    var out2 := Book(out1.store, o, number, NoFault);
    var s2 := out2.store;
    var room := SelectRoom(o.rooms, number);
    var n := |s.reservations|;
    var r1 := s2.reservations[n];
    var r2 := s2.reservations[n + 1];
    assert r1 == NewReservation(o, room, out1.result.value);
    assert r2 == NewReservation(o, room, out2.result.value);
    assert Link(r1.id, room.id) in s2.links by {
      assert out1.store.links[|s.links|] == Link(r1.id, room.id);
    }
    assert Link(r2.id, room.id) in s2.links;
    assert Holds(s2, r1, room.id) && Holds(s2, r2, room.id);
    assert Overlap(r1.checkIn, r1.checkOut, r2.checkIn, r2.checkOut);
  }

  /** A store where two equal offers double-book: one Available room, no
      reservations, an offer for two nights, booked by two sessions. */
  lemma StaleOfferDoubleBooks()
    ensures var s0 := Store([Room(1, "101", RoomType("Single", 100, 1), 1, Available)], [], [], []);
            var o := Offer(7, 10, 12, s0.rooms);
            var s1 := Book(s0, o, "101", NoFault).store;
            var s2 := Book(s1, o, "101", NoFault).store;
            && OfferFrom(s0, o)
            && WellFormed(s0) && NoDoubleBooking(s0)
            && !NoDoubleBooking(s2)
  {
    var s0 := Store([Room(1, "101", RoomType("Single", 100, 1), 1, Available)], [], [], []);
    var o := Offer(7, 10, 12, s0.rooms);
    assert Lists(o.rooms, "101") by { assert o.rooms[0] in o.rooms; }
    SameOfferTwiceDoubleBooks(s0, o, "101");
  }
}
