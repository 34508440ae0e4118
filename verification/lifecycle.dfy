/** Cancellation, which turns a reservation's status into Cancelled, and the
    listing of current reservations, which leaves Cancelled ones out. */
module Lifecycle {
  import opened Store
  import opened Availability
  import opened Booking

  /** The update: every row with the given id gets status Cancelled,
      whatever its status was; no other field and no other row changes. */
  function SetCancelled(rs: seq<Reservation>, id: nat): (r: seq<Reservation>)
    ensures |r| == |rs|
    ensures forall i :: 0 <= i < |rs| ==> r[i].(status := rs[i].status) == rs[i]
    ensures forall i :: 0 <= i < |rs| ==> (r[i].status == Cancelled <==> rs[i].id == id || rs[i].status == Cancelled)
    ensures forall i :: 0 <= i < |rs| && rs[i].id != id ==> r[i].status == rs[i].status
  {
    seq(|rs|, i requires 0 <= i < |rs| => if rs[i].id == id then rs[i].(status := Cancelled) else rs[i])
  }

  /** Cancelling a reservation; a database fault rolls the update back. No
      row with the id is not an error: the update then changes nothing. */
  function Cancel(s: Store, id: nat, fails: bool): (out: Outcome<()>)
    ensures out.result.Err? <==> fails
    ensures out.result.Err? ==> out.store == s && out.result.error == DatabaseError
    ensures out.result.Ok? ==>
      && out.store.rooms == s.rooms
      && out.store.guests == s.guests
      && out.store.links == s.links
      && |out.store.reservations| == |s.reservations|
      && (forall i :: 0 <= i < |s.reservations| && s.reservations[i].id == id ==>
            out.store.reservations[i] == s.reservations[i].(status := Cancelled))
      && (forall i :: 0 <= i < |s.reservations| && s.reservations[i].id != id ==>
            out.store.reservations[i] == s.reservations[i])
  {
    var tx := Begin(s);
    var tx1 := tx.(working := tx.working.(reservations := SetCancelled(tx.working.reservations, id)));
    if fails then Outcome(Rollback(tx1), Err(DatabaseError))
    else Outcome(Commit(tx1), Ok(()))
  }

  /** Cancelling twice is the same as cancelling once: the prior status is
      never inspected, so a second cancel succeeds and changes nothing. */
  lemma CancelIdempotent(s: Store, id: nat)
    ensures var once := Cancel(s, id, false).store;
            Cancel(once, id, false) == Outcome(once, Ok(()))
  {
  }

  /** Cancelling keeps the keys and the no-double-booking invariant. */
  lemma CancelKeepsInvariants(s: Store, id: nat, fails: bool)
    requires WellFormed(s) && NoDoubleBooking(s)
    ensures WellFormed(Cancel(s, id, fails).store)
    ensures NoDoubleBooking(Cancel(s, id, fails).store)
  {
    var s' := Cancel(s, id, fails).store;
    if !fails {
      assert ReservationIds(s') == ReservationIds(s) by {
        forall x | x in ReservationIds(s') ensures x in ReservationIds(s) {
          var r :| r in s'.reservations && r.id == x;
          var i :| 0 <= i < |s'.reservations| && s'.reservations[i] == r;
          assert s.reservations[i] in s.reservations;
        }
        forall x | x in ReservationIds(s) ensures x in ReservationIds(s') {
          var r :| r in s.reservations && r.id == x;
          var i :| 0 <= i < |s.reservations| && s.reservations[i] == r;
          assert s'.reservations[i] in s'.reservations;
        }
      }
      forall i, j, roomId |
        0 <= i < |s'.reservations| && 0 <= j < |s'.reservations| && i != j &&
        Holds(s', s'.reservations[i], roomId) && Holds(s', s'.reservations[j], roomId)
        ensures !Overlap(s'.reservations[i].checkIn, s'.reservations[i].checkOut,
                         s'.reservations[j].checkIn, s'.reservations[j].checkOut)
      {
        assert Holds(s, s.reservations[i], roomId) && Holds(s, s.reservations[j], roomId);
      }
    }
  }

  /** After a cancel, a room is free for a stay exactly when nothing but the
      cancelled reservation blocked it before. */
  lemma CancelFreesRoom(s: Store, id: nat, roomId: nat, checkIn: Day, checkOut: Day)
    ensures Free(Cancel(s, id, false).store, roomId, checkIn, checkOut) <==>
            forall r :: r in s.reservations && Blocks(s, r, roomId, checkIn, checkOut) ==> r.id == id
  {
    var s' := Cancel(s, id, false).store;
    if Free(s', roomId, checkIn, checkOut) {
      forall r | r in s.reservations && Blocks(s, r, roomId, checkIn, checkOut) ensures r.id == id {
        var i :| 0 <= i < |s.reservations| && s.reservations[i] == r;
        assert s'.reservations[i] in s'.reservations;
      }
    } else {
      var r' :| r' in s'.reservations && Blocks(s', r', roomId, checkIn, checkOut);
      var i :| 0 <= i < |s'.reservations| && s'.reservations[i] == r';
      assert s.reservations[i] in s.reservations && Blocks(s, s.reservations[i], roomId, checkIn, checkOut);
    }
  }

  /** Booking and then cancelling the new reservation gives every room back
      for every stay: the search returns exactly what it returned before. */
  lemma BookThenCancelRestoresSearch(s: Store, o: Offer, number: string, checkIn: Day, checkOut: Day)
    requires Lists(o.rooms, number)
    ensures var booked := Book(s, o, number, NoFault);
            var cancelled := Cancel(booked.store, booked.result.value, false).store;
            FindAvailableRooms(cancelled, checkIn, checkOut) == FindAvailableRooms(s, checkIn, checkOut)
  {
    var booked := Book(s, o, number, NoFault);
    var id := booked.result.value;
    var s1 := booked.store;
    var s2 := Cancel(s1, id, false).store;
    var room := SelectRoom(o.rooms, number);
    var n := |s.reservations|;
    forall r | r in s.reservations ensures r.id != id {
    }
    assert s2.reservations == s.reservations + [NewReservation(o, room, id).(status := Cancelled)] by {
      forall i | 0 <= i < n ensures s2.reservations[i] == s.reservations[i] {
        assert s.reservations[i] in s.reservations;
        assert s1.reservations[i] == s.reservations[i];
      }
      assert s1.reservations[n].id == id;
    }
    forall roomId ensures roomId in BlockedRoomIds(s2, checkIn, checkOut) <==> roomId in BlockedRoomIds(s, checkIn, checkOut) {
      forall r | r in s.reservations ensures Blocks(s2, r, roomId, checkIn, checkOut) == Blocks(s, r, roomId, checkIn, checkOut) {
        HoldsAfterBook(s, s2, r, id, Link(id, room.id), roomId);
      }
      if !Free(s2, roomId, checkIn, checkOut) {
        var r :| r in s2.reservations && Blocks(s2, r, roomId, checkIn, checkOut);
        assert r in s.reservations;
      }
    }
    assert BlockedRoomIds(s2, checkIn, checkOut) == BlockedRoomIds(s, checkIn, checkOut);
  }

  /** The current-reservations listing: Confirmed and Completed reservations,
      each as often as it is stored; Cancelled ones are left out. */
  function CurrentReservations(rs: seq<Reservation>): (r: seq<Reservation>)
    ensures forall x :: multiset(r)[x] == (if x.status != Cancelled then multiset(rs)[x] else 0)
  {
    if |rs| == 0 then []
    else
      var rest := CurrentReservations(rs[1..]);
      assert rs == [rs[0]] + rs[1..];
      assert multiset(rs) == multiset{rs[0]} + multiset(rs[1..]);
      if rs[0].status == Confirmed || rs[0].status == Completed then [rs[0]] + rest else rest
  }

  /** A cancelled reservation disappears from the listing, and every other
      listed reservation stays listed. */
  lemma CancelRemovesFromListing(s: Store, id: nat)
    ensures var listed := CurrentReservations(Cancel(s, id, false).store.reservations);
            && (forall x :: x in listed ==> x.id != id)
            && (forall x :: x in CurrentReservations(s.reservations) && x.id != id ==> x in listed)
  {
    var s' := Cancel(s, id, false).store;
    var listed := CurrentReservations(s'.reservations);
    forall x | x in listed ensures x.id != id {
      assert multiset(listed)[x] > 0;
      assert x in s'.reservations;
      var i :| 0 <= i < |s'.reservations| && s'.reservations[i] == x;
    }
    forall x | x in CurrentReservations(s.reservations) && x.id != id ensures x in listed {
      assert multiset(CurrentReservations(s.reservations))[x] > 0;
      assert x in s.reservations;
      var i :| 0 <= i < |s.reservations| && s.reservations[i] == x;
      assert s'.reservations[i] == x;
      assert multiset(s'.reservations)[x] > 0;
    }
  }
}
