/** The hotel database as an immutable value: rooms (with their room type
    joined in), guests, reservations and the reservation-room links, together
    with the transaction discipline every write of the application follows
    (work on a copy, then commit it or roll back to the state before). */
module Store {

  /** Dates are day numbers; the difference of two dates is a number of nights. */
  type Day = int

  /** Amounts of money in the smallest currency unit. */
  type Money = nat

  datatype Option<T> = None | Some(value: T)

  /** The failures the application distinguishes. */
  datatype Error =
    | InvalidDateRange      // check-out not after check-in
    | NoRoomsAvailable      // the search returned no row
    | MissingRequiredField  // a required guest field is empty
    | DuplicateEmail        // the unique-email constraint raised an integrity error
    | DatabaseError         // any other exception raised by the database

  datatype Result<T> = Ok(value: T) | Err(error: Error)

  datatype RoomType = RoomType(name: string, basePrice: Money, capacity: nat)

  /** Only `Available` matters to the application; every other status value
      of the rooms table is `Unavailable` here. */
  datatype RoomStatus = Available | Unavailable

  datatype Room = Room(id: nat, number: string, roomType: RoomType, floor: int, status: RoomStatus)

  datatype Guest = Guest(id: nat, firstName: string, lastName: string, email: string,
                         phone: string, address: Option<string>)

  datatype ReservationStatus = Confirmed | Completed | Cancelled

  datatype Reservation = Reservation(id: nat, guestId: nat, checkIn: Day, checkOut: Day,
                                     total: int, status: ReservationStatus)

  /** A row of the reservation-room join table. */
  datatype Link = Link(reservationId: nat, roomId: nat)

  datatype Store = Store(rooms: seq<Room>, guests: seq<Guest>,
                         reservations: seq<Reservation>, links: seq<Link>)

  /** The store after an operation together with what the operation reported. */
  datatype Outcome<T> = Outcome(store: Store, result: Result<T>)

  /** An open transaction: `before` is the committed state, `working` holds
      the writes made since the transaction began. */
  datatype Tx = Tx(before: Store, working: Store)

  function Begin(s: Store): Tx {
    Tx(s, s)
  }

  function Commit(tx: Tx): Store { tx.working }

  function Rollback(tx: Tx): Store { tx.before }

  /** The half-open intervals [aIn, aOut) and [bIn, bOut) overlap; written as
      the availability query writes it, with a the existing stay. */
  predicate Overlap(aIn: Day, aOut: Day, bIn: Day, bOut: Day) {
    aIn < bOut && aOut > bIn
  }

  /** Reservation `r` occupies room `roomId`: it is Confirmed and linked to the room. */
  predicate Holds(s: Store, r: Reservation, roomId: nat) {
    r.status == Confirmed && Link(r.id, roomId) in s.links
  }

  /** The core invariant: two different Confirmed reservations of one room
      never overlap. */
  ghost predicate NoDoubleBooking(s: Store) {
    forall i, j, roomId ::
      0 <= i < |s.reservations| && 0 <= j < |s.reservations| && i != j &&
      Holds(s, s.reservations[i], roomId) && Holds(s, s.reservations[j], roomId)
      ==> !Overlap(s.reservations[i].checkIn, s.reservations[i].checkOut,
                   s.reservations[j].checkIn, s.reservations[j].checkOut)
  }

  function RoomIds(s: Store): set<nat> { set r | r in s.rooms :: r.id }

  function ReservationIds(s: Store): set<nat> { set r | r in s.reservations :: r.id }

  /** The keys and foreign keys the schema is assumed to enforce: primary keys
      are unique, guest e-mails are unique, and every link names an existing
      reservation and an existing room. */
  ghost predicate WellFormed(s: Store) {
    && (forall i, j :: 0 <= i < j < |s.rooms| ==> s.rooms[i].id != s.rooms[j].id)
    && (forall i, j :: 0 <= i < j < |s.guests| ==> s.guests[i].id != s.guests[j].id)
    && (forall i, j :: 0 <= i < j < |s.guests| ==> s.guests[i].email != s.guests[j].email)
    && (forall i, j :: 0 <= i < j < |s.reservations| ==> s.reservations[i].id != s.reservations[j].id)
    && (forall l :: l in s.links ==> l.reservationId in ReservationIds(s) && l.roomId in RoomIds(s))
  }

  /** The largest of a sequence of ids (0 for none). */
  function MaxId(ids: seq<nat>): (m: nat)
    ensures forall i :: 0 <= i < |ids| ==> ids[i] <= m
    ensures |ids| > 0 ==> exists i :: 0 <= i < |ids| && ids[i] == m
  {
    if |ids| == 0 then 0
    else
      var rest := MaxId(ids[1..]);
      if ids[0] >= rest then ids[0] else rest
  }

  /** The id a SERIAL column hands out next: one past every id in use. */
  function FreshReservationId(s: Store): (id: nat)
    ensures forall r :: r in s.reservations ==> r.id < id
    ensures id !in ReservationIds(s)
  {
    var ids := seq(|s.reservations|, i requires 0 <= i < |s.reservations| => s.reservations[i].id);
    assert forall i :: 0 <= i < |s.reservations| ==> ids[i] == s.reservations[i].id;
    MaxId(ids) + 1
  }

  function FreshGuestId(s: Store): (id: nat)
    ensures forall g :: g in s.guests ==> g.id < id
  {
    var ids := seq(|s.guests|, i requires 0 <= i < |s.guests| => s.guests[i].id);
    assert forall i :: 0 <= i < |s.guests| ==> ids[i] == s.guests[i].id;
    MaxId(ids) + 1
  }
}
