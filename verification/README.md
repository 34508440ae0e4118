# Hotel reservation rules, modelled in Dafny

The hotel reservation application is a single Streamlit page over a
PostgreSQL database. Its logic is a short list of rules, written as SQL text and
a few Python expressions:

- **Availability search.** The application offers a room for the stay
  `[check_in, check_out)` when two conditions hold. The room's status is
  `Available`. No `Confirmed` reservation linked to the room satisfies
  `res.check_in < check_out AND res.check_out > check_in`. Results are
  ordered by room number.
- **Date check.** A search is refused unless check-out is after check-in.
- **Pricing.** A booking costs `nights * price` of the selected room, where
  `nights` is the difference of the two dates in days.
- **Booking.** One transaction inserts one `Confirmed` reservation and one
  reservation-room link. It commits, or it rolls back on any exception.
- **Cancellation.** One update sets a reservation's status to `Cancelled`.
- **Guest registration.** All four required fields must be non-empty. A
  duplicate e-mail raises an integrity error, and the insert is rolled back.

This project restates those rules over an immutable in-memory store and
proves what they guarantee.

The modules follow the application's parts:

- `Store` (`store.dfy`) holds the rooms, guests, reservations and links. It
  also holds the transaction shape (`Begin`, `Commit`, `Rollback`), the
  overlap test, the keys the schema is assumed to enforce (`WellFormed`) and
  the no-double-booking invariant.
- `RoomOrder` (`room_order.dfy`) orders room numbers. Room numbers are text
  in the database, so "order by room number" is a text order. The module also
  holds the insertion sort used for the search result.
- `Availability` (`availability.dfy`) holds the search query, its reference
  definition (`Free`, `Offerable`) and the search step. The search step
  produces an explicit `Offer` value. The page keeps the same value in its
  session state between search and booking.
- `Booking` (`booking.dfy`) holds room selection, pricing, the booking
  transaction and the invariant it keeps.
- `Lifecycle` (`lifecycle.dfy`) holds cancellation and the listing of current
  reservations.
- `Guests` (`guests.dfy`) holds registration.

Dates are integer day numbers. Prices are natural numbers in the smallest
currency unit. A reservation's total is an integer: nights times price, which
is at least one night's price for a booking made from a successful search. A database exception is a parameter of each transaction: a
`BookingFault` says at which step the booking raises, and a boolean does the
same for cancellation and registration. Reservation and guest ids come from
SERIAL columns. They are modelled as one more than the largest id in use, which
makes them fresh.

Points where the code's behaviour is worth knowing:

- Booking does not check availability again. It trusts the offer kept in
  the session state since the search. After a successful booking the page
  deletes that offer from its session state (hotel-reservation-db/frontend/app.py:213-216), so one session
  cannot book twice from the same offer. Two sessions can, though: each
  searches the same store, receives an equal offer, and books it.
  `Booking.SameOfferTwiceDoubleBooks` shows the consequence: two bookings
  from equal offers book one room twice for the same stay.
  `Booking.StaleOfferDoubleBooks` gives a concrete store where this happens.
- Cancellation does not look at the prior status. Cancelling a `Cancelled` or
  `Completed` reservation succeeds. So does cancelling an id that no
  reservation has: the update then changes nothing.
- A booking links exactly one room. Its total is nights times that room's
  price. There is no sum over several rooms.
- Booking does not check that the guest exists.

## Model

| member | source | states |
|---|---|---|
| Availability.OverlapIffSharedNight | hotel-reservation-db/frontend/app.py:152-153 | for non-empty stays, the query's overlap test holds exactly when the two stays share a night |
| Availability.SameDayTurnover | hotel-reservation-db/frontend/app.py:152-153 | a stay ending on the day another starts does not conflict with it, in either order (half-open intervals) |
| Availability.OverlapSymmetric | hotel-reservation-db/frontend/app.py:152-153 | the overlap test gives the same answer whichever stay is taken as the existing one |
| Availability.ConflictingIds | hotel-reservation-db/frontend/app.py:148-153 | an id is collected exactly when some reservation with that id is Confirmed and overlaps the query |
| Availability.LinkedRoomIds | hotel-reservation-db/frontend/app.py:147-150 | a room id is collected exactly when a link ties it to one of the given reservations |
| Availability.BlockedRoomIds | hotel-reservation-db/frontend/app.py:147-154 | the sub-query's room ids are exactly the rooms that some Confirmed, linked, overlapping reservation blocks |
| Availability.AvailableUnblocked | hotel-reservation-db/frontend/app.py:146-147 | keeps each Available room whose id is not blocked, as often as it occurs, and nothing else |
| Availability.FindAvailableRooms | hotel-reservation-db/frontend/app.py:141-157 | the result is sorted by room number; a room is in it exactly when it is stored, Available and free of overlapping Confirmed reservations; each such room appears as often as it is stored |
| Availability.SearchSound | hotel-reservation-db/frontend/app.py:146-154 | a returned room is Available, and no Confirmed reservation linked to it overlaps the query |
| Availability.NonConfirmedNeverBlock | hotel-reservation-db/frontend/app.py:146-151 | a stored Available room none of whose linked reservations is Confirmed is returned for every stay: Completed and Cancelled reservations never keep a room out |
| Availability.ResultHasNoDuplicates | hotel-reservation-db/frontend/app.py:143-157 | when room ids are unique, each returned room appears exactly once |
| Availability.Search | hotel-reservation-db/frontend/app.py:137-171 | refuses exactly when check-out is not after check-in; reports no rooms exactly when none can be offered; succeeds exactly when the dates are in order and some stored room can be offered, and then returns an offer with the searching guest, the dates and the sorted free rooms |
| RoomOrder.NumberLeTotal | hotel-reservation-db/frontend/app.py:155 | any two room numbers are comparable in the text order |
| RoomOrder.NumberLeTransitive | hotel-reservation-db/frontend/app.py:155 | the text order on room numbers is transitive |
| RoomOrder.NumberLeAntisymmetric | hotel-reservation-db/frontend/app.py:155 | two room numbers that each sort no later than the other are equal |
| RoomOrder.Insert | hotel-reservation-db/frontend/app.py:155 | inserting into a sorted list keeps it sorted and adds exactly the one room |
| RoomOrder.SortByNumber | hotel-reservation-db/frontend/app.py:155 | the result is sorted by room number and is a permutation of the input |
| RoomOrder.SortedPermutationUnique | hotel-reservation-db/frontend/app.py:155 | with distinct room numbers, any two sorted arrangements of the same rooms are equal, so the order is fully determined |
| Store.MaxId | hotel-reservation-db/frontend/app.py:194-200 | the value is at least every id given and is one of them when there are any |
| Store.FreshReservationId | hotel-reservation-db/frontend/app.py:194-200 | the id returned for a new reservation is larger than every reservation id in use |
| Store.FreshGuestId | hotel-reservation-db/frontend/app.py:96-101 | the id returned for a new guest is larger than every guest id in use |
| Booking.FirstWithNumber | hotel-reservation-db/frontend/app.py:179-180 | the chosen number selects the first room in the offer that carries it |
| Booking.SelectRoom | hotel-reservation-db/frontend/app.py:179-180 | the selected room is one of the offer's rooms and carries the chosen number |
| Booking.Book | hotel-reservation-db/frontend/app.py:190-222 | fails exactly when the database raises, and then leaves the store unchanged; on success appends exactly one Confirmed reservation with a fresh id, the offer's guest and dates and total nights times price, and exactly one link to the selected room, and changes nothing else |
| Booking.BookPricing | hotel-reservation-db/frontend/app.py:182-199 | a booking from an offer with a non-empty stay succeeds without a fault and stores a total of nights times the room's price, at least one night's price |
| Booking.BookFromSearchPricing | hotel-reservation-db/frontend/app.py:182-183 | a booking from a successful search has at least one night, and its total is nights times the room's price, so at least one night's price |
| Booking.BookingKeepsWellFormed | hotel-reservation-db/frontend/app.py:194-208 | appending the new reservation and its link keeps ids unique and every link pointing at an existing reservation and room |
| Booking.BookingKeepsNoDoubleBooking | hotel-reservation-db/frontend/app.py:178-208 | booking a room that was offerable on the unchanged store keeps Confirmed reservations of one room pairwise non-overlapping |
| Booking.BookFromOfferKeepsInvariants | hotel-reservation-db/frontend/app.py:141-208 | booking from an offer computed on the same store, with or without a fault, keeps the keys and the no-double-booking invariant |
| Booking.BookedRoomLeavesSearch | hotel-reservation-db/frontend/app.py:141-208 | after a successful booking, the booked room is not returned by a search for any stay overlapping the booked one |
| Booking.SameOfferTwiceDoubleBooks | hotel-reservation-db/frontend/app.py:174-208 | for any store, two bookings from equal offers with a non-empty stay, as two sessions that searched the same store would make, break the no-double-booking invariant, because booking does not check again |
| Booking.StaleOfferDoubleBooks | hotel-reservation-db/frontend/app.py:174-208 | there is a well-formed store without double booking, and a valid offer from it, such that two sessions booking that offer double-book the room |
| Lifecycle.SetCancelled | hotel-reservation-db/frontend/app.py:246-248 | only the status field changes; afterwards a reservation is Cancelled exactly when it has the id or was Cancelled already; a reservation without the id keeps its status |
| Lifecycle.Cancel | hotel-reservation-db/frontend/app.py:243-254 | fails exactly when the database raises, and then leaves the store unchanged; on success only the status of reservations with the id changes, and links, rooms and guests are untouched |
| Lifecycle.CancelIdempotent | hotel-reservation-db/frontend/app.py:246-248 | a second cancel of the same reservation succeeds and changes nothing |
| Lifecycle.CancelKeepsInvariants | hotel-reservation-db/frontend/app.py:246-249 | cancelling keeps the keys and the no-double-booking invariant |
| Lifecycle.CancelFreesRoom | hotel-reservation-db/frontend/app.py:246-248 | after a cancel, a room is free for a stay exactly when nothing but the cancelled reservation blocked it |
| Lifecycle.BookThenCancelRestoresSearch | hotel-reservation-db/frontend/app.py:194-248 | booking and then cancelling the new reservation leaves every search returning what it returned before the booking |
| Lifecycle.CurrentReservations | hotel-reservation-db/frontend/app.py:47 | lists Confirmed and Completed reservations, each as often as stored, and no Cancelled one |
| Lifecycle.CancelRemovesFromListing | hotel-reservation-db/frontend/app.py:47 | a cancelled reservation leaves the listing, and every other listed reservation stays |
| Guests.Register | hotel-reservation-db/frontend/app.py:90-110 | refuses exactly when a required field is empty; fails on a duplicate e-mail exactly when the fields are filled and the e-mail is taken; fails otherwise only on a database fault; every failure leaves the store unchanged; success appends exactly one guest with a fresh id |
| Guests.RegisterKeepsWellFormed | hotel-reservation-db/frontend/app.py:94-107 | registration keeps guest ids and e-mails unique and every other key intact |
| Guests.DuplicateRegistrationRefused | hotel-reservation-db/frontend/app.py:105-107 | after a successful registration, a second one with the same e-mail is refused and the guest count stays the same |

## Left out

- Streamlit UI (tabs, forms, metrics, messages, balloons, reruns) and pandas
  data frames: display only.
- Connection handling and the SQL text. The store is a value, and the
  schema's constraints appear as `WellFormed`. The schema itself is not part of
  this model, so its unique-email constraint and foreign keys are assumed.
- The room-type join. Each room carries its room type, so the inner join never
  drops a room.
- Concurrency and interleaving of users. No-double-booking is proved only for
  a booking made from a search on the same, unchanged store.
- The offer being consumed on success: after a successful booking the page
  deletes the offer, the dates and the guest from its session state
  (hotel-reservation-db/frontend/app.py:213-216). Here the offer is a value the caller passes, so nothing
  stops the same offer from being passed twice. Such a second booking
  corresponds to a second session holding an equal offer.
- Read-only listings of rooms and guests, and the ordering and guest and room
  aggregation of the reservations listing. Only the listing's status filter is
  modelled.
- `float(total)`: amounts are exact integers, not floating point.
- Other causes of database errors are not modelled by name: a foreign key
  violated by a guest id that no longer exists, connectivity, or a
  serialization failure. Each is a fault parameter.
- The guest join of the reservations listing is assumed never to drop a row,
  because every reservation's guest exists. `WellFormed` carries no
  reservation-to-guest key, so `Lifecycle.CurrentReservations` also lists a
  reservation whose guest is missing.
- Guests.Register: any integrity violation on the guests insert is reported
  by the page as a duplicate e-mail. This model reports `DuplicateEmail`
  only for a taken e-mail, and files every other violation under the fault
  parameter as `DatabaseError`. Both roll back, so the store is the same.
- SERIAL sequence gaps after a rollback: fresh ids are only required to be
  unused.
- RoomOrder.SortByNumber: orders room numbers by code point (C collation).
  The database's locale collation is not modelled. Ties among equal room
  numbers may come out in any order in the database, and this model fixes one.
- SQL `NOT IN` returns nothing when the sub-query yields a NULL room id. Links
  here always carry a room id.
- Session state left over from an earlier search when a later search is
  refused or finds nothing. The model passes the offer explicitly, so which
  offer a booking uses is the caller's choice.
- The `Completed` status is never set by the application. It appears only as
  a status that neither blocks rooms nor is hidden from the listing.
