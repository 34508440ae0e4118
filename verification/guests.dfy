/** Guest registration: required fields first, then one insert that the
    unique-email constraint or any other database fault rolls back. */
module Guests {
  import opened Store

  /** Some guest already uses this e-mail address. */
  predicate EmailTaken(s: Store, email: string) {
    exists g :: g in s.guests && g.email == email
  }

  /** An empty optional address is stored as no address. */
  function StoredAddress(address: string): Option<string> {
    if |address| == 0 then None else Some(address)
  }

  /** Registration: every required field must be non-empty; the insert then
      fails on a taken e-mail (integrity error) or on a database fault, and
      either failure rolls back. */
  function Register(s: Store, firstName: string, lastName: string, email: string, phone: string,
                    address: string, fails: bool): (out: Outcome<nat>)
    ensures out.result == Err(MissingRequiredField) <==>
      |firstName| == 0 || |lastName| == 0 || |email| == 0 || |phone| == 0
    ensures out.result == Err(DuplicateEmail) <==>
      |firstName| > 0 && |lastName| > 0 && |email| > 0 && |phone| > 0 && EmailTaken(s, email)
    ensures out.result == Err(DatabaseError) <==>
      |firstName| > 0 && |lastName| > 0 && |email| > 0 && |phone| > 0 && !EmailTaken(s, email) && fails
    ensures out.result.Ok? <==>
      |firstName| > 0 && |lastName| > 0 && |email| > 0 && |phone| > 0 && !EmailTaken(s, email) && !fails
    ensures out.result.Err? ==> out.store == s
    ensures out.result.Ok? ==>
      var id := out.result.value;
      && (forall g :: g in s.guests ==> g.id != id)
      && out.store.guests == s.guests + [Guest(id, firstName, lastName, email, phone, StoredAddress(address))]
      && out.store.rooms == s.rooms
      && out.store.reservations == s.reservations
      && out.store.links == s.links
  {
    if |firstName| == 0 || |lastName| == 0 || |email| == 0 || |phone| == 0 then
      Outcome(s, Err(MissingRequiredField))
    else
      var tx := Begin(s);
      var id := FreshGuestId(tx.working);
      var guest := Guest(id, firstName, lastName, email, phone, StoredAddress(address));
      if EmailTaken(tx.working, email) then Outcome(Rollback(tx), Err(DuplicateEmail))
      else
        var tx1 := tx.(working := tx.working.(guests := tx.working.guests + [guest]));
        if fails then Outcome(Rollback(tx1), Err(DatabaseError))
        else Outcome(Commit(tx1), Ok(id))
  }

  /** Registration keeps guest ids and e-mails unique and every other key. */
  lemma RegisterKeepsWellFormed(s: Store, firstName: string, lastName: string, email: string,
                                phone: string, address: string, fails: bool)
    requires WellFormed(s)
    ensures WellFormed(Register(s, firstName, lastName, email, phone, address, fails).store)
  {
    var out := Register(s, firstName, lastName, email, phone, address, fails);
    if out.result.Ok? {
      var s' := out.store;
      forall i, j | 0 <= i < j < |s'.guests|
        ensures s'.guests[i].id != s'.guests[j].id && s'.guests[i].email != s'.guests[j].email
      {
        if j == |s.guests| {
          assert s'.guests[i] == s.guests[i] && s.guests[i] in s.guests;
        }
      }
      assert ReservationIds(s') == ReservationIds(s) && RoomIds(s') == RoomIds(s);
    }
  }

  /** A second registration with an e-mail already in use is refused and
      adds no guest. */
  lemma DuplicateRegistrationRefused(s: Store, first1: string, last1: string, first2: string,
                                     last2: string, email: string, phone1: string, phone2: string,
                                     address1: string, address2: string, fails: bool)
    requires Register(s, first1, last1, email, phone1, address1, false).result.Ok?
    requires |first2| > 0 && |last2| > 0 && |phone2| > 0
    ensures var s1 := Register(s, first1, last1, email, phone1, address1, false).store;
            var second := Register(s1, first2, last2, email, phone2, address2, fails);
            && |s1.guests| == |s.guests| + 1
            && second.result == Err(DuplicateEmail)
            && |second.store.guests| == |s1.guests|
  {
  }
}
