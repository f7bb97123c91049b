/** The document store: one collection per model, each a sequence in natural (insertion) order,
    and the counter from which new document identifiers are drawn. The unique indexes of the
    schemas (room number, guest e-mail, user e-mail) and the uniqueness of identifiers are the
    store's invariant. */
module Store {
  import opened Common
  import opened Models
  import opened Query

  function RoomId(r: Room): Id { r.id }
  function RoomNumber(r: Room): int { r.number }
  function GuestId(g: Guest): Id { g.id }
  function GuestEmail(g: Guest): string { g.email }
  function ReservationId(r: Reservation): Id { r.id }
  function PaymentId(p: Payment): Id { p.id }
  function UserId(u: User): Id { u.id }
  function UserEmail(u: User): string { u.email }

  /** Rooms: unique identifiers below `nextId` and unique room numbers. */
  predicate RoomsValid(rooms: seq<Room>, nextId: Id) {
    Distinct(rooms, RoomId) && Distinct(rooms, RoomNumber) && forall k :: 0 <= k < |rooms| ==> rooms[k].id < nextId
  }

  /** Guests: unique identifiers below `nextId` and unique e-mail addresses. */
  predicate GuestsValid(guests: seq<Guest>, nextId: Id) {
    Distinct(guests, GuestId) && Distinct(guests, GuestEmail) && forall k :: 0 <= k < |guests| ==> guests[k].id < nextId
  }

  /** Reservations and payments: unique identifiers below `nextId`, which is also above every
      reservation a payment refers to. */
  predicate LedgerIdsValid(reservations: seq<Reservation>, payments: seq<Payment>, nextId: Id) {
    && Distinct(reservations, ReservationId) && Distinct(payments, PaymentId)
    && (forall k :: 0 <= k < |reservations| ==> reservations[k].id < nextId)
    && (forall k :: 0 <= k < |payments| ==> payments[k].id < nextId && payments[k].reservation < nextId)
  }

  /** Users: unique identifiers below `nextId` and unique e-mail addresses. */
  predicate UsersValid(users: seq<User>, nextId: Id) {
    Distinct(users, UserId) && Distinct(users, UserEmail) && forall k :: 0 <= k < |users| ==> users[k].id < nextId
  }

  /** Drawing identifiers keeps rooms, guests and users valid: their identifiers stay below. */
  lemma ValidAsIdsGrow(rooms: seq<Room>, guests: seq<Guest>, users: seq<User>, n: Id, m: Id)
    requires RoomsValid(rooms, n) && GuestsValid(guests, n) && UsersValid(users, n) && n <= m
    ensures RoomsValid(rooms, m) && GuestsValid(guests, m) && UsersValid(users, m)
  {
  }

  /** Appending a room with the next identifier and a number no room has keeps the rooms valid
      under the next counter. */
  lemma RoomsAppend(rooms: seq<Room>, r: Room, n: Id)
    requires RoomsValid(rooms, n) && r.id == n
    requires forall k :: 0 <= k < |rooms| ==> rooms[k].number != r.number
    ensures RoomsValid(rooms + [r], n + 1)
  {
    DistinctAppend(rooms, RoomId, r);
    DistinctAppend(rooms, RoomNumber, r);
  }

  /** Replacing a room by one with the same identifier and either the same number or one no other
      room has keeps the rooms valid. */
  lemma RoomsReplace(rooms: seq<Room>, i: nat, r: Room, n: Id)
    requires RoomsValid(rooms, n) && i < |rooms| && r.id == rooms[i].id
    requires r.number == rooms[i].number || forall k :: 0 <= k < |rooms| && k != i ==> rooms[k].number != r.number
    ensures RoomsValid(rooms[i := r], n)
  {
    DistinctReplace(rooms, RoomId, i, r);
    if r.number == rooms[i].number {
      DistinctReplace(rooms, RoomNumber, i, r);
    } else {
      DistinctReplaceFresh(rooms, RoomNumber, i, r);
    }
  }

  /** Removing a room keeps the rooms valid. */
  lemma RoomsRemove(rooms: seq<Room>, i: nat, n: Id)
    requires RoomsValid(rooms, n) && i < |rooms|
    ensures RoomsValid(rooms[..i] + rooms[i + 1..], n)
  {
    DistinctRemove(rooms, RoomId, i);
    DistinctRemove(rooms, RoomNumber, i);
  }

  /** Appending a guest with the next identifier and an e-mail no guest has keeps the guests valid
      under the next counter. */
  lemma GuestsAppend(guests: seq<Guest>, g: Guest, n: Id)
    requires GuestsValid(guests, n) && g.id == n
    requires forall k :: 0 <= k < |guests| ==> guests[k].email != g.email
    ensures GuestsValid(guests + [g], n + 1)
  {
    DistinctAppend(guests, GuestId, g);
    DistinctAppend(guests, GuestEmail, g);
  }

  /** Replacing a guest by one with the same identifier and either the same e-mail or one no other
      guest has keeps the guests valid. */
  lemma GuestsReplace(guests: seq<Guest>, i: nat, g: Guest, n: Id)
    requires GuestsValid(guests, n) && i < |guests| && g.id == guests[i].id
    requires g.email == guests[i].email || forall k :: 0 <= k < |guests| && k != i ==> guests[k].email != g.email
    ensures GuestsValid(guests[i := g], n)
  {
    DistinctReplace(guests, GuestId, i, g);
    if g.email == guests[i].email {
      DistinctReplace(guests, GuestEmail, i, g);
    } else {
      DistinctReplaceFresh(guests, GuestEmail, i, g);
    }
  }

  /** Removing a guest keeps the guests valid. */
  lemma GuestsRemove(guests: seq<Guest>, i: nat, n: Id)
    requires GuestsValid(guests, n) && i < |guests|
    ensures GuestsValid(guests[..i] + guests[i + 1..], n)
  {
    DistinctRemove(guests, GuestId, i);
    DistinctRemove(guests, GuestEmail, i);
  }

  /** Appending a user with the next identifier and an e-mail no user has keeps the users valid
      under the next counter. */
  lemma UsersAppend(users: seq<User>, u: User, n: Id)
    requires UsersValid(users, n) && u.id == n
    requires forall k :: 0 <= k < |users| ==> users[k].email != u.email
    ensures UsersValid(users + [u], n + 1)
  {
    DistinctAppend(users, UserId, u);
    DistinctAppend(users, UserEmail, u);
  }

  /** Drawing identifiers keeps the ledger's identifiers valid. */
  lemma LedgerIdsGrow(reservations: seq<Reservation>, payments: seq<Payment>, n: Id, m: Id)
    requires LedgerIdsValid(reservations, payments, n) && n <= m
    ensures LedgerIdsValid(reservations, payments, m)
  {
  }

  class Db {
    var rooms: seq<Room>
    var guests: seq<Guest>
    var reservations: seq<Reservation>
    var payments: seq<Payment>
    var users: seq<User>
    var nextId: Id

    /** Identifiers are unique within each collection and below `nextId`; the unique indexes hold;
        every payment refers to an identifier that has been handed out. */
    predicate Valid()
      reads this
    {
      && RoomsValid(rooms, nextId) && GuestsValid(guests, nextId)
      && LedgerIdsValid(reservations, payments, nextId) && UsersValid(users, nextId)
    }

    constructor ()
      ensures Valid()
      ensures rooms == [] && guests == [] && reservations == [] && payments == [] && users == []
    {
      rooms, guests, reservations, payments, users := [], [], [], [], [];
      nextId := 0;
    }
  }
}
