/** The reservation controller: booking a room for a stay (dates, room, and the conflict rule against
    active reservations of the same room), overwriting a reservation's status, the rooms free and
    taken today, and the reservations of one room. */
module Reservations {
  import opened Common
  import opened Models
  import opened Query
  import opened Store
  import Payments

  const MsgBadDates: string := "Fechas de entrada y salida inválidas."
  const MsgNoRoom: string := "La habitación no existe."
  const MsgConflict: string := "La habitación ya está reservada en esas fechas."
  const MsgCreated: string := "Reservación creada exitosamente"
  const MsgInternal: string := "Error interno del servidor"
  const MsgBadStatus: string := "Estado inválido."
  const MsgNotFound: string := "Reservación no encontrada."
  const MsgStatusUpdated: string := "Estado de la reservación actualizado correctamente."

  datatype ReservationReply =
    | Message(text: string)
    | Saved(message: string, reservation: Reservation)
    | Availability(availableRooms: seq<Room>, reservedRooms: seq<Reservation>)
    | RoomReservations(reservations: seq<Reservation>)

  // ---------------------------------------------------------------------------
  // The booking conflict rule

  /** Pending and confirmed reservations hold their room; the others do not. */
  predicate IsActive(r: Reservation) {
    r.status == Pending || r.status == Confirmed
  }

  /** The stay `[checkIn, checkOut)` shares an instant with the reservation's stay. */
  predicate Overlaps(r: Reservation, checkIn: int, checkOut: int) {
    r.checkIn < checkOut && r.checkOut > checkIn
  }

  /** The conflict query: an active reservation of the room whose stay overlaps the new one. */
  predicate ConflictsWith(r: Reservation, roomNumber: int, checkIn: int, checkOut: int) {
    r.roomNumber == roomNumber && Overlaps(r, checkIn, checkOut) && IsActive(r)
  }

  /** The invariant the conflict rule is meant to keep: no two active reservations of one room
      overlap. */
  predicate NoDoubleBooking(rs: seq<Reservation>) {
    forall i, j :: 0 <= i < j < |rs| && IsActive(rs[i]) && IsActive(rs[j]) && rs[i].roomNumber == rs[j].roomNumber
      ==> !Overlaps(rs[i], rs[j].checkIn, rs[j].checkOut)
  }

  /** Overlap is symmetric, so the invariant does not depend on which of two reservations came first. */
  lemma OverlapsSymmetric(a: Reservation, b: Reservation)
    ensures Overlaps(a, b.checkIn, b.checkOut) <==> Overlaps(b, a.checkIn, a.checkOut)
  {
  }

  /** A stay that begins when another ends, or one that meets only a cancelled or completed
      reservation, is not a conflict. */
  lemma BackToBackIsNoConflict(r: Reservation, roomNumber: int, checkIn: int, checkOut: int)
    requires r.checkOut == checkIn || r.checkIn == checkOut || r.status == Cancelled || r.status == Completed
    ensures !ConflictsWith(r, roomNumber, checkIn, checkOut)
  {
  }

  /** `Reservation.findOne` with the conflict filter. */
  function FindConflict(rs: seq<Reservation>, roomNumber: int, checkIn: int, checkOut: int): (r: Option<nat>)
    ensures r.Some? ==> r.value < |rs| && ConflictsWith(rs[r.value], roomNumber, checkIn, checkOut)
    ensures r.None? <==> forall k :: 0 <= k < |rs| ==> !ConflictsWith(rs[k], roomNumber, checkIn, checkOut)
  {
    IndexOf(rs, (x: Reservation) => ConflictsWith(x, roomNumber, checkIn, checkOut))
  }

  // ---------------------------------------------------------------------------
  // Creating a reservation

  /** The body of `POST /reservations`. A date is `None` when `new Date(value)` gives an invalid
      date, which is what happens to an absent one. */
  datatype BookingRequest = BookingRequest(
    roomNumber: int,
    guestName: string,
    guestEmail: string,
    guestPhone: string,
    checkIn: Option<int>,
    checkOut: Option<int>)

  /** The outcome of a request on the rooms and reservations of the store: the response, the
      reservations afterwards, and the next identifier still free. */
  datatype Outcome = Outcome(response: Response<ReservationReply>, reservations: seq<Reservation>, nextId: Id)

  /** The response and the reservations afterwards, for a request that creates no document. */
  datatype Change = Change(response: Response<ReservationReply>, reservations: seq<Reservation>)

  function HasRoom(rooms: seq<Room>, number: int): bool {
    IndexOf(rooms, (r: Room) => r.number == number).Some?
  }

  lemma HasRoomMeans(rooms: seq<Room>, number: int)
    ensures HasRoom(rooms, number) <==> exists k :: 0 <= k < |rooms| && rooms[k].number == number
  {
  }

  /** `createReservation` on the values of the store. The date check compares only two valid dates
      (a comparison with an invalid date is false); an invalid date left after it makes the conflict
      query fail to cast, and the handler answers 500. */
  function Book(rooms: seq<Room>, rs: seq<Reservation>, id: Id, req: BookingRequest): (out: Outcome)
    ensures out.response.status == 201 || out.response.status == 400 || out.response.status == 404 || out.response.status == 409 || out.response.status == 500
    ensures out.response.status != 201 ==> out.reservations == rs && out.nextId == id
    ensures out.response.status == 201 ==>
      && out.nextId == id + 1 && |out.reservations| == |rs| + 1 && out.reservations[..|rs|] == rs
      && out.reservations[|rs|].id == id && out.reservations[|rs|].status == Pending
  {
    if req.checkIn.Some? && req.checkOut.Some? && req.checkIn.value >= req.checkOut.value then
      Outcome(Response(400, Message(MsgBadDates)), rs, id)
    else if !HasRoom(rooms, req.roomNumber) then
      Outcome(Response(404, Message(MsgNoRoom)), rs, id)
    else if req.checkIn.None? || req.checkOut.None? then
      Outcome(Response(500, Message(MsgInternal)), rs, id)
    else if FindConflict(rs, req.roomNumber, req.checkIn.value, req.checkOut.value).Some? then
      Outcome(Response(409, Message(MsgConflict)), rs, id)
    else
      var r := NewReservation(id, req.roomNumber, req.guestName, req.guestEmail, req.guestPhone,
                              req.checkIn.value, req.checkOut.value, None, None, Pending);
      Outcome(Response(201, Saved(MsgCreated, r)), rs + [r], id + 1)
  }

  /** The status of every outcome of a booking, and the condition for each, in the handler's order. */
  lemma BookResponses(rooms: seq<Room>, rs: seq<Reservation>, id: Id, req: BookingRequest)
    ensures var out := Book(rooms, rs, id, req);
      && (out.response.status == 400 <==> req.checkIn.Some? && req.checkOut.Some? && req.checkIn.value >= req.checkOut.value)
      && (out.response.status == 404 <==>
            !(req.checkIn.Some? && req.checkOut.Some? && req.checkIn.value >= req.checkOut.value)
            && forall k :: 0 <= k < |rooms| ==> rooms[k].number != req.roomNumber)
      && (out.response.status == 409 <==>
            && req.checkIn.Some? && req.checkOut.Some? && req.checkIn.value < req.checkOut.value
            && HasRoom(rooms, req.roomNumber)
            && exists k :: 0 <= k < |rs| && ConflictsWith(rs[k], req.roomNumber, req.checkIn.value, req.checkOut.value))
      && (out.response.status == 201 <==>
            && req.checkIn.Some? && req.checkOut.Some? && req.checkIn.value < req.checkOut.value
            && HasRoom(rooms, req.roomNumber)
            && forall k :: 0 <= k < |rs| ==> !ConflictsWith(rs[k], req.roomNumber, req.checkIn.value, req.checkOut.value))
      && (out.response.status != 201 ==> out.reservations == rs && out.nextId == id)
  {
    HasRoomMeans(rooms, req.roomNumber);
  }

  /** A successful booking appends exactly one reservation: pending, for the requested room and
      dates, with the next identifier, nothing paid, and no price. */
  lemma BookAppendsPending(rooms: seq<Room>, rs: seq<Reservation>, id: Id, req: BookingRequest)
    requires Book(rooms, rs, id, req).response.status == 201
    ensures var out := Book(rooms, rs, id, req);
      && |out.reservations| == |rs| + 1 && out.reservations[..|rs|] == rs && out.nextId == id + 1
      && var r := out.reservations[|rs|];
      && out.response.body == Saved(MsgCreated, r)
      && r.id == id && r.status == Pending && r.roomNumber == req.roomNumber
      && Some(r.checkIn) == req.checkIn && Some(r.checkOut) == req.checkOut && r.checkIn < r.checkOut
      && r.guestName == req.guestName && r.guestEmail == req.guestEmail && r.guestPhone == req.guestPhone
      && r.totalPaid == 0 && r.totalPrice.None? && r.balanceDue.None?
  {
    var out := Book(rooms, rs, id, req);
    assert out.reservations[..|rs|] == rs;
  }

  /** The conflict rule keeps the invariant: a booking never makes two active reservations of one
      room overlap. */
  lemma BookKeepsNoDoubleBooking(rooms: seq<Room>, rs: seq<Reservation>, id: Id, req: BookingRequest)
    requires NoDoubleBooking(rs)
    ensures NoDoubleBooking(Book(rooms, rs, id, req).reservations)
  {
    var out := Book(rooms, rs, id, req);
    if out.response.status == 201 {
      var rs' := out.reservations;
      var n := |rs|;
      forall i, j | 0 <= i < j < |rs'| && IsActive(rs'[i]) && IsActive(rs'[j]) && rs'[i].roomNumber == rs'[j].roomNumber
        ensures !Overlaps(rs'[i], rs'[j].checkIn, rs'[j].checkOut)
      {
        if j == n {
          assert !ConflictsWith(rs[i], req.roomNumber, req.checkIn.value, req.checkOut.value);
        } else {
          assert rs'[i] == rs[i] && rs'[j] == rs[j];
        }
      }
    }
  }

  /** The reservation a booking creates is not a valid document of the reservation schema: the
      handler never sets `numberOfGuests` or `totalPrice`, which the schema requires. */
  lemma BookedReservationMissesRequiredFields(rooms: seq<Room>, rs: seq<Reservation>, id: Id, req: BookingRequest)
    requires Book(rooms, rs, id, req).response.status == 201
    ensures !ReservationSchemaValid(Book(rooms, rs, id, req).reservations[|rs|])
  {
    var out := Book(rooms, rs, id, req);
    var r := NewReservation(id, req.roomNumber, req.guestName, req.guestEmail, req.guestPhone,
                            req.checkIn.value, req.checkOut.value, None, None, Pending);
    assert out.reservations == rs + [r];
    assert out.reservations[|rs|] == r;
    assert r.totalPrice.None?;
  }

  /** A booking keeps the store's identifier invariant. */
  lemma BookKeepsIds(rooms: seq<Room>, rs: seq<Reservation>, ps: seq<Payment>, id: Id, req: BookingRequest)
    requires LedgerIdsValid(rs, ps, id)
    ensures var out := Book(rooms, rs, id, req);
      LedgerIdsValid(out.reservations, ps, out.nextId) && id <= out.nextId
  {
    var out := Book(rooms, rs, id, req);
    if out.response.status == 201 {
      DistinctAppend(rs, ReservationId, out.reservations[|rs|]);
      assert out.reservations == rs + [out.reservations[|rs|]];
    }
  }

  /** No payment refers to a reservation that does not exist yet, so a new reservation, with nothing
      paid, agrees with its payments. */
  lemma BookKeepsLedger(rooms: seq<Room>, rs: seq<Reservation>, ps: seq<Payment>, id: Id, req: BookingRequest)
    requires LedgerIdsValid(rs, ps, id) && Payments.LedgerMatchesPayments(rs, ps)
    ensures Payments.LedgerMatchesPayments(Book(rooms, rs, id, req).reservations, ps)
  {
    var out := Book(rooms, rs, id, req);
    if out.response.status == 201 {
      Payments.PaidForNone(ps, id);
    }
  }

  /** `POST /reservations` on the store. */
  method CreateReservation(db: Db, req: BookingRequest) returns (res: Response<ReservationReply>)
    requires db.Valid()
    modifies db
    ensures db.Valid()
    ensures db.rooms == old(db.rooms) && db.guests == old(db.guests) && db.payments == old(db.payments)
    ensures db.users == old(db.users)
    ensures var out := Book(old(db.rooms), old(db.reservations), old(db.nextId), req);
      res == out.response && db.reservations == out.reservations && db.nextId == out.nextId
    ensures NoDoubleBooking(old(db.reservations)) ==> NoDoubleBooking(db.reservations)
    ensures Payments.LedgerMatchesPayments(old(db.reservations), db.payments) ==>
      Payments.LedgerMatchesPayments(db.reservations, db.payments)
  {
    var out := Book(db.rooms, db.reservations, db.nextId, req);
    BookKeepsIds(db.rooms, db.reservations, db.payments, db.nextId, req);
    ValidAsIdsGrow(db.rooms, db.guests, db.users, db.nextId, out.nextId);
    if NoDoubleBooking(db.reservations) {
      BookKeepsNoDoubleBooking(db.rooms, db.reservations, db.nextId, req);
    }
    if Payments.LedgerMatchesPayments(db.reservations, db.payments) {
      BookKeepsLedger(db.rooms, db.reservations, db.payments, db.nextId, req);
    }
    db.reservations, db.nextId := out.reservations, out.nextId;
    res := out.response;
  }

  // ---------------------------------------------------------------------------
  // Overwriting the status

  /** The statuses the handler accepts: exactly these four strings (`checked-in` and `checked-out`
      are refused, and so is anything that is not a string). */
  function RequestedStatus(v: JsonValue): (r: Option<ReservationStatus>)
    ensures r.Some? <==> v.Text? && v.s in ["pending", "confirmed", "cancelled", "completed"]
    ensures r.Some? ==> StatusName(r.value) == v.s
  {
    if v.Text? && v.s == "pending" then Some(Pending)
    else if v.Text? && v.s == "confirmed" then Some(Confirmed)
    else if v.Text? && v.s == "cancelled" then Some(Cancelled)
    else if v.Text? && v.s == "completed" then Some(Completed)
    else None
  }

  function FindById(rs: seq<Reservation>, id: Id): (r: Option<nat>)
    ensures r.Some? ==> r.value < |rs| && rs[r.value].id == id
    ensures r.None? <==> forall k :: 0 <= k < |rs| ==> rs[k].id != id
  {
    IndexOf(rs, (x: Reservation) => x.id == id)
  }

  /** `updateReservationStatus` on the values of the store: the status is checked before the
      reservation is looked up, and then written with no check of the transition or of conflicts. */
  function SetStatus(rs: seq<Reservation>, id: Id, status: JsonValue): (out: Change)
    ensures out.response.status == 200 || out.response.status == 400 || out.response.status == 404
    ensures out.response.status != 200 ==> out.reservations == rs
    ensures |out.reservations| == |rs|
  {
    match RequestedStatus(status)
    case None => Change(Response(400, Message(MsgBadStatus)), rs)
    case Some(s) =>
      match FindById(rs, id)
      case None => Change(Response(404, Message(MsgNotFound)), rs)
      case Some(i) =>
        var updated := rs[i].(status := s);
        Change(Response(200, Saved(MsgStatusUpdated, updated)), rs[i := updated])
  }

  /** The three answers of the status update, and that the only change is the status of the one
      reservation named. */
  lemma SetStatusOutcome(rs: seq<Reservation>, id: Id, status: JsonValue)
    ensures var out := SetStatus(rs, id, status);
      && (out.response.status == 400 <==> RequestedStatus(status).None?)
      && (out.response.status == 404 <==> RequestedStatus(status).Some? && forall k :: 0 <= k < |rs| ==> rs[k].id != id)
      && (out.response.status != 200 ==> out.reservations == rs)
      && |out.reservations| == |rs|
      && (out.response.status == 200 ==>
            exists i :: 0 <= i < |rs| && rs[i].id == id
              && out.reservations[i] == rs[i].(status := RequestedStatus(status).value)
              && (forall k :: 0 <= k < |rs| && k != i ==> out.reservations[k] == rs[k]))
  {
    var out := SetStatus(rs, id, status);
    if out.response.status == 200 {
      var i := FindById(rs, id).value;
      assert out.reservations[i] == rs[i].(status := RequestedStatus(status).value);
    }
  }

  /** Cancelling or completing a reservation, or changing the status of one already active to
      another active one, keeps the conflict invariant. */
  lemma SetStatusDeactivatingKeepsNoDoubleBooking(rs: seq<Reservation>, id: Id, status: JsonValue)
    requires NoDoubleBooking(rs)
    requires status == Text("cancelled") || status == Text("completed")
      || ((status == Text("pending") || status == Text("confirmed")) && forall k :: 0 <= k < |rs| && rs[k].id == id ==> IsActive(rs[k]))
    ensures NoDoubleBooking(SetStatus(rs, id, status).reservations)
  {
    var out := SetStatus(rs, id, status);
    if out.response.status == 200 {
      var i := FindById(rs, id).value;
      var rs' := out.reservations;
      forall a, b | 0 <= a < b < |rs'| && IsActive(rs'[a]) && IsActive(rs'[b]) && rs'[a].roomNumber == rs'[b].roomNumber
        ensures !Overlaps(rs'[a], rs'[b].checkIn, rs'[b].checkOut)
      {
        assert IsActive(rs[a]) && IsActive(rs[b]);
      }
    }
  }

  /** Reactivating a cancelled reservation can break the invariant: the handler does not look for
      conflicts. Room 101 is booked for days 0-2 (pending) and was also booked, then cancelled, for
      days 1-3; setting the second back to `pending` leaves two overlapping active stays. */
  lemma SetStatusCanDoubleBook()
    ensures var a := Reservation(1, None, 101, "A", "a@x.mx", "1", 0, 2 * MsPerDay, None, None, 0, None, "", Pending);
      var b := Reservation(2, None, 101, "B", "b@x.mx", "2", MsPerDay, 3 * MsPerDay, None, None, 0, None, "", Cancelled);
      && NoDoubleBooking([a, b])
      && SetStatus([a, b], 2, Text("pending")).response.status == 200
      && !NoDoubleBooking(SetStatus([a, b], 2, Text("pending")).reservations)
  {
    var a := Reservation(1, None, 101, "A", "a@x.mx", "1", 0, 2 * MsPerDay, None, None, 0, None, "", Pending);
    var b := Reservation(2, None, 101, "B", "b@x.mx", "2", MsPerDay, 3 * MsPerDay, None, None, 0, None, "", Cancelled);
    assert [a, b][1].id == 2 && [a, b][0].id != 2;
    assert FindById([a, b], 2) == Some(1);
    var rs' := SetStatus([a, b], 2, Text("pending")).reservations;
    assert rs'[0] == a && rs'[1] == b.(status := Pending);
  }

  /** `PATCH /reservations/:id/status` on the store. */
  method UpdateReservationStatus(db: Db, id: Id, status: JsonValue) returns (res: Response<ReservationReply>)
    requires db.Valid()
    modifies db`reservations
    ensures db.Valid()
    ensures var out := SetStatus(old(db.reservations), id, status);
      res == out.response && db.reservations == out.reservations
  {
    var out := SetStatus(db.reservations, id, status);
    SetStatusKeepsIds(db.reservations, db.payments, db.nextId, id, status);
    db.reservations := out.reservations;
    res := out.response;
  }

  /** A status update keeps identifiers, so it keeps the store's identifier invariant. */
  lemma SetStatusKeepsIds(rs: seq<Reservation>, ps: seq<Payment>, nextId: Id, id: Id, status: JsonValue)
    requires LedgerIdsValid(rs, ps, nextId)
    ensures LedgerIdsValid(SetStatus(rs, id, status).reservations, ps, nextId)
  {
    var out := SetStatus(rs, id, status);
    if out.response.status == 200 {
      var i := FindById(rs, id).value;
      DistinctReplace(rs, ReservationId, i, rs[i].(status := RequestedStatus(status).value));
    }
  }

  // ---------------------------------------------------------------------------
  // Today's rooms

  /** An active reservation whose stay meets the day that begins at `todayStart`. */
  predicate HoldsRoomToday(r: Reservation, todayStart: int) {
    IsActive(r) && Overlaps(r, todayStart, todayStart + MsPerDay)
  }

  function HoldsToday(todayStart: int): Reservation -> bool {
    (r: Reservation) => HoldsRoomToday(r, todayStart)
  }

  function RoomNumbers(rs: seq<Reservation>): (r: seq<int>)
    ensures |r| == |rs| && forall k :: 0 <= k < |rs| ==> r[k] == rs[k].roomNumber
  {
    if rs == [] then [] else [rs[0].roomNumber] + RoomNumbers(rs[1..])
  }

  /** `getAvailableRooms`, with the local midnight that starts today as a parameter: the
      reservations that hold a room at some instant of today, and the rooms none of them holds. */
  function GetAvailableRooms(rooms: seq<Room>, rs: seq<Reservation>, todayStart: int): (res: Response<ReservationReply>)
    ensures res.status == 200 && res.body.Availability?
    ensures forall r :: r in res.body.reservedRooms <==> r in rs && HoldsRoomToday(r, todayStart)
    ensures forall room :: room in res.body.availableRooms <==>
      room in rooms && forall r :: r in rs && HoldsRoomToday(r, todayStart) ==> r.roomNumber != room.number
    ensures forall room, r :: room in res.body.availableRooms && r in res.body.reservedRooms ==> room.number != r.roomNumber
  {
    var reserved := Filter(rs, HoldsToday(todayStart));
    var numbers := RoomNumbers(reserved);
    var available := Filter(rooms, (room: Room) => room.number !in numbers);
    forall r | r in reserved ensures r in rs && HoldsRoomToday(r, todayStart) {
      FilterMembers(rs, HoldsToday(todayStart), r);
    }
    forall room | room in available ensures room in rooms && room.number !in numbers {
      FilterMembers(rooms, (room: Room) => room.number !in numbers, room);
    }
    forall room ensures room in available <==>
      room in rooms && forall r :: r in rs && HoldsRoomToday(r, todayStart) ==> r.roomNumber != room.number
    {
      FilterMembers(rooms, (room: Room) => room.number !in numbers, room);
      if room in rooms && room.number in numbers {
        var k :| 0 <= k < |numbers| && numbers[k] == room.number;
        assert reserved[k] in reserved;
      }
      if room in rooms && room.number !in numbers {
        forall r | r in rs && HoldsRoomToday(r, todayStart) ensures r.roomNumber != room.number {
          FilterMembers(rs, HoldsToday(todayStart), r);
          var k :| 0 <= k < |reserved| && reserved[k] == r;
          assert numbers[k] == r.roomNumber;
        }
      }
    }
    Response(200, Availability(available, reserved))
  }

  function CheckInKey(r: Reservation): SortKey { IntKey(r.checkIn) }

  /** `getReservationsByRoom`: the room's reservations, ordered by check-in. */
  function GetReservationsByRoom(rs: seq<Reservation>, roomNumber: int): (res: Response<ReservationReply>)
    ensures res.status == 200 && res.body.RoomReservations?
    ensures multiset(res.body.reservations) == multiset(Filter(rs, (r: Reservation) => r.roomNumber == roomNumber))
    ensures forall r :: r in res.body.reservations <==> r in rs && r.roomNumber == roomNumber
    ensures SortedBy(res.body.reservations, CheckInKey, false)
  {
    var mine := Filter(rs, (r: Reservation) => r.roomNumber == roomNumber);
    var sorted := Sort(mine, CheckInKey, false);
    forall r ensures r in sorted <==> r in rs && r.roomNumber == roomNumber {
      FilterMembers(rs, (r: Reservation) => r.roomNumber == roomNumber, r);
      assert r in sorted <==> r in multiset(sorted);
      assert r in mine <==> r in multiset(mine);
    }
    Response(200, RoomReservations(sorted))
  }
}
