/** The payment controller: registering a payment against a reservation (an ordered chain of
    checks, then the ledger update of the reservation), listing payments with filters, order and
    paging, and the payments of one reservation with their total. */
module Payments {
  import opened Common
  import opened Strings
  import opened Models
  import opened Query
  import opened Store

  const MsgMissingReservation: string := "El campo reservationId es obligatorio."
  const MsgBadAmount: string := "El monto del pago debe ser un número mayor a cero."
  const MsgBadMethod: string := "El método de pago debe ser uno de: efectivo, tdd, tdc."
  const MsgReservationNotFound: string := "Reservación no encontrada."
  const MsgCancelled: string := "No se pueden registrar pagos para reservaciones canceladas."
  const MsgBadPaidAt: string := "La fecha del pago proporcionada no es válida."
  const MsgRegistered: string := "Pago registrado correctamente"
  const MsgInternal: string := "Error interno del servidor."
  const MsgBadMethodFilter: string := "Método de pago inválido. Use: efectivo, tdd, tdc."
  const MsgBadStartDate: string := "startDate inválida."
  const MsgBadEndDate: string := "endDate inválida."
  const MsgMissingReservationParam: string := "El parámetro reservationId es obligatorio."
  const MsgPaymentNotFound: string := "Pago no encontrado."

  function MsgExceedsBalance(balance: int): string {
    "El monto del pago excede el saldo pendiente (" + IntToDecimal(balance) + ")."
  }

  datatype PaymentReply =
    | Message(text: string)
    | Registered(message: string, payment: Payment, reservation: Reservation)
    | PaymentList(count: nat, total: nat, totalPages: int, page: int, totalAmount: int, results: seq<Payment>)
    | ReservationPayments(count: nat, totalAmount: int, results: seq<Payment>)
    | Found(payment: Payment)

  /** A client date: null when absent or not a valid date, otherwise the instant. */
  function ParseDate(value: DateInput): (r: Option<int>)
    ensures r.Some? <==> value.ValidDate?
    ensures r.Some? ==> r.value == value.ms
  {
    match value
    case ValidDate(ms) => Some(ms)
    case _ => None
  }

  // ---------------------------------------------------------------------------
  // Registering a payment

  datatype PaymentRequest = PaymentRequest(
    reservationId: Option<Id>,
    amount: JsonValue,
    paymentMethod: JsonValue,
    reference: Option<string>,
    notes: Option<string>,
    paidAt: DateInput,
    recordedBy: Option<string>)

  /** `method?.toLowerCase()` followed by the membership check: a string whose lower-cased form is
      an allowed method; absent or null is rejected; a number or boolean has no `toLowerCase` and
      the call throws. */
  datatype MethodCheck = MethodOk(m: PaymentMethod) | MethodRejected | MethodThrows

  function CheckMethod(v: JsonValue): (r: MethodCheck)
    ensures r.MethodOk? <==> v.Text? && ParsePaymentMethod(ToLower(v.s)).Some?
    ensures r.MethodOk? ==> PaymentMethodName(r.m) == ToLower(v.s)
    ensures r.MethodThrows? <==> v.Bool? || v.Number?
  {
    match v
    case Text(s) =>
      var lowered := ToLower(s);
      if lowered == "" then MethodRejected
      else (match ParsePaymentMethod(lowered)
        case Some(m) => MethodOk(m)
        case None => MethodRejected)
    case Bool(_) => MethodThrows
    case Number(_) => MethodThrows
    case _ => MethodRejected
  }

  predicate PositiveAmount(v: JsonValue) {
    v.Number? && v.n > 0
  }

  /** The balance check: only a defined balance can be exceeded. */
  predicate ExceedsBalance(r: Reservation, amount: int) {
    r.balanceDue.Some? && amount > r.balanceDue.value
  }

  datatype Verdict = Accept(paymentMethod: PaymentMethod, paidAt: int) | Reject(status: int, message: string)

  /** The checks of `registerPayment`, in the order the handler makes them; `found` is the reservation
      the identifier names, if any. The first failing check decides the response. */
  function CheckPayment(req: PaymentRequest, found: Option<Reservation>, now: int): (r: Verdict)
    ensures req.reservationId.None? ==> r == Reject(400, MsgMissingReservation)
    ensures req.reservationId.Some? && !PositiveAmount(req.amount) ==> r == Reject(400, MsgBadAmount)
    ensures req.reservationId.Some? && PositiveAmount(req.amount) ==>
      (CheckMethod(req.paymentMethod).MethodRejected? ==> r == Reject(400, MsgBadMethod))
      && (CheckMethod(req.paymentMethod).MethodThrows? ==> r == Reject(500, MsgInternal))
    ensures req.reservationId.Some? && PositiveAmount(req.amount) && CheckMethod(req.paymentMethod).MethodOk? ==>
      (found.None? ==> r == Reject(404, MsgReservationNotFound))
      && (found.Some? && found.value.status == Cancelled ==> r == Reject(400, MsgCancelled))
      && (found.Some? && found.value.status != Cancelled && ExceedsBalance(found.value, req.amount.n) ==>
            r == Reject(400, MsgExceedsBalance(found.value.balanceDue.value)))
    ensures r.Accept? <==>
      && req.reservationId.Some? && PositiveAmount(req.amount) && CheckMethod(req.paymentMethod).MethodOk?
      && found.Some? && found.value.status != Cancelled && !ExceedsBalance(found.value, req.amount.n)
      && !req.paidAt.InvalidDate?
    ensures r.Reject? ==> r.status == 400 || r.status == 404 || r.status == 500
    ensures r.Accept? ==> r.paymentMethod == CheckMethod(req.paymentMethod).m
    ensures r.Accept? ==> r.paidAt == (if req.paidAt.ValidDate? then req.paidAt.ms else now)
    ensures (&& req.reservationId.Some? && PositiveAmount(req.amount) && CheckMethod(req.paymentMethod).MethodOk?
             && found.Some? && found.value.status != Cancelled && !ExceedsBalance(found.value, req.amount.n)
             && req.paidAt.InvalidDate?) ==> r == Reject(400, MsgBadPaidAt)
  {
    if req.reservationId.None? then Reject(400, MsgMissingReservation)
    else if !PositiveAmount(req.amount) then Reject(400, MsgBadAmount)
    else match CheckMethod(req.paymentMethod)
      case MethodRejected => Reject(400, MsgBadMethod)
      case MethodThrows => Reject(500, MsgInternal)
      case MethodOk(m) =>
        if found.None? then Reject(404, MsgReservationNotFound)
        else if found.value.status == Cancelled then Reject(400, MsgCancelled)
        else if ExceedsBalance(found.value, req.amount.n) then Reject(400, MsgExceedsBalance(found.value.balanceDue.value))
        else
          var paidAt := if req.paidAt.ValidDate? then Some(req.paidAt.ms) else if req.paidAt.NoDate? then Some(now) else None;
          if paidAt.None? then Reject(400, MsgBadPaidAt)
          else Accept(m, paidAt.value)
  }

  function Max0(x: int): int {
    if x > 0 then x else 0
  }

  /** The ledger update: the amount is added to what has been paid, the balance is what remains of
      the price (never below zero; not a number when there is no price), and a pending reservation
      whose balance has reached zero becomes confirmed. Nothing else changes. */
  function ApplyPayment(r: Reservation, amount: int): (r': Reservation)
    ensures r'.totalPaid == r.totalPaid + amount
    ensures r.totalPrice.None? <==> r'.balanceDue.None?
    ensures r'.balanceDue.Some? ==> (
      && r'.balanceDue.value >= 0
      && (r'.balanceDue.value == 0 <==> r.totalPrice.value <= r'.totalPaid)
      && (r'.balanceDue.value > 0 ==> r'.balanceDue.value == r.totalPrice.value - r'.totalPaid))
    ensures r'.status == Confirmed <==> r.status == Confirmed || (r.status == Pending && r'.balanceDue == Some(0))
    ensures r'.status != r.status ==> r.status == Pending && r'.status == Confirmed
    ensures SameBooking(r, r')
  {
    var paid := r.totalPaid + amount;
    var balance := match r.totalPrice case Some(p) => Some(Max0(p - paid)) case None => None;
    var status := if balance == Some(0) && r.status == Pending then Confirmed else r.status;
    r.(totalPaid := paid, balanceDue := balance, status := status)
  }

  /** The ledger of a reservation is consistent when its balance is what remains of its price. */
  predicate LedgerConsistent(r: Reservation) {
    r.balanceDue == match r.totalPrice case Some(p) => Some(Max0(p - r.totalPaid)) case None => None
  }

  /** A reservation as created, with nothing paid, has a consistent ledger. */
  lemma NewReservationLedgerConsistent(
    id: Id, roomNumber: int, guestName: string, guestEmail: string, guestPhone: string,
    checkIn: int, checkOut: int, numberOfGuests: Option<int>, totalPrice: Option<int>, status: ReservationStatus)
    requires totalPrice.None? || totalPrice.value >= 0
    ensures LedgerConsistent(NewReservation(id, roomNumber, guestName, guestEmail, guestPhone,
                                            checkIn, checkOut, numberOfGuests, totalPrice, status))
  {
  }

  /** A payment the checks accept keeps the ledger consistent and never takes what has been paid past
      the price: the balance check refuses any amount larger than what remains. */
  lemma AcceptedPaymentNeverOverpays(r: Reservation, amount: int)
    requires LedgerConsistent(r) && r.totalPrice.Some? && r.totalPaid <= r.totalPrice.value
    requires amount > 0 && !ExceedsBalance(r, amount)
    ensures LedgerConsistent(ApplyPayment(r, amount))
    ensures ApplyPayment(r, amount).totalPaid <= r.totalPrice.value
  {
  }

  /** A consistent ledger stays consistent after any payment. */
  lemma PaymentKeepsLedgerConsistent(r: Reservation, amount: int)
    requires LedgerConsistent(r)
    ensures LedgerConsistent(ApplyPayment(r, amount))
  {
  }

  /** The payment document the handler creates: it refers to the reservation and copies its guest,
      stores the normalised method, and turns absent free-text fields into empty strings (trimmed,
      as the schema's setters do). */
  function BuildPayment(id: Id, req: PaymentRequest, reservation: Reservation, m: PaymentMethod, paidAt: int): (p: Payment)
    requires PositiveAmount(req.amount)
    ensures PaymentSchemaValid(p) && p.amount > 0
    ensures p.id == id && p.reservation == reservation.id && p.guest == reservation.guest
    ensures p.amount == req.amount.n && p.paymentMethod == m && p.paidAt == paidAt
    ensures req.reference.None? ==> p.reference == ""
    ensures req.notes.None? ==> p.notes == ""
    ensures req.recordedBy.None? ==> p.recordedBy == ""
  {
    Payment(id, reservation.id, reservation.guest, req.amount.n, m,
            TrimmedText(req.reference), TrimmedText(req.notes), paidAt, TrimmedText(req.recordedBy))
  }

  /** The free-text fields the request gives are stored trimmed. */
  lemma BuildPaymentTrimsText(id: Id, req: PaymentRequest, reservation: Reservation, m: PaymentMethod, paidAt: int)
    requires PositiveAmount(req.amount)
    ensures var p := BuildPayment(id, req, reservation, m, paidAt);
      && (req.reference.Some? ==> p.reference == Trim(req.reference.value))
      && (req.notes.Some? ==> p.notes == Trim(req.notes.value))
      && (req.recordedBy.Some? ==> p.recordedBy == Trim(req.recordedBy.value))
  {
  }

  /** `Reservation.findById`: the position of the reservation with that identifier. */
  function FindReservation(rs: seq<Reservation>, id: Id): (r: Option<nat>)
    ensures r.Some? ==> r.value < |rs| && rs[r.value].id == id
    ensures r.None? ==> forall k :: 0 <= k < |rs| ==> rs[k].id != id
  {
    IndexOf(rs, (x: Reservation) => x.id == id)
  }

  function FoundReservation(rs: seq<Reservation>, id: Option<Id>): Option<Reservation> {
    if id.None? then None
    else match FindReservation(rs, id.value)
      case Some(i) => Some(rs[i])
      case None => None
  }

  // ---------------------------------------------------------------------------
  // What has been paid for a reservation

  function PaymentAmount(p: Payment): int { p.amount }

  function ForReservation(rid: Id): Payment -> bool {
    (p: Payment) => p.reservation == rid
  }

  /** The sum of the amounts of the payments that refer to a reservation. */
  function PaidFor(payments: seq<Payment>, rid: Id): int {
    SumOf(Filter(payments, ForReservation(rid)), PaymentAmount)
  }

  /** Every reservation's `totalPaid` is the sum of its payments. */
  predicate LedgerMatchesPayments(rs: seq<Reservation>, payments: seq<Payment>) {
    forall k :: 0 <= k < |rs| ==> rs[k].totalPaid == PaidFor(payments, rs[k].id)
  }

  lemma PaidForAppend(payments: seq<Payment>, p: Payment, rid: Id)
    ensures PaidFor(payments + [p], rid) == PaidFor(payments, rid) + (if p.reservation == rid then p.amount else 0)
  {
    FilterAppendOne(payments, p, ForReservation(rid));
    SumOfAppend(Filter(payments, ForReservation(rid)), if p.reservation == rid then [p] else [], PaymentAmount);
  }

  /** A reservation no payment refers to has been paid nothing. */
  lemma PaidForNone(payments: seq<Payment>, rid: Id)
    requires forall k :: 0 <= k < |payments| ==> payments[k].reservation != rid
    ensures PaidFor(payments, rid) == 0
  {
    FilterNone(payments, ForReservation(rid));
  }

  /** Registering a payment for the reservation at `i` keeps every `totalPaid` equal to the sum of
      that reservation's payments. */
  lemma LedgerAfterPayment(rs: seq<Reservation>, payments: seq<Payment>, i: nat, p: Payment)
    requires i < |rs| && Distinct(rs, ReservationId) && p.reservation == rs[i].id
    requires LedgerMatchesPayments(rs, payments)
    ensures LedgerMatchesPayments(rs[i := ApplyPayment(rs[i], p.amount)], payments + [p])
  {
    var rs' := rs[i := ApplyPayment(rs[i], p.amount)];
    forall k | 0 <= k < |rs'| ensures rs'[k].totalPaid == PaidFor(payments + [p], rs'[k].id) {
      PaidForAppend(payments, p, rs[k].id);
      if k != i {
        assert ReservationId(rs[k]) != ReservationId(rs[i]) by {
          if k < i {} else {}
        }
      }
    }
  }

  /** What `registerPayment` does to the reservations and payments of the store, with `nextId` the
      identifier a new payment receives: the response, both collections afterwards, and the next
      identifier still free. */
  datatype Registration = Registration(
    response: Response<PaymentReply>, reservations: seq<Reservation>, payments: seq<Payment>, nextId: Id)

  /** `registerPayment` on the values of the store. */
  function Register(rs: seq<Reservation>, ps: seq<Payment>, id: Id, req: PaymentRequest, now: int): (out: Registration)
  {
    var verdict := CheckPayment(req, FoundReservation(rs, req.reservationId), now);
    match verdict
    case Reject(status, message) => Registration(Response(status, Message(message)), rs, ps, id)
    case Accept(m, paidAt) =>
      var i := FindReservation(rs, req.reservationId.value).value;
      var updated := ApplyPayment(rs[i], req.amount.n);
      var payment := BuildPayment(id, req, rs[i], m, paidAt);
      Registration(Response(201, Registered(MsgRegistered, payment, updated)), rs[i := updated], ps + [payment], id + 1)
  }

  /** Every rejection happens before anything is written: it leaves both collections and the
      identifier counter as they were, and answers with the verdict's status and message. */
  lemma RegisterRejectWritesNothing(rs: seq<Reservation>, ps: seq<Payment>, id: Id, req: PaymentRequest, now: int)
    requires CheckPayment(req, FoundReservation(rs, req.reservationId), now).Reject?
    ensures var verdict := CheckPayment(req, FoundReservation(rs, req.reservationId), now);
      var out := Register(rs, ps, id, req, now);
      && out.response == Response(verdict.status, Message(verdict.message))
      && out.reservations == rs && out.payments == ps && out.nextId == id
  {
  }

  /** An accepted payment is appended with the next identifier, for the reservation the request
      names, and only that reservation changes, by `ApplyPayment`. */
  lemma RegisterAcceptAppends(rs: seq<Reservation>, ps: seq<Payment>, id: Id, req: PaymentRequest, now: int)
    requires CheckPayment(req, FoundReservation(rs, req.reservationId), now).Accept?
    ensures var verdict := CheckPayment(req, FoundReservation(rs, req.reservationId), now);
      var out := Register(rs, ps, id, req, now);
      var i := FindReservation(rs, req.reservationId.value).value;
      && out.response.status == 201 && out.nextId == id + 1
      && |out.payments| == |ps| + 1 && out.payments[..|ps|] == ps
      && out.payments[|ps|] == BuildPayment(id, req, rs[i], verdict.paymentMethod, verdict.paidAt)
      && out.payments[|ps|].reservation == rs[i].id == req.reservationId.value
      && |out.reservations| == |rs|
      && (forall k :: 0 <= k < |rs| && k != i ==> out.reservations[k] == rs[k])
      && out.reservations[i] == ApplyPayment(rs[i], req.amount.n)
  {
    RegisterAccepted(rs, ps, id, req, now);
    var verdict := CheckPayment(req, FoundReservation(rs, req.reservationId), now);
    var i := FindReservation(rs, req.reservationId.value).value;
    var updated := ApplyPayment(rs[i], req.amount.n);
    var payment := BuildPayment(id, req, rs[i], verdict.paymentMethod, verdict.paidAt);
    WrittenByAcceptance(Register(rs, ps, id, req, now), rs, ps, i, updated, payment, id);
  }

  /** The shape of the collections after one reservation is replaced and one payment appended. */
  lemma WrittenByAcceptance(out: Registration, rs: seq<Reservation>, ps: seq<Payment>, i: nat,
                            updated: Reservation, payment: Payment, id: Id)
    requires i < |rs|
    requires out.reservations == rs[i := updated] && out.payments == ps + [payment] && out.nextId == id + 1
    ensures |out.payments| == |ps| + 1 && out.payments[..|ps|] == ps && out.payments[|ps|] == payment
    ensures |out.reservations| == |rs| && out.reservations[i] == updated
    ensures forall k :: 0 <= k < |rs| && k != i ==> out.reservations[k] == rs[k]
  {
    assert out.payments[..|ps|] == ps;
  }

  /** What an accepted registration writes, as one value. */
  lemma RegisterAccepted(rs: seq<Reservation>, ps: seq<Payment>, id: Id, req: PaymentRequest, now: int)
    requires CheckPayment(req, FoundReservation(rs, req.reservationId), now).Accept?
    ensures var verdict := CheckPayment(req, FoundReservation(rs, req.reservationId), now);
      var i := FindReservation(rs, req.reservationId.value).value;
      var updated := ApplyPayment(rs[i], req.amount.n);
      var payment := BuildPayment(id, req, rs[i], verdict.paymentMethod, verdict.paidAt);
      Register(rs, ps, id, req, now)
        == Registration(Response(201, Registered(MsgRegistered, payment, updated)), rs[i := updated], ps + [payment], id + 1)
  {
  }

  /** Whatever the request, when every `totalPaid` is the sum of its reservation's payments before,
      it still is afterwards. */
  lemma RegisterKeepsLedger(rs: seq<Reservation>, ps: seq<Payment>, id: Id, req: PaymentRequest, now: int)
    requires Distinct(rs, ReservationId) && LedgerMatchesPayments(rs, ps)
    ensures var out := Register(rs, ps, id, req, now);
      LedgerMatchesPayments(out.reservations, out.payments)
  {
    var verdict := CheckPayment(req, FoundReservation(rs, req.reservationId), now);
    if verdict.Accept? {
      var i := FindReservation(rs, req.reservationId.value).value;
      LedgerAfterPayment(rs, ps, i, BuildPayment(id, req, rs[i], verdict.paymentMethod, verdict.paidAt));
    }
  }

  /** A reservation whose ledger is consistent and which has not been paid past its price. */
  predicate WithinPrice(r: Reservation) {
    LedgerConsistent(r) && (r.totalPrice.Some? ==> r.totalPaid <= r.totalPrice.value)
  }

  /** No sequence of registrations can take a reservation's payments past its price. */
  lemma RegisterStaysWithinPrice(rs: seq<Reservation>, ps: seq<Payment>, id: Id, req: PaymentRequest, now: int)
    requires forall k :: 0 <= k < |rs| ==> WithinPrice(rs[k])
    ensures var out := Register(rs, ps, id, req, now);
      forall k :: 0 <= k < |out.reservations| ==> WithinPrice(out.reservations[k])
  {
    var verdict := CheckPayment(req, FoundReservation(rs, req.reservationId), now);
    if verdict.Accept? {
      var i := FindReservation(rs, req.reservationId.value).value;
      if rs[i].totalPrice.Some? {
        AcceptedPaymentNeverOverpays(rs[i], req.amount.n);
      }
    }
  }

  /** Replacing a reservation by one with the same identifier and appending a payment with the next
      identifier, for that reservation, keeps the invariant with one more identifier in use. */
  lemma IdsBelowAfterPayment(rs: seq<Reservation>, ps: seq<Payment>, nextId: Id, i: nat, updated: Reservation, payment: Payment)
    requires LedgerIdsValid(rs, ps, nextId)
    requires i < |rs| && updated.id == rs[i].id && payment.id == nextId && payment.reservation == rs[i].id
    ensures LedgerIdsValid(rs[i := updated], ps + [payment], nextId + 1)
  {
    DistinctAppend(ps, PaymentId, payment);
    DistinctReplace(rs, ReservationId, i, updated);
  }

  /** A registration keeps the store's invariant, with one more identifier in use when it succeeds. */
  lemma RegisterKeepsIds(rs: seq<Reservation>, ps: seq<Payment>, nextId: Id, req: PaymentRequest, now: int)
    requires LedgerIdsValid(rs, ps, nextId)
    ensures var out := Register(rs, ps, nextId, req, now);
      LedgerIdsValid(out.reservations, out.payments, out.nextId) && nextId <= out.nextId
  {
    var verdict := CheckPayment(req, FoundReservation(rs, req.reservationId), now);
    if verdict.Accept? {
      var i := FindReservation(rs, req.reservationId.value).value;
      var updated := ApplyPayment(rs[i], req.amount.n);
      var payment := BuildPayment(nextId, req, rs[i], verdict.paymentMethod, verdict.paidAt);
      IdsBelowAfterPayment(rs, ps, nextId, i, updated, payment);
    }
  }

  /** `POST /payments` on the store: the collections change as `Register` says, a new identifier is
      drawn only for an accepted payment, and nothing else changes. */
  method RegisterPayment(db: Db, req: PaymentRequest, now: int) returns (res: Response<PaymentReply>)
    requires db.Valid()
    modifies db
    ensures db.Valid()
    ensures db.rooms == old(db.rooms) && db.guests == old(db.guests) && db.users == old(db.users)
    ensures var out := Register(old(db.reservations), old(db.payments), old(db.nextId), req, now);
      res == out.response && db.reservations == out.reservations && db.payments == out.payments
      && db.nextId == out.nextId
  {
    var out := Register(db.reservations, db.payments, db.nextId, req, now);
    RegisterKeepsIds(db.reservations, db.payments, db.nextId, req, now);
    ValidAsIdsGrow(db.rooms, db.guests, db.users, db.nextId, out.nextId);
    db.reservations, db.payments, db.nextId := out.reservations, out.payments, out.nextId;
    res := out.response;
  }

  // ---------------------------------------------------------------------------
  // Listing payments

  datatype PaymentQuery = PaymentQuery(
    reservationId: Option<Id>,
    guestId: Option<Id>,
    paymentMethod: Option<string>,
    startDate: DateInput,
    endDate: DateInput,
    page: Option<int>,
    limit: Option<int>,
    order: Option<string>)

  /** The filter `getPayments` builds: each present part must match; the date range is inclusive at
      both ends. */
  datatype PaymentFilter = PaymentFilter(
    reservation: Option<Id>,
    guest: Option<Id>,
    paymentMethod: Option<PaymentMethod>,
    from: Option<int>,
    until: Option<int>)

  predicate MatchesFilter(f: PaymentFilter, p: Payment) {
    && (f.reservation.Some? ==> p.reservation == f.reservation.value)
    && (f.guest.Some? ==> p.guest == f.guest)
    && (f.paymentMethod.Some? ==> p.paymentMethod == f.paymentMethod.value)
    && (f.from.Some? ==> f.from.value <= p.paidAt)
    && (f.until.Some? ==> p.paidAt <= f.until.value)
  }

  function FilterMatcher(f: PaymentFilter): Payment -> bool {
    (p: Payment) => MatchesFilter(f, p)
  }

  /** The filter from the query string, or the 400 response for an unknown method or a bad date. The
      method is checked before the dates. */
  function BuildPaymentFilter(q: PaymentQuery): (r: Result<PaymentFilter>)
    ensures q.paymentMethod.Some? && q.paymentMethod.value != "" && ParsePaymentMethod(ToLower(q.paymentMethod.value)).None?
      ==> r == Fail(MsgBadMethodFilter)
    ensures r.Ok? <==>
      && (q.paymentMethod.None? || q.paymentMethod.value == "" || ParsePaymentMethod(ToLower(q.paymentMethod.value)).Some?)
      && !q.startDate.InvalidDate? && !q.endDate.InvalidDate?
    ensures r.Ok? ==>
      && r.value.reservation == q.reservationId && r.value.guest == q.guestId
      && r.value.from == ParseDate(q.startDate) && r.value.until == ParseDate(q.endDate)
      && (r.value.paymentMethod.Some? <==> q.paymentMethod.Some? && q.paymentMethod.value != "")
      && (r.value.paymentMethod.Some? ==> PaymentMethodName(r.value.paymentMethod.value) == ToLower(q.paymentMethod.value))
  {
    var m := if q.paymentMethod.None? || q.paymentMethod.value == "" then Some(None)
             else match ParsePaymentMethod(ToLower(q.paymentMethod.value))
               case Some(pm) => Some(Some(pm))
               case None => None;
    if m.None? then Fail(MsgBadMethodFilter)
    else if q.startDate.InvalidDate? then Fail(MsgBadStartDate)
    else if q.endDate.InvalidDate? then Fail(MsgBadEndDate)
    else Ok(PaymentFilter(q.reservationId, q.guestId, m.value, ParseDate(q.startDate), ParseDate(q.endDate)))
  }

  function PaidAtKey(p: Payment): SortKey { IntKey(p.paidAt) }

  /** One page of the payments that pass a filter, ordered on `paidAt`: the count of all matches, the
      number of pages, the sum of the amounts, and on the page only matching payments of the store,
      in order, at most `pageSize` of them, starting after the first `(pageNumber - 1) * pageSize`
      matches. The sum comes from an aggregation whose `$match` receives the identifiers as the query
      strings, uncast, and a string never equals a stored object identifier: with a reservation or
      guest filter the sum is 0, otherwise it is the sum over all matches. */
  function ListPayments(payments: seq<Payment>, f: PaymentFilter, pageNumber: int, pageSize: int, descending: bool): (reply: PaymentReply)
    requires pageNumber >= 1 && pageSize >= 1
    ensures reply.PaymentList?
    ensures var matching := Filter(payments, FilterMatcher(f));
      && reply.total == |matching|
      && reply.page == pageNumber
      && reply.totalPages == TotalPages(|matching|, pageSize)
      && reply.totalAmount == (if f.reservation.Some? || f.guest.Some? then 0 else SumOf(matching, PaymentAmount))
      && reply.count == |reply.results| <= pageSize
      && reply.results == Page(Sort(matching, PaidAtKey, descending), Skip(pageNumber, pageSize), pageSize)
    ensures SortedBy(reply.results, PaidAtKey, descending)
    ensures forall k :: 0 <= k < |reply.results| ==> MatchesFilter(f, reply.results[k]) && reply.results[k] in payments
  {
    var matching := Filter(payments, FilterMatcher(f));
    var results := Page(Sort(matching, PaidAtKey, descending), Skip(pageNumber, pageSize), pageSize);
    ListingFacts(payments, FilterMatcher(f), PaidAtKey, descending, Skip(pageNumber, pageSize), pageSize);
    var totalAmount := if f.reservation.Some? || f.guest.Some? then 0 else SumOf(matching, PaymentAmount);
    PaymentList(|results|, |matching|, TotalPages(|matching|, pageSize), pageNumber, totalAmount, results)
  }

  /** `GET /payments`: the 400 of a bad filter, or the listing with page 1 and 20 per page by
      default, newest first unless `order` is `asc`. */
  function GetPayments(payments: seq<Payment>, q: PaymentQuery): (res: Response<PaymentReply>)
    ensures BuildPaymentFilter(q).Fail? ==> res == Response(400, Message(BuildPaymentFilter(q).message))
    ensures BuildPaymentFilter(q).Ok? ==>
      res == Response(200, ListPayments(payments, BuildPaymentFilter(q).value,
                                        ParsePagination(q.page, 1), ParsePagination(q.limit, 20), q.order != Some("asc")))
  {
    match BuildPaymentFilter(q)
    case Fail(message) => Response(400, Message(message))
    case Ok(f) =>
      Response(200, ListPayments(payments, f, ParsePagination(q.page, 1), ParsePagination(q.limit, 20), q.order != Some("asc")))
  }

  /** `GET /payments/reservation/:reservationId`: that reservation's payments, newest first, and the
      sum of their amounts. */
  function GetPaymentsByReservation(payments: seq<Payment>, reservationId: Option<Id>): (res: Response<PaymentReply>)
    ensures reservationId.None? ==> res == Response(400, Message(MsgMissingReservationParam))
    ensures reservationId.Some? ==> (
      && res.status == 200 && res.body.ReservationPayments?
      && res.body.count == |res.body.results|
      && multiset(res.body.results) == multiset(Filter(payments, ForReservation(reservationId.value)))
      && SortedBy(res.body.results, PaidAtKey, true)
      && res.body.totalAmount == PaidFor(payments, reservationId.value))
  {
    match reservationId
    case None => Response(400, Message(MsgMissingReservationParam))
    case Some(rid) =>
      var matching := Filter(payments, ForReservation(rid));
      var results := Sort(matching, PaidAtKey, true);
      SumOfPermutation(results, matching, PaymentAmount);
      Response(200, ReservationPayments(|results|, SumOf(results, PaymentAmount), results))
  }

  /** What the payments of a reservation add up to is what its ledger says has been paid, whenever
      every payment went through `RegisterPayment`. */
  lemma ReservationTotalMatchesLedger(rs: seq<Reservation>, payments: seq<Payment>, k: nat)
    requires LedgerMatchesPayments(rs, payments) && k < |rs|
    ensures GetPaymentsByReservation(payments, Some(rs[k].id)).body.totalAmount == rs[k].totalPaid
  {
  }

  /** `GET /payments/:id`. */
  function GetPaymentById(payments: seq<Payment>, id: Id): (res: Response<PaymentReply>)
    ensures res.status == 200 || res.status == 404
    ensures res.status == 200 <==> exists k :: 0 <= k < |payments| && payments[k].id == id
    ensures res.status == 200 ==> res.body.Found? && res.body.payment in payments && res.body.payment.id == id
    ensures res.status == 404 ==> res.body == Message(MsgPaymentNotFound)
  {
    match IndexOf(payments, (p: Payment) => p.id == id)
    case Some(i) => Response(200, Found(payments[i]))
    case None => Response(404, Message(MsgPaymentNotFound))
  }
}
