/** The monthly report: the month's UTC range, the room-nights booked against those available, the
    income of the month per room, and the share of the month's reservations that were cancelled. */
module Reports {
  import opened Common
  import opened Strings
  import opened Models
  import opened Query
  import opened Calendar

  const MsgBadYear: string := "El parámetro 'year' es inválido."
  const MsgBadMonth: string := "El parámetro 'month' debe estar entre 1 y 12."
  const MsgInternal: string := "Error interno del servidor."

  const MonthNames: seq<string> := ["enero", "febrero", "marzo", "abril", "mayo", "junio", "julio",
                                    "agosto", "septiembre", "octubre", "noviembre", "diciembre"]

  /** The largest instant a JavaScript `Date` can hold, in milliseconds. */
  const MaxTime: int := 8_640_000_000_000_000

  // ---------------------------------------------------------------------------
  // The month

  /** `parseInteger`: the number the query value converts to, or null when it is not a number
      (absent values are not numbers). The conversion itself is the caller's: `value` is its
      result, `None` for NaN. */
  function ParseInteger(value: Option<real>): Option<real> {
    value
  }

  predicate IsInteger(x: real) {
    x.Floor as real == x
  }

  datatype MonthRange = MonthRange(start: int, end: int, daysInMonth: int)

  /** `buildMonthRange`: midnight UTC of the first of the month, midnight UTC of the first of the
      next month, and the number of the last day of the month. */
  function BuildMonthRange(year: int, month: int): (r: MonthRange)
    requires 1 <= month <= 12
    ensures r.start == MonthStartDay(year, month) * MsPerDay
    ensures r.end - r.start == r.daysInMonth * MsPerDay
    ensures r.daysInMonth == DaysInMonth(year, month)
    ensures 28 <= r.daysInMonth <= 31
    ensures r.daysInMonth == 29 <==> month == 2 && IsLeapYear(year)
    ensures month < 12 ==> r.end == MonthStartDay(year, month + 1) * MsPerDay
    ensures month == 12 ==> r.end == MonthStartDay(year + 1, 1) * MsPerDay
  {
    DecemberEndsYear(year);
    MonthRange(MonthStartDay(year, month) * MsPerDay, MonthStartDay(year, month + 1) * MsPerDay, DaysInMonth(year, month))
  }

  /** Consecutive months tile the time line: each month's range ends where the next one's starts. */
  lemma MonthRangesAdjoin(year: int, month: int)
    requires 1 <= month <= 12
    ensures month < 12 ==> BuildMonthRange(year, month).end == BuildMonthRange(year, month + 1).start
    ensures month == 12 ==> BuildMonthRange(year, month).end == BuildMonthRange(year + 1, 1).start
  {
  }

  // ---------------------------------------------------------------------------
  // Occupancy

  /** The reservations the occupancy counts: confirmed or completed, and overlapping the month. */
  predicate CountsForOccupancy(r: Reservation, range: MonthRange) {
    (r.status == Confirmed || r.status == Completed) && r.checkIn < range.end && r.checkOut > range.start
  }

  /** The UTC day an instant falls in; `$dateDiff` in days counts the midnights between two
      instants, the difference of their days. */
  function DayIndex(t: int): int {
    t / MsPerDay
  }

  function Max(a: int, b: int): int { if a > b then a else b }
  function Min(a: int, b: int): int { if a < b then a else b }

  /** A range that starts at a midnight and spans whole days. */
  predicate WholeDays(range: MonthRange) {
    range.start % MsPerDay == 0 && range.daysInMonth >= 0 && range.end - range.start == range.daysInMonth * MsPerDay
  }

  /** The nights of a stay inside the month: the stay clipped to the month, in days. */

  function Nights(r: Reservation, range: MonthRange): (n: int)
    requires WholeDays(range)
    ensures 0 <= n <= range.daysInMonth
    ensures var clipStart, clipEnd := Max(r.checkIn, range.start), Min(r.checkOut, range.end);
      (clipEnd <= clipStart ==> n == 0)
      && (clipEnd > clipStart && clipStart % MsPerDay == 0 && clipEnd % MsPerDay == 0 ==>
            n * MsPerDay == clipEnd - clipStart)
  {
    var clipStart := Max(r.checkIn, range.start);
    var clipEnd := Min(r.checkOut, range.end);
    if clipEnd > clipStart then
      DayIndexBounds(range.start, clipStart, clipEnd, range.end, range.daysInMonth);
      DayIndex(clipEnd) - DayIndex(clipStart)
    else 0
  }

  lemma DayIndexBounds(start: int, a: int, b: int, end: int, days: int)
    requires start % MsPerDay == 0 && end - start == days * MsPerDay
    requires start <= a < b <= end
    ensures 0 <= DayIndex(b) - DayIndex(a) <= days
    ensures a % MsPerDay == 0 && b % MsPerDay == 0 ==> (DayIndex(b) - DayIndex(a)) * MsPerDay == b - a
  {
    assert DayIndex(start) * MsPerDay == start;
    assert DayIndex(end) == DayIndex(start) + days by {
      assert end == (DayIndex(start) + days) * MsPerDay;
    }
    assert DayIndex(start) <= DayIndex(a) <= DayIndex(b) <= DayIndex(end);
  }

  function NightsOf(range: MonthRange): Reservation -> int
    requires WholeDays(range)
  {
    (r: Reservation) => Nights(r, range)
  }

  function OccupancyFilter(range: MonthRange): Reservation -> bool {
    (r: Reservation) => CountsForOccupancy(r, range)
  }

  /** The booked nights of the month never exceed one full month per counted reservation. */
  lemma BookedNightsBounded(rs: seq<Reservation>, range: MonthRange)
    requires WholeDays(range)
    ensures var counted := Filter(rs, OccupancyFilter(range));
      0 <= SumOf(counted, NightsOf(range)) <= |counted| * range.daysInMonth
  {
    var counted := Filter(rs, OccupancyFilter(range));
    SumOfNonNegative(counted, NightsOf(range));
    SumOfBounded(counted, NightsOf(range), range.daysInMonth);
  }

  /** A rate in percent, zero when there is nothing to divide by. */
  function Rate(part: int, whole: int): (r: real)
    ensures whole == 0 ==> r == 0.0
    ensures whole != 0 ==> r * (whole as real) == (part as real) * 100.0
    ensures 0 <= part && 0 <= whole ==> r >= 0.0
  {
    if whole == 0 then 0.0 else (part as real) / (whole as real) * 100.0
  }

  /** A part of a whole gives a rate between 0 and 100. */
  lemma RateOfPartBounded(part: int, whole: int)
    requires 0 <= part <= whole
    ensures 0.0 <= Rate(part, whole) <= 100.0
  {
    if whole != 0 {
      assert Rate(part, whole) * (whole as real) <= 100.0 * (whole as real);
    }
  }

  // ---------------------------------------------------------------------------
  // Income

  /** A payment of the month after the join with its reservation: the reservation's room number and
      the amount. */
  datatype Entry = Entry(roomNumber: int, amount: int)

  /** One line of `byRoom`. */
  datatype RoomIncome = RoomIncome(roomNumber: int, totalIncome: int, paymentsCount: nat)

  predicate PaidInMonth(p: Payment, range: MonthRange) {
    range.start <= p.paidAt < range.end
  }

  function FindReservationById(rs: seq<Reservation>, id: Id): (r: Option<Reservation>)
    ensures r.Some? ==> r.value in rs && r.value.id == id
    ensures r.None? ==> forall k :: 0 <= k < |rs| ==> rs[k].id != id
  {
    match IndexOf(rs, (x: Reservation) => x.id == id)
    case Some(i) => Some(rs[i])
    case None => None
  }

  /** `$match` on the month, `$lookup` of the reservation and `$unwind`: a payment whose reservation
      no longer exists drops out. */
  function IncomeEntries(ps: seq<Payment>, rs: seq<Reservation>, range: MonthRange): (es: seq<Entry>)
    ensures |es| <= |ps|
  {
    if ps == [] then []
    else
      var rest := IncomeEntries(ps[..|ps| - 1], rs, range);
      var p := ps[|ps| - 1];
      match FindReservationById(rs, p.reservation)
      case Some(r) => if PaidInMonth(p, range) then rest + [Entry(r.roomNumber, p.amount)] else rest
      case None => rest
  }

  /** A payment that the income pipeline keeps: paid within the month, with a reservation. */
  predicate HasIncome(p: Payment, rs: seq<Reservation>, range: MonthRange) {
    PaidInMonth(p, range) && FindReservationById(rs, p.reservation).Some?
  }

  /** The entry of such a payment: its reservation's room and its amount. */
  function EntryOf(p: Payment, rs: seq<Reservation>): Entry
    requires FindReservationById(rs, p.reservation).Some?
  {
    Entry(FindReservationById(rs, p.reservation).value.roomNumber, p.amount)
  }

  /** The payments the income pipeline keeps, as a filter. */
  function IncomeFilter(rs: seq<Reservation>, range: MonthRange): Payment -> bool {
    (p: Payment) => HasIncome(p, rs, range)
  }

  /** The amount of a payment, the field `$sum` adds up. */
  function PaidAmount(p: Payment): int { p.amount }

  /** The last payment adds its entry exactly when the pipeline keeps it. */
  lemma IncomeEntriesLast(ps: seq<Payment>, rs: seq<Reservation>, range: MonthRange)
    requires ps != []
    ensures var init, p := ps[..|ps| - 1], ps[|ps| - 1];
      && IncomeEntries(ps, rs, range) == IncomeEntries(init, rs, range) + (if HasIncome(p, rs, range) then [EntryOf(p, rs)] else [])
      && Filter(ps, IncomeFilter(rs, range)) == Filter(init, IncomeFilter(rs, range)) + (if HasIncome(p, rs, range) then [p] else [])
  {
    var init, p := ps[..|ps| - 1], ps[|ps| - 1];
    assert ps == init + [p];
    FilterAppendOne(init, p, IncomeFilter(rs, range));
  }

  /** The entries are exactly one per kept payment, in store order: entry `k` is the entry of the
      `k`-th payment the filter keeps. */
  lemma {:induction false} IncomeEntriesMeans(ps: seq<Payment>, rs: seq<Reservation>, range: MonthRange)
    ensures var es, kept := IncomeEntries(ps, rs, range), Filter(ps, IncomeFilter(rs, range));
      && |es| == |kept|
      && forall k :: 0 <= k < |es| ==> HasIncome(kept[k], rs, range) && es[k] == EntryOf(kept[k], rs)
  {
    if ps != [] {
      IncomeEntriesMeans(ps[..|ps| - 1], rs, range);
      IncomeEntriesLast(ps, rs, range);
    }
  }

  /** The month's income is the sum of the amounts of the kept payments, each counted once. */
  lemma {:induction false} IncomeIsKeptPayments(ps: seq<Payment>, rs: seq<Reservation>, range: MonthRange)
    ensures SumOf(IncomeEntries(ps, rs, range), EntryAmount) == SumOf(Filter(ps, IncomeFilter(rs, range)), PaidAmount)
  {
    if ps != [] {
      var init, p := ps[..|ps| - 1], ps[|ps| - 1];
      IncomeIsKeptPayments(init, rs, range);
      IncomeEntriesLast(ps, rs, range);
      var rest, kept := IncomeEntries(init, rs, range), Filter(init, IncomeFilter(rs, range));
      if HasIncome(p, rs, range) {
        var e := EntryOf(p, rs);
        SumOfAppend(rest, [e], EntryAmount);
        SumOfAppend(kept, [p], PaidAmount);
        SumOfOne(e, EntryAmount);
        SumOfOne(p, PaidAmount);
      } else {
        assert rest + [] == rest && kept + [] == kept;
      }
    }
  }

  /** Reference definitions of a room's income and payment count: over the entries, one at a time. */
  function RoomTotal(es: seq<Entry>, room: int): int {
    if es == [] then 0
    else RoomTotal(es[..|es| - 1], room) + (if es[|es| - 1].roomNumber == room then es[|es| - 1].amount else 0)
  }

  function RoomCount(es: seq<Entry>, room: int): nat {
    if es == [] then 0
    else RoomCount(es[..|es| - 1], room) + (if es[|es| - 1].roomNumber == room then 1 else 0)
  }

  function EntryAmount(e: Entry): int { e.amount }
  function GroupIncome(g: RoomIncome): int { g.totalIncome }

  predicate StrictlyAscending(gs: seq<RoomIncome>) {
    forall i, j :: 0 <= i < j < |gs| ==> gs[i].roomNumber < gs[j].roomNumber
  }

  /** The income of a room in a grouping: its line's total, or 0 without a line. */
  function IncomeIn(gs: seq<RoomIncome>, room: int): int {
    if gs == [] then 0
    else if gs[0].roomNumber == room then gs[0].totalIncome
    else IncomeIn(gs[1..], room)
  }

  function CountIn(gs: seq<RoomIncome>, room: int): nat {
    if gs == [] then 0
    else if gs[0].roomNumber == room then gs[0].paymentsCount
    else CountIn(gs[1..], room)
  }

  /** The room numbers that have a line. */
  function Rooms(gs: seq<RoomIncome>): set<int> {
    if gs == [] then {} else {gs[0].roomNumber} + Rooms(gs[1..])
  }

  lemma {:induction false} RoomsMembership(gs: seq<RoomIncome>, room: int)
    ensures room in Rooms(gs) <==> exists k :: 0 <= k < |gs| && gs[k].roomNumber == room
  {
    if gs != [] {
      RoomsMembership(gs[1..], room);
      if exists k :: 0 <= k < |gs[1..]| && gs[1..][k].roomNumber == room {
        var k :| 0 <= k < |gs[1..]| && gs[1..][k].roomNumber == room;
        assert gs[k + 1].roomNumber == room;
      }
      if exists k :: 0 <= k < |gs| && gs[k].roomNumber == room {
        var k :| 0 <= k < |gs| && gs[k].roomNumber == room;
        if k > 0 {
          assert gs[1..][k - 1].roomNumber == room;
        }
      }
    }
  }

  predicate AllAbove(rooms: set<int>, n: int) {
    forall room :: room in rooms ==> n < room
  }

  /** A grouping is ascending exactly when its first line is below every later one and the rest is
      ascending. */
  lemma AscendingCons(gs: seq<RoomIncome>)
    requires gs != []
    ensures StrictlyAscending(gs) <==> StrictlyAscending(gs[1..]) && AllAbove(Rooms(gs[1..]), gs[0].roomNumber)
  {
    if StrictlyAscending(gs) {
      forall i, j | 0 <= i < j < |gs[1..]| ensures gs[1..][i].roomNumber < gs[1..][j].roomNumber {
        assert gs[1..][i] == gs[i + 1] && gs[1..][j] == gs[j + 1];
      }
      forall room | room in Rooms(gs[1..]) ensures gs[0].roomNumber < room {
        RoomsMembership(gs[1..], room);
        var k :| 0 <= k < |gs[1..]| && gs[1..][k].roomNumber == room;
        assert gs[k + 1].roomNumber == room;
      }
      assert StrictlyAscending(gs[1..]);
    }
    if StrictlyAscending(gs[1..]) && AllAbove(Rooms(gs[1..]), gs[0].roomNumber) {
      forall i, j | 0 <= i < j < |gs| ensures gs[i].roomNumber < gs[j].roomNumber {
        if i == 0 {
          RoomsMembership(gs[1..], gs[j].roomNumber);
          assert gs[1..][j - 1].roomNumber == gs[j].roomNumber;
        } else {
          assert gs[1..][i - 1] == gs[i] && gs[1..][j - 1] == gs[j];
        }
      }
      assert StrictlyAscending(gs);
    }
  }

  /** Adds one entry to a grouping kept in ascending room order: to the line of the entry's room,
      or as a new line in its place. */
  function AddEntry(gs: seq<RoomIncome>, e: Entry): (r: seq<RoomIncome>)
    ensures |gs| <= |r| <= |gs| + 1
  {
    if gs == [] || e.roomNumber < gs[0].roomNumber then
      [RoomIncome(e.roomNumber, e.amount, 1)] + gs
    else if e.roomNumber == gs[0].roomNumber then
      [gs[0].(totalIncome := gs[0].totalIncome + e.amount, paymentsCount := gs[0].paymentsCount + 1)] + gs[1..]
    else
      [gs[0]] + AddEntry(gs[1..], e)
  }

  /** Adding an entry gives its room a line and leaves the other lines' rooms as they were. */
  lemma {:induction false} AddEntryRooms(gs: seq<RoomIncome>, e: Entry)
    ensures Rooms(AddEntry(gs, e)) == Rooms(gs) + {e.roomNumber}
  {
    var r := AddEntry(gs, e);
    if gs == [] || e.roomNumber < gs[0].roomNumber {
      assert r[1..] == gs;
    } else if e.roomNumber == gs[0].roomNumber {
      assert r[1..] == gs[1..];
    } else {
      AddEntryRooms(gs[1..], e);
      assert r[1..] == AddEntry(gs[1..], e);
    }
  }

  /** Adding an entry keeps the grouping in ascending room order. */
  lemma {:induction false} AddEntryAscending(gs: seq<RoomIncome>, e: Entry)
    requires StrictlyAscending(gs)
    ensures StrictlyAscending(AddEntry(gs, e))
  {
    var r := AddEntry(gs, e);
    if gs == [] {
    } else if e.roomNumber < gs[0].roomNumber {
      assert r[1..] == gs;
      AscendingCons(gs);
      AscendingCons(r);
    } else if e.roomNumber == gs[0].roomNumber {
      assert r[1..] == gs[1..];
      AscendingCons(gs);
      AscendingCons(r);
    } else {
      AscendingCons(gs);
      AddEntryAscending(gs[1..], e);
      AddEntryRooms(gs[1..], e);
      assert r[1..] == AddEntry(gs[1..], e);
      AscendingCons(r);
    }
  }

  /** A room numbered below the first line of an ascending grouping has no line in it. */
  lemma {:induction false} AbsentBelowFirst(gs: seq<RoomIncome>, room: int)
    requires StrictlyAscending(gs) && gs != [] && room < gs[0].roomNumber
    ensures IncomeIn(gs, room) == 0 && CountIn(gs, room) == 0 && room !in Rooms(gs)
  {
    AscendingCons(gs);
    if |gs| > 1 {
      AbsentBelowFirst(gs[1..], room);
    }
  }

  /** Adding an entry adds its amount and one payment to its room's line and to no other. */
  lemma {:induction false} AddEntryIncome(gs: seq<RoomIncome>, e: Entry, room: int)
    requires StrictlyAscending(gs)
    ensures IncomeIn(AddEntry(gs, e), room) == IncomeIn(gs, room) + (if room == e.roomNumber then e.amount else 0)
    ensures CountIn(AddEntry(gs, e), room) == CountIn(gs, room) + (if room == e.roomNumber then 1 else 0)
  {
    var r := AddEntry(gs, e);
    if gs == [] {
    } else if e.roomNumber < gs[0].roomNumber {
      assert r[1..] == gs;
      AbsentBelowFirst(gs, e.roomNumber);
    } else if e.roomNumber == gs[0].roomNumber {
      assert r[1..] == gs[1..];
    } else {
      AscendingCons(gs);
      AddEntryIncome(gs[1..], e, room);
      assert r[1..] == AddEntry(gs[1..], e);
    }
  }

  /** Adding an entry adds its amount to the sum of the lines. */
  lemma {:induction false} AddEntrySum(gs: seq<RoomIncome>, e: Entry)
    ensures SumOf(AddEntry(gs, e), GroupIncome) == SumOf(gs, GroupIncome) + e.amount
  {
    var r := AddEntry(gs, e);
    if gs == [] || e.roomNumber < gs[0].roomNumber {
      assert r[1..] == gs;
    } else if e.roomNumber == gs[0].roomNumber {
      assert r[1..] == gs[1..];
    } else {
      AddEntrySum(gs[1..], e);
      assert r[1..] == AddEntry(gs[1..], e);
    }
  }

  /** `$group` by room number followed by `$sort` on it. */
  function GroupByRoom(es: seq<Entry>): (gs: seq<RoomIncome>)
    ensures StrictlyAscending(gs)
  {
    if es == [] then []
    else
      var init := GroupByRoom(es[..|es| - 1]);
      AddEntryAscending(init, es[|es| - 1]);
      AddEntry(init, es[|es| - 1])
  }

  /** Each line of the grouping carries exactly the room's income and payment count, and a room has
      a line exactly when some entry is for it. */
  lemma {:induction false} GroupByRoomCorrect(es: seq<Entry>, room: int)
    ensures IncomeIn(GroupByRoom(es), room) == RoomTotal(es, room)
    ensures CountIn(GroupByRoom(es), room) == RoomCount(es, room)
    ensures room in Rooms(GroupByRoom(es)) <==> exists k :: 0 <= k < |es| && es[k].roomNumber == room
  {
    if es != [] {
      var init := es[..|es| - 1];
      GroupByRoomCorrect(init, room);
      AddEntryIncome(GroupByRoom(init), es[|es| - 1], room);
      AddEntryRooms(GroupByRoom(init), es[|es| - 1]);
      if exists k :: 0 <= k < |init| && init[k].roomNumber == room {
        var k :| 0 <= k < |init| && init[k].roomNumber == room;
        assert es[k].roomNumber == room;
      }
      if exists k :: 0 <= k < |es| && es[k].roomNumber == room {
        var k :| 0 <= k < |es| && es[k].roomNumber == room;
        if k < |init| {
          assert init[k].roomNumber == room;
        }
      }
    }
  }

  /** The lines add up to the income of all entries. */
  lemma {:induction false} GroupByRoomTotal(es: seq<Entry>)
    ensures SumOf(GroupByRoom(es), GroupIncome) == SumOf(es, EntryAmount)
  {
    if es != [] {
      var init := es[..|es| - 1];
      GroupByRoomTotal(init);
      AddEntrySum(GroupByRoom(init), es[|es| - 1]);
      assert es == init + [es[|es| - 1]];
      SumOfAppend(init, [es[|es| - 1]], EntryAmount);
    }
  }

  // ---------------------------------------------------------------------------
  // Cancellations

  predicate CheckInInMonth(r: Reservation, range: MonthRange) {
    range.start <= r.checkIn < range.end
  }

  function InMonth(range: MonthRange): Reservation -> bool {
    (r: Reservation) => CheckInInMonth(r, range)
  }

  function CancelledInMonth(range: MonthRange): Reservation -> bool {
    (r: Reservation) => CheckInInMonth(r, range) && r.status == Cancelled
  }

  // ---------------------------------------------------------------------------
  // The report

  datatype Period = Period(year: int, month: int, monthLabel: string, start: int, end: int, daysInMonth: int)
  datatype Occupancy = Occupancy(roomsCount: nat, totalRoomNightsAvailable: int, totalNightsBooked: int, occupancyRate: real)
  datatype Income = Income(totalIncome: int, byRoom: seq<RoomIncome>)
  datatype Cancellations = Cancellations(totalReservations: nat, cancelledReservations: nat, cancellationRate: real)

  datatype ReportReply =
    | Message(text: string)
    | Report(period: Period, occupancy: Occupancy, income: Income, cancellations: Cancellations)

  /** `MONTH_NAMES[month - 1] + " " + year`. */
  function Label(year: nat, month: int): (s: string)
    requires 1 <= month <= 12
    ensures s == MonthNames[month - 1] + " " + NatToDecimal(year)
    ensures DecimalValue(s[|MonthNames[month - 1]| + 1..]) == year
  {
    var s := MonthNames[month - 1] + " " + NatToDecimal(year);
    assert s[|MonthNames[month - 1]| + 1..] == NatToDecimal(year);
    DecimalRoundTrip(year);
    s
  }

  /** The report for a validated year and month. */
  function MonthlyReport(rooms: seq<Room>, rs: seq<Reservation>, ps: seq<Payment>, year: nat, month: int): (reply: ReportReply)
    requires year >= 1900 && 1 <= month <= 12
    ensures reply.Report? && reply.period.year == year && reply.period.month == month
    ensures reply.occupancy.roomsCount == |rooms| && reply.income.totalIncome == SumOf(reply.income.byRoom, GroupIncome)
  {
    var range := BuildMonthRange(year, month);
    MonthStartAligned(year, month);
    var counted := Filter(rs, OccupancyFilter(range));
    var booked := SumOf(counted, NightsOf(range));
    var available := |rooms| * range.daysInMonth;
    var byRoom := GroupByRoom(IncomeEntries(ps, rs, range));
    var total := |Filter(rs, InMonth(range))|;
    var cancelled := |Filter(rs, CancelledInMonth(range))|;
    Report(
      Period(year, month, Label(year, month), range.start, range.end, range.daysInMonth),
      Occupancy(|rooms|, available, booked, Rate(booked, available)),
      Income(SumOf(byRoom, GroupIncome), byRoom),
      Cancellations(total, cancelled, Rate(cancelled, total)))
  }

  lemma MonthStartAligned(year: int, month: int)
    requires 1 <= month <= 12
    ensures WholeDays(BuildMonthRange(year, month))
  {
    DayMultiple(MonthStartDay(year, month));
  }

  lemma DayMultiple(d: int)
    ensures (d * MsPerDay) % MsPerDay == 0
  {
  }

  datatype ReportQuery = ReportQuery(year: Option<real>, month: Option<real>)

  /** `GET /reports/monthly`, with the current UTC year and month as parameters: the year defaults
      to the current one and must be an integer from 1900 on; the month defaults to the current
      one and must be an integer from 1 to 12. A month past what a JavaScript date can represent
      cannot be formatted, and the handler answers 500. A valid query gets the report of its year
      and month. */
  function GetMonthlyReport(rooms: seq<Room>, rs: seq<Reservation>, ps: seq<Payment>, q: ReportQuery,
                            currentYear: int, currentMonth: int): (res: Response<ReportReply>)
    ensures res.status == 200 || res.status == 400 || res.status == 500
    ensures res.status == 200 <==> res.body.Report?
    ensures var year := if q.year.Some? then q.year.value else currentYear as real;
      var month := if q.month.Some? then q.month.value else currentMonth as real;
      IsInteger(year) && year >= 1900.0 && IsInteger(month) && 1.0 <= month <= 12.0 ==>
        if BuildMonthRange(year.Floor, month.Floor).end <= MaxTime
        then res == Response(200, MonthlyReport(rooms, rs, ps, year.Floor, month.Floor))
        else res == Response(500, Message(MsgInternal))
  {
    var year := match ParseInteger(q.year) case Some(y) => y case None => currentYear as real;
    var month := match ParseInteger(q.month) case Some(m) => m case None => currentMonth as real;
    if !IsInteger(year) || year < 1900.0 then Response(400, Message(MsgBadYear))
    else if !IsInteger(month) || month < 1.0 || month > 12.0 then Response(400, Message(MsgBadMonth))
    else if BuildMonthRange(year.Floor, month.Floor).end > MaxTime then Response(500, Message(MsgInternal))
    else Response(200, MonthlyReport(rooms, rs, ps, year.Floor, month.Floor))
  }

  /** The validation of the query: which answers are 400s, and that every 200 is the report of an
      integer year from 1900 and a month from 1 to 12, the current ones when absent. */
  lemma ReportValidation(rooms: seq<Room>, rs: seq<Reservation>, ps: seq<Payment>, q: ReportQuery,
                         currentYear: int, currentMonth: int)
    ensures var res := GetMonthlyReport(rooms, rs, ps, q, currentYear, currentMonth);
      var year := if q.year.Some? then q.year.value else currentYear as real;
      var month := if q.month.Some? then q.month.value else currentMonth as real;
      && (res == Response(400, Message(MsgBadYear)) <==> !IsInteger(year) || year < 1900.0)
      && (res == Response(400, Message(MsgBadMonth)) <==>
            IsInteger(year) && year >= 1900.0 && (!IsInteger(month) || month < 1.0 || month > 12.0))
      && (res.status == 200 ==>
            && IsInteger(year) && year >= 1900.0 && IsInteger(month) && 1.0 <= month <= 12.0
            && res.body.Report? && res.body.period.year as real == year && res.body.period.month as real == month)
  {
  }

  /** The period of a report: the month's range, its length and its label. */
  lemma ReportPeriod(rooms: seq<Room>, rs: seq<Reservation>, ps: seq<Payment>, year: nat, month: int)
    requires year >= 1900 && 1 <= month <= 12
    ensures var reply := MonthlyReport(rooms, rs, ps, year, month);
      var range := BuildMonthRange(year, month);
      && reply.Report?
      && reply.period.year == year && reply.period.month == month
      && reply.period.start == range.start && reply.period.end == range.end
      && reply.period.end - reply.period.start == reply.period.daysInMonth * MsPerDay
      && reply.period.daysInMonth == DaysInMonth(year, month)
      && reply.period.monthLabel == MonthNames[month - 1] + " " + NatToDecimal(year)
  {
  }

  /** The occupancy of a report: one month of nights per room available, the booked nights as the
      sum of the nights each counted reservation spends in the month, and the rate as booked over
      available in percent, 0 when there is no room. */
  lemma ReportOccupancy(rooms: seq<Room>, rs: seq<Reservation>, ps: seq<Payment>, year: nat, month: int)
    requires year >= 1900 && 1 <= month <= 12
    ensures var reply := MonthlyReport(rooms, rs, ps, year, month);
      var range := BuildMonthRange(year, month);
      var counted := Filter(rs, OccupancyFilter(range));
      && WholeDays(range)
      && reply.occupancy.roomsCount == |rooms|
      && reply.occupancy.totalRoomNightsAvailable == |rooms| * DaysInMonth(year, month)
      && 0 <= reply.occupancy.totalNightsBooked <= |counted| * DaysInMonth(year, month)
      && reply.occupancy.totalNightsBooked == SumOf(counted, NightsOf(range))
      && (reply.occupancy.totalRoomNightsAvailable == 0 ==> reply.occupancy.occupancyRate == 0.0)
      && reply.occupancy.occupancyRate == Rate(reply.occupancy.totalNightsBooked, reply.occupancy.totalRoomNightsAvailable)
      && 0.0 <= reply.occupancy.occupancyRate
  {
    var range := BuildMonthRange(year, month);
    MonthStartAligned(year, month);
    BookedNightsBounded(rs, range);
    var counted := Filter(rs, OccupancyFilter(range));
    var booked := SumOf(counted, NightsOf(range));
    var available := |rooms| * range.daysInMonth;
    assert available >= 0;
    assert MonthlyReport(rooms, rs, ps, year, month).occupancy == Occupancy(|rooms|, available, booked, Rate(booked, available));
  }

  /** The cancellations of a report: the cancelled reservations of the month are among the month's
      reservations, the rate is their share in percent, so it lies between 0 and 100, and it is 0 in
      a month without any. */
  lemma ReportCancellations(rooms: seq<Room>, rs: seq<Reservation>, ps: seq<Payment>, year: nat, month: int)
    requires year >= 1900 && 1 <= month <= 12
    ensures var reply := MonthlyReport(rooms, rs, ps, year, month);
      var range := BuildMonthRange(year, month);
      && reply.cancellations.totalReservations == |Filter(rs, InMonth(range))|
      && reply.cancellations.cancelledReservations == |Filter(rs, CancelledInMonth(range))|
      && reply.cancellations.cancelledReservations <= reply.cancellations.totalReservations
      && 0.0 <= reply.cancellations.cancellationRate <= 100.0
      && (reply.cancellations.totalReservations == 0 ==> reply.cancellations.cancellationRate == 0.0)
      && reply.cancellations.cancellationRate == Rate(reply.cancellations.cancelledReservations, reply.cancellations.totalReservations)
  {
    var range := BuildMonthRange(year, month);
    FilterStrongerCountsLess(rs, CancelledInMonth(range), InMonth(range));
    var total := |Filter(rs, InMonth(range))|;
    var cancelled := |Filter(rs, CancelledInMonth(range))|;
    RateOfPartBounded(cancelled, total);
    assert MonthlyReport(rooms, rs, ps, year, month).cancellations == Cancellations(total, cancelled, Rate(cancelled, total));
  }

  /** The income of a report: lines in ascending room order whose incomes add up to the total, which
      is the sum of the month's payments that still have their reservation. */
  lemma ReportIncomeTotal(rooms: seq<Room>, rs: seq<Reservation>, ps: seq<Payment>, year: nat, month: int)
    requires year >= 1900 && 1 <= month <= 12
    ensures var reply := MonthlyReport(rooms, rs, ps, year, month);
      && StrictlyAscending(reply.income.byRoom)
      && reply.income.totalIncome == SumOf(reply.income.byRoom, GroupIncome)
      && reply.income.totalIncome == SumOf(IncomeEntries(ps, rs, BuildMonthRange(year, month)), EntryAmount)
      && reply.income.totalIncome == SumOf(Filter(ps, IncomeFilter(rs, BuildMonthRange(year, month))), PaidAmount)
  {
    GroupByRoomTotal(IncomeEntries(ps, rs, BuildMonthRange(year, month)));
    IncomeIsKeptPayments(ps, rs, BuildMonthRange(year, month));
  }

  /** The income lines of a report: one per room that was paid in the month, with the room's total
      and number of payments. */
  lemma ReportIncomeByRoom(rooms: seq<Room>, rs: seq<Reservation>, ps: seq<Payment>, year: nat, month: int, room: int)
    requires year >= 1900 && 1 <= month <= 12
    ensures var reply := MonthlyReport(rooms, rs, ps, year, month);
      var es := IncomeEntries(ps, rs, BuildMonthRange(year, month));
      && IncomeIn(reply.income.byRoom, room) == RoomTotal(es, room)
      && CountIn(reply.income.byRoom, room) == RoomCount(es, room)
      && (room in Rooms(reply.income.byRoom) <==> exists k :: 0 <= k < |es| && es[k].roomNumber == room)
  {
    GroupByRoomCorrect(IncomeEntries(ps, rs, BuildMonthRange(year, month)), room);
  }
}
