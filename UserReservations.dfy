/** A visitor's side of reservations: booking an office for a date range,
    cancelling a booking, and listing one's own reservations. */
module UserReservations {
  import opened Common
  import opened ReservationStatusEnum
  import OA = OfficeApprovalStatusEnum
  import opened ReservationModel
  import opened OfficeModel
  import opened ReservationPolicy
  import opened ReservationQueries

  const SecondsPerDay: int := 86400

  type SecondOfDay = s: int | 0 <= s < 86400

  /** An instant as the request carries it: a date and a time of day.
      Stored reservations keep only the date. */
  datatype Moment = Moment(day: Day, second: SecondOfDay)

  /** `a` is strictly earlier than `b`. */
  predicate Before(a: Moment, b: Moment)
  {
    a.day < b.day || (a.day == b.day && a.second < b.second)
  }

  /** Midnight at the start of `d` (what the word `today` denotes in a
      date-validation rule). */
  function StartOfDay(d: Day): Moment
  {
    Moment(d, 0)
  }

  // ---------------------------------------------------------------------
  // Number of days and price

  /** Whole days between two instants given in seconds, regardless of their
      order (Carbon's `diffInDays`). */
  function DiffInDays(a: int, b: int): nat
  {
    (if a >= b then a - b else b - a) / SecondsPerDay
  }

  /** The day count of a booking: whole days from the start of the first
      day to the end of the last one, plus one. */
  function Days(startDay: Day, endDay: Day): (n: int)
    ensures startDay <= endDay ==> n == endDay - startDay + 1
    ensures endDay < startDay ==> n == startDay - endDay
  {
    var endOfLastDay := endDay * SecondsPerDay + (SecondsPerDay - 1);
    var startOfFirstDay := startDay * SecondsPerDay;
    DiffInDays(endOfLastDay, startOfFirstDay) + 1
  }

  /** The calendar days from `startDay` to `endDay`, both included. */
  function DayRange(startDay: Day, endDay: Day): (days: set<Day>)
    ensures forall d :: d in days <==> startDay <= d <= endDay
    decreases endDay - startDay
  {
    if endDay < startDay then {} else DayRange(startDay, endDay - 1) + {endDay}
  }

  /** `Days` counts exactly the calendar days a range covers. */
  lemma {:induction false} DaysCountsCalendarDays(startDay: Day, endDay: Day)
    requires startDay <= endDay
    ensures |DayRange(startDay, endDay)| == Days(startDay, endDay)
    decreases endDay - startDay
  {
    if startDay < endDay {
      DaysCountsCalendarDays(startDay, endDay - 1);
      assert endDay !in DayRange(startDay, endDay - 1);
    }
  }

  /** With date-only inputs (both at midnight), a start strictly before the
      end always spans at least two days, so the one-day refusal can only
      be reached through times of day on the same date. */
  lemma MidnightRangesSpanTwoDays(start: Moment, end: Moment)
    requires start.second == 0 && end.second == 0
    requires Before(start, end)
    ensures Days(start.day, end.day) >= 2
  {
  }

  /** The number of days of the booking discounted by the monthly discount. */
  const MonthlyDays: int := 28

  /** PHP's `(int)` of a float: the whole part, rounding toward zero. */
  function TruncToInt(x: real): (n: int)
    ensures 0.0 <= x ==> 0 <= n && n as real <= x < n as real + 1.0
    ensures x < 0.0 ==> n <= 0 && x <= n as real < x + 1.0
  {
    if x >= 0.0 then x.Floor else -((-x).Floor)
  }

  /** The price of a booking: `days` times the daily rate, reduced by
      `monthlyDiscount` percent when the stay lasts 28 days or more and the
      discount is not zero. The reduced price is a fraction in general; the
      record's integer cast keeps its whole part. */
  function Price(days: int, pricePerDay: int, monthlyDiscount: int): (price: int)
    ensures 0 <= days && 0 <= pricePerDay && 0 <= monthlyDiscount <= 100 ==>
              0 <= price <= days * pricePerDay
  {
    var base := days * pricePerDay;
    if days >= MonthlyDays && monthlyDiscount != 0 then
      DiscountBounded(base, monthlyDiscount);
      TruncToInt(base as real - (base * monthlyDiscount) as real / 100.0)
    else
      base
  }

  lemma DiscountBounded(base: int, discount: int)
    ensures 0 <= base && 0 <= discount <= 100 ==>
              0.0 <= base as real - (base * discount) as real / 100.0 <= base as real
  {
    if 0 <= base && 0 <= discount <= 100 {
      assert 0 <= base * discount <= base * 100;
    }
  }

  /** In whole units: for a discount of at most 100 percent the reduction is
      rounded up, so the price is the base less the reduction's ceiling. */
  lemma PriceRoundsReductionUp(days: int, pricePerDay: int, monthlyDiscount: int)
    requires days >= MonthlyDays && 0 <= pricePerDay && 0 < monthlyDiscount <= 100
    ensures Price(days, pricePerDay, monthlyDiscount) ==
            days * pricePerDay - (days * pricePerDay * monthlyDiscount + 99) / 100
  {
    var base := days * pricePerDay;
    CutBounded(base, monthlyDiscount);
    TruncLessHundredths(base, base * monthlyDiscount);
  }

  /** A reduction of at most 100 percent is at most the whole base. */
  lemma CutBounded(base: int, discount: int)
    requires 0 <= base && 0 < discount <= 100
    ensures 0 <= base * discount <= 100 * base
  {
  }

  /** Taking `cut` hundredths off a whole `base` and truncating leaves the
      base less `cut` hundredths rounded up. */
  lemma TruncLessHundredths(base: int, cut: int)
    requires 0 <= cut <= 100 * base
    ensures TruncToInt(base as real - cut as real / 100.0) == base - (cut + 99) / 100
  {
    var up := (cut + 99) / 100;
    assert cut <= up * 100 < cut + 100;
    var x := base as real - cut as real / 100.0;
    assert (base - up) as real <= x < (base - up) as real + 1.0;
  }

  /** Under 28 days, or with no discount, the price is the plain product. */
  lemma NoDiscountBelowMonth(days: int, pricePerDay: int, monthlyDiscount: int)
    requires days < MonthlyDays || monthlyDiscount == 0
    ensures Price(days, pricePerDay, monthlyDiscount) == days * pricePerDay
  {
  }

  /** Whenever the discount amount is a whole number, the price is exactly
      the base price less `monthlyDiscount` percent. */
  lemma PriceExactWhenDivisible(days: int, pricePerDay: int, monthlyDiscount: int)
    requires days >= MonthlyDays
    requires (days * pricePerDay * monthlyDiscount) % 100 == 0
    ensures Price(days, pricePerDay, monthlyDiscount) * 100 == days * pricePerDay * (100 - monthlyDiscount)
  {
    var base := days * pricePerDay;
    var cut := base * monthlyDiscount;
    assert cut == cut / 100 * 100;
    assert base * (100 - monthlyDiscount) == base * 100 - cut;
    if monthlyDiscount != 0 {
      var whole := base - cut / 100;
      assert base as real - cut as real / 100.0 == whole as real;
      assert Price(days, pricePerDay, monthlyDiscount) == TruncToInt(whole as real);
    }
  }

  /** An office at 1000 a day with 10 percent off monthly: 2 days cost
      2000, 27 days 27000, 40 days 36000. At 101 a day with 15 percent off,
      28 days come to 2403.8, kept as 2403. */
  lemma PriceExamples()
    ensures Price(2, 1000, 10) == 2000
    ensures Price(27, 1000, 10) == 27000
    ensures Price(40, 1000, 10) == 36000
    ensures Price(28, 101, 15) == 2403
  {
    assert 40000.0 - 400000 as real / 100.0 == 36000.0;
    assert 2828.0 - 42420 as real / 100.0 == 2403.8;
  }

  // ---------------------------------------------------------------------
  // Booking

  datatype BookingField = OfficeIdField | StartDateField | EndDateField

  datatype BookingError =
    | Invalid(fields: set<BookingField>)  // request validation failed on these fields
    | OnlyOneDay                          // "You Cannot Make a Reservation For Only one day"
    | DuringThisTime                      // "You Cannot Make a Reservation During This Time"

  datatype CancelError = NotFound | Forbidden

  /** The `office_id` rule: an office with that id exists that the caller
      does not own, that is not hidden and that is APPROVED. */
  predicate Eligible(offices: seq<Office>, officeId: nat, caller: nat)
    ensures UniqueIds(offices) ==>
              (Eligible(offices, officeId, caller) <==>
                 && FindOffice(offices, officeId).Some?
                 && FindOffice(offices, officeId).value.userId != caller
                 && !FindOffice(offices, officeId).value.hidden
                 && FindOffice(offices, officeId).value.approvalStatus == OA.ApprovalApproved)
  {
    exists o :: o in offices && o.id == officeId && o.userId != caller && !o.hidden
                && o.approvalStatus == OA.ApprovalApproved
  }

  /** The fields that fail the booking request's validation. `start_date`
      must be after today's midnight and before `end_date`; `end_date` must
      be after `start_date`. */
  function BookingErrors(offices: seq<Office>, caller: nat, officeId: nat,
                         start: Moment, end: Moment, today: Day): (errs: set<BookingField>)
    ensures errs == {} <==>
              Eligible(offices, officeId, caller) && Before(StartOfDay(today), start) && Before(start, end)
    ensures Before(start, end) ==> EndDateField !in errs
  {
    (if Eligible(offices, officeId, caller) then {} else {OfficeIdField})
    + (if Before(StartOfDay(today), start) && Before(start, end) then {} else {StartDateField})
    + (if Before(start, end) then {} else {EndDateField})
  }

  /** A start on today's date (its midnight, or any earlier instant) is
      refused, whatever the rest of the request; a start at any later time
      of today passes the date rule. */
  lemma StartMustBeAfterTodaysMidnight(offices: seq<Office>, caller: nat, officeId: nat,
                                       start: Moment, end: Moment, today: Day)
    ensures start.day < today || start == StartOfDay(today) ==>
              StartDateField in BookingErrors(offices, caller, officeId, start, end, today)
    ensures start.day == today && start.second > 0 && Before(start, end) ==>
              StartDateField !in BookingErrors(offices, caller, officeId, start, end, today)
  {
  }

  /** The reservations table as the booking and cancellation paths see it. */
  class ReservationStore {
    var reservations: seq<Reservation>
    var nextId: nat

    /** Ids are increasing and below `nextId`, every stored range spans at
        least two days, and no two ACTIVE reservations of one office
        overlap. */
    ghost predicate Valid()
      reads this
    {
      && (forall i :: 0 <= i < |reservations| ==>
            reservations[i].id < nextId && reservations[i].startDate < reservations[i].endDate)
      && (forall i, j :: 0 <= i < j < |reservations| ==> reservations[i].id < reservations[j].id)
      && NoOverlap(reservations)
    }

    constructor ()
      ensures Valid()
      ensures reservations == [] && nextId == 1
    {
      reservations := [];
      nextId := 1;
    }

    /** Book `officeId` for `caller` from `start` to `end`. The checks run in
        the order of the request: validation, then the day count, then the
        conflict with ACTIVE reservations of the same office; only then is
        one ACTIVE reservation appended. The whole body runs as one atomic
        step, which is what the per-office lock provides. */
    method Book(offices: seq<Office>, caller: nat, officeId: nat, start: Moment, end: Moment,
                today: Day, wifiPassword: string)
      returns (r: Result<Reservation, BookingError>)
      requires Valid()
      requires UniqueIds(offices)
      modifies this
      ensures Valid()
      ensures var errs := BookingErrors(offices, caller, officeId, start, end, today);
              errs != {} ==>
                && r == Err(Invalid(errs))
                && reservations == old(reservations) && nextId == old(nextId)
      ensures BookingErrors(offices, caller, officeId, start, end, today) == {} &&
              Days(start.day, end.day) < 2 ==>
                && r == Err(OnlyOneDay)
                && reservations == old(reservations) && nextId == old(nextId)
      ensures BookingErrors(offices, caller, officeId, start, end, today) == {} &&
              Days(start.day, end.day) >= 2 &&
              HasConflict(old(reservations), officeId, start.day, end.day) ==>
                && r == Err(DuringThisTime)
                && reservations == old(reservations) && nextId == old(nextId)
      ensures BookingErrors(offices, caller, officeId, start, end, today) == {} &&
              Days(start.day, end.day) >= 2 &&
              !HasConflict(old(reservations), officeId, start.day, end.day) ==>
                var office := FindOffice(offices, officeId).value;
                && r == Ok(Reservation(old(nextId), caller, officeId,
                                       Price(Days(start.day, end.day), office.pricePerDay, office.monthlyDiscount),
                                       StatusActive, start.day, end.day, wifiPassword))
                && reservations == old(reservations) + [r.value]
                && nextId == old(nextId) + 1
    {
      var errors := BookingErrors(offices, caller, officeId, start, end, today);
      if errors != {} {
        return Err(Invalid(errors));
      }
      var office := FindOffice(offices, officeId).value;
      var numberOfDays := Days(start.day, end.day);
      if numberOfDays < 2 {
        return Err(OnlyOneDay);
      }
      if HasConflict(reservations, officeId, start.day, end.day) {
        return Err(DuringThisTime);
      }
      var price := Price(numberOfDays, office.pricePerDay, office.monthlyDiscount);
      var reservation := Reservation(nextId, caller, officeId, price, StatusActive,
                                     start.day, end.day, wifiPassword);
      AppendKeepsNoOverlap(reservations, reservation);
      reservations := reservations + [reservation];
      nextId := nextId + 1;
      r := Ok(reservation);
    }

    /** Cancel reservation `id` on behalf of `caller`: refused unless the
        cancellation policy allows it; otherwise only its status changes,
        to CANCELLED. */
    method Cancel(caller: nat, id: nat, today: Day) returns (r: Result<Reservation, CancelError>)
      requires Valid()
      modifies this
      ensures Valid()
      ensures nextId == old(nextId)
      ensures (forall i :: 0 <= i < |old(reservations)| ==> old(reservations)[i].id != id) ==>
                r == Err(NotFound) && reservations == old(reservations)
      ensures forall i :: 0 <= i < |old(reservations)| && old(reservations)[i].id == id ==>
                if CanCancel(caller, old(reservations)[i], today) then
                  && r == Ok(old(reservations)[i].(status := StatusCancelled))
                  && reservations == old(reservations)[i := r.value]
                else
                  r == Err(Forbidden) && reservations == old(reservations)
    {
      if k :| 0 <= k < |reservations| && reservations[k].id == id {
        var reservation := reservations[k];
        if !CanCancel(caller, reservation, today) {
          return Err(Forbidden);
        }
        var cancelled := reservation.(status := StatusCancelled);
        CancelKeepsNoOverlap(reservations, k);
        reservations := reservations[k := cancelled];
        r := Ok(cancelled);
      } else {
        r := Err(NotFound);
      }
    }
  }

  // ---------------------------------------------------------------------
  // Listing

  /** The caller's reservations, narrowed by office, status and date
      window as the query asks. */
  function UserIndex(rs: seq<Reservation>, caller: nat, q: ReservationQuery)
    : (r: Result<seq<Reservation>, set<QueryField>>)
    ensures r.Err? <==> QueryErrors(q) != {}
    ensures r.Err? ==> r.error == QueryErrors(q)
    ensures r.Ok? ==> forall x :: x in r.value ==> x in rs && x.userId == caller
    ensures r.Ok? && Given(q.officeId) ==> forall x :: x in r.value ==> x.officeId == q.officeId.value
    ensures r.Ok? && q.status.Some? ==> forall x :: x in r.value ==> Status(x.status) == q.status.value
    ensures r.Ok? && q.fromDate.Some? ==>
              forall x :: x in r.value && x.startDate <= x.endDate ==>
                x.startDate <= q.toDate.value && q.fromDate.value <= x.endDate
    ensures r.Ok? ==> forall x :: x in rs && x.userId == caller && Narrowed(x, q) ==> x in r.value
  {
    if QueryErrors(q) != {} then Err(QueryErrors(q))
    else Ok(Filter(rs, (x: Reservation) => x.userId == caller && Narrowed(x, q)))
  }

  /** A reservation of office 1 with the given user and dates. */
  function SampleRow(id: nat, userId: nat, startDate: Day, endDate: Day): Reservation
  {
    Reservation(id, userId, 1, 1000, StatusActive, startDate, endDate, "")
  }

  /** Seven reservations; dates are days since 1970-01-01. The first four
      meet the window 2021-03-03 .. 2021-04-04 (three inside or across an
      edge, one enclosing it), the next two lie before and after it, and the
      last one meets it but belongs to another user. */
  function SampleRows(): seq<Reservation>
  {
    [ SampleRow(1, 1, 18687, 18718)   // 2021-03-01 .. 2021-04-01
    , SampleRow(2, 1, 18711, 18732)   // 2021-03-25 .. 2021-04-15
    , SampleRow(3, 1, 18711, 18715)   // 2021-03-25 .. 2021-03-29
    , SampleRow(4, 1, 18683, 18748)   // 2021-02-25 .. 2021-05-01
    , SampleRow(5, 1, 18683, 18687)   // 2021-02-25 .. 2021-03-01
    , SampleRow(6, 1, 18772, 18779)   // 2021-05-25 .. 2021-06-01
    , SampleRow(7, 2, 18691, 18707)   // 2021-03-05 .. 2021-03-21
    ]
  }

  /** User 1 asking for 2021-03-03 .. 2021-04-04 gets exactly the first four. */
  lemma SampleWindowListsFirstFour()
    ensures var r := UserIndex(SampleRows(), 1, ReservationQuery(None, None, None, Some(18689), Some(18721)));
            r.Ok? && forall x :: x in r.value <==> x in SampleRows()[..4]
  {
    var q := ReservationQuery(None, None, None, Some(18689), Some(18721));
    var s := SampleRows();
    var kept := (x: Reservation) => x.userId == 1 && Narrowed(x, q);
    forall i | 0 <= i < |s|
      ensures kept(s[i]) <==> i < 4
    {
      SampleRowKept(i);
    }
    FilterKeepsPrefix(s, kept, 4);
    assert UserIndex(s, 1, q) == Ok(Filter(s, kept));
  }

  /** Row by row: the first four rows meet the window of 2021-03-03 ..
      2021-04-04, rows 5 and 6 lie before and after it, row 7 is another
      user's. */
  lemma SampleRowKept(i: nat)
    requires i < 7
    ensures var x := SampleRows()[i];
            x.userId == 1 && Narrowed(x, ReservationQuery(None, None, None, Some(18689), Some(18721))) <==> i < 4
  {
    var s := SampleRows();
    if i == 4 {
      assert !BetweenDates(18683, 18687, 18689, 18721);
    } else if i == 5 {
      assert !BetweenDates(18772, 18779, 18689, 18721);
    } else if i == 6 {
      assert s[6].userId == 2;
    }
  }

  // ---------------------------------------------------------------------
  // End to end

  /** The office the scenarios below book: 1000 a day, 10 percent off
      monthly, approved and visible, owned by user 10. */
  function ScenarioOffice(): Office
  {
    Office(1, 10, "Office", "Desk", 0.0, 0.0, "Street 1", OA.ApprovalApproved, false, 1000, 10, None, {})
  }

  /** A request from tomorrow 09:00 to tomorrow 10:00 (one day later and
      25 hours later than 09:00 today) is refused as a one-day booking. */
  method OneDayScenario()
  {
    var store := new ReservationStore();
    var today: Day := 19000;
    var offices := [ScenarioOffice()];
    assert ScenarioOffice() in offices;
    var oneDay := store.Book(offices, 1, 1, Moment(today + 1, 32400), Moment(today + 1, 36000), today, "p0");
    assert BookingErrors(offices, 1, 1, Moment(today + 1, 32400), Moment(today + 1, 36000), today) == {};
    assert oneDay == Err(OnlyOneDay);
  }

  /** A 40-day booking costs 36000, and an overlapping request by someone
      else is then refused. */
  method BookingScenario()
  {
    var store := new ReservationStore();
    var today: Day := 19000;
    var offices := [ScenarioOffice()];
    assert ScenarioOffice() in offices;
    assert FindOffice(offices, 1) == Some(ScenarioOffice());

    var month := store.Book(offices, 1, 1, Moment(today + 1, 0), Moment(today + 40, 0), today, "p1");
    assert BookingErrors(offices, 1, 1, Moment(today + 1, 0), Moment(today + 40, 0), today) == {};
    PriceExamples();
    assert month == Ok(Reservation(1, 1, 1, 36000, StatusActive, today + 1, today + 40, "p1"));

    var clash := store.Book(offices, 2, 1, Moment(today + 20, 0), Moment(today + 25, 0), today, "p2");
    assert BookingErrors(offices, 2, 1, Moment(today + 20, 0), Moment(today + 25, 0), today) == {};
    assert ActiveBetween(store.reservations[0], today + 20, today + 25);
    assert clash == Err(DuringThisTime);
  }

  /** A 40-day booking is cancelled by its user, a second cancel is
      refused, and the range it held can then be booked again. */
  method CancelThenRebookScenario()
  {
    var store := new ReservationStore();
    var today: Day := 19000;
    var offices := [ScenarioOffice()];
    assert ScenarioOffice() in offices;
    assert FindOffice(offices, 1) == Some(ScenarioOffice());

    var month := store.Book(offices, 1, 1, Moment(today + 1, 0), Moment(today + 40, 0), today, "p1");
    assert BookingErrors(offices, 1, 1, Moment(today + 1, 0), Moment(today + 40, 0), today) == {};
    assert month.Ok? && store.reservations == [month.value];
    var booked := month.value;
    assert booked.id == 1 && booked.userId == 1 && booked.status == StatusActive && booked.startDate == today + 1;

    assert store.reservations[0].id == 1 && CanCancel(1, store.reservations[0], today);
    var cancelled := store.Cancel(1, 1, today);
    var stored := booked.(status := StatusCancelled);
    assert cancelled == Ok(stored) && store.reservations == [stored];

    assert store.reservations[0].id == 1;
    assert !CanCancel(1, stored, today);
    var again := store.Cancel(1, 1, today);
    assert again == Err(Forbidden) && store.reservations == [stored];

    var later := store.Book(offices, 3, 1, Moment(today + 20, 0), Moment(today + 25, 0), today, "p3");
    assert BookingErrors(offices, 3, 1, Moment(today + 20, 0), Moment(today + 25, 0), today) == {};
    assert !HasConflict([stored], 1, today + 20, today + 25);
    assert later.Ok?;
  }
}
