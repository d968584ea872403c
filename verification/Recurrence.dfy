/** Recurring schedules: the hand-written clamped month stepping, the library stepping of
    the recurring-journal service, and what repeated steps do to the day of the month. */
module Recurrence {
  import opened Calendar
  import opened Wrappers

  datatype Frequency = Daily | Weekly | Biweekly | Monthly | Quarterly | Annually | Unknown(name: string)

  datatype RunDates = RunDates(nextRun: Date, posting: Date)

  function Min(a: int, b: int): int {
    if a <= b then a else b
  }

  /** The date constructor: refuses a year past the library's maximum. */
  function MakeDate(year: int, month: int, day: int): (r: Option<Date>)
    requires Valid(Date(year, month, day))
    ensures r.Some? <==> Representable(Date(year, month, day))
    ensures r.Some? ==> r.value == Date(year, month, day)
  {
    if year <= MAX_YEAR then Some(Date(year, month, day)) else None
  }

  function PlusDays(d: Date, n: nat): (r: Option<Date>)
    requires Representable(d)
    ensures r.Some? ==> Representable(r.value)
  {
    var r := AddDays(d, n);
    if r.year <= MAX_YEAR then Some(r) else None
  }

  function MonthEndOf(d: Date): (r: Date)
    requires Valid(d)
    ensures Valid(r)
  {
    Date(d.year, d.month, DaysInMonth(d.year, d.month))
  }

  /** The branches of `calculate_period_dates` that find the next run. */
  function NextRun(frequency: Frequency, d: Date): (r: Option<Date>)
    requires Representable(d)
    ensures r.Some? ==> Representable(r.value)
  {
    match frequency
    case Daily => PlusDays(d, 1)
    case Weekly => PlusDays(d, 7)
    case Biweekly => PlusDays(d, 14)
    case Monthly =>
      if d.month == 12 then MakeDate(d.year + 1, 1, d.day)
      else MakeDate(d.year, d.month + 1, Min(d.day, DaysInMonth(d.year, d.month + 1)))
    case Quarterly =>
      var newMonth := d.month + 3;
      var year := d.year + (newMonth - 1) / 12;
      var month := (newMonth - 1) % 12 + 1;
      MakeDate(year, month, Min(d.day, DaysInMonth(year, month)))
    case Annually =>
      MakeDate(d.year + 1, d.month, Min(d.day, DaysInMonth(d.year + 1, d.month)))
    case Unknown(_) => PlusDays(d, 1)
  }

  function CalculatePeriodDates(frequency: Frequency, d: Date): Option<RunDates>
    requires Representable(d)
  {
    match NextRun(frequency, d)
    case None => None
    case Some(next) => Some(RunDates(next, if frequency == Monthly then MonthEndOf(next) else next))
  }

  // ---- The library's month arithmetic ---------------------------------------------

  /** `d + relativedelta(months=n)`: that many calendar months on, on the same day or the
      last day of a shorter month. */
  function AddMonths(d: Date, n: nat): (r: Date)
    requires Valid(d)
    ensures Valid(r)
    ensures MonthIndex(r) == MonthIndex(d) + n
  {
    var first := MonthStart(MonthIndex(d) + n);
    first.(day := Min(d.day, DaysInMonth(first.year, first.month)))
  }

  /** `_calculate_next_run`, before the library's year limit is applied. */
  function LibraryNextRun(frequency: Frequency, d: Date): (r: Date)
    requires Valid(d)
    ensures Valid(r)
  {
    match frequency
    case Daily => AddDays(d, 1)
    case Weekly => AddDays(d, 7)
    case Biweekly => AddDays(d, 14)
    case Monthly => AddMonths(d, 1)
    case Quarterly => AddMonths(d, 3)
    case Annually => AddMonths(d, 12)
    case Unknown(_) => d
  }

  lemma MonthIndexIsInjective(a: Date, b: Date)
    requires Valid(a) && Valid(b) && MonthIndex(a) == MonthIndex(b)
    ensures a.year == b.year && a.month == b.month
  {
  }

  /** The clamped day of the month a step lands in. */
  lemma StepLandsIn(d: Date, n: nat, year: int, month: int)
    requires Valid(d) && 1 <= month <= 12 && 12 * year + month - 1 == MonthIndex(d) + n
    ensures AddMonths(d, n) == Date(year, month, Min(d.day, DaysInMonth(year, month)))
  {
    MonthIndexIsInjective(AddMonths(d, n), Date(year, month, 1));
  }

  /** The library's result, cut off at the last year it can represent. */
  function UpToMaxYear(d: Date): Option<Date> {
    if d.year <= MAX_YEAR then Some(d) else None
  }

  lemma MonthlyAgrees(d: Date)
    requires Representable(d)
    ensures NextRun(Monthly, d) == UpToMaxYear(AddMonths(d, 1))
  {
    if d.month == 12 {
      StepLandsIn(d, 1, d.year + 1, 1);
    } else {
      StepLandsIn(d, 1, d.year, d.month + 1);
    }
  }

  lemma ThreeMonthsOn(month: int)
    requires 1 <= month <= 12
    ensures (month + 3 - 1) / 12 == if month <= 9 then 0 else 1
    ensures (month + 3 - 1) % 12 + 1 == if month <= 9 then month + 3 else month - 9
  {
  }

  lemma QuarterlyAgrees(d: Date)
    requires Representable(d)
    ensures NextRun(Quarterly, d) == UpToMaxYear(AddMonths(d, 3))
  {
    ThreeMonthsOn(d.month);
    var year, month := if d.month <= 9 then d.year else d.year + 1, if d.month <= 9 then d.month + 3 else d.month - 9;
    StepLandsIn(d, 3, year, month);
    assert NextRun(Quarterly, d) == MakeDate(year, month, Min(d.day, DaysInMonth(year, month)));
  }

  lemma AnnuallyAgrees(d: Date)
    requires Representable(d)
    ensures NextRun(Annually, d) == UpToMaxYear(AddMonths(d, 12))
  {
    StepLandsIn(d, 12, d.year + 1, d.month);
  }

  /** The two schedulers agree on every known frequency, and an unknown one is where they
      part: a day later in one, the same day in the other. */
  lemma {:induction false} SchedulersAgree(frequency: Frequency, d: Date)
    requires Representable(d)
    ensures !frequency.Unknown? ==> NextRun(frequency, d) == UpToMaxYear(LibraryNextRun(frequency, d))
    ensures frequency.Unknown? && NextRun(frequency, d).Some? ==>
              NextRun(frequency, d).value == NextDay(LibraryNextRun(frequency, d))
  {
    match frequency
    case Monthly => MonthlyAgrees(d);
    case Quarterly => QuarterlyAgrees(d);
    case Annually => AnnuallyAgrees(d);
    case Unknown(_) => assert AddDays(d, 1) == NextDay(AddDays(d, 0));
    case _ =>
  }

  lemma LaterByDays(d: Date, n: nat)
    requires Valid(d) && n > 0
    ensures Before(d, AddDays(d, n))
  {
    AddDaysAddsToOrdinal(d, n);
    OrderIsOrdinalOrder(d, AddDays(d, n));
  }

  /** Every frequency yields a valid, strictly later run date, posted on or after it and in
      the same month, unless that run falls past the calendar's last year. */
  lemma {:induction false} NextRunIsLater(frequency: Frequency, d: Date)
    requires Representable(d)
    ensures CalculatePeriodDates(frequency, d).Some? ==>
              var r := CalculatePeriodDates(frequency, d).value;
              && Representable(r.nextRun) && Before(d, r.nextRun)
              && Representable(r.posting) && OnOrBefore(r.nextRun, r.posting)
              && MonthIndex(r.posting) == MonthIndex(r.nextRun)
    ensures CalculatePeriodDates(frequency, d).None? ==> d.year >= MAX_YEAR
  {
    match frequency
    case Daily => LaterByDays(d, 1); ShortStepStaysNear(d, 1);
    case Weekly => LaterByDays(d, 7); ShortStepStaysNear(d, 7);
    case Biweekly => LaterByDays(d, 14); ShortStepStaysNear(d, 14);
    case Unknown(_) => LaterByDays(d, 1); ShortStepStaysNear(d, 1);
    case _ =>
  }

  /** A monthly run is posted on the last day of the month it falls in, every other run on its
      own day. */
  lemma PostingDates(frequency: Frequency, d: Date)
    requires Representable(d) && CalculatePeriodDates(frequency, d).Some?
    ensures var r := CalculatePeriodDates(frequency, d).value;
            && Some(r.nextRun) == NextRun(frequency, d)
            && (frequency.Monthly? ==>
                  r.posting.year == r.nextRun.year && r.posting.month == r.nextRun.month
                  && NextDay(r.posting).day == 1)
            && (!frequency.Monthly? ==> r.posting == r.nextRun)
  {
  }

  /** Up to four weeks on is at most the next month. */
  lemma {:induction false} ShortStepStaysNear(d: Date, n: nat)
    requires Valid(d) && n <= 28
    ensures var r := AddDays(d, n);
            (r.year == d.year && r.month == d.month && r.day == d.day + n)
            || (r.day <= n && r.year <= d.year + 1 && (r.year > d.year ==> d.month == 12))
  {
    if n > 0 {
      ShortStepStaysNear(d, n - 1);
    }
  }

  // ---- Repeated steps -------------------------------------------------------------

  /** `n` monthly runs, one after the other. */
  function IterateMonths(d: Date, n: nat): (r: Date)
    requires Valid(d)
    ensures Valid(r)
  {
    if n == 0 then d else AddMonths(IterateMonths(d, n - 1), 1)
  }

  /** The length of the month `k` months after that of `d`. */
  function LengthAfter(d: Date, k: nat): int
    requires Valid(d)
  {
    var first := MonthStart(MonthIndex(d) + k);
    DaysInMonth(first.year, first.month)
  }

  /** The smallest day that the months after `d`, up to the `n`-th, have let through. */
  function ClampedDay(d: Date, n: nat): int
    requires Valid(d)
  {
    if n == 0 then d.day else Min(ClampedDay(d, n - 1), LengthAfter(d, n))
  }

  /** A monthly step clamps the day to the month it lands in. */
  lemma StepClamps(previous: Date, d: Date, n: nat)
    requires Valid(previous) && Valid(d) && MonthIndex(previous) + 1 == MonthIndex(d) + n
    ensures AddMonths(previous, 1).day == Min(previous.day, LengthAfter(d, n))
  {
    assert MonthStart(MonthIndex(previous) + 1) == MonthStart(MonthIndex(d) + n);
  }

  /** Repeated monthly steps land in the month of the direct step; the day is clamped by
      every month on the way, not by the last one alone. */
  lemma {:induction false} IterateMonthsClamps(d: Date, n: nat)
    requires Valid(d)
    ensures MonthIndex(IterateMonths(d, n)) == MonthIndex(d) + n
    ensures IterateMonths(d, n).day == ClampedDay(d, n)
  {
    if n > 0 {
      IterateMonthsClamps(d, n - 1);
      StepClamps(IterateMonths(d, n - 1), d, n);
    }
  }

  lemma {:induction false} ClampedDayIsMinimum(d: Date, n: nat, bound: int)
    requires Valid(d)
    ensures bound <= ClampedDay(d, n) <==> bound <= d.day && forall k :: 1 <= k <= n ==> bound <= LengthAfter(d, k)
  {
    if n > 0 {
      ClampedDayIsMinimum(d, n - 1, bound);
    }
  }

  /** Repeated steps never overshoot the direct step, and meet it exactly when no month on
      the way is shorter than the day the direct step lands on. */
  lemma {:induction false} IterateMeetsDirectStep(d: Date, n: nat)
    requires Valid(d)
    ensures OnOrBefore(IterateMonths(d, n), AddMonths(d, n))
    ensures MonthIndex(IterateMonths(d, n)) == MonthIndex(AddMonths(d, n))
    ensures IterateMonths(d, n) == AddMonths(d, n)
            <==> forall k :: 1 <= k < n ==> Min(d.day, LengthAfter(d, n)) <= LengthAfter(d, k)
  {
    IterateMonthsClamps(d, n);
    MonthIndexIsInjective(IterateMonths(d, n), AddMonths(d, n));
    var next := MonthStart(MonthIndex(d) + n);
    StepLandsIn(d, n, next.year, next.month);
    var direct := Min(d.day, LengthAfter(d, n));
    assert AddMonths(d, n).day == direct;
    ClampedDayIsMinimum(d, n, direct);
    ClampedDayIsMinimum(d, n, ClampedDay(d, n));
    if n == 0 {
      assert d.day <= DaysInMonth(d.year, d.month);
      MonthIndexIsInjective(next, d);
    } else {
      assert ClampedDay(d, n) <= LengthAfter(d, n);
    }
  }

  /** Up to the twenty-eighth, three monthly runs are one quarterly run and twelve are one
      annual run, in the scheduler's own branches. */
  lemma {:induction false} EarlyDaysCompose(d: Date)
    requires Representable(d) && d.day <= 28 && d.year < MAX_YEAR
    ensures NextRun(Quarterly, d) == Some(IterateMonths(d, 3))
    ensures NextRun(Annually, d) == Some(IterateMonths(d, 12))
  {
    IterateMeetsDirectStep(d, 3);
    IterateMeetsDirectStep(d, 12);
    SchedulersAgree(Quarterly, d);
    SchedulersAgree(Annually, d);
    StepLandsIn(d, 12, d.year + 1, d.month);
    StepLandsIn(d, 3, d.year + (d.month + 2) / 12, (d.month + 2) % 12 + 1);
  }

  /** The clamp is lossy from the twenty-ninth on: two monthly runs from the last day of
      January pass through February and end three days short of the direct step. */
  lemma {:induction false} LateDaysDrift()
    ensures IterateMonths(Date(2026, 1, 31), 2) == Date(2026, 3, 28)
    ensures AddMonths(Date(2026, 1, 31), 2) == Date(2026, 3, 31)
  {
    StepLandsIn(Date(2026, 1, 31), 1, 2026, 2);
    StepLandsIn(Date(2026, 2, 28), 1, 2026, 3);
    StepLandsIn(Date(2026, 1, 31), 2, 2026, 3);
    assert IterateMonths(Date(2026, 1, 31), 1) == AddMonths(IterateMonths(Date(2026, 1, 31), 0), 1);
  }
}
