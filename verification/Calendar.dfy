/** The proleptic Gregorian calendar of `datetime.date`: valid dates, their order, the
    day after and the day before, and the closed-form day number that ties them together. */
module Calendar {

  const MAX_YEAR := 9999

  datatype Date = Date(year: int, month: int, day: int)

  predicate IsLeap(year: int) {
    year % 4 == 0 && (year % 100 != 0 || year % 400 == 0)
  }

  function DaysInMonth(year: int, month: int): (n: int)
    ensures 28 <= n <= 31
  {
    if month == 2 then (if IsLeap(year) then 29 else 28)
    else if month in {4, 6, 9, 11} then 30
    else 31
  }

  /** A date of the calendar; the library's own type also stops at `MAX_YEAR`. */
  predicate Valid(d: Date) {
    1 <= d.year && 1 <= d.month <= 12 && 1 <= d.day <= DaysInMonth(d.year, d.month)
  }

  predicate Representable(d: Date) {
    Valid(d) && d.year <= MAX_YEAR
  }

  /** The order of `date.__lt__`: year, then month, then day. */
  predicate Before(a: Date, b: Date) {
    a.year < b.year
    || (a.year == b.year && (a.month < b.month || (a.month == b.month && a.day < b.day)))
  }

  predicate OnOrBefore(a: Date, b: Date) {
    !Before(b, a)
  }

  /** Months counted from the start of year zero; December of one year precedes January
      of the next by one. */
  function MonthIndex(d: Date): int {
    12 * d.year + d.month - 1
  }

  function MonthStart(index: int): (d: Date)
    ensures MonthIndex(d) == index && d.day == 1 && 1 <= d.month <= 12
    ensures index >= 12 ==> Valid(d)
  {
    Date(index / 12, index % 12 + 1, 1)
  }

  function MonthEnd(index: int): (d: Date)
    ensures MonthIndex(d) == index && 1 <= d.month <= 12
    ensures index >= 12 ==> Valid(d)
  {
    var first := MonthStart(index);
    first.(day := DaysInMonth(first.year, first.month))
  }

  /** `d + timedelta(days=1)`. */
  function NextDay(d: Date): (r: Date)
    requires Valid(d)
    ensures Valid(r)
  {
    if d.day < DaysInMonth(d.year, d.month) then d.(day := d.day + 1)
    else if d.month < 12 then Date(d.year, d.month + 1, 1)
    else Date(d.year + 1, 1, 1)
  }

  /** `d - timedelta(days=1)`. */
  function PreviousDay(d: Date): (r: Date)
    requires Valid(d) && d != Date(1, 1, 1)
    ensures Valid(r)
  {
    if d.day > 1 then d.(day := d.day - 1)
    else if d.month > 1 then Date(d.year, d.month - 1, DaysInMonth(d.year, d.month - 1))
    else Date(d.year - 1, 12, 31)
  }

  /** `d + timedelta(days=n)`. */
  function AddDays(d: Date, n: nat): (r: Date)
    requires Valid(d)
    ensures Valid(r)
  {
    if n == 0 then d else NextDay(AddDays(d, n - 1))
  }

  lemma LongAndShortMonths(year: int, month: int)
    requires month != 2
    ensures DaysInMonth(year, month) == if month == 4 || month == 6 || month == 9 || month == 11 then 30 else 31
  {
  }

  lemma FebruaryLength(year: int)
    ensures DaysInMonth(year, 2) == if year % 400 == 0 || (year % 4 == 0 && year % 100 != 0) then 29 else 28
  {
    MultiplesNest(year);
  }

  lemma LastYear()
    ensures MAX_YEAR == 9999
  {
  }

  // ---- The day number -------------------------------------------------------------

  function DaysBeforeYear(year: int): int {
    365 * (year - 1) + (year - 1) / 4 - (year - 1) / 100 + (year - 1) / 400
  }

  function DaysBeforeMonth(year: int, month: int): int
    requires 1 <= month <= 13
  {
    if month == 1 then 0
    else DaysBeforeMonth(year, month - 1) + DaysInMonth(year, month - 1)
  }

  /** `date.toordinal`. */
  function Ordinal(d: Date): int
    requires Valid(d)
  {
    DaysBeforeYear(d.year) + DaysBeforeMonth(d.year, d.month) + d.day
  }

  function YearLength(year: int): int {
    if IsLeap(year) then 366 else 365
  }

  lemma YearLengthIsSumOfMonths(year: int)
    ensures DaysBeforeMonth(year, 13) == YearLength(year)
  {
    assert DaysBeforeMonth(year, 2) == 31;
    assert DaysBeforeMonth(year, 3) == 31 + DaysInMonth(year, 2);
    assert DaysBeforeMonth(year, 5) == DaysBeforeMonth(year, 3) + 61;
    assert DaysBeforeMonth(year, 7) == DaysBeforeMonth(year, 5) + 61;
    assert DaysBeforeMonth(year, 9) == DaysBeforeMonth(year, 7) + 62;
    assert DaysBeforeMonth(year, 11) == DaysBeforeMonth(year, 9) + 61;
    assert DaysBeforeMonth(year, 13) == DaysBeforeMonth(year, 11) + 61;
  }

  /** One more multiple of 4, of 100 or of 400 behind the years exactly when the year is one. */
  lemma MultiplesBehind(year: int)
    ensures year / 4 - (year - 1) / 4 == if year % 4 == 0 then 1 else 0
    ensures year / 100 - (year - 1) / 100 == if year % 100 == 0 then 1 else 0
    ensures year / 400 - (year - 1) / 400 == if year % 400 == 0 then 1 else 0
  {
  }

  lemma MultiplesNest(year: int)
    ensures year % 400 == 0 ==> year % 100 == 0
    ensures year % 100 == 0 ==> year % 4 == 0
  {
  }

  lemma NextYearStartsAfterThisOne(year: int)
    ensures DaysBeforeYear(year + 1) == DaysBeforeYear(year) + YearLength(year)
  {
    MultiplesBehind(year);
    MultiplesNest(year);
  }

  /** The closed form counts days: stepping the date by one steps the number by one, over
      month ends, year ends and leap days. */
  lemma {:induction false} NextDayIsNextOrdinal(d: Date)
    requires Valid(d)
    ensures Ordinal(NextDay(d)) == Ordinal(d) + 1
  {
    if d.day == DaysInMonth(d.year, d.month) && d.month == 12 {
      NextYearStartsAfterThisOne(d.year);
      YearLengthIsSumOfMonths(d.year);
    }
  }

  lemma {:induction false} AddDaysAddsToOrdinal(d: Date, n: nat)
    requires Valid(d)
    ensures Ordinal(AddDays(d, n)) == Ordinal(d) + n
  {
    if n > 0 {
      AddDaysAddsToOrdinal(d, n - 1);
      NextDayIsNextOrdinal(AddDays(d, n - 1));
    }
  }

  /** Days are counted from the first of January of year one. */
  lemma FirstDayIsOne()
    ensures Ordinal(Date(1, 1, 1)) == 1
  {
  }

  // ---- The order agrees with the day number ---------------------------------------

  lemma {:induction false} DaysBeforeMonthIsMonotone(year: int, m: int, n: int)
    requires 1 <= m < n <= 13
    ensures DaysBeforeMonth(year, m) + DaysInMonth(year, m) <= DaysBeforeMonth(year, n)
    decreases n
  {
    if m + 1 < n {
      DaysBeforeMonthIsMonotone(year, m, n - 1);
    }
  }

  lemma {:induction false} DaysBeforeYearIsMonotone(y: int, z: int)
    requires y < z
    ensures DaysBeforeYear(y) + YearLength(y) <= DaysBeforeYear(z)
    decreases z - y
  {
    NextYearStartsAfterThisOne(z - 1);
    if y + 1 < z {
      DaysBeforeYearIsMonotone(y, z - 1);
    }
  }

  lemma {:induction false} OrdinalStaysInYear(d: Date)
    requires Valid(d)
    ensures DaysBeforeYear(d.year) < Ordinal(d) <= DaysBeforeYear(d.year) + YearLength(d.year)
  {
    YearLengthIsSumOfMonths(d.year);
    DaysBeforeMonthIsMonotone(d.year, d.month, 13);
    if d.month > 1 {
      DaysBeforeMonthIsMonotone(d.year, 1, d.month);
    }
  }

  lemma {:induction false} EarlierHasSmallerOrdinal(a: Date, b: Date)
    requires Valid(a) && Valid(b) && Before(a, b)
    ensures Ordinal(a) < Ordinal(b)
  {
    if a.year < b.year {
      OrdinalStaysInYear(a);
      OrdinalStaysInYear(b);
      DaysBeforeYearIsMonotone(a.year, b.year);
    } else if a.month < b.month {
      DaysBeforeMonthIsMonotone(a.year, a.month, b.month);
    }
  }

  /** Comparing dates field by field is comparing day numbers, and a day number names at
      most one date. */
  lemma {:induction false} OrderIsOrdinalOrder(a: Date, b: Date)
    requires Valid(a) && Valid(b)
    ensures Before(a, b) <==> Ordinal(a) < Ordinal(b)
    ensures Ordinal(a) == Ordinal(b) <==> a == b
  {
    if Before(a, b) {
      EarlierHasSmallerOrdinal(a, b);
    } else if Before(b, a) {
      EarlierHasSmallerOrdinal(b, a);
    }
  }

  /** Nothing lies strictly between a date and the day after it. */
  lemma NextDayIsAdjacent(d: Date, x: Date)
    requires Valid(d) && Valid(x)
    ensures Before(d, x) <==> OnOrBefore(NextDay(d), x)
  {
    OrderIsOrdinalOrder(d, x);
    OrderIsOrdinalOrder(x, NextDay(d));
    NextDayIsNextOrdinal(d);
  }
}
