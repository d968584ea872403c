/** Fiscal-year creation: the loops that cut a requested date range into daily or monthly
    periods, proved to produce an exact tiling of time. */
module FiscalPeriods {
  import opened Calendar
  import opened Wrappers

  datatype PeriodType = Daily | Monthly | OtherType(name: string)

  datatype Period = Period(number: nat, start: Date, end: Date)

  datatype FiscalYear = FiscalYear(start: Date, end: Date, periodType: PeriodType, periods: seq<Period>)

  datatype Outcome = Created | YearExists | DateOverflow

  predicate Contains(p: Period, x: Date) {
    OnOrBefore(p.start, x) && OnOrBefore(x, p.end)
  }

  predicate Between(start: Date, x: Date, end: Date) {
    OnOrBefore(start, x) && OnOrBefore(x, end)
  }

  // ---- The intended periods -------------------------------------------------------

  function DayCount(start: Date, end: Date): nat
    requires Valid(start) && Valid(end)
  {
    if Ordinal(start) <= Ordinal(end) then Ordinal(end) - Ordinal(start) + 1 else 0
  }

  function MonthCount(start: Date, end: Date): nat {
    var n := 12 * (end.year - start.year) + (end.month - start.month) + 1;
    if n >= 0 then n else 0
  }

  function DayPeriod(start: Date, k: nat): Period
    requires Valid(start)
  {
    Period(k + 1, AddDays(start, k), AddDays(start, k))
  }

  function MonthPeriod(start: Date, k: nat): Period {
    Period(k + 1, MonthStart(MonthIndex(start) + k), MonthEnd(MonthIndex(start) + k))
  }

  function DailyTiling(start: Date, end: Date): seq<Period>
    requires Valid(start) && Valid(end)
  {
    seq(DayCount(start, end), (k: nat) => DayPeriod(start, k))
  }

  function MonthlyTiling(start: Date, end: Date): seq<Period> {
    seq(MonthCount(start, end), (k: nat) => MonthPeriod(start, k))
  }

  /** What the three branches produce: one period a day, one a calendar month, or a single
      period spanning the request. */
  function Tiling(periodType: PeriodType, start: Date, end: Date): seq<Period>
    requires Valid(start) && Valid(end)
  {
    match periodType
    case Daily => DailyTiling(start, end)
    case Monthly => MonthlyTiling(start, end)
    case OtherType(_) => [Period(1, start, end)]
  }

  /** The computation leaves the library's date range: the daily loop steps past the last
      date, the monthly one asks for the first of January of year 10000. */
  predicate Overflows(periodType: PeriodType, start: Date, end: Date)
    requires Valid(start) && Valid(end)
  {
    match periodType
    case Daily => OnOrBefore(start, end) && end == Date(MAX_YEAR, 12, 31)
    case Monthly => MonthIndex(start) <= MonthIndex(end) && end.year == MAX_YEAR && end.month == 12
    case OtherType(_) => false
  }

  // ---- What a tiling promises -----------------------------------------------------

  /** The periods are numbered from one, follow one another without gap or overlap, and
      each date of the range lies in exactly one of them. */
  ghost predicate Tiles(ps: seq<Period>, start: Date, end: Date)
    requires forall i :: 0 <= i < |ps| ==> Valid(ps[i].start) && Valid(ps[i].end)
  {
    && (forall i :: 0 <= i < |ps| ==> ps[i].number == i + 1 && OnOrBefore(ps[i].start, ps[i].end))
    && (forall i :: 0 <= i < |ps| - 1 ==> NextDay(ps[i].end) == ps[i + 1].start)
    && (forall x :: Valid(x) && Between(start, x, end) ==> exists i :: 0 <= i < |ps| && Contains(ps[i], x))
    && (forall x, i, j :: Valid(x) && 0 <= i < |ps| && 0 <= j < |ps| && Contains(ps[i], x) && Contains(ps[j], x)
          ==> i == j)
  }

  lemma MonthContains(index: int, x: Date)
    requires index >= 12 && Valid(x)
    ensures Between(MonthStart(index), x, MonthEnd(index)) <==> MonthIndex(x) == index
  {
    var first, last := MonthStart(index), MonthEnd(index);
    assert last.year == first.year && last.month == first.month;
    if MonthIndex(x) == index {
      assert x.year == first.year && x.month == first.month;
    }
  }

  lemma MonthsAreAdjacent(index: int)
    requires index >= 12
    ensures NextDay(MonthEnd(index)) == MonthStart(index + 1)
  {
    var last, next := MonthEnd(index), MonthStart(index + 1);
    assert 12 * next.year + next.month == 12 * last.year + last.month + 1;
    assert last.month < 12 ==> next.year == last.year && next.month == last.month + 1;
    assert last.month == 12 ==> next.year == last.year + 1 && next.month == 1;
  }

  /** Periods that hold exactly the dates of their own slot tile every range whose dates
      have a slot. */
  lemma SlotsTile(ps: seq<Period>, start: Date, end: Date, slot: Date -> int)
    requires forall i :: 0 <= i < |ps| ==> Valid(ps[i].start) && Valid(ps[i].end)
    requires forall i :: 0 <= i < |ps| ==> ps[i].number == i + 1 && OnOrBefore(ps[i].start, ps[i].end)
    requires forall i :: 0 <= i < |ps| - 1 ==> NextDay(ps[i].end) == ps[i + 1].start
    requires forall x, i :: Valid(x) && 0 <= i < |ps| ==> (Contains(ps[i], x) <==> slot(x) == i)
    requires forall x :: Valid(x) && Between(start, x, end) ==> 0 <= slot(x) < |ps|
    ensures Tiles(ps, start, end)
  {
    forall x | Valid(x) && Between(start, x, end)
      ensures exists i :: 0 <= i < |ps| && Contains(ps[i], x)
    {
      assert Contains(ps[slot(x)], x);
    }
  }

  lemma MonthPeriodIsMonth(start: Date, k: nat)
    requires Valid(start)
    ensures var p := MonthPeriod(start, k);
            p.number == k + 1 && Valid(p.start) && Valid(p.end) && OnOrBefore(p.start, p.end)
            && NextDay(p.end) == MonthPeriod(start, k + 1).start
            && forall x :: Valid(x) ==> (Contains(p, x) <==> MonthIndex(x) == MonthIndex(start) + k)
  {
    MonthsAreAdjacent(MonthIndex(start) + k);
    forall x | Valid(x)
      ensures Contains(MonthPeriod(start, k), x) <==> MonthIndex(x) == MonthIndex(start) + k
    {
      MonthContains(MonthIndex(start) + k, x);
    }
  }

  lemma MonthsInRange(start: Date, x: Date, end: Date)
    requires Valid(start) && Valid(x) && Valid(end) && Between(start, x, end)
    ensures MonthIndex(start) <= MonthIndex(x) <= MonthIndex(end)
  {
  }

  lemma MonthlyTilingAt(start: Date, end: Date, i: nat)
    requires Valid(start) && i < |MonthlyTiling(start, end)|
    ensures MonthlyTiling(start, end)[i] == MonthPeriod(start, i)
  {
  }

  /** Monthly generation tiles: through every December and every February. */
  lemma {:induction false} MonthlyTilingTiles(start: Date, end: Date)
    requires Valid(start) && Valid(end)
    ensures forall p :: p in MonthlyTiling(start, end) ==> Valid(p.start) && Valid(p.end)
    ensures Tiles(MonthlyTiling(start, end), start, end)
  {
    var ps := MonthlyTiling(start, end);
    forall i | 0 <= i < |ps|
      ensures ps[i] == MonthPeriod(start, i) && Valid(ps[i].start) && Valid(ps[i].end)
      ensures ps[i].number == i + 1 && OnOrBefore(ps[i].start, ps[i].end)
      ensures i < |ps| - 1 ==> NextDay(ps[i].end) == ps[i + 1].start
      ensures forall x :: Valid(x) ==> (Contains(ps[i], x) <==> MonthIndex(x) == MonthIndex(start) + i)
    {
      MonthlyTilingAt(start, end, i);
      MonthPeriodIsMonth(start, i);
      if i < |ps| - 1 {
        MonthlyTilingAt(start, end, i + 1);
      }
    }
    forall x | Valid(x) && Between(start, x, end) ensures 0 <= MonthIndex(x) - MonthIndex(start) < |ps| {
      MonthsInRange(start, x, end);
    }
    SlotsTile(ps, start, end, (x: Date) => MonthIndex(x) - MonthIndex(start));
  }

  /** A year of any other type is one period, the first, over the whole range, and never
      overflows. */
  lemma OtherTypesHaveOnePeriod(name: string, start: Date, end: Date)
    requires Valid(start) && Valid(end)
    ensures var ps := Tiling(OtherType(name), start, end);
            |ps| == 1 && ps[0].number == 1 && ps[0].start == start && ps[0].end == end
    ensures !Overflows(OtherType(name), start, end)
  {
  }

  /** Each type of year is cut as its tiling says, and overflows only where its loop must step
      past the last date. */
  lemma TilingByType(start: Date, end: Date)
    requires Valid(start) && Valid(end)
    ensures Tiling(Daily, start, end) == DailyTiling(start, end)
    ensures Tiling(Monthly, start, end) == MonthlyTiling(start, end)
    ensures Overflows(Daily, start, end)
            <==> end.year == 9999 && end.month == 12 && end.day == 31 && !Before(end, start)
    ensures Overflows(Monthly, start, end)
            <==> end.year == 9999 && end.month == 12
                 && (start.year < 9999 || (start.year == 9999 && start.month <= 12))
  {
  }

  /** It numbers its periods from one to the months of the range. */
  lemma MonthlyTilingCount(start: Date, end: Date)
    requires Valid(start) && Valid(end) && OnOrBefore(start, end)
    ensures |MonthlyTiling(start, end)| == 12 * (end.year - start.year) + (end.month - start.month) + 1
  {
    MonthsInRange(start, start, end);
    MonthsInRange(start, end, end);
  }

  lemma DayPeriodIsDay(start: Date, k: nat)
    requires Valid(start)
    ensures var p := DayPeriod(start, k);
            p.number == k + 1 && Valid(p.start) && Valid(p.end) && OnOrBefore(p.start, p.end)
            && NextDay(p.end) == DayPeriod(start, k + 1).start
            && forall x :: Valid(x) ==> (Contains(p, x) <==> Ordinal(x) == Ordinal(start) + k)
  {
    AddDaysAddsToOrdinal(start, k);
    forall x | Valid(x)
      ensures Contains(DayPeriod(start, k), x) <==> Ordinal(x) == Ordinal(start) + k
    {
      OrderIsOrdinalOrder(x, AddDays(start, k));
      OrderIsOrdinalOrder(AddDays(start, k), x);
    }
  }

  /** Daily generation tiles the requested range exactly: a date is in some period if and
      only if it is in the range. */
  lemma {:induction false} DailyTilingTiles(start: Date, end: Date)
    requires Valid(start) && Valid(end)
    ensures forall p :: p in DailyTiling(start, end) ==> Valid(p.start) && Valid(p.end)
    ensures Tiles(DailyTiling(start, end), start, end)
    ensures forall p, x :: p in DailyTiling(start, end) && Valid(x) && Contains(p, x) ==> Between(start, x, end)
  {
    var ps := DailyTiling(start, end);
    var slot := (x: Date) => if Valid(x) then Ordinal(x) - Ordinal(start) else -1;
    forall i | 0 <= i < |ps|
      ensures ps[i] == DayPeriod(start, i) && Valid(ps[i].start) && Valid(ps[i].end)
      ensures ps[i].number == i + 1 && OnOrBefore(ps[i].start, ps[i].end)
      ensures i < |ps| - 1 ==> NextDay(ps[i].end) == ps[i + 1].start
      ensures forall x :: Valid(x) ==> (Contains(ps[i], x) <==> slot(x) == i)
    {
      DayPeriodIsDay(start, i);
    }
    forall x | Valid(x)
      ensures Between(start, x, end) <==> 0 <= slot(x) < |ps|
    {
      OrderIsOrdinalOrder(x, start);
      OrderIsOrdinalOrder(end, x);
    }
    SlotsTile(ps, start, end, slot);
  }

  // ---- The loops ------------------------------------------------------------------

  method DailyPeriods(start: Date, end: Date) returns (r: Option<seq<Period>>)
    requires Representable(start) && Representable(end)
    ensures r.None? <==> Overflows(Daily, start, end)
    ensures r.Some? ==> r.value == DailyTiling(start, end)
  {
    var current, number := start, 1;
    var periods: seq<Period> := [];
    OrderIsOrdinalOrder(end, start);
    while OnOrBefore(current, end)
      invariant Representable(current)
      invariant number == |periods| + 1
      invariant current == AddDays(start, |periods|)
      invariant |periods| <= DayCount(start, end)
      invariant forall k :: 0 <= k < |periods| ==> periods[k] == DayPeriod(start, k)
      invariant Ordinal(current) == Ordinal(start) + |periods|
      decreases DayCount(start, end) - |periods|
    {
      OrderIsOrdinalOrder(end, current);
      periods := periods + [Period(number, current, current)];
      if current == Date(MAX_YEAR, 12, 31) {
        assert end == current;
        return None;
      }
      NextDayIsNextOrdinal(current);
      current := NextDay(current);
      number := number + 1;
    }
    OrderIsOrdinalOrder(end, current);
    assert periods == DailyTiling(start, end);
    r := Some(periods);
  }

  /** The month a pair of loop variables stands for, and the step to the next. */
  lemma MonthOfLoop(year: int, month: int, index: int)
    requires 1 <= year && 1 <= month <= 12 && 12 * year + month - 1 == index
    ensures MonthStart(index) == Date(year, month, 1)
    ensures PreviousDay(if month == 12 then Date(year + 1, 1, 1) else Date(year, month + 1, 1)) == MonthEnd(index)
  {
  }

  method MonthlyPeriods(start: Date, end: Date) returns (r: Option<seq<Period>>)
    requires Representable(start) && Representable(end)
    ensures r.None? <==> Overflows(Monthly, start, end)
    ensures r.Some? ==> r.value == MonthlyTiling(start, end)
  {
    var number := 1;
    var year, month := start.year, start.month;
    var periods: seq<Period> := [];
    while year < end.year || (year == end.year && month <= end.month)
      invariant 1 <= month <= 12 && 1 <= year <= MAX_YEAR
      invariant number == |periods| + 1
      invariant 12 * year + month - 1 == MonthIndex(start) + |periods|
      invariant |periods| <= MonthCount(start, end)
      invariant forall k :: 0 <= k < |periods| ==> periods[k] == MonthPeriod(start, k)
      decreases MonthCount(start, end) - |periods|
    {
      var monthStart := Date(year, month, 1);
      var firstOfNext := if month == 12 then Date(year + 1, 1, 1) else Date(year, month + 1, 1);
      if firstOfNext.year > MAX_YEAR {
        return None;
      }
      var monthEnd := PreviousDay(firstOfNext);
      ghost var index := MonthIndex(start) + |periods|;
      MonthOfLoop(year, month, index);
      periods := periods + [Period(number, monthStart, monthEnd)];
      number := number + 1;
      if month == 12 {
        month, year := 1, year + 1;
      } else {
        month := month + 1;
      }
    }
    assert periods == MonthlyTiling(start, end);
    r := Some(periods);
  }

  class FiscalCalendar {
    var years: map<int, FiscalYear>

    constructor ()
      ensures years == map[]
    {
      years := map[];
    }

    /** Refuses a year that exists; a date overflow rolls the transaction back; otherwise
        the year is stored with its tiling and no other year changes. */
    method CreateYear(year: int, periodType: PeriodType, start: Date, end: Date) returns (outcome: Outcome)
      requires Representable(start) && Representable(end)
      modifies this
      ensures outcome == YearExists <==> year in old(years)
      ensures outcome == DateOverflow <==> year !in old(years) && Overflows(periodType, start, end)
      ensures outcome == Created ==>
                years == old(years)[year := FiscalYear(start, end, periodType, Tiling(periodType, start, end))]
      ensures outcome != Created ==> years == old(years)
    {
      if year in years {
        return YearExists;
      }
      var periods: Option<seq<Period>>;
      match periodType {
        case Daily => periods := DailyPeriods(start, end);
        case Monthly => periods := MonthlyPeriods(start, end);
        case OtherType(_) => periods := Some([Period(1, start, end)]);
      }
      if periods.None? {
        return DateOverflow;
      }
      years := years[year := FiscalYear(start, end, periodType, periods.value)];
      return Created;
    }
  }
}
