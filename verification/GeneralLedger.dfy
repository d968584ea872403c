/** The general-ledger report: opening balance, dated entries with running balances, closing
    balance; and how reports over adjacent windows fit together. */
module GeneralLedger {
  import opened Calendar
  import opened Sums

  /** A posted line with its journal's date and number, and whether its account is an asset
      or an expense. */
  datatype LedgerLine = LedgerLine(date: Date, journal: nat, debitNormal: bool, debit: int, credit: int)

  datatype Entry = Entry(line: LedgerLine, balance: int)

  datatype Report = Report(opening: int, entries: seq<Entry>, closing: int, totalDebit: int, totalCredit: int)

  function Delta(l: LedgerLine): int {
    if l.debitNormal then l.debit - l.credit else l.credit - l.debit
  }

  predicate InWindow(l: LedgerLine, first: Date, last: Date) {
    OnOrBefore(first, l.date) && OnOrBefore(l.date, last)
  }

  // ---- The queries ----------------------------------------------------------------

  /** The signed total of every line before a date. */
  function TotalBefore(lines: seq<LedgerLine>, d: Date): int {
    if lines == [] then 0 else (if Before(lines[0].date, d) then Delta(lines[0]) else 0) + TotalBefore(lines[1..], d)
  }

  function Within(lines: seq<LedgerLine>, first: Date, last: Date): seq<LedgerLine> {
    if lines == [] then []
    else if InWindow(lines[0], first, last) then [lines[0]] + Within(lines[1..], first, last)
    else Within(lines[1..], first, last)
  }

  /** The report's order: by date, then by journal. */
  predicate Less(a: LedgerLine, b: LedgerLine) {
    Before(a.date, b.date) || (a.date == b.date && a.journal < b.journal)
  }

  function Insert(x: LedgerLine, ys: seq<LedgerLine>): seq<LedgerLine> {
    if ys == [] || !Less(ys[0], x) then [x] + ys else [ys[0]] + Insert(x, ys[1..])
  }

  /** The ordered query; lines the order does not separate keep their table order. */
  function Ordered(lines: seq<LedgerLine>): seq<LedgerLine> {
    if lines == [] then [] else Insert(lines[0], Ordered(lines[1..]))
  }

  // ---- The report -----------------------------------------------------------------

  function Running(balance: int, lines: seq<LedgerLine>): seq<Entry>
    decreases |lines|
  {
    if lines == [] then []
    else [Entry(lines[0], balance + Delta(lines[0]))] + Running(balance + Delta(lines[0]), lines[1..])
  }

  function Total(lines: seq<LedgerLine>): int {
    if lines == [] then 0 else Delta(lines[0]) + Total(lines[1..])
  }

  function Debits(lines: seq<LedgerLine>): int {
    if lines == [] then 0 else lines[0].debit + Debits(lines[1..])
  }

  function Credits(lines: seq<LedgerLine>): int {
    if lines == [] then 0 else lines[0].credit + Credits(lines[1..])
  }

  function Ledger(lines: seq<LedgerLine>, first: Date, last: Date): Report {
    var opening, shown := TotalBefore(lines, first), Ordered(Within(lines, first, last));
    Report(opening, Running(opening, shown), opening + Total(shown), Debits(shown), Credits(shown))
  }

  /** The report as its loops build it. */
  method GenerateGeneralLedger(lines: seq<LedgerLine>, first: Date, last: Date) returns (report: Report)
    ensures report == Ledger(lines, first, last)
  {
    var opening := 0;
    for i := 0 to |lines|
      invariant opening + TotalBefore(lines[i..], first) == TotalBefore(lines, first)
    {
      if Before(lines[i].date, first) {
        opening := opening + Delta(lines[i]);
      }
    }
    var shown := Ordered(Within(lines, first, last));
    var entries, running, debit, credit := [], opening, 0, 0;
    for i := 0 to |shown|
      invariant running + Total(shown[i..]) == opening + Total(shown)
      invariant entries + Running(running, shown[i..]) == Running(opening, shown)
      invariant debit + Debits(shown[i..]) == Debits(shown) && credit + Credits(shown[i..]) == Credits(shown)
    {
      running := running + Delta(shown[i]);
      ConcatAssociates(entries, [Entry(shown[i], running)], Running(running, shown[i + 1..]));
      entries := entries + [Entry(shown[i], running)];
      debit, credit := debit + shown[i].debit, credit + shown[i].credit;
    }
    return Report(opening, entries, running, debit, credit);
  }

  // ---- The order ------------------------------------------------------------------

  /** By date, and within a day by journal. */
  ghost predicate Sorted(lines: seq<LedgerLine>) {
    forall i, k :: 0 <= i < k < |lines| ==>
      || Before(lines[i].date, lines[k].date)
      || (lines[i].date == lines[k].date && lines[i].journal <= lines[k].journal)
  }

  lemma {:induction false} InsertSorted(x: LedgerLine, ys: seq<LedgerLine>)
    requires Sorted(ys)
    ensures Sorted(Insert(x, ys))
    ensures forall y :: y in Insert(x, ys) <==> y == x || y in ys
  {
    if ys != [] && Less(ys[0], x) {
      InsertSorted(x, ys[1..]);
      var rest := Insert(x, ys[1..]);
      forall i | 0 <= i < |rest|
        ensures Before(ys[0].date, rest[i].date) || (ys[0].date == rest[i].date && ys[0].journal <= rest[i].journal)
      {
        assert rest[i] in rest;
      }
    }
  }

  lemma {:induction false} InsertAddsOne(x: LedgerLine, ys: seq<LedgerLine>)
    ensures multiset(Insert(x, ys)) == multiset(ys) + multiset{x}
  {
    if ys != [] && Less(ys[0], x) {
      InsertAddsOne(x, ys[1..]);
      assert ys == [ys[0]] + ys[1..];
    }
  }

  lemma {:induction false} OrderedHoldsSame(lines: seq<LedgerLine>)
    ensures multiset(Ordered(lines)) == multiset(lines)
  {
    if lines != [] {
      OrderedHoldsSame(lines[1..]);
      InsertAddsOne(lines[0], Ordered(lines[1..]));
      assert lines == [lines[0]] + lines[1..];
    }
  }

  /** The ordered query returns exactly the selected lines, in order. */
  lemma {:induction false} OrderedIsSorted(lines: seq<LedgerLine>)
    ensures Sorted(Ordered(lines)) && multiset(Ordered(lines)) == multiset(lines)
  {
    OrderedHoldsSame(lines);
    if lines != [] {
      OrderedIsSorted(lines[1..]);
      InsertSorted(lines[0], Ordered(lines[1..]));
    }
  }

  lemma {:induction false} InsertTotal(x: LedgerLine, ys: seq<LedgerLine>)
    ensures Total(Insert(x, ys)) == Delta(x) + Total(ys)
  {
    if ys == [] || !Less(ys[0], x) {
      assert ([x] + ys)[1..] == ys;
    } else {
      InsertTotal(x, ys[1..]);
      assert ([ys[0]] + Insert(x, ys[1..]))[1..] == Insert(x, ys[1..]);
    }
  }

  lemma {:induction false} OrderedTotal(lines: seq<LedgerLine>)
    ensures Total(Ordered(lines)) == Total(lines)
  {
    if lines != [] {
      OrderedTotal(lines[1..]);
      InsertTotal(lines[0], Ordered(lines[1..]));
    }
  }

  // ---- Splitting a window ---------------------------------------------------------

  /** Every line lies up to `day`, or every line lies after it. */
  predicate AllUpTo(lines: seq<LedgerLine>, day: Date) {
    lines == [] || (OnOrBefore(lines[0].date, day) && AllUpTo(lines[1..], day))
  }

  predicate AllAfter(lines: seq<LedgerLine>, day: Date) {
    lines == [] || (Before(day, lines[0].date) && AllAfter(lines[1..], day))
  }

  lemma {:induction false} InsertUpTo(x: LedgerLine, ys: seq<LedgerLine>, day: Date)
    requires OnOrBefore(x.date, day) && AllUpTo(ys, day)
    ensures AllUpTo(Insert(x, ys), day)
  {
    if ys == [] || !Less(ys[0], x) {
      assert ([x] + ys)[1..] == ys;
    } else {
      InsertUpTo(x, ys[1..], day);
      assert ([ys[0]] + Insert(x, ys[1..]))[1..] == Insert(x, ys[1..]);
    }
  }

  lemma {:induction false} InsertAfter(x: LedgerLine, ys: seq<LedgerLine>, day: Date)
    requires Before(day, x.date) && AllAfter(ys, day)
    ensures AllAfter(Insert(x, ys), day)
  {
    if ys == [] || !Less(ys[0], x) {
      assert ([x] + ys)[1..] == ys;
    } else {
      InsertAfter(x, ys[1..], day);
      assert ([ys[0]] + Insert(x, ys[1..]))[1..] == Insert(x, ys[1..]);
    }
  }

  /** An early line goes into the early part, in front of the late one. */
  lemma {:induction false} InsertEarly(x: LedgerLine, a: seq<LedgerLine>, b: seq<LedgerLine>, day: Date)
    requires OnOrBefore(x.date, day) && AllAfter(b, day)
    ensures Insert(x, a + b) == Insert(x, a) + b
  {
    if a == [] {
      assert a + b == b;
    } else if !Less(a[0], x) {
      ConcatAssociates([x], a, b);
    } else {
      InsertEarly(x, a[1..], b, day);
      assert (a + b)[1..] == a[1..] + b;
      ConcatAssociates([a[0]], Insert(x, a[1..]), b);
    }
  }

  /** A late line goes past the whole early part. */
  lemma {:induction false} InsertLate(x: LedgerLine, a: seq<LedgerLine>, b: seq<LedgerLine>, day: Date)
    requires Before(day, x.date) && AllUpTo(a, day)
    ensures Insert(x, a + b) == a + Insert(x, b)
  {
    if a == [] {
      assert a + b == b && a + Insert(x, b) == Insert(x, b);
    } else {
      InsertLate(x, a[1..], b, day);
      assert (a + b)[1..] == a[1..] + b;
      ConcatAssociates([a[0]], a[1..], Insert(x, b));
      assert a == [a[0]] + a[1..];
    }
  }

  /** Days up to `mid` and days from the day after it on have nothing between them. */
  lemma DaySplits(d: Date, mid: Date)
    requires Valid(d) && Valid(mid)
    ensures OnOrBefore(d, mid) <==> Before(d, NextDay(mid))
  {
    NextDayIsAdjacent(mid, d);
  }

  /** The ordered lines of a window are those of its first part followed by those of its
      second. */
  lemma {:induction false} WindowSplits(lines: seq<LedgerLine>, first: Date, mid: Date, last: Date)
    requires forall i :: 0 <= i < |lines| ==> Valid(lines[i].date)
    requires Valid(mid) && OnOrBefore(first, mid) && OnOrBefore(mid, last)
    ensures Ordered(Within(lines, first, last))
         == Ordered(Within(lines, first, mid)) + Ordered(Within(lines, NextDay(mid), last))
    ensures AllUpTo(Ordered(Within(lines, first, mid)), mid)
    ensures AllAfter(Ordered(Within(lines, NextDay(mid), last)), mid)
  {
    if lines != [] {
      var x := lines[0];
      var a, b := Ordered(Within(lines[1..], first, mid)), Ordered(Within(lines[1..], NextDay(mid), last));
      WindowSplits(lines[1..], first, mid, last);
      DaySplits(x.date, mid);
      if InWindow(x, first, mid) {
        InsertEarly(x, a, b, mid);
        InsertUpTo(x, a, mid);
      } else if InWindow(x, NextDay(mid), last) {
        InsertLate(x, a, b, mid);
        InsertAfter(x, b, mid);
      }
    }
  }

  /** What stands before the second window is what stood before the first and went into it. */
  lemma {:induction false} TotalsAdjoin(lines: seq<LedgerLine>, first: Date, mid: Date)
    requires forall i :: 0 <= i < |lines| ==> Valid(lines[i].date)
    requires Valid(mid) && OnOrBefore(first, mid)
    ensures TotalBefore(lines, NextDay(mid)) == TotalBefore(lines, first) + Total(Within(lines, first, mid))
  {
    if lines != [] {
      TotalsAdjoin(lines[1..], first, mid);
      DaySplits(lines[0].date, mid);
      assert InWindow(lines[0], first, mid) ==> Within(lines, first, mid)[1..] == Within(lines[1..], first, mid);
    }
  }

  lemma {:induction false} RunningConcat(balance: int, a: seq<LedgerLine>, b: seq<LedgerLine>)
    ensures Running(balance, a + b) == Running(balance, a) + Running(balance + Total(a), b)
    decreases |a|
  {
    if a == [] {
      assert a + b == b;
    } else {
      assert (a + b)[1..] == a[1..] + b;
      RunningConcat(balance + Delta(a[0]), a[1..], b);
      ConcatAssociates([Entry(a[0], balance + Delta(a[0]))], Running(balance + Delta(a[0]), a[1..]),
                       Running(balance + Total(a), b));
    }
  }

  lemma {:induction false} TotalsConcat(a: seq<LedgerLine>, b: seq<LedgerLine>)
    ensures Total(a + b) == Total(a) + Total(b)
    ensures Debits(a + b) == Debits(a) + Debits(b) && Credits(a + b) == Credits(a) + Credits(b)
  {
    if a == [] {
      assert a + b == b;
    } else {
      assert (a + b)[1..] == a[1..] + b;
      TotalsConcat(a[1..], b);
    }
  }

  /** Reports compose: over any split the report of the whole window is the two adjacent
      reports end to end, entry by entry with its running balance, and the second opens
      where the first closes. */
  lemma {:induction false} ReportsCompose(lines: seq<LedgerLine>, first: Date, mid: Date, last: Date)
    requires forall i :: 0 <= i < |lines| ==> Valid(lines[i].date)
    requires Valid(mid) && OnOrBefore(first, mid) && OnOrBefore(mid, last)
    ensures var whole := Ledger(lines, first, last);
            var left, right := Ledger(lines, first, mid), Ledger(lines, NextDay(mid), last);
            && left.closing == right.opening
            && whole == Report(left.opening, left.entries + right.entries, right.closing,
                               left.totalDebit + right.totalDebit, left.totalCredit + right.totalCredit)
  {
    var a, b := Ordered(Within(lines, first, mid)), Ordered(Within(lines, NextDay(mid), last));
    WindowSplits(lines, first, mid, last);
    TotalsAdjoin(lines, first, mid);
    OrderedTotal(Within(lines, first, mid));
    RunningConcat(TotalBefore(lines, first), a, b);
    TotalsConcat(a, b);
  }
}
