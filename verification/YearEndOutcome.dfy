/** What a successful close leaves behind, read off the chart, the index and the records by
    position and field. */
module YearEndOutcome {
  import opened Balances
  import opened Calendar
  import opened JournalHeaders
  import opened Journals
  import opened JournalAmounts
  import opened Wrappers
  import opened YearEnd

  /** An equity account named retained earnings, the first one of the chart. */
  predicate IsRetained(chart: seq<Account>, i: nat) {
    && i < |chart| && chart[i].kind == Equity && chart[i].namedRetained
    && forall k :: 0 <= k < i ==> !(chart[k].kind == Equity && chart[k].namedRetained)
  }

  predicate HasRetained(chart: seq<Account>) {
    exists i :: 0 <= i < |chart| && chart[i].kind == Equity && chart[i].namedRetained
  }

  /** Debits less credits of a year on every account of one type. */
  function TypeNet(chart: seq<Account>, rows: seq<Row<Key>>, year: int, kind: AccountType): int {
    if chart == [] then 0
    else
      (if chart[0].kind == kind then AccountNet(rows, chart[0].id, year) else 0) + TypeNet(chart[1..], rows, year, kind)
  }

  // ---- The retained-earnings account ----------------------------------------------

  lemma {:induction false} FoundAt(chart: seq<Account>) returns (i: nat)
    requires FindRetained(chart).Some?
    ensures IsRetained(chart, i) && chart[i] == FindRetained(chart).value
  {
    if chart[0].kind == Equity && chart[0].namedRetained {
      i := 0;
    } else {
      i := FoundAt(chart[1..]);
      assert forall k :: 0 < k < i + 1 ==> chart[k] == chart[1..][k - 1];
      i := i + 1;
    }
  }

  lemma {:induction false} FoundExactlyWhen(chart: seq<Account>)
    ensures FindRetained(chart).Some? <==> HasRetained(chart)
  {
    if FindRetained(chart).Some? {
      var i := FoundAt(chart);
    } else if chart != [] {
      FoundExactlyWhen(chart[1..]);
      assert forall k :: 0 < k < |chart| ==> chart[k] == chart[1..][k - 1];
    }
  }

  lemma {:induction false} NoIdBeyondFresh(chart: seq<Account>)
    ensures forall k :: 0 <= k < |chart| ==> chart[k].id < FreshId(chart)
  {
    if chart != [] {
      NoIdBeyondFresh(chart[1..]);
      assert forall k :: 0 < k < |chart| ==> chart[k] == chart[1..][k - 1];
    }
  }

  /** The close uses the first equity account of the chart that is named retained earnings; a
      chart without one gains exactly one, active, under the fixed code and a new number. */
  lemma {:induction false} RetainedIsFirstNamed(chart: seq<Account>)
    ensures HasRetained(chart) ==> ChartWithRetained(chart) == chart
    ensures !HasRetained(chart) ==>
              var whole := ChartWithRetained(chart);
              && |whole| == |chart| + 1 && whole[1..] == chart
              && whole[0].code == 30200000 && whole[0].kind == Equity && whole[0].active && whole[0].namedRetained
              && forall k :: 0 <= k < |chart| ==> chart[k].id != whole[0].id
    ensures exists i: nat ::
              IsRetained(ChartWithRetained(chart), i) && ChartWithRetained(chart)[i] == RetainedAccount(chart)
  {
    FoundExactlyWhen(chart);
    NoIdBeyondFresh(chart);
    if FindRetained(chart).None? {
      assert IsRetained(ChartWithRetained(chart), 0);
    } else {
      var i := FoundAt(chart);
    }
  }

  // ---- What the close moves -------------------------------------------------------

  lemma {:induction false} SelectedNet(chart: seq<Account>, rows: seq<Row<Key>>, year: int, kind: AccountType)
    ensures NetOver(Select(chart, OfType(kind)), rows, year) == TypeNet(chart, rows, year, kind)
  {
    if chart != [] {
      SelectedNet(chart[1..], rows, year, kind);
      SelectStep(chart, OfType(kind), rows, year);
    }
  }

  /** The closing journal puts the net income on the account it found or created. */
  lemma {:induction false} ClosingNetOnRetained(b: Books, year: int)
    requires DistinctIds(b.chart)
    ensures LineNet(ClosingLines(b, year), RetainedAccount(b.chart).id) == -NetIncome(b, year)
  {
    var retained := RetainedAccount(b.chart);
    if FindRetained(b.chart).Some? {
      RetainedIsInChart(b.chart);
      ClosingNetOn(b, year, retained);
      RetainedIsNotNominal(b.chart, retained);
    } else {
      var incomes, expenses := Select(b.chart, OfType(Income)), Select(b.chart, OfType(Expense));
      var last := Prepend(retained.id, -NetIncome(b, year), []);
      PrependTotals(retained.id, -NetIncome(b, year), [], retained.id);
      SelectKeepsDistinct(b.chart, OfType(Income));
      SelectKeepsDistinct(b.chart, OfType(Expense));
      LinesForNetOn(expenses, b.rows, year, true, last, retained.id);
      LinesForNetOn(incomes, b.rows, year, true, LinesFor(expenses, b.rows, year, true, last), retained.id);
      FreshIsNotSelected(b.chart, OfType(Income), retained.id);
      FreshIsNotSelected(b.chart, OfType(Expense), retained.id);
    }
  }

  lemma {:induction false} FreshIsNotSelected(chart: seq<Account>, c: Class, id: nat)
    requires id == FreshId(chart)
    ensures !HasId(Select(chart, c), id)
  {
    if HasId(Select(chart, c), id) {
      SelectedIds(chart, c, id);
      FreshIdIsFresh(chart, id);
    }
  }

  /** After a close, whatever its own two journals are dated, a year holds what the closing
      journal made of it, unless it is the year that opens. */
  lemma {:induction false} OpeningElsewhere(b: Books, year: int, today: Date, id: nat)
    requires CloseYear(b, year, today).Ok?
    ensures AccountNet(CloseYear(b, year, today).value.books.rows, id, year)
         == AccountNet(RowsAfterClosing(b, year, today), id, year)
  {
    PostingMoves(RowsAfterClosing(b, year, today), OpeningJournal(b, year, today), id, year);
  }

  lemma {:induction false} WholeChartMember(chart: seq<Account>, a: Account)
    requires DistinctIds(chart) && a in ChartWithRetained(chart)
    ensures a in chart || a == RetainedAccount(chart)
    ensures a.id == RetainedAccount(chart).id ==> a == RetainedAccount(chart)
  {
    ChartWithRetainedIsWellFormed(chart);
    if a.id == RetainedAccount(chart).id {
      SameIdSameAccount(ChartWithRetained(chart), a, RetainedAccount(chart));
    }
  }

  /** Dated in its year, a close leaves every income and expense account at zero, the retained
      earnings lower by revenue less expenses, debits counting up, and all others as they
      were.  The accounts are those of the chart it leaves, by position. */
  lemma {:induction false} CloseMovesNetIncome(b: Books, year: int, today: Date) returns (at: nat)
    requires DistinctIds(b.chart) && CloseYear(b, year, today).Ok? && today.year == year
    ensures var after := CloseYear(b, year, today).value.books;
            && after.chart == ChartWithRetained(b.chart) && IsRetained(after.chart, at)
            && forall k :: 0 <= k < |after.chart| ==>
                 var a := after.chart[k];
                 AccountNet(after.rows, a.id, year)
                 == if a.kind == Income || a.kind == Expense then 0
                    else AccountNet(b.rows, a.id, year)
                         + if k == at then TypeNet(b.chart, b.rows, year, Income)
                                           + TypeNet(b.chart, b.rows, year, Expense) else 0
  {
    var after := CloseYear(b, year, today).value.books;
    RetainedIsFirstNamed(b.chart);
    ChartWithRetainedIsWellFormed(b.chart);
    at :| IsRetained(after.chart, at) && after.chart[at] == RetainedAccount(b.chart);
    SelectedNet(b.chart, b.rows, year, Income);
    SelectedNet(b.chart, b.rows, year, Expense);
    forall k | 0 <= k < |after.chart|
      ensures var a := after.chart[k];
              AccountNet(after.rows, a.id, year)
              == if a.kind == Income || a.kind == Expense then 0
                 else AccountNet(b.rows, a.id, year) - if k == at then NetIncome(b, year) else 0
    {
      var a := after.chart[k];
      WholeChartMember(b.chart, a);
      OpeningElsewhere(b, year, today, a.id);
      SamePosition(after.chart, k, at);
      if a == RetainedAccount(b.chart) {
        PostingMoves(b.rows, ClosingJournal(b, year, today), a.id, year);
        ClosingNetOnRetained(b, year);
      } else {
        ClosingZeroesNominals(b, year, today, a);
      }
    }
  }

  lemma {:induction false} SamePosition(chart: seq<Account>, i: nat, k: nat)
    requires DistinctIds(chart) && i < |chart| && k < |chart|
    ensures chart[i] == chart[k] <==> i == k
  {
    if i != k {
      if i > 0 && k > 0 {
        SamePosition(chart[1..], i - 1, k - 1);
      } else {
        MemberHasId(chart[1..], chart[1..][if i == 0 then k - 1 else i - 1]);
      }
    }
  }

  // ---- The journals and the records -----------------------------------------------

  /** The debits and credits drawn up on one account: its net on one side, nothing on the
      other. */
  lemma {:induction false} LinesForOn(accounts: seq<Account>, rows: seq<Row<Key>>, year: int, on: nat)
    requires DistinctIds(accounts)
    ensures var net := if HasId(accounts, on) then AccountNet(rows, on, year) else 0;
            var lines := LinesFor(accounts, rows, year, false, []);
            && DebitOn(lines, on) == (if net > 0 then net else 0)
            && CreditOn(lines, on) == (if net < 0 then -net else 0)
  {
    if accounts != [] {
      var id := accounts[0].id;
      var rest := LinesFor(accounts[1..], rows, year, false, []);
      LinesForOn(accounts[1..], rows, year, on);
      PrependOn(id, AccountNet(rows, id, year), rest, on);
    }
  }

  lemma PrependOn(id: nat, amount: int, rest: seq<Line>, on: nat)
    ensures DebitOn(Prepend(id, amount, rest), on)
         == DebitOn(rest, on) + if id == on && amount > 0 then amount else 0
    ensures CreditOn(Prepend(id, amount, rest), on)
         == CreditOn(rest, on) + if id == on && amount < 0 then -amount else 0
  {
    assert amount != 0 ==> Prepend(id, amount, rest)[1..] == rest;
  }

  /** The opening journal is dated the first of January of the next year and restates each
      active balance-sheet account at its net in the closed year; no other account has a line. */
  lemma {:induction false} OpeningRestates(b: Books, year: int, today: Date, k: nat)
    requires DistinctIds(b.chart) && CloseYear(b, year, today).Ok?
    requires k < |CloseYear(b, year, today).value.books.chart|
    ensures var closed := CloseYear(b, year, today).value;
            var opening, a := closed.opening, closed.books.chart[k];
            && opening.status == Posted && opening.dims == Dims(None, None, None, None) && opening.source == None
            && opening.date.year == year + 1 && opening.date.month == 1 && opening.date.day == 1
            && var net := if a.active && (a.kind == Asset || a.kind == Liability || a.kind == Equity)
                          then AccountNet(closed.books.rows, a.id, year) else 0;
               && DebitOn(opening.lines, a.id) == (if net > 0 then net else 0)
               && CreditOn(opening.lines, a.id) == (if net < 0 then -net else 0)
  {
    var whole := ChartWithRetained(b.chart);
    ChartWithRetainedIsWellFormed(b.chart);
    SelectKeepsDistinct(whole, Carried);
    SelectedIdIff(whole, Carried, whole[k]);
    OpeningElsewhere(b, year, today, whole[k].id);
    LinesForOn(Select(whole, Carried), RowsAfterClosing(b, year, today), year, whole[k].id);
  }

  /** The closing journal carries the day of the close and no dimensions; the two references
      are taken, and the close is recorded with its totals. */
  lemma CloseIsRecorded(b: Books, year: int, today: Date)
    requires CloseYear(b, year, today).Ok?
    ensures var closed := CloseYear(b, year, today).value;
            var revenue, expenses := -TypeNet(b.chart, b.rows, year, Income), TypeNet(b.chart, b.rows, year, Expense);
            && closed.closing.status == Posted && closed.closing.date == today && closed.closing.source == None
            && closed.closing.dims == Dims(None, None, None, None)
            && closed.closing.reference == YearClosing(year) && closed.opening.reference == OpeningBalances(year + 1)
            && closed.books.references == b.references + {YearClosing(year), OpeningBalances(year + 1)}
            && closed.books.mutable == b.mutable
            && closed.books.closings == b.closings + [Closing(year, today, revenue, expenses, revenue - expenses)]
            && |closed.books.retained| == |b.retained| + 1 && closed.books.retained[..|b.retained|] == b.retained
            && var record := closed.books.retained[|b.retained|];
               && record.year == year && record.netIncome == revenue - expenses
               && record.ending == record.beginning + (revenue - expenses)
  {
    SelectedNet(b.chart, b.rows, year, Income);
    SelectedNet(b.chart, b.rows, year, Expense);
  }

  /** The record found is one of the latest year before, the first stored if several share it. */
  lemma {:induction false} LatestIsLatest(records: seq<RetainedEarnings>, year: int)
    ensures LatestBefore(records, year).None? <==> forall i :: 0 <= i < |records| ==> records[i].year >= year
    ensures LatestBefore(records, year).Some? ==>
              exists i: nat :: && i < |records| && records[i] == LatestBefore(records, year).value
                               && records[i].year < year
                               && forall k :: 0 <= k < |records| && records[k].year < year ==>
                                    records[k].year <= records[i].year
                                    && (k < i ==> records[k].year != records[i].year)
  {
    if records != [] {
      var init := records[..|records| - 1];
      LatestIsLatest(init, year);
      assert forall k :: 0 <= k < |init| ==> records[k] == init[k];
      if LatestBefore(records, year).Some? && LatestBefore(records, year) == LatestBefore(init, year) {
        var i: nat :| && i < |init| && init[i] == LatestBefore(init, year).value
                      && init[i].year < year
                      && forall k :: 0 <= k < |init| && init[k].year < year ==>
                           init[k].year <= init[i].year && (k < i ==> init[k].year != init[i].year);
        assert records[i] == LatestBefore(records, year).value;
      } else if LatestBefore(records, year).Some? {
        assert records[|records| - 1] == LatestBefore(records, year).value;
      }
    }
  }

  /** The new record begins where the latest earlier year ended, or at zero. */
  lemma RecordBeginsWhereTheLastEnded(b: Books, year: int, today: Date)
    requires CloseYear(b, year, today).Ok?
    ensures var record := CloseYear(b, year, today).value.books.retained[|b.retained|];
            if forall i :: 0 <= i < |b.retained| ==> b.retained[i].year >= year then record.beginning == 0
            else exists i: nat :: && i < |b.retained| && b.retained[i].year < year
                                  && record.beginning == b.retained[i].ending
                                  && forall k :: 0 <= k < |b.retained| && b.retained[k].year < year ==>
                                       b.retained[k].year <= b.retained[i].year
                                       && (k < i ==> b.retained[k].year != b.retained[i].year)
  {
    LatestIsLatest(b.retained, year);
  }

  // ---- What refuses a close -------------------------------------------------------

  lemma {:induction false} ClosedExactlyWhen(closings: seq<Closing>, year: int)
    ensures IsClosed(closings, year) <==> exists i :: 0 <= i < |closings| && closings[i].year == year
  {
    if closings != [] {
      ClosedExactlyWhen(closings[..|closings| - 1], year);
      assert forall i :: 0 <= i < |closings| - 1 ==> closings[..|closings| - 1][i] == closings[i];
    }
  }

  lemma {:induction false} RecordExactlyWhen(records: seq<RetainedEarnings>, year: int)
    ensures HasRecord(records, year) <==> exists i :: 0 <= i < |records| && records[i].year == year
  {
    if records != [] {
      RecordExactlyWhen(records[..|records| - 1], year);
      assert forall i :: 0 <= i < |records| - 1 ==> records[..|records| - 1][i] == records[i];
    }
  }

  lemma {:induction false} CodeExactlyWhen(chart: seq<Account>, code: nat)
    ensures HasCode(chart, code) <==> exists i :: 0 <= i < |chart| && chart[i].code == code
  {
    if chart != [] {
      CodeExactlyWhen(chart[1..], code);
      assert forall i :: 0 < i < |chart| ==> chart[i] == chart[1..][i - 1];
    }
  }

  /** Which refusal stands against a close, each after the ones before it. */
  lemma RefusalNames(b: Books, year: int)
    ensures var closed := exists i :: 0 <= i < |b.closings| && b.closings[i].year == year;
            var taken := !HasRetained(b.chart) && exists i :: 0 <= i < |b.chart| && b.chart[i].code == 30200000;
            var recorded := exists i :: 0 <= i < |b.retained| && b.retained[i].year == year;
            && (Refusal(b, year) == Some(AlreadyClosed) <==> closed)
            && (Refusal(b, year) == Some(AccountCodeTaken) <==> !closed && taken)
            && (Refusal(b, year) == Some(HeaderFrozen)
                <==> !closed && !taken && YearClosing(year) !in b.references && DocumentNumber !in b.mutable)
            && (Refusal(b, year) == Some(RecordExists)
                <==> !closed && !taken && YearClosing(year) !in b.references && DocumentNumber in b.mutable && recorded)
            && (Refusal(b, year) == Some(YearOutOfRange)
                <==> !closed && !taken && YearClosing(year) !in b.references && DocumentNumber in b.mutable && !recorded
                     && (year < 0 || year > 9998))
            && (Refusal(b, year).None?
                <==> !closed && !taken && YearClosing(year) !in b.references && DocumentNumber in b.mutable && !recorded
                     && 0 <= year <= 9998 && OpeningBalances(year + 1) !in b.references)
            && Refusal(b, year) != Some(UnbalancedOpening)
  {
    ClosedExactlyWhen(b.closings, year);
    RecordExactlyWhen(b.retained, year);
    CodeExactlyWhen(b.chart, 30200000);
    FoundExactlyWhen(b.chart);
  }
}
