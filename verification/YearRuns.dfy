/** Any number of years of business, each ended by its close: the opening balances, the
    retained-earnings ledger and the retained-earnings records stay in step for ever. */
module YearRuns {
  import opened Balances
  import opened Calendar
  import opened JournalHeaders
  import opened Journals
  import opened Wrappers
  import opened YearEnd

  /** A year's posted journals and the day its close is run. */
  datatype Business = Business(journals: seq<Journal>, closeDate: Date)

  /** What posted lines put on the listed accounts. */
  function NetOn(rows: seq<Row<Key>>, accounts: seq<Account>): int {
    if rows == [] then 0
    else
      var r := rows[|rows| - 1];
      NetOn(rows[..|rows| - 1], accounts) + if HasId(accounts, r.key.account) then r.debit - r.credit else 0
  }

  function LinesOn(lines: seq<Line>, accounts: seq<Account>): int {
    if lines == [] then 0
    else
      (if HasId(accounts, lines[0].account) then lines[0].debit - lines[0].credit else 0)
      + LinesOn(lines[1..], accounts)
  }

  /** What the posted journals themselves earned: credits less debits on income and expense. */
  function Earned(chart: seq<Account>, js: seq<Journal>): int {
    if js == [] then 0
    else
      var j := js[|js| - 1];
      Earned(chart, js[..|js| - 1]) - if j.status == Posted then LinesOn(j.lines, Select(chart, Nominal)) else 0
  }

  /** The lines keep off one account. */
  ghost predicate AvoidLines(id: nat, lines: seq<Line>) {
    lines == [] || (lines[0].account != id && AvoidLines(id, lines[1..]))
  }

  /** A balanced posted journal of the year, on accounts of the chart other than retained
      earnings. */
  ghost predicate TradesJournal(chart: seq<Account>, retained: Account, year: int, j: Journal) {
    && j.status == Posted && j.date.year == year && Balanced(j.lines)
    && !j.reference.YearClosing? && !j.reference.OpeningBalances?
    && LinesInChart(chart, j.lines) && AvoidLines(retained.id, j.lines)
  }

  ghost predicate TradesJournals(chart: seq<Account>, retained: Account, year: int, js: seq<Journal>) {
    js == [] || (TradesJournals(chart, retained, year, js[..|js| - 1])
                 && TradesJournal(chart, retained, year, js[|js| - 1]))
  }

  /** A year of such journals, closed on a day of the same year. */
  ghost predicate Trades(chart: seq<Account>, retained: Account, year: int, business: Business) {
    business.closeDate.year == year && TradesJournals(chart, retained, year, business.journals)
  }

  /** The index once both journals of a close are folded in. */
  function RowsAfterOpening(b: Books, year: int, today: Date): seq<Row<Key>> {
    AddAll(RowsAfterClosing(b, year, today), Postings(OpeningJournal(b, year, today)))
  }

  /** The index after posting journal upon journal. */
  function PostEach(rows: seq<Row<Key>>, js: seq<Journal>): seq<Row<Key>> {
    if js == [] then rows
    else AddAll(PostEach(rows, js[..|js| - 1]), PostingsIfPosted(js[|js| - 1]))
  }

  /** The references taken after storing journal upon journal. */
  function TakeEach(references: set<Reference>, js: seq<Journal>): set<Reference> {
    if js == [] then references
    else WithReference(TakeEach(references, js[..|js| - 1]), js[|js| - 1].reference)
  }

  function AfterTrading(b: Books, business: Business): Books {
    b.(rows := PostEach(b.rows, business.journals), references := TakeEach(b.references, business.journals))
  }

  /** One year of business and its close. */
  function CloseAfter(b: Books, year: int, business: Business): Result<Closed, CloseError> {
    CloseYear(AfterTrading(b, business), year, business.closeDate)
  }

  /** A chart that can be carried forward whole. */
  ghost predicate ChartReady(chart: seq<Account>, retained: Account) {
    DistinctIds(chart) && FindRetained(chart) == Some(retained) && Select(chart, Stranded) == []
  }

  /** Nothing is dated after `year`. */
  ghost predicate NothingAfter(rows: seq<Row<Key>>, year: int) {
    rows == [] || (NothingAfter(rows[..|rows| - 1], year) && rows[|rows| - 1].key.year <= year)
  }

  ghost predicate AtZero(accounts: seq<Account>, rows: seq<Row<Key>>, year: int) {
    accounts == [] || (AccountNet(rows, accounts[0].id, year) == 0 && AtZero(accounts[1..], rows, year))
  }

  /** The opening balances of a year: they balance, nominal accounts stand at zero and
      retained earnings carry `total`. */
  ghost predicate LedgerStarts(chart: seq<Account>, rows: seq<Row<Key>>, year: int, retained: Account, total: int) {
    && InChart(chart, rows) && NothingAfter(rows, year)
    && YearTotal(rows, year) == 0
    && AtZero(Select(chart, Nominal), rows, year)
    && AccountNet(rows, retained.id, year) == -total
  }

  ghost predicate ClosedBefore(closings: seq<Closing>, year: int) {
    closings == [] || (ClosedBefore(closings[..|closings| - 1], year) && closings[|closings| - 1].year < year)
  }

  ghost predicate RecordedBefore(records: seq<RetainedEarnings>, year: int) {
    records == [] || (RecordedBefore(records[..|records| - 1], year) && records[|records| - 1].year < year)
  }

  /** Only earlier years are closed, and the latest record ends at `total`. */
  ghost predicate RecordsStart(closings: seq<Closing>, records: seq<RetainedEarnings>, year: int, total: int) {
    && ClosedBefore(closings, year) && RecordedBefore(records, year)
    && total == (match LatestBefore(records, year) case None => 0 case Some(x) => x.ending)
  }

  /** The references of this close and of all later ones are free. */
  ghost predicate ReferencesFree(references: set<Reference>, year: int) {
    forall y: int :: y >= year ==> YearClosing(y) !in references && OpeningBalances(y + 1) !in references
  }

  /** The state in which a year begins, with `total` earned so far; its headers take their
      numbers. */
  ghost predicate StartsYear(b: Books, year: int, retained: Account, total: int) {
    && ChartReady(b.chart, retained)
    && LedgerStarts(b.chart, b.rows, year, retained, total)
    && RecordsStart(b.closings, b.retained, year, total)
    && ReferencesFree(b.references, year) && NumberingPasses(b.mutable)
  }

  /** Every account's new-year net is its old closing net, or zero if nominal. */
  ghost predicate CarriedForward(accounts: seq<Account>, rows: seq<Row<Key>>, year: int) {
    accounts == []
    || (AccountNet(rows, accounts[0].id, year + 1)
          == (if IsNominal(accounts[0]) then 0 else AccountNet(rows, accounts[0].id, year))
        && CarriedForward(accounts[1..], rows, year))
  }

  lemma {:induction false} PostEachIsAddAll(rows: seq<Row<Key>>, js: seq<Journal>)
    ensures PostEach(rows, js) == AddAll(rows, PostedLines(js))
  {
    if js != [] {
      PostEachIsAddAll(rows, js[..|js| - 1]);
      AddAllInTwo(rows, PostedLines(js[..|js| - 1]), PostingsIfPosted(js[|js| - 1]));
    }
  }

  // ---- Trading --------------------------------------------------------------------

  lemma {:induction false} NoLineOn(lines: seq<Line>, id: nat)
    requires AvoidLines(id, lines)
    ensures LineNet(lines, id) == 0
  {
    if lines != [] {
      NoLineOn(lines[1..], id);
    }
  }

  ghost predicate AllInYear(rows: seq<Row<Key>>, year: int) {
    rows == [] || (AllInYear(rows[..|rows| - 1], year) && rows[|rows| - 1].key.year == year)
  }

  lemma {:induction false} PostingsInYear(date: Date, dims: Dims, lines: seq<Line>)
    ensures AllInYear(LinePostings(date, dims, lines), date.year)
  {
    if lines != [] {
      PostingsInYear(date, dims, lines[1..]);
      ConcatInYear([PostingOf(date, dims, lines[0])], LinePostings(date, dims, lines[1..]), date.year);
    }
  }

  lemma {:induction false} ConcatInYear(t: seq<Row<Key>>, u: seq<Row<Key>>, year: int)
    requires AllInYear(t, year) && AllInYear(u, year)
    ensures AllInYear(t + u, year)
  {
    if u == [] {
      assert t + u == t;
    } else {
      assert (t + u)[..|t + u| - 1] == t + u[..|u| - 1];
      ConcatInYear(t, u[..|u| - 1], year);
    }
  }

  /** Trading stays within the chart and the year, posts nothing to retained earnings and
      balances as a whole. */
  lemma {:induction false} TradedLines(chart: seq<Account>, js: seq<Journal>, year: int, retained: Account)
    requires TradesJournals(chart, retained, year, js)
    ensures YearTotal(PostedLines(js), year) == 0
    ensures AccountNet(PostedLines(js), retained.id, year) == 0
    ensures InChart(chart, PostedLines(js)) && AllInYear(PostedLines(js), year)
  {
    if js != [] {
      var init, j := js[..|js| - 1], js[|js| - 1];
      TradedLines(chart, init, year, retained);
      SumsOfConcat(PostedLines(init), Postings(j), retained.id, year);
      LinePostingsSums(j.date, j.dims, j.lines, retained.id, year);
      NoLineOn(j.lines, retained.id);
      PostingsInChart(chart, j.date, j.dims, j.lines);
      PostingsInYear(j.date, j.dims, j.lines);
      ConcatInChart(chart, PostedLines(init), Postings(j));
      ConcatInYear(PostedLines(init), Postings(j), year);
    }
  }

  lemma {:induction false} UpdateKeepsDates(t: seq<Row<Key>>, i: nat, r: Row<Key>, year: int)
    requires NothingAfter(t, year) && i < |t| && r.key == t[i].key
    ensures NothingAfter(t[i := r], year)
  {
    var n := |t| - 1;
    assert t[i := r][..n] == if i == n then t[..n] else t[..n][i := r];
    if i < n {
      UpdateKeepsDates(t[..n], i, r, year);
    }
  }

  lemma {:induction false} AllInYearFront(rs: seq<Row<Key>>, year: int)
    requires AllInYear(rs, year) && rs != []
    ensures rs[0].key.year == year && AllInYear(rs[1..], year)
  {
    if |rs| > 1 {
      AllInYearFront(rs[..|rs| - 1], year);
      assert rs[1..][..|rs| - 2] == rs[..|rs| - 1][1..];
    }
  }

  lemma {:induction false} AddAllKeepsDates(t: seq<Row<Key>>, rs: seq<Row<Key>>, postingYear: int, year: int)
    requires NothingAfter(t, year) && AllInYear(rs, postingYear) && postingYear <= year
    ensures NothingAfter(AddAll(t, rs), year)
    decreases |rs|
  {
    if rs != [] {
      var r := rs[0];
      var i := Find(t, r.key);
      AllInYearFront(rs, postingYear);
      if i < |t| {
        UpdateKeepsDates(t, i, Add(t, r)[i], year);
      } else {
        assert Add(t, r)[..|t|] == t;
      }
      AddAllKeepsDates(Add(t, r), rs[1..], postingYear, year);
    }
  }

  lemma {:induction false} LaterYearIsLater(t: seq<Row<Key>>, year: int, later: int)
    requires NothingAfter(t, year) && year <= later
    ensures NothingAfter(t, later)
  {
    if t != [] {
      LaterYearIsLater(t[..|t| - 1], year, later);
    }
  }

  lemma {:induction false} TradingTakesNoCloseReference(references: set<Reference>, chart: seq<Account>,
                                                        js: seq<Journal>, year: int, retained: Account, from: int)
    requires ReferencesFree(references, from) && TradesJournals(chart, retained, year, js)
    ensures ReferencesFree(TakeEach(references, js), from)
  {
    if js != [] {
      TradingTakesNoCloseReference(references, chart, js[..|js| - 1], year, retained, from);
    }
  }

  /** Trading stays within the chart, the year and double entry, and leaves retained
      earnings alone. */
  lemma {:induction false} TradingKeeps(b: Books, year: int, retained: Account, total: int, business: Business)
    requires StartsYear(b, year, retained, total) && Trades(b.chart, retained, year, business)
    ensures ReadyToClose(AfterTrading(b, business), year, retained, total)
  {
    var ps := PostedLines(business.journals);
    PostEachIsAddAll(b.rows, business.journals);
    TradedLines(b.chart, business.journals, year, retained);
    AddAllKeepsChart(b.chart, b.rows, ps);
    AddAllKeepsDates(b.rows, ps, year, year);
    AddAllSums(b.rows, ps, retained.id, year);
    TradingTakesNoCloseReference(b.references, b.chart, business.journals, year, retained, year);
  }

  lemma {:induction false} ListedIsNetOn(rows: seq<Row<Key>>, accounts: seq<Account>, year: int)
    requires AllInYear(rows, year)
    ensures ListedTotal(rows, accounts, year) == NetOn(rows, accounts)
  {
    if rows != [] {
      ListedIsNetOn(rows[..|rows| - 1], accounts, year);
    }
  }

  lemma {:induction false} NetOnConcat(t: seq<Row<Key>>, u: seq<Row<Key>>, accounts: seq<Account>)
    ensures NetOn(t + u, accounts) == NetOn(t, accounts) + NetOn(u, accounts)
  {
    if u == [] {
      assert t + u == t;
    } else {
      assert (t + u)[..|t + u| - 1] == t + u[..|u| - 1];
      NetOnConcat(t, u[..|u| - 1], accounts);
    }
  }

  lemma {:induction false} LinePostingsOn(date: Date, dims: Dims, lines: seq<Line>, accounts: seq<Account>)
    ensures NetOn(LinePostings(date, dims, lines), accounts) == LinesOn(lines, accounts)
  {
    if lines != [] {
      var first := PostingOf(date, dims, lines[0]);
      LinePostingsOn(date, dims, lines[1..], accounts);
      NetOnConcat([first], LinePostings(date, dims, lines[1..]), accounts);
      assert [first][..0] == [];
    }
  }

  lemma {:induction false} EarnedIsNet(chart: seq<Account>, js: seq<Journal>)
    ensures Earned(chart, js) == -NetOn(PostedLines(js), Select(chart, Nominal))
  {
    if js != [] {
      var init, j := js[..|js| - 1], js[|js| - 1];
      EarnedIsNet(chart, init);
      NetOnConcat(PostedLines(init), PostingsIfPosted(j), Select(chart, Nominal));
      LinePostingsOn(j.date, j.dims, j.lines, Select(chart, Nominal));
    }
  }

  lemma {:induction false} NetOverAddAll(accounts: seq<Account>, t: seq<Row<Key>>, rs: seq<Row<Key>>, year: int)
    ensures NetOver(accounts, AddAll(t, rs), year) == NetOver(accounts, t, year) + NetOver(accounts, rs, year)
  {
    if accounts != [] {
      NetOverAddAll(accounts[1..], t, rs, year);
      AddAllSums(t, rs, accounts[0].id, year);
    }
  }

  lemma {:induction false} NetOverZeros(accounts: seq<Account>, rows: seq<Row<Key>>, year: int)
    requires AtZero(accounts, rows, year)
    ensures NetOver(accounts, rows, year) == 0
  {
    if accounts != [] {
      NetOverZeros(accounts[1..], rows, year);
    }
  }

  /** The net income the close finds in the index is what the year's journals earned. */
  lemma {:induction false} NetIncomeIsEarned(b: Books, year: int, retained: Account, total: int, business: Business)
    requires StartsYear(b, year, retained, total) && Trades(b.chart, retained, year, business)
    ensures NetIncome(AfterTrading(b, business), year) == Earned(b.chart, business.journals)
  {
    var t, ps := AfterTrading(b, business), PostedLines(business.journals);
    var nominals := Select(b.chart, Nominal);
    PostEachIsAddAll(b.rows, business.journals);
    ChartSplits(b.chart, t.rows, year);
    NetOverAddAll(nominals, b.rows, ps, year);
    NetOverZeros(nominals, b.rows, year);
    SelectKeepsDistinct(b.chart, Nominal);
    AccountsPartitionRows(nominals, ps, year);
    TradedLines(b.chart, business.journals, year, retained);
    ListedIsNetOn(ps, nominals, year);
    EarnedIsNet(b.chart, business.journals);
  }

  // ---- Closing --------------------------------------------------------------------

  /** A year traded within the chart and within double entry, ready to close. */
  ghost predicate ReadyToClose(t: Books, year: int, retained: Account, total: int) {
    && ChartReady(t.chart, retained) && WellKept(t, year)
    && NothingAfter(t.rows, year)
    && AccountNet(t.rows, retained.id, year) == -total
    && RecordsStart(t.closings, t.retained, year, total)
    && ReferencesFree(t.references, year) && NumberingPasses(t.mutable)
  }

  lemma {:induction false} NothingAfterSums(rows: seq<Row<Key>>, year: int, id: nat)
    requires NothingAfter(rows, year)
    ensures AccountNet(rows, id, year + 1) == 0 && YearTotal(rows, year + 1) == 0
  {
    if rows != [] {
      NothingAfterSums(rows[..|rows| - 1], year, id);
    }
  }

  lemma {:induction false} PostingKeepsDates(rows: seq<Row<Key>>, j: Journal, year: int)
    requires NothingAfter(rows, year) && j.date.year <= year
    ensures NothingAfter(AddAll(rows, Postings(j)), year)
  {
    PostingsInYear(j.date, j.dims, j.lines);
    AddAllKeepsDates(rows, Postings(j), j.date.year, year);
  }

  /** The opening journal leaves the closed year alone and puts its closing net on each
      carried account. */
  lemma {:induction false} OpeningMoves(t: Books, year: int, today: Date, id: nat)
    requires FindRetained(t.chart).Some? && DistinctIds(t.chart)
    requires NothingAfter(t.rows, year) && today.year == year
    ensures AccountNet(RowsAfterOpening(t, year, today), id, year)
         == AccountNet(RowsAfterClosing(t, year, today), id, year)
    ensures AccountNet(RowsAfterOpening(t, year, today), id, year + 1)
         == if HasId(Select(t.chart, Carried), id) then AccountNet(RowsAfterClosing(t, year, today), id, year) else 0
  {
    var closed := RowsAfterClosing(t, year, today);
    var opening := OpeningJournal(t, year, today);
    PostingMoves(closed, opening, id, year);
    PostingMoves(closed, opening, id, year + 1);
    PostingKeepsDates(t.rows, ClosingJournal(t, year, today), year);
    NothingAfterSums(closed, year, id);
    SelectKeepsDistinct(t.chart, Carried);
    LinesForNetOn(Select(t.chart, Carried), closed, year, false, [], id);
  }

  lemma {:induction false} NotStranded(chart: seq<Account>, a: Account)
    requires Select(chart, Stranded) == [] && a in chart
    ensures IsNominal(a) || a.active
  {
    SelectMembers(chart, Stranded, a);
  }

  lemma {:induction false} OpeningCarries(t: Books, year: int, today: Date, retained: Account, a: Account)
    requires ChartReady(t.chart, retained) && a in t.chart
    requires NothingAfter(t.rows, year) && today.year == year
    ensures AccountNet(RowsAfterOpening(t, year, today), a.id, year)
         == AccountNet(RowsAfterClosing(t, year, today), a.id, year)
    ensures AccountNet(RowsAfterOpening(t, year, today), a.id, year + 1)
         == if IsNominal(a) then 0 else AccountNet(RowsAfterClosing(t, year, today), a.id, year)
  {
    OpeningMoves(t, year, today, a.id);
    NotStranded(t.chart, a);
    SelectedIdIff(t.chart, Carried, a);
  }

  lemma {:induction false} NetsCarryForward(t: Books, year: int, today: Date, retained: Account, accounts: seq<Account>)
    requires ChartReady(t.chart, retained)
    requires NothingAfter(t.rows, year) && today.year == year
    requires forall a :: a in accounts ==> a in t.chart
    ensures CarriedForward(accounts, RowsAfterOpening(t, year, today), year)
  {
    if accounts != [] {
      NetsCarryForward(t, year, today, retained, accounts[1..]);
      OpeningCarries(t, year, today, retained, accounts[0]);
    }
  }

  lemma {:induction false} NominalsOpenAtZero(t: Books, year: int, today: Date, retained: Account,
                                              accounts: seq<Account>)
    requires ChartReady(t.chart, retained)
    requires NothingAfter(t.rows, year) && today.year == year
    requires forall a :: a in accounts ==> a in t.chart && IsNominal(a)
    ensures AtZero(accounts, RowsAfterOpening(t, year, today), year + 1)
  {
    if accounts != [] {
      NominalsOpenAtZero(t, year, today, retained, accounts[1..]);
      OpeningCarries(t, year, today, retained, accounts[0]);
    }
  }

  /** Retained earnings open with the net income added. */
  lemma {:induction false} RetainedOpens(t: Books, year: int, today: Date, retained: Account)
    requires ChartReady(t.chart, retained)
    requires NothingAfter(t.rows, year) && today.year == year
    ensures AccountNet(RowsAfterOpening(t, year, today), retained.id, year + 1)
         == AccountNet(t.rows, retained.id, year) - NetIncome(t, year)
  {
    RetainedIsInChart(t.chart);
    OpeningCarries(t, year, today, retained, retained);
    ClosingZeroesNominals(t, year, today, retained);
  }

  lemma {:induction false} OpeningBounds(t: Books, year: int, today: Date, retained: Account)
    requires ChartReady(t.chart, retained) && InChart(t.chart, t.rows)
    requires NothingAfter(t.rows, year) && today.year == year
    requires Balanced(OpeningJournal(t, year, today).lines)
    ensures InChart(t.chart, RowsAfterOpening(t, year, today))
    ensures NothingAfter(RowsAfterOpening(t, year, today), year + 1)
    ensures YearTotal(RowsAfterOpening(t, year, today), year + 1) == 0
  {
    var closed := RowsAfterClosing(t, year, today);
    var opening := OpeningJournal(t, year, today);
    ClosingKeepsChart(t, year, today);
    SelectedLinesInChart(t.chart, t.chart, Carried, closed, year, false, []);
    PostingsInChart(t.chart, opening.date, NO_DIMS, opening.lines);
    AddAllKeepsChart(t.chart, closed, Postings(opening));
    PostingKeepsDates(t.rows, ClosingJournal(t, year, today), year);
    NothingAfterSums(closed, year, 0);
    LaterYearIsLater(closed, year, year + 1);
    PostingKeepsDates(closed, opening, year + 1);
    PostingMoves(closed, opening, 0, year + 1);
  }

  lemma {:induction false} LedgerOpens(t: Books, year: int, today: Date, retained: Account, total: int)
    requires ReadyToClose(t, year, retained, total) && today.year == year
    requires Balanced(OpeningJournal(t, year, today).lines)
    ensures LedgerStarts(t.chart, RowsAfterOpening(t, year, today), year + 1, retained, total + NetIncome(t, year))
  {
    OpeningBounds(t, year, today, retained);
    forall a | a in Select(t.chart, Nominal) ensures a in t.chart && IsNominal(a) {
      SelectMembers(t.chart, Nominal, a);
    }
    NominalsOpenAtZero(t, year, today, retained, Select(t.chart, Nominal));
    RetainedOpens(t, year, today, retained);
  }

  lemma {:induction false} RecordsBoundLatest(records: seq<RetainedEarnings>, year: int)
    requires RecordedBefore(records, year)
    ensures RecordedBefore(records, year + 1)
    ensures LatestBefore(records, year + 1).Some? ==> LatestBefore(records, year + 1).value.year < year
    ensures !HasRecord(records, year)
  {
    if records != [] {
      RecordsBoundLatest(records[..|records| - 1], year);
    }
  }

  lemma {:induction false} ClosingsBound(closings: seq<Closing>, year: int)
    requires ClosedBefore(closings, year)
    ensures ClosedBefore(closings, year + 1) && !IsClosed(closings, year)
  {
    if closings != [] {
      ClosingsBound(closings[..|closings| - 1], year);
    }
  }

  /** The records move on by a year and end at the total with the net income added. */
  lemma {:induction false} RecordsAdvance(t: Books, year: int, today: Date, total: int)
    requires RecordsStart(t.closings, t.retained, year, total)
    ensures RecordsStart(t.closings + [ClosingRecord(t, year, today)], t.retained + [RetainedRecord(t, year)],
                         year + 1, total + NetIncome(t, year))
    ensures !IsClosed(t.closings, year) && !HasRecord(t.retained, year)
  {
    RecordsBoundLatest(t.retained, year);
    ClosingsBound(t.closings, year);
    assert (t.retained + [RetainedRecord(t, year)])[..|t.retained|] == t.retained;
    assert (t.closings + [ClosingRecord(t, year, today)])[..|t.closings|] == t.closings;
  }

  /** A year ready to close closes on any day of its own, into a year that starts. */
  lemma {:induction false} ReadyYearCloses(t: Books, year: int, today: Date, retained: Account, total: int)
    requires ReadyToClose(t, year, retained, total) && today.year == year
    requires 1 <= year + 1 <= MAX_YEAR
    ensures CloseYear(t, year, today).Ok?
    ensures var closed := CloseYear(t, year, today).value;
            && Balanced(closed.closing.lines) && Balanced(closed.opening.lines)
            && closed.books.chart == t.chart
            && CarriedForward(t.chart, closed.books.rows, year)
            && StartsYear(closed.books, year + 1, retained, total + NetIncome(t, year))
  {
    RecordsAdvance(t, year, today, total);
    RetainedIsInChart(t.chart);
    NotStranded(t.chart, retained);
    assert Refusal(t, year).None? && StrandedNet(t, year) == 0 == StrandedAllowance(t, year, today);
    CloseSucceedsExactlyWhen(t, year, today);
    ClosingBalances(t, year);
    NetsCarryForward(t, year, today, retained, t.chart);
    LedgerOpens(t, year, today, retained, total);
  }

  /** One year: the close succeeds with a balanced opening journal; each balance-sheet
      account opens the new year at its old closing net; the new year starts as it should,
      with the year's earnings added to the total. */
  lemma {:induction false} YearCloses(b: Books, year: int, retained: Account, total: int, business: Business)
    requires StartsYear(b, year, retained, total) && Trades(b.chart, retained, year, business)
    requires 1 <= year + 1 <= MAX_YEAR
    ensures CloseAfter(b, year, business).Ok?
    ensures var closed := CloseAfter(b, year, business).value;
            && Balanced(closed.closing.lines) && Balanced(closed.opening.lines)
            && closed.books.chart == b.chart
            && CarriedForward(b.chart, closed.books.rows, year)
            && StartsYear(closed.books, year + 1, retained, total + Earned(b.chart, business.journals))
  {
    TradingKeeps(b, year, retained, total, business);
    NetIncomeIsEarned(b, year, retained, total, business);
    ReadyYearCloses(AfterTrading(b, business), year, business.closeDate, retained, total);
  }

  lemma {:induction false} CarriedForwardAt(accounts: seq<Account>, rows: seq<Row<Key>>, year: int, a: Account)
    requires CarriedForward(accounts, rows, year) && a in accounts
    ensures AccountNet(rows, a.id, year + 1) == if IsNominal(a) then 0 else AccountNet(rows, a.id, year)
  {
    if a != accounts[0] {
      CarriedForwardAt(accounts[1..], rows, year, a);
    }
  }

  /** Each account of the chart, after its year's close: a balance-sheet account opens at its
      old closing net, a nominal one at zero. */
  lemma {:induction false} EachAccountCarries(b: Books, year: int, retained: Account, total: int, business: Business,
                                              a: Account)
    requires StartsYear(b, year, retained, total) && Trades(b.chart, retained, year, business)
    requires 1 <= year + 1 <= MAX_YEAR && a in b.chart
    ensures CloseAfter(b, year, business).Ok?
    ensures var rows := CloseAfter(b, year, business).value.books.rows;
            AccountNet(rows, a.id, year + 1) == if IsNominal(a) then 0 else AccountNet(rows, a.id, year)
  {
    YearCloses(b, year, retained, total, business);
    CarriedForwardAt(b.chart, CloseAfter(b, year, business).value.books.rows, year, a);
  }

  // ---- Runs -----------------------------------------------------------------------

  ghost predicate AllTrade(chart: seq<Account>, retained: Account, year: int, years: seq<Business>)
    decreases |years|
  {
    years == [] || (Trades(chart, retained, year, years[0]) && AllTrade(chart, retained, year + 1, years[1..]))
  }

  /** One close as it should be: it succeeds, both its journals balance, and every account
      of the chart is carried into the new year (nominal accounts at zero). */
  ghost predicate ClosesWell(b: Books, closed: Result<Closed, CloseError>, year: int) {
    && closed.Ok?
    && Balanced(closed.value.closing.lines) && Balanced(closed.value.opening.lines)
    && closed.value.books.chart == b.chart
    && CarriedForward(b.chart, closed.value.books.rows, year)
  }

  /** Consecutive years of business, each ended by its close, all as they should be: before
      and after each close the year starts with a retained-earnings account and a latest
      record that both hold everything earned so far. */
  ghost predicate RunsWell(b: Books, year: int, retained: Account, total: int, years: seq<Business>)
    decreases |years|
  {
    && StartsYear(b, year, retained, total)
    && (years == []
        || (&& ClosesWell(b, CloseAfter(b, year, years[0]), year)
            && RunsWell(CloseAfter(b, year, years[0]).value.books, year + 1, retained,
                        total + Earned(b.chart, years[0].journals), years[1..])))
  }

  lemma {:induction false} NothingPosted(accounts: seq<Account>, year: int)
    ensures AtZero(accounts, [], year)
  {
    if accounts != [] {
      NothingPosted(accounts[1..], year);
    }
  }

  /** Books with nothing in them start any year, with nothing earned. */
  lemma FreshBooksStart(chart: seq<Account>, mutable: set<Field>, year: int, retained: Account)
    requires ChartReady(chart, retained) && NumberingPasses(mutable)
    ensures StartsYear(Books(chart, [], {}, mutable, [], []), year, retained, 0)
  {
    NothingPosted(Select(chart, Nominal), year);
  }

  /** A run whose first close is as it should be, and whose rest is. */
  lemma RunsWellFrom(b: Books, year: int, retained: Account, total: int, years: seq<Business>, next: Books, later: int)
    requires years != [] && StartsYear(b, year, retained, total)
    requires ClosesWell(b, CloseAfter(b, year, years[0]), year) && next == CloseAfter(b, year, years[0]).value.books
    requires later == total + Earned(b.chart, years[0].journals)
    requires RunsWell(next, year + 1, retained, later, years[1..])
    ensures RunsWell(b, year, retained, total, years)
  {
  }

  lemma YearCloseInto(b: Books, year: int, retained: Account, total: int, business: Business) returns (next: Books)
    requires StartsYear(b, year, retained, total) && Trades(b.chart, retained, year, business)
    requires 1 <= year + 1 <= MAX_YEAR
    ensures ClosesWell(b, CloseAfter(b, year, business), year)
    ensures next == CloseAfter(b, year, business).value.books && next.chart == b.chart
    ensures StartsYear(next, year + 1, retained, total + Earned(b.chart, business.journals))
  {
    YearCloses(b, year, retained, total, business);
    next := CloseAfter(b, year, business).value.books;
  }

  /** Safety and progress over any run of years that start, trade and close in step. */
  lemma {:induction false} RunKeepsBooks(b: Books, year: int, retained: Account, total: int, years: seq<Business>)
    requires StartsYear(b, year, retained, total) && AllTrade(b.chart, retained, year, years)
    requires 0 <= year && year + |years| <= MAX_YEAR
    ensures RunsWell(b, year, retained, total, years)
    decreases |years|
  {
    if years != [] {
      var next := YearCloseInto(b, year, retained, total, years[0]);
      var later := total + Earned(b.chart, years[0].journals);
      RunKeepsBooks(next, year + 1, retained, later, years[1..]);
      RunsWellFrom(b, year, retained, total, years, next, later);
    }
  }
}
