/** Year-end closing: nominal accounts are closed to retained earnings and balance-sheet
    accounts are carried into the next year. */
module YearEnd {
  import opened Balances
  import opened Calendar
  import opened JournalHeaders
  import opened Journals
  import opened Wrappers

  datatype AccountType = Asset | Liability | Equity | Income | Expense

  /** `namedRetained` says the name contains "Retained Earnings". */
  datatype Account = Account(id: nat, code: nat, kind: AccountType, active: bool, namedRetained: bool)

  datatype Closing = Closing(year: int, date: Date, revenue: int, expenses: int, netIncome: int)

  datatype RetainedEarnings = RetainedEarnings(year: int, beginning: int, netIncome: int, ending: int)

  /** The tables of the close, with the taken journal references and the fields that a posted
      header still takes. */
  datatype Books = Books(chart: seq<Account>, rows: seq<Row<Key>>, references: set<Reference>, mutable: set<Field>,
                         closings: seq<Closing>, retained: seq<RetainedEarnings>)

  datatype CloseError =
    | AlreadyClosed
    | AccountCodeTaken
    | ReferenceTaken
    | HeaderFrozen
    | RecordExists
    | YearOutOfRange
    | UnbalancedOpening

  datatype Closed = Closed(books: Books, closing: Journal, opening: Journal)

  // ---- The chart ------------------------------------------------------------------

  /** The account queries of the close: one type, both nominal types, and the active and
      inactive balance-sheet accounts. */
  datatype Class = OfType(kind: AccountType) | Nominal | Carried | Stranded

  predicate IsNominal(a: Account) {
    a.kind == Income || a.kind == Expense
  }

  predicate Belongs(a: Account, c: Class) {
    match c
    case OfType(kind) => a.kind == kind
    case Nominal => IsNominal(a)
    case Carried => !IsNominal(a) && a.active
    case Stranded => !IsNominal(a) && !a.active
  }

  function Select(chart: seq<Account>, c: Class): seq<Account> {
    if chart == [] then []
    else if Belongs(chart[0], c) then [chart[0]] + Select(chart[1..], c)
    else Select(chart[1..], c)
  }

  predicate HasId(chart: seq<Account>, id: nat) {
    chart != [] && (chart[0].id == id || HasId(chart[1..], id))
  }

  predicate DistinctIds(chart: seq<Account>) {
    chart == [] || (!HasId(chart[1..], chart[0].id) && DistinctIds(chart[1..]))
  }

  /** The first equity account named retained earnings. */
  function FindRetained(chart: seq<Account>): Option<Account> {
    if chart == [] then None
    else if chart[0].kind == Equity && chart[0].namedRetained then Some(chart[0])
    else FindRetained(chart[1..])
  }

  /** The code of a retained-earnings account the close creates; codes are unique. */
  const RETAINED_CODE: nat := 30200000

  predicate HasCode(chart: seq<Account>, code: nat) {
    chart != [] && (chart[0].code == code || HasCode(chart[1..], code))
  }

  predicate CannotCreateRetained(chart: seq<Account>) {
    FindRetained(chart).None? && HasCode(chart, RETAINED_CODE)
  }

  function FreshId(chart: seq<Account>): nat {
    if chart == [] then 0
    else
      var id := FreshId(chart[1..]);
      if chart[0].id < id then id else chart[0].id + 1
  }

  function RetainedAccount(chart: seq<Account>): Account {
    match FindRetained(chart)
    case Some(a) => a
    case None => Account(FreshId(chart), RETAINED_CODE, Equity, true, true)
  }

  /** The chart with a retained-earnings account, created when there is none.  Queries over
      the chart take their accounts in any fixed order. */
  function ChartWithRetained(chart: seq<Account>): seq<Account> {
    if FindRetained(chart).Some? then chart else [RetainedAccount(chart)] + chart
  }

  // ---- Sums over the index --------------------------------------------------------

  /** Debits less credits of one account in one year, over every dimension and month. */
  function AccountNet(rows: seq<Row<Key>>, id: nat, year: int): int {
    if rows == [] then 0
    else
      var r := rows[|rows| - 1];
      AccountNet(rows[..|rows| - 1], id, year)
      + if r.key.account == id && r.key.year == year then r.debit - r.credit else 0
  }

  function YearTotal(rows: seq<Row<Key>>, year: int): int {
    if rows == [] then 0
    else
      var r := rows[|rows| - 1];
      YearTotal(rows[..|rows| - 1], year) + if r.key.year == year then r.debit - r.credit else 0
  }

  /** The accumulating loop over a query of accounts. */
  function NetOver(accounts: seq<Account>, rows: seq<Row<Key>>, year: int): int {
    if accounts == [] then 0
    else AccountNet(rows, accounts[0].id, year) + NetOver(accounts[1..], rows, year)
  }

  function Revenue(b: Books, year: int): int {
    -NetOver(Select(b.chart, OfType(Income)), b.rows, year)
  }

  function Expenses(b: Books, year: int): int {
    NetOver(Select(b.chart, OfType(Expense)), b.rows, year)
  }

  function NetIncome(b: Books, year: int): int {
    Revenue(b, year) - Expenses(b, year)
  }

  /** The latest retained-earnings record before `year`. */
  function LatestBefore(records: seq<RetainedEarnings>, year: int): Option<RetainedEarnings> {
    if records == [] then None
    else
      var earlier, x := LatestBefore(records[..|records| - 1], year), records[|records| - 1];
      if x.year < year && (earlier.None? || earlier.value.year < x.year) then Some(x) else earlier
  }

  // ---- The two journals -----------------------------------------------------------

  /** One line for a signed amount, a debit if positive, a credit if negative and none if
      zero, before the rest. */
  function Prepend(id: nat, amount: int, rest: seq<Line>): seq<Line> {
    if amount > 0 then [Line(id, amount, 0)] + rest
    else if amount < 0 then [Line(id, 0, -amount)] + rest
    else rest
  }

  function Signed(undo: bool, amount: int): int {
    if undo then -amount else amount
  }

  /** Lines that restate each account's year net, or undo it, followed by `rest`. */
  function LinesFor(accounts: seq<Account>, rows: seq<Row<Key>>, year: int, undo: bool, rest: seq<Line>): seq<Line> {
    if accounts == [] then rest
    else
      var id := accounts[0].id;
      Prepend(id, Signed(undo, AccountNet(rows, id, year)), LinesFor(accounts[1..], rows, year, undo, rest))
  }

  function ClosingLines(b: Books, year: int): seq<Line> {
    LinesFor(Select(b.chart, OfType(Income)), b.rows, year, true,
             LinesFor(Select(b.chart, OfType(Expense)), b.rows, year, true,
                      Prepend(RetainedAccount(b.chart).id, -NetIncome(b, year), [])))
  }

  function ClosingJournal(b: Books, year: int, today: Date): Journal {
    Journal(Posted, YearClosing(year), today, NO_DIMS, ClosingLines(b, year), None)
  }

  function RowsAfterClosing(b: Books, year: int, today: Date): seq<Row<Key>> {
    AddAll(b.rows, Postings(ClosingJournal(b, year, today)))
  }

  function OpeningLines(chart: seq<Account>, rows: seq<Row<Key>>, year: int): seq<Line> {
    LinesFor(Select(chart, Carried), rows, year, false, [])
  }

  function OpeningJournal(b: Books, year: int, today: Date): Journal {
    Journal(Posted, OpeningBalances(year + 1), Date(year + 1, 1, 1), NO_DIMS,
            OpeningLines(ChartWithRetained(b.chart), RowsAfterClosing(b, year, today), year), None)
  }

  function ClosingRecord(b: Books, year: int, today: Date): Closing {
    Closing(year, today, Revenue(b, year), Expenses(b, year), NetIncome(b, year))
  }

  function RetainedRecord(b: Books, year: int): RetainedEarnings {
    var previous := LatestBefore(b.retained, year);
    var beginning := if previous.Some? then previous.value.ending else 0;
    RetainedEarnings(year, beginning, NetIncome(b, year), beginning + NetIncome(b, year))
  }

  predicate IsClosed(closings: seq<Closing>, year: int) {
    closings != [] && (closings[|closings| - 1].year == year || IsClosed(closings[..|closings| - 1], year))
  }

  predicate HasRecord(records: seq<RetainedEarnings>, year: int) {
    records != [] && (records[|records| - 1].year == year || HasRecord(records[..|records| - 1], year))
  }

  /** What refuses a close before any balance is looked at, in the order the service meets it:
      the year is closed, the code of the retained-earnings account to create is taken, a
      reference is taken, a posted header does not take its number, the year has a record, or
      the opening date does not exist. */
  function Refusal(b: Books, year: int): Option<CloseError> {
    if IsClosed(b.closings, year) then Some(AlreadyClosed)
    else if CannotCreateRetained(b.chart) then Some(AccountCodeTaken)
    else if YearClosing(year) in b.references then Some(ReferenceTaken)
    else if !NumberingPasses(b.mutable) then Some(HeaderFrozen)
    else if HasRecord(b.retained, year) then Some(RecordExists)
    else if !(1 <= year + 1 <= MAX_YEAR) then Some(YearOutOfRange)
    else if OpeningBalances(year + 1) in b.references then Some(ReferenceTaken)
    else None
  }

  /** The whole close: rolled back on a refusal, and when the posting chokepoint finds the
      opening journal unbalanced. */
  function CloseYear(b: Books, year: int, today: Date): Result<Closed, CloseError> {
    if Refusal(b, year).Some? then Err(Refusal(b, year).value)
    else
      var closing, opening := ClosingJournal(b, year, today), OpeningJournal(b, year, today);
      if !Balanced(opening.lines) then Err(UnbalancedOpening)
      else
        var after := Books(ChartWithRetained(b.chart),
                           AddAll(RowsAfterClosing(b, year, today), Postings(opening)),
                           b.references + {closing.reference, opening.reference},
                           b.mutable,
                           b.closings + [ClosingRecord(b, year, today)],
                           b.retained + [RetainedRecord(b, year)]);
        Ok(Closed(after, closing, opening))
  }

  // ---- Facts about the chart ------------------------------------------------------

  lemma {:induction false} MemberHasId(chart: seq<Account>, a: Account)
    requires a in chart
    ensures HasId(chart, a.id)
  {
    if a != chart[0] {
      MemberHasId(chart[1..], a);
    }
  }

  lemma {:induction false} IdHasMember(chart: seq<Account>, id: nat) returns (a: Account)
    requires HasId(chart, id)
    ensures a in chart && a.id == id
  {
    a := chart[0];
    if a.id != id {
      a := IdHasMember(chart[1..], id);
    }
  }

  lemma {:induction false} SameIdSameAccount(chart: seq<Account>, a: Account, b: Account)
    requires DistinctIds(chart) && a in chart && b in chart && a.id == b.id
    ensures a == b
  {
    if a != chart[0] && b != chart[0] {
      SameIdSameAccount(chart[1..], a, b);
    } else if a != b {
      MemberHasId(chart[1..], if a == chart[0] then b else a);
    }
  }

  lemma {:induction false} SelectMembers(chart: seq<Account>, c: Class, a: Account)
    ensures a in Select(chart, c) <==> a in chart && Belongs(a, c)
  {
    if chart != [] {
      SelectMembers(chart[1..], c, a);
    }
  }

  lemma {:induction false} SelectedIds(chart: seq<Account>, c: Class, id: nat)
    requires HasId(Select(chart, c), id)
    ensures HasId(chart, id)
  {
    var a := IdHasMember(Select(chart, c), id);
    SelectMembers(chart, c, a);
    MemberHasId(chart, a);
  }

  lemma {:induction false} SelectKeepsDistinct(chart: seq<Account>, c: Class)
    requires DistinctIds(chart)
    ensures DistinctIds(Select(chart, c))
  {
    if chart != [] {
      SelectKeepsDistinct(chart[1..], c);
      if HasId(Select(chart[1..], c), chart[0].id) {
        SelectedIds(chart[1..], c, chart[0].id);
      }
      assert Belongs(chart[0], c) ==> Select(chart, c)[1..] == Select(chart[1..], c);
    }
  }

  lemma {:induction false} SelectedIdIff(chart: seq<Account>, c: Class, a: Account)
    requires DistinctIds(chart) && a in chart
    ensures HasId(Select(chart, c), a.id) <==> Belongs(a, c)
  {
    if HasId(Select(chart, c), a.id) {
      var x := IdHasMember(Select(chart, c), a.id);
      SelectMembers(chart, c, x);
      SameIdSameAccount(chart, x, a);
    } else if Belongs(a, c) {
      SelectMembers(chart, c, a);
      MemberHasId(Select(chart, c), a);
    }
  }

  lemma {:induction false} RetainedIsInChart(chart: seq<Account>)
    ensures FindRetained(chart).Some? ==> FindRetained(chart).value in chart && FindRetained(chart).value.kind == Equity
  {
    if chart != [] {
      RetainedIsInChart(chart[1..]);
    }
  }

  lemma {:induction false} FreshIdIsFresh(chart: seq<Account>, id: nat)
    requires HasId(chart, id)
    ensures id < FreshId(chart)
  {
    if chart[0].id != id {
      FreshIdIsFresh(chart[1..], id);
    }
  }

  lemma {:induction false} ChartWithRetainedIsWellFormed(chart: seq<Account>)
    requires DistinctIds(chart)
    ensures DistinctIds(ChartWithRetained(chart))
    ensures RetainedAccount(chart) in ChartWithRetained(chart)
    ensures forall id :: HasId(chart, id) ==> HasId(ChartWithRetained(chart), id)
  {
    RetainedIsInChart(chart);
    if FindRetained(chart).None? {
      assert ChartWithRetained(chart)[1..] == chart;
      if HasId(chart, FreshId(chart)) {
        FreshIdIsFresh(chart, FreshId(chart));
      }
    }
  }

  // ---- Facts about lines ----------------------------------------------------------

  /** What lines put on one account. */
  function LineNet(lines: seq<Line>, id: nat): int {
    if lines == [] then 0
    else (if lines[0].account == id then lines[0].debit - lines[0].credit else 0) + LineNet(lines[1..], id)
  }

  /** A line put in front counts for its amount in the totals and on its own account. */
  lemma PrependTotals(id: nat, amount: int, rest: seq<Line>, on: nat)
    ensures TotalDebit(Prepend(id, amount, rest)) - TotalCredit(Prepend(id, amount, rest))
         == amount + TotalDebit(rest) - TotalCredit(rest)
    ensures LineNet(Prepend(id, amount, rest), on) == LineNet(rest, on) + if id == on then amount else 0
    ensures AllValid(rest) ==> AllValid(Prepend(id, amount, rest))
  {
    assert amount != 0 ==> Prepend(id, amount, rest)[1..] == rest;
  }

  lemma {:induction false} LinesForIsValid(accounts: seq<Account>, rows: seq<Row<Key>>, year: int, undo: bool,
                                           rest: seq<Line>)
    requires AllValid(rest)
    ensures AllValid(LinesFor(accounts, rows, year, undo, rest))
  {
    if accounts != [] {
      LinesForIsValid(accounts[1..], rows, year, undo, rest);
    }
  }

  lemma {:induction false} LinesForTotal(accounts: seq<Account>, rows: seq<Row<Key>>, year: int, undo: bool,
                                         rest: seq<Line>)
    ensures TotalDebit(LinesFor(accounts, rows, year, undo, rest))
            - TotalCredit(LinesFor(accounts, rows, year, undo, rest))
         == Signed(undo, NetOver(accounts, rows, year)) + TotalDebit(rest) - TotalCredit(rest)
  {
    if accounts != [] {
      var id := accounts[0].id;
      LinesForTotal(accounts[1..], rows, year, undo, rest);
      PrependTotals(id, Signed(undo, AccountNet(rows, id, year)), LinesFor(accounts[1..], rows, year, undo, rest), 0);
    }
  }

  /** The lines drawn up for a list of accounts put nothing on an account outside it, and on
      each account of it exactly its own net. */
  lemma {:induction false} LinesForNetOn(accounts: seq<Account>, rows: seq<Row<Key>>, year: int, undo: bool,
                                         rest: seq<Line>, on: nat)
    requires DistinctIds(accounts)
    ensures LineNet(LinesFor(accounts, rows, year, undo, rest), on)
         == LineNet(rest, on) + if HasId(accounts, on) then Signed(undo, AccountNet(rows, on, year)) else 0
  {
    if accounts != [] {
      var id := accounts[0].id;
      LinesForNetOn(accounts[1..], rows, year, undo, rest, on);
      PrependTotals(id, Signed(undo, AccountNet(rows, id, year)), LinesFor(accounts[1..], rows, year, undo, rest), on);
    }
  }

  // ---- Posting moves the sums -----------------------------------------------------

  function AccountYear(id: nat, year: int): Key -> bool {
    (k: Key) => k.account == id && k.year == year
  }

  function InYear(year: int): Key -> bool {
    (k: Key) => k.year == year
  }

  /** The sums of the close are filters of the index. */
  lemma {:induction false} SumsAreNets(rows: seq<Row<Key>>, id: nat, year: int)
    ensures AccountNet(rows, id, year) == Net(rows, AccountYear(id, year))
    ensures YearTotal(rows, year) == Net(rows, InYear(year))
  {
    if rows != [] {
      SumsAreNets(rows[..|rows| - 1], id, year);
    }
  }

  lemma {:induction false} AddAllSums(t: seq<Row<Key>>, rs: seq<Row<Key>>, id: nat, year: int)
    ensures AccountNet(AddAll(t, rs), id, year) == AccountNet(t, id, year) + AccountNet(rs, id, year)
    ensures YearTotal(AddAll(t, rs), year) == YearTotal(t, year) + YearTotal(rs, year)
  {
    SumsAreNets(t, id, year);
    SumsAreNets(rs, id, year);
    SumsAreNets(AddAll(t, rs), id, year);
    AddAllAggregates(t, rs, AccountYear(id, year));
    AddAllAggregates(t, rs, InYear(year));
  }

  lemma {:induction false} SumsOfConcat(t: seq<Row<Key>>, u: seq<Row<Key>>, id: nat, year: int)
    ensures AccountNet(t + u, id, year) == AccountNet(t, id, year) + AccountNet(u, id, year)
    ensures YearTotal(t + u, year) == YearTotal(t, year) + YearTotal(u, year)
  {
    if u == [] {
      assert t + u == t;
    } else {
      assert (t + u)[..|t + u| - 1] == t + u[..|u| - 1];
      SumsOfConcat(t, u[..|u| - 1], id, year);
    }
  }

  lemma {:induction false} LinePostingsSums(date: Date, dims: Dims, lines: seq<Line>, id: nat, year: int)
    ensures AccountNet(LinePostings(date, dims, lines), id, year) == if date.year == year then LineNet(lines, id) else 0
    ensures YearTotal(LinePostings(date, dims, lines), year)
         == if date.year == year then TotalDebit(lines) - TotalCredit(lines) else 0
  {
    if lines != [] {
      var first := PostingOf(date, dims, lines[0]);
      LinePostingsSums(date, dims, lines[1..], id, year);
      SumsOfConcat([first], LinePostings(date, dims, lines[1..]), id, year);
      assert [first][..0] == [];
    }
  }

  /** Folding a journal in moves an account's year by the journal's lines on it, and the
      year's total by the journal's imbalance. */
  lemma {:induction false} PostingMoves(rows: seq<Row<Key>>, j: Journal, id: nat, year: int)
    ensures AccountNet(AddAll(rows, Postings(j)), id, year)
         == AccountNet(rows, id, year) + if j.date.year == year then LineNet(j.lines, id) else 0
    ensures YearTotal(AddAll(rows, Postings(j)), year)
         == YearTotal(rows, year) + if j.date.year == year then TotalDebit(j.lines) - TotalCredit(j.lines) else 0
  {
    AddAllSums(rows, Postings(j), id, year);
    LinePostingsSums(j.date, j.dims, j.lines, id, year);
  }

  // ---- The closing journal --------------------------------------------------------

  /** The closing journal balances whatever the signs of the balances. */
  lemma {:induction false} ClosingBalances(b: Books, year: int)
    ensures Balanced(ClosingLines(b, year)) && AllValid(ClosingLines(b, year))
  {
    var incomes, expenses := Select(b.chart, OfType(Income)), Select(b.chart, OfType(Expense));
    var last := Prepend(RetainedAccount(b.chart).id, -NetIncome(b, year), []);
    var middle := LinesFor(expenses, b.rows, year, true, last);
    PrependTotals(RetainedAccount(b.chart).id, -NetIncome(b, year), [], 0);
    LinesForTotal(expenses, b.rows, year, true, last);
    LinesForTotal(incomes, b.rows, year, true, middle);
    LinesForIsValid(expenses, b.rows, year, true, last);
    LinesForIsValid(incomes, b.rows, year, true, middle);
  }

  lemma {:induction false} RetainedIsNotNominal(chart: seq<Account>, a: Account)
    requires DistinctIds(chart) && a in chart && a.id == RetainedAccount(chart).id
    ensures !IsNominal(a)
  {
    RetainedIsInChart(chart);
    MemberHasId(chart, a);
    if FindRetained(chart).Some? {
      SameIdSameAccount(chart, a, RetainedAccount(chart));
    } else {
      FreshIdIsFresh(chart, a.id);
    }
  }

  /** What the closing journal puts on each account: minus its net if nominal, minus the
      net income on retained earnings, nothing elsewhere. */
  lemma {:induction false} ClosingNetOn(b: Books, year: int, a: Account)
    requires DistinctIds(b.chart) && a in b.chart
    ensures LineNet(ClosingLines(b, year), a.id)
         == if IsNominal(a) then -AccountNet(b.rows, a.id, year)
            else if a.id == RetainedAccount(b.chart).id then -NetIncome(b, year)
            else 0
  {
    var retained := RetainedAccount(b.chart);
    var incomes, expenses := Select(b.chart, OfType(Income)), Select(b.chart, OfType(Expense));
    var last := Prepend(retained.id, -NetIncome(b, year), []);
    PrependTotals(retained.id, -NetIncome(b, year), [], a.id);
    SelectKeepsDistinct(b.chart, OfType(Income));
    SelectKeepsDistinct(b.chart, OfType(Expense));
    LinesForNetOn(expenses, b.rows, year, true, last, a.id);
    LinesForNetOn(incomes, b.rows, year, true, LinesFor(expenses, b.rows, year, true, last), a.id);
    SelectedIdIff(b.chart, OfType(Income), a);
    SelectedIdIff(b.chart, OfType(Expense), a);
    if a.id == retained.id {
      RetainedIsNotNominal(b.chart, a);
    }
  }

  /** Dated in the year it closes, the closing journal takes every income and expense
      account to a year net of zero over all dimensions, raises the credit net of retained
      earnings by exactly revenue less expenses, and moves nothing else. */
  lemma {:induction false} ClosingZeroesNominals(b: Books, year: int, today: Date, a: Account)
    requires DistinctIds(b.chart) && a in b.chart && today.year == year
    ensures AccountNet(RowsAfterClosing(b, year, today), a.id, year)
         == if IsNominal(a) then 0
            else if a.id == RetainedAccount(b.chart).id then AccountNet(b.rows, a.id, year) - NetIncome(b, year)
            else AccountNet(b.rows, a.id, year)
  {
    PostingMoves(b.rows, ClosingJournal(b, year, today), a.id, year);
    ClosingNetOn(b, year, a);
  }

  /** Dated in any other year it leaves the year it closes as it was. */
  lemma {:induction false} ClosingElsewhereMovesNothing(b: Books, year: int, today: Date, id: nat)
    requires today.year != year
    ensures AccountNet(RowsAfterClosing(b, year, today), id, year) == AccountNet(b.rows, id, year)
  {
    PostingMoves(b.rows, ClosingJournal(b, year, today), id, year);
  }

  // ---- Accounts partition the rows of a year --------------------------------------

  /** What a row counts for if it is of the year and on a listed account. */
  function ListedNet(r: Row<Key>, accounts: seq<Account>, year: int): int {
    if r.key.year == year && HasId(accounts, r.key.account) then r.debit - r.credit else 0
  }

  /** The rows on listed accounts in a year. */
  function ListedTotal(rows: seq<Row<Key>>, accounts: seq<Account>, year: int): int {
    if rows == [] then 0
    else
      ListedTotal(rows[..|rows| - 1], accounts, year) + ListedNet(rows[|rows| - 1], accounts, year)
  }

  /** One more row counts once, under its own account. */
  lemma {:induction false} OneAccountTakesRow(accounts: seq<Account>, rows: seq<Row<Key>>, year: int)
    requires DistinctIds(accounts) && rows != []
    ensures NetOver(accounts, rows, year)
         == NetOver(accounts, rows[..|rows| - 1], year) + ListedNet(rows[|rows| - 1], accounts, year)
  {
    if accounts != [] {
      OneAccountTakesRow(accounts[1..], rows, year);
    }
  }

  lemma {:induction false} NetOverNothing(accounts: seq<Account>, year: int)
    ensures NetOver(accounts, [], year) == 0
  {
    if accounts != [] {
      NetOverNothing(accounts[1..], year);
    }
  }

  /** Summing the accounts' year nets one by one is netting the rows of those accounts. */
  lemma {:induction false} AccountsPartitionRows(accounts: seq<Account>, rows: seq<Row<Key>>, year: int)
    requires DistinctIds(accounts)
    ensures NetOver(accounts, rows, year) == ListedTotal(rows, accounts, year)
  {
    if rows == [] {
      NetOverNothing(accounts, year);
    } else {
      AccountsPartitionRows(accounts, rows[..|rows| - 1], year);
      OneAccountTakesRow(accounts, rows, year);
    }
  }

  /** Every row is on an account of the chart. */
  ghost predicate InChart(chart: seq<Account>, rows: seq<Row<Key>>) {
    rows == [] || (InChart(chart, rows[..|rows| - 1]) && HasId(chart, rows[|rows| - 1].key.account))
  }

  lemma {:induction false} ListedIsAll(chart: seq<Account>, rows: seq<Row<Key>>, year: int)
    requires InChart(chart, rows)
    ensures ListedTotal(rows, chart, year) == YearTotal(rows, year)
  {
    if rows != [] {
      ListedIsAll(chart, rows[..|rows| - 1], year);
    }
  }

  lemma {:induction false} SelectStep(chart: seq<Account>, c: Class, rows: seq<Row<Key>>, year: int)
    requires chart != []
    ensures NetOver(Select(chart, c), rows, year)
         == (if Belongs(chart[0], c) then AccountNet(rows, chart[0].id, year) else 0)
            + NetOver(Select(chart[1..], c), rows, year)
  {
    assert Belongs(chart[0], c) ==> Select(chart, c)[1..] == Select(chart[1..], c);
  }

  /** Every account is nominal, carried forward or stranded (an inactive balance-sheet
      account), and never two of these. */
  lemma {:induction false} ChartSplits(chart: seq<Account>, rows: seq<Row<Key>>, year: int)
    ensures NetOver(chart, rows, year)
         == NetOver(Select(chart, Nominal), rows, year) + NetOver(Select(chart, Carried), rows, year)
            + NetOver(Select(chart, Stranded), rows, year)
    ensures NetOver(Select(chart, Nominal), rows, year)
         == NetOver(Select(chart, OfType(Income)), rows, year) + NetOver(Select(chart, OfType(Expense)), rows, year)
  {
    if chart != [] {
      ChartSplits(chart[1..], rows, year);
      SelectStep(chart, Nominal, rows, year);
      SelectStep(chart, Carried, rows, year);
      SelectStep(chart, Stranded, rows, year);
      SelectStep(chart, OfType(Income), rows, year);
      SelectStep(chart, OfType(Expense), rows, year);
    }
  }

  // ---- When a close succeeds ------------------------------------------------------

  /** What the inactive balance-sheet accounts hold before the close. */
  function StrandedNet(b: Books, year: int): int {
    NetOver(Select(b.chart, Stranded), b.rows, year)
  }

  /** What they would have to hold for the opening journal to balance: nothing when the close
      is dated in its year, unless retained earnings are themselves inactive and keep the net
      income; the whole net income when it is dated elsewhere. */
  function StrandedAllowance(b: Books, year: int, today: Date): int {
    if today.year != year || !RetainedAccount(b.chart).active then NetIncome(b, year) else 0
  }

  /** Double entry in the closed year, and a chart that names every account used. */
  ghost predicate WellKept(b: Books, year: int) {
    && DistinctIds(b.chart) && InChart(b.chart, b.rows)
    && YearTotal(b.rows, year) == 0
  }

  lemma {:induction false} UpdateKeepsChart(chart: seq<Account>, t: seq<Row<Key>>, i: nat, r: Row<Key>)
    requires InChart(chart, t) && i < |t| && r.key == t[i].key
    ensures InChart(chart, t[i := r])
  {
    var n := |t| - 1;
    assert t[i := r][..n] == if i == n then t[..n] else t[..n][i := r];
    if i < n {
      UpdateKeepsChart(chart, t[..n], i, r);
    }
  }

  lemma {:induction false} AddAllKeepsChart(chart: seq<Account>, t: seq<Row<Key>>, rs: seq<Row<Key>>)
    requires InChart(chart, t) && InChart(chart, rs)
    ensures InChart(chart, AddAll(t, rs))
    decreases |rs|
  {
    if rs != [] {
      var r := rs[0];
      var i := Find(t, r.key);
      InChartFront(chart, rs);
      if i < |t| {
        UpdateKeepsChart(chart, t, i, Add(t, r)[i]);
      } else {
        assert Add(t, r)[..|t|] == t;
      }
      AddAllKeepsChart(chart, Add(t, r), rs[1..]);
    }
  }

  lemma {:induction false} InChartFront(chart: seq<Account>, rs: seq<Row<Key>>)
    requires InChart(chart, rs) && rs != []
    ensures HasId(chart, rs[0].key.account) && InChart(chart, rs[1..])
  {
    if |rs| > 1 {
      InChartFront(chart, rs[..|rs| - 1]);
      assert rs[1..][..|rs| - 2] == rs[..|rs| - 1][1..];
    }
  }

  /** Every line is on an account of the chart. */
  ghost predicate LinesInChart(chart: seq<Account>, lines: seq<Line>) {
    lines == [] || (HasId(chart, lines[0].account) && LinesInChart(chart, lines[1..]))
  }

  lemma {:induction false} ConcatInChart(chart: seq<Account>, t: seq<Row<Key>>, u: seq<Row<Key>>)
    requires InChart(chart, t) && InChart(chart, u)
    ensures InChart(chart, t + u)
  {
    if u == [] {
      assert t + u == t;
    } else {
      assert (t + u)[..|t + u| - 1] == t + u[..|u| - 1];
      ConcatInChart(chart, t, u[..|u| - 1]);
    }
  }

  lemma {:induction false} PostingsInChart(chart: seq<Account>, date: Date, dims: Dims, lines: seq<Line>)
    requires LinesInChart(chart, lines)
    ensures InChart(chart, LinePostings(date, dims, lines))
  {
    if lines != [] {
      PostingsInChart(chart, date, dims, lines[1..]);
      ConcatInChart(chart, [PostingOf(date, dims, lines[0])], LinePostings(date, dims, lines[1..]));
    }
  }

  /** Lines drawn up for selected accounts stay within any chart that holds those accounts. */
  lemma {:induction false} LinesForInChart(chart: seq<Account>, accounts: seq<Account>, rows: seq<Row<Key>>,
                                           year: int, undo: bool, rest: seq<Line>)
    requires LinesInChart(chart, rest)
    requires forall id :: HasId(accounts, id) ==> HasId(chart, id)
    ensures LinesInChart(chart, LinesFor(accounts, rows, year, undo, rest))
  {
    if accounts != [] {
      var id := accounts[0].id;
      var tail := LinesFor(accounts[1..], rows, year, undo, rest);
      LinesForInChart(chart, accounts[1..], rows, year, undo, rest);
      PrependInChart(chart, id, Signed(undo, AccountNet(rows, id, year)), tail);
    }
  }

  lemma PrependInChart(chart: seq<Account>, id: nat, amount: int, rest: seq<Line>)
    requires LinesInChart(chart, rest) && HasId(chart, id)
    ensures LinesInChart(chart, Prepend(id, amount, rest))
  {
    assert amount != 0 ==> Prepend(id, amount, rest)[1..] == rest;
  }

  lemma {:induction false} SelectedLinesInChart(chart: seq<Account>, whole: seq<Account>, c: Class,
                                                rows: seq<Row<Key>>, year: int, undo: bool, rest: seq<Line>)
    requires LinesInChart(whole, rest)
    requires forall id :: HasId(chart, id) ==> HasId(whole, id)
    ensures LinesInChart(whole, LinesFor(Select(chart, c), rows, year, undo, rest))
  {
    forall id | HasId(Select(chart, c), id) ensures HasId(whole, id) {
      SelectedIds(chart, c, id);
    }
    LinesForInChart(whole, Select(chart, c), rows, year, undo, rest);
  }

  lemma {:induction false} InWholeChart(chart: seq<Account>, whole: seq<Account>, rows: seq<Row<Key>>)
    requires InChart(chart, rows) && forall id :: HasId(chart, id) ==> HasId(whole, id)
    ensures InChart(whole, rows)
  {
    if rows != [] {
      InWholeChart(chart, whole, rows[..|rows| - 1]);
    }
  }

  lemma {:induction false} ClosingKeepsChart(b: Books, year: int, today: Date)
    requires DistinctIds(b.chart) && InChart(b.chart, b.rows)
    ensures InChart(ChartWithRetained(b.chart), RowsAfterClosing(b, year, today))
  {
    var chart := ChartWithRetained(b.chart);
    var last := Prepend(RetainedAccount(b.chart).id, -NetIncome(b, year), []);
    var middle := LinesFor(Select(b.chart, OfType(Expense)), b.rows, year, true, last);
    ChartWithRetainedIsWellFormed(b.chart);
    MemberHasId(chart, RetainedAccount(b.chart));
    InWholeChart(b.chart, chart, b.rows);
    PrependInChart(chart, RetainedAccount(b.chart).id, -NetIncome(b, year), []);
    SelectedLinesInChart(b.chart, chart, OfType(Expense), b.rows, year, true, last);
    SelectedLinesInChart(b.chart, chart, OfType(Income), b.rows, year, true, middle);
    PostingsInChart(chart, today, NO_DIMS, ClosingLines(b, year));
    AddAllKeepsChart(chart, b.rows, Postings(ClosingJournal(b, year, today)));
  }

  lemma {:induction false} NominalNets(accounts: seq<Account>, b: Books, year: int, today: Date)
    requires DistinctIds(b.chart)
    requires forall a :: a in accounts ==> a in b.chart && IsNominal(a)
    ensures NetOver(accounts, RowsAfterClosing(b, year, today), year)
         == if today.year == year then 0 else NetOver(accounts, b.rows, year)
  {
    if accounts != [] {
      NominalNets(accounts[1..], b, year, today);
      if today.year == year {
        ClosingZeroesNominals(b, year, today, accounts[0]);
      } else {
        ClosingElsewhereMovesNothing(b, year, today, accounts[0].id);
      }
    }
  }

  /** The nominal accounts after the closing journal: nothing left in its own year, the
      whole net income still open when it is dated elsewhere. */
  lemma {:induction false} NominalsAfterClosing(b: Books, year: int, today: Date)
    requires DistinctIds(b.chart)
    ensures NetOver(Select(ChartWithRetained(b.chart), Nominal), RowsAfterClosing(b, year, today), year)
         == if today.year == year then 0 else -NetIncome(b, year)
  {
    var chart := ChartWithRetained(b.chart);
    if chart != b.chart {
      assert chart[1..] == b.chart;
    }
    assert Select(chart, Nominal) == Select(b.chart, Nominal);
    forall a | a in Select(b.chart, Nominal) ensures a in b.chart && IsNominal(a) {
      SelectMembers(b.chart, Nominal, a);
    }
    NominalNets(Select(b.chart, Nominal), b, year, today);
    ChartSplits(b.chart, b.rows, year);
  }

  lemma {:induction false} StrandedMoves(b: Books, year: int, today: Date, accounts: seq<Account>)
    requires DistinctIds(b.chart) && DistinctIds(accounts)
    requires forall a :: a in accounts ==> a in b.chart && !IsNominal(a)
    ensures NetOver(accounts, RowsAfterClosing(b, year, today), year)
         == NetOver(accounts, b.rows, year)
            - if today.year == year && HasId(accounts, RetainedAccount(b.chart).id) then NetIncome(b, year) else 0
  {
    if accounts != [] {
      StrandedMoves(b, year, today, accounts[1..]);
      if today.year == year {
        ClosingZeroesNominals(b, year, today, accounts[0]);
      } else {
        ClosingElsewhereMovesNothing(b, year, today, accounts[0].id);
      }
    }
  }

  lemma {:induction false} StrandedIsOfChart(chart: seq<Account>)
    ensures Select(ChartWithRetained(chart), Stranded) == Select(chart, Stranded)
  {
    if FindRetained(chart).None? {
      assert ChartWithRetained(chart)[1..] == chart;
    }
  }

  lemma {:induction false} RetainedIsStrandedWhen(chart: seq<Account>)
    requires DistinctIds(chart)
    ensures HasId(Select(chart, Stranded), RetainedAccount(chart).id) <==> !RetainedAccount(chart).active
  {
    var retained := RetainedAccount(chart);
    RetainedIsInChart(chart);
    if FindRetained(chart).Some? {
      SelectedIdIff(chart, Stranded, retained);
    } else if HasId(Select(chart, Stranded), retained.id) {
      SelectedIds(chart, Stranded, retained.id);
      FreshIdIsFresh(chart, retained.id);
    }
  }

  /** The closing journal moves no inactive balance-sheet account but retained earnings. */
  lemma {:induction false} StrandedAfterClosing(b: Books, year: int, today: Date)
    requires DistinctIds(b.chart)
    ensures NetOver(Select(ChartWithRetained(b.chart), Stranded), RowsAfterClosing(b, year, today), year)
         == StrandedNet(b, year)
            - if today.year == year && !RetainedAccount(b.chart).active then NetIncome(b, year) else 0
  {
    forall a | a in Select(b.chart, Stranded) ensures a in b.chart && !IsNominal(a) {
      SelectMembers(b.chart, Stranded, a);
    }
    SelectKeepsDistinct(b.chart, Stranded);
    StrandedIsOfChart(b.chart);
    RetainedIsStrandedWhen(b.chart);
    StrandedMoves(b, year, today, Select(b.chart, Stranded));
  }

  /** What is left to carry forward. */
  lemma {:induction false} CarriedNet(b: Books, year: int, today: Date)
    requires WellKept(b, year)
    ensures NetOver(Select(ChartWithRetained(b.chart), Carried), RowsAfterClosing(b, year, today), year)
         == StrandedAllowance(b, year, today) - StrandedNet(b, year)
  {
    var chart, rows := ChartWithRetained(b.chart), RowsAfterClosing(b, year, today);
    ChartWithRetainedIsWellFormed(b.chart);
    ClosingKeepsChart(b, year, today);
    ClosingBalances(b, year);
    PostingMoves(b.rows, ClosingJournal(b, year, today), 0, year);
    AccountsPartitionRows(chart, rows, year);
    ListedIsAll(chart, rows, year);
    ChartSplits(chart, rows, year);
    NominalsAfterClosing(b, year, today);
    StrandedAfterClosing(b, year, today);
  }

  /** Exactly when closing a well-kept year succeeds, in terms of the books before it: nothing
      refuses it, and the inactive balance-sheet accounts hold their allowance. */
  lemma {:induction false} CloseSucceedsExactlyWhen(b: Books, year: int, today: Date)
    requires WellKept(b, year)
    ensures CloseYear(b, year, today).Ok?
            <==> Refusal(b, year).None? && StrandedNet(b, year) == StrandedAllowance(b, year, today)
    ensures CloseYear(b, year, today) == Err(UnbalancedOpening)
            <==> Refusal(b, year).None? && StrandedNet(b, year) != StrandedAllowance(b, year, today)
  {
    CarriedNet(b, year, today);
    LinesForTotal(Select(ChartWithRetained(b.chart), Carried), RowsAfterClosing(b, year, today), year, false, []);
  }

  /** Under the guard as it stands every close is refused: its own journal cannot be numbered. */
  lemma NoCloseAsWritten(b: Books, year: int, today: Date)
    requires b.mutable == POST_POSTING_MUTABLE_FIELDS
    ensures CloseYear(b, year, today).Err?
  {
    GuardAsWritten(None, {});
  }

  // ---- A close dated in the next year ---------------------------------------------

  const CASH := Account(0, 31000000, Asset, true, false)
  const SALES := Account(1, 11000000, Income, true, false)
  const EARNINGS := Account(2, RETAINED_CODE, Equity, true, true)

  /** Sales of a hundred for cash in 2026. */
  function SalesBooks(mutable: set<Field>): Books {
    Books([CASH, SALES, EARNINGS],
          [Row(Key(0, NO_DIMS, 2026, 5), 100, 0), Row(Key(1, NO_DIMS, 2026, 5), 0, 100)], {}, mutable, [], [])
  }

  lemma SalesRows(mutable: set<Field>)
    ensures YearTotal(SalesBooks(mutable).rows, 2026) == 0
    ensures AccountNet(SalesBooks(mutable).rows, 1, 2026) == -100
  {
    var rows := SalesBooks(mutable).rows;
    assert rows[..1][..0] == [] && rows[..1] == [rows[0]];
    assert YearTotal(rows[..1], 2026) == 100 && AccountNet(rows[..1], 1, 2026) == 0;
  }

  lemma SelectOfThree(x: Account, y: Account, z: Account, c: Class)
    ensures Select([x, y, z], c) == (if Belongs(x, c) then [x] else []) + (if Belongs(y, c) then [y] else [])
                                    + (if Belongs(z, c) then [z] else [])
  {
    assert [x, y, z][1..] == [y, z] && [y, z][1..] == [z] && [z][1..] == [];
    assert Select([z], c) == if Belongs(z, c) then [z] else [];
    assert Select([y, z], c) == (if Belongs(y, c) then [y] else []) + Select([z], c);
  }

  lemma IdsOfThree(x: Account, y: Account, z: Account)
    ensures HasId([x, y, z], x.id) && HasId([x, y, z], y.id)
    ensures DistinctIds([x, y, z]) <==> x.id != y.id && x.id != z.id && y.id != z.id
  {
    assert [x, y, z][1..] == [y, z] && [y, z][1..] == [z] && [z][1..] == [];
    assert HasId([z], x.id) <==> z.id == x.id;
    assert HasId([y, z], x.id) <==> y.id == x.id || z.id == x.id;
    assert !HasId([], z.id) && DistinctIds([z]);
    assert HasId([z], y.id) <==> z.id == y.id;
    assert DistinctIds([y, z]) <==> y.id != z.id;
  }

  lemma SalesChart(mutable: set<Field>)
    ensures DistinctIds(SalesBooks(mutable).chart) && InChart(SalesBooks(mutable).chart, SalesBooks(mutable).rows)
    ensures Select(SalesBooks(mutable).chart, OfType(Income)) == [SALES]
    ensures FindRetained(SalesBooks(mutable).chart) == Some(EARNINGS)
    ensures Select(SalesBooks(mutable).chart, OfType(Expense)) == [] == Select(SalesBooks(mutable).chart, Stranded)
  {
    var chart, rows := SalesBooks(mutable).chart, SalesBooks(mutable).rows;
    IdsOfThree(CASH, SALES, EARNINGS);
    SelectOfThree(CASH, SALES, EARNINGS, OfType(Income));
    SelectOfThree(CASH, SALES, EARNINGS, OfType(Expense));
    SelectOfThree(CASH, SALES, EARNINGS, Stranded);
    assert chart[1..] == [SALES, EARNINGS] && chart[1..][1..] == [EARNINGS];
    assert FindRetained(chart[1..]) == FindRetained([EARNINGS]) == Some(EARNINGS);
    assert rows[..1] == [rows[0]] && rows[..1][..0] == [];
    assert InChart(chart, rows[..1]);
  }

  /** Closed on a January day of the next year, the year is refused for its opening journal. */
  lemma CloseInJanuaryIsRefused(mutable: set<Field>)
    requires NumberingPasses(mutable)
    ensures CloseYear(SalesBooks(mutable), 2026, Date(2027, 1, 5)) == Err(UnbalancedOpening)
  {
    var b := SalesBooks(mutable);
    SalesChart(mutable);
    SalesRows(mutable);
    var income := Select(b.chart, OfType(Income));
    assert NetOver(income[1..], b.rows, 2026) == 0 && NetOver(income, b.rows, 2026) == -100;
    assert NetIncome(b, 2026) == 100;
    CloseSucceedsExactlyWhen(b, 2026, Date(2027, 1, 5));
  }
}
