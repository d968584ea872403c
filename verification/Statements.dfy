/** The balance sheet and the two trial balances: one totals raw journal lines, one grouped
    accounts, one the rows of the balance index; yet they must agree. */
module Statements {
  import opened Sums
  import opened Balances
  import opened Calendar
  import opened JournalHeaders
  import opened Journals
  import opened Wrappers
  import opened YearEnd

  /** The type of each account; a type outside the five leaves an account unclassified. */
  type Kinds = seq<Option<AccountType>>

  function KindOf(kinds: Kinds, account: nat): Option<AccountType> {
    if account < |kinds| then kinds[account] else None
  }

  // ---- The queried lines ----------------------------------------------------------

  predicate InWindow(d: Date, first: Date, last: Date) {
    OnOrBefore(first, d) && OnOrBefore(d, last)
  }

  function LineRows(lines: seq<Line>, rest: seq<Row<nat>>): seq<Row<nat>> {
    if lines == [] then rest
    else [Row(lines[0].account, lines[0].debit, lines[0].credit)] + LineRows(lines[1..], rest)
  }

  /** The lines of posted journals dated in a window, each under its account. */
  function Selected(js: seq<Journal>, first: Date, last: Date): seq<Row<nat>> {
    if js == [] then []
    else if js[0].status == Posted && InWindow(js[0].date, first, last)
    then LineRows(js[0].lines, Selected(js[1..], first, last))
    else Selected(js[1..], first, last)
  }

  /** The same lines grouped by account. */
  function Grouped(js: seq<Journal>, first: Date, last: Date): seq<Row<nat>> {
    AddAll([], Selected(js, first, last))
  }

  function KindNet(rows: seq<Row<nat>>, kinds: Kinds, kind: Option<AccountType>): int {
    if rows == [] then 0
    else
      (if KindOf(kinds, rows[0].key) == kind then rows[0].debit - rows[0].credit else 0)
      + KindNet(rows[1..], kinds, kind)
  }

  function AllNet(rows: seq<Row<nat>>): int {
    if rows == [] then 0 else rows[0].debit - rows[0].credit + AllNet(rows[1..])
  }

  // ---- The balance sheet ----------------------------------------------------------

  datatype Balance = Balance(account: nat, kind: Option<AccountType>, amount: int)

  datatype BalanceSheet = BalanceSheet(assets: int, liabilities: int, equity: int, netIncome: int, check: int)

  /** Assets and expenses are signed by debit, everything else by credit. */
  function BalanceOf(row: Row<nat>, kinds: Kinds): Balance {
    var kind := KindOf(kinds, row.key);
    Balance(row.key, kind,
            if kind == Some(Asset) || kind == Some(Expense) then row.debit - row.credit else row.credit - row.debit)
  }

  function BalancesOf(rows: seq<Row<nat>>, kinds: Kinds): seq<Balance> {
    if rows == [] then [] else [BalanceOf(rows[0], kinds)] + BalancesOf(rows[1..], kinds)
  }

  function AmountOf(balances: seq<Balance>, kind: AccountType): int {
    if balances == [] then 0
    else (if balances[0].kind == Some(kind) then balances[0].amount else 0) + AmountOf(balances[1..], kind)
  }

  /** The balance sheet by what the raw lines of a window put on each type. */
  function Sheet(lines: seq<Row<nat>>, kinds: Kinds): BalanceSheet {
    var netIncome := -KindNet(lines, kinds, Some(Income)) - KindNet(lines, kinds, Some(Expense));
    var assets, liabilities := KindNet(lines, kinds, Some(Asset)), -KindNet(lines, kinds, Some(Liability));
    var equity := -KindNet(lines, kinds, Some(Equity)) + netIncome;
    BalanceSheet(assets, liabilities, equity, netIncome, assets - (liabilities + equity))
  }

  function OfKind(kinds: Kinds, kind: Option<AccountType>): nat -> bool {
    (account: nat) => KindOf(kinds, account) == kind
  }

  lemma {:induction false} KindNetIsNet(rows: seq<Row<nat>>, kinds: Kinds, kind: Option<AccountType>)
    ensures KindNet(rows, kinds, kind) == Net(rows, OfKind(kinds, kind))
  {
    if rows != [] {
      KindNetIsNet(rows[1..], kinds, kind);
      SumFront(rows, NetOf(OfKind(kinds, kind)));
    }
  }

  /** Grouping by account keeps what each type nets to. */
  lemma {:induction false} GroupingKeepsKinds(js: seq<Journal>, first: Date, last: Date, kinds: Kinds,
                                              kind: Option<AccountType>)
    ensures KindNet(Grouped(js, first, last), kinds, kind) == KindNet(Selected(js, first, last), kinds, kind)
  {
    KindNetIsNet(Grouped(js, first, last), kinds, kind);
    KindNetIsNet(Selected(js, first, last), kinds, kind);
    AddAllAggregates([], Selected(js, first, last), OfKind(kinds, kind));
  }

  lemma {:induction false} AmountsAreNets(rows: seq<Row<nat>>, kinds: Kinds, kind: AccountType)
    ensures AmountOf(BalancesOf(rows, kinds), kind)
         == if kind == Asset || kind == Expense then KindNet(rows, kinds, Some(kind))
            else -KindNet(rows, kinds, Some(kind))
  {
    if rows != [] {
      AmountsAreNets(rows[1..], kinds, kind);
    }
  }

  /** One signed balance for each account with activity. */
  method GetAccountBalances(js: seq<Journal>, kinds: Kinds, first: Date, last: Date) returns (balances: seq<Balance>)
    ensures balances == BalancesOf(Grouped(js, first, last), kinds)
  {
    var rows := Grouped(js, first, last);
    balances := [];
    for i := 0 to |rows|
      invariant balances + BalancesOf(rows[i..], kinds) == BalancesOf(rows, kinds)
    {
      ConcatAssociates(balances, [BalanceOf(rows[i], kinds)], BalancesOf(rows[i + 1..], kinds));
      balances := balances + [BalanceOf(rows[i], kinds)];
    }
  }

  /** The statement, accumulated over the grouped balances, with the net income queried
      separately from the raw lines. */
  method GenerateBalanceSheet(js: seq<Journal>, kinds: Kinds, first: Date, last: Date) returns (sheet: BalanceSheet)
    ensures sheet == Sheet(Selected(js, first, last), kinds)
  {
    var balances := GetAccountBalances(js, kinds, first, last);
    var assets, liabilities, equity := 0, 0, 0;
    for i := 0 to |balances|
      invariant assets + AmountOf(balances[i..], Asset) == AmountOf(balances, Asset)
      invariant liabilities + AmountOf(balances[i..], Liability) == AmountOf(balances, Liability)
      invariant equity + AmountOf(balances[i..], Equity) == AmountOf(balances, Equity)
    {
      var b := balances[i];
      if b.kind == Some(Asset) {
        assets := assets + b.amount;
      } else if b.kind == Some(Liability) {
        liabilities := liabilities + b.amount;
      } else if b.kind == Some(Equity) {
        equity := equity + b.amount;
      }
    }
    SheetOfBalances(js, kinds, first, last);
    var lines := Selected(js, first, last);
    var revenue, expense := -KindNet(lines, kinds, Some(Income)), KindNet(lines, kinds, Some(Expense));
    var netIncome := revenue - expense;
    equity := equity + netIncome;
    return BalanceSheet(assets, liabilities, equity, netIncome, assets - (liabilities + equity));
  }

  lemma SheetOfBalances(js: seq<Journal>, kinds: Kinds, first: Date, last: Date)
    ensures var balances, lines := BalancesOf(Grouped(js, first, last), kinds), Selected(js, first, last);
            && AmountOf(balances, Asset) == KindNet(lines, kinds, Some(Asset))
            && AmountOf(balances, Liability) == -KindNet(lines, kinds, Some(Liability))
            && AmountOf(balances, Equity) == -KindNet(lines, kinds, Some(Equity))
  {
    AmountsAreNets(Grouped(js, first, last), kinds, Asset);
    AmountsAreNets(Grouped(js, first, last), kinds, Liability);
    AmountsAreNets(Grouped(js, first, last), kinds, Equity);
    GroupingKeepsKinds(js, first, last, kinds, Some(Asset));
    GroupingKeepsKinds(js, first, last, kinds, Some(Liability));
    GroupingKeepsKinds(js, first, last, kinds, Some(Equity));
  }

  lemma {:induction false} KindsPartition(rows: seq<Row<nat>>, kinds: Kinds)
    ensures AllNet(rows)
         == KindNet(rows, kinds, Some(Asset)) + KindNet(rows, kinds, Some(Liability))
            + KindNet(rows, kinds, Some(Equity))
            + KindNet(rows, kinds, Some(Income)) + KindNet(rows, kinds, Some(Expense)) + KindNet(rows, kinds, None)
  {
    if rows != [] {
      KindsPartition(rows[1..], kinds);
      var kind := KindOf(kinds, rows[0].key);
      if kind.Some? {
        var t: AccountType := kind.value;
        assert t == Asset || t == Liability || t == Equity || t == Income || t == Expense;
      }
    }
  }

  lemma {:induction false} LineRowsNet(lines: seq<Line>, rest: seq<Row<nat>>)
    ensures AllNet(LineRows(lines, rest)) == TotalDebit(lines) - TotalCredit(lines) + AllNet(rest)
  {
    if lines != [] {
      LineRowsNet(lines[1..], rest);
    }
  }

  lemma {:induction false} WindowBalances(js: seq<Journal>, first: Date, last: Date)
    requires forall i :: 0 <= i < |js| && js[i].status == Posted ==> Balanced(js[i].lines)
    ensures AllNet(Selected(js, first, last)) == 0
  {
    if js != [] {
      WindowBalances(js[1..], first, last);
      LineRowsNet(js[0].lines, Selected(js[1..], first, last));
    }
  }

  /** For any window of balanced postings the check of the balance sheet is what unclassified
      accounts received on the credit side: it is zero exactly when they net to zero. */
  lemma CheckIsUnclassifiedNet(js: seq<Journal>, kinds: Kinds, first: Date, last: Date)
    requires forall i :: 0 <= i < |js| && js[i].status == Posted ==> Balanced(js[i].lines)
    ensures Sheet(Selected(js, first, last), kinds).check == -KindNet(Selected(js, first, last), kinds, None)
  {
    WindowBalances(js, first, last);
    KindsPartition(Selected(js, first, last), kinds);
  }

  lemma {:induction false} NothingUnclassified(lines: seq<Row<nat>>, kinds: Kinds)
    requires forall i :: 0 <= i < |lines| ==> KindOf(kinds, lines[i].key).Some?
    ensures KindNet(lines, kinds, None) == 0
  {
    if lines != [] {
      NothingUnclassified(lines[1..], kinds);
    }
  }

  /** With every account of one of the five types the check is always zero. */
  lemma CheckIsZero(js: seq<Journal>, kinds: Kinds, first: Date, last: Date)
    requires forall i :: 0 <= i < |js| && js[i].status == Posted ==> Balanced(js[i].lines)
    requires forall i :: 0 <= i < |Selected(js, first, last)| ==> KindOf(kinds, Selected(js, first, last)[i].key).Some?
    ensures Sheet(Selected(js, first, last), kinds).check == 0
  {
    CheckIsUnclassifiedNet(js, kinds, first, last);
    NothingUnclassified(Selected(js, first, last), kinds);
  }

  // ---- The two trial balances -----------------------------------------------------

  /** The debit column takes a net that is not negative, the credit column the opposite of
      one that is. */
  function DebitSide(net: int): nat {
    if net >= 0 then net else 0
  }

  function CreditSide(net: int): nat {
    if net >= 0 then 0 else -net
  }

  function DebitColumn(rows: seq<Row<nat>>): int {
    if rows == [] then 0 else DebitSide(rows[0].debit - rows[0].credit) + DebitColumn(rows[1..])
  }

  function CreditColumn(rows: seq<Row<nat>>): int {
    if rows == [] then 0 else CreditSide(rows[0].debit - rows[0].credit) + CreditColumn(rows[1..])
  }

  /** The rows of one year and month, each under its account. */
  function MonthRows(rows: seq<Row<Key>>, year: int, month: int): seq<Row<nat>> {
    if rows == [] then []
    else if InPeriod(year, month, rows[0].key)
    then [Row(rows[0].key.account, rows[0].debit, rows[0].credit)] + MonthRows(rows[1..], year, month)
    else MonthRows(rows[1..], year, month)
  }

  /** The column totals, accumulated row by row as both reports do. */
  method Columns(rows: seq<Row<nat>>) returns (debit: int, credit: int)
    ensures debit == DebitColumn(rows) && credit == CreditColumn(rows)
  {
    debit, credit := 0, 0;
    for i := 0 to |rows|
      invariant debit + DebitColumn(rows[i..]) == DebitColumn(rows)
      invariant credit + CreditColumn(rows[i..]) == CreditColumn(rows)
    {
      var net := rows[i].debit - rows[i].credit;
      if net >= 0 {
        debit := debit + net;
      } else {
        credit := credit - net;
      }
    }
  }

  /** The legacy trial balance of a period, over the rows of the index. */
  method TrialBalance(index: seq<Row<Key>>, year: int, month: int) returns (debit: int, credit: int, difference: int)
    ensures debit == DebitColumn(MonthRows(index, year, month))
    ensures credit == CreditColumn(MonthRows(index, year, month))
    ensures difference == debit - credit
  {
    debit, credit := Columns(MonthRows(index, year, month));
    difference := debit - credit;
  }

  /** The trial balance of a window, over the accounts of the journal lines. */
  method GenerateTrialBalance(js: seq<Journal>, first: Date, last: Date)
    returns (debit: int, credit: int, difference: int)
    ensures debit == DebitColumn(Grouped(js, first, last))
    ensures credit == CreditColumn(Grouped(js, first, last))
    ensures difference == debit - credit
  {
    debit, credit := Columns(Grouped(js, first, last));
    difference := debit - credit;
  }

  lemma {:induction false} ColumnsDiffer(rows: seq<Row<nat>>)
    ensures DebitColumn(rows) - CreditColumn(rows) == AllNet(rows)
  {
    if rows != [] {
      ColumnsDiffer(rows[1..]);
    }
  }

  function NetAt(rows: seq<Row<nat>>, account: nat): int {
    if rows == [] then 0
    else (if rows[0].key == account then rows[0].debit - rows[0].credit else 0) + NetAt(rows[1..], account)
  }

  /** The debit column with one row for each of the accounts below `n`. */
  function DebitsBelow(rows: seq<Row<nat>>, n: nat): int {
    if n == 0 then 0 else DebitsBelow(rows, n - 1) + DebitSide(NetAt(rows, n - 1))
  }

  /** One more row changes at most one account's debit side, by no more than its own. */
  lemma {:induction false} OneRowMore(rows: seq<Row<nat>>, n: nat)
    requires rows != []
    ensures DebitsBelow(rows, n) <= DebitSide(rows[0].debit - rows[0].credit) + DebitsBelow(rows[1..], n)
    ensures rows[0].key >= n ==> DebitsBelow(rows, n) == DebitsBelow(rows[1..], n)
    ensures rows[0].key < n && NetAt(rows[1..], rows[0].key) == 0 ==>
              DebitsBelow(rows, n) == DebitSide(rows[0].debit - rows[0].credit) + DebitsBelow(rows[1..], n)
  {
    if n > 0 {
      OneRowMore(rows, n - 1);
    }
  }

  lemma {:induction false} NoDebitsBelow(n: nat)
    ensures DebitsBelow([], n) == 0
  {
    if n > 0 {
      NoDebitsBelow(n - 1);
    }
  }

  /** Netting by account can only shrink the column. */
  lemma {:induction false} NettingShrinks(rows: seq<Row<nat>>, n: nat)
    ensures DebitsBelow(rows, n) <= DebitColumn(rows)
  {
    if rows == [] {
      NoDebitsBelow(n);
    } else {
      NettingShrinks(rows[1..], n);
      OneRowMore(rows, n);
    }
  }

  lemma {:induction false} NothingAt(rows: seq<Row<nat>>, account: nat)
    requires forall i :: 0 <= i < |rows| ==> rows[i].key != account
    ensures NetAt(rows, account) == 0
  {
    if rows != [] {
      NothingAt(rows[1..], account);
    }
  }

  /** With one row an account there is nothing left to net. */
  lemma {:induction false} NettedAlready(rows: seq<Row<nat>>, n: nat)
    requires Unique(rows) && forall i :: 0 <= i < |rows| ==> rows[i].key < n
    ensures DebitsBelow(rows, n) == DebitColumn(rows)
  {
    if rows == [] {
      NoDebitsBelow(n);
    } else {
      NettedAlready(rows[1..], n);
      NothingAt(rows[1..], rows[0].key);
      OneRowMore(rows, n);
    }
  }

  lemma {:induction false} SameNetsSameDebits(a: seq<Row<nat>>, b: seq<Row<nat>>, n: nat)
    requires forall account: nat :: NetAt(a, account) == NetAt(b, account)
    ensures DebitsBelow(a, n) == DebitsBelow(b, n)
  {
    if n > 0 {
      SameNetsSameDebits(a, b, n - 1);
    }
  }

  function AboveAll(rows: seq<Row<nat>>): (n: nat)
    ensures forall i :: 0 <= i < |rows| ==> rows[i].key < n
  {
    if rows == [] then 0
    else
      var n := AboveAll(rows[1..]);
      if rows[0].key < n then n else rows[0].key + 1
  }

  // ---- The index and the journals select the same ---------------------------------

  function OnAccount(account: nat, year: int, month: int): Key -> bool {
    (k: Key) => k.account == account && InPeriod(year, month, k)
  }

  lemma {:induction false} MonthNets(rows: seq<Row<Key>>, year: int, month: int, account: nat)
    ensures NetAt(MonthRows(rows, year, month), account) == Net(rows, OnAccount(account, year, month))
    ensures AllNet(MonthRows(rows, year, month)) == Net(rows, PeriodFilter(year, month))
  {
    if rows != [] {
      MonthNets(rows[1..], year, month, account);
      SumFront(rows, NetOf(OnAccount(account, year, month)));
      SumFront(rows, NetOf(PeriodFilter(year, month)));
    }
  }

  lemma {:induction false} NetsOfGroups(lines: seq<Row<nat>>, account: nat)
    ensures NetAt(lines, account) == Net(lines, Is(account))
  {
    if lines != [] {
      NetsOfGroups(lines[1..], account);
      SumFront(lines, NetOf(Is(account)));
    }
  }

  lemma {:induction false} MonthRowsConcat(a: seq<Row<Key>>, b: seq<Row<Key>>, year: int, month: int)
    ensures MonthRows(a + b, year, month) == MonthRows(a, year, month) + MonthRows(b, year, month)
  {
    if a == [] {
      assert a + b == b;
    } else {
      assert (a + b)[1..] == a[1..] + b;
      MonthRowsConcat(a[1..], b, year, month);
    }
  }

  lemma {:induction false} PostingsInMonth(date: Date, dims: Dims, lines: seq<Line>, rest: seq<Row<nat>>, year: int,
                                           month: int)
    ensures MonthRows(LinePostings(date, dims, lines), year, month) + rest
         == if date.year == year && date.month == month then LineRows(lines, rest) else rest
  {
    if lines != [] {
      var posting := PostingOf(date, dims, lines[0]);
      PostingsInMonth(date, dims, lines[1..], rest, year, month);
      assert LinePostings(date, dims, lines)[1..] == LinePostings(date, dims, lines[1..]);
      ConcatAssociates([Row(lines[0].account, lines[0].debit, lines[0].credit)],
                       MonthRows(LinePostings(date, dims, lines[1..]), year, month), rest);
    }
  }

  lemma {:induction false} PostedLinesFront(js: seq<Journal>)
    requires js != []
    ensures PostedLines(js) == PostingsIfPosted(js[0]) + PostedLines(js[1..])
  {
    assert js == [js[0]] + js[1..] && [js[0]] == [] + [js[0]];
    PostedLinesConcat([js[0]], js[1..]);
    PostedLinesAppend([], js[0]);
  }

  lemma MonthWindow(d: Date, year: int, month: int)
    requires Valid(d) && 1 <= month <= 12
    ensures InWindow(d, Date(year, month, 1), Date(year, month, DaysInMonth(year, month)))
            <==> d.year == year && d.month == month
  {
  }

  /** Lines posted in a month, seen through the index keys, are the lines dated in it. */
  lemma {:induction false} MonthIsWindow(js: seq<Journal>, year: int, month: int)
    requires (forall i :: 0 <= i < |js| ==> Valid(js[i].date)) && 1 <= month <= 12
    ensures MonthRows(PostedLines(js), year, month)
         == Selected(js, Date(year, month, 1), Date(year, month, DaysInMonth(year, month)))
  {
    if js != [] {
      var rest := MonthRows(PostedLines(js[1..]), year, month);
      MonthIsWindow(js[1..], year, month);
      PostedLinesFront(js);
      MonthWindow(js[0].date, year, month);
      MonthRowsConcat(PostingsIfPosted(js[0]), PostedLines(js[1..]), year, month);
      PostingsInMonth(js[0].date, js[0].dims, js[0].lines, rest, year, month);
    }
  }

  /** The index puts on every account of a month what the journals do. */
  lemma {:induction false} IndexNetsAreLineNets(index: seq<Row<Key>>, js: seq<Journal>, year: int, month: int,
                                                account: nat)
    requires Indexes(index, PostedLines(js)) && (forall i :: 0 <= i < |js| ==> Valid(js[i].date)) && 1 <= month <= 12
    ensures var lines := Selected(js, Date(year, month, 1), Date(year, month, DaysInMonth(year, month)));
            && NetAt(MonthRows(index, year, month), account) == NetAt(AddAll([], lines), account)
            && AllNet(MonthRows(index, year, month)) == AllNet(lines)
  {
    var lines := Selected(js, Date(year, month, 1), Date(year, month, DaysInMonth(year, month)));
    MonthIsWindow(js, year, month);
    MonthNets(index, year, month, account);
    MonthNets(PostedLines(js), year, month, account);
    NetIsDebitsLessCredits(index, OnAccount(account, year, month));
    NetIsDebitsLessCredits(PostedLines(js), OnAccount(account, year, month));
    NetIsDebitsLessCredits(index, PeriodFilter(year, month));
    NetIsDebitsLessCredits(PostedLines(js), PeriodFilter(year, month));
    NetsOfGroups(lines, account);
    NetsOfGroups(AddAll([], lines), account);
    AddAllAggregates([], lines, Is(account));
  }

  lemma {:induction false} GroupsKeepTotal(lines: seq<Row<nat>>)
    ensures AllNet(AddAll([], lines)) == AllNet(lines)
  {
    KindsPartition(lines, []);
    KindsPartition(AddAll([], lines), []);
    KindNetIsNet(lines, [], None);
    KindNetIsNet(AddAll([], lines), [], None);
    AddAllAggregates([], lines, OfKind([], None));
    UnclassifiedIsAll(lines);
    UnclassifiedIsAll(AddAll([], lines));
  }

  lemma {:induction false} UnclassifiedIsAll(rows: seq<Row<nat>>)
    ensures KindNet(rows, [], None) == AllNet(rows)
  {
    if rows != [] {
      UnclassifiedIsAll(rows[1..]);
    }
  }

  /** For any month the trial balance by index rows and the one by accounts have the same
      difference, and the totals by rows are never the smaller. */
  lemma {:induction false} TrialBalancesAgree(index: seq<Row<Key>>, js: seq<Journal>, year: int, month: int)
    requires Indexes(index, PostedLines(js)) && (forall i :: 0 <= i < |js| ==> Valid(js[i].date)) && 1 <= month <= 12
    ensures var rows := MonthRows(index, year, month);
            var groups := Grouped(js, Date(year, month, 1), Date(year, month, DaysInMonth(year, month)));
            && DebitColumn(rows) - CreditColumn(rows) == DebitColumn(groups) - CreditColumn(groups)
            && DebitColumn(rows) >= DebitColumn(groups) && CreditColumn(rows) >= CreditColumn(groups)
  {
    var rows := MonthRows(index, year, month);
    var lines := Selected(js, Date(year, month, 1), Date(year, month, DaysInMonth(year, month)));
    var groups := AddAll([], lines);
    forall account: nat ensures NetAt(rows, account) == NetAt(groups, account) {
      IndexNetsAreLineNets(index, js, year, month, account);
    }
    IndexNetsAreLineNets(index, js, year, month, 0);
    GroupsKeepTotal(lines);
    ColumnsDiffer(rows);
    ColumnsDiffer(groups);
    NettingShrinks(rows, AboveAll(groups));
    AddAllKeepsUnique([], lines);
    NettedAlready(groups, AboveAll(groups));
    SameNetsSameDebits(rows, groups, AboveAll(groups));
  }
}
