/** The figures of the balance sheet and of both trial balances, read off posted journals line
    by line. */
module StatementFigures {
  import opened Balances
  import opened Calendar
  import opened JournalHeaders
  import opened Journals
  import opened Wrappers
  import opened YearEnd
  import opened Statements

  /** Debits, or credits, of lines on accounts of one type. */
  function LinesSide(lines: seq<Line>, kinds: Kinds, kind: AccountType, debits: bool): int {
    if lines == [] then 0
    else
      (if lines[0].account < |kinds| && kinds[lines[0].account] == Some(kind)
       then if debits then lines[0].debit else lines[0].credit else 0)
      + LinesSide(lines[1..], kinds, kind, debits)
  }

  /** The same over the posted journals dated from `first` to `last`. */
  function Side(js: seq<Journal>, kinds: Kinds, kind: AccountType, first: Date, last: Date, debits: bool): int {
    if js == [] then 0
    else
      (if js[0].status == Posted && !Before(js[0].date, first) && !Before(last, js[0].date)
       then LinesSide(js[0].lines, kinds, kind, debits) else 0)
      + Side(js[1..], kinds, kind, first, last, debits)
  }

  lemma {:induction false} LineRowsSide(lines: seq<Line>, rest: seq<Row<nat>>, kinds: Kinds, kind: AccountType)
    ensures KindNet(LineRows(lines, rest), kinds, Some(kind))
         == LinesSide(lines, kinds, kind, true) - LinesSide(lines, kinds, kind, false)
            + KindNet(rest, kinds, Some(kind))
  {
    if lines != [] {
      LineRowsSide(lines[1..], rest, kinds, kind);
    }
  }

  lemma {:induction false} KindNetIsSides(js: seq<Journal>, kinds: Kinds, kind: AccountType, first: Date, last: Date)
    ensures KindNet(Selected(js, first, last), kinds, Some(kind))
         == Side(js, kinds, kind, first, last, true) - Side(js, kinds, kind, first, last, false)
  {
    if js != [] {
      KindNetIsSides(js[1..], kinds, kind, first, last);
      LineRowsSide(js[0].lines, Selected(js[1..], first, last), kinds, kind);
    }
  }

  /** Assets are debits less credits on asset accounts, liabilities credits less debits on
      liability accounts, the net income what income accounts received less what expense
      accounts took, and equity what equity accounts received and the net income. */
  lemma SheetFigures(js: seq<Journal>, kinds: Kinds, first: Date, last: Date)
    ensures var s := Sheet(Selected(js, first, last), kinds);
            && s.assets == Side(js, kinds, Asset, first, last, true) - Side(js, kinds, Asset, first, last, false)
            && s.liabilities
               == Side(js, kinds, Liability, first, last, false) - Side(js, kinds, Liability, first, last, true)
            && s.netIncome
               == Side(js, kinds, Income, first, last, false) - Side(js, kinds, Income, first, last, true)
                  - (Side(js, kinds, Expense, first, last, true) - Side(js, kinds, Expense, first, last, false))
            && s.equity
               == Side(js, kinds, Equity, first, last, false) - Side(js, kinds, Equity, first, last, true) + s.netIncome
            && s.check == s.assets - s.liabilities - s.equity
  {
    KindNetIsSides(js, kinds, Asset, first, last);
    KindNetIsSides(js, kinds, Liability, first, last);
    KindNetIsSides(js, kinds, Equity, first, last);
    KindNetIsSides(js, kinds, Income, first, last);
    KindNetIsSides(js, kinds, Expense, first, last);
  }

  // ---- The trial balances ---------------------------------------------------------

  function LinesOn(lines: seq<Line>, account: nat, debits: bool): int {
    if lines == [] then 0
    else
      (if lines[0].account == account then if debits then lines[0].debit else lines[0].credit else 0)
      + LinesOn(lines[1..], account, debits)
  }

  /** Debits, or credits, on one account of the posted journals dated from `first` to `last`. */
  function AccountSide(js: seq<Journal>, account: nat, first: Date, last: Date, debits: bool): int {
    if js == [] then 0
    else
      (if js[0].status == Posted && !Before(js[0].date, first) && !Before(last, js[0].date)
       then LinesOn(js[0].lines, account, debits) else 0)
      + AccountSide(js[1..], account, first, last, debits)
  }

  lemma {:induction false} LineRowsOn(lines: seq<Line>, rest: seq<Row<nat>>, account: nat)
    ensures Debits(LineRows(lines, rest), Is(account)) == LinesOn(lines, account, true) + Debits(rest, Is(account))
    ensures Credits(LineRows(lines, rest), Is(account)) == LinesOn(lines, account, false) + Credits(rest, Is(account))
  {
    if lines != [] {
      var first := Row(lines[0].account, lines[0].debit, lines[0].credit);
      LineRowsOn(lines[1..], rest, account);
      OneLineAggregates(first, Is(account));
      ConcatAggregates([first], LineRows(lines[1..], rest), Is(account));
    }
  }

  lemma {:induction false} SelectedOn(js: seq<Journal>, account: nat, first: Date, last: Date)
    ensures Debits(Selected(js, first, last), Is(account)) == AccountSide(js, account, first, last, true)
    ensures Credits(Selected(js, first, last), Is(account)) == AccountSide(js, account, first, last, false)
  {
    if js != [] {
      SelectedOn(js[1..], account, first, last);
      LineRowsOn(js[0].lines, Selected(js[1..], first, last), account);
    }
  }

  /** The grouped query has one row for each account, with its debits and its credits. */
  lemma {:induction false} GroupedHolds(js: seq<Journal>, first: Date, last: Date, i: nat)
    requires i < |Grouped(js, first, last)|
    ensures var rows := Grouped(js, first, last);
            && rows[i].debit == AccountSide(js, rows[i].key, first, last, true)
            && rows[i].credit == AccountSide(js, rows[i].key, first, last, false)
            && forall k :: 0 <= k < |rows| && k != i ==> rows[k].key != rows[i].key
  {
    var rows := Grouped(js, first, last);
    AddAllKeepsUnique([], Selected(js, first, last));
    RowHoldsTotal(rows, i);
    AddAllAggregates([], Selected(js, first, last), Is(rows[i].key));
    SelectedOn(js, rows[i].key, first, last);
  }

  /** An account without a row has nothing on it. */
  lemma {:induction false} UngroupedIsEmpty(js: seq<Journal>, first: Date, last: Date, account: nat)
    requires forall i :: 0 <= i < |Grouped(js, first, last)| ==> Grouped(js, first, last)[i].key != account
    ensures AccountSide(js, account, first, last, true) == 0 && AccountSide(js, account, first, last, false) == 0
  {
    var rows := Grouped(js, first, last);
    if Find(rows, account) == |rows| {
      AbsentKeyTotalsZero(rows, account);
    }
    AddAllAggregates([], Selected(js, first, last), Is(account));
    SelectedOn(js, account, first, last);
  }

  /** A row of a period's trial balance is a row of the index with that year and month. */
  lemma {:induction false} MonthRowsHold(index: seq<Row<Key>>, year: int, month: int, account: nat, debit: int,
                                         credit: int)
    ensures Count(MonthRows(index, year, month), account, debit, credit)
         == IndexCount(index, year, month, account, debit, credit)
  {
    if index != [] {
      MonthRowsHold(index[1..], year, month, account, debit, credit);
    }
  }

  function Count(rows: seq<Row<nat>>, account: nat, debit: int, credit: int): nat {
    if rows == [] then 0
    else (if rows[0] == Row(account, debit, credit) then 1 else 0) + Count(rows[1..], account, debit, credit)
  }

  function IndexCount(index: seq<Row<Key>>, year: int, month: int, account: nat, debit: int, credit: int): nat {
    if index == [] then 0
    else
      (if && index[0].key.account == account && index[0].key.year == year && index[0].key.period == month
          && index[0].debit == debit && index[0].credit == credit then 1 else 0)
      + IndexCount(index[1..], year, month, account, debit, credit)
  }

  /** A column takes the rows whose net is on its side. */
  function PositiveParts(rows: seq<Row<nat>>, debitFirst: bool): int {
    if rows == [] then 0
    else
      var net := if debitFirst then rows[0].debit - rows[0].credit else rows[0].credit - rows[0].debit;
      (if net > 0 then net else 0) + PositiveParts(rows[1..], debitFirst)
  }

  lemma {:induction false} ColumnsArePositiveParts(rows: seq<Row<nat>>)
    ensures DebitColumn(rows) == PositiveParts(rows, true) && CreditColumn(rows) == PositiveParts(rows, false)
  {
    if rows != [] {
      ColumnsArePositiveParts(rows[1..]);
    }
  }
}
