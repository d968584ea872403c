/** What the figures of a general-ledger report are, line by line, in debits and credits. */
module LedgerFigures {
  import opened Calendar
  import opened GeneralLedger

  /** Debits, or credits, dated before a day, on lines of one normal side. */
  function SideBefore(lines: seq<LedgerLine>, d: Date, debitNormal: bool, debits: bool): int {
    if lines == [] then 0
    else
      (if lines[0].debitNormal == debitNormal && Before(lines[0].date, d)
       then if debits then lines[0].debit else lines[0].credit else 0)
      + SideBefore(lines[1..], d, debitNormal, debits)
  }

  /** The same from `first` to `last`, both included. */
  function SideWithin(lines: seq<LedgerLine>, first: Date, last: Date, debitNormal: bool, debits: bool): int {
    if lines == [] then 0
    else
      (if lines[0].debitNormal == debitNormal && !Before(lines[0].date, first) && !Before(last, lines[0].date)
       then if debits then lines[0].debit else lines[0].credit else 0)
      + SideWithin(lines[1..], first, last, debitNormal, debits)
  }

  function LinesOf(entries: seq<Entry>): seq<LedgerLine> {
    if entries == [] then [] else [entries[0].line] + LinesOf(entries[1..])
  }

  /** Each entry moves the balance by its debit less its credit on an asset or expense
      account, and by its credit less its debit on any other. */
  ghost predicate RunsOn(opening: int, entries: seq<Entry>) {
    forall i :: 0 <= i < |entries| ==>
      entries[i].balance - (if i == 0 then opening else entries[i - 1].balance)
      == if entries[i].line.debitNormal then entries[i].line.debit - entries[i].line.credit
         else entries[i].line.credit - entries[i].line.debit
  }

  /** By date, and within a day by journal. */
  ghost predicate InOrder(entries: seq<Entry>) {
    forall i, k :: 0 <= i < k < |entries| ==>
      || Before(entries[i].line.date, entries[k].line.date)
      || (entries[i].line.date == entries[k].line.date && entries[i].line.journal <= entries[k].line.journal)
  }

  // ---- Openings and totals --------------------------------------------------------

  lemma {:induction false} OpeningFigures(lines: seq<LedgerLine>, d: Date)
    ensures TotalBefore(lines, d)
         == SideBefore(lines, d, true, true) - SideBefore(lines, d, true, false)
            + SideBefore(lines, d, false, false) - SideBefore(lines, d, false, true)
  {
    if lines != [] {
      OpeningFigures(lines[1..], d);
    }
  }

  lemma {:induction false} WindowFigures(lines: seq<LedgerLine>, first: Date, last: Date)
    ensures var shown := Within(lines, first, last);
            && Debits(shown) == SideWithin(lines, first, last, true, true) + SideWithin(lines, first, last, false, true)
            && Credits(shown)
               == SideWithin(lines, first, last, true, false) + SideWithin(lines, first, last, false, false)
            && Total(shown)
               == SideWithin(lines, first, last, true, true) - SideWithin(lines, first, last, true, false)
                  + SideWithin(lines, first, last, false, false) - SideWithin(lines, first, last, false, true)
  {
    if lines != [] {
      WindowFigures(lines[1..], first, last);
      assert InWindow(lines[0], first, last) ==> Within(lines, first, last)[1..] == Within(lines[1..], first, last);
    }
  }

  lemma {:induction false} InsertKeepsSides(x: LedgerLine, ys: seq<LedgerLine>)
    ensures Debits(Insert(x, ys)) == x.debit + Debits(ys) && Credits(Insert(x, ys)) == x.credit + Credits(ys)
  {
    if ys == [] || !Less(ys[0], x) {
      assert ([x] + ys)[1..] == ys;
    } else {
      InsertKeepsSides(x, ys[1..]);
      assert ([ys[0]] + Insert(x, ys[1..]))[1..] == Insert(x, ys[1..]);
    }
  }

  lemma {:induction false} OrderedKeepsSides(lines: seq<LedgerLine>)
    ensures Debits(Ordered(lines)) == Debits(lines) && Credits(Ordered(lines)) == Credits(lines)
  {
    if lines != [] {
      OrderedKeepsSides(lines[1..]);
      InsertKeepsSides(lines[0], Ordered(lines[1..]));
    }
  }

  // ---- Entries --------------------------------------------------------------------

  lemma {:induction false} RunningLines(balance: int, lines: seq<LedgerLine>)
    ensures LinesOf(Running(balance, lines)) == lines
    decreases |lines|
  {
    if lines != [] {
      var head := Entry(lines[0], balance + Delta(lines[0]));
      RunningLines(head.balance, lines[1..]);
      assert Running(balance, lines)[1..] == Running(head.balance, lines[1..]);
    }
  }

  /** The last entry stands at the opening and everything the lines move. */
  lemma {:induction false} RunningEnds(balance: int, lines: seq<LedgerLine>)
    ensures |Running(balance, lines)| == |lines|
    ensures lines != [] ==> Running(balance, lines)[|lines| - 1].balance == balance + Total(lines)
    decreases |lines|
  {
    if lines != [] {
      RunningEnds(balance + Delta(lines[0]), lines[1..]);
    }
  }

  lemma ConsRunsOn(opening: int, head: Entry, rest: seq<Entry>)
    requires RunsOn(head.balance, rest)
    requires head.balance - opening
          == if head.line.debitNormal then head.line.debit - head.line.credit else head.line.credit - head.line.debit
    ensures RunsOn(opening, [head] + rest)
  {
    var entries := [head] + rest;
    forall i | 0 <= i < |entries|
      ensures entries[i].balance - (if i == 0 then opening else entries[i - 1].balance)
           == if entries[i].line.debitNormal then entries[i].line.debit - entries[i].line.credit
              else entries[i].line.credit - entries[i].line.debit
    {
      if i > 0 {
        var k := i - 1;
        assert entries[i] == rest[k] && entries[k].balance == if k == 0 then head.balance else rest[k - 1].balance;
      }
    }
  }

  lemma {:induction false} RunningRunsOn(balance: int, lines: seq<LedgerLine>)
    ensures RunsOn(balance, Running(balance, lines))
    decreases |lines|
  {
    if lines != [] {
      var head := Entry(lines[0], balance + Delta(lines[0]));
      RunningRunsOn(head.balance, lines[1..]);
      ConsRunsOn(balance, head, Running(head.balance, lines[1..]));
    }
  }

  lemma {:induction false} LineAt(entries: seq<Entry>, i: nat)
    requires i < |entries|
    ensures |LinesOf(entries)| == |entries| && LinesOf(entries)[i] == entries[i].line
  {
    if i > 0 {
      LineAt(entries[1..], i - 1);
    } else if |entries| > 1 {
      LineAt(entries[1..], 0);
    }
  }

  // ---- The report -----------------------------------------------------------------

  /** The report opens with what stood before the window, runs on entry by entry in date and
      journal order over exactly the lines of the window, and closes where the last entry
      stands; its totals are the debits and the credits of the window. */
  lemma {:induction false} ReportFigures(lines: seq<LedgerLine>, first: Date, last: Date)
    ensures var r := Ledger(lines, first, last);
            && r.opening == SideBefore(lines, first, true, true) - SideBefore(lines, first, true, false)
                            + SideBefore(lines, first, false, false) - SideBefore(lines, first, false, true)
            && RunsOn(r.opening, r.entries) && InOrder(r.entries)
            && r.closing == (if r.entries == [] then r.opening else r.entries[|r.entries| - 1].balance)
            && r.totalDebit == SideWithin(lines, first, last, true, true) + SideWithin(lines, first, last, false, true)
            && r.totalCredit
               == SideWithin(lines, first, last, true, false) + SideWithin(lines, first, last, false, false)
            && r.closing - r.opening
               == SideWithin(lines, first, last, true, true) - SideWithin(lines, first, last, true, false)
                  + SideWithin(lines, first, last, false, false) - SideWithin(lines, first, last, false, true)
  {
    var shown := Ordered(Within(lines, first, last));
    OpeningFigures(lines, first);
    WindowFigures(lines, first, last);
    OrderedKeepsSides(Within(lines, first, last));
    OrderedTotal(Within(lines, first, last));
    RunningRunsOn(TotalBefore(lines, first), shown);
    RunningLines(TotalBefore(lines, first), shown);
    RunningEnds(TotalBefore(lines, first), shown);
    OrderedIsSorted(Within(lines, first, last));
    EntriesInOrder(Ledger(lines, first, last).entries);
  }

  lemma EntriesInOrder(entries: seq<Entry>)
    requires Sorted(LinesOf(entries))
    ensures InOrder(entries)
  {
    forall i | 0 <= i < |entries| ensures |LinesOf(entries)| == |entries| && LinesOf(entries)[i] == entries[i].line {
      LineAt(entries, i);
    }
  }

  /** How often a line occurs. */
  function Times(lines: seq<LedgerLine>, x: LedgerLine): nat {
    if lines == [] then 0 else (if lines[0] == x then 1 else 0) + Times(lines[1..], x)
  }

  lemma {:induction false} TimesIsMultiplicity(lines: seq<LedgerLine>, x: LedgerLine)
    ensures Times(lines, x) == multiset(lines)[x]
  {
    if lines != [] {
      TimesIsMultiplicity(lines[1..], x);
      assert lines == [lines[0]] + lines[1..];
    }
  }

  lemma {:induction false} TimesWithin(lines: seq<LedgerLine>, first: Date, last: Date, x: LedgerLine)
    ensures Times(Within(lines, first, last), x)
         == if Before(x.date, first) || Before(last, x.date) then 0 else Times(lines, x)
  {
    if lines != [] {
      TimesWithin(lines[1..], first, last, x);
      assert InWindow(lines[0], first, last) ==> Within(lines, first, last)[1..] == Within(lines[1..], first, last);
    }
  }

  /** Each line dated from `first` to `last` is an entry as often as it is a line, and no other
      is. */
  lemma {:induction false} ReportHolds(lines: seq<LedgerLine>, first: Date, last: Date, x: LedgerLine)
    ensures Times(LinesOf(Ledger(lines, first, last).entries), x)
         == if Before(x.date, first) || Before(last, x.date) then 0 else Times(lines, x)
  {
    var shown := Within(lines, first, last);
    RunningLines(TotalBefore(lines, first), Ordered(shown));
    OrderedHoldsSame(shown);
    TimesIsMultiplicity(Ordered(shown), x);
    TimesIsMultiplicity(shown, x);
    TimesWithin(lines, first, last, x);
  }

  lemma {:induction false} OneSided(lines: seq<LedgerLine>, d: Date, first: Date, last: Date, normal: bool,
                                    debits: bool)
    requires forall i :: 0 <= i < |lines| ==> lines[i].debitNormal == normal
    ensures SideBefore(lines, d, !normal, debits) == 0 && SideWithin(lines, first, last, !normal, debits) == 0
  {
    if lines != [] {
      OneSided(lines[1..], d, first, last, normal, debits);
    }
  }

  /** On an account of one normal side the report moves by its totals, debit first on an asset
      or expense, credit first on any other. */
  lemma {:induction false} OneAccountFigures(lines: seq<LedgerLine>, first: Date, last: Date, normal: bool)
    requires forall i :: 0 <= i < |lines| ==> lines[i].debitNormal == normal
    ensures var r := Ledger(lines, first, last);
            var debits, credits := SideBefore(lines, first, normal, true), SideBefore(lines, first, normal, false);
            if normal then r.opening == debits - credits && r.closing - r.opening == r.totalDebit - r.totalCredit
            else r.opening == credits - debits && r.closing - r.opening == r.totalCredit - r.totalDebit
  {
    ReportFigures(lines, first, last);
    OneSided(lines, first, first, last, normal, true);
    OneSided(lines, first, first, last, normal, false);
  }
}
