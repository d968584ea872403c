/** The year-end closing service over its tables: the loops and writes of the close, each
    proved to compute what the specification of the close says. */
module YearEndService {
  import opened Sums
  import opened Balances
  import opened Calendar
  import opened JournalHeaders
  import opened Journals
  import opened JournalBooks
  import opened Wrappers
  import opened YearEnd

  /** Lines drawn up before others are the same lines put in front of them. */
  lemma {:induction false} LinesForThen(accounts: seq<Account>, rows: seq<Row<Key>>, year: int, undo: bool,
                                        rest: seq<Line>)
    ensures LinesFor(accounts, rows, year, undo, []) + rest == LinesFor(accounts, rows, year, undo, rest)
  {
    if accounts == [] {
      assert [] + rest == rest;
    } else {
      var id := accounts[0].id;
      LinesForThen(accounts[1..], rows, year, undo, rest);
      PrependThen(id, Signed(undo, AccountNet(rows, id, year)), LinesFor(accounts[1..], rows, year, undo, []), rest);
    }
  }

  lemma PrependThen(id: nat, amount: int, lines: seq<Line>, rest: seq<Line>)
    ensures Prepend(id, amount, lines) + rest == Prepend(id, amount, lines + rest)
  {
    ConcatAssociates([Line(id, amount, 0)], lines, rest);
    ConcatAssociates([Line(id, 0, -amount)], lines, rest);
  }

  /** An opening journal without lines is deleted again. */
  function WrittenOpening(opening: Journal): seq<Journal> {
    if opening.lines == [] then [] else [opening]
  }

  class YearEndClosingService {
    var chart: seq<Account>
    var closings: seq<Closing>
    var retained: seq<RetainedEarnings>
    const book: JournalBook

    ghost predicate Valid()
      reads this, book
    {
      book.Valid()
    }

    function State(): Books
      reads this, book
    {
      Books(chart, book.rows, book.references, book.mutable, closings, retained)
    }

    constructor (chart: seq<Account>, book: JournalBook)
      requires book.Valid()
      ensures Valid() && this.book == book
      ensures State() == Books(chart, book.rows, book.references, book.mutable, [], [])
    {
      this.chart, closings, retained := chart, [], [];
      this.book := book;
    }

    /** The accumulating loop over the accounts of one type. */
    static method Total(accounts: seq<Account>, rows: seq<Row<Key>>, year: int) returns (total: int)
      ensures total == NetOver(accounts, rows, year)
    {
      total := 0;
      for i := 0 to |accounts|
        invariant total + NetOver(accounts[i..], rows, year) == NetOver(accounts, rows, year)
      {
        total := total + AccountNet(rows, accounts[i].id, year);
      }
    }

    /** One line for an account with a balance, none for an account without. */
    static method AppendLine(lines: seq<Line>, id: nat, amount: int, ghost rest: seq<Line>) returns (longer: seq<Line>)
      ensures longer + rest == lines + Prepend(id, amount, rest)
    {
      longer := lines;
      if amount > 0 {
        ConcatAssociates(lines, [Line(id, amount, 0)], rest);
        longer := lines + [Line(id, amount, 0)];
      } else if amount < 0 {
        ConcatAssociates(lines, [Line(id, 0, -amount)], rest);
        longer := lines + [Line(id, 0, -amount)];
      }
    }

    /** The loop that draws up the lines of a query of accounts. */
    static method Lines(accounts: seq<Account>, rows: seq<Row<Key>>, year: int, undo: bool) returns (lines: seq<Line>)
      ensures lines == LinesFor(accounts, rows, year, undo, [])
    {
      lines := [];
      for i := 0 to |accounts|
        invariant lines + LinesFor(accounts[i..], rows, year, undo, []) == LinesFor(accounts, rows, year, undo, [])
      {
        var amount := Signed(undo, AccountNet(rows, accounts[i].id, year));
        lines := AppendLine(lines, accounts[i].id, amount, LinesFor(accounts[i + 1..], rows, year, undo, []));
      }
    }

    /** The closing journal's lines, in the order the service writes them. */
    method DrawUpClosing(year: int, account: Account, netIncome: int) returns (lines: seq<Line>)
      requires account == RetainedAccount(chart) && netIncome == NetIncome(State(), year)
      ensures lines == ClosingLines(State(), year)
    {
      var incomes, expenses := Select(chart, OfType(Income)), Select(chart, OfType(Expense));
      var revenueLines := Lines(incomes, book.rows, year, true);
      var expenseLines := Lines(expenses, book.rows, year, true);
      var lastLine := AppendLine([], account.id, -netIncome, []);
      assert lastLine == lastLine + [] == Prepend(account.id, -netIncome, []);
      LinesForThen(expenses, book.rows, year, true, lastLine);
      LinesForThen(incomes, book.rows, year, true, expenseLines + lastLine);
      lines := revenueLines + (expenseLines + lastLine);
    }

    /** The totals of the year, and the closing journal posted through the chokepoint: it
        always balances, so only its header can be refused. */
    method PostClosing(year: int, today: Date) returns (closing: Closing, refusal: Option<CloseError>)
      requires Valid()
      modifies book
      ensures Valid()
      ensures old(book.IsExact()) ==> book.IsExact()
      ensures closing == ClosingRecord(old(State()), year, today)
      ensures refusal == if YearClosing(year) in old(book.references) then Some(ReferenceTaken)
                         else if !NumberingPasses(book.mutable) then Some(HeaderFrozen) else None
      ensures refusal.Some? ==> book.Unchanged(old(book.journals), old(book.rows), old(book.references))
      ensures refusal.None? ==>
                && book.rows == RowsAfterClosing(old(State()), year, today)
                && book.journals == old(book.journals) + [ClosingJournal(old(State()), year, today)]
                && book.references == old(book.references) + {YearClosing(year)}
    {
      var revenue := Total(Select(chart, OfType(Income)), book.rows, year);
      var expenses := Total(Select(chart, OfType(Expense)), book.rows, year);
      revenue := -revenue;
      closing := Closing(year, today, revenue, expenses, revenue - expenses);
      var lines := DrawUpClosing(year, RetainedAccount(chart), revenue - expenses);
      ClosingBalances(State(), year);
      var refused := book.AppendPosted(YearClosing(year), today, lines);
      refusal := if refused == Some(DuplicateReference) then Some(ReferenceTaken)
                 else if refused == Some(FrozenHeader) then Some(HeaderFrozen) else None;
    }

    /** The opening journal of the next year, deleted again when it has no lines and refused
        when it does not balance. */
    method PostOpening(accounts: seq<Account>, year: int, ghost before: Books, ghost today: Date)
      returns (refusal: Option<CloseError>)
      requires Valid() && book.rows == RowsAfterClosing(before, year, today)
      requires accounts == Select(ChartWithRetained(before.chart), Carried) && NumberingPasses(book.mutable)
      modifies book
      ensures Valid()
      ensures old(book.IsExact()) ==> book.IsExact()
      ensures refusal == if OpeningBalances(year + 1) in old(book.references) then Some(ReferenceTaken)
                         else if !Balanced(OpeningJournal(before, year, today).lines) then Some(UnbalancedOpening)
                         else None
      ensures refusal.None? ==>
                && book.rows == AddAll(old(book.rows), Postings(OpeningJournal(before, year, today)))
                && book.journals == old(book.journals) + WrittenOpening(OpeningJournal(before, year, today))
                && book.references == old(book.references) + {OpeningBalances(year + 1)}
    {
      var lines := Lines(accounts, book.rows, year, false);
      LinesForIsValid(accounts, book.rows, year, false, []);
      var refused: Option<Error>;
      if lines == [] {
        refused := book.AppendDeleted(OpeningBalances(year + 1));
      } else {
        refused := book.AppendPosted(OpeningBalances(year + 1), Date(year + 1, 1, 1), lines);
      }
      refusal := if refused == Some(DuplicateReference) then Some(ReferenceTaken)
                 else if refused.Some? then Some(UnbalancedOpening) else None;
    }

    /** The closing record and the retained-earnings record, which starts where the latest
        earlier one ended. */
    method Record(closing: Closing, ghost before: Books)
      requires closing.netIncome == NetIncome(before, closing.year) && retained == before.retained
      modifies this`closings, this`retained
      ensures closings == old(closings) + [closing]
      ensures retained == old(retained) + [RetainedRecord(before, closing.year)]
    {
      var previous := LatestBefore(retained, closing.year);
      var beginning := if previous.Some? then previous.value.ending else 0;
      var ending := beginning + closing.netIncome;
      retained := retained + [RetainedEarnings(closing.year, beginning, closing.netIncome, ending)];
      closings := closings + [closing];
    }

    /** Both journals of a close, when nothing stands against it beforehand, until the
        chokepoint refuses the opening journal. */
    method PostBoth(year: int, today: Date) returns (closing: Closing, accepted: bool)
      requires Valid() && Refusal(State(), year).None?
      modifies book
      ensures Valid()
      ensures old(book.IsExact()) ==> book.IsExact()
      ensures closing == ClosingRecord(old(State()), year, today)
      ensures accepted == Balanced(OpeningJournal(old(State()), year, today).lines)
      ensures accepted ==>
                && book.references == old(book.references) + {YearClosing(year), OpeningBalances(year + 1)}
                && book.rows == AddAll(RowsAfterClosing(old(State()), year, today),
                                       Postings(OpeningJournal(old(State()), year, today)))
                && book.journals == old(book.journals) + [ClosingJournal(old(State()), year, today)]
                                    + WrittenOpening(OpeningJournal(old(State()), year, today))
    {
      ghost var before := State();
      var refusal: Option<CloseError>;
      closing, refusal := PostClosing(year, today);
      refusal := PostOpening(Select(ChartWithRetained(chart), Carried), year, before, today);
      accepted := refusal.None?;
    }

    /** Everything the close writes, when nothing stands against it beforehand, until the
        chokepoint refuses the opening journal. */
    method Transact(year: int, today: Date) returns (closing: Closing, accepted: bool)
      requires Valid() && Refusal(State(), year).None?
      modifies this, book
      ensures Valid()
      ensures old(book.IsExact()) ==> book.IsExact()
      ensures closing == ClosingRecord(old(State()), year, today)
      ensures accepted == Balanced(OpeningJournal(old(State()), year, today).lines)
      ensures !accepted ==> chart == old(chart) && closings == old(closings) && retained == old(retained)
      ensures accepted ==>
                && chart == ChartWithRetained(old(chart))
                && closings == old(closings) + [closing]
                && retained == old(retained) + [RetainedRecord(old(State()), year)]
                && book.references == old(book.references) + {YearClosing(year), OpeningBalances(year + 1)}
                && book.rows == AddAll(RowsAfterClosing(old(State()), year, today),
                                       Postings(OpeningJournal(old(State()), year, today)))
                && book.journals == old(book.journals) + [ClosingJournal(old(State()), year, today)]
                                    + WrittenOpening(OpeningJournal(old(State()), year, today))
    {
      ghost var before := State();
      closing, accepted := PostBoth(year, today);
      if accepted {
        Record(closing, before);
        chart := ChartWithRetained(chart);
      }
    }

    /** Closes a year in one transaction: an error leaves every table as it was; otherwise
        the two journals, the index, the references, the chart and both records are those
        specified. */
    method CloseYear(year: int, today: Date) returns (r: Result<Closing, CloseError>)
      requires Valid()
      modifies this, book
      ensures Valid()
      ensures old(book.IsExact()) ==> book.IsExact()
      ensures match YearEnd.CloseYear(old(State()), year, today)
              case Err(e) => r == Err(e) && State() == old(State()) && book.journals == old(book.journals)
              case Ok(closed) =>
                && r == Ok(ClosingRecord(old(State()), year, today)) && State() == closed.books
                && book.journals == old(book.journals) + [closed.closing] + WrittenOpening(closed.opening)
    {
      var refusal := Refusal(State(), year);
      if refusal.Some? {
        return Err(refusal.value);
      }
      var savedJournals, savedRows, savedReferences := book.journals, book.rows, book.references;
      var closing, accepted := Transact(year, today);
      if !accepted {
        book.journals, book.rows, book.references := savedJournals, savedRows, savedReferences;
        return Err(UnbalancedOpening);
      }
      return Ok(closing);
    }
  }
}
