/** Whether a wrong index still balances: exactly while every unposting passes over lines that
    balance among themselves. */
module JournalTrialBalance {
  import opened Balances
  import opened Calendar
  import opened JournalHeaders
  import opened Journals
  import opened JournalRequests
  import opened JournalRuns
  import opened Wrappers

  ghost predicate PeriodsBalance(rows: seq<Row<Key>>) {
    forall year, period :: Debits(rows, PeriodFilter(year, period)) == Credits(rows, PeriodFilter(year, period))
  }

  /** The lines of a journal whose balance row is absent, which an unposting passes over. */
  function Skipped(rows: seq<Row<Key>>, date: Date, dims: Dims, lines: seq<Line>): seq<Line> {
    if lines == [] then []
    else
      (if Find(rows, KeyOf(lines[0].account, dims, date)) < |rows| then [] else [lines[0]])
      + Skipped(rows, date, dims, lines[1..])
  }

  lemma {:induction false} BalancedPostings(j: Journal, year: int, period: int)
    requires Balanced(j.lines)
    ensures Debits(Postings(j), PeriodFilter(year, period)) == Credits(Postings(j), PeriodFilter(year, period))
  {
    var p := PeriodFilter(year, period);
    JournalNetsToZero(j, p, j.date.year == year && j.date.month == period);
    NetIsDebitsLessCredits(Postings(j), p);
  }

  lemma {:induction false} AddingKeepsBalance(rows: seq<Row<Key>>, j: Journal)
    requires PeriodsBalance(rows) && Balanced(j.lines)
    ensures PeriodsBalance(AddAll(rows, Postings(j)))
  {
    forall year, period
      ensures Debits(AddAll(rows, Postings(j)), PeriodFilter(year, period))
           == Credits(AddAll(rows, Postings(j)), PeriodFilter(year, period))
    {
      BalancedPostings(j, year, period);
      AddAllAggregates(rows, Postings(j), PeriodFilter(year, period));
    }
  }

  /** Within its month a journal's present lines lack exactly what the skipped ones have. */
  lemma {:induction false} PresentNet(rows: seq<Row<Key>>, date: Date, dims: Dims, lines: seq<Line>, p: Key -> bool,
                                       all: bool)
    requires forall l :: l in lines ==> p(KeyOf(l.account, dims, date)) == all
    ensures var present := Present(rows, LinePostings(date, dims, lines));
            var skipped := Skipped(rows, date, dims, lines);
            Debits(present, p) - Credits(present, p)
            == if all then TotalDebit(lines) - TotalCredit(lines) - TotalDebit(skipped) + TotalCredit(skipped) else 0
  {
    if lines != [] {
      var first, rest := PostingOf(date, dims, lines[0]), LinePostings(date, dims, lines[1..]);
      PresentNet(rows, date, dims, lines[1..], p, all);
      if Find(rows, first.key) < |rows| {
        ConcatAggregates([first], Present(rows, rest), p);
        OneLineAggregates(first, p);
        assert [] + Skipped(rows, date, dims, lines[1..]) == Skipped(rows, date, dims, lines[1..]);
      } else {
        assert [] + Present(rows, rest) == Present(rows, rest);
      }
    }
  }

  lemma TakingMovesNet(rows: seq<Row<Key>>, j: Journal, year: int, period: int)
    requires Balanced(j.lines) && AllValid(j.lines)
    requires Debits(rows, PeriodFilter(year, period)) == Credits(rows, PeriodFilter(year, period))
    ensures var p := PeriodFilter(year, period);
            var skipped := Skipped(rows, j.date, j.dims, j.lines);
            Debits(SubtractAll(rows, Postings(j)), p) - Credits(SubtractAll(rows, Postings(j)), p)
            == if j.date.year == year && j.date.month == period then TotalDebit(skipped) - TotalCredit(skipped) else 0
  {
    PostingsNonnegative(j.date, j.dims, j.lines);
    SubtractAllAggregates(rows, Postings(j), PeriodFilter(year, period));
    PresentNet(rows, j.date, j.dims, j.lines, PeriodFilter(year, period),
               j.date.year == year && j.date.month == period);
  }

  /** Taking a journal's lines off leaves every period balanced exactly when the lines it
      passes over balance among themselves. */
  lemma {:induction false} TakingBalancesExactlyWhen(rows: seq<Row<Key>>, j: Journal)
    requires PeriodsBalance(rows) && Balanced(j.lines) && AllValid(j.lines)
    ensures PeriodsBalance(SubtractAll(rows, Postings(j))) <==> Balanced(Skipped(rows, j.date, j.dims, j.lines))
  {
    forall year, period
      ensures var p := PeriodFilter(year, period);
              Debits(SubtractAll(rows, Postings(j)), p) == Credits(SubtractAll(rows, Postings(j)), p)
              <==> !(j.date.year == year && j.date.month == period)
                   || Balanced(Skipped(rows, j.date, j.dims, j.lines))
    {
      TakingMovesNet(rows, j, year, period);
    }
    if PeriodsBalance(SubtractAll(rows, Postings(j))) {
      var p := PeriodFilter(j.date.year, j.date.month);
      assert Debits(SubtractAll(rows, Postings(j)), p) == Credits(SubtractAll(rows, Postings(j)), p);
    }
  }

  /** An unposting that goes through passes over lines that balance among themselves. */
  predicate LeavesBalance(t: Tables, r: Request) {
    r.Unpost? && UnpostRefusal(t, r.id, r.copy).None? ==>
      Balanced(Skipped(t.rows, r.copy.date, r.copy.dims, r.copy.lines))
  }

  /** In time or not, creations, updates and posts leave debits equal to credits in each year
      and month; an unposting does exactly when what it passes over balances. */
  lemma {:induction false} ServeBalancesExactlyWhen(t: Tables, r: Request)
    requires PeriodsBalance(t.rows)
    requires r.Create? || (AllValid(r.copy.lines) && Balanced(r.copy.lines))
    ensures PeriodsBalance(Serve(t, r).tables.rows) <==> LeavesBalance(t, r)
  {
    match r
    case Create(j) =>
      if CreateRefusal(t, j).None? {
        AddingKeepsBalance(t.rows, j);
      }
    case Update(_, _, _, _, _, _, _, _) =>
      if UpdateRefusal(t, r).None? {
        AddingKeepsBalance(t.rows, Updated(r));
      }
    case Post(_, copy, _) => AddingKeepsBalance(t.rows, copy);
    case Unpost(_, copy) => TakingBalancesExactlyWhen(t.rows, copy);
  }

  /** Stored journals and copies are admissible and balance, whatever the index holds. */
  ghost predicate Filed(d: Desk) {
    Stored(d.tables) && AllBalanced(d.tables.journals)
    && forall c :: c in d.copies ==> AllValid(c.journal.lines) && Balanced(c.journal.lines)
  }

  lemma {:induction false} ActKeepsFiled(d: Desk, a: Action)
    requires Filed(d)
    ensures Filed(Act(d, a))
  {
    match a
    case Read(id) =>
      if id < |d.tables.journals| {
        assert d.tables.journals[id] in d.tables.journals;
      }
    case Ask(r) => ServeKeepsStored(d.tables, r);
  }

  ghost predicate BalancedThroughout(d: Desk, actions: seq<Action>)
    decreases |actions|
  {
    |actions| == 0
    || (PeriodsBalance(Act(d, actions[0]).tables.rows) && BalancedThroughout(Act(d, actions[0]), actions[1..]))
  }

  ghost predicate AllLeaveBalance(d: Desk, actions: seq<Action>)
    decreases |actions|
  {
    |actions| == 0
    || (&& (actions[0].Ask? && OnCopy(d, actions[0].request) ==> LeavesBalance(d.tables, actions[0].request))
        && AllLeaveBalance(Act(d, actions[0]), actions[1..]))
  }

  /** Over any run, late requests included, every period balances throughout if and only if
      every unposting that went through passed over lines that balance. */
  lemma {:induction false} RunBalancesExactlyWhen(d: Desk, actions: seq<Action>)
    requires Filed(d) && PeriodsBalance(d.tables.rows)
    ensures BalancedThroughout(d, actions) <==> AllLeaveBalance(d, actions)
    decreases |actions|
  {
    if |actions| > 0 {
      var a := actions[0];
      if a.Ask? && OnCopy(d, a.request) {
        assert a.request.Create? || Copy(a.request.id, a.request.copy).journal == a.request.copy;
        ServeBalancesExactlyWhen(d.tables, a.request);
      }
      if PeriodsBalance(Act(d, a).tables.rows) {
        ActKeepsFiled(d, a);
        RunBalancesExactlyWhen(Act(d, a), actions[1..]);
      }
    }
  }

  lemma {:induction false} NothingSkipped(rows: seq<Row<Key>>, date: Date, dims: Dims, lines: seq<Line>)
    requires HasRows(rows, LinePostings(date, dims, lines))
    ensures Skipped(rows, date, dims, lines) == []
  {
    if lines != [] {
      assert PostingOf(date, dims, lines[0]) in LinePostings(date, dims, lines);
      NothingSkipped(rows, date, dims, lines[1..]);
    }
  }

  /** The request that makes an exact index wrong leaves it balanced: a trial balance does not
      show it yet. */
  lemma {:induction false} FirstBreakStillBalances(d: Desk, a: Action)
    requires Sound(d) && Exact(d.tables)
    ensures PeriodsBalance(Act(d, a).tables.rows)
  {
    forall year, period
      ensures Debits(d.tables.rows, PeriodFilter(year, period)) == Credits(d.tables.rows, PeriodFilter(year, period))
    {
      IndexPeriodsBalance(d.tables.rows, d.tables.journals, year, period);
    }
    if a.Ask? && OnCopy(d, a.request) {
      var r := a.request;
      assert r.Create? || Copy(r.id, r.copy).journal == r.copy;
      if r.Unpost? && r.copy.status == Posted {
        NothingSkipped(d.tables.rows, r.copy.date, r.copy.dims, r.copy.lines);
      }
      ServeBalancesExactlyWhen(d.tables, r);
    }
  }

  // ---- A trial balance that shows it ----------------------------------------------

  /** The hundred on another account. */
  function Other(status: Status): Journal {
    Hundred(status).(lines := [Line(2, 100, 0), Line(1, 0, 100)])
  }

  function RowsOfHundred(): seq<Row<Key>> {
    [Row(KeyOf(0, NO_DIMS, Date(2026, 5, 1)), 100, 0), Row(KeyOf(1, NO_DIMS, Date(2026, 5, 1)), 0, 100)]
  }

  function WithOther(status: Status, rows: seq<Row<Key>>): Tables {
    Tables([Other(status)], rows, {}, POST_POSTING_MUTABLE_FIELDS)
  }

  function MoveToOther(): Request {
    Update(0, Hundred(Draft), Draft, Blank, Date(2026, 5, 1), NO_DIMS, Some(Other(Draft).lines), ADMITS)
  }

  lemma OtherIsFiled()
    ensures Balanced(Other(Draft).lines) && AllValid(Other(Draft).lines)
  {
    assert Other(Draft).lines[1..] == [Line(1, 0, 100)] && Other(Draft).lines[1..][1..] == [];
  }

  lemma MovedToOther()
    ensures ServeUpdate(Fresh(Draft), MoveToOther()) == Outcome(WithOther(Draft, []), None)
  {
    OtherIsFiled();
    assert Changes(Hundred(Draft), Updated(MoveToOther())) == {};
  }

  lemma RowsAdded()
    ensures AddAll([], Postings(Hundred(Draft))) == RowsOfHundred()
  {
    var ps, rows := Postings(Hundred(Draft)), RowsOfHundred();
    assert Hundred(Draft).lines[1..] == [Line(1, 0, 100)] && Hundred(Draft).lines[1..][1..] == [];
    assert ps == rows && ps[1..] == [rows[1]] && ps[1..][1..] == [];
    assert Add([], rows[0]) == [rows[0]];
    assert [rows[0]][..0] == [] && Find([rows[0]], rows[1].key) == 1;
    assert Add([rows[0]], rows[1]) == rows;
  }

  lemma PostedOnOldCopy()
    ensures ServePost(WithOther(Draft, []), Post(0, Hundred(Draft), ADMITS))
         == Outcome(WithOther(Posted, RowsOfHundred()), None)
  {
    OtherIsFiled();
    RowsAdded();
    assert Changes(Other(Draft), Hundred(Posted)) == {StatusField};
    assert Hundred(Draft).(status := Posted, lines := Other(Draft).lines) == Other(Posted);
  }

  lemma SkipsOther()
    ensures Skipped(RowsOfHundred(), Date(2026, 5, 1), NO_DIMS, Other(Posted).lines) == [Line(2, 100, 0)]
    ensures !Balanced([Line(2, 100, 0)])
  {
    var rows, lines := RowsOfHundred(), Other(Posted).lines;
    assert lines[1..] == [Line(1, 0, 100)] && lines[1..][1..] == [] && [Line(2, 100, 0)][1..] == [];
    assert rows[1].key == KeyOf(1, NO_DIMS, Date(2026, 5, 1));
    assert Find(rows, rows[1].key) < |rows|;
    assert Skipped(rows, Date(2026, 5, 1), NO_DIMS, lines[1..]) == [];
  }

  /** The desk as it stands before the last request of the run below. */
  function BeforeUnposting(): Desk {
    Desk(WithOther(Posted, RowsOfHundred()), {Copy(0, Hundred(Draft)), Copy(0, Other(Posted))})
  }

  function AfterMoving(): Desk {
    Desk(WithOther(Draft, []), {Copy(0, Hundred(Draft))})
  }

  function AfterPosting(): Desk {
    Desk(WithOther(Posted, RowsOfHundred()), {Copy(0, Hundred(Draft))})
  }

  lemma ReadAndMoved()
    ensures Act(Act(Desk(Fresh(Draft), {}), Read(0)), Ask(MoveToOther())) == AfterMoving()
  {
    MovedToOther();
    assert Act(Desk(Fresh(Draft), {}), Read(0)) == Desk(Fresh(Draft), {Copy(0, Hundred(Draft))});
  }

  lemma PostedAndRead()
    ensures Act(Act(AfterMoving(), Ask(Post(0, Hundred(Draft), ADMITS))), Read(0)) == BeforeUnposting()
  {
    PostedOnOldCopy();
    assert Act(AfterMoving(), Ask(Post(0, Hundred(Draft), ADMITS))) == AfterPosting();
    assert Act(AfterPosting(), Read(0)) == BeforeUnposting();
  }

  /** Read, moved to the other account, posted on the copy read first, read afresh: from an
      exact index four actions that nothing refuses. */
  lemma FourActions()
    ensures Sound(Desk(Fresh(Draft), {})) && Exact(Fresh(Draft))
    ensures var moved := Act(Act(Desk(Fresh(Draft), {}), Read(0)), Ask(MoveToOther()));
            Act(Act(moved, Ask(Post(0, Hundred(Draft), ADMITS))), Read(0)) == BeforeUnposting()
  {
    HundredIsSound();
    ReadAndMoved();
    PostedAndRead();
  }

  lemma HundredBalances()
    ensures PeriodsBalance(RowsOfHundred())
  {
    HundredIsSound();
    RowsAdded();
    AddingKeepsBalance([], Hundred(Draft));
  }

  lemma UnpostingPasses()
    ensures UnpostRefusal(BeforeUnposting().tables, 0, Other(Posted)).None?
  {
    assert Changes(Other(Posted), Other(Posted).(status := Approved)) == {StatusField};
  }

  lemma BeforeIsFiled()
    ensures Filed(BeforeUnposting()) && PeriodsBalance(BeforeUnposting().tables.rows)
  {
    HundredIsSound();
    OtherIsFiled();
    HundredBalances();
  }

  /** Then unposted on the fresh copy, which passes over the account without a row: debits no
      longer equal credits. */
  lemma UnpostingUnbalances()
    ensures Filed(BeforeUnposting()) && PeriodsBalance(BeforeUnposting().tables.rows)
    ensures OnCopy(BeforeUnposting(), Unpost(0, Other(Posted)))
    ensures !PeriodsBalance(Act(BeforeUnposting(), Ask(Unpost(0, Other(Posted)))).tables.rows)
  {
    BeforeIsFiled();
    SkipsOther();
    UnpostingPasses();
    ServeBalancesExactlyWhen(BeforeUnposting().tables, Unpost(0, Other(Posted)));
  }
}
