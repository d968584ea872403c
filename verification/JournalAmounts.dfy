/** What the balance rows of an account, a stamp of dimensions and a month hold, read off
    journals and their lines. */
module JournalAmounts {
  import opened Balances
  import opened Calendar
  import opened JournalHeaders
  import opened Journals

  function DebitOn(lines: seq<Line>, account: nat): int {
    if lines == [] then 0
    else (if lines[0].account == account then lines[0].debit else 0) + DebitOn(lines[1..], account)
  }

  function CreditOn(lines: seq<Line>, account: nat): int {
    if lines == [] then 0
    else (if lines[0].account == account then lines[0].credit else 0) + CreditOn(lines[1..], account)
  }

  /** The debits on an account of the posted journals with a stamp and a month. */
  function PostedDebit(js: seq<Journal>, account: nat, dims: Dims, year: int, month: int): int {
    if js == [] then 0
    else
      var j := js[|js| - 1];
      PostedDebit(js[..|js| - 1], account, dims, year, month)
      + if j.status == Posted && j.dims == dims && j.date.year == year && j.date.month == month
        then DebitOn(j.lines, account) else 0
  }

  function PostedCredit(js: seq<Journal>, account: nat, dims: Dims, year: int, month: int): int {
    if js == [] then 0
    else
      var j := js[|js| - 1];
      PostedCredit(js[..|js| - 1], account, dims, year, month)
      + if j.status == Posted && j.dims == dims && j.date.year == year && j.date.month == month
        then CreditOn(j.lines, account) else 0
  }

  /** What the rows of an account, a stamp and a month hold. */
  function HeldDebit(rows: seq<Row<Key>>, account: nat, dims: Dims, year: int, month: int): int {
    if rows == [] then 0
    else
      var r := rows[|rows| - 1];
      HeldDebit(rows[..|rows| - 1], account, dims, year, month)
      + if r.key == Key(account, dims, year, month) then r.debit else 0
  }

  function HeldCredit(rows: seq<Row<Key>>, account: nat, dims: Dims, year: int, month: int): int {
    if rows == [] then 0
    else
      var r := rows[|rows| - 1];
      HeldCredit(rows[..|rows| - 1], account, dims, year, month)
      + if r.key == Key(account, dims, year, month) then r.credit else 0
  }

  predicate HasRow(rows: seq<Row<Key>>, account: nat, dims: Dims, year: int, month: int) {
    exists i :: 0 <= i < |rows| && rows[i].key == Key(account, dims, year, month)
  }

  lemma {:induction false} HeldIsFiltered(rows: seq<Row<Key>>, account: nat, dims: Dims, year: int, month: int)
    ensures HeldDebit(rows, account, dims, year, month) == Debits(rows, Is(Key(account, dims, year, month)))
    ensures HeldCredit(rows, account, dims, year, month) == Credits(rows, Is(Key(account, dims, year, month)))
  {
    if rows != [] {
      HeldIsFiltered(rows[..|rows| - 1], account, dims, year, month);
    }
  }

  lemma {:induction false} LinesAreFiltered(date: Date, dims: Dims, lines: seq<Line>, account: nat, under: Dims,
                                            year: int, month: int)
    ensures var ps, p := LinePostings(date, dims, lines), Is(Key(account, under, year, month));
            var here := dims == under && date.year == year && date.month == month;
            && Debits(ps, p) == (if here then DebitOn(lines, account) else 0)
            && Credits(ps, p) == (if here then CreditOn(lines, account) else 0)
  {
    if lines != [] {
      var first, rest := PostingOf(date, dims, lines[0]), LinePostings(date, dims, lines[1..]);
      LinesAreFiltered(date, dims, lines[1..], account, under, year, month);
      OneLineAggregates(first, Is(Key(account, under, year, month)));
      ConcatAggregates([first], rest, Is(Key(account, under, year, month)));
    }
  }

  lemma {:induction false} PostedIsFiltered(js: seq<Journal>, account: nat, dims: Dims, year: int, month: int)
    ensures Debits(PostedLines(js), Is(Key(account, dims, year, month))) == PostedDebit(js, account, dims, year, month)
    ensures Credits(PostedLines(js), Is(Key(account, dims, year, month)))
         == PostedCredit(js, account, dims, year, month)
  {
    if js != [] {
      var j := js[|js| - 1];
      PostedIsFiltered(js[..|js| - 1], account, dims, year, month);
      LinesAreFiltered(j.date, j.dims, j.lines, account, dims, year, month);
      ConcatAggregates(PostedLines(js[..|js| - 1]), PostingsIfPosted(j), Is(Key(account, dims, year, month)));
    }
  }

  /** In every exact state, each account holds under each stamp and month what the posted
      journals with that stamp and month put on it, in one row if any. */
  lemma {:induction false} ExactRowsHoldPosted(rows: seq<Row<Key>>, js: seq<Journal>)
    requires Indexes(rows, PostedLines(js))
    ensures forall account: nat, dims, year, month ::
              && HeldDebit(rows, account, dims, year, month) == PostedDebit(js, account, dims, year, month)
              && HeldCredit(rows, account, dims, year, month) == PostedCredit(js, account, dims, year, month)
    ensures forall i :: 0 <= i < |rows| ==>
              var k := rows[i].key;
              && rows[i].debit == PostedDebit(js, k.account, k.dims, k.year, k.period)
              && rows[i].credit == PostedCredit(js, k.account, k.dims, k.year, k.period)
  {
    forall account: nat, dims, year, month
      ensures HeldDebit(rows, account, dims, year, month) == PostedDebit(js, account, dims, year, month)
      ensures HeldCredit(rows, account, dims, year, month) == PostedCredit(js, account, dims, year, month)
    {
      HeldIsFiltered(rows, account, dims, year, month);
      PostedIsFiltered(js, account, dims, year, month);
    }
    forall i | 0 <= i < |rows|
      ensures rows[i].debit
           == HeldDebit(rows, rows[i].key.account, rows[i].key.dims, rows[i].key.year, rows[i].key.period)
      ensures rows[i].credit
           == HeldCredit(rows, rows[i].key.account, rows[i].key.dims, rows[i].key.year, rows[i].key.period)
    {
      var k := rows[i].key;
      RowHoldsTotal(rows, i);
      HeldIsFiltered(rows, k.account, k.dims, k.year, k.period);
    }
  }

  /** Posting a journal raises its accounts by their debits and credits, under its own stamp
      and month, and moves nothing else. */
  lemma {:induction false} PostingRaises(rows: seq<Row<Key>>, j: Journal, account: nat, dims: Dims, year: int,
                                         month: int)
    ensures var after := AddAll(rows, Postings(j));
            var here := j.dims == dims && j.date.year == year && j.date.month == month;
            && HeldDebit(after, account, dims, year, month)
               == HeldDebit(rows, account, dims, year, month) + (if here then DebitOn(j.lines, account) else 0)
            && HeldCredit(after, account, dims, year, month)
               == HeldCredit(rows, account, dims, year, month) + (if here then CreditOn(j.lines, account) else 0)
  {
    var after := AddAll(rows, Postings(j));
    HeldIsFiltered(rows, account, dims, year, month);
    HeldIsFiltered(after, account, dims, year, month);
    AddAllAggregates(rows, Postings(j), Is(Key(account, dims, year, month)));
    LinesAreFiltered(j.date, j.dims, j.lines, account, dims, year, month);
  }

  lemma FindsExactlyWhen(rows: seq<Row<Key>>, account: nat, dims: Dims, year: int, month: int)
    ensures Find(rows, Key(account, dims, year, month)) < |rows| <==> HasRow(rows, account, dims, year, month)
  {
    var i := Find(rows, Key(account, dims, year, month));
    if i < |rows| {
      assert rows[i].key == Key(account, dims, year, month);
    }
  }

  /** The present lines under one key are all of them, or none when its row is absent. */
  lemma {:induction false} PresentUnderKey(rows: seq<Row<Key>>, ps: seq<Row<Key>>, k: Key)
    ensures Debits(Present(rows, ps), Is(k)) == if Find(rows, k) < |rows| then Debits(ps, Is(k)) else 0
    ensures Credits(Present(rows, ps), Is(k)) == if Find(rows, k) < |rows| then Credits(ps, Is(k)) else 0
  {
    if ps != [] {
      PresentUnderKey(rows, ps[1..], k);
      assert ps == [ps[0]] + ps[1..];
      ConcatAggregates([ps[0]], ps[1..], Is(k));
      ConcatAggregates([ps[0]], Present(rows, ps[1..]), Is(k));
      OneLineAggregates(ps[0], Is(k));
      assert [] + Present(rows, ps[1..]) == Present(rows, ps[1..]);
    }
  }

  /** Unposting it lowers them by as much where they have a row. */
  lemma {:induction false} UnpostingLowers(rows: seq<Row<Key>>, j: Journal, account: nat, dims: Dims, year: int,
                                           month: int)
    requires AllValid(j.lines)
    ensures var after := SubtractAll(rows, Postings(j));
            var here := j.dims == dims && j.date.year == year && j.date.month == month
                        && HasRow(rows, account, dims, year, month);
            && HeldDebit(after, account, dims, year, month)
               == HeldDebit(rows, account, dims, year, month) - (if here then DebitOn(j.lines, account) else 0)
            && HeldCredit(after, account, dims, year, month)
               == HeldCredit(rows, account, dims, year, month) - (if here then CreditOn(j.lines, account) else 0)
  {
    var after, k := SubtractAll(rows, Postings(j)), Key(account, dims, year, month);
    HeldIsFiltered(rows, account, dims, year, month);
    HeldIsFiltered(after, account, dims, year, month);
    PostingsNonnegative(j.date, j.dims, j.lines);
    SubtractAllAggregates(rows, Postings(j), Is(k));
    PresentUnderKey(rows, Postings(j), k);
    FindsExactlyWhen(rows, account, dims, year, month);
    LinesAreFiltered(j.date, j.dims, j.lines, account, dims, year, month);
  }

  /** Every account is raised by what the journal puts on it, under its stamp and month. */
  ghost predicate Raised(before: seq<Row<Key>>, after: seq<Row<Key>>, j: Journal) {
    forall account: nat, dims, year, month ::
      var here := j.dims == dims && j.date.year == year && j.date.month == month;
      && HeldDebit(after, account, dims, year, month)
         == HeldDebit(before, account, dims, year, month) + (if here then DebitOn(j.lines, account) else 0)
      && HeldCredit(after, account, dims, year, month)
         == HeldCredit(before, account, dims, year, month) + (if here then CreditOn(j.lines, account) else 0)
  }

  /** Every account with a row is lowered by as much. */
  ghost predicate Lowered(before: seq<Row<Key>>, after: seq<Row<Key>>, j: Journal) {
    forall account: nat, dims, year, month ::
      var here := j.dims == dims && j.date.year == year && j.date.month == month
                  && HasRow(before, account, dims, year, month);
      && HeldDebit(after, account, dims, year, month)
         == HeldDebit(before, account, dims, year, month) - (if here then DebitOn(j.lines, account) else 0)
      && HeldCredit(after, account, dims, year, month)
         == HeldCredit(before, account, dims, year, month) - (if here then CreditOn(j.lines, account) else 0)
  }

  lemma {:induction false} AddingRaises(rows: seq<Row<Key>>, j: Journal)
    ensures Raised(rows, AddAll(rows, Postings(j)), j)
  {
    forall account: nat, dims, year, month
      ensures var here := j.dims == dims && j.date.year == year && j.date.month == month;
              && HeldDebit(AddAll(rows, Postings(j)), account, dims, year, month)
                 == HeldDebit(rows, account, dims, year, month) + (if here then DebitOn(j.lines, account) else 0)
              && HeldCredit(AddAll(rows, Postings(j)), account, dims, year, month)
                 == HeldCredit(rows, account, dims, year, month) + (if here then CreditOn(j.lines, account) else 0)
    {
      PostingRaises(rows, j, account, dims, year, month);
    }
  }

  lemma {:induction false} SubtractingLowers(rows: seq<Row<Key>>, j: Journal)
    requires AllValid(j.lines)
    ensures Lowered(rows, SubtractAll(rows, Postings(j)), j)
  {
    forall account: nat, dims, year, month
      ensures var here := j.dims == dims && j.date.year == year && j.date.month == month
                          && HasRow(rows, account, dims, year, month);
              && HeldDebit(SubtractAll(rows, Postings(j)), account, dims, year, month)
                 == HeldDebit(rows, account, dims, year, month) - (if here then DebitOn(j.lines, account) else 0)
              && HeldCredit(SubtractAll(rows, Postings(j)), account, dims, year, month)
                 == HeldCredit(rows, account, dims, year, month) - (if here then CreditOn(j.lines, account) else 0)
    {
      UnpostingLowers(rows, j, account, dims, year, month);
    }
  }
}
