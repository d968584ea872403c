/** The journal and what it contributes to the materialised balance index. */
module Journals {
  import opened Sums
  import opened Balances
  import opened Calendar
  import opened JournalHeaders
  import opened Wrappers

  datatype Line = Line(account: nat, debit: int, credit: int)

  /** The reporting dimensions stamped on a journal header; each may be absent. */
  datatype Dims = Dims(fund: Option<nat>, functional: Option<nat>, program: Option<nat>, geo: Option<nat>)

  const NO_DIMS := Dims(None, None, None, None)

  /** A header with its lines; `source` is the document of another module it was made from. */
  datatype Journal = Journal(status: Status, reference: Reference, date: Date, dims: Dims, lines: seq<Line>,
                             source: Option<nat>)

  /** The key of a balance row. */
  datatype Key = Key(account: nat, dims: Dims, year: int, period: int)

  datatype Error = NotFound | AlreadyPosted | NotPosted | Unbalanced | NoLines | InvalidLine
    | DuplicateReference | DuplicateSource | FrozenHeader | OverBudget

  /** The amount constraints of the line table: no negative side, exactly one side. */
  predicate ValidLine(l: Line) {
    && l.debit >= 0 && l.credit >= 0
    && !(l.debit > 0 && l.credit > 0)
    && (l.debit > 0 || l.credit > 0)
  }

  /** A line is admissible exactly with a positive amount on one side and none on the other. */
  lemma ValidExactlyWhen(l: Line)
    ensures ValidLine(l) <==> (l.debit > 0 && l.credit == 0) || (l.debit == 0 && l.credit > 0)
  {
  }

  function TotalDebit(lines: seq<Line>): int {
    if lines == [] then 0 else lines[0].debit + TotalDebit(lines[1..])
  }

  function TotalCredit(lines: seq<Line>): int {
    if lines == [] then 0 else lines[0].credit + TotalCredit(lines[1..])
  }

  predicate Balanced(lines: seq<Line>) {
    TotalDebit(lines) == TotalCredit(lines)
  }

  predicate AllValid(lines: seq<Line>) {
    forall l :: l in lines ==> ValidLine(l)
  }

  function KeyOf(account: nat, dims: Dims, date: Date): Key {
    Key(account, dims, date.year, date.month)
  }

  function PostingOf(date: Date, dims: Dims, l: Line): Row<Key> {
    Row(KeyOf(l.account, dims, date), l.debit, l.credit)
  }

  function LinePostings(date: Date, dims: Dims, lines: seq<Line>): seq<Row<Key>> {
    if lines == [] then [] else [PostingOf(date, dims, lines[0])] + LinePostings(date, dims, lines[1..])
  }

  /** What a journal contributes to the index, line by line. */
  function Postings(j: Journal): seq<Row<Key>> {
    LinePostings(j.date, j.dims, j.lines)
  }

  function PostingsIfPosted(j: Journal): seq<Row<Key>> {
    if j.status == Posted then Postings(j) else []
  }

  /** The contributions of exactly the posted journals, in table order. */
  function PostedLines(js: seq<Journal>): seq<Row<Key>> {
    if js == [] then [] else PostedLines(js[..|js| - 1]) + PostingsIfPosted(js[|js| - 1])
  }

  // ---- Facts about contributions --------------------------------------------------

  lemma {:induction false} PostedLinesAppend(js: seq<Journal>, j: Journal)
    ensures PostedLines(js + [j]) == PostedLines(js) + PostingsIfPosted(j)
  {
    assert (js + [j])[..|js|] == js;
  }

  lemma {:induction false} PostedLinesConcat(js: seq<Journal>, ks: seq<Journal>)
    ensures PostedLines(js + ks) == PostedLines(js) + PostedLines(ks)
  {
    if ks == [] {
      assert js + ks == js;
    } else {
      var init, k := ks[..|ks| - 1], ks[|ks| - 1];
      assert (js + ks)[..|js + ks| - 1] == js + init && (js + ks)[|js + ks| - 1] == k;
      PostedLinesConcat(js, init);
      ConcatAssociates(PostedLines(js), PostedLines(init), PostingsIfPosted(k));
    }
  }

  /** The posted lines with journal `i` replaced by `j`: only the lines in the middle change. */
  lemma {:induction false} PostedLinesUpdate(js: seq<Journal>, i: nat, j: Journal)
    requires i < |js|
    ensures PostedLines(js[i := j]) == PostedLines(js[..i]) + PostingsIfPosted(j) + PostedLines(js[i + 1..])
  {
    assert js[i := j] == (js[..i] + [j]) + js[i + 1..];
    PostedLinesConcat(js[..i] + [j], js[i + 1..]);
    PostedLinesAppend(js[..i], j);
  }

  lemma {:induction false} PostingsNonnegative(date: Date, dims: Dims, lines: seq<Line>)
    requires AllValid(lines)
    ensures Nonnegative(LinePostings(date, dims, lines))
  {
    if lines != [] {
      assert ValidLine(lines[0]);
      PostingsNonnegative(date, dims, lines[1..]);
    }
  }

  lemma {:induction false} PostedLinesNonnegative(js: seq<Journal>)
    requires forall j :: j in js ==> AllValid(j.lines)
    ensures Nonnegative(PostedLines(js))
  {
    if js != [] {
      var j := js[|js| - 1];
      PostedLinesNonnegative(js[..|js| - 1]);
      PostingsNonnegative(j.date, j.dims, j.lines);
    }
  }

  // ---- Double entry in the index --------------------------------------------------

  predicate InPeriod(year: int, period: int, k: Key) {
    k.year == year && k.period == period
  }

  function PeriodFilter(year: int, period: int): Key -> bool {
    (k: Key) => InPeriod(year, period, k)
  }

  /** A journal's net in a group of keys that takes it whole or not at all. */
  lemma {:induction false} PostingsNet(date: Date, dims: Dims, lines: seq<Line>, p: Key -> bool, all: bool)
    requires forall l :: l in lines ==> p(KeyOf(l.account, dims, date)) == all
    ensures Net(LinePostings(date, dims, lines), p)
         == if all then TotalDebit(lines) - TotalCredit(lines) else 0
  {
    if lines != [] {
      var first := PostingOf(date, dims, lines[0]);
      PostingsNet(date, dims, lines[1..], p, all);
      SumConcat([first], LinePostings(date, dims, lines[1..]), NetOf(p));
      assert [first][..0] == [];
    }
  }

  /** A balanced journal nets to zero in every such group. */
  lemma {:induction false} JournalNetsToZero(j: Journal, p: Key -> bool, all: bool)
    requires Balanced(j.lines)
    requires forall l :: l in j.lines ==> p(KeyOf(l.account, j.dims, j.date)) == all
    ensures Net(Postings(j), p) == 0
  {
    PostingsNet(j.date, j.dims, j.lines, p, all);
  }

  lemma {:induction false} PostedPeriodsBalance(js: seq<Journal>, year: int, period: int)
    requires forall j :: j in js ==> Balanced(j.lines)
    ensures Net(PostedLines(js), PeriodFilter(year, period)) == 0
  {
    if js != [] {
      var init, j := js[..|js| - 1], js[|js| - 1];
      PostedPeriodsBalance(init, year, period);
      JournalNetsToZero(j, PeriodFilter(year, period), j.date.year == year && j.date.month == period);
      SumConcat(PostedLines(init), PostingsIfPosted(j), NetOf(PeriodFilter(year, period)));
    }
  }

  /** Whatever was posted and unposted, the index balances in every year and month. */
  lemma IndexPeriodsBalance(rows: seq<Row<Key>>, js: seq<Journal>, year: int, period: int)
    requires Indexes(rows, PostedLines(js))
    requires forall j :: j in js ==> Balanced(j.lines)
    ensures Debits(rows, PeriodFilter(year, period)) == Credits(rows, PeriodFilter(year, period))
  {
    var p := PeriodFilter(year, period);
    PostedPeriodsBalance(js, year, period);
    NetIsDebitsLessCredits(PostedLines(js), p);
  }

  /** Every row of the index is the total of the posted lines with its key. */
  lemma {:induction false} RowIsPostedTotal(rows: seq<Row<Key>>, js: seq<Journal>, i: nat)
    requires Indexes(rows, PostedLines(js)) && i < |rows|
    ensures rows[i].debit == Debits(PostedLines(js), Is(rows[i].key))
    ensures rows[i].credit == Credits(PostedLines(js), Is(rows[i].key))
  {
    RowHoldsTotal(rows, i);
  }

  /** Posting a journal and unposting it restores every amount of the index; at most, rows
      holding zero remain. */
  lemma {:induction false} PostThenUnpost(rows: seq<Row<Key>>, js: seq<Journal>, j: Journal, i: nat)
    requires Indexes(rows, PostedLines(js))
    requires AllValid(j.lines) && forall x :: x in js ==> AllValid(x.lines)
    requires i < |SubtractAll(AddAll(rows, Postings(j)), Postings(j))|
    ensures var after := SubtractAll(AddAll(rows, Postings(j)), Postings(j));
            && Indexes(after, PostedLines(js))
            && var k := Find(rows, after[i].key);
               if k < |rows| then after[i] == rows[k] else after[i].debit == 0 && after[i].credit == 0
  {
    var after := SubtractAll(AddAll(rows, Postings(j)), Postings(j));
    AddAllIndexes(rows, PostedLines(js), Postings(j));
    PostedLinesNonnegative(js + [j.(status := Posted)]);
    PostedLinesAppend(js, j.(status := Posted));
    SubtractAllIndexes(AddAll(rows, Postings(j)), PostedLines(js), Postings(j));
    IndexIsDetermined(after, rows, PostedLines(js), i);
  }

  // ---- References -----------------------------------------------------------------

  /** The taken references include every stored one that is not blank, and no two journals
      share one.  A deleted header keeps its reference. */
  ghost predicate ReferencesMatch(js: seq<Journal>, references: set<Reference>) {
    && Blank !in references
    && (forall i :: 0 <= i < |js| && js[i].reference != Blank ==> js[i].reference in references)
    && (forall i, k :: 0 <= i < k < |js| && js[i].reference != Blank ==> js[i].reference != js[k].reference)
  }

  /** No two posted journals come from one source document. */
  ghost predicate SourcesMatch(js: seq<Journal>) {
    forall i, k :: 0 <= i < k < |js| && js[i].status == Posted && js[k].status == Posted && js[i].source.Some? ==>
      js[i].source != js[k].source
  }

  /** What stands against storing a journal as the services do: its reference, the numbering
      of its header, its lines, or their balance. */
  function AppendRefusal(references: set<Reference>, mutable: set<Field>, reference: Reference,
                         lines: seq<Line>): Option<Error> {
    if Taken(references, reference) then Some(DuplicateReference)
    else if !NumberingPasses(mutable) then Some(FrozenHeader)
    else if !AllValid(lines) then Some(InvalidLine)
    else if !Balanced(lines) then Some(Unbalanced)
    else None
  }
}
