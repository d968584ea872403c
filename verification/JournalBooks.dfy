/** The journal tables and the methods that work on them: create, update, post and unpost on
    a caller's copy of the row, and the posting chokepoint used by the accounting services. */
module JournalBooks {
  import opened Sums
  import opened Balances
  import opened Calendar
  import opened JournalHeaders
  import opened Journals
  import opened JournalAmounts
  import opened JournalRequests
  import opened Wrappers

  class JournalBook {
    var journals: seq<Journal>
    var rows: seq<Row<Key>>
    var references: set<Reference>
    const mutable: set<Field>

    /** Stored lines meet the table's constraints; references and source documents are unique. */
    ghost predicate Valid()
      reads this
    {
      Stored(State())
    }

    /** The balance rows index exactly the lines of the posted journals. */
    ghost predicate IsExact()
      reads this
    {
      Exact(State())
    }

    function State(): Tables
      reads this
    {
      Tables(journals, rows, references, mutable)
    }

    ghost predicate Unchanged(wasJournals: seq<Journal>, wasRows: seq<Row<Key>>, wasReferences: set<Reference>)
      reads this
    {
      journals == wasJournals && rows == wasRows && references == wasReferences
    }

    /** An empty book under a whitelist that admits at least what the guard's own does. */
    constructor (mutable: set<Field>)
      requires POST_POSTING_MUTABLE_FIELDS <= mutable
      ensures Valid() && IsExact() && AllBalanced(journals)
      ensures Unchanged([], [], {}) && this.mutable == mutable
    {
      journals, rows, references := [], [], {};
      this.mutable := mutable;
    }

    /** The two totals, accumulated line by line. */
    static method Totals(lines: seq<Line>) returns (debit: int, credit: int)
      ensures debit == TotalDebit(lines) && credit == TotalCredit(lines)
    {
      debit, credit := 0, 0;
      for i := 0 to |lines|
        invariant debit + TotalDebit(lines[i..]) == TotalDebit(lines)
        invariant credit + TotalCredit(lines[i..]) == TotalCredit(lines)
      {
        debit, credit := debit + lines[i].debit, credit + lines[i].credit;
      }
    }

    /** One turn of the posting loop: get or create the row, then add both amounts. */
    method AddToRow(p: Row<Key>)
      modifies this`rows
      ensures rows == Add(old(rows), p)
    {
      var at := Find(rows, p.key);
      if at == |rows| {
        AppendThenUpdate(rows, Row(p.key, 0, 0), p);
        rows := rows + [Row(p.key, 0, 0)];
      }
      rows := rows[at := Row(p.key, rows[at].debit + p.debit, rows[at].credit + p.credit)];
    }

    /** `_post_to_gl`: the loop over the journal's lines. */
    method PostToIndex(j: Journal)
      modifies this`rows
      ensures rows == AddAll(old(rows), Postings(j)) && Raised(old(rows), rows, j)
    {
      AddingRaises(rows, j);
      for i := 0 to |j.lines|
        invariant AddAll(rows, LinePostings(j.date, j.dims, j.lines[i..])) == AddAll(old(rows), Postings(j))
      {
        AddToRow(PostingOf(j.date, j.dims, j.lines[i]));
      }
    }

    /** One turn of the unposting loop: a row that is absent is skipped and only positive
        amounts are subtracted. */
    method TakeFromRow(p: Row<Key>)
      modifies this`rows
      ensures rows == Subtract(old(rows), p)
    {
      var at := Find(rows, p.key);
      if at < |rows| {
        var row := rows[at];
        if p.debit > 0 {
          row := row.(debit := row.debit - p.debit);
        }
        if p.credit > 0 {
          row := row.(credit := row.credit - p.credit);
        }
        rows := rows[at := row];
      }
    }

    /** The unposting loop over the journal's lines. */
    method SubtractFromIndex(j: Journal)
      modifies this`rows
      ensures rows == SubtractAll(old(rows), Postings(j)) && (AllValid(j.lines) ==> Lowered(old(rows), rows, j))
    {
      if AllValid(j.lines) {
        SubtractingLowers(rows, j);
      }
      for i := 0 to |j.lines|
        invariant SubtractAll(rows, LinePostings(j.date, j.dims, j.lines[i..])) == SubtractAll(old(rows), Postings(j))
      {
        TakeFromRow(PostingOf(j.date, j.dims, j.lines[i]));
      }
    }

    /** What stands against storing these lines: totals that differ, or a line the table
        would refuse. */
    static method CheckLines(lines: seq<Line>) returns (refusal: Option<Error>)
      ensures refusal.None? <==> Balanced(lines) && AllValid(lines)
      ensures refusal.Some? ==> refusal.value == if Balanced(lines) then InvalidLine else Unbalanced
    {
      var debit, credit := Totals(lines);
      if debit != credit {
        return Some(Unbalanced);
      }
      if !(forall l :: l in lines ==> ValidLine(l)) {
        return Some(InvalidLine);
      }
      return None;
    }

    /** A new journal, refused unless its lines balance, its reference and source are free and
        its lines meet the table's constraints; created as posted, it is folded into the
        index. */
    method Create(j: Journal) returns (refusal: Option<Error>)
      requires Valid()
      modifies this
      ensures Valid() && Outcome(State(), refusal) == ServeCreate(old(State()), j)
    {
      CreateKeepsStored(State(), j);
      var objection := CheckLines(j.lines);
      if objection == Some(Unbalanced) {
        return Some(Unbalanced);
      }
      if Taken(references, j.reference) {
        return Some(DuplicateReference);
      }
      if SourceTaken(journals, |journals|, j) {
        return Some(DuplicateSource);
      }
      if objection.Some? {
        return objection;
      }
      journals, references := journals + [j], WithReference(references, j.reference);
      if j.status == Posted {
        PostToIndex(j);
      }
      return None;
    }

    /** The header save, with the lines stored beside it: the guard, the receiver that checks
        the budget, then the database. */
    method SaveHeader(id: nat, h: Journal, stored: seq<Line>, policy: Policy) returns (refusal: Option<Error>)
      requires id < |journals|
      modifies this`journals, this`references
      ensures refusal == SaveRefusal(old(State()), id, h, BlockedByBudget(policy, h))
      ensures State() == if refusal.Some? then old(State()) else Saved(old(State()), id, h, stored)
    {
      var row := journals[id];
      if row.status == Posted && !SavePasses(mutable, Some(Posted), Full(Changes(row, h))) {
        return Some(FrozenHeader);
      }
      if h.status == Posted && row.status != Posted && BlockedByBudget(policy, h) {
        return Some(OverBudget);
      }
      if h.reference != row.reference && Taken(references, h.reference) {
        return Some(DuplicateReference);
      }
      if SourceTaken(journals, id, h) {
        return Some(DuplicateSource);
      }
      references := WithReference(references - {row.reference}, h.reference);
      journals := journals[id := h.(lines := stored)];
      return None;
    }

    /** What an update asks before it writes: the status of the copy, and the lines given. */
    method CheckUpdate(id: nat, copy: Journal, lines: Option<seq<Line>>) returns (refusal: Option<Error>)
      ensures refusal == if id >= |journals| then Some(NotFound)
                         else if copy.status == Posted then Some(AlreadyPosted)
                         else if Given(lines) && !Balanced(lines.value) then Some(Unbalanced)
                         else if Given(lines) && !AllValid(lines.value) then Some(InvalidLine)
                         else None
    {
      if id >= |journals| {
        return Some(NotFound);
      }
      if copy.status == Posted {
        return Some(AlreadyPosted);
      }
      if Given(lines) {
        refusal := CheckLines(lines.value);
        return refusal;
      }
      return None;
    }

    /** The copy's journal takes new header values and, when any are given, new lines.  Lines
        left out are kept unchecked; an update to posted folds in the copy's. */
    method Update(id: nat, copy: Journal, status: Status, reference: Reference, date: Date, dims: Dims,
                  lines: Option<seq<Line>>, policy: Policy) returns (refusal: Option<Error>)
      requires Valid()
      modifies this
      ensures Valid()
      ensures Outcome(State(), refusal)
           == ServeUpdate(old(State()), Request.Update(id, copy, status, reference, date, dims, lines, policy))
    {
      UpdateKeepsStored(State(), Request.Update(id, copy, status, reference, date, dims, lines, policy));
      refusal := CheckUpdate(id, copy, lines);
      if refusal.Some? {
        return refusal;
      }
      var shown := if Given(lines) then lines.value else copy.lines;
      var stored := if Given(lines) then lines.value else journals[id].lines;
      var h := Journal(status, reference, date, dims, shown, copy.source);
      refusal := SaveHeader(id, h, stored, policy);
      if refusal.None? && status == Posted {
        PostToIndex(h);
      }
    }

    /** Posts a journal that its copy shows unposted and with lines, and whose stored lines
        balance.  The index is committed first: a header save that is then refused leaves it
        so. */
    method Post(id: nat, copy: Journal, policy: Policy) returns (refusal: Option<Error>)
      requires Valid()
      modifies this
      ensures Valid() && Outcome(State(), refusal) == ServePost(old(State()), Request.Post(id, copy, policy))
    {
      PostKeepsStored(State(), Request.Post(id, copy, policy));
      if id >= |journals| {
        return Some(NotFound);
      }
      if copy.status == Posted {
        return Some(AlreadyPosted);
      }
      var debit, credit := Totals(journals[id].lines);
      if debit != credit {
        return Some(Unbalanced);
      }
      if copy.lines == [] {
        return Some(NoLines);
      }
      PostToIndex(copy);
      refusal := SaveHeader(id, copy.(status := Posted), journals[id].lines, policy);
    }

    /** Takes a journal that its copy shows posted back to approved and the copy's amounts off
        the index, in one transaction. */
    method Unpost(id: nat, copy: Journal) returns (refusal: Option<Error>)
      requires Valid()
      modifies this
      ensures Valid() && Outcome(State(), refusal) == ServeUnpost(old(State()), id, copy)
    {
      UnpostKeepsStored(State(), id, copy);
      if id >= |journals| {
        return Some(NotFound);
      }
      if copy.status != Posted {
        return Some(NotPosted);
      }
      var saved := rows;
      SubtractFromIndex(copy);
      refusal := SaveHeader(id, copy.(status := Approved), journals[id].lines, (j, l) => false);
      if refusal.Some? {
        rows := saved;
      }
    }

    /** A journal the services create as posted, number, fill with lines and pass through
        `update_gl_from_journal`: any refusal on the way leaves nothing behind. */
    method AppendPosted(reference: Reference, date: Date, lines: seq<Line>) returns (refusal: Option<Error>)
      requires Valid()
      modifies this
      ensures Valid() && (old(AllBalanced(journals)) ==> AllBalanced(journals)) && (old(IsExact()) ==> IsExact())
      ensures refusal == AppendRefusal(old(references), mutable, reference, lines)
      ensures refusal.Some? ==> Unchanged(old(journals), old(rows), old(references))
      ensures refusal.None? ==>
                var j := Journal(Posted, reference, date, NO_DIMS, lines, None);
                Unchanged(old(journals) + [j], AddAll(old(rows), Postings(j)),
                          WithReference(old(references), reference))
    {
      if Taken(references, reference) {
        return Some(DuplicateReference);
      }
      if !NumberingPasses(mutable) {
        return Some(FrozenHeader);
      }
      if !AllValid(lines) {
        return Some(InvalidLine);
      }
      var debit, credit := Totals(lines);
      if debit != credit {
        return Some(Unbalanced);
      }
      var j := Journal(Posted, reference, date, NO_DIMS, lines, None);
      CreateKeepsStored(State(), j);
      if IsExact() {
        CreateKeeps(State(), j);
      }
      journals, references := journals + [j], WithReference(references, reference);
      PostToIndex(j);
      return None;
    }

    /** A header created in the same way and deleted again: its row stays, hidden, and with it
        its reference. */
    method AppendDeleted(reference: Reference) returns (refusal: Option<Error>)
      requires Valid()
      modifies this`references
      ensures Valid() && (old(IsExact()) ==> IsExact())
      ensures refusal == AppendRefusal(old(references), mutable, reference, [])
      ensures references == if refusal.None? then WithReference(old(references), reference) else old(references)
    {
      if Taken(references, reference) {
        return Some(DuplicateReference);
      }
      if !NumberingPasses(mutable) {
        return Some(FrozenHeader);
      }
      references := WithReference(references, reference);
      return None;
    }
  }
}
