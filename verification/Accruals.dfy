/** Accruals: posted once, reversed once, and reversed in bulk for a period; the ledger
    carries exactly those that are posted and not reversed. */
module Accruals {
  import opened Calendar
  import opened JournalHeaders
  import opened Journals
  import opened JournalBooks
  import opened Wrappers
  import opened YearEnd

  /** `expense` tells an accrued expense from accrued revenue. */
  datatype Accrual = Accrual(expense: bool, account: nat, counterpart: nat, amount: int,
                             postingDate: Option<Date>, reversalDate: Option<Date>,
                             period: nat, autoReverse: bool, posted: bool, reversed: bool)

  datatype AccrualError = PostedAlready | ReversedAlready | NotYetPosted | CodeTaken | NumberRefused | LineRefused

  /** A posting or a reversal that happened. */
  datatype Event = Event(accrual: nat, reversal: bool)

  /** The tables, with the taken journal references, the fields a posted header still takes,
      and what happened so far. */
  datatype Tables = Tables(accruals: seq<Accrual>, journals: seq<Journal>, references: set<Reference>,
                           mutable: set<Field>, trail: seq<Event>)

  datatype Action =
    | Post(accrual: nat, today: Date)
    | Reverse(accrual: nat, today: Date)
    | ReverseDue(period: nat, today: Date)

  // ---- Journals -------------------------------------------------------------------

  /** An expense debits the account; revenue, or the reversal of an expense, credits it. */
  function Lines(a: Accrual, reversal: bool): seq<Line> {
    if a.expense && !reversal then [Line(a.account, a.amount, 0), Line(a.counterpart, 0, a.amount)]
    else if a.expense then [Line(a.counterpart, a.amount, 0), Line(a.account, 0, a.amount)]
    else if !reversal then [Line(a.account, 0, a.amount), Line(a.counterpart, a.amount, 0)]
    else [Line(a.account, a.amount, 0), Line(a.counterpart, 0, a.amount)]
  }

  function Dated(date: Option<Date>, today: Date): Date {
    if date.Some? then date.value else today
  }

  /** Accruals are coded by their rows. */
  function ReferenceOf(code: nat, reversal: bool): Reference {
    if reversal then AccrualReversal(code) else AccrualPosting(code)
  }

  function JournalOf(a: Accrual, code: nat, reversal: bool, today: Date): Journal {
    Journal(Posted, ReferenceOf(code, reversal),
            Dated(if reversal then a.reversalDate else a.postingDate, today), NO_DIMS, Lines(a, reversal), None)
  }

  lemma TwoLines(x: Line, y: Line, id: nat)
    ensures TotalDebit([x, y]) == x.debit + y.debit && TotalCredit([x, y]) == x.credit + y.credit
    ensures LineNet([x, y], id)
         == (if x.account == id then x.debit - x.credit else 0) + (if y.account == id then y.debit - y.credit else 0)
  {
    assert [x, y][1..] == [y] && [y][1..] == [];
    assert TotalDebit([y]) == y.debit && TotalCredit([y]) == y.credit;
    assert LineNet([y], id) == if y.account == id then y.debit - y.credit else 0;
  }

  lemma LinesAccepted(a: Accrual, reversal: bool)
    ensures Balanced(Lines(a, reversal))
    ensures AllValid(Lines(a, reversal)) <==> a.amount > 0
  {
    var lines := Lines(a, reversal);
    assert lines == [lines[0], lines[1]];
    TwoLines(lines[0], lines[1], 0);
    if AllValid(lines) {
      assert lines[0] in lines && ValidLine(lines[0]) && lines[1] in lines && ValidLine(lines[1]);
    }
  }

  // ---- The operations -------------------------------------------------------------

  function Write(t: Tables, i: nat, reversal: bool, today: Date): Tables
    requires i < |t.accruals|
  {
    var a := t.accruals[i];
    var after := if reversal then a.(reversed := true) else a.(posted := true);
    Tables(t.accruals[i := after], t.journals + [JournalOf(a, i, reversal, today)],
           t.references + {ReferenceOf(i, reversal)}, t.mutable, t.trail + [Event(i, reversal)])
  }

  /** What stands against writing the journal: its reference, its number, or an amount that is
      not positive, which the line table refuses. */
  function WriteRefusal(t: Tables, i: nat, reversal: bool): Option<AccrualError>
    requires i < |t.accruals|
  {
    if ReferenceOf(i, reversal) in t.references then Some(CodeTaken)
    else if !NumberingPasses(t.mutable) then Some(NumberRefused)
    else if t.accruals[i].amount <= 0 then Some(LineRefused)
    else None
  }

  function PostOne(t: Tables, i: nat, today: Date): Result<Tables, AccrualError>
    requires i < |t.accruals|
  {
    if t.accruals[i].posted then Err(PostedAlready)
    else if WriteRefusal(t, i, false).Some? then Err(WriteRefusal(t, i, false).value)
    else Ok(Write(t, i, false, today))
  }

  function ReverseOne(t: Tables, i: nat, today: Date): Result<Tables, AccrualError>
    requires i < |t.accruals|
  {
    if t.accruals[i].reversed then Err(ReversedAlready)
    else if !t.accruals[i].posted then Err(NotYetPosted)
    else if WriteRefusal(t, i, true).Some? then Err(WriteRefusal(t, i, true).value)
    else Ok(Write(t, i, true, today))
  }

  predicate Due(a: Accrual, period: nat) {
    a.period == period && !a.reversed && a.autoReverse && a.posted
  }

  function OrSame(r: Result<Tables, AccrualError>, t: Tables): Tables {
    if r.Ok? then r.value else t
  }

  /** The bulk reversal from accrual `i` on: each one due is tried, and a failure is passed
      over. */
  function ReverseFrom(t: Tables, period: nat, today: Date, i: nat): Tables
    requires i <= |t.accruals|
    decreases |t.accruals| - i
  {
    if i == |t.accruals| then t
    else ReverseFrom(if Due(t.accruals[i], period) then OrSame(ReverseOne(t, i, today), t) else t, period, today, i + 1)
  }

  function ErrorOf(refusal: Error): AccrualError {
    if refusal == DuplicateReference then CodeTaken
    else if refusal == FrozenHeader then NumberRefused
    else LineRefused
  }

  class AccrualService {
    var accruals: seq<Accrual>
    const book: JournalBook
    ghost var trail: seq<Event>

    ghost function State(): Tables
      reads this, book
    {
      Tables(accruals, book.journals, book.references, book.mutable, trail)
    }

    ghost predicate Valid()
      reads this, book
    {
      book.Valid()
    }

    constructor (accruals: seq<Accrual>, book: JournalBook)
      requires book.Valid()
      ensures Valid() && this.book == book
      ensures State() == Tables(accruals, book.journals, book.references, book.mutable, [])
    {
      this.accruals, this.book, trail := accruals, book, [];
    }

    method PostAccrual(i: nat, today: Date) returns (r: Result<(), AccrualError>)
      requires Valid() && i < |accruals|
      modifies this, book
      ensures Valid() && |accruals| == |old(accruals)|
      ensures old(book.IsExact()) ==> book.IsExact()
      ensures match PostOne(old(State()), i, today)
              case Ok(after) => r == Ok(()) && State() == after
              case Err(e) => r == Err(e) && State() == old(State())
    {
      var a := accruals[i];
      if a.posted {
        return Err(PostedAlready);
      }
      var lines;
      if a.expense {
        lines := [Line(a.account, a.amount, 0), Line(a.counterpart, 0, a.amount)];
      } else {
        lines := [Line(a.account, 0, a.amount), Line(a.counterpart, a.amount, 0)];
      }
      LinesAccepted(a, false);
      var refusal := book.AppendPosted(AccrualPosting(i), Dated(a.postingDate, today), lines);
      if refusal.Some? {
        return Err(ErrorOf(refusal.value));
      }
      accruals := accruals[i := a.(posted := true)];
      trail := trail + [Event(i, false)];
      return Ok(());
    }

    method ReverseAccrual(i: nat, today: Date) returns (r: Result<(), AccrualError>)
      requires Valid() && i < |accruals|
      modifies this, book
      ensures Valid() && |accruals| == |old(accruals)|
      ensures old(book.IsExact()) ==> book.IsExact()
      ensures match ReverseOne(old(State()), i, today)
              case Ok(after) => r == Ok(()) && State() == after
              case Err(e) => r == Err(e) && State() == old(State())
    {
      var a := accruals[i];
      if a.reversed {
        return Err(ReversedAlready);
      }
      if !a.posted {
        return Err(NotYetPosted);
      }
      var lines;
      if a.expense {
        lines := [Line(a.counterpart, a.amount, 0), Line(a.account, 0, a.amount)];
      } else {
        lines := [Line(a.account, a.amount, 0), Line(a.counterpart, 0, a.amount)];
      }
      LinesAccepted(a, true);
      var refusal := book.AppendPosted(AccrualReversal(i), Dated(a.reversalDate, today), lines);
      if refusal.Some? {
        return Err(ErrorOf(refusal.value));
      }
      accruals := accruals[i := a.(reversed := true)];
      trail := trail + [Event(i, true)];
      return Ok(());
    }

    /** The bulk reversal counts what it reversed. */
    method ReverseAccruals(period: nat, today: Date) returns (count: nat)
      requires Valid()
      modifies this, book
      ensures Valid() && State() == ReverseFrom(old(State()), period, today, 0)
      ensures old(book.IsExact()) ==> book.IsExact()
      ensures |trail| == |old(trail)| + count
    {
      count := 0;
      for i := 0 to |accruals|
        invariant Valid() && |accruals| == |old(accruals)|
        invariant old(book.IsExact()) ==> book.IsExact()
        invariant ReverseFrom(State(), period, today, i) == ReverseFrom(old(State()), period, today, 0)
        invariant |trail| == |old(trail)| + count
      {
        if Due(accruals[i], period) {
          var r := ReverseAccrual(i, today);
          if r.Ok? {
            count := count + 1;
          }
        }
      }
    }
  }

  // ---- The ledger effect ----------------------------------------------------------

  /** What the posted journals put on an account. */
  function JournalsNet(js: seq<Journal>, id: nat): int {
    if js == [] then 0
    else
      var j := js[|js| - 1];
      JournalsNet(js[..|js| - 1], id) + if j.status == Posted then LineNet(j.lines, id) else 0
  }

  /** An accrual's effect on an account: the amount on its account and the opposite on the
      counterpart, signed by kind. */
  function Effect(a: Accrual, id: nat): int {
    var signed := if a.expense then a.amount else -a.amount;
    (if id == a.account then signed else 0) - (if id == a.counterpart then signed else 0)
  }

  predicate Outstanding(a: Accrual) {
    a.posted && !a.reversed
  }

  function OutstandingEffect(accruals: seq<Accrual>, id: nat): int {
    if accruals == [] then 0
    else (if Outstanding(accruals[0]) then Effect(accruals[0], id) else 0) + OutstandingEffect(accruals[1..], id)
  }

  function Times(trail: seq<Event>, e: Event): nat {
    if trail == [] then 0 else Times(trail[..|trail| - 1], e) + if trail[|trail| - 1] == e then 1 else 0
  }

  /** The ledger holds the starting journals and the outstanding accruals, and each accrual
      was posted and reversed as often as its flags say. */
  ghost predicate Agrees(t: Tables, base: seq<Journal>) {
    && (forall id: nat :: JournalsNet(t.journals, id) == JournalsNet(base, id) + OutstandingEffect(t.accruals, id))
    && (forall i :: 0 <= i < |t.accruals| ==>
          && Times(t.trail, Event(i, false)) == (if t.accruals[i].posted then 1 else 0)
          && Times(t.trail, Event(i, true)) == (if t.accruals[i].reversed then 1 else 0)
          && (t.accruals[i].reversed ==> t.accruals[i].posted))
  }

  lemma LinesEffect(a: Accrual, reversal: bool, id: nat)
    ensures LineNet(Lines(a, reversal), id) == if reversal then -Effect(a, id) else Effect(a, id)
  {
    var lines := Lines(a, reversal);
    assert lines == [lines[0], lines[1]];
    TwoLines(lines[0], lines[1], id);
  }

  lemma {:induction false} OutstandingUpdate(accruals: seq<Accrual>, i: nat, a: Accrual, id: nat)
    requires i < |accruals|
    ensures OutstandingEffect(accruals[i := a], id)
         == OutstandingEffect(accruals, id)
            - (if Outstanding(accruals[i]) then Effect(accruals[i], id) else 0)
            + (if Outstanding(a) then Effect(a, id) else 0)
  {
    if i == 0 {
      assert accruals[i := a][1..] == accruals[1..];
    } else {
      assert accruals[i := a][1..] == accruals[1..][i - 1 := a];
      OutstandingUpdate(accruals[1..], i - 1, a, id);
    }
  }

  lemma {:induction false} WriteKeeps(t: Tables, i: nat, reversal: bool, today: Date, base: seq<Journal>)
    requires Agrees(t, base) && i < |t.accruals|
    requires if reversal then Outstanding(t.accruals[i]) else !t.accruals[i].posted
    ensures Agrees(Write(t, i, reversal, today), base)
  {
    var a, after := t.accruals[i], Write(t, i, reversal, today);
    assert after.journals[..|t.journals|] == t.journals && after.trail[..|t.trail|] == t.trail;
    forall id: nat
      ensures JournalsNet(after.journals, id) == JournalsNet(base, id) + OutstandingEffect(after.accruals, id)
    {
      LinesEffect(a, reversal, id);
      OutstandingUpdate(t.accruals, i, after.accruals[i], id);
    }
  }

  lemma {:induction false} ReverseFromKeeps(t: Tables, period: nat, today: Date, i: nat, base: seq<Journal>)
    requires Agrees(t, base) && i <= |t.accruals|
    ensures Agrees(ReverseFrom(t, period, today, i), base)
    decreases |t.accruals| - i
  {
    if i < |t.accruals| {
      var next := if Due(t.accruals[i], period) then OrSame(ReverseOne(t, i, today), t) else t;
      if next != t {
        WriteKeeps(t, i, true, today, base);
      }
      ReverseFromKeeps(next, period, today, i + 1, base);
    }
  }

  function Act(t: Tables, a: Action): Tables {
    match a
    case Post(i, today) => if i < |t.accruals| then OrSame(PostOne(t, i, today), t) else t
    case Reverse(i, today) => if i < |t.accruals| then OrSame(ReverseOne(t, i, today), t) else t
    case ReverseDue(period, today) => ReverseFrom(t, period, today, 0)
  }

  function Run(t: Tables, actions: seq<Action>): Tables
    decreases |actions|
  {
    if actions == [] then t else Run(Act(t, actions[0]), actions[1..])
  }

  /** Over any run each accrual is posted and reversed at most once, and on every account the
      ledger carries exactly the accruals posted and not reversed. */
  lemma {:induction false} LedgerCarriesOutstanding(t: Tables, actions: seq<Action>, base: seq<Journal>)
    requires Agrees(t, base)
    ensures Agrees(Run(t, actions), base)
    decreases |actions|
  {
    if actions != [] {
      match actions[0] {
        case Post(i, today) =>
          if i < |t.accruals| && PostOne(t, i, today).Ok? {
            WriteKeeps(t, i, false, today, base);
          }
        case Reverse(i, today) =>
          if i < |t.accruals| && ReverseOne(t, i, today).Ok? {
            WriteKeeps(t, i, true, today, base);
          }
        case ReverseDue(period, today) => ReverseFromKeeps(t, period, today, 0, base);
      }
      LedgerCarriesOutstanding(Act(t, actions[0]), actions[1..], base);
    }
  }

  /** Nothing posted or reversed yet is a state to start from. */
  lemma {:induction false} FreshAccrualsAgree(accruals: seq<Accrual>, base: seq<Journal>, references: set<Reference>,
                                              mutable: set<Field>)
    requires forall i :: 0 <= i < |accruals| ==> !accruals[i].posted && !accruals[i].reversed
    ensures Agrees(Tables(accruals, base, references, mutable, []), base)
  {
    forall id: nat ensures OutstandingEffect(accruals, id) == 0 {
      NothingOutstanding(accruals, id);
    }
  }

  lemma {:induction false} NothingOutstanding(accruals: seq<Accrual>, id: nat)
    requires forall i :: 0 <= i < |accruals| ==> !accruals[i].posted
    ensures OutstandingEffect(accruals, id) == 0
  {
    if accruals != [] {
      NothingOutstanding(accruals[1..], id);
    }
  }

  /** Under the guard as it stands nothing is ever posted or reversed. */
  lemma {:induction false} NothingHappensAsWritten(t: Tables, actions: seq<Action>)
    requires t.mutable == POST_POSTING_MUTABLE_FIELDS
    ensures Run(t, actions) == t
    decreases |actions|
  {
    GuardAsWritten(None, {});
    if actions != [] {
      if actions[0].ReverseDue? {
        NothingIsReversed(t, actions[0].period, actions[0].today, 0);
      }
      NothingHappensAsWritten(t, actions[1..]);
    }
  }

  lemma {:induction false} NothingIsReversed(t: Tables, period: nat, today: Date, i: nat)
    requires !NumberingPasses(t.mutable) && i <= |t.accruals|
    ensures ReverseFrom(t, period, today, i) == t
    decreases |t.accruals| - i
  {
    if i < |t.accruals| {
      NothingIsReversed(t, period, today, i + 1);
    }
  }
}
