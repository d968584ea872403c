/** Multi-period deferrals: each call recognises one period's amount, the last call takes
    whatever remains. */
module Deferrals {
  import opened Calendar
  import opened JournalHeaders
  import opened Journals
  import opened JournalBooks
  import opened Wrappers
  import opened YearEnd
  import opened Accruals

  /** `prepaid` tells a prepaid expense from deferred revenue. */
  datatype Record = Record(code: nat, prepaid: bool, account: nat, counterpart: nat, original: int, remaining: int,
                           recognitionAmount: int, periods: int, current: int, active: bool, fullyRecognized: bool)

  datatype DeferralError = Inactive | FullyRecognized | NothingToRecognize | DayTaken | NumberFrozen

  /** The amount due now: the fixed amount, or in the last period all that remains. */
  function AmountDue(d: Record): int {
    if d.periods - d.current <= 1 then d.remaining else d.recognitionAmount
  }

  /** What stands against a recognition on a day: the record itself, the reference of that
      day's journal, or the header that does not take its number. */
  function Objection(d: Record, references: set<Reference>, mutable: set<Field>, day: Date): Option<DeferralError> {
    if !d.active then Some(Inactive)
    else if d.fullyRecognized then Some(FullyRecognized)
    else if AmountDue(d) <= 0 then Some(NothingToRecognize)
    else if Recognition(d.code, day) in references then Some(DayTaken)
    else if !NumberingPasses(mutable) then Some(NumberFrozen)
    else None
  }

  /** The record after one recognition. */
  function Recognized(d: Record): Record {
    var done := d.current + 1 >= d.periods;
    d.(remaining := d.remaining - AmountDue(d), current := d.current + 1,
       fullyRecognized := d.fullyRecognized || done, active := d.active && !done)
  }

  function RecognitionLines(d: Record, amount: int): seq<Line> {
    if d.prepaid then [Line(d.counterpart, amount, 0), Line(d.account, 0, amount)]
    else [Line(d.account, amount, 0), Line(d.counterpart, 0, amount)]
  }

  function RecognitionJournal(d: Record, day: Date): Journal {
    Journal(Posted, Recognition(d.code, day), day, NO_DIMS, RecognitionLines(d, AmountDue(d)), None)
  }

  lemma RecognitionBalances(d: Record, amount: int)
    requires amount > 0
    ensures Balanced(RecognitionLines(d, amount)) && AllValid(RecognitionLines(d, amount))
  {
    var lines := RecognitionLines(d, amount);
    TwoLines(lines[0], lines[1], 0);
    assert lines == [lines[0], lines[1]];
  }

  class Deferral {
    const code: nat
    const prepaid: bool
    const account: nat
    const counterpart: nat
    const original: int
    const recognitionAmount: int
    const periods: int
    var remaining: int
    var current: int
    var active: bool
    var fullyRecognized: bool

    function Value(): Record
      reads this
    {
      Record(code, prepaid, account, counterpart, original, remaining, recognitionAmount, periods, current, active,
             fullyRecognized)
    }

    constructor (code: nat, prepaid: bool, account: nat, counterpart: nat, original: int, recognitionAmount: int,
                 periods: int)
      ensures IsFresh(Value()) && Value().original == original && Value().periods == periods
      ensures Value().recognitionAmount == recognitionAmount && Value().code == code && Value().prepaid == prepaid
      ensures Value().account == account && Value().counterpart == counterpart
    {
      this.code := code;
      this.prepaid, this.account, this.counterpart := prepaid, account, counterpart;
      this.original, this.recognitionAmount, this.periods := original, recognitionAmount, periods;
      remaining, current, active, fullyRecognized := original, 0, true, false;
    }

    /** The journal of one recognition. */
    method PostRecognition(book: JournalBook, today: Date, amount: int) returns (refusal: Option<Error>)
      requires book.Valid() && amount > 0
      modifies book
      ensures book.Valid()
      ensures old(book.IsExact()) ==> book.IsExact()
      ensures refusal == if Recognition(code, today) in old(book.references) then Some(DuplicateReference)
                         else if !NumberingPasses(book.mutable) then Some(FrozenHeader) else None
      ensures refusal.Some? ==> book.Unchanged(old(book.journals), old(book.rows), old(book.references))
      ensures refusal.None? ==>
                && book.journals == old(book.journals)
                     + [Journal(Posted, Recognition(code, today), today, NO_DIMS,
                                RecognitionLines(Value(), amount), None)]
                && book.references == old(book.references) + {Recognition(code, today)}
    {
      var lines;
      if prepaid {
        lines := [Line(counterpart, amount, 0), Line(account, 0, amount)];
      } else {
        lines := [Line(account, amount, 0), Line(counterpart, 0, amount)];
      }
      RecognitionBalances(Value(), amount);
      refusal := book.AppendPosted(Recognition(code, today), today, lines);
    }

    /** One recognition: journal and record change together, or neither does. */
    method RecognizeDeferral(book: JournalBook, today: Date) returns (r: Result<int, DeferralError>)
      requires book.Valid()
      modifies this, book
      ensures book.Valid()
      ensures old(book.IsExact()) ==> book.IsExact()
      ensures match Objection(old(Value()), old(book.references), book.mutable, today)
              case Some(e) =>
                r == Err(e) && Value() == old(Value())
                && book.Unchanged(old(book.journals), old(book.rows), old(book.references))
              case None =>
                && r == Ok(AmountDue(old(Value()))) && Value() == Recognized(old(Value()))
                && book.journals == old(book.journals) + [RecognitionJournal(old(Value()), today)]
                && book.references == old(book.references) + {Recognition(code, today)}
    {
      if !active {
        return Err(Inactive);
      }
      if fullyRecognized {
        return Err(FullyRecognized);
      }
      var amount := if periods - current <= 1 then remaining else recognitionAmount;
      if amount <= 0 {
        return Err(NothingToRecognize);
      }
      var refusal := PostRecognition(book, today, amount);
      if refusal.Some? {
        return Err(if refusal.value == DuplicateReference then DayTaken else NumberFrozen);
      }
      remaining := remaining - amount;
      current := current + 1;
      if current >= periods {
        fullyRecognized, active := true, false;
      }
      return Ok(amount);
    }
  }

  // ---- A whole schedule -----------------------------------------------------------

  predicate IsFresh(d: Record) {
    d.remaining == d.original && d.current == 0 && d.active && !d.fullyRecognized
  }

  /** A record and the references taken around it. */
  datatype Point = Point(record: Record, references: set<Reference>)

  /** Where calls on the given days lead, if all of them succeed. */
  function Calls(p: Point, mutable: set<Field>, days: seq<Date>): Option<Point> {
    if days == [] then Some(p)
    else
      var day := days[|days| - 1];
      match Calls(p, mutable, days[..|days| - 1])
      case Some(before) =>
        if Objection(before.record, before.references, mutable, day).Some? then None
        else Some(Point(Recognized(before.record), before.references + {Recognition(before.record.code, day)}))
      case None => None
  }

  /** The lines of those calls' journals, the last first. */
  function LinesOf(p: Point, mutable: set<Field>, days: seq<Date>): seq<Line> {
    if days == [] then []
    else
      match Calls(p, mutable, days[..|days| - 1])
      case Some(before) =>
        RecognitionLines(before.record, AmountDue(before.record)) + LinesOf(p, mutable, days[..|days| - 1])
      case None => []
  }

  /** Days on which the deferral can be recognised: each free, and no two the same. */
  predicate DaysFree(d: Record, references: set<Reference>, days: seq<Date>) {
    days == []
    || (&& DaysFree(d, references, days[..|days| - 1])
        && Recognition(d.code, days[|days| - 1]) !in references
        && days[|days| - 1] !in days[..|days| - 1])
  }

  function TakenBy(d: Record, days: seq<Date>): set<Reference> {
    set day | day in days :: Recognition(d.code, day)
  }

  /** Nothing but the day and the number can stand against a call of the schedule. */
  predicate Admitted(p: Point, mutable: set<Field>, days: seq<Date>) {
    (days == [] || NumberingPasses(mutable)) && DaysFree(p.record, p.references, days)
  }

  /** The record after `k` periods of the fixed amount. */
  function AfterFixed(d: Record, k: nat): Record {
    if k == 0 then d
    else
      var before := AfterFixed(d, k - 1);
      before.(remaining := before.remaining - d.recognitionAmount, current := before.current + 1)
  }

  lemma {:induction false} AfterFixedIs(d: Record, k: nat)
    ensures AfterFixed(d, k) == d.(remaining := d.remaining - k * d.recognitionAmount, current := d.current + k)
  {
    if k > 0 {
      AfterFixedIs(d, k - 1);
      assert k * d.recognitionAmount == (k - 1) * d.recognitionAmount + d.recognitionAmount;
    }
  }

  lemma FixedStep(d: Record, before: Record, k: nat, references: set<Reference>, mutable: set<Field>, day: Date)
    requires IsFresh(d) && k + 1 < d.periods && before == AfterFixed(d, k)
    ensures Recognized(before) == AfterFixed(d, k + 1) && before.code == d.code
    ensures Objection(before, references, mutable, day).None?
            <==> d.recognitionAmount > 0 && Recognition(d.code, day) !in references && NumberingPasses(mutable)
  {
    AfterFixedIs(d, k);
  }

  /** Before the last period the calls succeed exactly when they are admitted and the fixed
      amount is positive, and each takes just that. */
  lemma {:induction false} EarlyCalls(p: Point, mutable: set<Field>, days: seq<Date>)
    requires IsFresh(p.record) && |days| < p.record.periods
    ensures Calls(p, mutable, days).Some?
            <==> Admitted(p, mutable, days) && (days == [] || p.record.recognitionAmount > 0)
    ensures Calls(p, mutable, days).Some? ==>
              Calls(p, mutable, days).value
              == Point(AfterFixed(p.record, |days|), p.references + TakenBy(p.record, days))
  {
    var d := p.record;
    if days == [] {
      assert p.references + TakenBy(d, []) == p.references;
    } else {
      var init, day := days[..|days| - 1], days[|days| - 1];
      assert days == init + [day];
      EarlyCalls(p, mutable, init);
      TakenOneMore(p, init, day);
      FixedStep(d, AfterFixed(d, |init|), |init|, p.references + TakenBy(d, init), mutable, day);
    }
  }

  /** One more day takes one more reference, and was free exactly when it is new. */
  lemma TakenOneMore(p: Point, init: seq<Date>, day: Date)
    ensures p.references + TakenBy(p.record, init + [day])
         == p.references + TakenBy(p.record, init) + {Recognition(p.record.code, day)}
    ensures Recognition(p.record.code, day) in p.references + TakenBy(p.record, init)
            <==> Recognition(p.record.code, day) in p.references || day in init
  {
    assert forall x :: x in init + [day] <==> x in init || x == day;
  }

  /** A schedule of n periods takes n successful calls exactly when the days are free and
      distinct, the headers take their numbers, the fixed amount is positive (or there is one
      period), and something is left for the last call, which takes it all. */
  lemma {:induction false} CompletesExactlyWhen(p: Point, mutable: set<Field>, days: seq<Date>)
    requires IsFresh(p.record) && |days| == p.record.periods >= 1
    ensures Calls(p, mutable, days).Some?
            <==> && Admitted(p, mutable, days)
                 && (p.record.periods == 1 || p.record.recognitionAmount > 0)
                 && (p.record.periods - 1) * p.record.recognitionAmount < p.record.original
    ensures Calls(p, mutable, days).Some? ==>
              Calls(p, mutable, days).value.record
              == p.record.(remaining := 0, current := p.record.periods, active := false, fullyRecognized := true)
  {
    var init, day := days[..|days| - 1], days[|days| - 1];
    EarlyCalls(p, mutable, init);
    TakenOneMore(p, init, day);
    AfterFixedIs(p.record, |init|);
  }

  /** After the last call the schedule is closed: any further call is refused. */
  lemma {:induction false} NoCallAfterLast(p: Point, mutable: set<Field>, days: seq<Date>)
    requires IsFresh(p.record) && p.record.periods >= 1 && |days| > p.record.periods
    ensures Calls(p, mutable, days).None?
    decreases |days|
  {
    if |days| == p.record.periods + 1 {
      CompletesExactlyWhen(p, mutable, days[..|days| - 1]);
    } else {
      NoCallAfterLast(p, mutable, days[..|days| - 1]);
    }
  }

  /** Under the guard as it stands no call ever succeeds. */
  lemma NoCallAsWritten(p: Point, days: seq<Date>)
    requires days != []
    ensures Calls(p, POST_POSTING_MUTABLE_FIELDS, days).None?
  {
    GuardAsWritten(None, {});
  }

  lemma {:induction false} LineNetConcat(a: seq<Line>, b: seq<Line>, id: nat)
    ensures LineNet(a + b, id) == LineNet(a, id) + LineNet(b, id)
  {
    if a == [] {
      assert a + b == b;
    } else {
      assert (a + b)[1..] == a[1..] + b;
      LineNetConcat(a[1..], b, id);
    }
  }

  /** What recognising an amount moves, signed: a prepaid expense moves from the account to its
      counterpart, deferred revenue the other way. */
  function Moved(d: Record, amount: int, id: nat): int {
    var signed := if d.prepaid then amount else -amount;
    (if id == d.counterpart then signed else 0) - (if id == d.account then signed else 0)
  }

  lemma {:induction false} CallsKeepHeader(p: Point, mutable: set<Field>, days: seq<Date>)
    requires Calls(p, mutable, days).Some?
    ensures var d := Calls(p, mutable, days).value.record;
            && d.prepaid == p.record.prepaid && d.original == p.record.original
            && d.account == p.record.account && d.counterpart == p.record.counterpart
  {
    if days != [] {
      CallsKeepHeader(p, mutable, days[..|days| - 1]);
    }
  }

  /** At every point remaining plus recognised equals original: the accounts moved by exactly
      what remains less. */
  lemma {:induction false} RemainingPlusRecognized(p: Point, mutable: set<Field>, days: seq<Date>, id: nat)
    requires Calls(p, mutable, days).Some?
    ensures LineNet(LinesOf(p, mutable, days), id)
         == Moved(p.record, p.record.remaining - Calls(p, mutable, days).value.record.remaining, id)
  {
    if days != [] {
      var init := days[..|days| - 1];
      var before := Calls(p, mutable, init).value.record;
      RemainingPlusRecognized(p, mutable, init, id);
      CallsKeepHeader(p, mutable, init);
      var lines := RecognitionLines(before, AmountDue(before));
      assert lines == [lines[0], lines[1]];
      TwoLines(lines[0], lines[1], id);
      LineNetConcat(lines, LinesOf(p, mutable, init), id);
    }
  }

  /** A completed schedule has moved both accounts by exactly the original amount. */
  lemma {:induction false} CompletedMovesOriginal(p: Point, mutable: set<Field>, days: seq<Date>, id: nat)
    requires IsFresh(p.record) && |days| == p.record.periods >= 1 && Calls(p, mutable, days).Some?
    ensures LineNet(LinesOf(p, mutable, days), id) == Moved(p.record, p.record.original, id)
  {
    CompletesExactlyWhen(p, mutable, days);
    RemainingPlusRecognized(p, mutable, days, id);
  }
}
