/** What posting and reversing accruals write, field by field, and which accruals a bulk
    reversal takes. */
module AccrualFigures {
  import opened Calendar
  import opened JournalHeaders
  import opened Journals
  import opened JournalAmounts
  import opened Wrappers
  import opened YearEnd
  import opened Accruals

  /** The date an accrual names, or the day of the call. */
  predicate DatedOn(date: Date, named: Option<Date>, today: Date) {
    date == if named == None then today else named.value
  }

  /** A posted journal of two lines, `debited` and `credited` by one amount. */
  predicate Moves(j: Journal, reference: Reference, debited: nat, credited: nat, amount: int) {
    && j.status == Posted && j.reference == reference && j.source == None
    && j.dims == Dims(None, None, None, None)
    && |j.lines| == 2
    && ((j.lines[0] == Line(debited, amount, 0) && j.lines[1] == Line(credited, 0, amount))
        || (j.lines[1] == Line(debited, amount, 0) && j.lines[0] == Line(credited, 0, amount)))
  }

  /** What is refused before an accrual's journal is written. */
  predicate Writable(t: Tables, reference: Reference, amount: int) {
    reference !in t.references && DocumentNumber in t.mutable && amount > 0
  }

  /** Posting goes through exactly for an accrual not posted, with a free reference, a positive
      amount and headers that take their numbers.  It debits the account of an expense against
      its counterpart, credits that of revenue, on the posting date or today, and marks the
      accrual. */
  lemma PostWrites(t: Tables, i: nat, today: Date)
    requires i < |t.accruals|
    ensures var a, r := t.accruals[i], PostOne(t, i, today);
            && (r.Ok? <==> !a.posted && Writable(t, AccrualPosting(i), a.amount))
            && (r == Err(PostedAlready) <==> a.posted)
            && (r == Err(CodeTaken) <==> !a.posted && AccrualPosting(i) in t.references)
            && (r == Err(LineRefused)
                <==> !a.posted && AccrualPosting(i) !in t.references && DocumentNumber in t.mutable && a.amount <= 0)
            && r != Err(ReversedAlready) && r != Err(NotYetPosted)
            && (r.Ok? ==>
                  && |r.value.journals| == |t.journals| + 1 && r.value.journals[..|t.journals|] == t.journals
                  && r.value.accruals == t.accruals[i := a.(posted := true)]
                  && r.value.references == t.references + {AccrualPosting(i)} && r.value.mutable == t.mutable
                  && DatedOn(r.value.journals[|t.journals|].date, a.postingDate, today)
                  && Moves(r.value.journals[|t.journals|], AccrualPosting(i),
                           if a.expense then a.account else a.counterpart,
                           if a.expense then a.counterpart else a.account, a.amount))
  {
  }

  /** Reversing goes through exactly for an accrual posted and not reversed, under the same
      conditions, on the reversal date or today, and moves the amount back. */
  lemma ReverseWrites(t: Tables, i: nat, today: Date)
    requires i < |t.accruals|
    ensures var a, r := t.accruals[i], ReverseOne(t, i, today);
            && (r.Ok? <==> a.posted && !a.reversed && Writable(t, AccrualReversal(i), a.amount))
            && (r == Err(ReversedAlready) <==> a.reversed)
            && (r == Err(NotYetPosted) <==> !a.reversed && !a.posted)
            && (r == Err(CodeTaken) <==> a.posted && !a.reversed && AccrualReversal(i) in t.references)
            && (r == Err(LineRefused)
                <==> a.posted && !a.reversed && AccrualReversal(i) !in t.references && DocumentNumber in t.mutable
                     && a.amount <= 0)
            && r != Err(PostedAlready)
            && (r.Ok? ==>
                  && |r.value.journals| == |t.journals| + 1 && r.value.journals[..|t.journals|] == t.journals
                  && r.value.accruals == t.accruals[i := a.(reversed := true)]
                  && r.value.references == t.references + {AccrualReversal(i)} && r.value.mutable == t.mutable
                  && DatedOn(r.value.journals[|t.journals|].date, a.reversalDate, today)
                  && Moves(r.value.journals[|t.journals|], AccrualReversal(i),
                           if a.expense then a.counterpart else a.account,
                           if a.expense then a.account else a.counterpart, a.amount))
  {
  }

  // ---- The bulk reversal ----------------------------------------------------------

  /** An accrual of the period that reverses by itself, is posted and not reversed, and whose
      reversal can be written. */
  predicate Reversible(t: Tables, period: nat, k: nat)
    requires k < |t.accruals|
  {
    var a := t.accruals[k];
    a.period == period && a.autoReverse && a.posted && !a.reversed && Writable(t, AccrualReversal(k), a.amount)
  }

  function CountFrom(t: Tables, period: nat, i: nat): nat
    requires i <= |t.accruals|
    decreases |t.accruals| - i
  {
    if i == |t.accruals| then 0 else (if Reversible(t, period, i) then 1 else 0) + CountFrom(t, period, i + 1)
  }

  /** From row `i` on, exactly the reversible accruals are marked, with one journal each, and
      nothing else changes about any accrual. */
  lemma {:induction false} BulkReverses(t: Tables, period: nat, today: Date, i: nat)
    requires i <= |t.accruals|
    ensures var after := ReverseFrom(t, period, today, i);
            && |after.accruals| == |t.accruals| && after.mutable == t.mutable
            && (forall k :: 0 <= k < |t.accruals| ==>
                  after.accruals[k]
                  == if k >= i && Reversible(t, period, k) then t.accruals[k].(reversed := true) else t.accruals[k])
            && |after.journals| == |t.journals| + CountFrom(t, period, i)
            && after.journals[..|t.journals|] == t.journals
    decreases |t.accruals| - i
  {
    if i < |t.accruals| {
      var next := if Due(t.accruals[i], period) then OrSame(ReverseOne(t, i, today), t) else t;
      ReverseWrites(t, i, today);
      BulkReverses(next, period, today, i + 1);
      CountAlike(t, next, period, i + 1, i);
      assert forall k :: i + 1 <= k < |t.accruals| ==> (Reversible(next, period, k) <==> Reversible(t, period, k));
    }
  }

  lemma {:induction false} CountAlike(t: Tables, u: Tables, period: nat, i: nat, written: nat)
    requires |u.accruals| == |t.accruals| && u.mutable == t.mutable && written < i <= |t.accruals|
    requires forall k :: i <= k < |t.accruals| ==> u.accruals[k] == t.accruals[k]
    requires u.references == t.references || u.references == t.references + {AccrualReversal(written)}
    ensures CountFrom(u, period, i) == CountFrom(t, period, i)
    decreases |t.accruals| - i
  {
    if i < |t.accruals| {
      CountAlike(t, u, period, i + 1, written);
    }
  }

  // ---- Runs and the ledger --------------------------------------------------------

  /** A run does its actions one after another: a posting, a reversal or a bulk reversal, each
      without effect when it is refused or its accrual does not exist. */
  lemma RunDoesEach(t: Tables, i: nat, period: nat, today: Date, rest: seq<Action>)
    ensures Run(t, []) == t
    ensures Run(t, [Post(i, today)] + rest)
         == if i < |t.accruals| && PostOne(t, i, today).Ok? then Run(PostOne(t, i, today).value, rest) else Run(t, rest)
    ensures Run(t, [Reverse(i, today)] + rest)
         == if i < |t.accruals| && ReverseOne(t, i, today).Ok? then Run(ReverseOne(t, i, today).value, rest)
            else Run(t, rest)
    ensures Run(t, [ReverseDue(period, today)] + rest) == Run(ReverseFrom(t, period, today, 0), rest)
  {
    assert ([Post(i, today)] + rest)[1..] == rest && ([Reverse(i, today)] + rest)[1..] == rest;
    assert ([ReverseDue(period, today)] + rest)[1..] == rest;
  }

  lemma {:induction false} LineNetIsSides(lines: seq<Line>, id: nat)
    ensures LineNet(lines, id) == DebitOn(lines, id) - CreditOn(lines, id)
  {
    if lines != [] {
      LineNetIsSides(lines[1..], id);
    }
  }

  /** The ledger's net on an account is what posted journals debit less what they credit. */
  lemma JournalsNetIsPosted(js: seq<Journal>, j: Journal, id: nat)
    ensures JournalsNet([], id) == 0
    ensures JournalsNet(js + [j], id)
         == JournalsNet(js, id) + if j.status == Posted then DebitOn(j.lines, id) - CreditOn(j.lines, id) else 0
  {
    assert (js + [j])[..|js|] == js;
    LineNetIsSides(j.lines, id);
  }

  /** What the accruals that stand have put on an account: the amount, on one side of an
      expense's account and the other side of its counterpart, the other way for revenue. */
  lemma OutstandingIsPosted(accruals: seq<Accrual>, a: Accrual, id: nat)
    ensures OutstandingEffect([], id) == 0
    ensures OutstandingEffect([a] + accruals, id)
         == OutstandingEffect(accruals, id)
            + if !a.posted || a.reversed || a.account == a.counterpart then 0
              else if id == a.account then (if a.expense then a.amount else -a.amount)
              else if id == a.counterpart then (if a.expense then -a.amount else a.amount)
              else 0
  {
    assert ([a] + accruals)[1..] == accruals;
  }
}
