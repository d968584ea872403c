/** The ceiling of a budget row and the outcome of a reservation in the fields of the budget. */
module EncumbranceFigures {
  import opened Wrappers
  import opened Encumbrances

  /** Within a budget's amount, the revised one if there is one, or with an allowance that is
      switched on and positive, within that much more. */
  predicate WithinBudget(b: Budget, committed: int) {
    var amount := if b.revised == 0 then b.original else b.revised;
    if b.allowOver && b.limitPercent > 0.0 then committed as real <= amount as real * (1.0 + b.limitPercent / 100.0)
    else committed <= amount
  }

  lemma CeilingIsBudget(b: Budget, committed: int)
    ensures committed as real <= Ceiling(b) <==> WithinBudget(b, committed)
  {
    var amount := if b.revised == 0 then b.original else b.revised;
    assert amount as real * (1.0 + b.limitPercent / 100.0)
        == amount as real + amount as real * (b.limitPercent / 100.0);
  }

  /** Where a run of actions leads. */
  function Follow(b: Budget, s: State, actions: seq<Action>): State
    requires Formed(s)
    decreases |actions|
  {
    if actions == [] || !Formed(Next(b, s, actions[0])) then s
    else Follow(b, Next(b, s, actions[0]), actions[1..])
  }

  /** After any timely run on a hard-stop budget, what is encumbered and expended is within
      the amount of the budget, or its allowance. */
  lemma {:induction false} RunStaysWithinBudget(b: Budget, s: State, actions: seq<Action>)
    requires Good(b, s) && b.level == HardStop && AllInTime(b, s, actions)
    ensures WithinBudget(b, Encumbered(Follow(b, s, actions).records) + Follow(b, s, actions).expended)
    decreases |actions|
  {
    CeilingIsBudget(b, Committed(s));
    if actions != [] {
      if Act(b, s, actions[0]).Some? {
        ActKeeps(b, s, actions[0]);
      }
      RunStaysWithinBudget(b, Next(b, s, actions[0]), actions[1..]);
    }
  }

  // ---- One reservation, alone -----------------------------------------------------

  function Stepped(b: Budget, s: State, t: nat, n: nat): State
    requires t < |s.txns|
    decreases n
  {
    if n == 0 || Step(b, s, t).None? then s else Stepped(b, Step(b, s, t).value, t, n - 1)
  }

  lemma {:induction false} ReferenceExactlyWhen(records: seq<Record>, reference: nat)
    ensures HasReference(records, reference) <==> exists i :: 0 <= i < |records| && records[i].reference == reference
  {
    if records != [] {
      ReferenceExactlyWhen(records[1..], reference);
      assert forall i :: 0 < i < |records| ==> records[i] == records[1..][i - 1];
    }
  }

  /** A check admits an amount exactly when it fits the budget with what is committed, asks for
      nothing, or the budget is no hard stop. */
  lemma AllowsExactlyWhen(b: Budget, encumbered: int, expended: int, amount: int)
    ensures Allows(b, encumbered, expended, amount)
            <==> b.level != HardStop || amount <= 0 || WithinBudget(b, encumbered + expended + amount)
  {
    CeilingIsBudget(b, encumbered + expended + amount);
  }

  lemma ReadsBoth(b: Budget, s: State, t: nat)
    requires t < |s.txns| && s.holder.None? && s.txns[t].phase.Waiting?
    ensures Stepped(b, s, t, 4)
         == Stepped(b, WithPhase(s, t, ReadBoth(Encumbered(s.records), s.expended)).(holder := Some(t)), t, 1)
  {
    var held := WithPhase(s, t, Holding).(holder := Some(t));
    var one := WithPhase(s, t, ReadOne(Encumbered(s.records))).(holder := Some(t));
    var both := WithPhase(s, t, ReadBoth(Encumbered(s.records), s.expended)).(holder := Some(t));
    assert WithPhase(held, t, ReadOne(Encumbered(s.records))) == one;
    assert WithPhase(one, t, ReadBoth(Encumbered(s.records), s.expended)) == both;
    assert Step(b, s, t) == Some(held) && Step(b, held, t) == Some(one) && Step(b, one, t) == Some(both);
    assert Stepped(b, s, t, 4) == Stepped(b, held, t, 3) == Stepped(b, one, t, 2) == Stepped(b, both, t, 1);
  }

  /** A reservation that nobody interrupts is stored as an active record of its amount exactly
      when its reference is free and its amount fits, asks for nothing, or the budget is no
      hard stop; otherwise nothing is stored.  Either way it is over and the lock is free. */
  lemma {:induction false} ReservedExactlyWhen(b: Budget, s: State, t: nat)
    requires t < |s.txns| && s.holder.None? && s.txns[t].phase.Waiting?
    ensures var x, after := s.txns[t], Stepped(b, s, t, 4);
            var free := forall i :: 0 <= i < |s.records| ==> s.records[i].reference != x.reference;
            var fits := b.level != HardStop || x.amount <= 0
                        || WithinBudget(b, Encumbered(s.records) + s.expended + x.amount);
            && after.txns[t].phase.Over? && after.holder.None? && after.expended == s.expended
            && (!(free && fits) ==> after.records == s.records)
            && (free && fits ==>
                  && |after.records| == |s.records| + 1 && after.records[..|s.records|] == s.records
                  && after.records[|s.records|]
                     == Record(x.reference, x.amount, 0, x.amount, if x.amount > 0 then Active else FullyLiquidated))
  {
    var x := s.txns[t];
    var both := WithPhase(s, t, ReadBoth(Encumbered(s.records), s.expended)).(holder := Some(t));
    ReadsBoth(b, s, t);
    AllowsExactlyWhen(b, Encumbered(s.records), s.expended, x.amount);
    ReferenceExactlyWhen(s.records, x.reference);
    assert Stepped(b, both, t, 1) == Step(b, both, t).value;
  }

  // ---- What is encumbered ---------------------------------------------------------

  /** What one record adds to the encumbered total: what it has left while it is active or
      partially liquidated. */
  lemma {:induction false} RecordCounts(left: seq<Record>, e: Record, right: seq<Record>)
    ensures Encumbered(left + [e] + right)
         == Encumbered(left + right)
            + if e.status == Active || e.status == PartiallyLiquidated then e.amount - e.liquidated else 0
  {
    if left == [] {
      assert left + [e] + right == [e] + right && left + right == right;
    } else {
      assert (left + [e] + right)[1..] == left[1..] + [e] + right && (left + right)[1..] == left[1..] + right;
      RecordCounts(left[1..], e, right);
    }
  }

  // ---- Liquidations and cancellations ---------------------------------------------

  /** A liquidation goes through exactly within what its copy shows left of an active or
      partially liquidated record; it saves the copy over the row, as much more liquidated and
      as much less left, fully liquidated when an active one has nothing left, and posts the
      same amount. */
  lemma LiquidatesExactlyWhen(b: Budget, s: State, c: nat, amount: int)
    requires Formed(s) && c < |s.copies|
    ensures var e, r := s.copies[c].value, Act(b, s, LiquidateAndPost(c, amount));
            && (r.Some? <==> (e.status == Active || e.status == PartiallyLiquidated) && 0 <= amount <= e.remaining)
            && (r.Some? ==>
                  && r.value.expended == s.expended + amount && r.value.txns == s.txns && r.value.holder == s.holder
                  && r.value.records
                     == s.records[s.copies[c].row
                                  := Record(e.reference, e.amount, e.liquidated + amount, e.remaining - amount,
                                            if e.status == PartiallyLiquidated then PartiallyLiquidated
                                            else if e.remaining == amount then FullyLiquidated
                                            else if e.liquidated + amount > 0 then PartiallyLiquidated else Active)])
  {
  }

  /** A reservation begins waiting, last, and reading a record copies it as it is. */
  lemma BeginsAndReads(b: Budget, s: State, reference: nat, amount: int, row: nat)
    requires Formed(s)
    ensures Act(b, s, Begin(reference, amount)) == Some(s.(txns := s.txns + [Consume(reference, amount, Waiting)]))
    ensures Act(b, s, Read(row))
         == if row < |s.records| then Some(s.(copies := s.copies + [Copy(row, s.records[row])])) else None
  {
  }

  /** A cancellation always goes through and leaves the copy's amounts. */
  lemma CancelsAlways(b: Budget, s: State, c: nat)
    requires Formed(s) && c < |s.copies|
    ensures var e, r := s.copies[c].value, Act(b, s, Cancel(c));
            && r.Some? && r.value.expended == s.expended && r.value.txns == s.txns && r.value.holder == s.holder
            && r.value.records == s.records[s.copies[c].row := e.(status := Cancelled)]
  {
  }
}
