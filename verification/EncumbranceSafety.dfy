/** When a budget row stays within its ceiling whatever timely actions follow: exactly when
    what is committed and what the reservation under way may still add fit together. */
module EncumbranceSafety {
  import opened Wrappers
  import opened Encumbrances

  /** Copies are of their rows' references, and only the holder of the lock is past waiting
      for it. */
  ghost predicate Tidy(s: State) {
    && Formed(s) && AllSettled(s.records)
    && (forall c :: 0 <= c < |s.copies| ==> s.copies[c].value.reference == s.records[s.copies[c].row].reference)
    && (forall t :: 0 <= t < |s.txns| && s.txns[t].phase != Waiting && s.txns[t].phase != Over ==> s.holder == Some(t))
  }

  function Reservation(x: Consume): Record {
    Saved(Record(x.reference, x.amount, 0, 0, Active))
  }

  /** What a reservation will add, going by what it has read so far, with `posted` more
      expended than now. */
  function Adds(b: Budget, s: State, x: Consume, posted: int): int {
    var passes :=
      match x.phase
      case ReadOne(e) => Allows(b, e, s.expended + posted, x.amount)
      case ReadBoth(e, spent) => Allows(b, e, spent, x.amount)
      case _ => false;
    if passes && !HasReference(s.records, x.reference) then Reserved(Reservation(x)) else 0
  }

  function Underway(b: Budget, s: State, posted: int): int {
    if s.holder.Some? && s.holder.value < |s.txns| then Adds(b, s, s.txns[s.holder.value], posted) else 0
  }

  /** Committed and underway fit under the ceiling. */
  predicate Fits(b: Budget, s: State) {
    (Committed(s) + Underway(b, s, 0)) as real <= Ceiling(b)
  }

  /** Whatever timely actions follow, the budget stays within its ceiling. */
  ghost predicate Safe(b: Budget, s: State)
    requires Formed(s)
  {
    forall more: seq<Action> :: AllInTime(b, s, more) ==> WithinThroughout(b, s, more)
  }

  // ---- Timely actions keep the fit ------------------------------------------------

  lemma {:induction false} ReferencesStay(records: seq<Record>, i: nat, e: Record, reference: nat)
    requires i < |records| && e.reference == records[i].reference
    ensures HasReference(records[i := e], reference) == HasReference(records, reference)
  {
    if i == 0 {
      assert records[i := e][1..] == records[1..];
    } else {
      assert records[i := e][1..] == records[1..][i - 1 := e];
      ReferencesStay(records[1..], i - 1, e, reference);
    }
  }

  /** Once it has read the first total, what a reservation may add still fits. */
  lemma AllowedFits(b: Budget, s: State, x: Consume)
    requires b.level == HardStop && Committed(s) as real <= Ceiling(b)
    requires x.phase == ReadOne(Encumbered(s.records))
    ensures (Committed(s) + Adds(b, s, x, 0)) as real <= Ceiling(b)
  {
  }

  lemma {:induction false} StepFits(b: Budget, s: State, t: nat)
    requires Tidy(s) && Fits(b, s) && b.level == HardStop && t < |s.txns| && Step(b, s, t).Some?
    ensures Tidy(Step(b, s, t).value) && Fits(b, Step(b, s, t).value)
  {
    var x := s.txns[t];
    EncumberedAppend(s.records, Reservation(x));
    if x.phase == Holding {
      AllowedFits(b, Step(b, s, t).value, x.(phase := ReadOne(Encumbered(s.records))));
    }
  }

  /** A save moves what is committed; a posting never lets a reservation add more. */
  lemma {:induction false} SaveFits(b: Budget, s: State, a: Action)
    requires Tidy(s) && b.level == HardStop && (a.Cancel? || a.LiquidateAndPost?) && Act(b, s, a).Some?
    ensures Tidy(Act(b, s, a).value)
    ensures Underway(b, Act(b, s, a).value, 0) == Underway(b, s, if a.Cancel? then 0 else a.amount)
    ensures Underway(b, Act(b, s, a).value, 0) <= Underway(b, s, 0)
  {
    var row, value := s.copies[a.copy].row, s.copies[a.copy].value;
    var saved := if a.Cancel? then CancelledRecord(value) else Liquidated(value, a.amount);
    forall reference: nat
      ensures HasReference(s.records[row := saved], reference) == HasReference(s.records, reference)
    {
      ReferencesStay(s.records, row, saved, reference);
    }
  }

  lemma {:induction false} TimelyFits(b: Budget, s: State, a: Action)
    requires Tidy(s) && Fits(b, s) && b.level == HardStop && Act(b, s, a).Some? && InTime(s, a)
    ensures Tidy(Act(b, s, a).value) && Fits(b, Act(b, s, a).value)
  {
    match a
    case Begin(_, _) =>
    case Advance(t) => StepFits(b, s, t);
    case Read(_) =>
    case Cancel(_) =>
      SaveFits(b, s, a);
      SaveRaisesExactlyWhen(b, s, a);
    case LiquidateAndPost(_, _) =>
      SaveFits(b, s, a);
      SaveRaisesExactlyWhen(b, s, a);
  }

  lemma {:induction false} FittingRunsStayWithin(b: Budget, s: State, actions: seq<Action>)
    requires Tidy(s) && Fits(b, s) && b.level == HardStop && AllInTime(b, s, actions)
    ensures WithinThroughout(b, s, actions)
    decreases |actions|
  {
    ReservesNothingNegative(b, s);
    if actions != [] {
      if Act(b, s, actions[0]).Some? {
        TimelyFits(b, s, actions[0]);
      }
      FittingRunsStayWithin(b, Next(b, s, actions[0]), actions[1..]);
    }
  }

  lemma ReservesNothingNegative(b: Budget, s: State)
    ensures Underway(b, s, 0) >= 0
  {
  }

  // ---- What does not fit can break the ceiling ------------------------------------

  /** The reservation under way completes and takes more than there is. */
  lemma {:induction false} LastStepBreaks(b: Budget, s: State, t: nat) returns (more: seq<Action>)
    requires Tidy(s) && b.level == HardStop && !Fits(b, s) && s.holder == Some(t) && t < |s.txns|
    requires s.txns[t].phase.ReadBoth?
    ensures AllInTime(b, s, more) && !WithinThroughout(b, s, more)
  {
    more := [Advance(t)];
    var next := Next(b, s, Advance(t));
    EncumberedAppend(s.records, Reservation(s.txns[t]));
    assert more[1..] == [] && AllInTime(b, next, []);
    assert WithinThroughout(b, next, []) <==> Committed(next) as real <= Ceiling(b);
  }

  lemma {:induction false} UnfitIsNotSafe(b: Budget, s: State)
    requires Tidy(s) && b.level == HardStop && !Fits(b, s)
    ensures !Safe(b, s)
  {
    if Committed(s) as real > Ceiling(b) {
      assert AllInTime(b, s, []) && !WithinThroughout(b, s, []);
    } else {
      var t := s.holder.value;
      if s.txns[t].phase.ReadBoth? {
        var more := LastStepBreaks(b, s, t);
      } else {
        var next := Next(b, s, Advance(t));
        var more := LastStepBreaks(b, next, t);
        var longer := [Advance(t)] + more;
        assert longer[1..] == more;
        assert AllInTime(b, s, longer) && !WithinThroughout(b, s, longer);
      }
    }
  }

  /** A budget row is safe exactly when what is committed and what is under way fit. */
  lemma {:induction false} SafeExactlyWhen(b: Budget, s: State)
    requires Tidy(s) && b.level == HardStop
    ensures Safe(b, s) <==> Fits(b, s)
  {
    if Fits(b, s) {
      forall more | AllInTime(b, s, more) ensures WithinThroughout(b, s, more) {
        FittingRunsStayWithin(b, s, more);
      }
    } else {
      UnfitIsNotSafe(b, s);
    }
  }

  // ---- Late liquidations ----------------------------------------------------------

  /** What a liquidation adds to what is committed: what its copy shows reserved beyond what
      its row still reserves. */
  function Rise(s: State, a: Action): int
    requires Formed(s)
  {
    if a.LiquidateAndPost? && a.copy < |s.copies|
    then Reserved(s.copies[a.copy].value) - Reserved(s.records[s.copies[a.copy].row])
    else 0
  }

  lemma {:induction false} LiquidationRises(b: Budget, s: State, a: Action)
    requires Formed(s) && a.LiquidateAndPost? && Act(b, s, a).Some?
    ensures Committed(Act(b, s, a).value) == Committed(s) + Rise(s, a)
  {
    var value := s.copies[a.copy].value;
    EncumberedUpdate(s.records, s.copies[a.copy].row, Liquidated(value, a.amount));
  }

  /** An action is timely, or it is a late liquidation whose rise still finds room beside what
      the reservation under way may add once the liquidation is posted. */
  predicate HasRoom(b: Budget, s: State, a: Action)
    requires Formed(s)
  {
    InTime(s, a)
    || (a.LiquidateAndPost? && (Committed(s) + Rise(s, a) + Underway(b, s, a.amount)) as real <= Ceiling(b))
  }

  lemma {:induction false} ActKeepsTidy(b: Budget, s: State, a: Action)
    requires Tidy(s) && Fits(b, s) && b.level == HardStop && Act(b, s, a).Some?
    ensures Tidy(Act(b, s, a).value)
  {
    if InTime(s, a) {
      TimelyFits(b, s, a);
    } else {
      SaveFits(b, s, a);
    }
  }

  /** From a safe row, an action leaves it safe, now and under every timely continuation,
      exactly when it has room. */
  lemma {:induction false} ActIsSafeExactlyWhen(b: Budget, s: State, a: Action)
    requires Tidy(s) && b.level == HardStop && Safe(b, s) && Act(b, s, a).Some?
    ensures Tidy(Act(b, s, a).value)
    ensures Safe(b, Act(b, s, a).value) <==> HasRoom(b, s, a)
  {
    SafeExactlyWhen(b, s);
    ActKeepsTidy(b, s, a);
    SafeExactlyWhen(b, Act(b, s, a).value);
    if InTime(s, a) {
      TimelyFits(b, s, a);
    } else {
      LiquidationRises(b, s, a);
      SaveFits(b, s, a);
    }
  }

  ghost predicate SafeThroughout(b: Budget, s: State, actions: seq<Action>)
    requires Formed(s)
    decreases |actions|
  {
    && Safe(b, s)
    && (actions == [] || (Formed(Next(b, s, actions[0])) && SafeThroughout(b, Next(b, s, actions[0]), actions[1..])))
  }

  ghost predicate AllHaveRoom(b: Budget, s: State, actions: seq<Action>)
    requires Formed(s)
    decreases |actions|
  {
    actions == []
    || (&& (Act(b, s, actions[0]).Some? ==> HasRoom(b, s, actions[0])) && Formed(Next(b, s, actions[0]))
        && AllHaveRoom(b, Next(b, s, actions[0]), actions[1..]))
  }

  /** Over any interleaving on one hard-stop budget, every point is safe exactly when every
      action that went through had room. */
  lemma {:induction false} RunIsSafeExactlyWhen(b: Budget, s: State, actions: seq<Action>)
    requires Tidy(s) && b.level == HardStop && Safe(b, s)
    ensures SafeThroughout(b, s, actions) <==> AllHaveRoom(b, s, actions)
    decreases |actions|
  {
    if actions != [] {
      var next := Next(b, s, actions[0]);
      if Act(b, s, actions[0]).Some? {
        ActIsSafeExactlyWhen(b, s, actions[0]);
      }
      if Safe(b, next) {
        RunIsSafeExactlyWhen(b, next, actions[1..]);
      }
    }
  }

  /** Safe at every point is within the ceiling at every point. */
  lemma {:induction false} SafeRunsStayWithin(b: Budget, s: State, actions: seq<Action>)
    requires Formed(s) && SafeThroughout(b, s, actions)
    ensures WithinThroughout(b, s, actions)
    decreases |actions|
  {
    assert AllInTime(b, s, []) && WithinThroughout(b, s, []);
    if actions != [] {
      SafeRunsStayWithin(b, Next(b, s, actions[0]), actions[1..]);
    }
  }
}
