/** When the transactions already begun can finish by their own steps, with no new request to
    help them. */
module VirementOwnSteps {
  import opened Wrappers
  import opened VirementProtocol
  import opened VirementProgress
  import opened VirementFinish

  /** Only steps of transactions. */
  predicate OnlySteps(schedule: seq<Action>) {
    forall i :: 0 <= i < |schedule| ==> schedule[i].Advance?
  }

  ghost predicate FinishableAlone(s: State) {
    exists schedule :: OnlySteps(schedule) && AllFinished(Run(s, schedule).txns)
  }

  /** A direct approval that holds its target and still wants its source, whose balance decides
      whether it gives the target back. */
  predicate Exposing(x: Txn) {
    x.Applying? && x.unlocked && x.at == HaveLow && x.target < x.source
  }

  predicate ExposedPair(s: State, x: Txn, y: Txn) {
    Exposing(x) && Bound(s, y) && x.virement == y.virement
  }

  ghost predicate Exposed(s: State) {
    exists d, r :: 0 <= d < |s.txns| && 0 <= r < |s.txns| && ExposedPair(s, s.txns[d], s.txns[r])
  }

  /** It can take its source at once and is refused. */
  predicate Escapes(s: State, x: Txn)
    requires x.Applying?
  {
    LineRow(x.source) !in s.locks && !Funded(s, x)
  }

  /** Whether such an approval is refused hangs on which of the spends and approvals under way
      come first. */
  ghost predicate Undecided(s: State) {
    exists d, r :: 0 <= d < |s.txns| && 0 <= r < |s.txns| && ExposedPair(s, s.txns[d], s.txns[r])
      && !Escapes(s, s.txns[d])
  }

  // ---- While nothing is exposed ---------------------------------------------------

  /** The steps that can expose: a receiver taking the row, a direct approval its first line. */
  lemma {:induction false} StepExposes(s: State, t: nat, d: nat, r: nat, initial: seq<int>)
    requires Sane(s, initial) && Step(s, t).Some? && d < |s.txns| && r < |s.txns|
    requires !ExposedPair(s, s.txns[d], s.txns[r])
    requires ExposedPair(Step(s, t).value, Step(s, t).value.txns[d], Step(s, t).value.txns[r])
    ensures || (t == r && s.txns[r].at == Start && Exposing(s.txns[d]))
            || (t == d && Bound(s, s.txns[r]) && s.txns[d].at == Checked)
  {
    StepMovesOne(s, t);
    assert TxnFormed(s.txns[t], s.virements, |s.approved|);
    if t != r {
      FateStays(s, t, r, initial);
    }
  }

  lemma {:induction false} ShelteredExposesNobody(s: State, m: nat, initial: seq<int>)
    requires Sane(s, initial) && !Exposed(s) && Step(s, m).Some? && Sheltered(s.txns[m])
    ensures !Exposed(Step(s, m).value)
  {
    var next := Step(s, m).value;
    StepMovesOne(s, m);
    if Exposed(next) {
      var d, r :| 0 <= d < |next.txns| && 0 <= r < |next.txns| && ExposedPair(next, next.txns[d], next.txns[r]);
      assert !ExposedPair(s, s.txns[d], s.txns[r]);
      StepExposes(s, m, d, r, initial);
    }
  }

  lemma ExposingHoldsLine(s: State)
    ensures forall d :: 0 <= d < |s.txns| && Exposing(s.txns[d]) ==> LineHeld(s)
  {
    forall d | 0 <= d < |s.txns| && Exposing(s.txns[d]) ensures LineHeld(s) {
      assert Holds(s.txns[d], LineRow(Low(s.txns[d])));
    }
  }

  lemma {:induction false} UnobstructedExposesNobody(s: State, m: nat, initial: seq<int>)
    requires Sane(s, initial) && Step(s, m).Some? && Unobstructed(s, m)
    ensures !Exposed(Step(s, m).value)
  {
    var next := Step(s, m).value;
    StepMovesOne(s, m);
    ExposingHoldsLine(s);
    BoundHoldsRow(s, initial);
    assert TxnFormed(s.txns[m], s.virements, |s.approved|);
    if Exposed(next) {
      var d, r :| 0 <= d < |next.txns| && 0 <= r < |next.txns| && ExposedPair(next, next.txns[d], next.txns[r]);
      StepExposes(s, m, d, r, initial);
    }
  }

  /** Where nothing is exposed, a step past the first ones never dooms. */
  lemma {:induction false} UnexposedIsSafe(s: State, m: nat, initial: seq<int>)
    requires Sane(s, initial) && !Doomed(s) && !Exposed(s) && Step(s, m).Some? && Sheltered(s.txns[m])
    ensures !Doomed(Step(s, m).value)
  {
    var next := Step(s, m).value;
    StepMovesOne(s, m);
    if Doomed(next) {
      var d, r :| 0 <= d < |next.txns| && 0 <= r < |next.txns| && DoomedPair(next, next.txns[d], next.txns[r]);
      assert !DoomedPair(s, s.txns[d], s.txns[r]) && !ExposedPair(s, s.txns[d], s.txns[r]);
      StepDooms(s, m, d, r, initial);
    }
  }

  /** A step that keeps clear of doom and exposure. */
  lemma {:induction false} ClearStep(s: State, initial: seq<int>) returns (m: nat)
    requires Sane(s, initial) && !Doomed(s) && !Exposed(s) && AllRemaining(s.txns) > 0
    ensures Step(s, m).Some? && Sane(Step(s, m).value, initial)
    ensures !Doomed(Step(s, m).value) && !Exposed(Step(s, m).value)
    ensures AllRemaining(Step(s, m).value.txns) < AllRemaining(s.txns)
  {
    var t := UnfinishedRemains(s.txns);
    m := Mover(s, t, initial);
    if Sheltered(s.txns[m]) {
      UnexposedIsSafe(s, m, initial);
      ShelteredExposesNobody(s, m, initial);
    } else {
      FirstStepIsSafe(s, m, initial);
      UnobstructedExposesNobody(s, m, initial);
    }
    StepKeeps(s, m, initial);
    StepShortens(s, m);
  }

  lemma {:induction false} UnexposedFinishes(s: State, initial: seq<int>) returns (schedule: seq<Action>)
    requires Sane(s, initial) && !Doomed(s) && !Exposed(s)
    ensures OnlySteps(schedule) && AllFinished(Run(s, schedule).txns)
    decreases AllRemaining(s.txns)
  {
    if AllRemaining(s.txns) == 0 {
      NothingRemains(s.txns);
      schedule := [];
    } else {
      var m := ClearStep(s, initial);
      var rest := UnexposedFinishes(Step(s, m).value, initial);
      RunAdvances(s, m, rest);
      schedule := [Advance(m)] + rest;
    }
  }

  // ---- Out of an exposure that is decided -----------------------------------------

  function BothTaken(s: State, d: nat): State
    requires d < |s.txns| && s.txns[d].Applying?
  {
    s.(locks := s.locks[LineRow(s.txns[d].source) := d], txns := s.txns[d := s.txns[d].(at := HaveBoth)])
  }

  /** It takes its source, is refused, and lets both lines go. */
  lemma {:induction false} EscapeTakesTwoSteps(s: State, d: nat, initial: seq<int>)
    requires Sane(s, initial) && d < |s.txns| && Exposing(s.txns[d]) && Escapes(s, s.txns[d])
    ensures Step(s, d) == Some(BothTaken(s, d)) && Sane(BothTaken(s, d), initial)
    ensures Step(BothTaken(s, d), d) == Some(End(BothTaken(s, d), d))
  {
    assert TxnFormed(s.txns[d], s.virements, |s.approved|);
    StepKeeps(s, d, initial);
  }

  lemma {:induction false} EscapeDecidesOthersAlike(s: State, d: nat)
    requires d < |s.txns| && Exposing(s.txns[d]) && !Doomed(s) && !Undecided(s)
    ensures !Doomed(End(BothTaken(s, d), d)) && !Undecided(End(BothTaken(s, d), d))
  {
    var after := End(BothTaken(s, d), d);
    assert forall u :: 0 <= u < |s.txns| && u != d ==> after.txns[u] == s.txns[u];
    assert forall r :: r in after.locks ==> r in s.locks;
    forall x, y | 0 <= x < |after.txns| && 0 <= y < |after.txns|
      ensures !DoomedPair(after, after.txns[x], after.txns[y])
      ensures ExposedPair(after, after.txns[x], after.txns[y]) ==> Escapes(after, after.txns[x])
    {
      if x != d && y != d {
        assert !DoomedPair(s, s.txns[x], s.txns[y]);
        assert ExposedPair(s, s.txns[x], s.txns[y]) ==> Escapes(s, s.txns[x]);
      }
    }
  }

  lemma {:induction false} EscapeShortens(s: State, d: nat, initial: seq<int>)
    requires Sane(s, initial) && d < |s.txns| && Exposing(s.txns[d]) && Escapes(s, s.txns[d])
    ensures Sane(End(BothTaken(s, d), d), initial)
    ensures AllRemaining(End(BothTaken(s, d), d).txns) < AllRemaining(s.txns)
  {
    EscapeTakesTwoSteps(s, d, initial);
    StepShortens(s, d);
    StepKeeps(BothTaken(s, d), d, initial);
    StepShortens(BothTaken(s, d), d);
  }

  lemma {:induction false} DecidedFinishes(s: State, initial: seq<int>) returns (schedule: seq<Action>)
    requires Sane(s, initial) && !Doomed(s) && !Undecided(s)
    ensures OnlySteps(schedule) && AllFinished(Run(s, schedule).txns)
    decreases AllRemaining(s.txns)
  {
    if Exposed(s) {
      var d, r :| 0 <= d < |s.txns| && 0 <= r < |s.txns| && ExposedPair(s, s.txns[d], s.txns[r]);
      EscapeTakesTwoSteps(s, d, initial);
      EscapeDecidesOthersAlike(s, d);
      EscapeShortens(s, d, initial);
      var rest := DecidedFinishes(End(BothTaken(s, d), d), initial);
      RunAdvances(BothTaken(s, d), d, rest);
      RunAdvances(s, d, [Advance(d)] + rest);
      schedule := [Advance(d)] + ([Advance(d)] + rest);
    } else {
      schedule := UnexposedFinishes(s, initial);
    }
  }

  // ---- Exactly when ---------------------------------------------------------------

  /** Where no direct approval's fate is undecided, those that have begun can finish by
      themselves exactly when nobody is doomed. */
  lemma {:induction false} FinishableAloneExactlyWhen(s: State, initial: seq<int>)
    requires Sane(s, initial) && !Undecided(s)
    ensures FinishableAlone(s) <==> !Doomed(s)
  {
    if Doomed(s) {
      FinishableExactlyWhen(s, initial);
    } else {
      var schedule := DecidedFinishes(s, initial);
    }
  }

  /** An undecided state is finishable alone exactly when its own steps can decide it well. */
  lemma {:induction false} FinishableAloneWhenDecided(s: State, initial: seq<int>)
    requires Sane(s, initial)
    ensures FinishableAlone(s)
            <==> exists first :: OnlySteps(first) && !Undecided(Run(s, first)) && !Doomed(Run(s, first))
  {
    if first :| OnlySteps(first) && !Undecided(Run(s, first)) && !Doomed(Run(s, first)) {
      RunIsSane(s, first, initial);
      var rest := DecidedFinishes(Run(s, first), initial);
      RunJoin(s, first, rest, initial);
      assert OnlySteps(first + rest);
    }
    if FinishableAlone(s) {
      var schedule :| OnlySteps(schedule) && AllFinished(Run(s, schedule).txns);
      assert !Undecided(Run(s, schedule)) && !Doomed(Run(s, schedule));
    }
  }

  /** Without a receiver past its first step, as the service is wired, all can finish. */
  lemma {:induction false} WithoutReceiversAllFinish(s: State, initial: seq<int>)
    requires Sane(s, initial)
    requires forall t :: 0 <= t < |s.txns| && s.txns[t].Applying? && !s.txns[t].unlocked ==>
               s.txns[t].at == Start || s.txns[t].at == Over
    ensures FinishableAlone(s)
  {
    FinishableAloneExactlyWhen(s, initial);
  }
}
