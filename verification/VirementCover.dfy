/** When concurrent spends and virements overdraw no line: exactly when no lenient rule lets
    a spend through beyond the balance it meets. */
module VirementCover {
  import opened VirementProtocol

  ghost predicate NeverOverdrawn(approved: seq<int>, spends: seq<Spend>) {
    forall line :: 0 <= line < |approved| ==> Available(approved, spends, line) >= 0
  }

  /** A spend that is posted was covered by the balance of its line. */
  predicate Covered(s: State, a: Action)
    requires Formed(s)
  {
    a.Advance? && a.txn < |s.txns| && s.txns[a.txn].Spending? && s.txns[a.txn].stands == Admitted ==>
      var x := s.txns[a.txn];
      x.line < |s.approved| && x.sum <= Available(s.approved, s.spends, x.line)
  }

  /** No source is overdrawn by an apply. */
  lemma {:induction false} CommitOverdrawsNothing(s: State, t: nat, initial: seq<int>)
    requires Sane(s, initial) && Commits(s, t) && NeverOverdrawn(s.approved, s.spends)
    ensures NeverOverdrawn(Commit(s, t).approved, s.spends)
  {
    var after := Commit(s, t).approved;
    assert StillTrue(s.txns[t], s.approved, s.spends);
    forall line: nat | line < |after| ensures Available(after, s.spends, line) >= 0 {
      assert Available(s.approved, s.spends, line) >= 0;
    }
  }

  lemma {:induction false} PostOverdrawsExactlyWhen(approved: seq<int>, spends: seq<Spend>, x: Spend)
    requires NeverOverdrawn(approved, spends) && x.line < |approved| && (x.stage == Active || x.stage == Direct)
    ensures NeverOverdrawn(approved, spends + [x]) <==> x.amount <= Available(approved, spends, x.line)
  {
    TotalsAppend(spends, x, x.line);
    assert Available(approved, spends + [x], x.line) == Available(approved, spends, x.line) - x.amount;
    forall line: nat | line < |approved| && line != x.line ensures Available(approved, spends + [x], line) >= 0 {
      assert Available(approved, spends, line) >= 0;
      TotalsAppend(spends, x, line);
    }
  }

  lemma {:induction false} MoveOverdrawsNothing(approved: seq<int>, spends: seq<Spend>, i: nat, stage: Stage)
    requires NeverOverdrawn(approved, spends) && i < |spends| && spends[i].stage != Direct && stage != Direct
    ensures NeverOverdrawn(approved, spends[i := spends[i].(stage := stage)])
  {
    var after := spends[i := spends[i].(stage := stage)];
    forall line: nat | line < |approved| ensures Available(approved, after, line) >= 0 {
      assert Available(approved, spends, line) >= 0;
      MoveKeepsAvailable(approved, spends, i, stage, line);
    }
  }

  /** Each action leaves every line covered exactly when the spend it posts, if any, was. */
  lemma {:induction false} ActCoversExactlyWhen(s: State, a: Action, initial: seq<int>)
    requires Sane(s, initial) && NeverOverdrawn(s.approved, s.spends) && Act(s, a).Some?
    ensures NeverOverdrawn(Act(s, a).value.approved, Act(s, a).value.spends) <==> Covered(s, a)
  {
    match a {
      case Move(i, stage) => MoveOverdrawsNothing(s.approved, s.spends, i, stage);
      case Advance(t) =>
        var x := s.txns[t];
        assert TxnFormed(x, s.virements, |s.approved|);
        if Commits(s, t) {
          CommitOverdrawsNothing(s, t, initial);
        } else if x.Spending? && x.stands == Admitted {
          PostOverdrawsExactlyWhen(s.approved, s.spends, Posted(x));
        }
      case _ =>
    }
  }

  ghost predicate CoveredThroughout(s: State, actions: seq<Action>)
    requires Formed(s)
    decreases |actions|
  {
    actions == []
    || (var next := Next(s, actions[0]);
        NeverOverdrawn(next.approved, next.spends) && Formed(next) && CoveredThroughout(next, actions[1..]))
  }

  ghost predicate AllCovered(s: State, actions: seq<Action>)
    requires Formed(s)
    decreases |actions|
  {
    actions == []
    || (&& (Act(s, actions[0]).Some? ==> Covered(s, actions[0])) && Formed(Next(s, actions[0]))
        && AllCovered(Next(s, actions[0]), actions[1..]))
  }

  /** In any interleaving, every available balance stays non-negative exactly when every
      posted spend was covered by the balance it met. */
  lemma {:induction false} RunCoversExactlyWhen(s: State, actions: seq<Action>, initial: seq<int>)
    requires Sane(s, initial) && NeverOverdrawn(s.approved, s.spends)
    ensures CoveredThroughout(s, actions) <==> AllCovered(s, actions)
    decreases |actions|
  {
    if actions != [] {
      var next := Next(s, actions[0]);
      if Act(s, actions[0]).Some? {
        ActKeeps(s, actions[0], initial);
        ActCoversExactlyWhen(s, actions[0], initial);
      }
      if NeverOverdrawn(next.approved, next.spends) {
        RunCoversExactlyWhen(next, actions[1..], initial);
      }
    }
  }

  predicate StrictSpends(actions: seq<Action>) {
    actions == []
    || ((actions[0].BeginSpend? ==> !Gate.Lenient(actions[0].terms)) && StrictSpends(actions[1..]))
  }

  predicate StrictTxns(txns: seq<Txn>) {
    forall t :: 0 <= t < |txns| && txns[t].Spending? ==> !Gate.Lenient(txns[t].terms)
  }

  lemma {:induction false} StrictActKeeps(s: State, a: Action, initial: seq<int>)
    requires Sane(s, initial) && StrictTxns(s.txns) && StrictSpends([a]) && Act(s, a).Some?
    ensures StrictTxns(Act(s, a).value.txns) && Covered(s, a)
  {
    if a.Advance? {
      assert StillTrue(s.txns[a.txn], s.approved, s.spends);
      StepMovesOne(s, a.txn);
    }
  }

  /** With every spend under a strict rule, or under none, no line is ever overdrawn. */
  lemma {:induction false} StrictRunsStayCovered(s: State, actions: seq<Action>, initial: seq<int>)
    requires Sane(s, initial) && NeverOverdrawn(s.approved, s.spends) && StrictTxns(s.txns) && StrictSpends(actions)
    ensures CoveredThroughout(s, actions)
    decreases |actions|
  {
    if actions != [] {
      var next := Next(s, actions[0]);
      if Act(s, actions[0]).Some? {
        ActKeeps(s, actions[0], initial);
        StrictActKeeps(s, actions[0], initial);
        ActCoversExactlyWhen(s, actions[0], initial);
      }
      StrictRunsStayCovered(next, actions[1..], initial);
    }
  }
}
