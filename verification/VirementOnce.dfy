/** When concurrent approvals and status changes apply each virement at most once and leave
    final virements final: exactly when no write lands on a row that has become final since
    its copy was read. */
module VirementOnce {
  import opened AuditTrail
  import opened VirementProtocol

  /** An action that writes a status does so on a row that is not final, or rejects one that
      is rejected already. */
  predicate Timely(s: State, a: Action)
    requires Formed(s)
  {
    a.Advance? && a.txn < |s.txns| ==>
      match s.txns[a.txn]
      case Applying(id, _, _, _, _, at) => at.HaveRow? ==> id < |s.virements| && !Terminal(s.virements[id])
      case Writing(row, becomes, pen) =>
        pen == HavePen ==> row < |s.virements| && (!Terminal(s.virements[row]) || s.virements[row].status == becomes)
      case Spending(_, _, _, _, _) => true
  }

  ghost predicate OnceAndFinal(before: State, after: State) {
    Once(after.virements, after.log) && Final(before.virements, after.virements)
  }

  lemma {:induction false} CommitIsOnceExactlyWhen(s: State, t: nat)
    requires Formed(s) && Commits(s, t) && Once(s.virements, s.log)
    ensures OnceAndFinal(s, Commit(s, t)) <==> !Terminal(s.virements[s.txns[t].virement])
  {
    ApplicationIsOnceExactlyWhen(s.virements, s.log, s.txns[t].virement, SnapshotOf(s.txns[t]));
  }

  lemma {:induction false} WriteIsOnceExactlyWhen(s: State, row: nat, becomes: Status)
    requires Once(s.virements, s.log) && row < |s.virements| && becomes != Applied
    ensures OnceAndFinal(s, WithStatus(s, row, becomes))
            <==> !Terminal(s.virements[row]) || s.virements[row].status == becomes
  {
    StatusWriteIsOnceExactlyWhen(s.virements, s.log, row, becomes);
  }

  lemma {:induction false} ApplyStepIsOnceExactlyWhen(s: State, t: nat)
    requires Formed(s) && Once(s.virements, s.log) && t < |s.txns| && s.txns[t].Applying? && Step(s, t).Some?
    ensures OnceAndFinal(s, Step(s, t).value) <==> Timely(s, Advance(t))
  {
    assert TxnFormed(s.txns[t], s.virements, |s.approved|);
    if Commits(s, t) {
      CommitIsOnceExactlyWhen(s, t);
    }
  }

  lemma {:induction false} WriteStepIsOnceExactlyWhen(s: State, t: nat)
    requires Formed(s) && Once(s.virements, s.log) && t < |s.txns| && s.txns[t].Writing? && Step(s, t).Some?
    ensures OnceAndFinal(s, Step(s, t).value) <==> Timely(s, Advance(t))
  {
    assert TxnFormed(s.txns[t], s.virements, |s.approved|);
    if s.txns[t].pen == HavePen {
      WriteIsOnceExactlyWhen(s, s.txns[t].row, s.txns[t].becomes);
    }
  }

  lemma {:induction false} SpendStepIsOnce(s: State, t: nat)
    requires Formed(s) && Once(s.virements, s.log) && t < |s.txns| && s.txns[t].Spending? && Step(s, t).Some?
    ensures OnceAndFinal(s, Step(s, t).value)
  {
    assert TxnFormed(s.txns[t], s.virements, |s.approved|);
  }

  /** Each action keeps the trail at one entry per applied virement and final rows as they
      are exactly when it is timely.  The receiver's own commits always are: its check was
      made under the lock. */
  lemma {:induction false} ActIsOnceExactlyWhen(s: State, a: Action)
    requires Formed(s) && Once(s.virements, s.log) && Act(s, a).Some?
    ensures OnceAndFinal(s, Act(s, a).value) <==> Timely(s, a)
  {
    match a {
      case Create(_, _, _) => NeverLoggedYet(s.virements, s.log);
      case Advance(t) =>
        match s.txns[t] {
          case Applying(_, _, _, _, _, _) => ApplyStepIsOnceExactlyWhen(s, t);
          case Spending(_, _, _, _, _) => SpendStepIsOnce(s, t);
          case Writing(_, _, _) => WriteStepIsOnceExactlyWhen(s, t);
        }
      case _ =>
    }
  }

  lemma NeverLoggedYet(virements: seq<Virement>, log: seq<Entry>)
    requires Once(virements, log)
    ensures TimesApplied(log, |virements|) == 0
  {
    forall i | 0 <= i < |log| ensures log[i].virement != |virements| {
      assert Logged(log[i], virements);
    }
    NeverLogged(log, |virements|);
  }

  /** Throughout the run each virement is applied at most once and final rows stay final. */
  ghost predicate OnceThroughout(s: State, actions: seq<Action>)
    requires Formed(s)
    decreases |actions|
  {
    actions == []
    || (&& OnceAndFinal(s, Next(s, actions[0])) && Formed(Next(s, actions[0]))
        && OnceThroughout(Next(s, actions[0]), actions[1..]))
  }

  /** No write of the run lands on a row that is final by then. */
  ghost predicate AllTimely(s: State, actions: seq<Action>)
    requires Formed(s)
    decreases |actions|
  {
    actions == []
    || (&& (Act(s, actions[0]).Some? ==> Timely(s, actions[0])) && Formed(Next(s, actions[0]))
        && AllTimely(Next(s, actions[0]), actions[1..]))
  }

  /** In any interleaving, at most once and final for good exactly when every write was
      timely. */
  lemma {:induction false} RunIsOnceExactlyWhen(s: State, actions: seq<Action>, initial: seq<int>)
    requires Sane(s, initial) && Once(s.virements, s.log)
    ensures OnceThroughout(s, actions) <==> AllTimely(s, actions)
    decreases |actions|
  {
    if actions != [] {
      var next := Next(s, actions[0]);
      if Act(s, actions[0]).Some? {
        ActKeeps(s, actions[0], initial);
        ActIsOnceExactlyWhen(s, actions[0]);
      }
      if Once(next.virements, next.log) {
        RunIsOnceExactlyWhen(next, actions[1..], initial);
      }
    }
  }

  /** Approvals through the receiver only, and no status change by hand: the runs for which
      the locking alone is enough. */
  predicate ReceiverOnly(actions: seq<Action>) {
    actions == []
    || (&& (actions[0].BeginApply? ==> !actions[0].unlocked)
        && !actions[0].BeginSubmit? && !actions[0].BeginReject?
        && ReceiverOnly(actions[1..]))
  }

  predicate NoCopies(txns: seq<Txn>) {
    forall t :: 0 <= t < |txns| ==> !txns[t].Writing? && (txns[t].Applying? ==> !txns[t].unlocked)
  }

  lemma {:induction false} ReceiverActKeeps(s: State, a: Action)
    requires Formed(s) && NoCopies(s.txns) && ReceiverOnly([a]) && Act(s, a).Some?
    ensures NoCopies(Act(s, a).value.txns) && Timely(s, a)
  {
    if a.Advance? {
      assert TxnFormed(s.txns[a.txn], s.virements, |s.approved|);
      StepMovesOne(s, a.txn);
    }
  }

  /** Any number of receivers, in any interleaving with each other and with spends, apply each
      virement at most once. */
  lemma {:induction false} ReceiversApplyOnce(s: State, actions: seq<Action>, initial: seq<int>)
    requires Sane(s, initial) && Once(s.virements, s.log) && NoCopies(s.txns) && ReceiverOnly(actions)
    ensures OnceThroughout(s, actions)
    decreases |actions|
  {
    if actions != [] {
      var next := Next(s, actions[0]);
      if Act(s, actions[0]).Some? {
        ActKeeps(s, actions[0], initial);
        ReceiverActKeeps(s, actions[0]);
        ActIsOnceExactlyWhen(s, actions[0]);
      }
      ReceiversApplyOnce(next, actions[1..], initial);
    }
  }
}
