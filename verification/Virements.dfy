/** The virement service over its tables.  Each method is given the caller's copy of the
    virement: the status checks read that copy, which may be out of date, while the writes
    go to the row.  Only the approval receiver locks the row and reads it again. */
module Virements {
  import opened Wrappers
  import opened AuditTrail
  import opened VirementProtocol

  datatype VirementError = SameLine | NotPositive | OtherYear | ShortOfFunds | WrongStatus

  /** What the service reads and writes, with the trail of what was ever applied. */
  datatype Tables = Tables(years: seq<nat>, approved: seq<int>, spends: seq<Spend>, virements: seq<Virement>,
                           log: seq<Entry>)

  /** A request with the status its caller's copy shows.  The workflow engine is the only one
      to call the receiver, and writes its own status on the row first. */
  datatype Call =
    | NewDraft(source: nat, target: nat, amount: int)
    | SubmitCopy(id: nat, seen: Status)
    | RejectCopy(id: nat, seen: Status)
    | ApproveCopy(id: nat, seen: Status)
    | Receive(id: nat)
    | WorkflowApprove(id: nat)
    | WorkflowReject(id: nat)

  predicate TablesFormed(t: Tables) {
    && |t.years| == |t.approved|
    && forall id :: 0 <= id < |t.virements| ==> VirementFormed(t.virements[id], t.years)
  }

  predicate OpenStatus(status: Status) {
    status == Draft || status == Submitted
  }

  predicate Funded(t: Tables, id: nat)
    requires TablesFormed(t) && id < |t.virements|
  {
    t.virements[id].amount <= Available(t.approved, t.spends, t.virements[id].source)
  }

  function BalancesShown(t: Tables, id: nat): Snapshot
    requires TablesFormed(t) && id < |t.virements|
  {
    var v := t.virements[id];
    Snapshot(t.approved[v.source], t.approved[v.source] - v.amount,
             t.approved[v.target], t.approved[v.target] + v.amount)
  }

  /** The tables after the money of one virement has moved. */
  function ApplyTo(t: Tables, id: nat): Tables
    requires TablesFormed(t) && id < |t.virements|
  {
    var v, shown := t.virements[id], BalancesShown(t, id);
    t.(approved := t.approved[v.source := shown.sourceAfter][v.target := shown.targetAfter],
       virements := Stamped(t.virements, id, shown),
       log := t.log + [EntryOf(v, id, shown)])
  }

  function StatusWritten(t: Tables, id: nat, status: Status): Tables
    requires id < |t.virements|
  {
    t.(virements := t.virements[id := t.virements[id].(status := status)])
  }

  /** What a request does to the tables, or why it is refused. */
  function Serve(t: Tables, call: Call): Result<Tables, VirementError>
    requires TablesFormed(t) && Addressed(t, call)
  {
    match call
    case NewDraft(source, target, amount) =>
      if source == target then Err(SameLine)
      else if amount <= 0 then Err(NotPositive)
      else if t.years[source] != t.years[target] then Err(OtherYear)
      else if amount > Available(t.approved, t.spends, source) then Err(ShortOfFunds)
      else Ok(t.(virements := t.virements + [Virement(source, target, amount, Draft, None)]))
    case SubmitCopy(id, seen) =>
      if MayBecome(seen, Submitted) then Ok(StatusWritten(t, id, Submitted)) else Err(WrongStatus)
    case RejectCopy(id, seen) =>
      if MayBecome(seen, Rejected) then Ok(StatusWritten(t, id, Rejected)) else Err(WrongStatus)
    case ApproveCopy(id, seen) => Approve(t, id, seen)
    case Receive(id) => Received(t, id)
    case WorkflowApprove(id) => Received(StatusWritten(t, id, Approved), id)
    case WorkflowReject(id) => Ok(StatusWritten(t, id, Rejected))
  }

  /** The receiver on the status under its lock. */
  function Received(t: Tables, id: nat): Result<Tables, VirementError>
    requires TablesFormed(t) && id < |t.virements|
  {
    if t.virements[id].status == Applied then Ok(t) else Approve(t, id, t.virements[id].status)
  }

  predicate Addressed(t: Tables, call: Call)
    requires TablesFormed(t)
  {
    match call
    case NewDraft(source, target, _) => source < |t.approved| && target < |t.approved|
    case SubmitCopy(id, _) => id < |t.virements|
    case RejectCopy(id, _) => id < |t.virements|
    case ApproveCopy(id, _) => id < |t.virements|
    case Receive(id) => id < |t.virements|
    case WorkflowApprove(id) => id < |t.virements|
    case WorkflowReject(id) => id < |t.virements|
  }

  function Approve(t: Tables, id: nat, seen: Status): Result<Tables, VirementError>
    requires TablesFormed(t) && id < |t.virements|
  {
    if !OpenStatus(seen) then Err(WrongStatus)
    else if !Funded(t, id) then Err(ShortOfFunds)
    else Ok(ApplyTo(t, id))
  }

  /** The tables became what the specification makes of them, or stayed on a refusal. */
  ghost predicate Served(before: Tables, after: Tables, call: Call, refusal: Option<VirementError>)
    requires TablesFormed(before) && Addressed(before, call)
  {
    match Serve(before, call)
    case Ok(tables) => refusal == None && after == tables
    case Err(e) => refusal == Some(e) && after == before
  }

  class VirementService {
    var years: seq<nat>
    var approved: seq<int>
    var spends: seq<Spend>
    var virements: seq<Virement>
    ghost var log: seq<Entry>

    ghost function State(): Tables
      reads this
    {
      Tables(years, approved, spends, virements, log)
    }

    ghost predicate Valid()
      reads this
    {
      TablesFormed(State())
    }

    constructor (years: seq<nat>, approved: seq<int>, spends: seq<Spend>)
      requires |years| == |approved|
      ensures Valid() && State() == Tables(years, approved, spends, [], [])
    {
      this.years, this.approved, this.spends := years, approved, spends;
      virements, log := [], [];
    }

    /** A new draft, after the four checks in the order the service makes them. */
    method Create(source: nat, target: nat, amount: int) returns (refusal: Option<VirementError>)
      requires Valid() && source < |approved| && target < |approved|
      modifies this`virements
      ensures Valid() && Served(old(State()), State(), NewDraft(source, target, amount), refusal)
    {
      if source == target {
        return Some(SameLine);
      }
      if amount <= 0 {
        return Some(NotPositive);
      }
      if years[source] != years[target] {
        return Some(OtherYear);
      }
      if amount > Available(approved, spends, source) {
        return Some(ShortOfFunds);
      }
      virements := virements + [Virement(source, target, amount, Draft, None)];
      return None;
    }

    /** Only a copy that shows a draft is submitted; the row's own status is not looked at. */
    method Submit(id: nat, seen: Status) returns (refusal: Option<VirementError>)
      requires Valid() && id < |virements|
      modifies this`virements
      ensures Valid() && Served(old(State()), State(), SubmitCopy(id, seen), refusal)
    {
      if seen != Draft {
        return Some(WrongStatus);
      }
      virements := virements[id := virements[id].(status := Submitted)];
      return None;
    }

    /** Only a copy that shows a final status is refused. */
    method Reject(id: nat, seen: Status) returns (refusal: Option<VirementError>)
      requires Valid() && id < |virements|
      modifies this`virements
      ensures Valid() && Served(old(State()), State(), RejectCopy(id, seen), refusal)
    {
      if seen in {Applied, Rejected, Cancelled} {
        return Some(WrongStatus);
      }
      virements := virements[id := virements[id].(status := Rejected)];
      return None;
    }

    /** Moves the money: the balance is checked again on the rows, the status only on the
        copy. */
    method ApproveAndApply(id: nat, seen: Status) returns (refusal: Option<VirementError>)
      requires Valid() && id < |virements|
      modifies this
      ensures Valid() && Served(old(State()), State(), ApproveCopy(id, seen), refusal)
    {
      if seen !in {Draft, Submitted} {
        return Some(WrongStatus);
      }
      var v := virements[id];
      assert VirementFormed(v, years);
      if v.amount > Available(approved, spends, v.source) {
        return Some(ShortOfFunds);
      }
      var sourceBefore, targetBefore := approved[v.source], approved[v.target];
      approved := approved[v.source := sourceBefore - v.amount];
      approved := approved[v.target := targetBefore + v.amount];
      var shown := Snapshot(sourceBefore, approved[v.source], targetBefore, approved[v.target]);
      virements := virements[id := v.(status := Applied, snapshot := Some(shown))];
      log := log + [EntryOf(v, id, shown)];
      return None;
    }

    /** The approval receiver: an early look at the document, then the lock and the fresh
        status. */
    method OnApprovalCompleted(id: nat, seen: Status) returns (refusal: Option<VirementError>)
      requires Valid() && id < |virements|
      modifies this
      ensures Valid()
      ensures seen == Applied ==> refusal == None && State() == old(State())
      ensures seen != Applied ==> Served(old(State()), State(), Receive(id), refusal)
    {
      if seen == Applied {
        return None;
      }
      var current := virements[id].status;
      if current == Applied {
        return None;
      }
      refusal := ApproveAndApply(id, current);
    }

    /** The end of a workflow approval: the engine writes its own status, then its signal
        reaches the receiver, and an error rolls both back. */
    method CompleteApproval(id: nat) returns (refusal: Option<VirementError>)
      requires Valid() && id < |virements|
      modifies this
      ensures Valid() && Served(old(State()), State(), WorkflowApprove(id), refusal)
    {
      var saved := virements;
      assert VirementFormed(virements[id], years);
      virements := virements[id := virements[id].(status := Approved)];
      refusal := OnApprovalCompleted(id, Approved);
      if refusal.Some? {
        virements := saved;
      }
    }
  }

  // ---- At most once, and final for good -------------------------------------------

  /** The tables keep a trail that replays, with one entry per applied virement. */
  ghost predicate Audit(t: Tables, initial: seq<int>) {
    TablesFormed(t) && Replays(initial, t.log, t.approved) && Once(t.virements, t.log)
  }

  ghost predicate KeepsAudit(t: Tables, after: Tables, initial: seq<int>) {
    Audit(after, initial) && Final(t.virements, after.virements)
  }

  /** Whether a request that goes through finds the row not final at its write. */
  predicate InTime(t: Tables, call: Call)
    requires TablesFormed(t) && Addressed(t, call)
  {
    match call
    case NewDraft(_, _, _) => true
    case SubmitCopy(id, _) => !Terminal(t.virements[id])
    case RejectCopy(id, _) => !Terminal(t.virements[id]) || t.virements[id].status == Rejected
    case ApproveCopy(id, _) => !Terminal(t.virements[id])
    case Receive(_) => true
    case WorkflowApprove(_) => true
    case WorkflowReject(id) => !Terminal(t.virements[id]) || t.virements[id].status == Rejected
  }

  /** As wired, no completed approval applies anything: the receiver finds the status the
      engine has just written, which the service refuses, whatever the row showed before. */
  lemma NothingAppliedAsWired(t: Tables, id: nat)
    requires TablesFormed(t) && id < |t.virements|
    ensures TablesFormed(StatusWritten(t, id, Approved))
    ensures Serve(t, WorkflowApprove(id)) == Err(WrongStatus)
  {
    assert VirementFormed(t.virements[id], t.years);
  }

  lemma {:induction false} ApplyKeepsExactlyWhen(t: Tables, id: nat, initial: seq<int>)
    requires Audit(t, initial) && id < |t.virements|
    ensures KeepsAudit(t, ApplyTo(t, id), initial) <==> !Terminal(t.virements[id])
  {
    var v := t.virements[id];
    assert VirementFormed(v, t.years);
    MoveReplays(initial, t.log, t.approved, EntryOf(v, id, BalancesShown(t, id)));
    ApplicationIsOnceExactlyWhen(t.virements, t.log, id, BalancesShown(t, id));
  }

  /** Writing a status through a copy keeps the trail exactly when the row is not applied at
      the write, and keeps final rows too exactly when it is not final, or rejected again. */
  lemma {:induction false} StatusWriteKeepsExactlyWhen(t: Tables, id: nat, status: Status, initial: seq<int>)
    requires Audit(t, initial) && id < |t.virements| && (status == Submitted || status == Rejected)
    ensures Audit(StatusWritten(t, id, status), initial) <==> t.virements[id].status != Applied
    ensures KeepsAudit(t, StatusWritten(t, id, status), initial)
            <==> !Terminal(t.virements[id]) || t.virements[id].status == status
  {
    assert VirementFormed(t.virements[id], t.years);
    StatusWriteIsOnceExactlyWhen(t.virements, t.log, id, status);
  }

  /** A request that goes through keeps trail and final rows exactly when it is in time; a
      receiver always is. */
  lemma {:induction false} ServeKeepsExactlyWhen(t: Tables, call: Call, initial: seq<int>)
    requires Audit(t, initial) && Addressed(t, call) && Serve(t, call).Ok?
    ensures KeepsAudit(t, Serve(t, call).value, initial) <==> InTime(t, call)
  {
    match call
    case NewDraft(_, _, _) =>
      forall i | 0 <= i < |t.log| ensures t.log[i].virement != |t.virements| {
        assert Logged(t.log[i], t.virements);
      }
      NeverLogged(t.log, |t.virements|);
    case SubmitCopy(id, _) => StatusWriteKeepsExactlyWhen(t, id, Submitted, initial);
    case RejectCopy(id, _) => StatusWriteKeepsExactlyWhen(t, id, Rejected, initial);
    case ApproveCopy(id, _) => ApplyKeepsExactlyWhen(t, id, initial);
    case Receive(id) =>
      if t.virements[id].status != Applied {
        ApplyKeepsExactlyWhen(t, id, initial);
      }
    case WorkflowApprove(id) => NothingAppliedAsWired(t, id);
    case WorkflowReject(id) => StatusWriteKeepsExactlyWhen(t, id, Rejected, initial);
  }

  /** A copy that is up to date is in time. */
  lemma FreshCopyIsInTime(t: Tables, id: nat, call: Call)
    requires TablesFormed(t) && Addressed(t, call) && Serve(t, call).Ok?
    requires call.SubmitCopy? || call.RejectCopy? || call.ApproveCopy?
    requires call.seen == t.virements[call.id].status
    ensures InTime(t, call)
  {
  }

  function After(t: Tables, call: Call): Tables
    requires TablesFormed(t)
  {
    if Addressed(t, call) && Serve(t, call).Ok? then Serve(t, call).value else t
  }

  ghost predicate KeptThroughout(t: Tables, calls: seq<Call>, initial: seq<int>)
    requires TablesFormed(t)
    decreases |calls|
  {
    calls == []
    || (KeepsAudit(t, After(t, calls[0]), initial) && KeptThroughout(After(t, calls[0]), calls[1..], initial))
  }

  ghost predicate AllInTime(t: Tables, calls: seq<Call>)
    requires TablesFormed(t)
    decreases |calls|
  {
    calls == []
    || (&& (Addressed(t, calls[0]) && Serve(t, calls[0]).Ok? ==> InTime(t, calls[0]))
        && TablesFormed(After(t, calls[0])) && AllInTime(After(t, calls[0]), calls[1..]))
  }

  /** Over any run of requests, each with the status its copy shows: every virement is applied
      at most once and final rows stay final, at every point, exactly when each request that
      went through was in time. */
  lemma {:induction false} CallsKeepExactlyWhen(t: Tables, calls: seq<Call>, initial: seq<int>)
    requires Audit(t, initial)
    ensures KeptThroughout(t, calls, initial) <==> AllInTime(t, calls)
    decreases |calls|
  {
    if calls != [] {
      var next := After(t, calls[0]);
      if Addressed(t, calls[0]) && Serve(t, calls[0]).Ok? {
        ServeKeepsExactlyWhen(t, calls[0], initial);
      }
      if KeepsAudit(t, next, initial) {
        CallsKeepExactlyWhen(next, calls[1..], initial);
      }
    }
  }

  // ---- What stale copies do -------------------------------------------------------

  /** One submitted virement of 40 between two lines. */
  function Pending(status: Status): Tables {
    Tables([0, 0], [100, 0], [], [Virement(0, 1, 40, status, None)], [])
  }

  function MovedOnce(status: Status): Tables {
    Tables([0, 0], [60, 40], [], [Virement(0, 1, 40, status, Some(Snapshot(100, 60, 0, 40)))],
           [Entry(0, 0, 1, 40, Snapshot(100, 60, 0, 40))])
  }

  lemma PendingMoves(seen: Status)
    requires OpenStatus(seen)
    ensures TablesFormed(Pending(seen)) && After(Pending(seen), ApproveCopy(0, seen)) == MovedOnce(Applied)
  {
    assert ApplyTo(Pending(seen), 0).approved == [60, 40];
  }

  lemma MovesAgain(status: Status, call: Call)
    requires call == ApproveCopy(0, Submitted) || (call == Receive(0) && OpenStatus(status))
    ensures TablesFormed(MovedOnce(status)) && After(MovedOnce(status), call).approved == [20, 80]
    ensures TimesApplied(After(MovedOnce(status), call).log, 0) == 2
  {
    var t := MovedOnce(status);
    var e, again := t.log[0], EntryOf(t.virements[0], 0, BalancesShown(t, 0));
    assert ApplyTo(t, 0).approved == [20, 80];
    assert t.log[..0] == [] && (t.log + [again])[..1] == t.log;
    assert TimesApplied(t.log, 0) == 1;
  }

  /** Two direct approvals on copies read before either: the amount moves twice. */
  lemma StaleApprovalMovesTwice()
    ensures var once := After(Pending(Submitted), ApproveCopy(0, Submitted));
            && TablesFormed(Pending(Submitted)) && TablesFormed(once)
            && After(once, ApproveCopy(0, Submitted)).approved == [20, 80]
  {
    PendingMoves(Submitted);
    MovesAgain(Applied, ApproveCopy(0, Submitted));
  }

  /** A submission on a copy read before the approval reopens the row, and a further approval,
      even by a receiver that reads it afresh, moves the amount again. */
  lemma StaleSubmissionMovesTwice()
    ensures var once := After(Pending(Draft), ApproveCopy(0, Draft));
            var reopened := After(once, SubmitCopy(0, Draft));
            && TablesFormed(Pending(Draft)) && TablesFormed(once) && TablesFormed(reopened)
            && After(reopened, Receive(0)).approved == [20, 80]
            && TimesApplied(After(reopened, Receive(0)).log, 0) == 2
            && After(reopened, ApproveCopy(0, Submitted)) == After(reopened, Receive(0))
  {
    PendingMoves(Draft);
    assert After(MovedOnce(Applied), SubmitCopy(0, Draft)) == MovedOnce(Submitted);
    MovesAgain(Submitted, Receive(0));
  }

  /** A rejection on such a copy, or by the workflow engine, which asks nothing, shows an
      applied virement as rejected, its money moved. */
  lemma StaleRejectionHidesApplication()
    ensures var once := After(Pending(Submitted), ApproveCopy(0, Submitted));
            && TablesFormed(Pending(Submitted)) && TablesFormed(once)
            && After(once, RejectCopy(0, Submitted)) == MovedOnce(Rejected) == After(once, WorkflowReject(0))
  {
    PendingMoves(Submitted);
    assert MovedOnce(Applied).virements[0 := MovedOnce(Applied).virements[0].(status := Rejected)]
        == MovedOnce(Rejected).virements;
  }

  // ---- The service is the protocol run without interruption ------------------------

  function TablesOf(s: State): Tables {
    Tables(s.years, s.approved, s.spends, s.virements, s.log)
  }

  /** Up to `n` steps of one transaction with nobody in between. */
  ghost function Alone(s: State, t: nat, n: nat): State
    decreases n
  {
    if n == 0 || !Formed(s) || Step(s, t).None? then s else Alone(Step(s, t).value, t, n - 1)
  }

  lemma AloneLocks(s: State, t: nat, n: nat) returns (next: State)
    requires Formed(s) && t < |s.txns| && n > 0
    requires Wants(s.txns[t]).Some? && Wants(s.txns[t]).value !in s.locks
    ensures Alone(s, t, n) == Alone(next, t, n - 1) && Formed(next) && TablesOf(next) == TablesOf(s)
    ensures next.txns == s.txns[t := Locked(s.txns[t])] && next.locks == s.locks[Wants(s.txns[t]).value := t]
  {
    assert TxnFormed(s.txns[t], s.virements, |s.approved|);
    next := Step(s, t).value;
  }

  lemma AloneChecks(s: State, t: nat, n: nat) returns (next: State)
    requires Formed(s) && t < |s.txns| && n > 0
    requires s.txns[t].Applying? && s.txns[t].at == HaveVirement
    requires s.txns[t].virement < |s.virements| && Open(s.virements[s.txns[t].virement])
    ensures Alone(s, t, n) == Alone(next, t, n - 1) && Formed(next) && TablesOf(next) == TablesOf(s)
    ensures next.txns == s.txns[t := s.txns[t].(at := Checked)] && next.locks == s.locks
  {
    assert TxnFormed(s.txns[t], s.virements, |s.approved|);
    next := Step(s, t).value;
  }

  /** A receiver about to begin, none of whose rows is locked. */
  ghost predicate Unhindered(s: State, t: nat) {
    && Formed(s) && t < |s.txns| && s.txns[t].Applying? && !s.txns[t].unlocked && s.txns[t].at == Start
    && VirementRow(s.txns[t].virement) !in s.locks
    && LineRow(s.txns[t].source) !in s.locks && LineRow(s.txns[t].target) !in s.locks
    && s.txns[t].virement < |s.virements|
  }

  lemma AloneToChecked(s: State, t: nat) returns (checked: State)
    requires Unhindered(s, t) && Open(s.virements[s.txns[t].virement])
    ensures Alone(s, t, 6) == Alone(checked, t, 4) && Formed(checked) && TablesOf(checked) == TablesOf(s)
    ensures checked.txns == s.txns[t := s.txns[t].(at := Checked)]
    ensures checked.locks == s.locks[VirementRow(s.txns[t].virement) := t]
  {
    var locked := AloneLocks(s, t, 6);
    checked := AloneChecks(locked, t, 5);
  }

  /** The three locks of an approval, taken one after another. */
  lemma {:induction false} AloneToBothLocks(s: State, t: nat) returns (ready: State)
    requires Unhindered(s, t) && Open(s.virements[s.txns[t].virement]) && s.txns[t].source != s.txns[t].target
    ensures Alone(s, t, 6) == Alone(ready, t, 2) && Formed(ready)
    ensures TablesOf(ready) == TablesOf(s) && t < |ready.txns| && ready.txns[t] == s.txns[t].(at := HaveBoth)
  {
    var checked := AloneToChecked(s, t);
    var low := AloneLocks(checked, t, 4);
    ready := AloneLocks(low, t, 3);
  }

  lemma {:induction false} AloneFromBothLocks(s: State, t: nat)
    requires Formed(s) && t < |s.txns| && s.txns[t].Applying? && !s.txns[t].unlocked && s.txns[t].at == HaveBoth
    requires TxnFormed(s.txns[t], s.virements, |s.approved|)
    ensures TablesFormed(TablesOf(s))
    ensures TablesOf(Alone(s, t, 2))
         == if Funded(TablesOf(s), s.txns[t].virement) then ApplyTo(TablesOf(s), s.txns[t].virement) else TablesOf(s)
  {
    var x := s.txns[t];
    var next := Step(s, t).value;
    assert Alone(s, t, 2) == Alone(next, t, 1);
    if Funded(TablesOf(s), x.virement) {
      assert Step(next, t) == Some(Commit(next, t));
      assert Alone(next, t, 1) == Alone(Commit(next, t), t, 0) == Commit(next, t);
    }
  }

  /** A virement that is no longer open is left alone. */
  lemma AloneStopsEarly(s: State, t: nat)
    requires Unhindered(s, t) && !Open(s.virements[s.txns[t].virement])
    ensures TablesOf(Alone(s, t, 6)) == TablesOf(s)
  {
    var locked := AloneLocks(s, t, 6);
    var ended := Step(locked, t).value;
    assert Alone(locked, t, 5) == Alone(ended, t, 4) == ended;
  }

  lemma {:induction false} AloneApplies(s: State, t: nat)
    requires Unhindered(s, t) && Open(s.virements[s.txns[t].virement])
    requires TxnFormed(s.txns[t], s.virements, |s.approved|)
    ensures TablesFormed(TablesOf(s))
    ensures TablesOf(Alone(s, t, 6))
         == if Funded(TablesOf(s), s.txns[t].virement) then ApplyTo(TablesOf(s), s.txns[t].virement) else TablesOf(s)
  {
    var ready := AloneToBothLocks(s, t);
    AloneFromBothLocks(ready, t);
  }

  lemma ReceiveMovesExactlyWhen(t: Tables, id: nat)
    requires TablesFormed(t) && id < |t.virements|
    ensures After(t, Receive(id)) == if Open(t.virements[id]) && Funded(t, id) then ApplyTo(t, id) else t
  {
  }

  /** An approval that nobody interrupts does to the tables exactly what the receiver of the
      service does. */
  lemma {:induction false} UninterruptedIsReceiver(s: State, t: nat)
    requires Unhindered(s, t)
    ensures TablesFormed(TablesOf(s))
    ensures TablesOf(Alone(s, t, 6)) == After(TablesOf(s), Receive(s.txns[t].virement))
  {
    ReceiveMovesExactlyWhen(TablesOf(s), s.txns[t].virement);
    if Open(s.virements[s.txns[t].virement]) {
      assert TxnFormed(s.txns[t], s.virements, |s.approved|);
      AloneApplies(s, t);
    } else {
      AloneStopsEarly(s, t);
    }
  }
}
