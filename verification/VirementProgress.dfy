/** Progress of concurrent transactions: locks taken in one order never block each other for
    good, and the one approval path that breaks the order can. */
module VirementProgress {
  import opened Wrappers
  import opened AuditTrail
  import opened VirementProtocol

  /** The order in which locks are taken: the virement, then lines upwards. */
  function Rank(r: Row): nat {
    match r
    case VirementRow(_) => 0
    case LineRow(id) => 1 + id
  }

  /** A direct approval that has moved its amounts takes its virement last, out of order. */
  predicate OutOfOrder(x: Txn) {
    x.Applying? && x.unlocked && x.at.Moved?
  }

  /** Whoever else holds a row waits only for rows later in the order. */
  lemma WaitsUpwards(x: Txn, held: Row)
    requires Holds(x, held) && Wants(x).Some? && !OutOfOrder(x)
    requires x.Applying? ==> x.source != x.target && (x.unlocked ==> x.at != HaveVirement)
    ensures Rank(held) < Rank(Wants(x).value)
  {
  }

  /** A direct approval that has moved its amounts and a receiver that has checked the same
      virement: each holds what the other waits for. */
  predicate Embrace(direct: Txn, receiver: Txn) {
    && OutOfOrder(direct) && receiver.Applying? && !receiver.unlocked && receiver.at == Checked
    && direct.virement == receiver.virement
  }

  ghost predicate Gridlocked(txns: seq<Txn>) {
    exists d, r :: 0 <= d < |txns| && 0 <= r < |txns| && Embrace(txns[d], txns[r])
  }

  predicate AllFinished(txns: seq<Txn>) {
    forall t :: 0 <= t < |txns| ==> Finished(txns[t])
  }

  /** Who holds the row a direct approval waits for at the end can step, or has checked the
      same virement and waits for it. */
  lemma {:induction false} LastRowHolder(s: State, d: nat, h: nat, initial: seq<int>)
    requires Sane(s, initial) && d < |s.txns| && h < |s.txns| && OutOfOrder(s.txns[d])
    requires Holds(s.txns[h], VirementRow(s.txns[d].virement))
    ensures Wants(s.txns[h]).None? || Embrace(s.txns[d], s.txns[h])
  {
    var x, y := s.txns[d], s.txns[h];
    assert TxnFormed(x, s.virements, |s.approved|) && TxnFormed(y, s.virements, |s.approved|);
    if y.Applying? && y.at == HaveLow {
      Exclusive(s.txns, s.locks, d, h, LineRow(Low(y)));
    }
  }

  /** From any unfinished transaction, following who holds what it waits for reaches one
      that can step, or two that wait for each other. */
  lemma {:induction false} FollowHolders(s: State, t: nat, initial: seq<int>) returns (mover: nat)
    requires Sane(s, initial) && t < |s.txns| && !Finished(s.txns[t]) && !OutOfOrder(s.txns[t])
    ensures Gridlocked(s.txns) || Step(s, mover).Some?
    decreases |s.approved| + 1 - if Wants(s.txns[t]).Some? then Rank(Wants(s.txns[t]).value) else 0
  {
    var wanted := Wants(s.txns[t]);
    mover := t;
    if wanted.Some? && wanted.value in s.locks {
      mover := s.locks[wanted.value];
      var x := s.txns[mover];
      assert Holds(x, wanted.value) && TxnFormed(x, s.virements, |s.approved|);
      if OutOfOrder(x) {
        mover := BeyondOutOfOrder(s, mover, initial);
      } else if Wants(x).Some? {
        WaitsUpwards(x, wanted.value);
        mover := FollowHolders(s, mover, initial);
      }
    }
  }

  lemma {:induction false} BeyondOutOfOrder(s: State, d: nat, initial: seq<int>) returns (mover: nat)
    requires Sane(s, initial) && d < |s.txns| && OutOfOrder(s.txns[d])
    ensures Gridlocked(s.txns) || Step(s, mover).Some?
  {
    var row := VirementRow(s.txns[d].virement);
    mover := d;
    if row in s.locks {
      mover := s.locks[row];
      assert Holds(s.txns[mover], row);
      LastRowHolder(s, d, mover, initial);
    }
  }

  /** Two transactions that wait for each other are where they were after any action. */
  lemma {:induction false} EmbraceKeeps(s: State, d: nat, r: nat, a: Action, initial: seq<int>)
    requires Sane(s, initial) && d < |s.txns| && r < |s.txns| && Embrace(s.txns[d], s.txns[r])
    ensures var next := Next(s, a).txns;
            d < |next| && r < |next| && next[d] == s.txns[d] && next[r] == s.txns[r]
  {
    var x, y := s.txns[d], s.txns[r];
    assert TxnFormed(x, s.virements, |s.approved|) && TxnFormed(y, s.virements, |s.approved|);
    assert Holds(x, LineRow(Low(y))) && Holds(y, VirementRow(x.virement));
    if a.Advance? && Step(s, a.txn).Some? {
      StepMovesOne(s, a.txn);
    }
  }

  /** They wait for good, whatever anyone does. */
  lemma {:induction false} EmbraceIsForever(s: State, d: nat, r: nat, actions: seq<Action>, initial: seq<int>)
    requires Sane(s, initial) && d < |s.txns| && r < |s.txns| && Embrace(s.txns[d], s.txns[r])
    ensures var after := Run(s, actions).txns;
            d < |after| && r < |after| && after[d] == s.txns[d] && after[r] == s.txns[r]
    decreases |actions|
  {
    if actions != [] {
      EmbraceKeeps(s, d, r, actions[0], initial);
      if Act(s, actions[0]).Some? {
        ActKeeps(s, actions[0], initial);
      }
      EmbraceIsForever(Next(s, actions[0]), d, r, actions[1..], initial);
    }
  }

  // ---- Everyone can finish --------------------------------------------------------

  /** The steps a transaction still has before it. */
  function Remaining(x: Txn): nat {
    match x
    case Applying(_, _, _, _, _, at) =>
      (match at
       case Start => 7
       case HaveVirement => 6
       case Checked => 5
       case HaveLow => 4
       case HaveBoth => 3
       case Moved(_, _) => 2
       case HaveRow(_, _) => 1
       case Over => 0)
    case Spending(_, _, _, _, stands) =>
      (match stands
       case Ready => 3
       case HaveLine => 2
       case Admitted => 1
       case Settled => 0)
    case Writing(_, _, pen) =>
      (match pen
       case Unread => 3
       case Seen => 2
       case HavePen => 1
       case Written => 0)
  }

  function AllRemaining(txns: seq<Txn>): nat {
    if txns == [] then 0 else Remaining(txns[0]) + AllRemaining(txns[1..])
  }

  lemma {:induction false} RemainingUpdate(txns: seq<Txn>, t: nat, x: Txn)
    requires t < |txns|
    ensures AllRemaining(txns[t := x]) == AllRemaining(txns) - Remaining(txns[t]) + Remaining(x)
  {
    if t == 0 {
      assert txns[t := x][1..] == txns[1..];
    } else {
      assert txns[t := x][1..] == txns[1..][t - 1 := x];
      RemainingUpdate(txns[1..], t - 1, x);
    }
  }

  /** Keeps the order for good: everything but an unfinished direct approval. */
  predicate AllInOrder(txns: seq<Txn>) {
    forall t :: 0 <= t < |txns| && txns[t].Applying? ==> !txns[t].unlocked || txns[t].at == Over
  }

  lemma {:induction false} StepShortens(s: State, t: nat)
    requires Formed(s) && Step(s, t).Some?
    ensures AllRemaining(Step(s, t).value.txns) < AllRemaining(s.txns)
  {
    var next := Step(s, t).value;
    assert TxnFormed(s.txns[t], s.virements, |s.approved|);
    StepMovesOne(s, t);
    RemainingUpdate(s.txns, t, next.txns[t]);
  }

  lemma StepKeepsOrder(s: State, t: nat)
    requires Formed(s) && Step(s, t).Some? && AllInOrder(s.txns)
    ensures AllInOrder(Step(s, t).value.txns)
  {
    StepMovesOne(s, t);
  }

  lemma {:induction false} UnfinishedRemains(txns: seq<Txn>) returns (t: nat)
    requires AllRemaining(txns) > 0
    ensures t < |txns| && !Finished(txns[t])
  {
    if !Finished(txns[0]) {
      t := 0;
    } else {
      t := UnfinishedRemains(txns[1..]);
      t := t + 1;
    }
  }

  lemma {:induction false} NothingRemains(txns: seq<Txn>)
    requires AllRemaining(txns) == 0
    ensures AllFinished(txns)
  {
    if txns != [] {
      NothingRemains(txns[1..]);
      assert forall t :: 0 < t < |txns| ==> txns[t] == txns[1..][t - 1];
    }
  }

  lemma RunCons(s: State, a: Action, rest: seq<Action>)
    requires Formed(s)
    ensures Run(s, [a] + rest) == Run(Next(s, a), rest)
  {
    assert ([a] + rest)[1..] == rest;
  }

  lemma RunAdvances(s: State, t: nat, rest: seq<Action>)
    requires Formed(s) && Step(s, t).Some?
    ensures Run(s, [Advance(t)] + rest) == Run(Step(s, t).value, rest)
  {
    RunCons(s, Advance(t), rest);
  }

  /** Some schedule of steps reaches a state in which everyone has finished, or one in which
      two wait for each other for good; there is no third way to stop. */
  lemma {:induction false} EveryoneFinishesUnlessGridlocked(s: State, initial: seq<int>) returns (schedule: seq<Action>)
    requires Sane(s, initial)
    ensures AllFinished(Run(s, schedule).txns) <==> !Gridlocked(Run(s, schedule).txns)
    ensures AllInOrder(s.txns) ==> AllInOrder(Run(s, schedule).txns)
    decreases AllRemaining(s.txns)
  {
    schedule := [];
    if AllRemaining(s.txns) == 0 {
      NothingRemains(s.txns);
    } else if !Gridlocked(s.txns) {
      var t := UnfinishedRemains(s.txns);
      var mover := SomeoneCanStep(s, t, initial);
      StepShortens(s, mover);
      if AllInOrder(s.txns) {
        StepKeepsOrder(s, mover);
      }
      StepKeeps(s, mover, initial);
      var rest := EveryoneFinishesUnlessGridlocked(Step(s, mover).value, initial);
      RunAdvances(s, mover, rest);
      schedule := [Advance(mover)] + rest;
    }
  }

  /** While someone is unfinished, someone can step, or two wait for each other. */
  lemma {:induction false} SomeoneCanStep(s: State, t: nat, initial: seq<int>) returns (mover: nat)
    requires Sane(s, initial) && t < |s.txns| && !Finished(s.txns[t])
    ensures Gridlocked(s.txns) || Step(s, mover).Some?
  {
    if OutOfOrder(s.txns[t]) {
      mover := BeyondOutOfOrder(s, t, initial);
    } else {
      mover := FollowHolders(s, t, initial);
    }
  }

  /** No deadlock and no livelock: without an unfinished direct approval some schedule lets
      every transaction finish, from every reachable state. */
  lemma {:induction false} EveryoneCanFinish(s: State, initial: seq<int>) returns (schedule: seq<Action>)
    requires Sane(s, initial) && AllInOrder(s.txns)
    ensures AllFinished(Run(s, schedule).txns)
  {
    schedule := EveryoneFinishesUnlessGridlocked(s, initial);
  }

  // ---- The path that breaks the order ---------------------------------------------

  /** A direct approval that holds both lines and a receiver that holds their virement wait
      for each other. */
  function Deadlocked(): State {
    State([0, 0], [100, 0], [], [Virement(0, 1, 40, Submitted, None)],
          [Applying(0, 0, 1, 40, true, Moved(100, 0)), Applying(0, 0, 1, 40, false, Checked)],
          map[LineRow(0) := 0, LineRow(1) := 0, VirementRow(0) := 1], [])
  }

  function BeforeDeadlock(): State {
    State([0, 0], [100, 0], [], [Virement(0, 1, 40, Submitted, None)], [], map[], [])
  }

  /** The direct approval has checked the status and moves; the receiver has not begun. */
  function Halfway(): State {
    BeforeDeadlock().(txns := [Applying(0, 0, 1, 40, true, Moved(100, 0))],
                      locks := map[LineRow(0) := 0, LineRow(1) := 0])
  }

  function DirectAt(at: ApplyStep, locks: map<Row, nat>): State {
    BeforeDeadlock().(txns := [Applying(0, 0, 1, 40, true, at)], locks := locks)
  }

  lemma RunFour(s: State, s1: State, s2: State, s3: State, s4: State, a: Action, b: Action, c: Action, d: Action)
    requires Formed(s) && Next(s, a) == s1 && Formed(s1) && Next(s1, b) == s2
    requires Formed(s2) && Next(s2, c) == s3 && Formed(s3) && Next(s3, d) == s4
    ensures Run(s, [a] + ([b] + ([c] + ([d] + [])))) == s4
  {
    RunCons(s3, d, []);
    RunCons(s2, c, [d] + []);
    RunCons(s1, b, [c] + ([d] + []));
    RunCons(s, a, [b] + ([c] + ([d] + [])));
  }

  lemma DirectChecks()
    ensures Formed(BeforeDeadlock()) && Next(BeforeDeadlock(), BeginApply(0, true)) == DirectAt(Start, map[])
    ensures Formed(DirectAt(Start, map[])) && Next(DirectAt(Start, map[]), Advance(0)) == DirectAt(Checked, map[])
  {
  }

  lemma DirectLocks()
    ensures Formed(DirectAt(Checked, map[]))
    ensures Next(DirectAt(Checked, map[]), Advance(0)) == DirectAt(HaveLow, map[LineRow(0) := 0])
    ensures Formed(DirectAt(HaveLow, map[LineRow(0) := 0]))
    ensures Next(DirectAt(HaveLow, map[LineRow(0) := 0]), Advance(0))
         == DirectAt(HaveBoth, map[LineRow(0) := 0, LineRow(1) := 0])
  {
  }

  lemma DirectReads()
    ensures Formed(DirectAt(HaveBoth, map[LineRow(0) := 0, LineRow(1) := 0]))
    ensures Next(DirectAt(HaveBoth, map[LineRow(0) := 0, LineRow(1) := 0]), Advance(0)) == Halfway()
    ensures Formed(Halfway()) && Next(Halfway(), BeginApply(0, false)) == ReceiverAt(Start, Halfway().locks)
  {
  }

  function ReceiverAt(at: ApplyStep, locks: map<Row, nat>): State {
    Halfway().(txns := [Applying(0, 0, 1, 40, true, Moved(100, 0)), Applying(0, 0, 1, 40, false, at)], locks := locks)
  }

  lemma ReceiverLocks()
    ensures Formed(ReceiverAt(Start, Halfway().locks))
    ensures Next(ReceiverAt(Start, Halfway().locks), Advance(1)) == ReceiverAt(HaveVirement, Deadlocked().locks)
    ensures Formed(ReceiverAt(HaveVirement, Deadlocked().locks))
    ensures Next(ReceiverAt(HaveVirement, Deadlocked().locks), Advance(1)) == Deadlocked()
  {
  }

  /** From nothing locked, four actions and four more reach a state in which two approvals
      wait for each other. */
  lemma DirectApprovalCanDeadlock() returns (first: seq<Action>, more: seq<Action>)
    ensures Initial(BeforeDeadlock())
    ensures Run(Run(BeforeDeadlock(), first), more) == Deadlocked() && Gridlocked(Deadlocked().txns)
  {
    first := [BeginApply(0, true)] + ([Advance(0)] + ([Advance(0)] + ([Advance(0)] + [])));
    more := [Advance(0)] + ([BeginApply(0, false)] + ([Advance(1)] + ([Advance(1)] + [])));
    DirectChecks();
    DirectLocks();
    DirectReads();
    ReceiverLocks();
    assert Embrace(Deadlocked().txns[0], Deadlocked().txns[1]);
    var both := map[LineRow(0) := 0, LineRow(1) := 0];
    RunFour(BeforeDeadlock(), DirectAt(Start, map[]), DirectAt(Checked, map[]), DirectAt(HaveLow, map[LineRow(0) := 0]),
            DirectAt(HaveBoth, both), BeginApply(0, true), Advance(0), Advance(0), Advance(0));
    RunFour(DirectAt(HaveBoth, both), Halfway(), ReceiverAt(Start, Halfway().locks),
            ReceiverAt(HaveVirement, Deadlocked().locks), Deadlocked(),
            Advance(0), BeginApply(0, false), Advance(1), Advance(1));
  }
}
