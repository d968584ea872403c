/** Which states of concurrent transactions can still finish: exactly those in which no direct
    approval keeps its lines until it gets a row that a receiver keeps until it gets them. */
module VirementFinish {
  import opened Wrappers
  import opened AuditTrail
  import opened VirementProtocol
  import opened VirementProgress

  predicate Funded(s: State, x: Txn)
    requires x.Applying?
  {
    x.source < |s.approved| && x.amount <= Available(s.approved, s.spends, x.source)
  }

  /** A direct approval that gives no line back before it has its virement's row: its amounts
      are moved, or its check is still to come but holds for good, the source being locked. */
  predicate Fated(s: State, x: Txn) {
    && x.Applying? && x.unlocked
    && (x.at.Moved? || ((x.at == HaveBoth || (x.at == HaveLow && x.source < x.target)) && Funded(s, x)))
  }

  /** A receiver that keeps its virement's row until it has the lines: its check has passed, or
      is bound to. */
  predicate Bound(s: State, x: Txn) {
    && x.Applying? && !x.unlocked && x.virement < |s.virements|
    && (x.at == Checked || (x.at == HaveVirement && Open(s.virements[x.virement])))
  }

  predicate DoomedPair(s: State, x: Txn, y: Txn) {
    Fated(s, x) && Bound(s, y) && x.virement == y.virement
  }

  ghost predicate Doomed(s: State) {
    exists d, r :: 0 <= d < |s.txns| && 0 <= r < |s.txns| && DoomedPair(s, s.txns[d], s.txns[r])
  }

  /** Some continuation, new requests included, lets everyone finish. */
  ghost predicate Finishable(s: State) {
    exists schedule :: AllFinished(Run(s, schedule).txns)
  }

  // ---- What a step leaves to the others -------------------------------------------

  /** A commit or a posting moves no balance of a line another transaction holds. */
  lemma {:induction false} BalanceStays(s: State, t: nat, u: nat, line: nat, initial: seq<int>)
    requires Sane(s, initial) && Step(s, t).Some? && u < |s.txns| && u != t
    requires line < |s.approved| && Holds(s.txns[u], LineRow(line))
    ensures |Step(s, t).value.approved| == |s.approved|
    ensures Available(Step(s, t).value.approved, Step(s, t).value.spends, line) == Available(s.approved, s.spends, line)
  {
    var x := s.txns[t];
    assert TxnFormed(x, s.virements, |s.approved|);
    if Holds(x, LineRow(line)) {
      Exclusive(s.txns, s.locks, t, u, LineRow(line));
    }
    if x.Spending? {
      TotalsAppend(s.spends, Posted(x), line);
    }
  }

  /** No virement changes whose row another transaction holds. */
  lemma {:induction false} RowStays(s: State, t: nat, u: nat, id: nat, initial: seq<int>)
    requires Sane(s, initial) && Step(s, t).Some? && u < |s.txns| && u != t
    requires id < |s.virements| && Holds(s.txns[u], VirementRow(id))
    ensures |Step(s, t).value.virements| == |s.virements|
    ensures Step(s, t).value.virements[id] == s.virements[id]
  {
    assert TxnFormed(s.txns[t], s.virements, |s.approved|);
    if Holds(s.txns[t], VirementRow(id)) {
      Exclusive(s.txns, s.locks, t, u, VirementRow(id));
    }
  }

  lemma {:induction false} FateStays(s: State, t: nat, u: nat, initial: seq<int>)
    requires Sane(s, initial) && Step(s, t).Some? && u < |s.txns| && u != t
    ensures Fated(Step(s, t).value, s.txns[u]) <==> Fated(s, s.txns[u])
    ensures Bound(Step(s, t).value, s.txns[u]) <==> Bound(s, s.txns[u])
  {
    var y := s.txns[u];
    assert TxnFormed(s.txns[t], s.virements, |s.approved|) && TxnFormed(y, s.virements, |s.approved|);
    if y.Applying? && Holds(y, LineRow(y.source)) {
      BalanceStays(s, t, u, y.source, initial);
    }
    if y.Applying? && Holds(y, VirementRow(y.virement)) {
      RowStays(s, t, u, y.virement, initial);
    }
  }

  // ---- Doom is for good -----------------------------------------------------------

  /** The direct approval of a doomed pair steps on until it waits for the row. */
  lemma {:induction false} DirectStaysFated(s: State, d: nat, r: nat, initial: seq<int>)
    requires Sane(s, initial) && d < |s.txns| && r < |s.txns| && DoomedPair(s, s.txns[d], s.txns[r]) && Step(s, d).Some?
    ensures DoomedPair(Step(s, d).value, Step(s, d).value.txns[d], Step(s, d).value.txns[r])
  {
    var x, y := s.txns[d], s.txns[r];
    assert TxnFormed(x, s.virements, |s.approved|) && TxnFormed(y, s.virements, |s.approved|);
    assert Holds(y, VirementRow(y.virement));
    FateStays(s, d, r, initial);
  }

  /** The receiver passes its check at most, and then waits for the lower line. */
  lemma {:induction false} ReceiverStaysBound(s: State, d: nat, r: nat, initial: seq<int>)
    requires Sane(s, initial) && d < |s.txns| && r < |s.txns| && DoomedPair(s, s.txns[d], s.txns[r]) && Step(s, r).Some?
    ensures DoomedPair(Step(s, r).value, Step(s, r).value.txns[d], Step(s, r).value.txns[r])
  {
    var x, y := s.txns[d], s.txns[r];
    assert TxnFormed(x, s.virements, |s.approved|) && TxnFormed(y, s.virements, |s.approved|);
    assert Holds(x, LineRow(Low(y)));
    FateStays(s, r, d, initial);
  }

  lemma {:induction false} MoveKeepsDoom(s: State, i: nat, stage: Stage, x: Txn)
    requires i < |s.spends| && s.spends[i].stage != Direct && stage != Direct && Fated(s, x)
    ensures Fated(s.(spends := s.spends[i := s.spends[i].(stage := stage)]), x)
  {
    if x.source < |s.approved| {
      MoveKeepsAvailable(s.approved, s.spends, i, stage, x.source);
    }
  }

  lemma {:induction false} ActKeepsDoom(s: State, d: nat, r: nat, a: Action, initial: seq<int>)
    requires Sane(s, initial) && d < |s.txns| && r < |s.txns| && DoomedPair(s, s.txns[d], s.txns[r]) && Act(s, a).Some?
    ensures var next := Act(s, a).value;
            d < |next.txns| && r < |next.txns| && DoomedPair(next, next.txns[d], next.txns[r])
  {
    match a
    case Advance(t) =>
      StepMovesOne(s, t);
      if t == d {
        DirectStaysFated(s, d, r, initial);
      } else if t == r {
        ReceiverStaysBound(s, d, r, initial);
      } else {
        FateStays(s, t, d, initial);
        FateStays(s, t, r, initial);
      }
    case Move(i, stage) => MoveKeepsDoom(s, i, stage, s.txns[d]);
    case _ =>
  }

  lemma {:induction false} DoomIsForever(s: State, d: nat, r: nat, actions: seq<Action>, initial: seq<int>)
    requires Sane(s, initial) && d < |s.txns| && r < |s.txns| && DoomedPair(s, s.txns[d], s.txns[r])
    ensures !AllFinished(Run(s, actions).txns)
    decreases |actions|
  {
    if actions != [] {
      if Act(s, actions[0]).Some? {
        ActKeepsDoom(s, d, r, actions[0], initial);
        ActKeeps(s, actions[0], initial);
      }
      DoomIsForever(Next(s, actions[0]), d, r, actions[1..], initial);
    }
  }

  // ---- Steps that bring doom ------------------------------------------------------

  /** A direct approval about to take its second line, which is its source and funded, while
      a receiver holds its virement. */
  predicate Risky(s: State, x: Txn) {
    x.Applying? && x.unlocked && x.at == HaveLow && x.target < x.source && Funded(s, x)
  }

  /** The steps that can doom: a receiver taking the row, and a direct approval taking a
      line. */
  lemma {:induction false} StepDooms(s: State, t: nat, d: nat, r: nat, initial: seq<int>)
    requires Sane(s, initial) && Step(s, t).Some? && d < |s.txns| && r < |s.txns|
    requires !DoomedPair(s, s.txns[d], s.txns[r])
    requires DoomedPair(Step(s, t).value, Step(s, t).value.txns[d], Step(s, t).value.txns[r])
    ensures || (t == r && s.txns[r].at == Start && Fated(s, s.txns[d]))
            || (t == d && Bound(s, s.txns[r]) && (s.txns[d].at == Checked || Risky(s, s.txns[d])))
  {
    StepMovesOne(s, t);
    assert TxnFormed(s.txns[t], s.virements, |s.approved|);
    if t != d {
      FateStays(s, t, d, initial);
    }
    if t != r {
      FateStays(s, t, r, initial);
    }
  }

  /** Clear of both kinds of first steps. */
  predicate Sheltered(x: Txn) {
    x.Applying? ==> x.at != Start && (x.at == Checked ==> !x.unlocked)
  }

  /** From a transaction with a line, following who holds what it waits for reaches one that
      can step and is past its first steps. */
  lemma {:induction false} LineHolderMoves(s: State, h: nat, line: nat, initial: seq<int>) returns (m: nat)
    requires Sane(s, initial) && !Doomed(s) && h < |s.txns| && Holds(s.txns[h], LineRow(line))
    requires !OutOfOrder(s.txns[h])
    ensures Step(s, m).Some? && Sheltered(s.txns[m])
    decreases |s.approved| + 1 - if Wants(s.txns[h]).Some? then Rank(Wants(s.txns[h]).value) else 0
  {
    var x := s.txns[h];
    assert TxnFormed(x, s.virements, |s.approved|);
    m := h;
    if Wants(x).Some? && Wants(x).value in s.locks {
      var wanted := Wants(x).value;
      WaitsUpwards(x, LineRow(line));
      m := s.locks[wanted];
      assert Holds(s.txns[m], wanted) && TxnFormed(s.txns[m], s.virements, |s.approved|);
      if OutOfOrder(s.txns[m]) {
        m := RowHolderMoves(s, m, initial);
      } else if Wants(s.txns[m]).Some? {
        WaitsUpwards(s.txns[m], wanted);
        m := LineHolderMoves(s, m, wanted.id, initial);
      }
    }
  }

  lemma {:induction false} RowHolderMoves(s: State, d: nat, initial: seq<int>) returns (m: nat)
    requires Sane(s, initial) && !Doomed(s) && d < |s.txns| && OutOfOrder(s.txns[d])
    ensures Step(s, m).Some? && Sheltered(s.txns[m])
  {
    var row := VirementRow(s.txns[d].virement);
    m := d;
    if row in s.locks {
      m := s.locks[row];
      assert Holds(s.txns[m], row);
      assert TxnFormed(s.txns[m], s.virements, |s.approved|);
      LastRowHolder(s, d, m, initial);
      assert !DoomedPair(s, s.txns[d], s.txns[m]);
    }
  }

  // ---- A step for everyone who can finish -----------------------------------------

  ghost predicate LineHeld(s: State) {
    exists h, line :: 0 <= h < |s.txns| && Holds(s.txns[h], LineRow(line))
  }

  ghost predicate RowHeld(s: State) {
    exists h, id :: 0 <= h < |s.txns| && Holds(s.txns[h], VirementRow(id))
  }

  /** A step past the first ones dooms only where it is risky. */
  lemma {:induction false} ShelteredIsSafe(s: State, m: nat, initial: seq<int>)
    requires Sane(s, initial) && !Doomed(s) && Step(s, m).Some? && Sheltered(s.txns[m]) && !Risky(s, s.txns[m])
    ensures !Doomed(Step(s, m).value)
  {
    var next := Step(s, m).value;
    StepMovesOne(s, m);
    if Doomed(next) {
      var d, r :| 0 <= d < |next.txns| && 0 <= r < |next.txns| && DoomedPair(next, next.txns[d], next.txns[r]);
      assert !DoomedPair(s, s.txns[d], s.txns[r]);
      StepDooms(s, m, d, r, initial);
    }
  }

  lemma FatedHoldsLine(s: State, initial: seq<int>)
    requires Sane(s, initial)
    ensures forall d :: 0 <= d < |s.txns| && Fated(s, s.txns[d]) ==> LineHeld(s)
  {
    forall d | 0 <= d < |s.txns| && Fated(s, s.txns[d]) ensures LineHeld(s) {
      assert Holds(s.txns[d], LineRow(Low(s.txns[d])));
    }
  }

  lemma BoundHoldsRow(s: State, initial: seq<int>)
    requires Sane(s, initial)
    ensures forall r :: 0 <= r < |s.txns| && Bound(s, s.txns[r]) ==> RowHeld(s)
  {
    forall r | 0 <= r < |s.txns| && Bound(s, s.txns[r]) ensures RowHeld(s) {
      assert Holds(s.txns[r], VirementRow(s.txns[r].virement));
    }
  }

  /** Where no line is held nothing is fated; where no row is held no receiver is bound. */
  lemma {:induction false} FirstStepIsSafe(s: State, m: nat, initial: seq<int>)
    requires Sane(s, initial) && Step(s, m).Some? && Unobstructed(s, m)
    ensures !Doomed(Step(s, m).value)
  {
    var next := Step(s, m).value;
    StepMovesOne(s, m);
    FatedHoldsLine(s, initial);
    BoundHoldsRow(s, initial);
    assert TxnFormed(s.txns[m], s.virements, |s.approved|);
    if Doomed(next) {
      var d, r :| 0 <= d < |next.txns| && 0 <= r < |next.txns| && DoomedPair(next, next.txns[d], next.txns[r]);
      StepDooms(s, m, d, r, initial);
    }
  }

  lemma {:induction false} RowHolderSteps(s: State, h: nat, id: nat, initial: seq<int>)
    requires Sane(s, initial) && !LineHeld(s) && h < |s.txns| && Holds(s.txns[h], VirementRow(id))
    ensures Step(s, h).Some?
  {
    var x := s.txns[h];
    assert TxnFormed(x, s.virements, |s.approved|);
    if Wants(x).Some? && Wants(x).value in s.locks {
      assert Holds(s.txns[s.locks[Wants(x).value]], Wants(x).value);
    }
  }

  lemma LocksAreHeld(s: State, initial: seq<int>)
    requires Sane(s, initial)
    ensures forall r :: r in s.locks ==> LineHeld(s) || RowHeld(s)
  {
    forall r | r in s.locks ensures LineHeld(s) || RowHeld(s) {
      assert Holds(s.txns[s.locks[r]], r);
      match r
      case LineRow(_) =>
      case VirementRow(_) =>
    }
  }

  /** Clear of lines and rows of others: no line is held at all, nor any row but by `m`. */
  ghost predicate Unobstructed(s: State, m: nat) {
    m < |s.txns| && !LineHeld(s) && (RowHeld(s) ==> exists id :: Holds(s.txns[m], VirementRow(id)))
  }

  /** In a state that is not doomed someone can step who is past the first steps, or alone. */
  lemma {:induction false} Mover(s: State, t: nat, initial: seq<int>) returns (m: nat)
    requires Sane(s, initial) && !Doomed(s) && t < |s.txns| && !Finished(s.txns[t])
    ensures Step(s, m).Some? && (Sheltered(s.txns[m]) || Unobstructed(s, m))
  {
    if LineHeld(s) {
      var h, line :| 0 <= h < |s.txns| && Holds(s.txns[h], LineRow(line));
      if OutOfOrder(s.txns[h]) {
        m := RowHolderMoves(s, h, initial);
      } else {
        m := LineHolderMoves(s, h, line, initial);
      }
    } else if RowHeld(s) {
      var h, id :| 0 <= h < |s.txns| && Holds(s.txns[h], VirementRow(id));
      RowHolderSteps(s, h, id, initial);
      m := h;
    } else {
      m := t;
      LocksAreHeld(s, initial);
    }
  }

  lemma {:induction false} MoverIsSafe(s: State, m: nat, initial: seq<int>)
    requires Sane(s, initial) && !Doomed(s) && Step(s, m).Some? && !Risky(s, s.txns[m])
    requires Sheltered(s.txns[m]) || Unobstructed(s, m)
    ensures !Doomed(Step(s, m).value)
  {
    if Sheltered(s.txns[m]) {
      ShelteredIsSafe(s, m, initial);
    } else {
      FirstStepIsSafe(s, m, initial);
    }
  }

  // ---- Out of a risk --------------------------------------------------------------

  const UNRULED := Gate.Terms(Some(Gate.NoCheck), Gate.NoCheck, false, [], 0)

  function Spent(line: nat, sum: int, stands: SpendStep): Txn {
    Spending(line, sum, true, UNRULED, stands)
  }

  function WithSpend(s: State, x: Spend, done: Txn): State {
    s.(spends := s.spends + [x], txns := s.txns + [done])
  }

  lemma SpendBegins(s: State, line: nat, sum: int)
    requires Formed(s) && line < |s.approved| && LineRow(line) !in s.locks
    ensures Formed(Begin(s, Spent(line, sum, Ready)))
    ensures Next(s, BeginSpend(line, sum, true, UNRULED)) == Begin(s, Spent(line, sum, Ready))
    ensures Next(Begin(s, Spent(line, sum, Ready)), Advance(|s.txns|))
         == Begin(s, Spent(line, sum, HaveLine)).(locks := s.locks[LineRow(line) := |s.txns|])
  {
    assert (s.txns + [Spent(line, sum, Ready)])[|s.txns| := Spent(line, sum, HaveLine)]
        == s.txns + [Spent(line, sum, HaveLine)];
  }

  lemma SpendEnds(s: State, line: nat, sum: int, initial: seq<int>)
    requires Sane(s, initial) && line < |s.approved| && LineRow(line) !in s.locks
    ensures var held := Begin(s, Spent(line, sum, HaveLine)).(locks := s.locks[LineRow(line) := |s.txns|]);
            var passed := Begin(s, Spent(line, sum, Admitted)).(locks := held.locks);
            && Formed(held) && Formed(passed) && Next(held, Advance(|s.txns|)) == passed
            && Next(passed, Advance(|s.txns|)) == WithSpend(s, Spend(line, sum, Direct), Spent(line, sum, Settled))
  {
    var t := |s.txns|;
    var held := Begin(s, Spent(line, sum, HaveLine)).(locks := s.locks[LineRow(line) := t]);
    assert held.txns[t := Spent(line, sum, Admitted)] == s.txns + [Spent(line, sum, Admitted)];
    assert (s.txns + [Spent(line, sum, Admitted)])[t := Spent(line, sum, Settled)]
        == s.txns + [Spent(line, sum, Settled)];
    assert Release(held.locks, t) == s.locks;
  }

  /** A spend under no check on a free line goes through by itself. */
  lemma {:induction false} SpendPasses(s: State, line: nat, sum: int, initial: seq<int>) returns (schedule: seq<Action>)
    requires Sane(s, initial) && line < |s.approved| && LineRow(line) !in s.locks
    ensures Run(s, schedule) == WithSpend(s, Spend(line, sum, Direct), Spent(line, sum, Settled))
  {
    var t := |s.txns|;
    SpendBegins(s, line, sum);
    SpendEnds(s, line, sum, initial);
    schedule := [BeginSpend(line, sum, true, UNRULED)] + ([Advance(t)] + ([Advance(t)] + ([Advance(t)] + [])));
    var held := Begin(s, Spent(line, sum, HaveLine)).(locks := s.locks[LineRow(line) := t]);
    var passed := Begin(s, Spent(line, sum, Admitted)).(locks := held.locks);
    var after := WithSpend(s, Spend(line, sum, Direct), Spent(line, sum, Settled));
    RunFour(s, Begin(s, Spent(line, sum, Ready)), held, passed, after,
            BeginSpend(line, sum, true, UNRULED), Advance(t), Advance(t), Advance(t));
  }

  /** Spending the source of a risky approval beyond what it asks dooms nobody, and takes the
      risk away. */
  lemma {:induction false} SpendRemovesRisk(s: State, m: nat, sum: int)
    requires Formed(s) && !Doomed(s) && m < |s.txns| && s.txns[m].Applying? && s.txns[m].source < |s.approved|
    requires sum > 0 && sum + s.txns[m].amount > Available(s.approved, s.spends, s.txns[m].source)
    ensures var line := s.txns[m].source;
            var after := WithSpend(s, Spend(line, sum, Direct), Spent(line, sum, Settled));
            !Doomed(after) && !Risky(after, s.txns[m])
  {
    var line := s.txns[m].source;
    var x := Spend(line, sum, Direct);
    var after := WithSpend(s, x, Spent(line, sum, Settled));
    forall other: nat | other < |s.approved|
      ensures Available(after.approved, after.spends, other)
           == Available(s.approved, s.spends, other) - if other == line then sum else 0
    {
      TotalsAppend(s.spends, x, other);
    }
    forall d, r | 0 <= d < |after.txns| && 0 <= r < |after.txns|
      ensures !DoomedPair(after, after.txns[d], after.txns[r])
    {
      assert d < |s.txns| && r < |s.txns| ==> !DoomedPair(s, s.txns[d], s.txns[r]);
    }
  }

  lemma {:induction false} RemainingAppend(txns: seq<Txn>, x: Txn)
    ensures AllRemaining(txns + [x]) == AllRemaining(txns) + Remaining(x)
  {
    if txns == [] {
      assert (txns + [x])[1..] == [];
    } else {
      assert (txns + [x])[1..] == txns[1..] + [x];
      RemainingAppend(txns[1..], x);
    }
  }

  lemma {:induction false} RunJoin(s: State, a: seq<Action>, b: seq<Action>, initial: seq<int>)
    requires Sane(s, initial)
    ensures Run(s, a + b) == Run(Run(s, a), b)
    decreases |a|
  {
    if a == [] {
      assert a + b == b;
    } else {
      assert (a + b)[1..] == a[1..] + b;
      if Act(s, a[0]).Some? {
        ActKeeps(s, a[0], initial);
      }
      RunJoin(Next(s, a[0]), a[1..], b, initial);
    }
  }

  lemma {:induction false} StepsOn(s: State, m: nat, initial: seq<int>) returns (schedule: seq<Action>)
    requires Sane(s, initial) && Step(s, m).Some? && !Doomed(Step(s, m).value)
    ensures Sane(Run(s, schedule), initial) && !Doomed(Run(s, schedule))
    ensures AllRemaining(Run(s, schedule).txns) < AllRemaining(s.txns)
  {
    schedule := [Advance(m)];
    StepKeeps(s, m, initial);
    StepShortens(s, m);
    assert schedule == [Advance(m)] + [];
    RunAdvances(s, m, []);
  }

  /** The source of a risky approval, its second line, is free: spend it. */
  lemma {:induction false} SpendAway(s: State, m: nat, initial: seq<int>) returns (schedule: seq<Action>)
    requires Sane(s, initial) && !Doomed(s) && Step(s, m).Some? && Risky(s, s.txns[m])
    ensures var after := Run(s, schedule);
            && Sane(after, initial) && !Doomed(after) && AllRemaining(after.txns) == AllRemaining(s.txns)
            && m < |after.txns| && after.txns[m] == s.txns[m] && after.locks == s.locks && !Risky(after, after.txns[m])
  {
    var line := s.txns[m].source;
    var sum := Available(s.approved, s.spends, line) - s.txns[m].amount + 1;
    schedule := SpendPasses(s, line, sum, initial);
    RunIsSane(s, schedule, initial);
    SpendRemovesRisk(s, m, sum);
    RemainingAppend(s.txns, Spent(line, sum, Settled));
  }

  lemma {:induction false} OutOfRisk(s: State, m: nat, initial: seq<int>) returns (schedule: seq<Action>)
    requires Sane(s, initial) && !Doomed(s) && Step(s, m).Some? && Risky(s, s.txns[m])
    ensures Sane(Run(s, schedule), initial) && !Doomed(Run(s, schedule))
    ensures AllRemaining(Run(s, schedule).txns) < AllRemaining(s.txns)
  {
    var spend := SpendAway(s, m, initial);
    var after := Run(s, spend);
    ShelteredIsSafe(after, m, initial);
    var rest := StepsOn(after, m, initial);
    RunJoin(s, spend, rest, initial);
    schedule := spend + rest;
  }

  // ---- Exactly which states can finish --------------------------------------------

  lemma {:induction false} UndoomedFinishes(s: State, initial: seq<int>) returns (schedule: seq<Action>)
    requires Sane(s, initial) && !Doomed(s)
    ensures AllFinished(Run(s, schedule).txns)
    decreases AllRemaining(s.txns)
  {
    if AllRemaining(s.txns) == 0 {
      NothingRemains(s.txns);
      schedule := [];
    } else {
      var t := UnfinishedRemains(s.txns);
      var m := Mover(s, t, initial);
      var first: seq<Action>;
      if Risky(s, s.txns[m]) {
        first := OutOfRisk(s, m, initial);
      } else {
        MoverIsSafe(s, m, initial);
        first := StepsOn(s, m, initial);
      }
      var rest := UndoomedFinishes(Run(s, first), initial);
      RunJoin(s, first, rest, initial);
      schedule := first + rest;
    }
  }

  /** From any reachable state everyone can still finish exactly when no fated direct approval
      meets a bound receiver of its virement. */
  lemma {:induction false} FinishableExactlyWhen(s: State, initial: seq<int>)
    requires Sane(s, initial)
    ensures Finishable(s) <==> !Doomed(s)
  {
    if Doomed(s) {
      var d, r :| 0 <= d < |s.txns| && 0 <= r < |s.txns| && DoomedPair(s, s.txns[d], s.txns[r]);
      forall schedule ensures !AllFinished(Run(s, schedule).txns) {
        DoomIsForever(s, d, r, schedule, initial);
      }
    } else {
      var schedule := UndoomedFinishes(s, initial);
    }
  }
}
