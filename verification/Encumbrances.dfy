/** Budget reservations: an encumbrance and its life, and any number of concurrent
    reservations against one budget row, mixed with cancellations and with liquidations
    that post the same amount to the ledger, both made through unlocked copies. */
module Encumbrances {
  import opened Wrappers

  datatype Status = Draft | Active | PartiallyLiquidated | FullyLiquidated | Cancelled | Reversed

  datatype Record = Record(reference: nat, amount: int, liquidated: int, remaining: int, status: Status)

  datatype ControlLevel = NoControl | WarningOnly | HardStop

  /** `limitPercent` is the over-expenditure limit in per cent. */
  datatype Budget = Budget(original: int, revised: int, level: ControlLevel, allowOver: bool, limitPercent: real)

  // ---- One encumbrance ------------------------------------------------------------

  predicate Counts(e: Record) {
    e.status == Active || e.status == PartiallyLiquidated
  }

  /** What an encumbrance reserves. */
  function Reserved(e: Record): int {
    if Counts(e) then e.amount - e.liquidated else 0
  }

  /** What saving makes of a record: only an active one changes status. */
  function Saved(e: Record): Record {
    var remaining := e.amount - e.liquidated;
    var status :=
      if e.status == Active && remaining <= 0 then FullyLiquidated
      else if e.status == Active && e.liquidated > 0 then PartiallyLiquidated
      else e.status;
    e.(remaining := remaining, status := status)
  }

  function Liquidated(e: Record, amount: int): Record {
    Saved(e.(liquidated := e.liquidated + amount))
  }

  function CancelledRecord(e: Record): Record {
    Saved(e.(status := Cancelled))
  }

  class Encumbrance {
    const reference: nat
    var amount: int
    var liquidated: int
    var remaining: int
    var status: Status

    function Value(): Record
      reads this
    {
      Record(reference, amount, liquidated, remaining, status)
    }

    /** A reservation is created active and saved at once. */
    constructor (reference: nat, amount: int)
      ensures Value() == Saved(Record(reference, amount, 0, 0, Active))
    {
      this.reference, this.amount, liquidated := reference, amount, 0;
      remaining, status := 0, Active;
      new;
      Save();
    }

    method Save()
      modifies this`remaining, this`status
      ensures Value() == Saved(old(Value()))
    {
      remaining := amount - liquidated;
      if status == Active && remaining <= 0 {
        status := FullyLiquidated;
      } else if status == Active && liquidated > 0 {
        status := PartiallyLiquidated;
      }
    }

    method Liquidate(sum: int)
      modifies this
      ensures Value() == Liquidated(old(Value()), sum)
    {
      liquidated := liquidated + sum;
      Save();
    }

    method Cancel()
      modifies this
      ensures Value() == CancelledRecord(old(Value()))
    {
      status := Cancelled;
      Save();
    }
  }

  /** Saved, and never liquidated beyond its amount while it still counts. */
  predicate Settled(e: Record) {
    && e.remaining == e.amount - e.liquidated
    && (e.status == Active ==> e.remaining > 0 && e.liquidated <= 0)
    && (e.status == PartiallyLiquidated ==> e.remaining >= 0)
  }

  /** A liquidation matched by an equal posting leaves reserved plus spent as it was exactly
      when nothing is liquidated, or the record counts and, if active, has that much left. */
  lemma LiquidationBalancesExactlyWhen(e: Record, amount: int)
    requires Saved(e) == e
    ensures Reserved(Liquidated(e, amount)) + amount == Reserved(e)
            <==> amount == 0 || e.status == PartiallyLiquidated || (e.status == Active && amount <= e.remaining)
  {
  }

  /** Cancelling never adds to what is reserved, exactly unless the record still counts
      although it was liquidated beyond its amount. */
  lemma CancelFreesExactlyWhen(e: Record)
    ensures Reserved(CancelledRecord(e)) <= Reserved(e) <==> !(Counts(e) && e.liquidated > e.amount)
  {
  }

  // ---- The budget row -------------------------------------------------------------

  function Allocated(b: Budget): int {
    if b.revised != 0 then b.revised else b.original
  }

  /** How far allocation and configured over-expenditure reach. */
  function Ceiling(b: Budget): real {
    Allocated(b) as real
    + if b.allowOver && b.limitPercent > 0.0 then Allocated(b) as real * (b.limitPercent / 100.0) else 0.0
  }

  /** The available amount from the two totals as read, never below zero. */
  function AvailableFrom(b: Budget, encumbered: int, expended: int): real {
    var available := Ceiling(b) - encumbered as real - expended as real;
    if available < 0.0 then 0.0 else available
  }

  predicate Allows(b: Budget, encumbered: int, expended: int, amount: int) {
    AvailableFrom(b, encumbered, expended) >= amount as real || b.level != HardStop
  }

  function Encumbered(records: seq<Record>): int {
    if records == [] then 0 else Reserved(records[0]) + Encumbered(records[1..])
  }

  predicate HasReference(records: seq<Record>, reference: nat) {
    records != [] && (records[0].reference == reference || HasReference(records[1..], reference))
  }

  // ---- Concurrent reservations ----------------------------------------------------

  /** Where a reservation stands: waiting for the row lock, holding it, with the encumbered
      total read, with the expended total read as well, finished.  The two totals are read
      by two queries, and others may commit in between. */
  datatype Phase = Waiting | Holding | ReadOne(encumbered: int) | ReadBoth(encumbered: int, expended: int) | Over

  datatype Consume = Consume(reference: nat, amount: int, phase: Phase)

  /** A record as a caller read it; saving it writes every field. */
  datatype Copy = Copy(row: nat, value: Record)

  datatype State = State(records: seq<Record>, expended: int, txns: seq<Consume>, holder: Option<nat>,
                         copies: seq<Copy>)

  datatype Action =
    | Begin(reference: nat, amount: int)
    | Advance(txn: nat)
    | Read(row: nat)
    | Cancel(copy: nat)
    | LiquidateAndPost(copy: nat, amount: int)

  function WithPhase(s: State, t: nat, phase: Phase): State
    requires t < |s.txns|
  {
    s.(txns := s.txns[t := s.txns[t].(phase := phase)])
  }

  function Finish(s: State, t: nat): State
    requires t < |s.txns|
  {
    WithPhase(s, t, Over).(holder := None)
  }

  /** One step of a reservation; none while it is finished or blocked on the lock.  A refused
      check and a reference already reserved both roll back. */
  function Step(b: Budget, s: State, t: nat): Option<State>
    requires t < |s.txns|
  {
    var x := s.txns[t];
    match x.phase
    case Waiting => if s.holder.Some? then None else Some(WithPhase(s, t, Holding).(holder := Some(t)))
    case Holding => Some(WithPhase(s, t, ReadOne(Encumbered(s.records))))
    case ReadOne(encumbered) => Some(WithPhase(s, t, ReadBoth(encumbered, s.expended)))
    case ReadBoth(encumbered, expended) =>
      if !Allows(b, encumbered, expended, x.amount) || HasReference(s.records, x.reference) then Some(Finish(s, t))
      else Some(Finish(s.(records := s.records + [Saved(Record(x.reference, x.amount, 0, 0, Active))]), t))
    case Over => None
  }

  /** The copy saved over its row. */
  function SaveCopy(s: State, c: nat, value: Record): State
    requires c < |s.copies| && s.copies[c].row < |s.records|
  {
    var row := s.copies[c].row;
    s.(records := s.records[row := value], copies := s.copies[c := Copy(row, value)])
  }

  /** What an action does, or none when it is refused.  A liquidation stays within what its
      copy shows, and posts the same amount in the same transaction. */
  function Act(b: Budget, s: State, a: Action): Option<State>
    requires Formed(s)
  {
    match a
    case Begin(reference, amount) => Some(s.(txns := s.txns + [Consume(reference, amount, Waiting)]))
    case Advance(t) => if t < |s.txns| then Step(b, s, t) else None
    case Read(row) => if row < |s.records| then Some(s.(copies := s.copies + [Copy(row, s.records[row])])) else None
    case Cancel(c) => if c < |s.copies| then Some(SaveCopy(s, c, CancelledRecord(s.copies[c].value))) else None
    case LiquidateAndPost(c, amount) =>
      if c < |s.copies| && Counts(s.copies[c].value) && 0 <= amount <= s.copies[c].value.remaining
      then Some(SaveCopy(s, c, Liquidated(s.copies[c].value, amount)).(expended := s.expended + amount))
      else None
  }

  predicate Formed(s: State) {
    forall c :: 0 <= c < |s.copies| ==> s.copies[c].row < |s.records| && Settled(s.copies[c].value)
  }

  /** A refused action has no effect. */
  function Next(b: Budget, s: State, a: Action): State
    requires Formed(s)
  {
    match Act(b, s, a)
    case Some(next) => next
    case None => s
  }

  // ---- What every state keeps -----------------------------------------------------

  /** What a reservation has read bounds what is there now: the encumbered total can only
      have fallen, and the sum of both as well. */
  predicate StillBounded(x: Consume, t: nat, records: seq<Record>, expended: int, holder: Option<nat>) {
    match x.phase
    case Waiting => true
    case Holding => holder == Some(t)
    case ReadOne(e) => holder == Some(t) && Encumbered(records) <= e
    case ReadBoth(e, spent) => holder == Some(t) && Encumbered(records) + expended <= e + spent
    case Over => true
  }

  predicate AllSettled(records: seq<Record>) {
    forall i :: 0 <= i < |records| ==> Settled(records[i])
  }

  ghost predicate Good(b: Budget, s: State) {
    && Formed(s)
    && AllSettled(s.records)
    && (forall t :: 0 <= t < |s.txns| ==> StillBounded(s.txns[t], t, s.records, s.expended, s.holder))
    && (Encumbered(s.records) + s.expended) as real <= Ceiling(b)
  }

  lemma {:induction false} EncumberedUpdate(records: seq<Record>, i: nat, e: Record)
    requires i < |records|
    ensures Encumbered(records[i := e]) == Encumbered(records) - Reserved(records[i]) + Reserved(e)
  {
    if i == 0 {
      assert records[i := e][1..] == records[1..];
    } else {
      assert records[i := e][1..] == records[1..][i - 1 := e];
      EncumberedUpdate(records[1..], i - 1, e);
    }
  }

  lemma {:induction false} EncumberedAppend(records: seq<Record>, e: Record)
    ensures Encumbered(records + [e]) == Encumbered(records) + Reserved(e)
  {
    if records == [] {
      assert (records + [e])[1..] == [];
    } else {
      assert (records + [e])[1..] == records[1..] + [e];
      EncumberedAppend(records[1..], e);
    }
  }

  /** Saving a copy keeps everything as long as it reserves no more than was there. */
  lemma {:induction false} SaveKeeps(b: Budget, s: State, c: nat, value: Record, posted: nat)
    requires Good(b, s) && c < |s.copies| && Settled(value)
    requires Reserved(value) + posted <= Reserved(s.records[s.copies[c].row])
    ensures Good(b, SaveCopy(s, c, value).(expended := s.expended + posted))
  {
    EncumberedUpdate(s.records, s.copies[c].row, value);
  }

  /** Under hard-stop control no step of a reservation takes the budget beyond its ceiling. */
  lemma {:induction false} StepKeeps(b: Budget, s: State, t: nat)
    requires Good(b, s) && b.level == HardStop && t < |s.txns| && Step(b, s, t).Some?
    ensures Good(b, Step(b, s, t).value)
  {
    var x := s.txns[t];
    assert StillBounded(x, t, s.records, s.expended, s.holder);
    EncumberedAppend(s.records, Saved(Record(x.reference, x.amount, 0, 0, Active)));
  }

  /** A liquidation saves over a record that still reserves what its copy shows: nothing has
      cancelled or liquidated it since. */
  predicate InTime(s: State, a: Action)
    requires Formed(s)
  {
    a.LiquidateAndPost? && a.copy < |s.copies| ==>
      Reserved(s.copies[a.copy].value) <= Reserved(s.records[s.copies[a.copy].row])
  }

  function Committed(s: State): int {
    Encumbered(s.records) + s.expended
  }

  /** Liquidations and cancellations never raise encumbered plus expended, exactly when each
      liquidation is in time. */
  lemma {:induction false} SaveRaisesExactlyWhen(b: Budget, s: State, a: Action)
    requires Formed(s) && AllSettled(s.records) && (a.Cancel? || a.LiquidateAndPost?) && Act(b, s, a).Some?
    ensures Committed(Act(b, s, a).value) <= Committed(s) <==> InTime(s, a)
  {
    var row, value := s.copies[a.copy].row, s.copies[a.copy].value;
    if a.Cancel? {
      EncumberedUpdate(s.records, row, CancelledRecord(value));
    } else {
      EncumberedUpdate(s.records, row, Liquidated(value, a.amount));
    }
  }

  lemma {:induction false} ActKeeps(b: Budget, s: State, a: Action)
    requires Good(b, s) && b.level == HardStop && Act(b, s, a).Some? && InTime(s, a)
    ensures Good(b, Act(b, s, a).value)
  {
    match a
    case Begin(_, _) =>
    case Advance(t) => StepKeeps(b, s, t);
    case Read(row) =>
    case Cancel(c) => SaveKeeps(b, s, c, CancelledRecord(s.copies[c].value), 0);
    case LiquidateAndPost(c, amount) => SaveKeeps(b, s, c, Liquidated(s.copies[c].value, amount), amount);
  }

  /** On a budget without slack a liquidation over-commits exactly when it is late. */
  lemma {:induction false} LateLiquidationOverCommitsExactlyWhen(b: Budget, s: State, a: Action)
    requires Good(b, s) && b.level == HardStop && a.LiquidateAndPost? && Act(b, s, a).Some?
    requires Committed(s) as real == Ceiling(b)
    ensures Committed(Act(b, s, a).value) as real > Ceiling(b) <==> !InTime(s, a)
  {
    SaveRaisesExactlyWhen(b, s, a);
  }

  ghost predicate WithinThroughout(b: Budget, s: State, actions: seq<Action>)
    requires Formed(s)
    decreases |actions|
  {
    && Committed(s) as real <= Ceiling(b)
    && (actions == [] || (Formed(Next(b, s, actions[0])) && WithinThroughout(b, Next(b, s, actions[0]), actions[1..])))
  }

  ghost predicate AllInTime(b: Budget, s: State, actions: seq<Action>)
    requires Formed(s)
    decreases |actions|
  {
    actions == []
    || (&& (Act(b, s, actions[0]).Some? ==> InTime(s, actions[0])) && Formed(Next(b, s, actions[0]))
        && AllInTime(b, Next(b, s, actions[0]), actions[1..]))
  }

  /** Any interleaving of reservations, cancellations and timely liquidations on one hard-stop
      budget keeps encumbered plus expended within allocation and allowance throughout. */
  lemma {:induction false} NeverOverCommitted(b: Budget, s: State, actions: seq<Action>)
    requires Good(b, s) && b.level == HardStop && AllInTime(b, s, actions)
    ensures WithinThroughout(b, s, actions)
    decreases |actions|
  {
    if actions != [] {
      if Act(b, s, actions[0]).Some? {
        ActKeeps(b, s, actions[0]);
      }
      NeverOverCommitted(b, Next(b, s, actions[0]), actions[1..]);
    }
  }

  // ---- A late liquidation ---------------------------------------------------------

  const HUNDRED := Budget(100, 0, HardStop, false, 0.0)

  /** The states of the run below: a hundred reserved and read twice, cancelled through one
      copy, reserved again by another caller, and liquidated through the other copy. */
  function Held(status: Status): Record {
    Record(1, 100, 0, 100, status)
  }

  function Early(copies: seq<Copy>): State {
    State([Held(Active)], 0, [], None, copies)
  }

  function Cancelled100(txns: seq<Consume>, holder: Option<nat>): State {
    State([Held(Cancelled)], 0, txns, holder, [Copy(0, Held(Active)), Copy(0, Held(Cancelled))])
  }

  function Retaken(): State {
    State([Held(Cancelled), Record(2, 100, 0, 100, Active)], 0, [Consume(2, 100, Over)], None,
          [Copy(0, Held(Active)), Copy(0, Held(Cancelled))])
  }

  lemma CancelsThroughCopy()
    ensures Formed(Early([])) && Next(HUNDRED, Early([]), Read(0)) == Early([Copy(0, Held(Active))])
    ensures Formed(Early([Copy(0, Held(Active))]))
    ensures Next(HUNDRED, Early([Copy(0, Held(Active))]), Read(0))
         == Early([Copy(0, Held(Active)), Copy(0, Held(Active))])
    ensures Formed(Early([Copy(0, Held(Active)), Copy(0, Held(Active))]))
    ensures Next(HUNDRED, Early([Copy(0, Held(Active)), Copy(0, Held(Active))]), Cancel(1)) == Cancelled100([], None)
  {
  }

  lemma ReservesAgain()
    ensures Formed(Cancelled100([], None))
    ensures Next(HUNDRED, Cancelled100([], None), Begin(2, 100)) == Cancelled100([Consume(2, 100, Waiting)], None)
    ensures Formed(Cancelled100([Consume(2, 100, Waiting)], None))
    ensures Next(HUNDRED, Cancelled100([Consume(2, 100, Waiting)], None), Advance(0))
         == Cancelled100([Consume(2, 100, Holding)], Some(0))
  {
  }

  lemma ReadsNothingReserved()
    ensures Formed(Cancelled100([Consume(2, 100, Holding)], Some(0)))
    ensures Next(HUNDRED, Cancelled100([Consume(2, 100, Holding)], Some(0)), Advance(0))
         == Cancelled100([Consume(2, 100, ReadOne(0))], Some(0))
  {
    assert [Held(Cancelled)][1..] == [] && Encumbered([Held(Cancelled)]) == 0;
  }

  lemma HundredIsCeiling()
    ensures Ceiling(HUNDRED) == 100.0 && Allows(HUNDRED, 0, 0, 100)
  {
  }

  lemma ReadsNothingSpent()
    ensures Formed(Cancelled100([Consume(2, 100, ReadOne(0))], Some(0)))
    ensures Next(HUNDRED, Cancelled100([Consume(2, 100, ReadOne(0))], Some(0)), Advance(0))
         == Cancelled100([Consume(2, 100, ReadBoth(0, 0))], Some(0))
  {
  }

  lemma TakesTheRoom()
    ensures Formed(Cancelled100([Consume(2, 100, ReadBoth(0, 0))], Some(0)))
    ensures Next(HUNDRED, Cancelled100([Consume(2, 100, ReadBoth(0, 0))], Some(0)), Advance(0)) == Retaken()
  {
    HundredIsCeiling();
    assert [Held(Cancelled)][1..] == [] && !HasReference([Held(Cancelled)], 2);
  }

  lemma SavesLate()
    ensures Formed(Retaken()) && !InTime(Retaken(), LiquidateAndPost(0, 40))
    ensures Formed(Next(HUNDRED, Retaken(), LiquidateAndPost(0, 40)))
    ensures Committed(Next(HUNDRED, Retaken(), LiquidateAndPost(0, 40))) == 200
  {
    var second := Record(2, 100, 0, 100, Active);
    assert Retaken().records[1..] == [second] && [second][1..] == [];
    assert Encumbered([second]) == 100 && Encumbered(Retaken().records) == 100;
    EncumberedUpdate(Retaken().records, 0, Liquidated(Held(Active), 40));
  }

  lemma Follow(s: State, a: Action, rest: seq<Action>)
    requires Formed(s) && WithinThroughout(HUNDRED, s, [a] + rest)
    ensures Formed(Next(HUNDRED, s, a)) && WithinThroughout(HUNDRED, Next(HUNDRED, s, a), rest)
  {
    assert ([a] + rest)[1..] == rest;
  }

  lemma {:induction false} FollowFive(s: State, t: State, a: Action, b: Action, c: Action, d: Action, e: Action,
                                      rest: seq<Action>)
    requires Formed(s) && WithinThroughout(HUNDRED, s, [a] + ([b] + ([c] + ([d] + ([e] + rest)))))
    requires Formed(Next(HUNDRED, s, a)) && Formed(Next(HUNDRED, Next(HUNDRED, s, a), b))
    requires Formed(Next(HUNDRED, Next(HUNDRED, Next(HUNDRED, s, a), b), c))
    requires Formed(Next(HUNDRED, Next(HUNDRED, Next(HUNDRED, Next(HUNDRED, s, a), b), c), d))
    requires Next(HUNDRED, Next(HUNDRED, Next(HUNDRED, Next(HUNDRED, Next(HUNDRED, s, a), b), c), d), e) == t
    ensures Formed(t) && WithinThroughout(HUNDRED, t, rest)
  {
    Follow(s, a, [b] + ([c] + ([d] + ([e] + rest))));
    Follow(Next(HUNDRED, s, a), b, [c] + ([d] + ([e] + rest)));
    Follow(Next(HUNDRED, Next(HUNDRED, s, a), b), c, [d] + ([e] + rest));
    Follow(Next(HUNDRED, Next(HUNDRED, Next(HUNDRED, s, a), b), c), d, [e] + rest);
    Follow(Next(HUNDRED, Next(HUNDRED, Next(HUNDRED, Next(HUNDRED, s, a), b), c), d), e, rest);
  }

  /** Such a run takes a budget of a hundred to two hundred. */
  lemma {:induction false} LateLiquidationOverCommits() returns (run: seq<Action>)
    ensures Formed(Early([])) && !WithinThroughout(HUNDRED, Early([]), run)
  {
    var last := [LiquidateAndPost(0, 40)] + [];
    var more := [Advance(0)] + ([Advance(0)] + ([Advance(0)] + last));
    run := [Read(0)] + ([Read(0)] + ([Cancel(1)] + ([Begin(2, 100)] + ([Advance(0)] + more))));
    CancelsThroughCopy();
    if WithinThroughout(HUNDRED, Early([]), run) {
      ReservesAgain();
      FollowFive(Early([]), Cancelled100([Consume(2, 100, Holding)], Some(0)),
                 Read(0), Read(0), Cancel(1), Begin(2, 100), Advance(0), more);
      ReadsNothingReserved();
      ReadsNothingSpent();
      TakesTheRoom();
      Follow(Cancelled100([Consume(2, 100, Holding)], Some(0)), Advance(0), [Advance(0)] + ([Advance(0)] + last));
      Follow(Cancelled100([Consume(2, 100, ReadOne(0))], Some(0)), Advance(0), [Advance(0)] + last);
      Follow(Cancelled100([Consume(2, 100, ReadBoth(0, 0))], Some(0)), Advance(0), last);
      SavesLate();
      Follow(Retaken(), LiquidateAndPost(0, 40), []);
      HundredIsCeiling();
    }
  }
}
