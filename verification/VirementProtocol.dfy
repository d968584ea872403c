/** Concurrent virement approvals, status changes and gated spends over shared rows.  Each
    transaction takes its row locks one at a time, reads under them, and writes when it
    commits; between any two of its steps other transactions may step. */
module VirementProtocol {
  import opened Wrappers
  import opened AuditTrail
  import Gate

  /** A purchase-order commitment, or a payment without one. */
  datatype Stage = Active | Invoiced | Closed | Direct

  datatype Spend = Spend(line: nat, amount: int, stage: Stage)

  /** Where an approval stands: before its first step, holding the virement row, past the
      status check, holding the lower line, holding both, past the balance re-check with the
      amounts read but not yet committed, and (approved directly) holding the row at last. */
  datatype ApplyStep =
    | Start
    | HaveVirement
    | Checked
    | HaveLow
    | HaveBoth
    | Moved(sourceRead: int, targetRead: int)
    | HaveRow(sourceRead: int, targetRead: int)
    | Over

  datatype SpendStep = Ready | HaveLine | Admitted | Settled

  /** A status change: read through an unlocked copy, written later under the row's lock. */
  datatype WriteStep = Unread | Seen | HavePen | Written

  /** An approval comes through the receiver, which locks the virement first, or directly,
      in which case the status check reads an unlocked copy. */
  datatype Txn =
    | Applying(virement: nat, source: nat, target: nat, amount: int, unlocked: bool, at: ApplyStep)
    | Spending(line: nat, sum: int, direct: bool, terms: Gate.Terms, stands: SpendStep)
    | Writing(row: nat, becomes: Status, pen: WriteStep)

  datatype Row = VirementRow(id: nat) | LineRow(id: nat)

  datatype State = State(
    years: seq<nat>,
    approved: seq<int>,
    spends: seq<Spend>,
    virements: seq<Virement>,
    txns: seq<Txn>,
    locks: map<Row, nat>,
    log: seq<Entry>)

  datatype Action =
    | Create(source: nat, target: nat, amount: int)
    | BeginApply(id: nat, unlocked: bool)
    | BeginSubmit(id: nat)
    | BeginReject(id: nat)
    | BeginSpend(line: nat, sum: int, direct: bool, terms: Gate.Terms)
    | Move(spend: nat, stage: Stage)
    | Advance(txn: nat)

  // ---- Live totals ----------------------------------------------------------------

  function CommittedBy(x: Spend, line: nat): int {
    if x.line == line && (x.stage == Active || x.stage == Invoiced) then x.amount else 0
  }

  function ExpendedBy(x: Spend, line: nat): int {
    if x.line == line && (x.stage == Closed || x.stage == Direct) then x.amount else 0
  }

  function TotalCommitted(spends: seq<Spend>, line: nat): int {
    if spends == [] then 0 else CommittedBy(spends[0], line) + TotalCommitted(spends[1..], line)
  }

  function TotalExpended(spends: seq<Spend>, line: nat): int {
    if spends == [] then 0 else ExpendedBy(spends[0], line) + TotalExpended(spends[1..], line)
  }

  function Available(approved: seq<int>, spends: seq<Spend>, line: nat): int
    requires line < |approved|
  {
    approved[line] - TotalCommitted(spends, line) - TotalExpended(spends, line)
  }

  // ---- Well-formed states ---------------------------------------------------------

  predicate HasRead(at: ApplyStep) {
    at.Moved? || at.HaveRow?
  }

  /** A transaction works on the lines of its virement; past the receiver's re-check that
      virement is still open. */
  predicate TxnFormed(x: Txn, virements: seq<Virement>, lines: nat) {
    match x
    case Applying(id, source, target, amount, unlocked, at) =>
      && id < |virements| && source < lines && target < lines && source != target && amount > 0
      && virements[id].source == source && virements[id].target == target && virements[id].amount == amount
      && (if unlocked then at != HaveVirement else !at.HaveRow?)
      && (!unlocked && (at == Checked || at == HaveLow || at == HaveBoth || at.Moved?) ==> Open(virements[id]))
    case Spending(line, _, _, _, _) => line < lines
    case Writing(row, becomes, _) => row < |virements| && (becomes == Submitted || becomes == Rejected)
  }

  predicate Formed(s: State) {
    && |s.years| == |s.approved|
    && (forall id :: 0 <= id < |s.virements| ==> VirementFormed(s.virements[id], s.years))
    && (forall t :: 0 <= t < |s.txns| ==> TxnFormed(s.txns[t], s.virements, |s.approved|))
  }

  // ---- Steps ----------------------------------------------------------------------

  function Low(x: Txn): nat
    requires x.Applying?
  {
    if x.source < x.target then x.source else x.target
  }

  function High(x: Txn): nat
    requires x.Applying?
  {
    if x.source < x.target then x.target else x.source
  }

  predicate Finished(x: Txn) {
    match x
    case Applying(_, _, _, _, _, at) => at == Over
    case Spending(_, _, _, _, stands) => stands == Settled
    case Writing(_, _, pen) => pen == Written
  }

  /** The row lock the next step of a transaction needs, if it needs one. */
  function Wants(x: Txn): Option<Row> {
    match x
    case Applying(v, _, _, _, unlocked, at) =>
      if at == Start && !unlocked then Some(VirementRow(v))
      else if at == Checked then Some(LineRow(Low(x)))
      else if at == HaveLow then Some(LineRow(High(x)))
      else if at.Moved? && unlocked then Some(VirementRow(v))
      else None
    case Spending(line, _, _, _, stands) => if stands == Ready then Some(LineRow(line)) else None
    case Writing(row, _, pen) => if pen == Seen then Some(VirementRow(row)) else None
  }

  /** The row locks a transaction must hold where it stands. */
  predicate Holds(x: Txn, r: Row) {
    match x
    case Applying(v, source, target, _, unlocked, at) =>
      (match r
       case VirementRow(id) => id == v && if unlocked then at.HaveRow? else at != Start && at != Over
       case LineRow(id) =>
         || (at == HaveLow && id == Low(x))
         || ((at == HaveBoth || HasRead(at)) && (id == source || id == target)))
    case Spending(line, _, _, _, stands) => r == LineRow(line) && (stands == HaveLine || stands == Admitted)
    case Writing(row, _, pen) => r == VirementRow(row) && pen == HavePen
  }

  function Release(locks: map<Row, nat>, t: nat): map<Row, nat> {
    map r | r in locks && locks[r] != t :: locks[r]
  }

  function Ended(x: Txn): Txn {
    match x
    case Applying(_, _, _, _, _, _) => x.(at := Over)
    case Spending(_, _, _, _, _) => x.(stands := Settled)
    case Writing(_, _, _) => x.(pen := Written)
  }

  /** The transaction ends: commit or roll back, every lock is let go. */
  function End(s: State, t: nat): State
    requires t < |s.txns|
  {
    s.(txns := s.txns[t := Ended(s.txns[t])], locks := Release(s.locks, t))
  }

  function Goto(s: State, t: nat, x: Txn): State
    requires t < |s.txns|
  {
    s.(txns := s.txns[t := x])
  }

  /** What a commit records of the balances it read and writes. */
  function SnapshotOf(x: Txn): Snapshot
    requires x.Applying? && HasRead(x.at)
  {
    Snapshot(x.at.sourceRead, x.at.sourceRead - x.amount, x.at.targetRead, x.at.targetRead + x.amount)
  }

  function MovedBalances(approved: seq<int>, x: Txn): seq<int>
    requires x.Applying? && HasRead(x.at) && x.source < |approved| && x.target < |approved|
  {
    approved[x.source := SnapshotOf(x).sourceAfter][x.target := SnapshotOf(x).targetAfter]
  }

  /** The commit of an approval: both amounts, the status and the snapshot at once. */
  function Commit(s: State, t: nat): State
    requires t < |s.txns| && s.txns[t].Applying? && HasRead(s.txns[t].at)
    requires TxnFormed(s.txns[t], s.virements, |s.approved|)
  {
    var x := s.txns[t];
    End(s.(approved := MovedBalances(s.approved, x),
           virements := Stamped(s.virements, x.virement, SnapshotOf(x)),
           log := s.log + [EntryOf(s.virements[x.virement], x.virement, SnapshotOf(x))]),
        t)
  }

  /** The next step of an approval that waits for no lock. */
  function StepApply(s: State, t: nat): State
    requires t < |s.txns| && s.txns[t].Applying? && Wants(s.txns[t]).None? && !Finished(s.txns[t])
    requires TxnFormed(s.txns[t], s.virements, |s.approved|)
  {
    var x := s.txns[t];
    if x.at == Start || x.at == HaveVirement then
      // Applied already is a silent return of the receiver, any other closed status an error.
      if Open(s.virements[x.virement]) then Goto(s, t, x.(at := Checked)) else End(s, t)
    else if x.at == HaveBoth then
      if x.amount > Available(s.approved, s.spends, x.source) then End(s, t)
      else Goto(s, t, x.(at := Moved(s.approved[x.source], s.approved[x.target])))
    else Commit(s, t)
  }

  function Posted(x: Txn): Spend
    requires x.Spending?
  {
    Spend(x.line, x.sum, if x.direct then Direct else Active)
  }

  /** The next step of a spend that waits for no lock: the gate, then the posting. */
  function StepSpend(s: State, t: nat): State
    requires t < |s.txns| && s.txns[t].Spending? && Wants(s.txns[t]).None? && !Finished(s.txns[t])
    requires s.txns[t].line < |s.approved|
  {
    var x := s.txns[t];
    if x.stands == HaveLine then
      var available := Available(s.approved, s.spends, x.line);
      if Gate.ValidateExpenditure(false, x.terms, Some(available), x.sum).Ok? then Goto(s, t, x.(stands := Admitted))
      else End(s, t)
    else End(s.(spends := s.spends + [Posted(x)]), t)
  }

  /** What the service asks of the status it read. */
  predicate MayBecome(seen: Status, becomes: Status) {
    if becomes == Submitted then seen == Draft else !FinalStatus(seen)
  }

  function WithStatus(s: State, id: nat, status: Status): State
    requires id < |s.virements|
  {
    s.(virements := s.virements[id := s.virements[id].(status := status)])
  }

  /** The next step of a status change that waits for no lock: the read, then the write,
      which looks at nothing. */
  function StepWrite(s: State, t: nat): State
    requires t < |s.txns| && s.txns[t].Writing? && Wants(s.txns[t]).None? && !Finished(s.txns[t])
    requires s.txns[t].row < |s.virements|
  {
    var x := s.txns[t];
    if x.pen == Unread then
      if MayBecome(s.virements[x.row].status, x.becomes) then Goto(s, t, x.(pen := Seen)) else End(s, t)
    else End(WithStatus(s, x.row, x.becomes), t)
  }

  function Locked(x: Txn): Txn
    requires Wants(x).Some?
  {
    match x
    case Applying(_, _, _, _, _, at) =>
      x.(at := match at
               case Start => HaveVirement
               case Checked => HaveLow
               case HaveLow => HaveBoth
               case Moved(a, b) => HaveRow(a, b)
               case _ => at)
    case Spending(_, _, _, _, _) => x.(stands := HaveLine)
    case Writing(_, _, _) => x.(pen := HavePen)
  }

  /** One step of a transaction; none while the row it wants is locked. */
  function Step(s: State, t: nat): Option<State>
    requires Formed(s)
  {
    if t >= |s.txns| || Finished(s.txns[t]) then None
    else
      var x := s.txns[t];
      match Wants(x)
      case Some(r) =>
        if r in s.locks then None
        else Some(s.(locks := s.locks[r := t], txns := s.txns[t := Locked(x)]))
      case None =>
        Some(match x
             case Applying(_, _, _, _, _, _) => StepApply(s, t)
             case Spending(_, _, _, _, _) => StepSpend(s, t)
             case Writing(_, _, _) => StepWrite(s, t))
  }

  predicate CanCreate(s: State, source: nat, target: nat, amount: int)
    requires Formed(s)
  {
    && source < |s.approved| && target < |s.approved| && source != target
    && amount > 0 && s.years[source] == s.years[target]
    && amount <= Available(s.approved, s.spends, source)
  }

  function Begin(s: State, x: Txn): State {
    s.(txns := s.txns + [x])
  }

  function Approval(v: Virement, id: nat, unlocked: bool): Txn {
    Applying(id, v.source, v.target, v.amount, unlocked, Start)
  }

  /** What an action does, or none when it is refused or blocked. */
  function Act(s: State, a: Action): Option<State>
    requires Formed(s)
  {
    match a
    case Create(source, target, amount) =>
      if CanCreate(s, source, target, amount)
      then Some(s.(virements := s.virements + [Virement(source, target, amount, Draft, None)]))
      else None
    case BeginApply(id, unlocked) =>
      if id < |s.virements| then Some(Begin(s, Approval(s.virements[id], id, unlocked))) else None
    case BeginSubmit(id) => if id < |s.virements| then Some(Begin(s, Writing(id, Submitted, Unread))) else None
    case BeginReject(id) => if id < |s.virements| then Some(Begin(s, Writing(id, Rejected, Unread))) else None
    case BeginSpend(line, sum, direct, terms) =>
      if line < |s.approved| then Some(Begin(s, Spending(line, sum, direct, terms, Ready))) else None
    case Move(i, stage) =>
      if i < |s.spends| && s.spends[i].stage != Direct && stage != Direct
      then Some(s.(spends := s.spends[i := s.spends[i].(stage := stage)]))
      else None
    case Advance(t) => Step(s, t)
  }

  /** A refused or blocked action has no effect. */
  function Next(s: State, a: Action): State
    requires Formed(s)
  {
    match Act(s, a)
    case Some(next) => next
    case None => s
  }

  /** A virement is created, as a draft and last, exactly between two different lines of one
      year, for a positive amount that its source can spare. */
  lemma CreatesExactlyWhen(s: State, source: nat, target: nat, amount: int)
    requires Formed(s)
    ensures var made := Act(s, Create(source, target, amount));
            && (made.Some?
                <==> && source < |s.approved| && target < |s.approved| && source != target && amount > 0
                     && s.years[source] == s.years[target]
                     && amount <= s.approved[source] - TotalCommitted(s.spends, source)
                                  - TotalExpended(s.spends, source))
            && (made.Some? ==>
                  made.value == s.(virements := s.virements + [Virement(source, target, amount, Draft, None)]))
  {
  }

  /** Every transaction begins with nothing read and nothing locked, on the lines and for the
      amount of its virement. */
  lemma BeginsAtTheStart(s: State, id: nat, unlocked: bool, line: nat, sum: int, direct: bool, terms: Gate.Terms)
    requires Formed(s) && id < |s.virements| && line < |s.approved|
    ensures var v := s.virements[id];
            Act(s, BeginApply(id, unlocked))
            == Some(s.(txns := s.txns + [Applying(id, v.source, v.target, v.amount, unlocked, Start)]))
    ensures Act(s, BeginSubmit(id)) == Some(s.(txns := s.txns + [Writing(id, Submitted, Unread)]))
    ensures Act(s, BeginReject(id)) == Some(s.(txns := s.txns + [Writing(id, Rejected, Unread)]))
    ensures Act(s, BeginSpend(line, sum, direct, terms))
         == Some(s.(txns := s.txns + [Spending(line, sum, direct, terms, Ready)]))
  {
  }

  /** A status change goes on from its read exactly when a submission read a draft or a
      rejection a status that is not final; otherwise it is over and has written nothing. */
  lemma WriteGoesOnExactlyWhen(s: State, t: nat)
    requires Formed(s) && t < |s.txns| && s.txns[t].Writing? && s.txns[t].pen == Unread
    requires s.txns[t].row < |s.virements| && (s.txns[t].becomes == Submitted || s.txns[t].becomes == Rejected)
    ensures var x, status := s.txns[t], s.virements[s.txns[t].row].status;
            var may := if x.becomes == Submitted then status == Draft
                       else status != Applied && status != Rejected && status != Cancelled;
            && Step(s, t).Some? && Step(s, t).value.virements == s.virements
            && Step(s, t).value.txns == s.txns[t := x.(pen := if may then Seen else Written)]
  {
  }

  /** An admitted spend is posted last, whole, on its line: as a direct payment or as an active
      commitment, as it asked; and its lock is let go. */
  lemma PostsAsAsked(s: State, t: nat)
    requires Formed(s) && t < |s.txns| && s.txns[t].Spending? && s.txns[t].stands == Admitted
    ensures var x, after := s.txns[t], Step(s, t);
            && after.Some? && |after.value.spends| == |s.spends| + 1 && after.value.spends[..|s.spends|] == s.spends
            && after.value.spends[|s.spends|].line == x.line && after.value.spends[|s.spends|].amount == x.sum
            && (x.direct ==> after.value.spends[|s.spends|].stage == Direct)
            && (!x.direct ==> after.value.spends[|s.spends|].stage == Active)
            && after.value.approved == s.approved && after.value.virements == s.virements
            && forall r :: r in after.value.locks <==> r in s.locks && s.locks[r] != t
  {
    assert TxnFormed(s.txns[t], s.virements, |s.approved|);
  }

  /** A line without spends has all it was approved. */
  lemma NothingSpent(approved: seq<int>, line: nat)
    requires line < |approved|
    ensures Available(approved, [], line) == approved[line]
  {
  }

  /** Any interleaving: actions in any order. */
  ghost function Run(s: State, actions: seq<Action>): State
    decreases |actions|
  {
    if actions == [] || !Formed(s) then s else Run(Next(s, actions[0]), actions[1..])
  }

  /** What a step leaves of its transaction: everything but where it stands. */
  predicate SameBut(x: Txn, y: Txn) {
    match x
    case Applying(_, _, _, _, _, _) => y.Applying? && y.(at := x.at) == x
    case Spending(_, _, _, _, _) => y.Spending? && y.(stands := x.stands) == x
    case Writing(_, _, _) => y.Writing? && y.(pen := x.pen) == x
  }

  lemma StepMovesOne(s: State, t: nat)
    requires Formed(s) && Step(s, t).Some?
    ensures t < |s.txns| && |Step(s, t).value.txns| == |s.txns|
    ensures Step(s, t).value.txns == s.txns[t := Step(s, t).value.txns[t]]
    ensures SameBut(s.txns[t], Step(s, t).value.txns[t])
  {
    assert TxnFormed(s.txns[t], s.virements, |s.approved|);
  }

  // ---- What every state keeps -----------------------------------------------------

  /** The lock table says exactly what each transaction holds: one holder a row. */
  ghost predicate LocksMatch(txns: seq<Txn>, locks: map<Row, nat>) {
    && (forall t, r :: 0 <= t < |txns| ==> (Holds(txns[t], r) <==> r in locks && locks[r] == t))
    && (forall r :: r in locks ==> locks[r] < |txns|)
  }

  /** What a transaction read under its locks is still so; an admitted spend is covered,
      unless its rule was lenient. */
  ghost predicate StillTrue(x: Txn, approved: seq<int>, spends: seq<Spend>) {
    match x
    case Applying(_, source, target, amount, _, at) =>
      HasRead(at) ==>
        && source < |approved| && target < |approved|
        && at.sourceRead == approved[source] && at.targetRead == approved[target]
        && amount <= Available(approved, spends, source)
    case Spending(line, sum, _, terms, stands) =>
      stands == Admitted && !Gate.Lenient(terms) ==> line < |approved| && sum <= Available(approved, spends, line)
    case Writing(_, _, _) => true
  }

  /** Locks exclude, reads hold, and the trail replays to the balances. */
  ghost predicate Sane(s: State, initial: seq<int>) {
    && Formed(s) && LocksMatch(s.txns, s.locks)
    && (forall t :: 0 <= t < |s.txns| ==> StillTrue(s.txns[t], s.approved, s.spends))
    && Replays(initial, s.log, s.approved)
  }

  // ---- Locks ----------------------------------------------------------------------

  lemma LockTaken(txns: seq<Txn>, locks: map<Row, nat>, t: nat, r: Row)
    requires LocksMatch(txns, locks) && t < |txns| && Wants(txns[t]) == Some(r) && r !in locks
    requires txns[t].Applying? && txns[t].unlocked ==> txns[t].at != HaveVirement
    ensures LocksMatch(txns[t := Locked(txns[t])], locks[r := t])
  {
  }

  lemma LocksReleased(txns: seq<Txn>, locks: map<Row, nat>, t: nat, x: Txn)
    requires LocksMatch(txns, locks) && t < |txns| && forall r :: !Holds(x, r)
    ensures LocksMatch(txns[t := x], Release(locks, t))
  {
  }

  lemma LocksKept(txns: seq<Txn>, locks: map<Row, nat>, t: nat, x: Txn)
    requires LocksMatch(txns, locks) && t < |txns| && forall r :: Holds(x, r) == Holds(txns[t], r)
    ensures LocksMatch(txns[t := x], locks)
  {
  }

  lemma LocksBegun(txns: seq<Txn>, locks: map<Row, nat>, x: Txn)
    requires LocksMatch(txns, locks) && forall r :: !Holds(x, r)
    ensures LocksMatch(txns + [x], locks)
  {
  }

  /** Two transactions never hold one row. */
  lemma Exclusive(txns: seq<Txn>, locks: map<Row, nat>, t: nat, u: nat, r: Row)
    requires LocksMatch(txns, locks) && t < |txns| && u < |txns|
    requires Holds(txns[t], r) && Holds(txns[u], r)
    ensures t == u
  {
    assert locks[r] == t by {
      assert Holds(txns[t], r) <==> r in locks && locks[r] == t;
    }
    assert locks[r] == u by {
      assert Holds(txns[u], r) <==> r in locks && locks[r] == u;
    }
  }

  // ---- Live totals under change ---------------------------------------------------

  lemma {:induction false} TotalsUpdate(spends: seq<Spend>, i: nat, x: Spend, line: nat)
    requires i < |spends|
    ensures TotalCommitted(spends[i := x], line)
         == TotalCommitted(spends, line) - CommittedBy(spends[i], line) + CommittedBy(x, line)
    ensures TotalExpended(spends[i := x], line)
         == TotalExpended(spends, line) - ExpendedBy(spends[i], line) + ExpendedBy(x, line)
  {
    if i == 0 {
      assert spends[i := x][1..] == spends[1..];
    } else {
      assert spends[i := x][1..] == spends[1..][i - 1 := x];
      TotalsUpdate(spends[1..], i - 1, x, line);
    }
  }

  lemma {:induction false} TotalsAppend(spends: seq<Spend>, x: Spend, line: nat)
    ensures TotalCommitted(spends + [x], line) == TotalCommitted(spends, line) + CommittedBy(x, line)
    ensures TotalExpended(spends + [x], line) == TotalExpended(spends, line) + ExpendedBy(x, line)
  {
    if spends == [] {
      assert (spends + [x])[1..] == [];
    } else {
      assert (spends + [x])[1..] == spends[1..] + [x];
      TotalsAppend(spends[1..], x, line);
    }
  }

  /** Moving a commitment between active, invoiced and closed changes no balance. */
  lemma {:induction false} MoveKeepsAvailable(approved: seq<int>, spends: seq<Spend>, i: nat, stage: Stage, line: nat)
    requires i < |spends| && line < |approved| && spends[i].stage != Direct && stage != Direct
    ensures Available(approved, spends[i := spends[i].(stage := stage)], line) == Available(approved, spends, line)
  {
    TotalsUpdate(spends, i, spends[i].(stage := stage), line);
  }

  // ---- Each step keeps the invariant ----------------------------------------------

  lemma {:induction false} BeginKeeps(s: State, x: Txn, initial: seq<int>)
    requires Sane(s, initial) && TxnFormed(x, s.virements, |s.approved|)
    requires match x
             case Applying(_, _, _, _, _, at) => at == Start
             case Spending(_, _, _, _, stands) => stands == Ready
             case Writing(_, _, pen) => pen == Unread
    ensures Sane(Begin(s, x), initial)
  {
    LocksBegun(s.txns, s.locks, x);
  }

  lemma {:induction false} MoveKeeps(s: State, i: nat, stage: Stage, initial: seq<int>)
    requires Sane(s, initial) && i < |s.spends| && s.spends[i].stage != Direct && stage != Direct
    ensures Sane(s.(spends := s.spends[i := s.spends[i].(stage := stage)]), initial)
  {
    var after := s.spends[i := s.spends[i].(stage := stage)];
    forall line: nat | line < |s.approved|
      ensures Available(s.approved, after, line) == Available(s.approved, s.spends, line)
    {
      MoveKeepsAvailable(s.approved, s.spends, i, stage, line);
    }
    forall t | 0 <= t < |s.txns| ensures StillTrue(s.txns[t], s.approved, after) {
      assert StillTrue(s.txns[t], s.approved, s.spends);
    }
  }

  lemma {:induction false} LockKeeps(s: State, t: nat, r: Row, initial: seq<int>)
    requires Sane(s, initial) && t < |s.txns| && Wants(s.txns[t]) == Some(r) && r !in s.locks
    ensures Sane(s.(locks := s.locks[r := t], txns := s.txns[t := Locked(s.txns[t])]), initial)
  {
    assert TxnFormed(s.txns[t], s.virements, |s.approved|) && StillTrue(s.txns[t], s.approved, s.spends);
    LockTaken(s.txns, s.locks, t, r);
  }

  lemma {:induction false} EndKeeps(s: State, t: nat, initial: seq<int>)
    requires Sane(s, initial) && t < |s.txns|
    ensures Sane(End(s, t), initial)
  {
    assert TxnFormed(s.txns[t], s.virements, |s.approved|);
    LocksReleased(s.txns, s.locks, t, Ended(s.txns[t]));
  }

  /** A step that takes no lock and lets none go. */
  lemma {:induction false} GotoKeeps(s: State, t: nat, x: Txn, initial: seq<int>)
    requires Sane(s, initial) && t < |s.txns|
    requires TxnFormed(x, s.virements, |s.approved|) && StillTrue(x, s.approved, s.spends)
    requires forall r :: Holds(x, r) == Holds(s.txns[t], r)
    ensures Sane(Goto(s, t, x), initial)
  {
    LocksKept(s.txns, s.locks, t, x);
  }

  /** A spend on a locked line touches nothing another transaction has read. */
  lemma {:induction false} PostLeavesOthers(s: State, t: nat, u: nat, x: Spend)
    requires LocksMatch(s.txns, s.locks) && t < |s.txns| && u < |s.txns| && t != u
    requires Holds(s.txns[t], LineRow(x.line)) && StillTrue(s.txns[u], s.approved, s.spends)
    ensures StillTrue(s.txns[u], s.approved, s.spends + [x])
  {
    var y := s.txns[u];
    if Holds(y, LineRow(x.line)) {
      Exclusive(s.txns, s.locks, t, u, LineRow(x.line));
    }
    if y.Applying? {
      TotalsAppend(s.spends, x, y.source);
    } else if y.Spending? {
      TotalsAppend(s.spends, x, y.line);
    }
  }

  lemma {:induction false} PostKeeps(s: State, t: nat, initial: seq<int>)
    requires Sane(s, initial) && t < |s.txns| && s.txns[t].Spending? && s.txns[t].stands == Admitted
    ensures Sane(End(s.(spends := s.spends + [Posted(s.txns[t])]), t), initial)
  {
    var posted := Posted(s.txns[t]);
    forall u: nat | u < |s.txns| && u != t ensures StillTrue(s.txns[u], s.approved, s.spends + [posted]) {
      assert StillTrue(s.txns[u], s.approved, s.spends);
      PostLeavesOthers(s, t, u, posted);
    }
    LocksReleased(s.txns, s.locks, t, Ended(s.txns[t]));
  }

  /** While a transaction holds a virement's row no receiver is past its check on it. */
  lemma {:induction false} RowHolderExcludes(s: State, t: nat, id: nat, u: nat, virements: seq<Virement>)
    requires LocksMatch(s.txns, s.locks) && t < |s.txns| && u < |s.txns| && t != u && id < |s.virements|
    requires Holds(s.txns[t], VirementRow(id)) && TxnFormed(s.txns[u], s.virements, |s.approved|)
    requires |virements| == |s.virements|
    requires forall i :: 0 <= i < |virements| && i != id ==> virements[i] == s.virements[i]
    requires virements[id].source == s.virements[id].source && virements[id].target == s.virements[id].target
    requires virements[id].amount == s.virements[id].amount
    ensures TxnFormed(s.txns[u], virements, |s.approved|)
  {
    if Holds(s.txns[u], VirementRow(id)) {
      Exclusive(s.txns, s.locks, t, u, VirementRow(id));
    }
  }

  lemma {:induction false} WriteKeeps(s: State, t: nat, initial: seq<int>)
    requires Sane(s, initial) && t < |s.txns| && s.txns[t].Writing? && s.txns[t].pen == HavePen
    requires TxnFormed(s.txns[t], s.virements, |s.approved|)
    ensures Sane(End(WithStatus(s, s.txns[t].row, s.txns[t].becomes), t), initial)
  {
    var x := s.txns[t];
    var after := WithStatus(s, x.row, x.becomes).virements;
    assert VirementFormed(s.virements[x.row], s.years);
    forall u: nat | u < |s.txns| && u != t ensures TxnFormed(s.txns[u], after, |s.approved|) {
      assert TxnFormed(s.txns[u], s.virements, |s.approved|);
      RowHolderExcludes(s, t, x.row, u, after);
    }
    LocksReleased(s.txns, s.locks, t, Ended(x));
  }

  /** A commit touches no line another transaction has read. */
  lemma {:induction false} CommitLeavesOthers(s: State, t: nat, u: nat, approved: seq<int>)
    requires LocksMatch(s.txns, s.locks) && t < |s.txns| && u < |s.txns| && t != u
    requires s.txns[t].Applying? && HasRead(s.txns[t].at) && StillTrue(s.txns[u], s.approved, s.spends)
    requires |approved| == |s.approved|
    requires forall line :: 0 <= line < |approved| && line != s.txns[t].source && line != s.txns[t].target
               ==> approved[line] == s.approved[line]
    ensures StillTrue(s.txns[u], approved, s.spends)
  {
    var x := s.txns[t];
    if Holds(s.txns[u], LineRow(x.source)) {
      Exclusive(s.txns, s.locks, t, u, LineRow(x.source));
    }
    if Holds(s.txns[u], LineRow(x.target)) {
      Exclusive(s.txns, s.locks, t, u, LineRow(x.target));
    }
  }

  /** A transaction that is about to commit. */
  ghost predicate Commits(s: State, t: nat) {
    && t < |s.txns| && s.txns[t].Applying? && HasRead(s.txns[t].at) && Wants(s.txns[t]).None?
    && TxnFormed(s.txns[t], s.virements, |s.approved|)
  }

  lemma {:induction false} CommitReplays(s: State, t: nat, initial: seq<int>)
    requires Sane(s, initial) && Commits(s, t)
    ensures Replays(initial, Commit(s, t).log, Commit(s, t).approved)
  {
    var x := s.txns[t];
    assert StillTrue(x, s.approved, s.spends);
    MoveReplays(initial, s.log, s.approved, EntryOf(s.virements[x.virement], x.virement, SnapshotOf(x)));
  }

  lemma {:induction false} CommitKeeps(s: State, t: nat, initial: seq<int>)
    requires Sane(s, initial) && Commits(s, t)
    ensures Sane(Commit(s, t), initial)
  {
    var x, after := s.txns[t], Commit(s, t);
    assert VirementFormed(s.virements[x.virement], s.years);
    forall u: nat | u < |s.txns| && u != t
      ensures StillTrue(s.txns[u], after.approved, s.spends) && TxnFormed(s.txns[u], after.virements, |s.approved|)
    {
      assert TxnFormed(s.txns[u], s.virements, |s.approved|) && StillTrue(s.txns[u], s.approved, s.spends);
      CommitLeavesOthers(s, t, u, after.approved);
      RowHolderExcludes(s, t, x.virement, u, after.virements);
    }
    CommitReplays(s, t, initial);
    LocksReleased(s.txns, s.locks, t, Ended(x));
  }

  lemma {:induction false} ApplyStepKeeps(s: State, t: nat, initial: seq<int>)
    requires Sane(s, initial) && t < |s.txns| && s.txns[t].Applying?
    requires Wants(s.txns[t]).None? && !Finished(s.txns[t]) && TxnFormed(s.txns[t], s.virements, |s.approved|)
    ensures Sane(StepApply(s, t), initial)
  {
    var x := s.txns[t];
    if HasRead(x.at) {
      CommitKeeps(s, t, initial);
    } else {
      EndKeeps(s, t, initial);
      if x.at == HaveBoth && x.amount <= Available(s.approved, s.spends, x.source) {
        GotoKeeps(s, t, x.(at := Moved(s.approved[x.source], s.approved[x.target])), initial);
      } else if x.at != HaveBoth && Open(s.virements[x.virement]) {
        GotoKeeps(s, t, x.(at := Checked), initial);
      }
    }
  }

  lemma {:induction false} SpendStepKeeps(s: State, t: nat, initial: seq<int>)
    requires Sane(s, initial) && t < |s.txns| && s.txns[t].Spending?
    requires Wants(s.txns[t]).None? && !Finished(s.txns[t]) && TxnFormed(s.txns[t], s.virements, |s.approved|)
    ensures Sane(StepSpend(s, t), initial)
  {
    var x := s.txns[t];
    if x.stands == Admitted {
      PostKeeps(s, t, initial);
    } else {
      EndKeeps(s, t, initial);
      if StepSpend(s, t) != End(s, t) {
        if !Gate.Lenient(x.terms) {
          Gate.StrictAdmitsExactlyWhen(x.terms, Available(s.approved, s.spends, x.line), x.sum);
        }
        GotoKeeps(s, t, x.(stands := Admitted), initial);
      }
    }
  }

  lemma {:induction false} WriteStepKeeps(s: State, t: nat, initial: seq<int>)
    requires Sane(s, initial) && t < |s.txns| && s.txns[t].Writing?
    requires Wants(s.txns[t]).None? && !Finished(s.txns[t]) && TxnFormed(s.txns[t], s.virements, |s.approved|)
    ensures Sane(StepWrite(s, t), initial)
  {
    var x := s.txns[t];
    if x.pen == HavePen {
      WriteKeeps(s, t, initial);
    } else {
      EndKeeps(s, t, initial);
      if MayBecome(s.virements[x.row].status, x.becomes) {
        GotoKeeps(s, t, x.(pen := Seen), initial);
      }
    }
  }

  lemma {:induction false} StepKeeps(s: State, t: nat, initial: seq<int>)
    requires Sane(s, initial) && Step(s, t).Some?
    ensures Sane(Step(s, t).value, initial)
  {
    var x := s.txns[t];
    assert TxnFormed(x, s.virements, |s.approved|);
    if Wants(x).Some? {
      LockKeeps(s, t, Wants(x).value, initial);
    } else if x.Applying? {
      ApplyStepKeeps(s, t, initial);
    } else if x.Spending? {
      SpendStepKeeps(s, t, initial);
    } else {
      WriteStepKeeps(s, t, initial);
    }
  }

  lemma {:induction false} ActKeeps(s: State, a: Action, initial: seq<int>)
    requires Sane(s, initial) && Act(s, a).Some?
    ensures Sane(Act(s, a).value, initial)
  {
    match a
    case Create(source, target, amount) =>
    case BeginApply(id, unlocked) =>
      assert VirementFormed(s.virements[id], s.years);
      BeginKeeps(s, Approval(s.virements[id], id, unlocked), initial);
    case BeginSubmit(id) => BeginKeeps(s, Writing(id, Submitted, Unread), initial);
    case BeginReject(id) => BeginKeeps(s, Writing(id, Rejected, Unread), initial);
    case BeginSpend(line, sum, direct, terms) => BeginKeeps(s, Spending(line, sum, direct, terms, Ready), initial);
    case Move(i, stage) => MoveKeeps(s, i, stage, initial);
    case Advance(t) => StepKeeps(s, t, initial);
  }

  // ---- Conservation ---------------------------------------------------------------

  ghost predicate Conserved(before: State, after: State) {
    && |before.years| == |before.approved| && after.years == before.years && |after.approved| == |before.approved|
    && (forall year: nat ::
          YearTotal(after.years, after.approved, year) == YearTotal(before.years, before.approved, year))
  }

  lemma {:induction false} CommitConserves(s: State, t: nat, initial: seq<int>)
    requires Sane(s, initial) && Commits(s, t)
    ensures Conserved(s, Commit(s, t))
  {
    var x, after := s.txns[t], Commit(s, t);
    assert StillTrue(x, s.approved, s.spends) && VirementFormed(s.virements[x.virement], s.years);
    forall year: nat ensures YearTotal(after.years, after.approved, year) == YearTotal(s.years, s.approved, year) {
      MoveConserves(s.years, s.approved, x.source, x.target, x.amount, year);
    }
  }

  lemma {:induction false} ActConserves(s: State, a: Action, initial: seq<int>)
    requires Sane(s, initial) && Act(s, a).Some?
    ensures Conserved(s, Act(s, a).value)
  {
    if a.Advance? {
      assert TxnFormed(s.txns[a.txn], s.virements, |s.approved|);
      if Commits(s, a.txn) {
        CommitConserves(s, a.txn, initial);
      }
    }
  }

  // ---- Every run ------------------------------------------------------------------

  /** No transaction yet, and nothing applied yet. */
  ghost predicate Initial(s: State) {
    && Formed(s) && s.txns == [] && s.locks == map[] && s.log == []
    && forall id :: 0 <= id < |s.virements| ==> s.virements[id].status != Applied
  }

  lemma StartsSane(s: State)
    requires Initial(s)
    ensures Sane(s, s.approved) && Once(s.virements, s.log)
  {
  }

  /** Whatever the interleaving and however stale the copies: locks exclude, what was read
      under them holds until the commit, the trail replays to the balances, and the total
      approved for each fiscal year never changes. */
  lemma {:induction false} RunIsSane(s: State, actions: seq<Action>, initial: seq<int>)
    requires Sane(s, initial)
    ensures Sane(Run(s, actions), initial) && Conserved(s, Run(s, actions))
    decreases |actions|
  {
    if actions != [] {
      if Act(s, actions[0]).Some? {
        ActKeeps(s, actions[0], initial);
        ActConserves(s, actions[0], initial);
      }
      RunIsSane(Next(s, actions[0]), actions[1..], initial);
    }
  }
}
