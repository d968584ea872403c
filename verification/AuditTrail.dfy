/** Virements, the balances they move, and the audit trail of those applied. */
module AuditTrail {
  import opened Wrappers

  datatype Status = Draft | Submitted | Approved | Applied | Rejected | Cancelled

  /** The frozen before and after balances of an applied virement. */
  datatype Snapshot = Snapshot(sourceBefore: int, sourceAfter: int, targetBefore: int, targetAfter: int)

  datatype Virement = Virement(source: nat, target: nat, amount: int, status: Status, snapshot: Option<Snapshot>)

  /** One applied virement, as the audit trail records it. */
  datatype Entry = Entry(virement: nat, source: nat, target: nat, amount: int, snapshot: Snapshot)

  predicate Open(v: Virement) {
    v.status == Draft || v.status == Submitted
  }

  predicate FinalStatus(status: Status) {
    status == Applied || status == Rejected || status == Cancelled
  }

  predicate Terminal(v: Virement) {
    FinalStatus(v.status)
  }

  predicate VirementFormed(v: Virement, years: seq<nat>) {
    && v.source < |years| && v.target < |years| && v.source != v.target
    && v.amount > 0 && years[v.source] == years[v.target]
  }

  /** A virement that is applied, rejected or cancelled stays as it is, snapshot and all. */
  ghost predicate Final(before: seq<Virement>, after: seq<Virement>) {
    && |before| <= |after|
    && forall id :: 0 <= id < |before| && Terminal(before[id]) ==> after[id] == before[id]
  }

  // ---- Replaying the trail --------------------------------------------------------

  /** The balances that result from moving the logged amounts, in order. */
  ghost function Replay(initial: seq<int>, log: seq<Entry>): (balances: seq<int>)
    ensures |balances| == |initial|
  {
    if log == [] then initial
    else
      var before, e := Replay(initial, log[..|log| - 1]), log[|log| - 1];
      if e.source < |initial| && e.target < |initial|
      then before[e.source := before[e.source] - e.amount][e.target := before[e.target] + e.amount]
      else before
  }

  /** Each entry's snapshot shows the balances its predecessors left. */
  ghost predicate Chained(initial: seq<int>, log: seq<Entry>) {
    log == []
    || (var before, e := Replay(initial, log[..|log| - 1]), log[|log| - 1];
        && Chained(initial, log[..|log| - 1])
        && e.source < |initial| && e.target < |initial| && e.source != e.target
        && e.snapshot == Snapshot(before[e.source], before[e.source] - e.amount,
                                  before[e.target], before[e.target] + e.amount))
  }

  /** How often a virement was applied. */
  function TimesApplied(log: seq<Entry>, id: nat): nat {
    if log == [] then 0
    else TimesApplied(log[..|log| - 1], id) + if log[|log| - 1].virement == id then 1 else 0
  }

  ghost predicate Logged(e: Entry, virements: seq<Virement>) {
    && e.virement < |virements|
    && virements[e.virement] == Virement(e.source, e.target, e.amount, Applied, Some(e.snapshot))
  }

  /** The trail replays to the balances, each snapshot starting where its predecessors
      left. */
  ghost predicate Replays(initial: seq<int>, log: seq<Entry>, approved: seq<int>) {
    Chained(initial, log) && Replay(initial, log) == approved
  }

  /** Each virement is in the trail once if applied and not at all otherwise. */
  ghost predicate Once(virements: seq<Virement>, log: seq<Entry>) {
    && (forall i :: 0 <= i < |log| ==> Logged(log[i], virements))
    && (forall id :: 0 <= id < |virements| ==>
          TimesApplied(log, id) == if virements[id].status == Applied then 1 else 0)
  }

  lemma {:induction false} NeverLogged(log: seq<Entry>, id: nat)
    requires forall i :: 0 <= i < |log| ==> log[i].virement != id
    ensures TimesApplied(log, id) == 0
  {
    if log != [] {
      NeverLogged(log[..|log| - 1], id);
    }
  }

  /** The two new balances of a move, and its entry, extend the trail. */
  lemma MoveReplays(initial: seq<int>, log: seq<Entry>, approved: seq<int>, e: Entry)
    requires Replays(initial, log, approved)
    requires e.source < |approved| && e.target < |approved| && e.source != e.target
    requires e.snapshot == Snapshot(approved[e.source], approved[e.source] - e.amount,
                                    approved[e.target], approved[e.target] + e.amount)
    ensures Replays(initial, log + [e],
                    approved[e.source := e.snapshot.sourceAfter][e.target := e.snapshot.targetAfter])
  {
    assert (log + [e])[..|log|] == log;
  }

  /** The row of an applied virement, and its entry. */
  function Stamped(virements: seq<Virement>, id: nat, shown: Snapshot): seq<Virement>
    requires id < |virements|
  {
    virements[id := virements[id].(status := Applied, snapshot := Some(shown))]
  }

  function EntryOf(v: Virement, id: nat, shown: Snapshot): Entry {
    Entry(id, v.source, v.target, v.amount, shown)
  }

  /** Logging an application keeps the trail exactly when the row was not applied before;
      otherwise the virement is in it twice. */
  lemma ApplicationIsOnceExactlyWhen(virements: seq<Virement>, log: seq<Entry>, id: nat, shown: Snapshot)
    requires Once(virements, log) && id < |virements|
    ensures Once(Stamped(virements, id, shown), log + [EntryOf(virements[id], id, shown)])
            <==> virements[id].status != Applied
    ensures TimesApplied(log + [EntryOf(virements[id], id, shown)], id)
         == if virements[id].status == Applied then 2 else 1
  {
    assert (log + [EntryOf(virements[id], id, shown)])[..|log|] == log;
    if virements[id].status != Applied {
      forall i | 0 <= i < |log| ensures log[i].virement != id {
        assert Logged(log[i], virements);
      }
    }
  }

  /** Writing a status onto a row keeps the trail exactly when the row is not applied at the
      write. */
  lemma StatusWriteIsOnceExactlyWhen(virements: seq<Virement>, log: seq<Entry>, id: nat, status: Status)
    requires Once(virements, log) && id < |virements| && status != Applied
    ensures Once(virements[id := virements[id].(status := status)], log) <==> virements[id].status != Applied
  {
    if virements[id].status != Applied {
      forall i | 0 <= i < |log| ensures log[i].virement != id {
        assert Logged(log[i], virements);
      }
    }
  }

  // ---- Conservation ---------------------------------------------------------------

  /** All the money approved for one fiscal year. */
  function YearTotal(years: seq<nat>, approved: seq<int>, year: nat): int
    requires |years| == |approved|
  {
    if years == [] then 0
    else (if years[0] == year then approved[0] else 0) + YearTotal(years[1..], approved[1..], year)
  }

  /** Lines of other years count for nothing. */
  lemma {:induction false} YearWithoutLines(years: seq<nat>, approved: seq<int>, year: nat)
    requires |years| == |approved| && forall i :: 0 <= i < |years| ==> years[i] != year
    ensures YearTotal(years, approved, year) == 0
  {
    if years != [] {
      YearWithoutLines(years[1..], approved[1..], year);
    }
  }

  lemma {:induction false} YearTotalUpdate(years: seq<nat>, approved: seq<int>, line: nat, amount: int, year: nat)
    requires |years| == |approved| && line < |years|
    ensures YearTotal(years, approved[line := amount], year)
         == YearTotal(years, approved, year) + if years[line] == year then amount - approved[line] else 0
  {
    if line == 0 {
      assert approved[line := amount][1..] == approved[1..];
    } else {
      assert approved[line := amount][1..] == approved[1..][line - 1 := amount];
      YearTotalUpdate(years[1..], approved[1..], line - 1, amount, year);
    }
  }

  /** Both updates together leave each year's total alone. */
  lemma MoveConserves(years: seq<nat>, approved: seq<int>, source: nat, target: nat, amount: int, year: nat)
    requires |years| == |approved| && source < |years| && target < |years| && source != target
    requires years[source] == years[target]
    ensures YearTotal(years, approved[source := approved[source] - amount][target := approved[target] + amount], year)
         == YearTotal(years, approved, year)
  {
    YearTotalUpdate(years, approved, source, approved[source] - amount, year);
    YearTotalUpdate(years, approved[source := approved[source] - amount], target, approved[target] + amount, year);
  }

  // ---- Lines and their snapshots --------------------------------------------------

  function MovedIn(log: seq<Entry>, line: nat): int {
    if log == [] then 0
    else MovedIn(log[..|log| - 1], line) + if log[|log| - 1].target == line then log[|log| - 1].amount else 0
  }

  function MovedOut(log: seq<Entry>, line: nat): int {
    if log == [] then 0
    else MovedOut(log[..|log| - 1], line) + if log[|log| - 1].source == line then log[|log| - 1].amount else 0
  }

  /** Each line stands at its initial amount plus applied virements in less those out. */
  lemma {:induction false} TrailIsComplete(initial: seq<int>, log: seq<Entry>, line: nat)
    requires Chained(initial, log) && line < |initial|
    ensures Replay(initial, log)[line] == initial[line] + MovedIn(log, line) - MovedOut(log, line)
  {
    if log != [] {
      TrailIsComplete(initial, log[..|log| - 1], line);
    }
  }

  predicate Touches(e: Entry, line: nat) {
    e.source == line || e.target == line
  }

  function BalanceBefore(e: Entry, line: nat): int
    requires Touches(e, line)
  {
    if e.source == line then e.snapshot.sourceBefore else e.snapshot.targetBefore
  }

  function BalanceAfter(e: Entry, line: nat): int
    requires Touches(e, line)
  {
    if e.source == line then e.snapshot.sourceAfter else e.snapshot.targetAfter
  }

  /** What an entry shows for a line is what the replay holds around it. */
  lemma {:induction false} SnapshotIsReplay(initial: seq<int>, log: seq<Entry>, i: nat, line: nat)
    requires Chained(initial, log) && i < |log| && line < |initial| && Touches(log[i], line)
    ensures BalanceBefore(log[i], line) == Replay(initial, log[..i])[line]
    ensures BalanceAfter(log[i], line) == Replay(initial, log[..i + 1])[line]
  {
    var init := log[..|log| - 1];
    if i == |log| - 1 {
      assert log[..i] == init && log[..i + 1] == log;
    } else {
      assert log[..i] == init[..i] && log[..i + 1] == init[..i + 1];
      SnapshotIsReplay(initial, init, i, line);
    }
  }

  lemma {:induction false} UntouchedKeeps(initial: seq<int>, log: seq<Entry>, i: nat, j: nat, line: nat)
    requires i <= j <= |log| && line < |initial|
    requires forall k :: i <= k < j ==> !Touches(log[k], line)
    ensures Replay(initial, log[..j])[line] == Replay(initial, log[..i])[line]
  {
    if i < j {
      UntouchedKeeps(initial, log, i, j - 1, line);
      assert log[..j][..j - 1] == log[..j - 1] && !Touches(log[j - 1], line);
    }
  }

  /** The snapshots of a line chain without gaps: each entry on it starts from the balance
      the previous entry on it left. */
  lemma {:induction false} SnapshotsChain(initial: seq<int>, log: seq<Entry>, i: nat, j: nat, line: nat)
    requires Chained(initial, log) && i < j < |log| && line < |initial|
    requires Touches(log[i], line) && Touches(log[j], line)
    requires forall k :: i < k < j ==> !Touches(log[k], line)
    ensures BalanceBefore(log[j], line) == BalanceAfter(log[i], line)
  {
    SnapshotIsReplay(initial, log, i, line);
    SnapshotIsReplay(initial, log, j, line);
    UntouchedKeeps(initial, log, i + 1, j, line);
  }
}
