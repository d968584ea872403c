/** Cash-release warrants of one appropriation line: the validation of a new warrant, its
    release, suspension, cancellation and expiry as days pass. */
module Warrants {
  import opened Wrappers

  /** `Approved` is what the workflow engine writes in passing. */
  datatype Status = Pending | Approved | Released | Suspended | Exhausted | Expired | Cancelled

  /** Effective dates are day numbers; either may be missing on legacy rows. */
  datatype Warrant = Warrant(first: Option<int>, last: Option<int>, amount: int, status: Status)

  datatype State = State(today: int, approved: int, warrants: seq<Warrant>)

  datatype Action =
    | Create(first: Option<int>, last: Option<int>, amount: int)
    | Release(id: nat, seen: Status)
    | Suspend(id: nat, seen: Status)
    | Cancel(id: nat)
    | ExpireSweep
    | NextDays(days: nat)
    | ApprovalRelease(id: nat)
    | VirementOut(moved: nat)

  // ---- Totals and overlaps --------------------------------------------------------

  predicate Reserving(w: Warrant) {
    w.status == Pending || w.status == Released
  }

  predicate PastDue(w: Warrant, today: int) {
    w.last.Some? && w.last.value < today
  }

  function ActiveAmount(w: Warrant, today: int): int {
    if Reserving(w) && !PastDue(w, today) then w.amount else 0
  }

  function ActiveTotal(warrants: seq<Warrant>, today: int): int {
    if warrants == [] then 0 else ActiveAmount(warrants[0], today) + ActiveTotal(warrants[1..], today)
  }

  /** What the line may currently spend in cash. */
  function TotalReleased(warrants: seq<Warrant>, today: int): int {
    if warrants == [] then 0
    else
      (if warrants[0].status == Released && !PastDue(warrants[0], today) then warrants[0].amount else 0)
      + TotalReleased(warrants[1..], today)
  }

  predicate Dated(w: Warrant) {
    w.first.Some? && w.last.Some?
  }

  predicate Overlap(v: Warrant, w: Warrant) {
    Dated(v) && Dated(w) && v.first.value <= w.last.value && w.first.value <= v.last.value
  }

  /** No warrant that still reserves overlaps `w`. */
  predicate ClearOf(w: Warrant, others: seq<Warrant>) {
    forall i :: 0 <= i < |others| ==> !(Reserving(others[i]) && Overlap(others[i], w))
  }

  predicate NoOverlaps(warrants: seq<Warrant>) {
    forall i, j :: 0 <= i < j < |warrants| && Reserving(warrants[i]) && Reserving(warrants[j])
      ==> !Overlap(warrants[i], warrants[j])
  }

  /** The validation of a warrant against the others of its line. */
  predicate Clean(s: State, w: Warrant) {
    && (Dated(w) ==> w.first.value <= w.last.value && ClearOf(w, s.warrants))
    && ActiveTotal(s.warrants, s.today) + w.amount <= s.approved
  }

  // ---- Actions --------------------------------------------------------------------

  function SetStatus(s: State, id: nat, status: Status): State
    requires id < |s.warrants|
  {
    s.(warrants := s.warrants[id := s.warrants[id].(status := status)])
  }

  /** The receiver: locks the row, looks again, and releases. */
  function Received(s: State, id: nat): State
    requires id < |s.warrants|
  {
    if s.warrants[id].status == Released || s.warrants[id].status == Expired then s else SetStatus(s, id, Released)
  }

  function Swept(warrants: seq<Warrant>, today: int): seq<Warrant> {
    if warrants == [] then []
    else
      var w := warrants[0];
      [if Reserving(w) && PastDue(w, today) then w.(status := Expired) else w] + Swept(warrants[1..], today)
  }

  /** A refused action leaves the line as it is.  Release and suspension ask the status their
      unlocked copy shows and write the row.  A completed approval writes its own status before
      its receiver looks for released and expired warrants, and so releases any. */
  function Act(s: State, a: Action): State {
    match a
    case Create(first, last, amount) =>
      var w := Warrant(first, last, amount, Pending);
      if Clean(s, w) then s.(warrants := s.warrants + [w]) else s
    case Release(id, seen) => if id < |s.warrants| && seen == Pending then SetStatus(s, id, Released) else s
    case Suspend(id, seen) => if id < |s.warrants| && seen == Released then SetStatus(s, id, Suspended) else s
    case Cancel(id) => if id < |s.warrants| && Reserving(s.warrants[id]) then SetStatus(s, id, Cancelled) else s
    case ExpireSweep => s.(warrants := Swept(s.warrants, s.today))
    case NextDays(days) => s.(today := s.today + days)
    case ApprovalRelease(id) => if id < |s.warrants| then Received(SetStatus(s, id, Approved), id) else s
    case VirementOut(amount) => s.(approved := s.approved - amount)
  }

  class WarrantLine {
    var today: int
    var approved: int
    var warrants: seq<Warrant>

    function Value(): State
      reads this
    {
      State(today, approved, warrants)
    }

    constructor (today: int, approved: int)
      ensures Value() == State(today, approved, [])
    {
      this.today, this.approved, warrants := today, approved, [];
    }

    /** The sum over the active rows, as the validation adds them up. */
    method SumActive() returns (total: int)
      ensures total == ActiveTotal(warrants, today)
    {
      total := 0;
      for i := 0 to |warrants|
        invariant total + ActiveTotal(warrants[i..], today) == ActiveTotal(warrants, today)
      {
        var w := warrants[i];
        if w.status in {Pending, Released} && !(w.last.Some? && w.last.value < today) {
          total := total + w.amount;
        }
      }
    }

    /** A new warrant, refused when its dates are reversed, overlap a reserving warrant or
        its amount does not fit under the approved amount with the active ones. */
    method Create(first: Option<int>, last: Option<int>, amount: int) returns (ok: bool)
      modifies this`warrants
      ensures Value() == Act(old(Value()), Action.Create(first, last, amount))
      ensures ok <==> |warrants| == |old(warrants)| + 1
    {
      var w := Warrant(first, last, amount, Pending);
      var total := SumActive();
      ok := total + amount <= approved;
      if first.Some? && last.Some? {
        ok := ok && first.value <= last.value && ClearOf(w, warrants);
      }
      if ok {
        warrants := warrants + [w];
      }
    }

    /** Releases a warrant whose copy shows it pending. */
    method Release(id: nat, seen: Status) returns (ok: bool)
      requires id < |warrants|
      modifies this`warrants
      ensures Value() == Act(old(Value()), Action.Release(id, seen)) && ok == (seen == Pending)
    {
      ok := seen == Pending;
      if ok {
        warrants := warrants[id := warrants[id].(status := Released)];
      }
    }

    /** Suspends a warrant whose copy shows it released. */
    method Suspend(id: nat, seen: Status) returns (ok: bool)
      requires id < |warrants|
      modifies this`warrants
      ensures Value() == Act(old(Value()), Action.Suspend(id, seen)) && ok == (seen == Released)
    {
      ok := seen == Released;
      if ok {
        warrants := warrants[id := warrants[id].(status := Suspended)];
      }
    }

    /** The approval receiver: locks the row, looks again, and releases. */
    method OnApprovalCompleted(id: nat)
      requires id < |warrants|
      modifies this`warrants
      ensures Value() == Received(old(Value()), id)
    {
      var warrant := warrants[id];
      if warrant.status == Released || warrant.status == Expired {
        return;
      }
      warrants := warrants[id := warrant.(status := Released)];
    }

    /** The end of a workflow approval: the engine writes its own status, then its signal
        reaches the receiver. */
    method CompleteApproval(id: nat)
      requires id < |warrants|
      modifies this`warrants
      ensures Value() == Act(old(Value()), ApprovalRelease(id))
    {
      warrants := warrants[id := warrants[id].(status := Approved)];
      OnApprovalCompleted(id);
    }
  }

  // ---- What the line keeps --------------------------------------------------------

  /** What a line promises: released cash within the approved amount, and no two reserving
      warrants at one time. */
  ghost predicate Covered(s: State) {
    TotalReleased(s.warrants, s.today) <= s.approved && NoOverlaps(s.warrants)
  }

  /** The promise strengthened to pending warrants, and to amounts that are not negative while
      they can count. */
  ghost predicate Sound(s: State) {
    && ActiveTotal(s.warrants, s.today) <= s.approved
    && NoOverlaps(s.warrants)
    && forall i :: 0 <= i < |s.warrants| ==> s.warrants[i].amount >= 0 || PastDue(s.warrants[i], s.today)
  }

  /** A warrant that would count again fits under the approved amount and overlaps nothing. */
  predicate Revivable(s: State, id: nat)
    requires id < |s.warrants|
  {
    var w := s.warrants[id];
    && ActiveTotal(s.warrants, s.today) + ActiveAmount(w.(status := Released), s.today) <= s.approved
    && ClearOf(w, s.warrants[..id]) && ClearOf(w, s.warrants[id + 1..])
  }

  /** A new warrant is not negative while it can count; a warrant that reserves nothing by now,
      released through an old copy or by its approval, can be revived; and a virement leaves
      the active warrants covered. */
  predicate Harmless(s: State, a: Action) {
    match a
    case Create(first, last, amount) =>
      var w := Warrant(first, last, amount, Pending);
      amount >= 0 || PastDue(w, s.today) || !Clean(s, w)
    case Release(id, seen) =>
      id < |s.warrants| && seen == Pending && !Reserving(s.warrants[id]) ==> Revivable(s, id)
    case ApprovalRelease(id) => id < |s.warrants| && !Reserving(s.warrants[id]) ==> Revivable(s, id)
    case VirementOut(amount) => ActiveTotal(s.warrants, s.today) + amount <= s.approved
    case _ => true
  }

  lemma {:induction false} ActiveUpdate(warrants: seq<Warrant>, i: nat, w: Warrant, today: int)
    requires i < |warrants|
    ensures ActiveTotal(warrants[i := w], today)
         == ActiveTotal(warrants, today) - ActiveAmount(warrants[i], today) + ActiveAmount(w, today)
  {
    if i == 0 {
      assert warrants[i := w][1..] == warrants[1..];
    } else {
      assert warrants[i := w][1..] == warrants[1..][i - 1 := w];
      ActiveUpdate(warrants[1..], i - 1, w, today);
    }
  }

  lemma {:induction false} ActiveAppend(warrants: seq<Warrant>, w: Warrant, today: int)
    ensures ActiveTotal(warrants + [w], today) == ActiveTotal(warrants, today) + ActiveAmount(w, today)
  {
    if warrants == [] {
      assert (warrants + [w])[1..] == [];
    } else {
      assert (warrants + [w])[1..] == warrants[1..] + [w];
      ActiveAppend(warrants[1..], w, today);
    }
  }

  /** The sweep expires exactly the pending and released warrants whose last day is over, and
      leaves every other warrant as it is. */
  lemma {:induction false} SweptAt(warrants: seq<Warrant>, today: int, i: nat)
    requires i < |warrants|
    ensures |Swept(warrants, today)| == |warrants|
    ensures Swept(warrants, today)[i]
         == if (warrants[i].status == Pending || warrants[i].status == Released)
               && warrants[i].last != None && warrants[i].last.value < today
            then warrants[i].(status := Expired) else warrants[i]
  {
    if i > 0 {
      SweptAt(warrants[1..], today, i - 1);
    } else if |warrants| > 1 {
      SweptAt(warrants[1..], today, 0);
    }
  }

  /** Expiry takes nothing from the active total: those rows had dropped out already. */
  lemma {:induction false} SweepKeeps(warrants: seq<Warrant>, today: int)
    ensures ActiveTotal(Swept(warrants, today), today) == ActiveTotal(warrants, today)
    ensures |Swept(warrants, today)| == |warrants|
    ensures forall i :: 0 <= i < |warrants| ==>
              Swept(warrants, today)[i] in {warrants[i], warrants[i].(status := Expired)}
  {
    if warrants != [] {
      SweepKeeps(warrants[1..], today);
    }
  }

  lemma {:induction false} LaterIsLess(warrants: seq<Warrant>, today: int, later: int)
    requires today <= later
    requires forall i :: 0 <= i < |warrants| ==> warrants[i].amount >= 0 || PastDue(warrants[i], today)
    ensures ActiveTotal(warrants, later) <= ActiveTotal(warrants, today)
  {
    if warrants != [] {
      LaterIsLess(warrants[1..], today, later);
    }
  }

  /** Reviving a warrant that reserved nothing keeps the line exactly when it fits. */
  lemma {:induction false} RevivalKeepsExactlyWhen(s: State, id: nat)
    requires Sound(s) && id < |s.warrants| && !Reserving(s.warrants[id])
    ensures Sound(SetStatus(s, id, Released)) <==> Revivable(s, id)
  {
    var w := s.warrants[id].(status := Released);
    var after := s.warrants[id := w];
    ActiveUpdate(s.warrants, id, w, s.today);
    if NoOverlaps(after) {
      forall i | 0 <= i < id ensures !(Reserving(s.warrants[..id][i]) && Overlap(s.warrants[..id][i], w)) {
        assert after[i] == s.warrants[i] && after[id] == w;
      }
      var rest := s.warrants[id + 1..];
      forall i | 0 <= i < |rest| ensures !(Reserving(rest[i]) && Overlap(rest[i], w)) {
        assert after[id + 1 + i] == rest[i] && after[id] == w;
      }
    }
    if ClearOf(s.warrants[id], s.warrants[..id]) && ClearOf(s.warrants[id], s.warrants[id + 1..]) {
      forall i, j | 0 <= i < j < |after| && Reserving(after[i]) && Reserving(after[j])
        ensures !Overlap(after[i], after[j])
      {
        if j == id {
          assert s.warrants[..id][i] == after[i];
        } else if i == id {
          assert s.warrants[id + 1..][j - id - 1] == after[j];
        }
      }
    }
  }

  /** A reserving warrant that is released, or stops reserving, leaves the line sound. */
  lemma {:induction false} StatusKeeps(s: State, id: nat, status: Status)
    requires Sound(s) && id < |s.warrants| && Reserving(s.warrants[id]) && status != Pending
    ensures Sound(SetStatus(s, id, status))
  {
    var w := s.warrants[id].(status := status);
    ActiveUpdate(s.warrants, id, w, s.today);
    var after := s.warrants[id := w];
    forall i, j | 0 <= i < j < |after| && Reserving(after[i]) && Reserving(after[j])
      ensures !Overlap(after[i], after[j])
    {
      assert !Overlap(s.warrants[i], s.warrants[j]);
    }
  }

  lemma {:induction false} CreateKeepsExactlyWhen(s: State, w: Warrant)
    requires Sound(s) && Clean(s, w) && w.status == Pending
    ensures Sound(s.(warrants := s.warrants + [w])) <==> w.amount >= 0 || PastDue(w, s.today)
  {
    ActiveAppend(s.warrants, w, s.today);
    assert (s.warrants + [w])[|s.warrants|] == w;
  }

  lemma {:induction false} ExpiryKeeps(s: State)
    requires Sound(s)
    ensures Sound(Act(s, ExpireSweep))
  {
    SweepKeeps(s.warrants, s.today);
    var after := Swept(s.warrants, s.today);
    forall i, j | 0 <= i < j < |after| && Reserving(after[i]) && Reserving(after[j])
      ensures !Overlap(after[i], after[j])
    {
      assert after[i] == s.warrants[i] && after[j] == s.warrants[j];
    }
  }

  /** Each action keeps the strengthened promise exactly when it is harmless. */
  lemma {:induction false} ActKeepsExactlyWhen(s: State, a: Action)
    requires Sound(s)
    ensures Sound(Act(s, a)) <==> Harmless(s, a)
  {
    match a {
      case Create(first, last, amount) =>
        if Clean(s, Warrant(first, last, amount, Pending)) {
          CreateKeepsExactlyWhen(s, Warrant(first, last, amount, Pending));
        }
      case ApprovalRelease(id) =>
        if id < |s.warrants| {
          assert Act(s, a).warrants == s.warrants[id := s.warrants[id].(status := Released)];
          ReleaseKeepsExactlyWhen(s, id);
        }
      case Release(id, _) => if id < |s.warrants| { ReleaseKeepsExactlyWhen(s, id); }
      case Suspend(id, _) => if id < |s.warrants| { SuspensionKeeps(s, id); }
      case Cancel(id) => if id < |s.warrants| && Reserving(s.warrants[id]) { StatusKeeps(s, id, Cancelled); }
      case ExpireSweep => ExpiryKeeps(s);
      case NextDays(days) => LaterIsLess(s.warrants, s.today, s.today + days);
      case VirementOut(_) =>
    }
  }

  lemma {:induction false} ReleaseKeepsExactlyWhen(s: State, id: nat)
    requires Sound(s) && id < |s.warrants|
    ensures Sound(SetStatus(s, id, Released)) <==> Reserving(s.warrants[id]) || Revivable(s, id)
  {
    if Reserving(s.warrants[id]) {
      StatusKeeps(s, id, Released);
    } else {
      RevivalKeepsExactlyWhen(s, id);
    }
  }

  /** Whatever the row shows by then, suspending it only frees. */
  lemma {:induction false} SuspensionKeeps(s: State, id: nat)
    requires Sound(s) && id < |s.warrants|
    ensures Sound(SetStatus(s, id, Suspended))
  {
    var w := s.warrants[id].(status := Suspended);
    ActiveUpdate(s.warrants, id, w, s.today);
    var after := s.warrants[id := w];
    forall i, j | 0 <= i < j < |after| && Reserving(after[i]) && Reserving(after[j])
      ensures !Overlap(after[i], after[j])
    {
      assert after[i] == s.warrants[i] && after[j] == s.warrants[j];
    }
  }

  function Run(s: State, actions: seq<Action>): State
    decreases |actions|
  {
    if actions == [] then s else Run(Act(s, actions[0]), actions[1..])
  }

  predicate AllHarmless(s: State, actions: seq<Action>)
    decreases |actions|
  {
    actions == [] || (Harmless(s, actions[0]) && AllHarmless(Act(s, actions[0]), actions[1..]))
  }

  lemma {:induction false} ReleasedIsActive(warrants: seq<Warrant>, today: int)
    requires forall i :: 0 <= i < |warrants| ==> warrants[i].amount >= 0 || PastDue(warrants[i], today)
    ensures TotalReleased(warrants, today) <= ActiveTotal(warrants, today)
  {
    if warrants != [] {
      ReleasedIsActive(warrants[1..], today);
    }
  }

  /** Over any run of harmless actions the released warrants never exceed the approved
      amount and no two reserving warrants overlap. */
  lemma {:induction false} RunStaysCovered(s: State, actions: seq<Action>)
    requires Sound(s) && AllHarmless(s, actions)
    ensures Sound(Run(s, actions)) && Covered(Run(s, actions))
    decreases |actions|
  {
    if actions == [] {
      ReleasedIsActive(s.warrants, s.today);
    } else {
      ActKeepsExactlyWhen(s, actions[0]);
      RunStaysCovered(Act(s, actions[0]), actions[1..]);
    }
  }

  // ---- What a harmful action makes possible ---------------------------------------

  /** Releases of the warrants from `i` on, each on a fresh copy, one after the other. */
  function Releases(rest: seq<Warrant>, i: nat): seq<Action> {
    if rest == [] then [] else [Release(i, rest[0].status)] + Releases(rest[1..], i + 1)
  }

  lemma {:induction false} NothingPending(warrants: seq<Warrant>, today: int)
    requires forall i :: 0 <= i < |warrants| ==> warrants[i].status != Pending
    ensures TotalReleased(warrants, today) == ActiveTotal(warrants, today)
  {
    if warrants != [] {
      NothingPending(warrants[1..], today);
    }
  }

  /** What releasing them does: every pending warrant counts as released, and nothing else
      changes. */
  lemma {:induction false} AfterReleases(s: State, i: nat) returns (after: State)
    requires i <= |s.warrants| && forall j :: 0 <= j < i ==> s.warrants[j].status != Pending
    ensures after == Run(s, Releases(s.warrants[i..], i)) && AllHarmless(s, Releases(s.warrants[i..], i))
    ensures after.today == s.today && after.approved == s.approved && |after.warrants| == |s.warrants|
    ensures TotalReleased(after.warrants, s.today) == ActiveTotal(s.warrants, s.today)
    ensures ActiveTotal(after.warrants, s.today) == ActiveTotal(s.warrants, s.today)
    ensures forall j :: 0 <= j < |s.warrants| ==>
              after.warrants[j]
              == if s.warrants[j].status == Pending then s.warrants[j].(status := Released) else s.warrants[j]
    decreases |s.warrants| - i
  {
    if i == |s.warrants| {
      NothingPending(s.warrants, s.today);
      after := s;
    } else {
      var next := Act(s, Release(i, s.warrants[i].status));
      if s.warrants[i].status == Pending {
        ActiveUpdate(s.warrants, i, s.warrants[i].(status := Released), s.today);
      }
      after := AfterReleases(next, i + 1);
      assert s.warrants[i..][1..] == next.warrants[i + 1..];
      assert Releases(s.warrants[i..], i)[1..] == Releases(next.warrants[i + 1..], i + 1);
    }
  }

  /** Active warrants beyond the approved amount only have to be released. */
  lemma {:induction false} OverActiveCanBreak(s: State) returns (more: seq<Action>)
    requires ActiveTotal(s.warrants, s.today) > s.approved
    ensures AllHarmless(s, more) && !Covered(Run(s, more))
  {
    more := Releases(s.warrants[0..], 0);
    var after := AfterReleases(s, 0);
  }

  lemma {:induction false} RunConcat(s: State, a: seq<Action>, b: seq<Action>)
    requires AllHarmless(s, a) && AllHarmless(Run(s, a), b)
    ensures AllHarmless(s, a + b) && Run(s, a + b) == Run(Run(s, a), b)
    decreases |a|
  {
    if a == [] {
      assert a + b == b;
    } else {
      assert (a + b)[1..] == a[1..] + b;
      RunConcat(Act(s, a[0]), a[1..], b);
    }
  }

  /** With the room that a negative warrant pretends to make filled, cancelling it leaves the
      active total beyond the approved amount. */
  lemma {:induction false} FillAndCancel(s: State, id: nat) returns (more: seq<Action>, after: State)
    requires ActiveTotal(s.warrants, s.today) <= s.approved && id < |s.warrants|
    requires Reserving(s.warrants[id]) && !PastDue(s.warrants[id], s.today) && s.warrants[id].amount < 0
    ensures AllHarmless(s, more) && after == Run(s, more) && ActiveTotal(after.warrants, after.today) > after.approved
  {
    var room := s.approved - ActiveTotal(s.warrants, s.today);
    var fill := Warrant(None, None, room, Pending);
    var filled := Act(s, Create(None, None, room));
    ActiveAppend(s.warrants, fill, s.today);
    assert filled.warrants == s.warrants + [fill];
    ActiveUpdate(filled.warrants, id, filled.warrants[id].(status := Cancelled), s.today);
    more := [Create(None, None, room), Cancel(id)];
    after := Act(filled, Cancel(id));
    assert more[1..] == [Cancel(id)] && more[1..][1..] == [];
    assert Run(filled, [Cancel(id)]) == Run(after, []);
    assert AllHarmless(filled, [Cancel(id)]);
  }

  lemma {:induction false} NegativeCanBreak(s: State, id: nat) returns (more: seq<Action>)
    requires ActiveTotal(s.warrants, s.today) <= s.approved && id < |s.warrants|
    requires Reserving(s.warrants[id]) && !PastDue(s.warrants[id], s.today) && s.warrants[id].amount < 0
    ensures AllHarmless(s, more) && !Covered(Run(s, more))
  {
    var fill, after := FillAndCancel(s, id);
    var release := OverActiveCanBreak(after);
    RunConcat(s, fill, release);
    more := fill + release;
  }

  /** Whatever harmless actions follow, the promise is kept. */
  ghost predicate Safe(s: State) {
    forall more: seq<Action> :: AllHarmless(s, more) ==> Covered(Run(s, more))
  }

  /** A line that is not sound for want of cover or of separation is not safe. */
  lemma {:induction false} UncoveredIsNotSafe(s: State)
    requires ActiveTotal(s.warrants, s.today) > s.approved || !NoOverlaps(s.warrants)
    ensures !Safe(s)
  {
    if ActiveTotal(s.warrants, s.today) > s.approved {
      var more := OverActiveCanBreak(s);
    } else {
      assert AllHarmless(s, []) && Run(s, []) == s;
    }
  }

  /** On a sound line an action is safe, now and under every harmless continuation, exactly
      when it is itself harmless: each harmful one lets more be released than approved, or
      two reserving warrants overlap. */
  lemma {:induction false} ActIsSafeExactlyWhen(s: State, a: Action)
    requires Sound(s)
    ensures Safe(Act(s, a)) <==> Harmless(s, a)
  {
    var after := Act(s, a);
    ActKeepsExactlyWhen(s, a);
    if Harmless(s, a) {
      forall more | AllHarmless(after, more) ensures Covered(Run(after, more)) {
        RunStaysCovered(after, more);
      }
    } else if a.Create? {
      ActiveAppend(s.warrants, Warrant(a.first, a.last, a.amount, Pending), s.today);
      var more := NegativeCanBreak(after, |s.warrants|);
    } else {
      HarmfulIsUncovered(s, a);
      UncoveredIsNotSafe(after);
    }
  }

  lemma {:induction false} HarmfulIsUncovered(s: State, a: Action)
    requires Sound(s) && !Harmless(s, a) && !a.Create?
    ensures ActiveTotal(Act(s, a).warrants, Act(s, a).today) > Act(s, a).approved || !NoOverlaps(Act(s, a).warrants)
  {
    ActKeepsExactlyWhen(s, a);
    if a.ApprovalRelease? || a.Release? {
      assert forall i :: 0 <= i < |s.warrants| ==> Act(s, a).warrants[i].amount == s.warrants[i].amount;
    }
  }

  /** A warrant suspended since the copy was read, its room taken by another: the release on
      the copy lets more be spent than approved. */
  lemma StaleReleaseOvercommits()
    ensures var s := State(0, 100, [Warrant(None, None, 80, Suspended), Warrant(None, None, 80, Released)]);
            Sound(s) && !Safe(Act(s, Release(0, Pending)))
  {
    var v, w := Warrant(None, None, 80, Suspended), Warrant(None, None, 80, Released);
    var s := State(0, 100, [v, w]);
    assert s.warrants[1..] == [w] && s.warrants[1..][1..] == [];
    assert ActiveTotal(s.warrants[1..], 0) == 80;
    ActIsSafeExactlyWhen(s, Release(0, Pending));
  }

  /** As wired, a completed approval releases whatever the row shows, expired or not. */
  lemma ApprovalReleasesAny(s: State, id: nat)
    requires id < |s.warrants|
    ensures Act(s, ApprovalRelease(id)) == SetStatus(s, id, Released)
  {
    assert s.warrants[id := s.warrants[id].(status := Approved)][id := s.warrants[id].(status := Released)]
        == s.warrants[id := s.warrants[id].(status := Released)];
  }

  /** A warrant swept as expired, its days taken by another: a late approval makes two overlap. */
  lemma LateApprovalOverlaps()
    ensures var s := State(9, 100, [Warrant(Some(1), Some(5), 40, Expired), Warrant(Some(3), Some(9), 40, Released)]);
            Sound(s) && !Safe(Act(s, ApprovalRelease(0)))
  {
    var v, w := Warrant(Some(1), Some(5), 40, Expired), Warrant(Some(3), Some(9), 40, Released);
    var s := State(9, 100, [v, w]);
    assert s.warrants[1..] == [w] && s.warrants[1..][1..] == [];
    assert ActiveTotal(s.warrants[1..], 9) == 40;
    assert s.warrants[0 + 1..][0] == w && Overlap(w, v);
    ActIsSafeExactlyWhen(s, ApprovalRelease(0));
  }

  // ---- Creations side by side -----------------------------------------------------

  /** Two warrants validated on the same line, neither seeing the other, keep it sound exactly
      when the second would also pass after the first. */
  lemma {:induction false} TwoCreationsExactlyWhen(s: State, v: Warrant, w: Warrant)
    requires Sound(s) && v.status == Pending && w.status == Pending && v.amount >= 0 && w.amount >= 0
    requires Clean(s, v) && Clean(s, w) && !PastDue(w, s.today)
    ensures Sound(s.(warrants := s.warrants + [v] + [w])) <==> Clean(s.(warrants := s.warrants + [v]), w)
  {
    var first := s.warrants + [v];
    CreateKeepsExactlyWhen(s, v);
    ActiveAppend(s.warrants, v, s.today);
    ActiveAppend(first, w, s.today);
    assert forall i :: 0 <= i < |first| ==> (first + [w])[i] == first[i];
    assert (first + [w])[|first|] == w && first[|s.warrants|] == v;
  }

  /** Each passes alone; together they let more be released than approved. */
  lemma TwoCreationsCanOvercommit()
    ensures var s, w := State(0, 100, []), Warrant(None, None, 80, Pending);
            Sound(s) && Clean(s, w) && !Safe(s.(warrants := [w] + [w]))
  {
    var w := Warrant(None, None, 80, Pending);
    ActiveAppend([w], w, 0);
    ActiveAppend([], w, 0);
    assert [] + [w] == [w];
    UncoveredIsNotSafe(State(0, 100, [w] + [w]));
  }

  /** Nothing refuses a negative amount: one such warrant makes room to release more than was
      approved. */
  lemma NegativeWarrantBreaksCeiling()
    ensures var s := State(0, 100, []);
            var after := Act(Act(Act(s, Create(None, None, -50)), Create(None, None, 150)), Release(1, Pending));
            TotalReleased(after.warrants, after.today) > after.approved
  {
    var s := State(0, 100, []);
    var n, w := Warrant(None, None, -50, Pending), Warrant(None, None, 150, Pending);
    var one := Act(s, Create(None, None, -50));
    assert one.warrants == [n] && one.warrants[1..] == [];
    var two := Act(one, Create(None, None, 150));
    assert ActiveTotal(one.warrants, 0) == -50;
    assert two.warrants == [n, w];
    var three := Act(two, Release(1, Pending));
    assert three.warrants == [n, w.(status := Released)] && three.warrants[1..] == [w.(status := Released)];
    assert three.warrants[1..][1..] == [];
    assert TotalReleased(three.warrants[1..], 0) == 150 + TotalReleased([], 0);
  }
}
