/** Runs of journal requests in any order, each on a copy read at some earlier point: the
    index is exact throughout exactly when every request was in time. */
module JournalRuns {
  import opened Sums
  import opened Balances
  import opened Calendar
  import opened JournalHeaders
  import opened Journals
  import opened JournalRequests
  import opened Wrappers

  datatype Copy = Copy(id: nat, journal: Journal)

  /** The tables, and every copy read from them so far. */
  datatype Desk = Desk(tables: Tables, copies: set<Copy>)

  datatype Action = Read(id: nat) | Ask(request: Request)

  /** Whether the copy of a request has been read. */
  predicate OnCopy(d: Desk, r: Request) {
    r.Create? || Copy(r.id, r.copy) in d.copies
  }

  function Act(d: Desk, a: Action): Desk {
    match a
    case Read(id) =>
      if id < |d.tables.journals| then d.(copies := d.copies + {Copy(id, d.tables.journals[id])}) else d
    case Ask(r) => if OnCopy(d, r) then d.(tables := Serve(d.tables, r).tables) else d
  }

  ghost predicate Sound(d: Desk) {
    Stored(d.tables) && AllBalanced(d.tables.journals)
    && forall c :: c in d.copies ==> Readable(d.tables, c.journal) && Balanced(c.journal.lines)
  }

  /** At every point of the run the balance rows index the posted lines. */
  ghost predicate ExactThroughout(d: Desk, actions: seq<Action>)
    decreases |actions|
  {
    |actions| == 0 || (Exact(Act(d, actions[0]).tables) && ExactThroughout(Act(d, actions[0]), actions[1..]))
  }

  ghost predicate AllInTime(d: Desk, actions: seq<Action>)
    decreases |actions|
  {
    |actions| == 0
    || (&& (actions[0].Ask? && OnCopy(d, actions[0].request) ==> InTime(d.tables, actions[0].request))
        && AllInTime(Act(d, actions[0]), actions[1..]))
  }

  // ---- Copies keep their rows -----------------------------------------------------

  lemma {:induction false} PostedPartOfAll(js: seq<Journal>, i: nat, r: Row<Key>)
    requires i < |js| && js[i].status == Posted && r in Postings(js[i])
    ensures r in PostedLines(js)
  {
    if i < |js| - 1 {
      PostedPartOfAll(js[..|js| - 1], i, r);
    }
  }

  lemma {:induction false} PostingsCarryAmounts(date: Date, dims: Dims, lines: seq<Line>, r: Row<Key>)
    requires AllValid(lines) && r in LinePostings(date, dims, lines)
    ensures r.debit > 0 || r.credit > 0
  {
    assert ValidLine(lines[0]);
    if r in LinePostings(date, dims, lines[1..]) {
      PostingsCarryAmounts(date, dims, lines[1..], r);
    }
  }

  /** A row of an exact table is readable. */
  lemma {:induction false} StoredIsReadable(t: Tables, id: nat)
    requires Stored(t) && Exact(t) && id < |t.journals|
    ensures Readable(t, t.journals[id])
  {
    var j := t.journals[id];
    assert j in t.journals;
    if j.status == Posted {
      forall r | r in Postings(j) ensures r in PostedLines(t.journals) && (r.debit > 0 || r.credit > 0) {
        PostedPartOfAll(t.journals, id, r);
        PostingsCarryAmounts(j.date, j.dims, j.lines, r);
      }
      PostedLinesNonnegative(t.journals);
      IndexHasRows(t.rows, PostedLines(t.journals), Postings(j));
    }
  }

  lemma {:induction false} UnpostKeepsRows(t: Tables, id: nat, copy: Journal, ps: seq<Row<Key>>)
    requires HasRows(t.rows, ps)
    ensures HasRows(ServeUnpost(t, id, copy).tables.rows, ps)
  {
    SubtractAllKeepsKeys(t.rows, Postings(copy));
    SameKeysKeepRows(t.rows, SubtractAll(t.rows, Postings(copy)), ps);
  }

  lemma {:induction false} UpdateKeepsRows(t: Tables, r: Request, ps: seq<Row<Key>>)
    requires HasRows(t.rows, ps) && r.Update?
    ensures HasRows(ServeUpdate(t, r).tables.rows, ps)
  {
    AddAllKeepsRows(t.rows, PostingsIfPosted(Updated(r)), ps);
  }

  /** Rows of the index are never deleted. */
  lemma {:induction false} ServeKeepsRows(t: Tables, r: Request, ps: seq<Row<Key>>)
    requires HasRows(t.rows, ps)
    ensures HasRows(Serve(t, r).tables.rows, ps)
  {
    match r
    case Create(j) => AddAllKeepsRows(t.rows, PostingsIfPosted(j), ps);
    case Update(_, _, _, _, _, _, _, _) => UpdateKeepsRows(t, r, ps);
    case Post(_, copy, _) => AddAllKeepsRows(t.rows, Postings(copy), ps);
    case Unpost(id, copy) => UnpostKeepsRows(t, id, copy, ps);
  }

  lemma {:induction false} ActKeepsSound(d: Desk, a: Action)
    requires Sound(d) && Exact(d.tables)
    ensures Sound(Act(d, a))
  {
    match a
    case Read(id) =>
      if id < |d.tables.journals| {
        assert d.tables.journals[id] in d.tables.journals;
        StoredIsReadable(d.tables, id);
      }
    case Ask(r) =>
      ServeKeepsStored(d.tables, r);
      forall c | c in d.copies && c.journal.status == Posted
        ensures HasRows(Serve(d.tables, r).tables.rows, Postings(c.journal))
      {
        ServeKeepsRows(d.tables, r, Postings(c.journal));
      }
  }

  lemma {:induction false} ActKeepsExactlyWhen(d: Desk, a: Action)
    requires Sound(d) && Exact(d.tables)
    ensures Exact(Act(d, a).tables) <==> (a.Ask? && OnCopy(d, a.request) ==> InTime(d.tables, a.request))
  {
    if a.Ask? && OnCopy(d, a.request) {
      assert a.request.Create? || Copy(a.request.id, a.request.copy).journal == a.request.copy;
      ServeKeepsExactlyWhen(d.tables, a.request);
    }
  }

  /** Over any run of reads, creations, updates, postings and unpostings on copies read at any
      earlier point, the index stays exact throughout if and only if every request was in
      time when it was served. */
  lemma {:induction false} RunKeepsExactlyWhen(d: Desk, actions: seq<Action>)
    requires Sound(d) && Exact(d.tables)
    ensures ExactThroughout(d, actions) <==> AllInTime(d, actions)
    decreases |actions|
  {
    if |actions| > 0 {
      ActKeepsExactlyWhen(d, actions[0]);
      if Exact(Act(d, actions[0]).tables) {
        ActKeepsSound(d, actions[0]);
        RunKeepsExactlyWhen(Act(d, actions[0]), actions[1..]);
      }
    }
  }

  /** Nothing stored and nothing read is where a run can start. */
  lemma NothingStoredIsSound(mutable: set<Field>)
    requires POST_POSTING_MUTABLE_FIELDS <= mutable
    ensures var d := Desk(Tables([], [], {}, mutable), {}); Sound(d) && Exact(d.tables)
  {
  }

  // ---- Refused saves --------------------------------------------------------------

  ghost predicate RefusedAtSave(t: Tables, r: Request) {
    r.Post? && PostRefusal(t, r.id, r.copy).None? && PostSaveRefusal(t, r).Some?
  }

  lemma RefusedPostLeavesLines(t: Tables, r: Request, rows: seq<Row<Key>>)
    requires RefusedAtSave(t, r)
    ensures RefusedAtSave(t.(rows := rows), r)
    ensures ServePost(t.(rows := rows), r) == Outcome(t.(rows := AddAll(rows, Postings(r.copy))), PostSaveRefusal(t, r))
  {
  }

  /** One post again and again. */
  function Retried(t: Tables, r: Request, n: nat): Tables
    requires r.Post?
  {
    if n == 0 then t else ServePost(Retried(t, r, n - 1), r).tables
  }

  function AddedTimes(rows: seq<Row<Key>>, ps: seq<Row<Key>>, n: nat): seq<Row<Key>> {
    if n == 0 then rows else AddAll(AddedTimes(rows, ps, n - 1), ps)
  }

  function Times(ps: seq<Row<Key>>, n: nat): seq<Row<Key>> {
    if n == 0 then [] else Times(ps, n - 1) + ps
  }

  lemma {:induction false} RetriesAdd(t: Tables, r: Request, n: nat)
    requires RefusedAtSave(t, r)
    ensures Retried(t, r, n) == t.(rows := AddedTimes(t.rows, Postings(r.copy), n))
  {
    if n > 0 {
      RetriesAdd(t, r, n - 1);
      RefusedPostLeavesLines(t, r, AddedTimes(t.rows, Postings(r.copy), n - 1));
    }
  }

  lemma {:induction false} AddedTimesIndexes(rows: seq<Row<Key>>, all: seq<Row<Key>>, ps: seq<Row<Key>>, n: nat)
    requires Indexes(rows, all)
    ensures Indexes(AddedTimes(rows, ps, n), all + Times(ps, n))
  {
    if n == 0 {
      assert all + [] == all;
    } else {
      AddedTimesIndexes(rows, all, ps, n - 1);
      AddAllIndexes(AddedTimes(rows, ps, n - 1), all + Times(ps, n - 1), ps);
      ConcatAssociates(all, Times(ps, n - 1), ps);
    }
  }

  /** A post whose save is refused changes no journal and leaves its lines in the index, once
      for every try, and the next try is refused alike. */
  lemma {:induction false} RefusedPostsAccumulate(t: Tables, r: Request, n: nat)
    requires RefusedAtSave(t, r) && Exact(t)
    ensures Retried(t, r, n) == t.(rows := Retried(t, r, n).rows)
    ensures Indexes(Retried(t, r, n).rows, PostedLines(t.journals) + Times(Postings(r.copy), n))
    ensures ServePost(Retried(t, r, n), r).refusal == PostSaveRefusal(t, r)
  {
    RetriesAdd(t, r, n);
    RefusedPostLeavesLines(t, r, AddedTimes(t.rows, Postings(r.copy), n));
    AddedTimesIndexes(t.rows, PostedLines(t.journals), Postings(r.copy), n);
  }

  // ---- Stale copies ---------------------------------------------------------------

  /** The row was posted since the copy was read, and is the copy otherwise: its save would
      change nothing. */
  lemma {:induction false} StalePostPasses(t: Tables, id: nat, copy: Journal, policy: Policy)
    requires Stored(t) && id < |t.journals| && t.journals[id] == copy.(status := Posted)
    requires copy.status != Posted && Balanced(copy.lines) && copy.lines != []
    ensures PostRefusal(t, id, copy).None? && PostSaveRefusal(t, Post(id, copy, policy)).None?
    ensures ServePost(t, Post(id, copy, policy)).tables.journals == t.journals
  {
    assert copy.(status := Posted, lines := copy.lines) == t.journals[id];
    assert t.journals[id := t.journals[id]] == t.journals;
    assert Changes(t.journals[id], copy.(status := Posted)) == {};
  }

  /** Nothing refuses a second post on such a copy, and its lines are in the index twice. */
  lemma {:induction false} StalePostIsNeverRefused(t: Tables, id: nat, copy: Journal, policy: Policy)
    requires Stored(t) && Exact(t) && id < |t.journals|
    requires copy.status != Posted && t.journals[id] == copy.(status := Posted)
    requires Balanced(copy.lines) && copy.lines != []
    ensures var after := ServePost(t, Post(id, copy, policy));
            after.refusal == None && after.tables.journals == t.journals && !Exact(after.tables)
  {
    StalePostPasses(t, id, copy, policy);
    assert t.journals[id] in t.journals;
    PostKeepsExactlyWhen(t, Post(id, copy, policy));
  }

  /** Likewise a second unposting, whose lines are taken off twice. */
  lemma {:induction false} StaleUnpostIsNeverRefused(t: Tables, id: nat, copy: Journal)
    requires Stored(t) && Exact(t) && id < |t.journals| && Readable(t, copy)
    requires copy.status == Posted && t.journals[id] == copy.(status := Approved) && copy.lines != []
    ensures var after := ServeUnpost(t, id, copy);
            after.refusal == None && after.tables.journals == t.journals && !Exact(after.tables)
  {
    assert copy.(status := Approved, lines := copy.lines) == t.journals[id];
    assert t.journals[id := t.journals[id]] == t.journals && t.journals[id] in t.journals;
    assert Changes(t.journals[id], copy.(status := Approved)) == {};
    UnpostKeepsExactlyWhen(t, Unpost(id, copy));
  }

  /** Unposting on a fresh copy always passes. */
  lemma {:induction false} FreshUnpostKeeps(t: Tables, id: nat)
    requires Stored(t) && Exact(t) && id < |t.journals| && t.journals[id].status == Posted
    ensures var after := ServeUnpost(t, id, t.journals[id]);
            && after.refusal == None && after.tables.journals == t.journals[id := t.journals[id].(status := Approved)]
            && Stored(after.tables) && Exact(after.tables) && Readable(after.tables, t.journals[id])
  {
    var copy := t.journals[id];
    StoredIsReadable(t, id);
    assert copy.(status := Approved, lines := copy.lines) == copy.(status := Approved);
    assert Changes(copy, copy.(status := Approved)) == {StatusField};
    UnpostKeepsExactlyWhen(t, Unpost(id, copy));
    UnpostKeepsStored(t, id, copy);
    UnpostKeepsRows(t, id, copy, Postings(copy));
  }

  // ---- One journal of a hundred ---------------------------------------------------

  function Hundred(status: Status): Journal {
    Journal(status, Blank, Date(2026, 5, 1), NO_DIMS, [Line(0, 100, 0), Line(1, 0, 100)], None)
  }

  /** The journal stored with a status, the index empty. */
  function Fresh(status: Status): Tables {
    Tables([Hundred(status)], [], {}, POST_POSTING_MUTABLE_FIELDS)
  }

  const REFUSES: Policy := (j: Journal, l: Line) => l.account == 0
  const ADMITS: Policy := (j: Journal, l: Line) => false

  lemma HundredIsSound()
    ensures Balanced(Hundred(Draft).lines) && AllValid(Hundred(Draft).lines)
    ensures Sound(Desk(Fresh(Draft), {Copy(0, Hundred(Draft))})) && Exact(Fresh(Draft))
  {
    var lines := Hundred(Draft).lines;
    assert lines[1..] == [Line(1, 0, 100)] && lines[1..][1..] == [];
    assert [Hundred(Draft)][..0] == [];
  }

  lemma HundredIsRefused()
    ensures var r := Post(0, Hundred(Draft), REFUSES);
            && PostRefusal(Fresh(Draft), 0, Hundred(Draft)).None?
            && PostSaveRefusal(Fresh(Draft), r) == Some(OverBudget)
  {
    HundredIsSound();
    assert Line(0, 100, 0) in Hundred(Draft).(status := Posted).lines;
  }

  /** A budget rule refuses the debit: the caller gets an error, the journal stays a draft and
      the index holds its lines. */
  lemma RefusedPostBreaksIndex()
    ensures var after := ServePost(Fresh(Draft), Post(0, Hundred(Draft), REFUSES));
            && after.refusal == Some(OverBudget)
            && after.tables.journals == [Hundred(Draft)] && !Exact(after.tables)
  {
    HundredIsSound();
    HundredIsRefused();
    PostKeepsExactlyWhen(Fresh(Draft), Post(0, Hundred(Draft), REFUSES));
  }

  /** The draft posted on a fresh copy. */
  function Once(): Tables {
    ServePost(Fresh(Draft), Post(0, Hundred(Draft), ADMITS)).tables
  }

  lemma PostedOnce()
    ensures ServePost(Fresh(Draft), Post(0, Hundred(Draft), ADMITS)).refusal == None
    ensures Once().journals == [Hundred(Posted)] && Stored(Once()) && Exact(Once())
  {
    HundredIsSound();
    var post := Post(0, Hundred(Draft), ADMITS);
    assert Hundred(Draft).(status := Posted, lines := Hundred(Draft).lines) == Hundred(Posted);
    FreshCopyIsInTime(Fresh(Draft), post);
    PostKeepsExactlyWhen(Fresh(Draft), post);
    PostKeepsStored(Fresh(Draft), post);
  }

  /** Posted again on the copy read before, nothing is refused and the index is wrong. */
  lemma StalePostBreaksIndex()
    ensures var twice := ServePost(Once(), Post(0, Hundred(Draft), ADMITS));
            twice.refusal == None && twice.tables.journals == [Hundred(Posted)] && !Exact(twice.tables)
  {
    PostedOnce();
    HundredIsSound();
    StalePostIsNeverRefused(Once(), 0, Hundred(Draft), ADMITS);
  }

  function OnceUnposted(): Tables {
    ServeUnpost(Once(), 0, Hundred(Posted)).tables
  }

  lemma UnpostedOnce()
    ensures OnceUnposted().journals == [Hundred(Approved)] && Readable(OnceUnposted(), Hundred(Posted))
    ensures Stored(OnceUnposted()) && Exact(OnceUnposted())
  {
    PostedOnce();
    FreshUnpostKeeps(Once(), 0);
    assert Hundred(Posted).(status := Approved) == Hundred(Approved);
  }

  /** Likewise unposted twice. */
  lemma StaleUnpostBreaksIndex()
    ensures OnceUnposted().journals == [Hundred(Approved)] && Exact(OnceUnposted())
    ensures var twice := ServeUnpost(OnceUnposted(), 0, Hundred(Posted));
            twice.refusal == None && twice.tables.journals == [Hundred(Approved)] && !Exact(twice.tables)
  {
    UnpostedOnce();
    StaleUnpostIsNeverRefused(OnceUnposted(), 0, Hundred(Posted));
  }
}
