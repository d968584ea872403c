/** Requests against the journal tables.  Each is made on a copy of the row that was read some
    time before, header and lines; posting commits the index before it saves the header.  When
    do the balance rows still index exactly the posted lines? */
module JournalRequests {
  import opened Balances
  import opened Calendar
  import opened JournalHeaders
  import opened Journals
  import opened Wrappers

  datatype Tables = Tables(
    journals: seq<Journal>,
    rows: seq<Row<Key>>,
    references: set<Reference>,
    mutable: set<Field>)

  /** Whether the budget rules refuse a line of a journal at the moment it is posted. */
  type Policy = (Journal, Line) -> bool

  /** An update gives all header values; lines only when it brings any. */
  datatype Request =
    | Create(journal: Journal)
    | Update(id: nat, copy: Journal, status: Status, reference: Reference, date: Date, dims: Dims,
             lines: Option<seq<Line>>, policy: Policy)
    | Post(id: nat, copy: Journal, policy: Policy)
    | Unpost(id: nat, copy: Journal)

  datatype Outcome = Outcome(tables: Tables, refusal: Option<Error>)

  // ---- Saving a header ------------------------------------------------------------

  /** What the receiver of the save looks at: each debit for itself. */
  predicate BlockedByBudget(policy: Policy, j: Journal) {
    exists l :: l in j.lines && l.debit > 0 && policy(j, l)
  }

  predicate SourceTaken(js: seq<Journal>, id: nat, h: Journal) {
    h.status == Posted && h.source.Some?
    && exists k :: 0 <= k < |js| && k != id && js[k].status == Posted && js[k].source == h.source
  }

  function Changes(row: Journal, h: Journal): set<Field> {
    (if h.status != row.status then {StatusField} else {})
    + (if h.reference != row.reference then {ReferenceNumber} else {})
    + (if h.date != row.date then {PostingDate} else {})
    + (if h.dims != row.dims then {Dimension} else {})
    + (if h.source != row.source then {SourceField} else {})
  }

  /** What refuses a save of a whole header over a row: the guard, the budget on the way to
      posted, or one of the two unique constraints. */
  function SaveRefusal(t: Tables, id: nat, h: Journal, overBudget: bool): Option<Error>
    requires id < |t.journals|
  {
    var row := t.journals[id];
    if !SavePasses(t.mutable, Some(row.status), Full(Changes(row, h))) then Some(FrozenHeader)
    else if h.status == Posted && row.status != Posted && overBudget then Some(OverBudget)
    else if h.reference != row.reference && Taken(t.references, h.reference) then Some(DuplicateReference)
    else if SourceTaken(t.journals, id, h) then Some(DuplicateSource)
    else None
  }

  /** A budget rule blocks a journal exactly by refusing one of its debits; credits are never
      asked about. */
  lemma BlockedExactlyWhen(policy: Policy, j: Journal)
    ensures BlockedByBudget(policy, j)
            <==> exists i :: 0 <= i < |j.lines| && j.lines[i].debit > 0 && policy(j, j.lines[i])
  {
    if l :| l in j.lines && l.debit > 0 && policy(j, l) {
      var i :| 0 <= i < |j.lines| && j.lines[i] == l;
      assert j.lines[i].debit > 0;
    }
  }

  /** Under the whitelist as it stands, a header save is frozen exactly over a posted row whose
      reference, date, dimensions or source it changes; then the budget, the reference and the
      source document are asked, in that order. */
  lemma SaveRefusalNames(t: Tables, id: nat, h: Journal, overBudget: bool)
    requires id < |t.journals| && t.mutable == POST_POSTING_MUTABLE_FIELDS
    ensures var row, r := t.journals[id], SaveRefusal(t, id, h, overBudget);
            var frozen := row.status == Posted && (h.reference != row.reference || h.date != row.date
                                                   || h.dims != row.dims || h.source != row.source);
            var blocked := h.status == Posted && row.status != Posted && overBudget;
            var taken := h.reference != row.reference && h.reference != Blank && h.reference in t.references;
            var posted := h.status == Posted && h.source != None
                          && exists k :: 0 <= k < |t.journals| && k != id
                                         && t.journals[k].status == Posted && t.journals[k].source == h.source;
            && (r == Some(FrozenHeader) <==> frozen)
            && (r == Some(OverBudget) <==> !frozen && blocked)
            && (r == Some(DuplicateReference) <==> !frozen && !blocked && taken)
            && (r == Some(DuplicateSource) <==> !frozen && !blocked && !taken && posted)
            && (r == None <==> !frozen && !blocked && !taken && !posted)
  {
    var row := t.journals[id];
    var changes := Changes(row, h);
    GuardAsWritten(Some(row.status), changes);
    assert ReferenceNumber in changes <==> h.reference != row.reference;
    assert PostingDate in changes <==> h.date != row.date;
    assert Dimension in changes <==> h.dims != row.dims;
    assert SourceField in changes <==> h.source != row.source;
    assert PostedBy !in changes && DeletedBy !in changes && DocumentNumber !in changes && Description !in changes;
  }

  /** The header saved over the row, which keeps or gets the lines stored beside it. */
  function Saved(t: Tables, id: nat, h: Journal, stored: seq<Line>): Tables
    requires id < |t.journals|
  {
    t.(journals := t.journals[id := h.(lines := stored)],
       references := WithReference(t.references - {t.journals[id].reference}, h.reference))
  }

  // ---- Requests -------------------------------------------------------------------

  function CreateRefusal(t: Tables, j: Journal): Option<Error> {
    if !Balanced(j.lines) then Some(Unbalanced)
    else if Taken(t.references, j.reference) then Some(DuplicateReference)
    else if SourceTaken(t.journals, |t.journals|, j) then Some(DuplicateSource)
    else if !AllValid(j.lines) then Some(InvalidLine)
    else None
  }

  predicate Given(lines: Option<seq<Line>>) {
    lines.Some? && lines.value != []
  }

  /** The journal as an update's instance shows it when it is posted: without new lines, the
      copy's. */
  function Updated(r: Request): Journal
    requires r.Update?
  {
    Journal(r.status, r.reference, r.date, r.dims, if Given(r.lines) then r.lines.value else r.copy.lines,
            r.copy.source)
  }

  function StoredLines(t: Tables, r: Request): seq<Line>
    requires r.Update? && r.id < |t.journals|
  {
    if Given(r.lines) then r.lines.value else t.journals[r.id].lines
  }

  /** An update keeps the stored lines when it brings none, or an empty list, and stores the
      lines it brings otherwise. */
  lemma LinesAreKeptExactlyWhen(t: Tables, r: Request)
    requires r.Update? && r.id < |t.journals|
    ensures r.lines == None || r.lines == Some([]) ==>
              StoredLines(t, r) == t.journals[r.id].lines && Updated(r).lines == r.copy.lines
    ensures r.lines != None && r.lines != Some([]) ==>
              StoredLines(t, r) == r.lines.value && Updated(r).lines == r.lines.value
  {
  }

  /** The status is the copy's; lines that are given must balance and be admissible. */
  function UpdateRefusal(t: Tables, r: Request): Option<Error>
    requires r.Update?
  {
    if r.id >= |t.journals| then Some(NotFound)
    else if r.copy.status == Posted then Some(AlreadyPosted)
    else if Given(r.lines) && !Balanced(r.lines.value) then Some(Unbalanced)
    else if Given(r.lines) && !AllValid(r.lines.value) then Some(InvalidLine)
    else SaveRefusal(t, r.id, Updated(r), BlockedByBudget(r.policy, Updated(r)))
  }

  /** What is asked before anything is written: the status and the presence of lines of the
      copy, the balance of the stored lines. */
  function PostRefusal(t: Tables, id: nat, copy: Journal): Option<Error> {
    if id >= |t.journals| then Some(NotFound)
    else if copy.status == Posted then Some(AlreadyPosted)
    else if !Balanced(t.journals[id].lines) then Some(Unbalanced)
    else if copy.lines == [] then Some(NoLines)
    else None
  }

  function PostSaveRefusal(t: Tables, r: Request): Option<Error>
    requires r.Post? && r.id < |t.journals|
  {
    var h := r.copy.(status := Posted);
    SaveRefusal(t, r.id, h, BlockedByBudget(r.policy, h))
  }

  function UnpostRefusal(t: Tables, id: nat, copy: Journal): Option<Error> {
    if id >= |t.journals| then Some(NotFound)
    else if copy.status != Posted then Some(NotPosted)
    else SaveRefusal(t, id, copy.(status := Approved), false)
  }

  function ServeCreate(t: Tables, j: Journal): Outcome {
    var refusal := CreateRefusal(t, j);
    if refusal.Some? then Outcome(t, refusal)
    else Outcome(t.(journals := t.journals + [j], rows := AddAll(t.rows, PostingsIfPosted(j)),
                    references := WithReference(t.references, j.reference)), None)
  }

  function ServeUpdate(t: Tables, r: Request): Outcome
    requires r.Update?
  {
    var refusal := UpdateRefusal(t, r);
    if refusal.Some? then Outcome(t, refusal)
    else
      var indexed := t.(rows := AddAll(t.rows, PostingsIfPosted(Updated(r))));
      Outcome(Saved(indexed, r.id, Updated(r), StoredLines(t, r)), None)
  }

  /** The index is committed before the header is saved: a refused save leaves it so. */
  function ServePost(t: Tables, r: Request): Outcome
    requires r.Post?
  {
    var refusal := PostRefusal(t, r.id, r.copy);
    if refusal.Some? then Outcome(t, refusal)
    else
      var indexed := t.(rows := AddAll(t.rows, Postings(r.copy)));
      var late := PostSaveRefusal(t, r);
      if late.Some? then Outcome(indexed, late)
      else Outcome(Saved(indexed, r.id, r.copy.(status := Posted), t.journals[r.id].lines), None)
  }

  function ServeUnpost(t: Tables, id: nat, copy: Journal): Outcome {
    var refusal := UnpostRefusal(t, id, copy);
    if refusal.Some? then Outcome(t, refusal)
    else
      var taken := t.(rows := SubtractAll(t.rows, Postings(copy)));
      Outcome(Saved(taken, id, copy.(status := Approved), t.journals[id].lines), None)
  }

  /** What a request does to the tables, and how it is answered. */
  function Serve(t: Tables, r: Request): Outcome {
    match r
    case Create(j) => ServeCreate(t, j)
    case Update(_, _, _, _, _, _, _, _) => ServeUpdate(t, r)
    case Post(_, _, _) => ServePost(t, r)
    case Unpost(id, copy) => ServeUnpost(t, id, copy)
  }

  // ---- What the tables keep whatever is asked -------------------------------------

  /** Stored lines are admissible and balance, references and source documents are unique. */
  ghost predicate Stored(t: Tables) {
    && (forall j :: j in t.journals ==> AllValid(j.lines))
    && ReferencesMatch(t.journals, t.references)
    && SourcesMatch(t.journals)
    && POST_POSTING_MUTABLE_FIELDS <= t.mutable
  }

  ghost predicate AllBalanced(js: seq<Journal>) {
    forall j :: j in js ==> Balanced(j.lines)
  }

  lemma {:induction false} SavedKeepsStored(t: Tables, id: nat, h: Journal, stored: seq<Line>, overBudget: bool)
    requires Stored(t) && id < |t.journals| && AllValid(stored)
    requires SaveRefusal(t, id, h, overBudget).None?
    ensures Stored(Saved(t, id, h, stored))
    ensures AllBalanced(t.journals) && Balanced(stored) ==> AllBalanced(Saved(t, id, h, stored).journals)
  {
    var row, after := t.journals[id], Saved(t, id, h, stored);
    assert row in t.journals;
    forall i | 0 <= i < |after.journals| && i != id && after.journals[i].reference != Blank
      ensures after.journals[i].reference in after.references && after.journals[i].reference != h.reference
    {
      assert after.journals[i] == t.journals[i];
    }
    forall i, k | 0 <= i < k < |after.journals| && after.journals[i].status == Posted
                  && after.journals[k].status == Posted && after.journals[i].source.Some?
      ensures after.journals[i].source != after.journals[k].source
    {
      assert i != id ==> after.journals[i] == t.journals[i];
      assert k != id ==> after.journals[k] == t.journals[k];
    }
  }

  /** Tables that keep their constraints, and the balance of every journal they had. */
  ghost predicate StillStored(t: Tables, after: Tables) {
    Stored(after) && (AllBalanced(t.journals) ==> AllBalanced(after.journals))
  }

  lemma {:induction false} CreateKeepsStored(t: Tables, j: Journal)
    requires Stored(t)
    ensures StillStored(t, ServeCreate(t, j).tables)
  {
  }

  lemma {:induction false} UpdateKeepsStored(t: Tables, r: Request)
    requires Stored(t) && r.Update?
    ensures StillStored(t, ServeUpdate(t, r).tables)
  {
    if UpdateRefusal(t, r).None? {
      assert t.journals[r.id] in t.journals;
      var indexed := t.(rows := AddAll(t.rows, PostingsIfPosted(Updated(r))));
      SavedKeepsStored(indexed, r.id, Updated(r), StoredLines(t, r), BlockedByBudget(r.policy, Updated(r)));
    }
  }

  lemma {:induction false} PostKeepsStored(t: Tables, r: Request)
    requires Stored(t) && r.Post?
    ensures StillStored(t, ServePost(t, r).tables)
  {
    if PostRefusal(t, r.id, r.copy).None? && PostSaveRefusal(t, r).None? {
      var h := r.copy.(status := Posted);
      var indexed := t.(rows := AddAll(t.rows, Postings(r.copy)));
      SavedKeepsStored(indexed, r.id, h, t.journals[r.id].lines, BlockedByBudget(r.policy, h));
    }
  }

  lemma {:induction false} UnpostKeepsStored(t: Tables, id: nat, copy: Journal)
    requires Stored(t)
    ensures StillStored(t, ServeUnpost(t, id, copy).tables)
  {
    if UnpostRefusal(t, id, copy).None? {
      var taken := t.(rows := SubtractAll(t.rows, Postings(copy)));
      SavedKeepsStored(taken, id, copy.(status := Approved), t.journals[id].lines, false);
    }
  }

  /** Whatever is asked, the constraints of the tables hold and stored journals balance. */
  lemma {:induction false} ServeKeepsStored(t: Tables, r: Request)
    requires Stored(t)
    ensures StillStored(t, Serve(t, r).tables)
  {
    match r
    case Create(j) => CreateKeepsStored(t, j);
    case Update(_, _, _, _, _, _, _, _) => UpdateKeepsStored(t, r);
    case Post(_, _, _) => PostKeepsStored(t, r);
    case Unpost(id, copy) => UnpostKeepsStored(t, id, copy);
  }

  // ---- When the index stays exact -------------------------------------------------

  /** The balance rows index exactly the lines of the posted journals. */
  ghost predicate Exact(t: Tables) {
    Indexes(t.rows, PostedLines(t.journals))
  }

  /** Replacing a journal moves the posted amounts by its own alone. */
  lemma {:induction false} PostedAmountsReplace(js: seq<Journal>, i: nat, j: Journal, p: Key -> bool)
    requires i < |js|
    ensures Debits(PostedLines(js[i := j]), p)
         == Debits(PostedLines(js), p) - Debits(PostingsIfPosted(js[i]), p) + Debits(PostingsIfPosted(j), p)
    ensures Credits(PostedLines(js[i := j]), p)
         == Credits(PostedLines(js), p) - Credits(PostingsIfPosted(js[i]), p) + Credits(PostingsIfPosted(j), p)
  {
    PostedAmountsAround(js, i, js[i], p);
    PostedAmountsAround(js, i, j, p);
    assert js[i := js[i]] == js;
  }

  lemma {:induction false} PostedAmountsAround(js: seq<Journal>, i: nat, j: Journal, p: Key -> bool)
    requires i < |js|
    ensures Debits(PostedLines(js[i := j]), p)
         == Debits(PostedLines(js[..i]), p) + Debits(PostingsIfPosted(j), p) + Debits(PostedLines(js[i + 1..]), p)
    ensures Credits(PostedLines(js[i := j]), p)
         == Credits(PostedLines(js[..i]), p) + Credits(PostingsIfPosted(j), p) + Credits(PostedLines(js[i + 1..]), p)
  {
    PostedLinesUpdate(js, i, j);
    ConcatAggregates(PostedLines(js[..i]), PostingsIfPosted(j), p);
    ConcatAggregates(PostedLines(js[..i]) + PostingsIfPosted(j), PostedLines(js[i + 1..]), p);
  }

  /** For one filter: the index agrees afterwards exactly when the contributions differ by the
      lines added. */
  lemma {:induction false} AddAgreesExactlyWhen(rows: seq<Row<Key>>, js: seq<Journal>, i: nat, j: Journal,
                                                ps: seq<Row<Key>>, p: Key -> bool)
    requires i < |js| && Indexes(rows, PostedLines(js))
    ensures Debits(AddAll(rows, ps), p) == Debits(PostedLines(js[i := j]), p)
            <==> Debits(PostingsIfPosted(js[i]) + ps, p) == Debits(PostingsIfPosted(j), p)
    ensures Credits(AddAll(rows, ps), p) == Credits(PostedLines(js[i := j]), p)
            <==> Credits(PostingsIfPosted(js[i]) + ps, p) == Credits(PostingsIfPosted(j), p)
  {
    assert Debits(rows, p) == Debits(PostedLines(js), p) && Credits(rows, p) == Credits(PostedLines(js), p);
    AddAllAggregates(rows, ps, p);
    PostedAmountsReplace(js, i, j, p);
    ConcatAggregates(PostingsIfPosted(js[i]), ps, p);
  }

  lemma {:induction false} TakeAgreesExactlyWhen(rows: seq<Row<Key>>, js: seq<Journal>, i: nat, j: Journal,
                                                 ps: seq<Row<Key>>, p: Key -> bool)
    requires i < |js| && Indexes(rows, PostedLines(js)) && j.status != Posted
    requires HasRows(rows, ps) && Nonnegative(ps)
    ensures Debits(SubtractAll(rows, ps), p) == Debits(PostedLines(js[i := j]), p)
            <==> Debits(ps, p) == Debits(PostingsIfPosted(js[i]), p)
    ensures Credits(SubtractAll(rows, ps), p) == Credits(PostedLines(js[i := j]), p)
            <==> Credits(ps, p) == Credits(PostingsIfPosted(js[i]), p)
  {
    AllPresent(rows, ps);
    assert Debits(rows, p) == Debits(PostedLines(js), p) && Credits(rows, p) == Credits(PostedLines(js), p);
    SubtractAllAggregates(rows, ps, p);
    PostedAmountsReplace(js, i, j, p);
  }

  /** Adding lines while a journal is replaced leaves an exact index exactly when its old and
      its new contribution differ by those lines. */
  lemma {:induction false} AddKeepsExactlyWhen(rows: seq<Row<Key>>, js: seq<Journal>, i: nat, j: Journal,
                                               ps: seq<Row<Key>>)
    requires i < |js| && Indexes(rows, PostedLines(js))
    ensures Indexes(AddAll(rows, ps), PostedLines(js[i := j]))
            <==> SameAmounts(PostingsIfPosted(js[i]) + ps, PostingsIfPosted(j))
  {
    AddAllKeepsUnique(rows, ps);
    forall p: Key -> bool
      ensures Debits(AddAll(rows, ps), p) == Debits(PostedLines(js[i := j]), p)
              <==> Debits(PostingsIfPosted(js[i]) + ps, p) == Debits(PostingsIfPosted(j), p)
      ensures Credits(AddAll(rows, ps), p) == Credits(PostedLines(js[i := j]), p)
              <==> Credits(PostingsIfPosted(js[i]) + ps, p) == Credits(PostingsIfPosted(j), p)
    {
      AddAgreesExactlyWhen(rows, js, i, j, ps, p);
    }
  }

  /** Taking lines off while a journal is replaced by an unposted one leaves an exact index
      exactly when they are its old contribution. */
  lemma {:induction false} TakeKeepsExactlyWhen(rows: seq<Row<Key>>, js: seq<Journal>, i: nat, j: Journal,
                                                ps: seq<Row<Key>>)
    requires i < |js| && Indexes(rows, PostedLines(js)) && j.status != Posted
    requires HasRows(rows, ps) && Nonnegative(ps)
    ensures Indexes(SubtractAll(rows, ps), PostedLines(js[i := j])) <==> SameAmounts(ps, PostingsIfPosted(js[i]))
  {
    SubtractAllKeepsKeys(rows, ps);
    forall p: Key -> bool
      ensures Debits(SubtractAll(rows, ps), p) == Debits(PostedLines(js[i := j]), p)
              <==> Debits(ps, p) == Debits(PostingsIfPosted(js[i]), p)
      ensures Credits(SubtractAll(rows, ps), p) == Credits(PostedLines(js[i := j]), p)
              <==> Credits(ps, p) == Credits(PostingsIfPosted(js[i]), p)
    {
      TakeAgreesExactlyWhen(rows, js, i, j, ps, p);
    }
  }

  // ---- Amounts of a journal -------------------------------------------------------

  predicate EveryKey(k: Key) {
    true
  }

  function Volume(rs: seq<Row<Key>>): int {
    Debits(rs, EveryKey) + Credits(rs, EveryKey)
  }

  lemma VolumeOfOne(r: Row<Key>)
    ensures Volume([r]) == r.debit + r.credit
  {
    OneLineAggregates(r, EveryKey);
    assert Volume([r]) == DebitOf(EveryKey)(r) + CreditOf(EveryKey)(r);
  }

  lemma {:induction false} VolumeOfLines(date: Date, dims: Dims, lines: seq<Line>)
    ensures Volume(LinePostings(date, dims, lines)) == TotalDebit(lines) + TotalCredit(lines)
  {
    if lines != [] {
      VolumeOfOne(PostingOf(date, dims, lines[0]));
      VolumeOfLines(date, dims, lines[1..]);
      ConcatAggregates([PostingOf(date, dims, lines[0])], LinePostings(date, dims, lines[1..]), EveryKey);
    }
  }

  lemma {:induction false} TotalsArePositive(lines: seq<Line>)
    requires AllValid(lines)
    ensures TotalDebit(lines) + TotalCredit(lines) >= 0
    ensures lines != [] ==> TotalDebit(lines) + TotalCredit(lines) > 0
  {
    if lines != [] {
      assert ValidLine(lines[0]);
      TotalsArePositive(lines[1..]);
    }
  }

  lemma VolumeIsPositive(j: Journal)
    requires AllValid(j.lines)
    ensures Volume(Postings(j)) >= 0 && (j.lines != [] ==> Volume(Postings(j)) > 0)
  {
    VolumeOfLines(j.date, j.dims, j.lines);
    TotalsArePositive(j.lines);
  }

  /** Admissible lines without amounts are no lines. */
  lemma SameAmountsAsNone(j: Journal)
    requires AllValid(j.lines)
    ensures SameAmounts(Postings(j), []) <==> j.lines == []
    ensures SameAmounts([], Postings(j)) <==> j.lines == []
  {
    VolumeIsPositive(j);
  }

  /** More lines of one journal never carry the same amounts, unless there are none. */
  lemma AddedAmounts(base: Journal, added: Journal, stored: Journal)
    requires AllValid(base.lines) && AllValid(added.lines)
    ensures SameAmounts(Postings(base) + Postings(added), Postings(added)) <==> base.lines == []
    ensures stored.lines == base.lines ==>
              (SameAmounts(Postings(base) + Postings(added), Postings(stored))
               <==> added.lines == [] && SameAmounts(Postings(base), Postings(stored)))
  {
    VolumeIsPositive(base);
    VolumeIsPositive(added);
    ConcatAggregates(Postings(base), Postings(added), EveryKey);
    VolumeIgnoresHeader(base, stored);
    assert base.lines == [] ==> Postings(base) + Postings(added) == Postings(added);
    assert added.lines == [] ==> Postings(base) + Postings(added) == Postings(base);
  }

  lemma VolumeIgnoresHeader(a: Journal, b: Journal)
    ensures a.lines == b.lines ==> Volume(Postings(a)) == Volume(Postings(b))
  {
    VolumeOfLines(a.date, a.dims, a.lines);
    VolumeOfLines(b.date, b.dims, b.lines);
  }

  // ---- In time --------------------------------------------------------------------

  /** The copy's lines and those stored by now carry the same amounts under one header. */
  ghost predicate SameLines(h: Journal, row: Journal) {
    SameAmounts(Postings(h), Postings(h.(lines := row.lines)))
  }

  /** What a caller would have to look up at the write.  A post: its save is admitted, and the
      row is not posted and has the copy's lines.  An unposting: the row is posted with what
      the copy shows.  An update: the row is not posted, and has the copy's lines if those are
      posted now.  Journals without lines apart. */
  ghost predicate InTime(t: Tables, r: Request) {
    match r
    case Create(_) => true
    case Update(id, copy, status, _, _, _, lines, _) =>
      UpdateRefusal(t, r).None? ==>
        var row := t.journals[id];
        if Given(lines) || status != Posted then row.status == Posted ==> row.lines == []
        else if row.status != Posted then SameLines(Updated(r), row)
        else copy.lines == [] && SameAmounts(Postings(row), Postings(Updated(r).(lines := row.lines)))
    case Post(id, copy, _) =>
      PostRefusal(t, id, copy).None? ==>
        PostSaveRefusal(t, r).None? && t.journals[id].status != Posted && SameLines(copy, t.journals[id])
    case Unpost(id, copy) =>
      UnpostRefusal(t, id, copy).None? ==>
        var row := t.journals[id];
        if row.status == Posted then SameAmounts(Postings(copy), Postings(row)) else copy.lines == []
  }

  /** What a copy read from stored rows has: admissible lines, and rows for them if it shows
      them posted. */
  ghost predicate Readable(t: Tables, copy: Journal) {
    AllValid(copy.lines) && (copy.status == Posted ==> HasRows(t.rows, Postings(copy)))
  }

  lemma {:induction false} CreateKeeps(t: Tables, j: Journal)
    requires Exact(t)
    ensures Exact(ServeCreate(t, j).tables)
  {
    PostedLinesAppend(t.journals, j);
    AddAllIndexes(t.rows, PostedLines(t.journals), PostingsIfPosted(j));
  }

  lemma {:induction false} UpdateKeepsExactlyWhen(t: Tables, r: Request)
    requires Stored(t) && Exact(t) && r.Update? && Readable(t, r.copy) && UpdateRefusal(t, r).None?
    ensures Exact(ServeUpdate(t, r).tables) <==> InTime(t, r)
  {
    var row, h := t.journals[r.id], Updated(r);
    var saved := h.(lines := StoredLines(t, r));
    assert row in t.journals;
    AddKeepsExactlyWhen(t.rows, t.journals, r.id, saved, PostingsIfPosted(h));
    assert PostingsIfPosted(row) + [] == PostingsIfPosted(row);
    assert [] + PostingsIfPosted(h) == PostingsIfPosted(h);
    SameAmountsAsNone(row);
    AddedAmounts(row, h, saved);
  }

  lemma {:induction false} PostKeepsExactlyWhen(t: Tables, r: Request)
    requires Stored(t) && Exact(t) && r.Post? && Readable(t, r.copy) && PostRefusal(t, r.id, r.copy).None?
    ensures Exact(ServePost(t, r).tables) <==> InTime(t, r)
  {
    var row, copy := t.journals[r.id], r.copy;
    var saved := copy.(status := Posted, lines := row.lines);
    assert row in t.journals;
    if PostSaveRefusal(t, r).Some? {
      AddKeepsExactlyWhen(t.rows, t.journals, r.id, row, Postings(copy));
      assert t.journals[r.id := row] == t.journals;
      UnsavedAmounts(row, copy);
    } else {
      AddKeepsExactlyWhen(t.rows, t.journals, r.id, saved, Postings(copy));
      assert [] + Postings(copy) == Postings(copy);
      AddedAmounts(row, copy, saved);
    }
  }

  lemma UnsavedAmounts(row: Journal, copy: Journal)
    requires AllValid(row.lines) && AllValid(copy.lines) && copy.lines != []
    ensures !SameAmounts(PostingsIfPosted(row) + Postings(copy), PostingsIfPosted(row))
  {
    VolumeIsPositive(copy);
    ConcatAggregates(PostingsIfPosted(row), Postings(copy), EveryKey);
  }

  lemma {:induction false} UnpostKeepsExactlyWhen(t: Tables, r: Request)
    requires Stored(t) && Exact(t) && r.Unpost? && Readable(t, r.copy) && UnpostRefusal(t, r.id, r.copy).None?
    ensures Exact(ServeUnpost(t, r.id, r.copy).tables) <==> InTime(t, r)
  {
    var row, copy := t.journals[r.id], r.copy;
    PostingsNonnegative(copy.date, copy.dims, copy.lines);
    TakeKeepsExactlyWhen(t.rows, t.journals, r.id, copy.(status := Approved, lines := row.lines), Postings(copy));
    SameAmountsAsNone(copy);
  }

  /** Each request leaves the index exact if and only if it is in time. */
  lemma {:induction false} ServeKeepsExactlyWhen(t: Tables, r: Request)
    requires Stored(t) && Exact(t) && (r.Create? || Readable(t, r.copy))
    ensures Exact(Serve(t, r).tables) <==> InTime(t, r)
  {
    match r
    case Create(j) => CreateKeeps(t, j);
    case Update(_, _, _, _, _, _, _, _) =>
      if UpdateRefusal(t, r).None? {
        UpdateKeepsExactlyWhen(t, r);
      }
    case Post(id, copy, _) =>
      if PostRefusal(t, id, copy).None? {
        PostKeepsExactlyWhen(t, r);
      }
    case Unpost(id, copy) =>
      if UnpostRefusal(t, id, copy).None? {
        UnpostKeepsExactlyWhen(t, r);
      }
  }

  /** When nothing but the status can have changed since the copy was read, the status at the
      write and, for a post, the save decide. */
  lemma {:induction false} StatusDecides(t: Tables, r: Request)
    requires Stored(t) && (r.Post? || r.Unpost?) && r.id < |t.journals|
    requires r.copy.(status := t.journals[r.id].status) == t.journals[r.id] && r.copy.lines != []
    requires r.Post? ==> PostRefusal(t, r.id, r.copy).None?
    requires r.Unpost? ==> UnpostRefusal(t, r.id, r.copy).None?
    ensures r.Post? ==> (InTime(t, r) <==> PostSaveRefusal(t, r).None? && t.journals[r.id].status != Posted)
    ensures r.Unpost? ==> (InTime(t, r) <==> t.journals[r.id].status == Posted)
  {
    assert Postings(r.copy) == Postings(t.journals[r.id]);
  }

  /** A request on a copy that is up to date is in time, a post if its save is admitted. */
  lemma {:induction false} FreshCopyIsInTime(t: Tables, r: Request)
    requires !r.Create? && r.id < |t.journals| && r.copy == t.journals[r.id]
    requires r.Post? && PostRefusal(t, r.id, r.copy).None? ==> PostSaveRefusal(t, r).None?
    ensures InTime(t, r)
  {
    if r.Update? && UpdateRefusal(t, r).None? && !Given(r.lines) {
      assert Updated(r).(lines := r.copy.lines) == Updated(r);
    }
    assert r.copy.(lines := r.copy.lines) == r.copy;
  }
}
