/** Concurrent updates of single balance rows.  The legacy postings read a row, change it in
    memory and save it, with no lock; the posting chokepoint adds in place.  When does the
    table still index everything that was posted? */
module RowUpdates {
  import opened Sums
  import opened Balances
  import opened Journals
  import opened Wrappers

  /** A posting gets its row or creates it at zero, an unposting passes over an absent one;
      both save what they compute from the amounts read.  In place, one statement adds. */
  datatype Way = GetAndSave | FindAndSave | InPlace

  datatype Stage = Waiting | Read(debit: int, credit: int) | Over

  /** The amounts by which a row is to change; negative for an unposting. */
  datatype Update = Update(change: Row<Key>, way: Way, stage: Stage)

  datatype State = State(rows: seq<Row<Key>>, updates: seq<Update>)

  function WithStage(s: State, u: nat, stage: Stage): State
    requires u < |s.updates|
  {
    s.(updates := s.updates[u := s.updates[u].(stage := stage)])
  }

  /** A reader's row is never deleted. */
  predicate Formed(s: State) {
    forall u :: 0 <= u < |s.updates| && s.updates[u].stage.Read? ==>
      Find(s.rows, s.updates[u].change.key) < |s.rows|
  }

  /** One step of one update, or none when it is over. */
  function Step(s: State, u: nat): Option<State>
    requires Formed(s)
  {
    if u >= |s.updates| then None
    else
      var x := s.updates[u];
      var i := Find(s.rows, x.change.key);
      match x.stage
      case Waiting =>
        if x.way.InPlace? then Some(WithStage(s, u, Over).(rows := Add(s.rows, x.change)))
        else if i < |s.rows| then Some(WithStage(s, u, Read(s.rows[i].debit, s.rows[i].credit)))
        else if x.way.FindAndSave? then Some(WithStage(s, u, Over))
        else Some(WithStage(s, u, Read(0, 0)).(rows := s.rows + [Row(x.change.key, 0, 0)]))
      case Read(debit, credit) =>
        var row := Row(x.change.key, debit + x.change.debit, credit + x.change.credit);
        Some(WithStage(s, u, Over).(rows := s.rows[i := row]))
      case Over => None
  }

  function Next(s: State, u: nat): State
    requires Formed(s)
  {
    match Step(s, u)
    case Some(next) => next
    case None => s
  }

  /** The changes of the updates that are over. */
  function Made(updates: seq<Update>): seq<Row<Key>> {
    if updates == [] then []
    else (if updates[0].stage.Over? then [updates[0].change] else []) + Made(updates[1..])
  }

  /** The rows index what they held at first and every change made. */
  ghost predicate Exact(base: seq<Row<Key>>, s: State) {
    Indexes(s.rows, base + Made(s.updates))
  }

  /** A save finds the amounts it read still there; an update passed over had none. */
  predicate Timely(s: State, u: nat)
    requires Formed(s)
  {
    u < |s.updates| ==>
      var x := s.updates[u];
      var i := Find(s.rows, x.change.key);
      match x.stage
      case Waiting => x.way.FindAndSave? && i == |s.rows| ==> x.change.debit == 0 && x.change.credit == 0
      case Read(debit, credit) => s.rows[i].debit == debit && s.rows[i].credit == credit
      case Over => true
  }

  // ---- What a step changes --------------------------------------------------------

  lemma {:induction false} StepKeepsFormed(s: State, u: nat)
    requires Formed(s) && Step(s, u).Some?
    ensures Formed(Step(s, u).value)
  {
    var next := Step(s, u).value;
    forall v | 0 <= v < |next.updates| && next.updates[v].stage.Read?
      ensures Find(next.rows, next.updates[v].change.key) < |next.rows|
    {
      var k := next.updates[v].change.key;
      var i := Find(s.rows, k);
      if i < |s.rows| {
        assert next.rows[i].key == k;
      } else {
        assert next.rows[|s.rows|].key == k;
      }
    }
  }

  /** One more change is made. */
  lemma {:induction false} MadeOneMore(updates: seq<Update>, u: nat, p: Key -> bool)
    requires u < |updates| && !updates[u].stage.Over?
    ensures var made := Made(updates[u := updates[u].(stage := Over)]);
            && Debits(made, p) == Debits(Made(updates), p) + DebitOf(p)(updates[u].change)
            && Credits(made, p) == Credits(Made(updates), p) + CreditOf(p)(updates[u].change)
  {
    var after := updates[u := updates[u].(stage := Over)];
    if u == 0 {
      assert after[1..] == updates[1..];
      assert [] + Made(updates[1..]) == Made(updates[1..]);
      OneLineAggregates(updates[0].change, p);
      ConcatAggregates([updates[0].change], Made(updates[1..]), p);
    } else {
      assert after[1..] == updates[1..][u - 1 := updates[1..][u - 1].(stage := Over)];
      MadeOneMore(updates[1..], u - 1, p);
      var first := if updates[0].stage.Over? then [updates[0].change] else [];
      ConcatAggregates(first, Made(updates[1..]), p);
      ConcatAggregates(first, Made(after[1..]), p);
    }
  }

  lemma {:induction false} MadeNoMore(updates: seq<Update>, u: nat, stage: Stage)
    requires u < |updates| && !updates[u].stage.Over? && !stage.Over?
    ensures Made(updates[u := updates[u].(stage := stage)]) == Made(updates)
  {
    var after := updates[u := updates[u].(stage := stage)];
    if u == 0 {
      assert after[1..] == updates[1..];
    } else {
      assert after[1..] == updates[1..][u - 1 := updates[1..][u - 1].(stage := stage)];
      MadeNoMore(updates[1..], u - 1, stage);
    }
  }

  /** A save leaves the row short of exactly what landed on it since it was read. */
  lemma {:induction false} SaveLosesWhatLanded(base: seq<Row<Key>>, s: State, u: nat, p: Key -> bool)
    requires Formed(s) && Exact(base, s) && u < |s.updates| && s.updates[u].stage.Read?
    ensures var next := Step(s, u).value;
            var x := s.updates[u];
            var row := s.rows[Find(s.rows, x.change.key)];
            && Debits(next.rows, p) == Debits(base + Made(next.updates), p)
                                       - (if p(x.change.key) then row.debit - x.stage.debit else 0)
            && Credits(next.rows, p) == Credits(base + Made(next.updates), p)
                                        - (if p(x.change.key) then row.credit - x.stage.credit else 0)
  {
    var next, x := Step(s, u).value, s.updates[u];
    var i := Find(s.rows, x.change.key);
    assert Debits(s.rows, p) == Debits(base + Made(s.updates), p);
    assert Credits(s.rows, p) == Credits(base + Made(s.updates), p);
    SumUpdate(s.rows, i, next.rows[i], DebitOf(p));
    SumUpdate(s.rows, i, next.rows[i], CreditOf(p));
    MadeOneMore(s.updates, u, p);
    ConcatAggregates(base, Made(s.updates), p);
    ConcatAggregates(base, Made(next.updates), p);
  }

  lemma {:induction false} SaveKeepsExactlyWhen(base: seq<Row<Key>>, s: State, u: nat)
    requires Formed(s) && Exact(base, s) && u < |s.updates| && s.updates[u].stage.Read?
    ensures Exact(base, Step(s, u).value) <==> Timely(s, u)
  {
    var next := Step(s, u).value;
    forall p: Key -> bool
      ensures Timely(s, u) ==> Debits(next.rows, p) == Debits(base + Made(next.updates), p)
                               && Credits(next.rows, p) == Credits(base + Made(next.updates), p)
    {
      SaveLosesWhatLanded(base, s, u, p);
    }
    SaveLosesWhatLanded(base, s, u, Is(s.updates[u].change.key));
  }

  /** An update that ends at once, by adding in place or by passing over its row. */
  lemma {:induction false} EndKeepsExactlyWhen(base: seq<Row<Key>>, s: State, u: nat)
    requires Formed(s) && Exact(base, s) && u < |s.updates| && s.updates[u].stage.Waiting?
    requires Step(s, u).value.updates[u].stage.Over?
    ensures Exact(base, Step(s, u).value) <==> Timely(s, u)
  {
    var next, x := Step(s, u).value, s.updates[u];
    AddKeepsUnique(s.rows, x.change);
    forall p: Key -> bool
      ensures var gained := if x.way.InPlace? then 1 else 0;
              && Debits(next.rows, p) == Debits(base + Made(next.updates), p) - (1 - gained) * DebitOf(p)(x.change)
              && Credits(next.rows, p) == Credits(base + Made(next.updates), p) - (1 - gained) * CreditOf(p)(x.change)
    {
      assert Debits(s.rows, p) == Debits(base + Made(s.updates), p);
      assert Credits(s.rows, p) == Credits(base + Made(s.updates), p);
      MadeOneMore(s.updates, u, p);
      ConcatAggregates(base, Made(s.updates), p);
      ConcatAggregates(base, Made(next.updates), p);
      AddSum(s.rows, x.change, DebitOf(p));
      AddSum(s.rows, x.change, CreditOf(p));
    }
    assert DebitOf(Is(x.change.key))(x.change) == x.change.debit;
    assert CreditOf(Is(x.change.key))(x.change) == x.change.credit;
  }

  lemma {:induction false} ReadKeeps(base: seq<Row<Key>>, s: State, u: nat)
    requires Formed(s) && Exact(base, s) && u < |s.updates| && s.updates[u].stage.Waiting?
    requires Step(s, u).value.updates[u].stage.Read?
    ensures Exact(base, Step(s, u).value) && Timely(s, u)
  {
    var next, x := Step(s, u).value, s.updates[u];
    MadeNoMore(s.updates, u, next.updates[u].stage);
    if Find(s.rows, x.change.key) == |s.rows| {
      forall p: Key -> bool
        ensures Debits(next.rows, p) == Debits(s.rows, p) && Credits(next.rows, p) == Credits(s.rows, p)
      {
        SumAppend(s.rows, Row(x.change.key, 0, 0), DebitOf(p));
        SumAppend(s.rows, Row(x.change.key, 0, 0), CreditOf(p));
      }
      forall p: Key -> bool
        ensures Debits(next.rows, p) == Debits(base + Made(next.updates), p)
        ensures Credits(next.rows, p) == Credits(base + Made(next.updates), p)
      {
        assert Debits(s.rows, p) == Debits(base + Made(s.updates), p);
        assert Credits(s.rows, p) == Credits(base + Made(s.updates), p);
      }
    }
  }

  /** Each step leaves the table exact if and only if it is timely; adding in place always
      is. */
  lemma {:induction false} StepKeepsExactlyWhen(base: seq<Row<Key>>, s: State, u: nat)
    requires Formed(s) && Exact(base, s) && Step(s, u).Some?
    ensures Exact(base, Step(s, u).value) <==> Timely(s, u)
  {
    if s.updates[u].stage.Read? {
      SaveKeepsExactlyWhen(base, s, u);
    } else if Step(s, u).value.updates[u].stage.Over? {
      EndKeepsExactlyWhen(base, s, u);
    } else {
      ReadKeeps(base, s, u);
    }
  }

  // ---- Any interleaving -----------------------------------------------------------

  ghost predicate ExactThroughout(base: seq<Row<Key>>, s: State, schedule: seq<nat>)
    requires Formed(s)
    decreases |schedule|
  {
    schedule == []
    || (var next := Next(s, schedule[0]);
        Exact(base, next) && Formed(next) && ExactThroughout(base, next, schedule[1..]))
  }

  ghost predicate AllTimely(s: State, schedule: seq<nat>)
    requires Formed(s)
    decreases |schedule|
  {
    schedule == []
    || (Timely(s, schedule[0]) && Formed(Next(s, schedule[0])) && AllTimely(Next(s, schedule[0]), schedule[1..]))
  }

  /** In any interleaving of any number of updates, the table is exact throughout if and only
      if every save found the amounts it had read. */
  lemma {:induction false} RunKeepsExactlyWhen(base: seq<Row<Key>>, s: State, schedule: seq<nat>)
    requires Formed(s) && Exact(base, s)
    ensures ExactThroughout(base, s, schedule) <==> AllTimely(s, schedule)
    decreases |schedule|
  {
    if schedule != [] {
      var next := Next(s, schedule[0]);
      if Step(s, schedule[0]).Some? {
        StepKeepsFormed(s, schedule[0]);
        StepKeepsExactlyWhen(base, s, schedule[0]);
      }
      if Exact(base, next) {
        RunKeepsExactlyWhen(base, next, schedule[1..]);
      }
    }
  }

  /** The chokepoint alone is safe in any interleaving. */
  lemma {:induction false} InPlaceStaysExact(base: seq<Row<Key>>, s: State, schedule: seq<nat>)
    requires Formed(s) && Exact(base, s)
    requires forall u :: 0 <= u < |s.updates| ==> s.updates[u].way.InPlace? && !s.updates[u].stage.Read?
    ensures ExactThroughout(base, s, schedule)
    decreases |schedule|
  {
    if schedule != [] {
      if Step(s, schedule[0]).Some? {
        StepKeepsFormed(s, schedule[0]);
        StepKeepsExactlyWhen(base, s, schedule[0]);
      }
      InPlaceStaysExact(base, Next(s, schedule[0]), schedule[1..]);
    }
  }

  // ---- One after another ----------------------------------------------------------

  /** A posting's update that nobody interrupts adds its line to the table. */
  lemma AloneAdds(s: State, u: nat)
    requires Formed(s) && u < |s.updates| && s.updates[u].way.GetAndSave? && s.updates[u].stage.Waiting?
    ensures Formed(Next(s, u)) && Next(Next(s, u), u).rows == Add(s.rows, s.updates[u].change)
  {
    StepKeepsFormed(s, u);
    var change := s.updates[u].change;
    if Find(s.rows, change.key) == |s.rows| {
      assert Find(Next(s, u).rows, change.key) == |s.rows|;
      AppendThenUpdate(s.rows, Row(change.key, 0, 0), change);
    }
  }

  /** An unposting's takes its line off. */
  lemma AloneSubtracts(s: State, u: nat, line: Row<Key>)
    requires Formed(s) && u < |s.updates| && s.updates[u].way.FindAndSave? && s.updates[u].stage.Waiting?
    requires line.debit >= 0 && line.credit >= 0 && s.updates[u].change == Row(line.key, -line.debit, -line.credit)
    ensures Formed(Next(s, u)) && Next(Next(s, u), u).rows == Subtract(s.rows, line)
  {
    StepKeepsFormed(s, u);
  }

  /** Each update read and saved before the next one reads. */
  function OneByOne(order: seq<nat>): seq<nat> {
    if order == [] then [] else [order[0], order[0]] + OneByOne(order[1..])
  }

  /** Each position of the order gives two steps of one update. */
  lemma {:induction false} OneByOneAt(order: seq<nat>, i: nat)
    requires i < |order|
    ensures |OneByOne(order)| == 2 * |order|
    ensures OneByOne(order)[2 * i] == order[i] && OneByOne(order)[2 * i + 1] == order[i]
  {
    if i > 0 {
      OneByOneAt(order[1..], i - 1);
    } else if |order| > 1 {
      OneByOneAt(order[1..], 0);
    }
  }

  predicate NobodyReading(updates: seq<Update>) {
    forall u :: 0 <= u < |updates| ==> !updates[u].way.FindAndSave? && !updates[u].stage.Read?
  }

  /** Read and saved without anyone in between. */
  lemma {:induction false} PairKeeps(base: seq<Row<Key>>, s: State, u: nat)
    requires Formed(s) && Exact(base, s) && NobodyReading(s.updates)
    ensures var read := Next(s, u);
            && Formed(read) && Exact(base, read)
            && var saved := Next(read, u);
               Formed(saved) && Exact(base, saved) && NobodyReading(saved.updates)
  {
    if Step(s, u).Some? {
      StepKeepsFormed(s, u);
      StepKeepsExactlyWhen(base, s, u);
      var read := Next(s, u);
      if Step(read, u).Some? {
        StepKeepsFormed(read, u);
        StepKeepsExactlyWhen(base, read, u);
      }
    }
  }

  lemma TwoMore(base: seq<Row<Key>>, s: State, u: nat, v: nat, rest: seq<nat>)
    requires Formed(s) && Formed(Next(s, u)) && Formed(Next(Next(s, u), v))
    ensures ExactThroughout(base, s, [u, v] + rest)
            <==> Exact(base, Next(s, u)) && Exact(base, Next(Next(s, u), v))
                 && ExactThroughout(base, Next(Next(s, u), v), rest)
  {
    assert ([u, v] + rest)[1..] == [v] + rest && ([v] + rest)[1..] == rest;
    assert ExactThroughout(base, Next(s, u), [v] + rest)
      <==> Exact(base, Next(Next(s, u), v)) && ExactThroughout(base, Next(Next(s, u), v), rest);
  }

  /** Served one after another, postings keep the table exact. */
  lemma {:induction false} OneByOneStaysExact(base: seq<Row<Key>>, s: State, order: seq<nat>)
    requires Formed(s) && Exact(base, s) && NobodyReading(s.updates)
    ensures ExactThroughout(base, s, OneByOne(order))
    decreases |order|
  {
    if order != [] {
      PairKeeps(base, s, order[0]);
      OneByOneStaysExact(base, Next(Next(s, order[0]), order[0]), order[1..]);
      TwoMore(base, s, order[0], order[0], OneByOne(order[1..]));
    }
  }

  // ---- A lost update --------------------------------------------------------------

  function Posting(key: Key, amount: int, stage: Stage): Update {
    Update(Row(key, amount, 0), GetAndSave, stage)
  }

  lemma OneRowFound(key: Key, amount: int)
    ensures Find([Row(key, amount, 0)], key) == 0
  {
    assert [Row(key, amount, 0)][..0] == [];
  }

  lemma BothRead(key: Key, first: int, second: int)
    ensures var s := State([], [Posting(key, first, Waiting), Posting(key, second, Waiting)]);
            var one := State([Row(key, 0, 0)], [Posting(key, first, Read(0, 0)), Posting(key, second, Waiting)]);
            && Formed(s) && Formed(one) && Next(s, 0) == one
            && Next(one, 1)
               == State([Row(key, 0, 0)], [Posting(key, first, Read(0, 0)), Posting(key, second, Read(0, 0))])
  {
    OneRowFound(key, 0);
  }

  lemma BothSave(key: Key, first: int, second: int)
    ensures var both := State([Row(key, 0, 0)], [Posting(key, first, Read(0, 0)), Posting(key, second, Read(0, 0))]);
            var saved := State([Row(key, first, 0)], [Posting(key, first, Over), Posting(key, second, Read(0, 0))]);
            && Formed(both) && Formed(saved) && Next(both, 0) == saved
            && Next(saved, 1) == State([Row(key, second, 0)], [Posting(key, first, Over), Posting(key, second, Over)])
  {
    OneRowFound(key, 0);
    OneRowFound(key, first);
  }

  /** Two postings to one row, both read before either saves: the second save takes the first
      amount away again. */
  lemma TwoPostingsLoseOne(key: Key, first: int, second: int)
    ensures var s := State([], [Posting(key, first, Waiting), Posting(key, second, Waiting)]);
            && Formed(s) && Formed(Next(s, 0)) && Formed(Next(Next(s, 0), 1)) && Formed(Next(Next(Next(s, 0), 1), 0))
            && Next(Next(Next(Next(s, 0), 1), 0), 1)
               == State([Row(key, second, 0)], [Posting(key, first, Over), Posting(key, second, Over)])
            && (Exact([], Next(Next(Next(Next(s, 0), 1), 0), 1)) <==> first == 0)
  {
    BothRead(key, first, second);
    BothSave(key, first, second);
    BothMade(key, first, second);
    LostExactlyWhen(key, first, second);
  }

  lemma BothMade(key: Key, first: int, second: int)
    ensures [] + Made([Posting(key, first, Over), Posting(key, second, Over)])
         == [Row(key, first, 0), Row(key, second, 0)]
  {
    var over := [Posting(key, first, Over), Posting(key, second, Over)];
    assert over[1..] == [Posting(key, second, Over)] && over[1..][1..] == [];
    assert Made(over[1..]) == [Row(key, second, 0)] + Made(over[1..][1..]) == [Row(key, second, 0)];
    assert Made(over) == [Row(key, first, 0)] + Made(over[1..]);
  }

  lemma LostExactlyWhen(key: Key, first: int, second: int)
    ensures Indexes([Row(key, second, 0)], [Row(key, first, 0), Row(key, second, 0)]) <==> first == 0
  {
    var one, two := Row(key, first, 0), Row(key, second, 0);
    assert [one, two] == [one] + [two];
    forall p: Key -> bool
      ensures Debits([one, two], p) == Debits([two], p) + DebitOf(p)(one)
      ensures Credits([one, two], p) == Credits([two], p) + CreditOf(p)(one)
    {
      ConcatAggregates([one], [two], p);
      OneLineAggregates(one, p);
    }
    assert DebitOf(Is(key))(one) == first;
  }
}
