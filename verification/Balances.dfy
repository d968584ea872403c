/** Tables of debit and credit totals by key.  The GL balance index and the grouped
    report queries are both such tables: each line is added to the row of its key, which
    is created at zero when absent. */
module Balances {
  import opened Sums

  datatype Row<+K> = Row(key: K, debit: int, credit: int)

  /** The position of the row with key `k`, or the length of the table. */
  function Find<K(==)>(t: seq<Row<K>>, k: K): (i: nat)
    ensures i <= |t|
    ensures i < |t| ==> t[i].key == k
    ensures forall j :: 0 <= j < i ==> t[j].key != k
  {
    if t == [] then 0
    else
      var i := Find(t[..|t| - 1], k);
      if i < |t| - 1 then i else if t[i].key == k then i else |t|
  }

  /** Get-or-create at zero, then add. */
  function Add<K(==)>(t: seq<Row<K>>, r: Row<K>): seq<Row<K>> {
    var i := Find(t, r.key);
    if i < |t| then t[i := Row(r.key, t[i].debit + r.debit, t[i].credit + r.credit)] else t + [r]
  }

  /** Look the row up and, if it is there, take off the amounts that are positive. */
  function Subtract<K(==)>(t: seq<Row<K>>, r: Row<K>): seq<Row<K>> {
    var i := Find(t, r.key);
    if i == |t| then t
    else t[i := Row(r.key,
                    if r.debit > 0 then t[i].debit - r.debit else t[i].debit,
                    if r.credit > 0 then t[i].credit - r.credit else t[i].credit)]
  }

  function AddAll<K(==)>(t: seq<Row<K>>, rs: seq<Row<K>>): seq<Row<K>>
    decreases |rs|
  {
    if rs == [] then t else AddAll(Add(t, rs[0]), rs[1..])
  }

  function SubtractAll<K(==)>(t: seq<Row<K>>, rs: seq<Row<K>>): seq<Row<K>>
    decreases |rs|
  {
    if rs == [] then t else SubtractAll(Subtract(t, rs[0]), rs[1..])
  }

  ghost predicate Unique<K>(t: seq<Row<K>>) {
    forall i, j :: 0 <= i < j < |t| ==> t[i].key != t[j].key
  }

  ghost predicate Nonnegative<K(!new)>(t: seq<Row<K>>) {
    forall r :: r in t ==> r.debit >= 0 && r.credit >= 0
  }

  // ---- Aggregates over the rows a filter selects ----------------------------------

  function DebitOf<K>(p: K -> bool): Row<K> -> int {
    (r: Row<K>) => if p(r.key) then r.debit else 0
  }

  function CreditOf<K>(p: K -> bool): Row<K> -> int {
    (r: Row<K>) => if p(r.key) then r.credit else 0
  }

  function NetOf<K>(p: K -> bool): Row<K> -> int {
    (r: Row<K>) => if p(r.key) then r.debit - r.credit else 0
  }

  function Is<K(==)>(k: K): K -> bool {
    (x: K) => x == k
  }

  function Debits<K>(t: seq<Row<K>>, p: K -> bool): int {
    Sum(t, DebitOf(p))
  }

  function Credits<K>(t: seq<Row<K>>, p: K -> bool): int {
    Sum(t, CreditOf(p))
  }

  function Net<K>(t: seq<Row<K>>, p: K -> bool): int {
    Sum(t, NetOf(p))
  }

  lemma {:induction false} NetIsDebitsLessCredits<K>(t: seq<Row<K>>, p: K -> bool)
    ensures Net(t, p) == Debits(t, p) - Credits(t, p)
  {
    if t != [] {
      NetIsDebitsLessCredits(t[..|t| - 1], p);
    }
  }

  /** An amount read off a row that adds up when the debits and credits do. */
  ghost predicate Additive<K(!new)>(g: Row<K> -> int) {
    forall k, d1, c1, d2, c2 ::
      g(Row(k, d1 + d2, c1 + c2)) == g(Row(k, d1, c1)) + g(Row(k, d2, c2))
  }

  /** Adding a line moves every additive aggregate by that line alone. */
  lemma {:induction false} AddSum<K(!new)>(t: seq<Row<K>>, r: Row<K>, g: Row<K> -> int)
    requires Additive(g)
    ensures Sum(Add(t, r), g) == Sum(t, g) + g(r)
  {
    var i := Find(t, r.key);
    if i < |t| {
      SumUpdate(t, i, Row(r.key, t[i].debit + r.debit, t[i].credit + r.credit), g);
      assert t[i] == Row(r.key, t[i].debit, t[i].credit) && r == Row(r.key, r.debit, r.credit);
    } else {
      SumAppend(t, r, g);
    }
  }

  /** Grouping theorem: an additive aggregate over the grouped table is the same aggregate
      over the lines it was grouped from. */
  lemma {:induction false} AddAllSum<K(!new)>(t: seq<Row<K>>, rs: seq<Row<K>>, g: Row<K> -> int)
    requires Additive(g)
    ensures Sum(AddAll(t, rs), g) == Sum(t, g) + Sum(rs, g)
    decreases |rs|
  {
    if rs != [] {
      AddSum(t, rs[0], g);
      AddAllSum(Add(t, rs[0]), rs[1..], g);
      SumFront(rs, g);
    }
  }

  lemma {:induction false} AddAllAggregates<K(!new)>(t: seq<Row<K>>, rs: seq<Row<K>>, p: K -> bool)
    ensures Debits(AddAll(t, rs), p) == Debits(t, p) + Debits(rs, p)
    ensures Credits(AddAll(t, rs), p) == Credits(t, p) + Credits(rs, p)
    ensures Net(AddAll(t, rs), p) == Net(t, p) + Net(rs, p)
  {
    AddAllSum(t, rs, DebitOf(p));
    AddAllSum(t, rs, CreditOf(p));
    AddAllSum(t, rs, NetOf(p));
  }

  lemma {:induction false} AddAllInTwo<K>(t: seq<Row<K>>, rs: seq<Row<K>>, more: seq<Row<K>>)
    ensures AddAll(t, rs + more) == AddAll(AddAll(t, rs), more)
    decreases |rs|
  {
    if rs == [] {
      assert rs + more == more;
    } else {
      assert (rs + more)[1..] == rs[1..] + more;
      AddAllInTwo(Add(t, rs[0]), rs[1..], more);
    }
  }

  lemma {:induction false} AddKeepsUnique<K>(t: seq<Row<K>>, r: Row<K>)
    requires Unique(t)
    ensures Unique(Add(t, r))
  {
  }

  lemma {:induction false} AddAllKeepsUnique<K>(t: seq<Row<K>>, rs: seq<Row<K>>)
    requires Unique(t)
    ensures Unique(AddAll(t, rs))
    decreases |rs|
  {
    if rs != [] {
      AddKeepsUnique(t, rs[0]);
      AddAllKeepsUnique(Add(t, rs[0]), rs[1..]);
    }
  }

  /** In a table without duplicate keys a row holds the whole total of its key. */
  lemma {:induction false} RowHoldsTotal<K>(t: seq<Row<K>>, i: nat)
    requires Unique(t) && i < |t|
    ensures Debits(t, Is(t[i].key)) == t[i].debit
    ensures Credits(t, Is(t[i].key)) == t[i].credit
  {
    var k := t[i].key;
    var init, last := t[..|t| - 1], t[|t| - 1];
    if i == |t| - 1 {
      forall r | r in init ensures r.key != k {
      }
      SumZero(init, DebitOf(Is(k)));
      SumZero(init, CreditOf(Is(k)));
    } else {
      RowHoldsTotal(init, i);
    }
  }

  lemma {:induction false} AbsentKeyTotalsZero<K>(t: seq<Row<K>>, k: K)
    requires Find(t, k) == |t|
    ensures Debits(t, Is(k)) == 0 && Credits(t, Is(k)) == 0
  {
    SumZero(t, DebitOf(Is(k)));
    SumZero(t, CreditOf(Is(k)));
  }

  /** Subtracting a present, non-negative line is the exact opposite of adding it. */
  lemma {:induction false} SubtractAggregates<K>(t: seq<Row<K>>, r: Row<K>, p: K -> bool)
    requires r.debit >= 0 && r.credit >= 0
    requires Find(t, r.key) < |t| || (r.debit == 0 && r.credit == 0)
    ensures Debits(Subtract(t, r), p) == Debits(t, p) - DebitOf(p)(r)
    ensures Credits(Subtract(t, r), p) == Credits(t, p) - CreditOf(p)(r)
  {
    var i := Find(t, r.key);
    if i < |t| {
      SumUpdate(t, i, Subtract(t, r)[i], DebitOf(p));
      SumUpdate(t, i, Subtract(t, r)[i], CreditOf(p));
    }
  }

  lemma {:induction false} PartOfTotal<K(!new)>(t: seq<Row<K>>, r: Row<K>)
    requires Nonnegative(t) && r in t
    ensures r.debit <= Debits(t, Is(r.key)) && r.credit <= Credits(t, Is(r.key))
    ensures Debits(t, Is(r.key)) >= 0 && Credits(t, Is(r.key)) >= 0
  {
    var init := t[..|t| - 1];
    NonnegativeTotals(init, r.key);
    if r in init {
      PartOfTotal(init, r);
    }
  }

  lemma {:induction false} NonnegativeTotals<K(!new)>(t: seq<Row<K>>, k: K)
    requires Nonnegative(t)
    ensures Debits(t, Is(k)) >= 0 && Credits(t, Is(k)) >= 0
  {
    if t != [] {
      NonnegativeTotals(t[..|t| - 1], k);
    }
  }

  // ---- An index over a list of lines ----------------------------------------------

  /** Every filter of keys selects the same debits and credits from both. */
  ghost predicate SameAmounts<K(!new)>(a: seq<Row<K>>, b: seq<Row<K>>) {
    forall p: K -> bool :: Debits(a, p) == Debits(b, p) && Credits(a, p) == Credits(b, p)
  }

  /** `t` is an index of `rs`: no key occurs twice, and it holds the amounts of the lines. */
  ghost predicate Indexes<K(!new)>(t: seq<Row<K>>, rs: seq<Row<K>>) {
    Unique(t) && SameAmounts(t, rs)
  }

  lemma ConcatAggregates<K>(a: seq<Row<K>>, b: seq<Row<K>>, p: K -> bool)
    ensures Debits(a + b, p) == Debits(a, p) + Debits(b, p)
    ensures Credits(a + b, p) == Credits(a, p) + Credits(b, p)
  {
    SumConcat(a, b, DebitOf(p));
    SumConcat(a, b, CreditOf(p));
  }

  lemma {:induction false} AddAllIndexes<K(!new)>(t: seq<Row<K>>, base: seq<Row<K>>, rs: seq<Row<K>>)
    requires Indexes(t, base)
    ensures Indexes(AddAll(t, rs), base + rs)
  {
    AddAllKeepsUnique(t, rs);
    forall p: K -> bool
      ensures Debits(AddAll(t, rs), p) == Debits(base + rs, p)
      ensures Credits(AddAll(t, rs), p) == Credits(base + rs, p)
    {
      AddAllAggregates(t, rs, p);
      SumConcat(base, rs, DebitOf(p));
      SumConcat(base, rs, CreditOf(p));
    }
  }

  lemma {:induction false} SubtractIndexes<K(!new)>(t: seq<Row<K>>, base: seq<Row<K>>, r: Row<K>)
    requires Indexes(t, base + [r]) && Nonnegative(base + [r])
    ensures Indexes(Subtract(t, r), base)
  {
    if Find(t, r.key) == |t| {
      AbsentKeyTotalsZero(t, r.key);
      assert r in base + [r];
      PartOfTotal(base + [r], r);
    }
    forall p: K -> bool
      ensures Debits(Subtract(t, r), p) == Debits(base, p)
      ensures Credits(Subtract(t, r), p) == Credits(base, p)
    {
      SubtractAggregates(t, r, p);
      SumAppend(base, r, DebitOf(p));
      SumAppend(base, r, CreditOf(p));
    }
  }

  /** Only the totals of the lines matter to an index, not their order. */
  lemma {:induction false} IndexesSwap<K(!new)>(t: seq<Row<K>>, a: seq<Row<K>>, b: seq<Row<K>>, c: seq<Row<K>>)
    requires Indexes(t, a + b + c)
    ensures Indexes(t, a + c + b)
  {
    forall p: K -> bool
      ensures Debits(a + b + c, p) == Debits(a + c + b, p)
      ensures Credits(a + b + c, p) == Credits(a + c + b, p)
    {
      SumConcat(a + b, c, DebitOf(p));
      SumConcat(a, b, DebitOf(p));
      SumConcat(a + c, b, DebitOf(p));
      SumConcat(a, c, DebitOf(p));
      SumConcat(a + b, c, CreditOf(p));
      SumConcat(a, b, CreditOf(p));
      SumConcat(a + c, b, CreditOf(p));
      SumConcat(a, c, CreditOf(p));
    }
  }

  /** Taking the lines of one journal off an index leaves an index of the others. */
  lemma {:induction false} SubtractAllIndexes<K(!new)>(t: seq<Row<K>>, base: seq<Row<K>>, rs: seq<Row<K>>)
    requires Indexes(t, base + rs) && Nonnegative(base + rs)
    ensures Indexes(SubtractAll(t, rs), base)
    decreases |rs|
  {
    if rs == [] {
      assert base + rs == base;
    } else {
      var first, rest := rs[0], rs[1..];
      assert base + rs == base + [first] + rest;
      IndexesSwap(t, base, [first], rest);
      assert Nonnegative(base + rest + [first]) by {
        forall r | r in base + rest + [first] ensures r in base + rs {
        }
      }
      SubtractIndexes(t, base + rest, first);
      assert Nonnegative(base + rest) by {
        forall r | r in base + rest ensures r in base + rs {
        }
      }
      SubtractAllIndexes(Subtract(t, first), base, rest);
    }
  }

  /** Two indexes of the same lines hold the same amounts under every key: an absent row
      counts as zero. */
  lemma {:induction false} IndexIsDetermined<K(!new)>(t: seq<Row<K>>, u: seq<Row<K>>, rs: seq<Row<K>>, i: nat)
    requires Indexes(t, rs) && Indexes(u, rs) && i < |t|
    ensures var j := Find(u, t[i].key);
            if j < |u| then u[j].debit == t[i].debit && u[j].credit == t[i].credit
            else t[i].debit == 0 && t[i].credit == 0
  {
    RowHoldsTotal(t, i);
    var j := Find(u, t[i].key);
    if j < |u| {
      RowHoldsTotal(u, j);
    } else {
      AbsentKeyTotalsZero(u, t[i].key);
    }
    assert Debits(t, Is(t[i].key)) == Debits(rs, Is(t[i].key)) == Debits(u, Is(t[i].key));
    assert Credits(t, Is(t[i].key)) == Credits(rs, Is(t[i].key)) == Credits(u, Is(t[i].key));
  }

  // ---- Lines whose rows are there -------------------------------------------------

  ghost predicate HasRows<K(!new)>(t: seq<Row<K>>, rs: seq<Row<K>>) {
    forall r :: r in rs ==> Find(t, r.key) < |t|
  }

  /** The same keys in the same places. */
  ghost predicate SameKeys<K(!new)>(t: seq<Row<K>>, u: seq<Row<K>>) {
    |t| == |u| && forall i :: 0 <= i < |t| ==> t[i].key == u[i].key
  }

  lemma {:induction false} SubtractAllKeepsKeys<K(!new)>(t: seq<Row<K>>, rs: seq<Row<K>>)
    ensures SameKeys(t, SubtractAll(t, rs))
    decreases |rs|
  {
    if rs != [] {
      SubtractAllKeepsKeys(Subtract(t, rs[0]), rs[1..]);
    }
  }

  lemma {:induction false} SameKeysKeepRows<K(!new)>(t: seq<Row<K>>, u: seq<Row<K>>, rs: seq<Row<K>>)
    requires SameKeys(t, u) && HasRows(t, rs)
    ensures HasRows(u, rs)
  {
    forall r | r in rs ensures Find(u, r.key) < |u| {
      assert u[Find(t, r.key)].key == r.key;
    }
  }

  lemma {:induction false} AddAllKeepsRows<K(!new)>(t: seq<Row<K>>, more: seq<Row<K>>, rs: seq<Row<K>>)
    requires HasRows(t, rs)
    ensures HasRows(AddAll(t, more), rs)
    decreases |more|
  {
    if more != [] {
      var u := Add(t, more[0]);
      forall r | r in rs ensures Find(u, r.key) < |u| {
        assert u[Find(t, r.key)].key == r.key;
      }
      AddAllKeepsRows(u, more[1..], rs);
    }
  }

  /** The lines whose row is there. */
  function Present<K(==)>(t: seq<Row<K>>, rs: seq<Row<K>>): seq<Row<K>> {
    if rs == [] then []
    else (if Find(t, rs[0].key) < |t| then [rs[0]] else []) + Present(t, rs[1..])
  }

  lemma {:induction false} PresentKeepsKeys<K(!new)>(t: seq<Row<K>>, u: seq<Row<K>>, rs: seq<Row<K>>)
    requires SameKeys(t, u)
    ensures Present(u, rs) == Present(t, rs)
  {
    if rs != [] {
      var k := rs[0].key;
      assert Find(t, k) < |t| ==> u[Find(t, k)].key == k;
      assert Find(u, k) < |u| ==> t[Find(u, k)].key == k;
      PresentKeepsKeys(t, u, rs[1..]);
    }
  }

  lemma {:induction false} AllPresent<K(!new)>(t: seq<Row<K>>, rs: seq<Row<K>>)
    requires HasRows(t, rs)
    ensures Present(t, rs) == rs
  {
    if rs != [] {
      AllPresent(t, rs[1..]);
    }
  }

  lemma OneLineAggregates<K>(r: Row<K>, p: K -> bool)
    ensures Debits([r], p) == DebitOf(p)(r) && Credits([r], p) == CreditOf(p)(r)
  {
    assert [r][..0] == [];
    assert Debits([r], p) == Debits([r][..0], p) + DebitOf(p)(r);
    assert Credits([r], p) == Credits([r][..0], p) + CreditOf(p)(r);
  }

  /** Subtracting takes off exactly the amounts of the lines whose rows are there. */
  lemma {:induction false} SubtractAllAggregates<K(!new)>(t: seq<Row<K>>, rs: seq<Row<K>>, p: K -> bool)
    requires Nonnegative(rs)
    ensures Debits(SubtractAll(t, rs), p) == Debits(t, p) - Debits(Present(t, rs), p)
    ensures Credits(SubtractAll(t, rs), p) == Credits(t, p) - Credits(Present(t, rs), p)
    decreases |rs|
  {
    if rs != [] {
      var u := Subtract(t, rs[0]);
      SubtractAllAggregates(u, rs[1..], p);
      PresentKeepsKeys(t, u, rs[1..]);
      if Find(t, rs[0].key) < |t| {
        SubtractAggregates(t, rs[0], p);
        ConcatAggregates([rs[0]], Present(t, rs[1..]), p);
        OneLineAggregates(rs[0], p);
      } else {
        assert [] + Present(t, rs[1..]) == Present(t, rs[1..]);
      }
    }
  }

  /** An index has a row for every line that carries an amount. */
  lemma {:induction false} IndexHasRows<K(!new)>(t: seq<Row<K>>, all: seq<Row<K>>, rs: seq<Row<K>>)
    requires Indexes(t, all) && Nonnegative(all)
    requires forall r :: r in rs ==> r in all && (r.debit > 0 || r.credit > 0)
    ensures HasRows(t, rs)
  {
    forall r | r in rs ensures Find(t, r.key) < |t| {
      if Find(t, r.key) == |t| {
        AbsentKeyTotalsZero(t, r.key);
        PartOfTotal(all, r);
      }
    }
  }
}
