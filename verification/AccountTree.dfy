/** The account subtree an appropriation controls, found level by level, and what the
    postings on it add up to. */
module AccountTree {
  import opened Wrappers

  /** The parent of each account; accounts are numbered by their rows. */
  type Chart = seq<Option<nat>>

  predicate ParentsExist(chart: Chart) {
    forall x :: 0 <= x < |chart| && chart[x].Some? ==> chart[x].value < |chart|
  }

  /** `x` lies exactly `k` levels below `root`. */
  predicate AtDepth(chart: Chart, x: nat, root: nat, k: nat)
    decreases k
  {
    if k == 0 then x == root
    else x < |chart| && chart[x].Some? && AtDepth(chart, chart[x].value, root, k - 1)
  }

  predicate Within(chart: Chart, x: nat, root: nat, k: nat) {
    AtDepth(chart, x, root, k) || (k > 0 && Within(chart, x, root, k - 1))
  }

  /** `x` is `root` or below it. */
  ghost predicate Descends(chart: Chart, x: nat, root: nat) {
    exists k: nat :: AtDepth(chart, x, root, k)
  }

  /** `root` lies on a cycle of parents. */
  ghost predicate OwnAncestor(chart: Chart, root: nat) {
    exists k: nat :: k > 0 && AtDepth(chart, root, root, k)
  }

  predicate NoRepeats(xs: seq<nat>) {
    forall i, j :: 0 <= i < j < |xs| ==> xs[i] != xs[j]
  }

  /** The query of all accounts whose parent is listed, in table order from row `from`. */
  function ChildrenFrom(chart: Chart, frontier: seq<nat>, from: nat): (children: seq<nat>)
    requires from <= |chart|
    ensures forall y :: y in children <==> from <= y < |chart| && chart[y].Some? && chart[y].value in frontier
    ensures NoRepeats(children)
    decreases |chart| - from
  {
    if from == |chart| then []
    else if chart[from].Some? && chart[from].value in frontier then [from] + ChildrenFrom(chart, frontier, from + 1)
    else ChildrenFrom(chart, frontier, from + 1)
  }

  // ---- Depths ---------------------------------------------------------------------

  lemma {:induction false} DepthsAdd(chart: Chart, x: nat, y: nat, z: nat, i: nat, j: nat)
    requires AtDepth(chart, x, y, i) && AtDepth(chart, y, z, j)
    ensures AtDepth(chart, x, z, i + j)
    decreases i
  {
    if i > 0 {
      DepthsAdd(chart, chart[x].value, y, z, i - 1, j);
    }
  }

  /** The ancestor `i` levels up is passed on the way to any higher one. */
  lemma {:induction false} DepthsSplit(chart: Chart, x: nat, z: nat, i: nat, j: nat) returns (y: nat)
    requires AtDepth(chart, x, z, i + j)
    ensures AtDepth(chart, x, y, i) && AtDepth(chart, y, z, j)
    decreases i
  {
    if i == 0 {
      y := x;
    } else {
      y := DepthsSplit(chart, chart[x].value, z, i - 1, j);
    }
  }

  lemma {:induction false} OneAncestorAtEachHeight(chart: Chart, x: nat, y: nat, z: nat, i: nat)
    requires AtDepth(chart, x, y, i) && AtDepth(chart, x, z, i)
    ensures y == z
    decreases i
  {
    if i > 0 {
      OneAncestorAtEachHeight(chart, chart[x].value, y, z, i - 1);
    }
  }

  /** Off a cycle, an account has one depth below `root`. */
  lemma {:induction false} OneDepth(chart: Chart, x: nat, root: nat, i: nat, j: nat)
    requires !OwnAncestor(chart, root) && AtDepth(chart, x, root, i) && AtDepth(chart, x, root, j)
    ensures i == j
  {
    if i < j {
      var y := DepthsSplit(chart, x, root, i, j - i);
      OneAncestorAtEachHeight(chart, x, y, root, i);
    } else if j < i {
      var y := DepthsSplit(chart, x, root, j, i - j);
      OneAncestorAtEachHeight(chart, x, y, root, j);
    }
  }

  lemma {:induction false} WithinHasDepth(chart: Chart, x: nat, root: nat, k: nat) returns (j: nat)
    requires Within(chart, x, root, k)
    ensures j <= k && AtDepth(chart, x, root, j)
  {
    if AtDepth(chart, x, root, k) {
      j := k;
    } else {
      j := WithinHasDepth(chart, x, root, k - 1);
    }
  }

  lemma {:induction false} DepthIsWithin(chart: Chart, x: nat, root: nat, j: nat, k: nat)
    requires j <= k && AtDepth(chart, x, root, j)
    ensures Within(chart, x, root, k)
  {
    if j < k {
      DepthIsWithin(chart, x, root, j, k - 1);
    }
  }

  // ---- The walk -------------------------------------------------------------------

  /** Accounts the walk has not reached after `k` levels. */
  ghost function Unreached(chart: Chart, root: nat, k: nat): set<nat> {
    set x: nat | x < |chart| && !Within(chart, x, root, k)
  }

  /** `xs` are the accounts exactly `k` levels below `root`. */
  ghost predicate IsLevel(chart: Chart, root: nat, k: nat, xs: seq<nat>) {
    forall x: nat :: x in xs <==> x < |chart| && AtDepth(chart, x, root, k)
  }

  ghost predicate IsReached(chart: Chart, root: nat, k: nat, xs: seq<nat>) {
    forall x: nat :: x in xs <==> x < |chart| && Within(chart, x, root, k)
  }

  lemma NextLevel(chart: Chart, root: nat, k: nat, frontier: seq<nat>)
    requires IsLevel(chart, root, k, frontier) && ParentsExist(chart)
    ensures IsLevel(chart, root, k + 1, ChildrenFrom(chart, frontier, 0))
  {
  }

  /** Off a cycle a new level holds only accounts not reached before. */
  lemma {:induction false} LevelIsNew(chart: Chart, root: nat, k: nat, x: nat)
    requires !OwnAncestor(chart, root) && AtDepth(chart, x, root, k + 1)
    ensures !Within(chart, x, root, k)
  {
    if Within(chart, x, root, k) {
      var j := WithinHasDepth(chart, x, root, k);
      OneDepth(chart, x, root, j, k + 1);
    }
  }

  /** An empty level ends the subtree. */
  lemma {:induction false} EmptyLevelEnds(chart: Chart, root: nat, k: nat, x: nat)
    requires IsLevel(chart, root, k, []) && ParentsExist(chart) && x < |chart| && Descends(chart, x, root)
    ensures Within(chart, x, root, k)
  {
    var j: nat :| AtDepth(chart, x, root, j);
    if j <= k {
      DepthIsWithin(chart, x, root, j, k);
    } else {
      var y := DepthsSplit(chart, x, root, j - k, k);
      AncestorExists(chart, x, y, j - k);
    }
  }

  lemma {:induction false} AncestorExists(chart: Chart, x: nat, y: nat, k: nat)
    requires ParentsExist(chart) && x < |chart| && AtDepth(chart, x, y, k)
    ensures y < |chart|
    decreases k
  {
    if k > 0 {
      AncestorExists(chart, chart[x].value, y, k - 1);
    }
  }

  lemma JoinedWithoutRepeats(xs: seq<nat>, ys: seq<nat>)
    requires NoRepeats(xs) && NoRepeats(ys) && forall y :: y in ys ==> y !in xs
    ensures NoRepeats(xs + ys)
  {
    forall i, j | 0 <= i < j < |xs + ys| ensures (xs + ys)[i] != (xs + ys)[j] {
      if i < |xs| <= j {
        assert (xs + ys)[i] in xs && (xs + ys)[j] in ys;
      }
    }
  }

  lemma {:induction false} ReachedGrows(chart: Chart, root: nat, k: nat, found: seq<nat>, children: seq<nat>)
    requires !OwnAncestor(chart, root) && NoRepeats(found) && NoRepeats(children)
    requires IsReached(chart, root, k, found) && IsLevel(chart, root, k + 1, children)
    ensures IsReached(chart, root, k + 1, found + children) && NoRepeats(found + children)
    ensures Unreached(chart, root, k + 1) <= Unreached(chart, root, k)
    ensures children != [] ==> Unreached(chart, root, k + 1) < Unreached(chart, root, k)
  {
    forall x | x in children ensures x !in found {
      LevelIsNew(chart, root, k, x);
    }
    JoinedWithoutRepeats(found, children);
    if children != [] {
      LevelIsNew(chart, root, k, children[0]);
      assert children[0] in Unreached(chart, root, k) && children[0] !in Unreached(chart, root, k + 1);
    }
  }

  /** The frontier walk: it ends, and finds the account and everything below it, each once. */
  method Subtree(chart: Chart, root: nat) returns (found: seq<nat>)
    requires ParentsExist(chart) && root < |chart| && !OwnAncestor(chart, root)
    ensures forall x: nat :: x in found <==> x < |chart| && Descends(chart, x, root)
    ensures NoRepeats(found)
  {
    found := [root];
    var frontier := [root];
    ghost var k := 0;
    while frontier != []
      invariant IsLevel(chart, root, k, frontier) && NoRepeats(frontier)
      invariant IsReached(chart, root, k, found) && NoRepeats(found)
      decreases Unreached(chart, root, k), |frontier|
    {
      var children := ChildrenFrom(chart, frontier, 0);
      NextLevel(chart, root, k, frontier);
      ReachedGrows(chart, root, k, found, children);
      found := found + children;
      frontier := children;
      k := k + 1;
    }
    forall x | x in found ensures Descends(chart, x, root) {
      var j := WithinHasDepth(chart, x, root, k);
    }
    forall x: nat | x < |chart| && Descends(chart, x, root) ensures x in found {
      EmptyLevelEnds(chart, root, k, x);
    }
  }

  // ---- When the walk ends ---------------------------------------------------------

  lemma {:induction false} CycleRepeats(chart: Chart, root: nat, k: nat, n: nat) returns (height: nat)
    requires k > 0 && AtDepth(chart, root, root, k)
    ensures height >= n && AtDepth(chart, root, root, height)
  {
    height := 0;
    if n > 0 {
      height := CycleRepeats(chart, root, k, if n > k then n - k else 0);
      DepthsAdd(chart, root, root, root, height, k);
      height := height + k;
    }
  }

  lemma {:induction false} LevelsRunOut(chart: Chart, root: nat, k: nat, found: seq<nat>, frontier: seq<nat>)
    returns (n: nat)
    requires ParentsExist(chart) && !OwnAncestor(chart, root)
    requires IsLevel(chart, root, k, frontier) && NoRepeats(frontier)
    requires IsReached(chart, root, k, found) && NoRepeats(found)
    ensures IsLevel(chart, root, n, [])
    decreases Unreached(chart, root, k), |frontier|
  {
    if frontier == [] {
      n := k;
    } else {
      var children := ChildrenFrom(chart, frontier, 0);
      NextLevel(chart, root, k, frontier);
      ReachedGrows(chart, root, k, found, children);
      n := LevelsRunOut(chart, root, k + 1, found + children, children);
    }
  }

  /** The walk comes to an empty frontier exactly when the account is not its own proper
      ancestor: on a cycle every level has an account. */
  lemma {:induction false} WalkEndsExactlyWhen(chart: Chart, root: nat)
    requires ParentsExist(chart) && root < |chart|
    ensures (exists n: nat :: IsLevel(chart, root, n, [])) <==> !OwnAncestor(chart, root)
  {
    if OwnAncestor(chart, root) {
      var k: nat :| k > 0 && AtDepth(chart, root, root, k);
      forall n: nat ensures !IsLevel(chart, root, n, []) {
        var height := CycleRepeats(chart, root, k, n);
        var x := DepthsSplit(chart, root, root, height - n, n);
        AncestorExists(chart, root, x, height - n);
      }
    } else {
      var n := LevelsRunOut(chart, root, 0, [root], [root]);
    }
  }
}
