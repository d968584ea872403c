/** Direct disbursements of an appropriation: the posted invoices, paid vouchers and journal
    lines that count against it although no purchase order committed them. */
module Disbursements {
  import opened Calendar
  import opened Wrappers
  import opened AccountTree

  /** The fiscal year's dates when it has both, else its number, else no restriction. */
  datatype Window = Between(first: Date, last: Date) | OfYear(year: int) | Unbounded

  /** The legacy ministry and fund behind the appropriation, and its account; a missing one
      is a bridge gap. */
  datatype Appropriation = Appropriation(mda: Option<nat>, fund: Option<nat>, economic: Option<nat>, window: Window)

  datatype Invoice = Invoice(posted: bool, onOrder: bool, mda: nat, fund: nat, account: nat, date: Date, amount: int)

  datatype SourceModule = Manual | VendorInvoice | PaymentVoucher | CustomerInvoice | CreditMemo | Receipt
    | YearEndClose | YearEndOpening | OtherModule

  datatype JournalLine = JournalLine(posted: bool, source: SourceModule, mda: nat, fund: nat, account: nat, date: Date,
                                     debit: int, credit: int, onAsset: bool)

  datatype Voucher = Voucher(paid: bool, fromDocument: bool, net: int)

  /** What one row counts for, on the account it is posted to. */
  datatype Posting = Posting(account: nat, amount: int)

  predicate InWindow(w: Window, d: Date) {
    match w
    case Between(first, last) => OnOrBefore(first, d) && OnOrBefore(d, last)
    case OfYear(year) => d.year == year
    case Unbounded => true
  }

  predicate SameOffice(a: Appropriation, mda: nat, fund: nat, d: Date) {
    a.mda == Some(mda) && a.fund == Some(fund) && InWindow(a.window, d)
  }

  function InvoiceShare(a: Appropriation, x: Invoice): int {
    if x.posted && !x.onOrder && SameOffice(a, x.mda, x.fund, x.date) then x.amount else 0
  }

  /** Sources whose effect is counted elsewhere, or that only roll balances over. */
  predicate Excluded(source: SourceModule) {
    source != Manual && source != OtherModule
  }

  /** Debits count in full; credits only when they are not the contra of an asset. */
  function LineShare(a: Appropriation, x: JournalLine): int {
    if x.posted && !Excluded(x.source) && SameOffice(a, x.mda, x.fund, x.date)
    then x.debit - (if x.onAsset then 0 else x.credit)
    else 0
  }

  function InvoiceShares(a: Appropriation, xs: seq<Invoice>): seq<Posting> {
    if xs == [] then [] else [Posting(xs[0].account, InvoiceShare(a, xs[0]))] + InvoiceShares(a, xs[1..])
  }

  function LineShares(a: Appropriation, xs: seq<JournalLine>): seq<Posting> {
    if xs == [] then [] else [Posting(xs[0].account, LineShare(a, xs[0]))] + LineShares(a, xs[1..])
  }

  function VoucherTotal(xs: seq<Voucher>): int {
    if xs == [] then 0
    else (if xs[0].paid && !xs[0].fromDocument then xs[0].net else 0) + VoucherTotal(xs[1..])
  }

  /** The sum over postings on listed accounts. */
  function SumOn(accounts: seq<nat>, ps: seq<Posting>): int {
    if ps == [] then 0 else (if ps[0].account in accounts then ps[0].amount else 0) + SumOn(accounts, ps[1..])
  }

  /** The two rows of one spend and its undoing: a reversal takes the spend back, the contra
      that capitalises it does not. */
  lemma ReversalUndoesContraDoesNot(a: Appropriation, spend: JournalLine, undo: JournalLine)
    requires spend.credit == 0 && undo == spend.(debit := 0, credit := spend.debit, onAsset := undo.onAsset)
    ensures LineShare(a, spend) + LineShare(a, undo) == if undo.onAsset then LineShare(a, spend) else 0
  {
  }

  /** Appropriations of years that do not overlap never count one row twice. */
  lemma YearsNeverShare(a: Appropriation, b: Appropriation, x: Invoice, l: JournalLine)
    requires a.window.Between? && b.window.Between? && Before(a.window.last, b.window.first)
    ensures InvoiceShare(a, x) == 0 || InvoiceShare(b, x) == 0
    ensures LineShare(a, l) == 0 || LineShare(b, l) == 0
  {
  }

  // ---- Roll-ups -------------------------------------------------------------------

  /** The sum over postings on an account and everything below it. */
  ghost function RollUp(chart: Chart, root: nat, ps: seq<Posting>): int {
    if ps == [] then 0
    else (if Descends(chart, ps[0].account, root) then ps[0].amount else 0) + RollUp(chart, root, ps[1..])
  }

  function Own(account: nat, ps: seq<Posting>): int {
    if ps == [] then 0 else (if ps[0].account == account then ps[0].amount else 0) + Own(account, ps[1..])
  }

  ghost function RollUps(chart: Chart, roots: seq<nat>, ps: seq<Posting>): int {
    if roots == [] then 0 else RollUp(chart, roots[0], ps) + RollUps(chart, roots[1..], ps)
  }

  lemma {:induction false} SubtreeSumIsRollUp(chart: Chart, root: nat, found: seq<nat>, ps: seq<Posting>)
    requires forall x: nat :: x in found <==> x < |chart| && Descends(chart, x, root)
    requires forall i :: 0 <= i < |ps| ==> ps[i].account < |chart|
    ensures SumOn(found, ps) == RollUp(chart, root, ps)
  {
    if ps != [] {
      SubtreeSumIsRollUp(chart, root, found, ps[1..]);
    }
  }

  lemma {:induction false} SharesOnChart(chart: Chart, a: Appropriation, invoices: seq<Invoice>,
                                         lines: seq<JournalLine>)
    requires forall i :: 0 <= i < |invoices| ==> invoices[i].account < |chart|
    requires forall i :: 0 <= i < |lines| ==> lines[i].account < |chart|
    ensures forall i :: 0 <= i < |InvoiceShares(a, invoices)| ==> InvoiceShares(a, invoices)[i].account < |chart|
    ensures forall i :: 0 <= i < |LineShares(a, lines)| ==> LineShares(a, lines)[i].account < |chart|
    decreases |invoices| + |lines|
  {
    if invoices != [] {
      SharesOnChart(chart, a, invoices[1..], lines);
    } else if lines != [] {
      SharesOnChart(chart, a, invoices, lines[1..]);
    }
  }

  ghost function Disbursed(chart: Chart, a: Appropriation, invoices: seq<Invoice>, vouchers: seq<Voucher>,
                           lines: seq<JournalLine>): int {
    if a.mda.None? || a.fund.None? || a.economic.None? then 0
    else RollUp(chart, a.economic.value, InvoiceShares(a, invoices))
         + VoucherTotal(vouchers)
         + RollUp(chart, a.economic.value, LineShares(a, lines))
  }

  /** What the walk and the three queries compute, contra-aware, with nothing counted across a
      bridge gap. */
  method ComputeDirectDisbursements(chart: Chart, a: Appropriation, invoices: seq<Invoice>, vouchers: seq<Voucher>,
                                    lines: seq<JournalLine>)
    returns (total: int)
    requires ParentsExist(chart)
    requires forall i :: 0 <= i < |invoices| ==> invoices[i].account < |chart|
    requires forall i :: 0 <= i < |lines| ==> lines[i].account < |chart|
    requires a.economic.Some? ==> a.economic.value < |chart| && !OwnAncestor(chart, a.economic.value)
    ensures total == Disbursed(chart, a, invoices, vouchers, lines)
  {
    if a.mda.None? || a.fund.None? || a.economic.None? {
      return 0;
    }
    var found := Subtree(chart, a.economic.value);
    SharesOnChart(chart, a, invoices, lines);
    SubtreeSumIsRollUp(chart, a.economic.value, found, InvoiceShares(a, invoices));
    SubtreeSumIsRollUp(chart, a.economic.value, found, LineShares(a, lines));
    return SumOn(found, InvoiceShares(a, invoices)) + VoucherTotal(vouchers) + SumOn(found, LineShares(a, lines));
  }

  // ---- A parent is its own postings and its children's ----------------------------

  /** Children of `root`, as one turn of the walk finds them. */
  function Children(chart: Chart, root: nat): seq<nat> {
    ChildrenFrom(chart, [root], 0)
  }

  /** How many of the roots an account belongs under. */
  ghost function TimesUnder(chart: Chart, roots: seq<nat>, x: nat): nat {
    if roots == [] then 0 else (if Descends(chart, x, roots[0]) then 1 else 0) + TimesUnder(chart, roots[1..], x)
  }

  /** No account lies under two of the roots. */
  ghost predicate NoOverlap(chart: Chart, roots: seq<nat>, x: nat) {
    forall i, j :: 0 <= i < j < |roots| ==> !(Descends(chart, x, roots[i]) && Descends(chart, x, roots[j]))
  }

  lemma {:induction false} UnderNone(chart: Chart, roots: seq<nat>, x: nat)
    requires forall i :: 0 <= i < |roots| ==> !Descends(chart, x, roots[i])
    ensures TimesUnder(chart, roots, x) == 0
  {
    if roots != [] {
      UnderNone(chart, roots[1..], x);
    }
  }

  lemma {:induction false} UnderOne(chart: Chart, roots: seq<nat>, x: nat)
    requires NoOverlap(chart, roots, x)
    ensures TimesUnder(chart, roots, x) <= 1
    ensures TimesUnder(chart, roots, x) == 1 <==> exists i :: 0 <= i < |roots| && Descends(chart, x, roots[i])
  {
    if roots != [] {
      if Descends(chart, x, roots[0]) {
        forall i | 0 <= i < |roots[1..]| ensures !Descends(chart, x, roots[1..][i]) {
          assert roots[1..][i] == roots[i + 1];
        }
        UnderNone(chart, roots[1..], x);
      } else {
        forall i, j | 0 <= i < j < |roots[1..]|
          ensures !(Descends(chart, x, roots[1..][i]) && Descends(chart, x, roots[1..][j]))
        {
          assert roots[1..][i] == roots[i + 1] && roots[1..][j] == roots[j + 1];
        }
        UnderOne(chart, roots[1..], x);
        if i :| 0 <= i < |roots| && Descends(chart, x, roots[i]) {
          assert roots[1..][i - 1] == roots[i];
        }
      }
    }
  }

  /** An account below `root` passes one child of it on the way up. */
  lemma {:induction false} ChildAbove(chart: Chart, root: nat, x: nat, k: nat) returns (child: nat)
    requires ParentsExist(chart) && x < |chart| && AtDepth(chart, x, root, k + 1)
    ensures child < |chart| && chart[child] == Some(root) && AtDepth(chart, x, child, k)
  {
    child := DepthsSplit(chart, x, root, k, 1);
    AncestorExists(chart, x, child, k);
  }

  lemma {:induction false} SiblingsDoNotOverlap(chart: Chart, root: nat, c: nat, d: nat, x: nat)
    requires !OwnAncestor(chart, root) && c < |chart| && d < |chart|
    requires chart[c] == Some(root) && chart[d] == Some(root)
    requires Descends(chart, x, c) && Descends(chart, x, d)
    ensures c == d
  {
    var i: nat :| AtDepth(chart, x, c, i);
    var j: nat :| AtDepth(chart, x, d, j);
    assert AtDepth(chart, c, root, 1) && AtDepth(chart, d, root, 1);
    DepthsAdd(chart, x, c, root, i, 1);
    DepthsAdd(chart, x, d, root, j, 1);
    OneDepth(chart, x, root, i + 1, j + 1);
    OneAncestorAtEachHeight(chart, x, c, d, i);
  }

  /** An account under `root` is `root` itself or under exactly one child of it. */
  lemma {:induction false} UnderRootOrOneChild(chart: Chart, root: nat, x: nat)
    requires ParentsExist(chart) && x < |chart| && root < |chart| && !OwnAncestor(chart, root)
    ensures TimesUnder(chart, Children(chart, root), x) == if Descends(chart, x, root) && x != root then 1 else 0
  {
    var children := Children(chart, root);
    forall i, j | 0 <= i < j < |children|
      ensures !(Descends(chart, x, children[i]) && Descends(chart, x, children[j]))
    {
      if Descends(chart, x, children[i]) && Descends(chart, x, children[j]) {
        assert children[i] in children && children[j] in children;
        SiblingsDoNotOverlap(chart, root, children[i], children[j], x);
      }
    }
    UnderOne(chart, children, x);
    if Descends(chart, x, root) && x != root {
      var k: nat :| AtDepth(chart, x, root, k);
      var child := ChildAbove(chart, root, x, k - 1);
      assert child in children;
    }
    forall i | 0 <= i < |children| && Descends(chart, x, children[i]) ensures Descends(chart, x, root) && x != root {
      var j: nat :| AtDepth(chart, x, children[i], j);
      assert children[i] in children;
      assert AtDepth(chart, children[i], root, 1);
      DepthsAdd(chart, x, children[i], root, j, 1);
    }
  }

  /** Several roll-ups count a posting once for each root it lies under. */
  lemma {:induction false} RollUpsFront(chart: Chart, roots: seq<nat>, ps: seq<Posting>)
    requires ps != []
    ensures RollUps(chart, roots, ps)
         == TimesUnder(chart, roots, ps[0].account) * ps[0].amount + RollUps(chart, roots, ps[1..])
  {
    if roots != [] {
      RollUpsFront(chart, roots[1..], ps);
    }
  }

  lemma {:induction false} RollUpsOfNothing(chart: Chart, roots: seq<nat>)
    ensures RollUps(chart, roots, []) == 0
  {
    if roots != [] {
      RollUpsOfNothing(chart, roots[1..]);
    }
  }

  /** The roll-up of an account is its own postings plus its children's roll-ups. */
  lemma {:induction false} RollUpIsOwnPlusChildren(chart: Chart, root: nat, ps: seq<Posting>)
    requires ParentsExist(chart) && root < |chart| && !OwnAncestor(chart, root)
    requires forall i :: 0 <= i < |ps| ==> ps[i].account < |chart|
    ensures RollUp(chart, root, ps) == Own(root, ps) + RollUps(chart, Children(chart, root), ps)
  {
    if ps == [] {
      RollUpsOfNothing(chart, Children(chart, root));
    } else {
      RollUpIsOwnPlusChildren(chart, root, ps[1..]);
      RollUpsFront(chart, Children(chart, root), ps);
      UnderRootOrOneChild(chart, root, ps[0].account);
      assert AtDepth(chart, root, root, 0);
    }
  }

  // ---- Incomparable appropriations ------------------------------------------------

  /** Two accounts with a posting below both lie on one branch. */
  lemma {:induction false} SharedMeansComparable(chart: Chart, a: nat, b: nat, x: nat)
    requires Descends(chart, x, a) && Descends(chart, x, b)
    ensures Descends(chart, a, b) || Descends(chart, b, a)
  {
    var i: nat :| AtDepth(chart, x, a, i);
    var j: nat :| AtDepth(chart, x, b, j);
    if i <= j {
      var y := DepthsSplit(chart, x, b, i, j - i);
      OneAncestorAtEachHeight(chart, x, y, a, i);
    } else {
      var y := DepthsSplit(chart, x, a, j, i - j);
      OneAncestorAtEachHeight(chart, x, y, b, j);
    }
  }

  ghost predicate Incomparable(chart: Chart, roots: seq<nat>) {
    forall i, j :: 0 <= i < j < |roots| ==> !Descends(chart, roots[i], roots[j]) && !Descends(chart, roots[j], roots[i])
  }

  /** Appropriations on incomparable accounts never count one posting twice: together they
      take it once if it lies under one of them and not at all otherwise. */
  lemma {:induction false} IncomparableNeverShare(chart: Chart, roots: seq<nat>, x: nat)
    requires Incomparable(chart, roots)
    ensures TimesUnder(chart, roots, x) <= 1
    ensures TimesUnder(chart, roots, x) == 1 <==> exists i :: 0 <= i < |roots| && Descends(chart, x, roots[i])
  {
    forall i, j | 0 <= i < j < |roots| ensures !(Descends(chart, x, roots[i]) && Descends(chart, x, roots[j])) {
      if Descends(chart, x, roots[i]) && Descends(chart, x, roots[j]) {
        SharedMeansComparable(chart, roots[i], roots[j], x);
      }
    }
    UnderOne(chart, roots, x);
  }
}
