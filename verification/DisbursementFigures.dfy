/** Which rows count as direct disbursements of an appropriation, and for how much, row by row
    and field by field. */
module DisbursementFigures {
  import opened Calendar
  import opened AccountTree
  import opened Disbursements

  /** A row of the appropriation's ministry and fund, on its account or one below it, dated in
      its window. */
  ghost predicate Concerns(chart: Chart, a: Appropriation, mda: nat, fund: nat, account: nat, date: Date) {
    && a.mda.Some? && a.mda.value == mda && a.fund.Some? && a.fund.value == fund
    && a.economic.Some? && Descends(chart, account, a.economic.value)
    && match a.window
       case Between(first, last) => !Before(date, first) && !Before(last, date)
       case OfYear(year) => date.year == year
       case Unbounded => true
  }

  lemma {:induction false} RollUpMiddle(chart: Chart, root: nat, left: seq<Posting>, p: Posting, right: seq<Posting>)
    ensures RollUp(chart, root, left + [p] + right)
         == RollUp(chart, root, left + right) + if Descends(chart, p.account, root) then p.amount else 0
  {
    if left == [] {
      assert left + [p] + right == [p] + right && left + right == right;
    } else {
      assert (left + [p] + right)[1..] == left[1..] + [p] + right && (left + right)[1..] == left[1..] + right;
      RollUpMiddle(chart, root, left[1..], p, right);
    }
  }

  lemma {:induction false} InvoiceSharesConcat(a: Appropriation, xs: seq<Invoice>, ys: seq<Invoice>)
    ensures InvoiceShares(a, xs + ys) == InvoiceShares(a, xs) + InvoiceShares(a, ys)
  {
    if xs == [] {
      assert xs + ys == ys;
    } else {
      assert (xs + ys)[1..] == xs[1..] + ys;
      InvoiceSharesConcat(a, xs[1..], ys);
    }
  }

  lemma {:induction false} LineSharesConcat(a: Appropriation, xs: seq<JournalLine>, ys: seq<JournalLine>)
    ensures LineShares(a, xs + ys) == LineShares(a, xs) + LineShares(a, ys)
  {
    if xs == [] {
      assert xs + ys == ys;
    } else {
      assert (xs + ys)[1..] == xs[1..] + ys;
      LineSharesConcat(a, xs[1..], ys);
    }
  }

  lemma {:induction false} VoucherMiddle(left: seq<Voucher>, x: Voucher, right: seq<Voucher>)
    ensures VoucherTotal(left + [x] + right)
         == VoucherTotal(left + right) + if x.paid && !x.fromDocument then x.net else 0
  {
    if left == [] {
      assert left + [x] + right == [x] + right && left + right == right;
    } else {
      assert (left + [x] + right)[1..] == left[1..] + [x] + right && (left + right)[1..] == left[1..] + right;
      VoucherMiddle(left[1..], x, right);
    }
  }

  /** Without rows nothing is disbursed. */
  lemma NothingDisbursed(chart: Chart, a: Appropriation)
    ensures Disbursed(chart, a, [], [], []) == 0
  {
  }

  /** One more invoice, wherever it stands, raises the total by its amount when it is posted,
      belongs to no purchase order and concerns the appropriation, and else by nothing. */
  lemma {:induction false} InvoiceCounts(chart: Chart, a: Appropriation, left: seq<Invoice>, x: Invoice,
                                         right: seq<Invoice>, vouchers: seq<Voucher>, lines: seq<JournalLine>)
    ensures Disbursed(chart, a, left + [x] + right, vouchers, lines)
         == Disbursed(chart, a, left + right, vouchers, lines)
            + if x.posted && !x.onOrder && Concerns(chart, a, x.mda, x.fund, x.account, x.date) then x.amount else 0
  {
    if a.mda.Some? && a.fund.Some? && a.economic.Some? {
      InvoiceSharesConcat(a, left + [x], right);
      InvoiceSharesConcat(a, left, [x]);
      InvoiceSharesConcat(a, left, right);
      assert [x][1..] == [] && InvoiceShares(a, [x]) == [Posting(x.account, InvoiceShare(a, x))];
      RollUpMiddle(chart, a.economic.value, InvoiceShares(a, left), Posting(x.account, InvoiceShare(a, x)),
                   InvoiceShares(a, right));
    }
  }

  /** One more voucher counts its net amount when it is paid and drawn up from no source
      document, unless the appropriation has a bridge gap. */
  lemma {:induction false} VoucherCounts(chart: Chart, a: Appropriation, invoices: seq<Invoice>, left: seq<Voucher>,
                                         x: Voucher, right: seq<Voucher>, lines: seq<JournalLine>)
    ensures Disbursed(chart, a, invoices, left + [x] + right, lines)
         == Disbursed(chart, a, invoices, left + right, lines)
            + if a.mda.Some? && a.fund.Some? && a.economic.Some? && x.paid && !x.fromDocument then x.net else 0
  {
    VoucherMiddle(left, x, right);
  }

  /** One more posted journal line that concerns the appropriation counts its debit less its
      credit, an asset's credit apart, unless its journal comes from one of seven sources. */
  lemma {:induction false} LineCounts(chart: Chart, a: Appropriation, invoices: seq<Invoice>, vouchers: seq<Voucher>,
                                      left: seq<JournalLine>, x: JournalLine, right: seq<JournalLine>)
    ensures Disbursed(chart, a, invoices, vouchers, left + [x] + right)
         == Disbursed(chart, a, invoices, vouchers, left + right)
            + if && x.posted && Concerns(chart, a, x.mda, x.fund, x.account, x.date)
                 && x.source != VendorInvoice && x.source != PaymentVoucher && x.source != CustomerInvoice
                 && x.source != CreditMemo && x.source != Receipt
                 && x.source != YearEndClose && x.source != YearEndOpening
              then (if x.onAsset then x.debit else x.debit - x.credit) else 0
  {
    if a.mda.Some? && a.fund.Some? && a.economic.Some? {
      LineSharesConcat(a, left + [x], right);
      LineSharesConcat(a, left, [x]);
      LineSharesConcat(a, left, right);
      assert [x][1..] == [] && LineShares(a, [x]) == [Posting(x.account, LineShare(a, x))];
      RollUpMiddle(chart, a.economic.value, LineShares(a, left), Posting(x.account, LineShare(a, x)),
                   LineShares(a, right));
    }
  }
}
