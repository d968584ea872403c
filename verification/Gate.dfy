/** The expenditure gate: the appropriation an account is charged to, the gate's decision,
    and the cash ceiling set by released warrants. */
module Gate {
  import opened Wrappers
  import opened AccountTree
  import W = Warrants

  // ---- The line an account is charged to ------------------------------------------

  /** The account's ancestry ends at an account without a parent. */
  ghost predicate HasTop(chart: Chart, account: nat) {
    exists top: nat, h: nat :: AtDepth(chart, account, top, h) && top < |chart| && chart[top].None?
  }

  /** The ancestry, nearest first. */
  method AccountLevels(chart: Chart, account: nat) returns (levels: seq<nat>)
    requires ParentsExist(chart) && account < |chart| && HasTop(chart, account)
    ensures levels != [] && levels[0] == account
    ensures forall k :: 0 <= k < |levels| ==> AtDepth(chart, account, levels[k], k)
    ensures levels[|levels| - 1] < |chart| && chart[levels[|levels| - 1]].None?
  {
    ghost var top: nat, h: nat :| AtDepth(chart, account, top, h) && top < |chart| && chart[top].None?;
    var frontier := account;
    levels := [account];
    while chart[frontier].Some?
      invariant frontier < |chart| && levels != [] && levels[0] == account && levels[|levels| - 1] == frontier
      invariant |levels| - 1 <= h && AtDepth(chart, frontier, top, h + 1 - |levels|)
      invariant forall k :: 0 <= k < |levels| ==> AtDepth(chart, account, levels[k], k)
      decreases h + 1 - |levels|
    {
      var parent := chart[frontier].value;
      assert AtDepth(chart, frontier, parent, 1);
      DepthsAdd(chart, account, frontier, parent, |levels| - 1, 1);
      frontier := parent;
      levels := levels + [parent];
    }
  }

  /** The nearest level with a budget line is charged, and no farther one: none when no
      ancestor has a line. */
  method NearestAppropriation(chart: Chart, account: nat, budgeted: set<nat>) returns (line: Option<nat>)
    requires ParentsExist(chart) && account < |chart| && HasTop(chart, account)
    ensures line.Some? ==>
              && line.value in budgeted
              && exists k: nat :: && AtDepth(chart, account, line.value, k)
                                  && forall j: nat, a: nat :: j < k && AtDepth(chart, account, a, j) ==> a !in budgeted
    ensures line.None? ==> forall a: nat :: Descends(chart, account, a) ==> a !in budgeted
  {
    var levels := AccountLevels(chart, account);
    for k := 0 to |levels|
      invariant forall j :: 0 <= j < k ==> levels[j] !in budgeted
    {
      if levels[k] in budgeted {
        forall j: nat, a: nat | j < k && AtDepth(chart, account, a, j) ensures a !in budgeted {
          OneAncestorAtEachHeight(chart, account, a, levels[j], j);
        }
        return Some(levels[k]);
      }
    }
    forall a: nat | Descends(chart, account, a) ensures a !in budgeted {
      var j: nat :| AtDepth(chart, account, a, j);
      NothingAboveTop(chart, account, levels[|levels| - 1], |levels| - 1, a, j);
      OneAncestorAtEachHeight(chart, account, a, levels[j], j);
    }
    return None;
  }

  lemma {:induction false} NothingAboveTop(chart: Chart, x: nat, top: nat, h: nat, a: nat, j: nat)
    requires AtDepth(chart, x, top, h) && top < |chart| && chart[top].None? && AtDepth(chart, x, a, j)
    ensures j <= h
    decreases j
  {
    if h > 0 && j > 0 {
      NothingAboveTop(chart, chart[x].value, top, h - 1, a, j - 1);
    }
  }

  // ---- The gate's decision --------------------------------------------------------

  datatype Level = NoCheck | WarnOnly | Strict

  datatype Refusal = NoAppropriation | NoActiveWarrant | Insufficient(deficit: int)

  /** What the gate looks up besides the balance: the rule of the account's range, the
      configured default level, and the warrants where they are enforced. */
  datatype Terms = Terms(rule: Option<Level>, default: Level, enforceWarrant: bool, warrants: seq<W.Warrant>,
                         today: int)

  predicate ReleasedNow(w: W.Warrant, today: int) {
    w.status == W.Released && !W.PastDue(w, today)
  }

  predicate HasActiveWarrant(warrants: seq<W.Warrant>, today: int) {
    exists i :: 0 <= i < |warrants| && ReleasedNow(warrants[i], today)
  }

  /** The early-return procedure: revenue passes; without a line the level decides; with one,
      an explicit `NoCheck` rule passes, then the warrant, then the balance is checked.  The
      result says whether the spend passes with a warning. */
  function ValidateExpenditure(revenue: bool, terms: Terms, available: Option<int>, amount: int)
    : Result<bool, Refusal>
  {
    if revenue then Ok(false)
    else if available.None? then
      var level := if terms.rule.Some? then terms.rule.value else terms.default;
      if level == Strict then Err(NoAppropriation) else Ok(level == WarnOnly)
    else if terms.rule == Some(NoCheck) then Ok(false)
    else if terms.enforceWarrant && !HasActiveWarrant(terms.warrants, terms.today) then Err(NoActiveWarrant)
    else if amount > available.value then
      if terms.rule == Some(WarnOnly) then Ok(true) else Err(Insufficient(amount - available.value))
    else Ok(false)
  }

  /** Rules under which a line can be overspent; the absence of a rule is not one of them,
      whatever the default level. */
  predicate Lenient(terms: Terms) {
    terms.rule == Some(NoCheck) || terms.rule == Some(WarnOnly)
  }

  /** A strict line, or a line without a rule, admits a spend exactly when it is covered and,
      where warrants are enforced, one is in force. */
  lemma StrictAdmitsExactlyWhen(terms: Terms, available: int, amount: int)
    requires !Lenient(terms)
    ensures ValidateExpenditure(false, terms, Some(available), amount).Ok?
            <==> amount <= available && (terms.enforceWarrant ==> HasActiveWarrant(terms.warrants, terms.today))
  {
  }

  /** A refusal names what is missing, to the unit: a line, then a warrant, then the balance,
      where that much more would just do and one less would not. */
  lemma DeficitIsExact(terms: Terms, available: int, amount: int, deficit: int, less: int)
    requires ValidateExpenditure(false, terms, Some(available), amount) == Err(Insufficient(deficit))
    ensures deficit > 0 && ValidateExpenditure(false, terms, Some(available + deficit), amount) == Ok(false)
    ensures less < deficit ==>
              ValidateExpenditure(false, terms, Some(available + less), amount) == Err(Insufficient(deficit - less))
  {
  }

  /** Revenue always passes without a warning.  Without a line the rule of the account decides,
      or the default where it has none: a strict level refuses, a warning level warns. */
  lemma WithoutLineLevelDecides(terms: Terms, available: Option<int>, amount: int)
    ensures ValidateExpenditure(true, terms, available, amount) == Ok(false)
    ensures var strict := terms.rule == Some(Strict) || (terms.rule == None && terms.default == Strict);
            var warns := terms.rule == Some(WarnOnly) || (terms.rule == None && terms.default == WarnOnly);
            && (ValidateExpenditure(false, terms, None, amount) == Err(NoAppropriation) <==> strict)
            && (ValidateExpenditure(false, terms, None, amount) == Ok(true) <==> warns)
            && (ValidateExpenditure(false, terms, None, amount) == Ok(false) <==> !strict && !warns)
  {
  }

  /** With a line, a rule that checks nothing lets everything pass without a word, a warning
      rule warns of what is not covered, and either of the others refuses it; but no warrant
      where one is enforced stops all of them except the first. */
  lemma WithLineRuleDecides(terms: Terms, available: int, amount: int)
    ensures var bare := terms.enforceWarrant
                        && forall i :: 0 <= i < |terms.warrants| ==> !ReleasedNow(terms.warrants[i], terms.today);
            var r := ValidateExpenditure(false, terms, Some(available), amount);
            && (r == Err(NoActiveWarrant) <==> terms.rule != Some(NoCheck) && bare)
            && (r == Ok(true) <==> terms.rule == Some(WarnOnly) && !bare && amount > available)
            && (r == Err(Insufficient(amount - available))
                <==> terms.rule != Some(NoCheck) && terms.rule != Some(WarnOnly) && !bare && amount > available)
            && r != Err(NoAppropriation)
  {
  }

  /** A warrant in force is one that was released and whose last day, if it has one, is not
      over. */
  lemma InForceExactlyWhen(w: W.Warrant, today: int)
    ensures ReleasedNow(w, today) <==> w.status == W.Released && (w.last == None || w.last.value >= today)
  {
  }

  /** A warrant in force means cash released today, when amounts are positive. */
  lemma {:induction false} ActiveWarrantMeansCash(warrants: seq<W.Warrant>, today: int)
    requires forall i :: 0 <= i < |warrants| ==> warrants[i].amount > 0
    ensures HasActiveWarrant(warrants, today) <==> W.TotalReleased(warrants, today) > 0
    ensures W.TotalReleased(warrants, today) >= 0
  {
    if warrants != [] {
      ActiveWarrantMeansCash(warrants[1..], today);
      if i :| 0 <= i < |warrants| && ReleasedNow(warrants[i], today) {
        assert i > 0 ==> warrants[1..][i - 1] == warrants[i];
      }
    }
  }

  // ---- The cash ceiling -----------------------------------------------------------

  /** What the ceiling check can resolve: missing dimensions, bridge or line make it skip. */
  datatype Resolved = Incomplete | NoBridge | NoLine | Found(approved: int, available: int, released: int)

  /** Consumption against the line, with one order's commitment added back. */
  function Consumed(approved: int, available: int, excluded: Option<int>): (c: int)
    ensures c >= 0
  {
    var gross := if approved - available < 0 then 0 else approved - available;
    match excluded
    case None => gross
    case Some(commitment) => if gross - commitment < 0 then 0 else gross - commitment
  }

  /** A skip is allowed only outside strict mode. */
  predicate WithinCeiling(r: Resolved, excluded: Option<int>, amount: int, strict: bool) {
    match r
    case Found(approved, available, released) => amount <= released - Consumed(approved, available, excluded)
    case _ => !strict
  }

  /** Where the ceiling cannot be resolved the check is skipped, which passes only outside
      strict mode; where it can, the mode makes no difference. */
  lemma SkipsOutsideStrictMode(r: Resolved, excluded: Option<int>, amount: int)
    ensures r.Found? || WithinCeiling(r, excluded, amount, false)
    ensures WithinCeiling(r, excluded, amount, true)
            <==> r.Found? && WithinCeiling(r, excluded, amount, false)
  {
  }

  /** Checking an order again when its invoice arrives, with its own commitment added back,
      decides as the check before the commitment did. */
  lemma RecheckDecidesAlike(approved: int, available: int, released: int, commitment: nat, amount: int, strict: bool)
    ensures WithinCeiling(Found(approved, available - commitment, released), Some(commitment), amount, strict)
            <==> WithinCeiling(Found(approved, available, released), None, amount, strict)
  {
  }

  /** The ceiling implies the appropriation check for every amount exactly when no more cash
      is released than approved. */
  lemma {:induction false} CeilingCoversExactlyWhen(approved: int, available: int, released: int)
    requires available <= approved
    ensures (forall amount: int ::
               WithinCeiling(Found(approved, available, released), None, amount, true) ==> amount <= available)
            <==> released <= approved
  {
    var most := released - (approved - available);
    assert WithinCeiling(Found(approved, available, released), None, most, true);
  }

  /** A line whose warrants are sound never lets the ceiling pass what it cannot cover. */
  lemma {:induction false} SoundWarrantsCover(s: W.State, available: int, amount: int)
    requires W.Sound(s) && available <= s.approved
    requires WithinCeiling(Found(s.approved, available, W.TotalReleased(s.warrants, s.today)), None, amount, true)
    ensures amount <= available
  {
    W.ReleasedIsActive(s.warrants, s.today);
    CeilingCoversExactlyWhen(s.approved, available, W.TotalReleased(s.warrants, s.today));
  }

  function Spent(amounts: seq<nat>): nat {
    if amounts == [] then 0 else amounts[0] + Spent(amounts[1..])
  }

  /** Every amount is admitted by the ceiling after those before it were consumed. */
  predicate AllAdmitted(approved: int, available: int, released: int, amounts: seq<nat>)
    decreases |amounts|
  {
    amounts == []
    || (&& WithinCeiling(Found(approved, available, released), None, amounts[0], true)
        && AllAdmitted(approved, available - amounts[0], released, amounts[1..]))
  }

  /** Spends admitted one after another under the row lock are admitted together exactly when
      their sum fits: the ceiling cannot be passed in slices. */
  lemma {:induction false} SlicesFitExactlyWhen(approved: int, available: int, released: int, amounts: seq<nat>)
    requires available <= approved && approved - available <= released
    ensures AllAdmitted(approved, available, released, amounts)
            <==> WithinCeiling(Found(approved, available, released), None, Spent(amounts), true)
    decreases |amounts|
  {
    if amounts != [] && amounts[0] <= released - (approved - available) {
      SlicesFitExactlyWhen(approved, available - amounts[0], released, amounts[1..]);
    }
  }
}
