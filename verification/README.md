# Verified model of the ledger, appropriation control and fiscal calendar

The project models three linked parts of a government accounting system and proves what
they keep, step by step and over whole runs. Money is an integer number of kobo; every
modelled operation only adds, subtracts and compares (percentages and over-expenditure
limits are real numbers).

**The ledger.** `JournalHeaders` holds the header's own rules: the guard on posted headers
and the unique references. `Journals` holds journals and what they contribute to the balance
index. `Balances` is the theory of such tables: an index of a list of lines has no duplicate
key and gives every filter of keys the same debits and credits as the lines.
`JournalRequests` says what creating, updating, posting and unposting do, each on a copy of
the row read some time before, and exactly when the index stays exact; `JournalRuns` says it
of whole runs, `JournalTrialBalance` says when the index still balances, `RowUpdates` what
interleaved updates of single balance rows do, and `JournalBooks` is the tables with the
methods that work on them.
`YearEnd`, `YearEndService` and `YearRuns` model the year-end close as a function, as the
imperative service proved equal to it, and as any number of years of trading and closing.
`Statements` and `GeneralLedger` are the reports, computed from raw lines, grouped accounts
or index rows, and proved to agree. `Accruals` and `Deferrals` are the scheduled postings.

**Appropriation control.** `AuditTrail` is the theory of the virement log. `VirementProtocol`
is a state machine of concurrent approvals, status changes through unlocked copies, spends
admitted by the gate and commitment moves, over row locks taken one at a time;
`VirementOnce`, `VirementCover`, `VirementProgress`, `VirementFinish` and `VirementOwnSteps`
say exactly when its runs apply each virement at most once, when they overdraw nothing, how
they can end, from which states everyone can still finish, and from which without new
requests. `Virements` is
the service itself, each request carrying the status its copy shows; alone, its receiver is
the protocol. `AccountTree` and `Disbursements` model the subtree walk and what it counts.
`Encumbrances` interleaves budget reservations with cancellations and liquidations saved
through copies, and `EncumbranceSafety` says exactly when a budget is safe under every timely
continuation. `Warrants` and `Gate` are the cash releases, the expenditure gate and the cash
ceiling.

**Figures.** What the definitions mean is pinned once more in fields, positions and dates,
without the definitions themselves: `JournalAmounts` for the balance rows, `YearEndOutcome` for
a close, `LedgerFigures` and `StatementFigures` for the reports, `AccrualFigures` for accruals,
`DisbursementFigures` for the rows that count as direct disbursements and
`EncumbranceFigures` for the ceiling of a budget and the outcome of a reservation.

**The calendar.** `Calendar` is the Gregorian calendar with its closed-form day number,
`FiscalPeriods` the generation of fiscal periods and `Recurrence` the clamped month stepping.

Properties that hold only under a condition are stated as equivalences, with a concrete
input for the failing side. Where the code and its own description differ, the model follows
the code:

- **Posting a journal commits the balance index before it saves the header**
  (`accounting/views_old.py:569-616`; no setting wraps requests in a transaction). A save
  that is then refused, by the budget receiver
  (`accounting/signals/budget_enforcement.py:50-177`), the guard or a unique constraint, is
  answered with an error and leaves the lines in the index, once more for every try
  (`RefusedPostsAccumulate`, `RefusedPostBreaksIndex`).
- **Status, header and lines are those of an unlocked copy.** A second post on a copy read
  before the first, or a second unposting, is never refused and counts twice
  (`StalePostIsNeverRefused`, `StaleUnpostIsNeverRefused`). The index is exact throughout a
  run exactly when every request was in time (`JournalRuns.RunKeepsExactlyWhen`). The request
  that breaks it leaves debits equal to credits (`FirstBreakStillBalances`), so a trial
  balance does not show it; a later unposting can, exactly when the lines it passes over for
  want of a row do not balance (`RunBalancesExactlyWhen`, `UnpostingUnbalances`).
- **The legacy postings save balance rows they read without a lock.** Two of them on one row
  can lose an update (`TwoPostingsLoseOne`); interleaved updates are exact throughout exactly
  when every save finds what it read (`RowUpdates.RunKeepsExactlyWhen`). The chokepoint, which
  adds in place (`accounting/services/gl_posting.py:12-80`), needs no such condition
  (`InPlaceStaysExact`). The runs of requests in `JournalRuns` are served one at a time.
- **As written, no scheduled posting and no close goes through.** Each of those services
  creates its header as posted and then saves its document number
  (`accounting/advanced_services.py:190`, `:247`, `:419`, `:620`, `:728`), and the guard
  (`accounting/models/gl.py:411-485`) refuses that field on a posted header. The whitelist is
  a parameter of the model, `mutable`: `GuardAsWritten`, `NoCloseAsWritten`,
  `NothingHappensAsWritten` and `NoCallAsWritten` are about the whitelist as it stands; every
  other result on these services says what happens in both cases, and their successes are
  about a whitelist that admits the number (`NumberingPasses(mutable)`).
- References that are not blank are unique (`accounting/models/gl.py:390-394`), so a deferral
  is recognised at most once a day and its schedule runs over distinct days.
- A close dated outside the fiscal year posts its closing journal elsewhere, and the posting
  chokepoint then refuses the unbalanced opening journal unless the inactive balance-sheet
  accounts hold exactly the net income (`CloseSucceedsExactlyWhen`, `CloseInJanuaryIsRefused`).
- The virement service checks the status of the caller's copy; only the approval receiver
  locks the row and reads it again. Money can then move twice, after a stale approval or
  after a stale submission that reopens the row, and a stale rejection hides an applied
  virement (`StaleApprovalMovesTwice`, `StaleSubmissionMovesTwice`,
  `StaleRejectionHidesApplication`). A run is safe exactly when no write lands on a row that
  has become final (`CallsKeepExactlyWhen`, `RunIsOnceExactlyWhen`).
- **As wired, the virement receiver applies nothing.** The workflow engine, the only sender of
  its signal, first writes the status Approved on the row (`workflow/views.py:1103-1120`,
  `workflow/signals.py:31-75`); the receiver finds that status under its lock, the service
  refuses it, and the approval is rolled back (`NothingAppliedAsWired`). A workflow rejection
  writes Rejected and asks nothing. The results about the receiver are about a row that is
  still open under its lock; without receivers everyone can finish
  (`WithoutReceiversAllFinish`).
- A direct approval locks the lines first and writes the virement last, the receiver the
  other way round; the two can wait for each other for good (`DirectApprovalCanDeadlock`),
  and are bound to before they do (`FinishableExactlyWhen`).
- Nothing refuses a warrant with a negative amount, the validation takes no lock, a release
  on an old copy revives a suspended or expired warrant, and a completed approval releases any
  warrant, expired ones too, since the engine's own status write hides them from the
  receiver's guard (`ApprovalReleasesAny`); `Warrants.ActIsSafeExactlyWhen` and
  `TwoCreationsExactlyWhen` say exactly what each can break.
- Encumbrances are liquidated and cancelled through unlocked copies; a liquidation saved over
  a record that moved on since can over-commit the budget (`LateLiquidationOverCommits`),
  exactly when its rise finds no room (`EncumbranceSafety.ActIsSafeExactlyWhen`).
- A close that has to create the retained-earnings account is refused when the fixed code of
  that account is taken (`accounting/advanced_services.py:602-609`).
- The comment on the virement locks names primary-key order although the query does not
  order; the model takes one fixed order, shared by all transactions.

To check the project, use `dafny verify dfyconfig.toml`.

## Model

| member | source | states |
|---|---|---|
| JournalBooks.JournalBook.CheckLines | accounting/views_old.py:449-484 | lines are accepted exactly when their totals agree and each meets the constraints of the line table; an imbalance is reported first |
| JournalHeaders.GuardAsWritten | accounting/models/gl.py:411-485 | a save of named fields passes if and only if the stored header is not posted or no frozen field is named; a full save in addition may not change who posted or deleted it; unposting and soft deletion pass, the numbering save of the services does not |
| JournalBooks.JournalBook.PostToIndex | accounting/views_old.py:534-567 | the posting loop folds every line into the index: each account rises by its debits and credits under the journal's stamp, year and month |
| JournalBooks.JournalBook.SubtractFromIndex | accounting/views_old.py:641-666 | the unposting loop takes every line off again, positive amounts only and absent rows skipped: each account with a row under the journal's stamp and month falls by as much |
| JournalBooks.JournalBook.Create | accounting/views_old.py:449-484 | a journal is refused for its balance, reference, source document or lines, in that order, and otherwise stored and, if posted, folded in; the table constraints hold |
| JournalBooks.JournalBook.Update | accounting/views_old.py:486-532 | the copy's status is tested, lines only when given; the save can be refused and leaves nothing behind; posted, the lines given or else the copy's are folded in |
| JournalBooks.JournalBook.Post | accounting/views_old.py:569-616 | on the copy's status and lines and the stored balance; the index is committed and stays changed when the header save is then refused |
| JournalBooks.JournalBook.Unpost | accounting/views_old.py:618-681 | on the copy's status; the copy's amounts come off the index and the header is saved as approved, or neither |
| JournalBooks.JournalBook.AppendPosted | accounting/services/gl_posting.py:12-100 | a journal written as posted is refused exactly when its reference is taken, its number cannot be saved, or its lines do not balance or are inadmissible; otherwise it is stored and folded in, and an exact index stays exact |
| JournalBooks.JournalBook.SaveHeader | accounting/signals/budget_enforcement.py:50-177 | a full header save is refused by the guard, the budget on the way to posted, or a taken reference or source document, in that order, and otherwise writes every header field |
| JournalRequests.SaveRefusalNames | accounting/models/gl.py:388-485 | under the whitelist as it stands, which refusal a header save meets, in the fields of row and header |
| JournalRequests.BlockedExactlyWhen | accounting/signals/budget_enforcement.py:104-130 | the budget blocks a journal if and only if a rule refuses one of its debits; credits are never asked about |
| JournalRequests.LinesAreKeptExactlyWhen | accounting/views_old.py:486-532 | an update without lines, or with an empty list, keeps those stored |
| JournalRequests.ServeKeepsStored | accounting/models/gl.py:388-402 | whatever is asked on whatever copy, stored lines stay admissible and balanced, references and source documents unique |
| JournalRequests.ServeKeepsExactlyWhen | accounting/views_old.py:486-681 | from an exact index, a creation, update, post or unposting leaves it exact if and only if it is in time: a post whose save is admitted on a row not posted with the copy's lines, an unposting of a row posted with them, an update of a row not posted |
| JournalRequests.StatusDecides | accounting/views_old.py:569-681 | when only the status can have changed since the copy was read: a post is in time if and only if its save is admitted and the row is not posted, an unposting if and only if the row is posted |
| JournalRequests.FreshCopyIsInTime | accounting/views_old.py:486-681 | a request on an up-to-date copy is in time, a post if its save is admitted |
| JournalRuns.RunKeepsExactlyWhen | accounting/views_old.py:449-681 | over any run of reads, creations, updates, posts and unpostings served one at a time, each on a copy read at any earlier point, the index is exact throughout if and only if every request was in time |
| JournalRuns.ActKeepsSound | accounting/views_old.py:449-681 | from an exact index every action keeps the table constraints, the balance of every journal and the rows of every copy that shows its journal posted |
| JournalRuns.NothingStoredIsSound | accounting/models/gl.py:411-418 | empty tables start such a run |
| JournalTrialBalance.ServeBalancesExactlyWhen | accounting/views_old.py:641-666 | from balanced periods, creations, updates and posts, in time or not, leave debits equal to credits in each year and month; an unposting does if and only if the lines it passes over for want of a row balance |
| JournalTrialBalance.RunBalancesExactlyWhen | accounting/views_old.py:449-681 | over any run, late requests included, every period balances throughout if and only if every unposting that went through passed over lines that balance |
| JournalTrialBalance.ActKeepsFiled | accounting/views_old.py:449-681 | whatever is asked, stored journals and the copies read from them stay admissible and balanced |
| JournalTrialBalance.FirstBreakStillBalances | accounting/views_old.py:534-681 | the request that makes an exact index wrong leaves every period balanced |
| JournalTrialBalance.FourActions | accounting/views_old.py:486-616 | read, moved to another account, posted on the copy read first, read afresh: a run that nothing refuses |
| JournalTrialBalance.UnpostingUnbalances | accounting/views_old.py:641-666 | unposted then on the fresh copy, debits no longer equal credits |
| RowUpdates.StepKeepsExactlyWhen | accounting/views_old.py:540-567 | a step of an update leaves the table exact if and only if a save finds the amounts it read and an update passed over had none |
| RowUpdates.RunKeepsExactlyWhen | accounting/views_old.py:540-567 | over any interleaving of updates, read, saved or made in place, the table is exact throughout if and only if every step was timely |
| RowUpdates.SaveLosesWhatLanded | accounting/views_old.py:641-658 | a save leaves its row short of exactly what landed on it since it was read |
| RowUpdates.InPlaceStaysExact | accounting/services/gl_posting.py:12-80 | updates in place are exact in any interleaving |
| RowUpdates.OneByOneStaysExact | accounting/views_old.py:540-567 | postings served one after another are exact |
| RowUpdates.AloneAdds | accounting/views_old.py:540-567 | a posting's update that nobody interrupts adds its line to the table |
| RowUpdates.AloneSubtracts | accounting/views_old.py:641-658 | an unposting's takes its line off |
| RowUpdates.TwoPostingsLoseOne | accounting/views_old.py:540-567 | two postings to one row, both read before either saves: the first amount is lost |
| JournalRuns.RefusedPostsAccumulate | accounting/views_old.py:594-616 | a post whose save is refused changes no journal, leaves its lines in the index once for every try, and is refused alike the next time |
| JournalRuns.RefusedPostBreaksIndex | accounting/signals/budget_enforcement.py:50-177 | a draft of a hundred under a refusing budget rule: an error, still a draft, and the index holds its lines |
| JournalRuns.StalePostIsNeverRefused | accounting/views_old.py:569-616 | from any exact index, a second post on a copy read before the first is not refused and breaks it |
| JournalRuns.StaleUnpostIsNeverRefused | accounting/views_old.py:618-681 | likewise a second unposting |
| JournalRuns.StalePostBreaksIndex | accounting/views_old.py:569-616 | the draft of a hundred posted twice on one copy |
| JournalRuns.StaleUnpostBreaksIndex | accounting/views_old.py:618-681 | the same journal unposted twice on one copy |
| Journals.RowIsPostedTotal | accounting/views_old.py:534-567 | every row of an exact index equals the totals of exactly the posted lines with its key |
| JournalAmounts.ExactRowsHoldPosted | accounting/views_old.py:534-567 | in every exact state the rows of an account, a stamp of fund, function, program and geo, a year and a month hold the debits and credits that posted journals of that stamp and month put on the account |
| JournalAmounts.PostingRaises | accounting/views_old.py:534-567 | posting a journal raises exactly its accounts by their debits and credits, under its own stamp, year and month |
| JournalAmounts.UnpostingLowers | accounting/views_old.py:641-666 | unposting lowers them by as much where they have a row |
| Journals.ValidExactlyWhen | accounting/models/gl.py:560-590 | a line is admissible if and only if one side is positive and the other zero |
| Journals.PostThenUnpost | accounting/views_old.py:581-681 | posting and unposting restores every amount of the index; at most zero rows remain |
| Journals.IndexPeriodsBalance | accounting/services/base_posting.py:99-129 | in each year and month the debits of an exact index equal its credits |
| Balances.AddAllIndexes | accounting/views_old.py:1197-1217 | adding lines row by row to an index gives an index of all the lines |
| Balances.SubtractAllIndexes | accounting/views_old.py:641-666 | subtracting one journal's lines from an index gives an index of the others |
| Balances.IndexIsDetermined | accounting/views_old.py:1197-1217 | two indexes of the same lines agree under every key, an absent row counting as zero |
| YearEnd.ClosingBalances | accounting/advanced_services.py:583-681 | the closing journal balances and is admissible whatever the signs of the balances |
| YearEnd.ClosingZeroesNominals | accounting/advanced_services.py:621-685 | dated in the year, the close takes every income and expense account to zero over all dimensions, raises retained earnings by revenue less expenses and moves nothing else |
| YearEnd.ClosingElsewhereMovesNothing | accounting/advanced_services.py:612-619 | dated in another year it leaves the closed year as it was |
| YearEnd.AccountsPartitionRows | accounting/advanced_services.py:583-599 | summing year nets account by account is netting the index rows of those accounts |
| YearEnd.CloseSucceedsExactlyWhen | accounting/advanced_services.py:561-762 | a well-kept year closes if and only if nothing refuses it beforehand and the inactive balance-sheet accounts hold their allowance, both read off the books before the close; the unbalanced opening journal is the outcome in exactly the remaining cases |
| YearEnd.StrandedAfterClosing | accounting/advanced_services.py:716-757 | a close moves no inactive balance-sheet account but an inactive retained-earnings account, by the net income |
| YearEnd.CloseInJanuaryIsRefused | accounting/advanced_services.py:612-619 | a year with income, closed on a January day of the next year, is refused for its opening journal |
| YearEnd.NoCloseAsWritten | accounting/advanced_services.py:620 | under the whitelist as it stands every close of any books is refused |
| YearEndOutcome.RetainedIsFirstNamed | accounting/advanced_services.py:601-609 | a close uses the first equity account named retained earnings; a chart without one gains exactly one, active, with code 30200000 |
| YearEndOutcome.CloseMovesNetIncome | accounting/advanced_services.py:583-685 | by position in the chart: a close dated in its year leaves income and expense accounts at zero and moves revenue less expenses to that account alone |
| YearEndOutcome.OpeningRestates | accounting/advanced_services.py:716-757 | the opening journal is dated the first of January, carries no dimensions and restates exactly the active asset, liability and equity accounts, each on its side |
| YearEndOutcome.CloseIsRecorded | accounting/advanced_services.py:612-710 | the date, references, totals and record of a close |
| YearEndOutcome.RecordBeginsWhereTheLastEnded | accounting/advanced_services.py:699-714 | the new record begins where the latest earlier year ended, or at zero |
| YearEndOutcome.RefusalNames | accounting/advanced_services.py:561-762 | which refusal stands against a close, over positions of the chart, closings and records |
| YearEndService.YearEndClosingService.PostClosing | accounting/advanced_services.py:583-685 | the loops compute the specified totals and the specified closing journal; only its header can be refused, for its reference or its number |
| YearEndService.YearEndClosingService.PostOpening | accounting/advanced_services.py:716-760 | the opening journal restates the active balance-sheet accounts, is dropped when empty and refused exactly for its reference or when unbalanced |
| YearEndService.YearEndClosingService.CloseYear | accounting/advanced_services.py:561-762 | the transaction leaves every table as the close specifies, or as it was on any of its errors |
| YearRuns.NetIncomeIsEarned | accounting/advanced_services.py:583-601 | the net income read from the index is what the year's posted journals earned |
| YearRuns.OpeningCarries | accounting/advanced_services.py:716-757 | an account opens the new year at its old closing net, or at zero if nominal, and the closed year is not touched |
| YearRuns.YearCloses | accounting/advanced_services.py:699-757 | with headers that take their numbers, a year of trading closes on any day of its own into a year that starts as it should |
| YearRuns.EachAccountCarries | accounting/advanced_services.py:716-757 | after its year's close each balance-sheet account of the chart opens at its old closing net and each nominal account at zero |
| YearRuns.FreshBooksStart | accounting/advanced_services.py:699-714 | empty books start any year with nothing earned |
| YearRuns.RunKeepsBooks | accounting/advanced_services.py:699-757 | with headers that take their numbers, over any run of years every close succeeds, both its journals balance, accounts carry forward, nominal accounts start at zero, and retained earnings and the latest record both hold everything earned |
| Statements.GetAccountBalances | accounting/reports.py:29-69 | one signed balance for each account with activity |
| Statements.GenerateBalanceSheet | accounting/reports.py:72-118 | the totals accumulated over grouped accounts equal what the raw lines put on each type |
| Statements.CheckIsUnclassifiedNet | accounting/reports.py:85-118 | the check of the balance sheet is exactly what unclassified accounts received |
| Statements.CheckIsZero | accounting/reports.py:85-139 | with every account of one of the five types and balanced postings the check is zero for any window |
| StatementFigures.SheetFigures | accounting/reports.py:72-139 | assets, liabilities, net income and equity as debits and credits of posted lines on accounts of each type |
| Statements.TrialBalance | accounting/views_old.py:683-725 | the columns of the index rows of a period |
| Statements.GenerateTrialBalance | accounting/reports.py:688-760 | the columns of the accounts of a window |
| Statements.TrialBalancesAgree | accounting/reports.py:710-747 | for any month both trial balances have the same difference and the totals by rows are never the smaller |
| StatementFigures.GroupedHolds | accounting/reports.py:688-760 | the grouped query has one row an account, with its posted debits and credits in the window |
| StatementFigures.UngroupedIsEmpty | accounting/reports.py:688-760 | an account without a row has nothing posted in the window |
| StatementFigures.MonthRowsHold | accounting/views_old.py:683-725 | the rows of a period are exactly the index rows of that year and month |
| StatementFigures.ColumnsArePositiveParts | accounting/views_old.py:700-720 | the debit column adds the positive nets, the credit column the opposites of the negative ones |
| GeneralLedger.GenerateGeneralLedger | accounting/reports.py:583-684 | the loops build the specified opening balance, running entries, closing balance and totals |
| GeneralLedger.OrderedIsSorted | accounting/reports.py:641-645 | the query returns exactly the selected lines, ordered by date and journal |
| LedgerFigures.ReportFigures | accounting/reports.py:610-684 | each entry moves the balance by debit less credit on an asset or expense account and by credit less debit on any other; entries come by date and journal; opening, closing and totals are the debits and credits before and in the window |
| LedgerFigures.ReportHolds | accounting/reports.py:640-650 | each line of the window is an entry as often as it is a line, and no other is |
| LedgerFigures.OneAccountFigures | accounting/reports.py:625-684 | on an account of one normal side the report moves by its totals, debit first or credit first |
| GeneralLedger.ReportsCompose | accounting/reports.py:630-684 | over any split day the report of the whole window is the two adjacent reports end to end, and the second opens where the first closes |
| Accruals.AccrualService.PostAccrual | accounting/advanced_services.py:173-224 | exact outcome: refused when posted already, when the reference is taken, the number refused or the amount not positive, otherwise one journal, one reference and one flag |
| Accruals.AccrualService.ReverseAccrual | accounting/advanced_services.py:228-281 | exact outcome: refused when reversed, unposted, when the reference is taken, the number refused or the amount not positive, otherwise one journal, one reference and one flag |
| Accruals.AccrualService.ReverseAccruals | accounting/advanced_services.py:285-307 | tries each accrual due in the period, passes over failures and counts what it reversed |
| Accruals.LedgerCarriesOutstanding | accounting/advanced_services.py:177-305 | over any run each accrual is posted and reversed at most once, and the ledger carries exactly the accruals posted and not reversed |
| Accruals.FreshAccrualsAgree | accounting/advanced_services.py:177-305 | accruals neither posted nor reversed start such a run |
| AccrualFigures.PostWrites | accounting/advanced_services.py:173-224 | when a posting goes through and what stands against it; its date, its debited and credited account, its reference and its mark |
| AccrualFigures.ReverseWrites | accounting/advanced_services.py:228-281 | the same for a reversal |
| AccrualFigures.BulkReverses | accounting/advanced_services.py:285-307 | a bulk reversal marks exactly the accruals of the period that reverse by themselves, are posted, not reversed and can be written, with one journal each |
| AccrualFigures.JournalsNetIsPosted | accounting/advanced_services.py:189-222 | the net a run is measured by is what posted journals debit less what they credit |
| AccrualFigures.OutstandingIsPosted | accounting/advanced_services.py:189-222 | what a posted accrual that is not reversed puts on its account and counterpart |
| AccrualFigures.RunDoesEach | accounting/advanced_services.py:173-307 | a run does its actions one after another, refused ones without effect |
| Accruals.NothingHappensAsWritten | accounting/advanced_services.py:190 | under the whitelist as it stands no run of postings and reversals changes anything |
| Deferrals.Deferral.RecognizeDeferral | accounting/advanced_services.py:387-465 | exact outcome: the refusals in order, a second recognition on one day among them, otherwise the amount due, one journal and the updated record |
| Deferrals.CompletesExactlyWhen | accounting/advanced_services.py:398-463 | n periods take n successful calls if and only if their days are distinct and free, headers take their numbers, the fixed amount is positive (or n is one) and (n-1) of it stay below the original; the last leaves exactly zero |
| Deferrals.NoCallAsWritten | accounting/advanced_services.py:419 | under the whitelist as it stands no recognition succeeds |
| Deferrals.RemainingPlusRecognized | accounting/advanced_services.py:454-456 | at every point the accounts moved by exactly the original less what remains |
| Deferrals.CompletedMovesOriginal | accounting/advanced_services.py:420-463 | a completed schedule moved both accounts by exactly the original amount |
| Deferrals.NoCallAfterLast | accounting/advanced_services.py:392-395 | after the last call every further call is refused |
| VirementProtocol.MoveKeepsAvailable | budget/models.py:932-934 | moving a commitment between active, invoiced and closed changes no available balance |
| VirementProtocol.PostKeeps | budget/services.py:221-238 | posting a spend admitted under the row lock keeps every invariant |
| VirementProtocol.ActKeeps | budget/signals.py:140-158 | every action keeps mutual exclusion, what each transaction has read, and the log replaying to the balances |
| VirementProtocol.ActConserves | budget/services_virement.py:161-168 | every action keeps the total approved in each fiscal year |
| VirementProtocol.StartsSane | budget/services_virement.py:47-92 | a state with no transaction and nothing applied starts a run |
| VirementProtocol.CreatesExactlyWhen | budget/services_virement.py:47-92 | a draft is created if and only if the lines differ and share a year and the amount is positive and can be spared |
| VirementProtocol.BeginsAtTheStart | budget/services_virement.py:95-202 | every transaction begins with nothing read and nothing locked |
| VirementProtocol.PostsAsAsked | budget/services.py:221-261 | an admitted spend is posted whole on its line, as a direct payment or an active commitment as it asked |
| VirementProtocol.WriteGoesOnExactlyWhen | budget/services_virement.py:95-202 | a status change goes on if and only if a submission read a draft or a rejection a status that is not final |
| VirementProtocol.RunIsSane | budget/services_virement.py:109-187 | in every interleaving locks exclude, reads hold until their commit, the log replays to the balances and each year's total is constant |
| VirementOnce.ActIsOnceExactlyWhen | budget/services_virement.py:95-202 | from a log with one entry per applied virement, each action keeps it so and final rows unchanged if and only if it is timely: no write on a row that is final by then, save a repeated rejection |
| VirementOnce.RunIsOnceExactlyWhen | budget/services_virement.py:95-202 | in any interleaving of reads and later writes, each virement is applied at most once and final rows stay final throughout if and only if every write of the run was timely |
| VirementOnce.ReceiversApplyOnce | budget/signals.py:140-158 | runs that approve through the receiver only, without status changes by hand, always apply each virement at most once |
| VirementCover.CommitOverdrawsNothing | budget/services_virement.py:137-168 | a commit leaves no line with a negative available balance |
| VirementCover.ActCoversExactlyWhen | budget/services.py:221-238 | each action leaves every balance non-negative if and only if the spend it posts, if any, is covered by its line |
| VirementCover.RunCoversExactlyWhen | budget/services.py:100-261 | over any run of spends admitted by the gate, every balance stays non-negative throughout if and only if every posted spend was covered by the balance it met |
| VirementCover.StrictRunsStayCovered | budget/services.py:100-261 | with every spend under a strict rule, or none, no interleaving overdraws a line |
| VirementProgress.SomeoneCanStep | budget/services_virement.py:129-135 | while someone is unfinished, someone can step, or a direct approval and a receiver of one virement wait for each other |
| VirementProgress.EmbraceIsForever | budget/services_virement.py:129-180 | two that wait for each other do so after every run |
| VirementProgress.EveryoneFinishesUnlessGridlocked | budget/services_virement.py:129-180 | from every reachable state some schedule of steps stops either with everyone finished or with such a pair, and never in a third way |
| VirementProgress.EveryoneCanFinish | budget/signals.py:140-158 | from every reachable state without an unfinished direct approval some schedule finishes every transaction |
| VirementProgress.DirectApprovalCanDeadlock | budget/services_virement.py:124-180 | eight actions from nothing locked to a direct approval and a receiver, its row open under the lock, that wait for each other |
| VirementFinish.FinishableExactlyWhen | budget/services_virement.py:124-180 | from every reachable state some continuation lets every transaction finish if and only if no direct approval that keeps its lines until it has its virement's row meets a receiver that keeps that row until it has the lines |
| VirementFinish.StepDooms | budget/signals.py:140-158 | the only steps that bring such a pair about: a receiver taking the row, and a direct approval taking its first line or, funded, its second |
| VirementOwnSteps.FinishableAloneExactlyWhen | budget/services_virement.py:124-180 | where no direct approval that holds its target waits for an undecided check of its source, those that have begun can finish by their own steps if and only if nobody is doomed |
| VirementOwnSteps.FinishableAloneWhenDecided | budget/services_virement.py:129-139 | from every other state they can if and only if their own steps reach one that is decided and not doomed |
| VirementOwnSteps.WithoutReceiversAllFinish | budget/services_virement.py:109-187 | without a receiver past its first step everyone can finish by their own steps |
| AuditTrail.TrailIsComplete | budget/services_virement.py:147-176 | each line stands at its initial amount plus applied virements in less those out |
| AuditTrail.SnapshotsChain | budget/services_virement.py:147-176 | each snapshot of a line starts from the balance the previous one on that line left |
| Virements.VirementService.Create | budget/services_virement.py:47-92 | the four refusals in order, otherwise one draft |
| Virements.VirementService.Submit | budget/services_virement.py:95-105 | submits exactly when the caller's copy shows a draft, whatever the row shows by then |
| Virements.VirementService.ApproveAndApply | budget/services_virement.py:109-187 | moves the amount and stamps status and snapshot exactly when the copy is open and the funds suffice; otherwise nothing changes |
| Virements.VirementService.Reject | budget/services_virement.py:190-202 | rejects exactly when the copy shows no final status, whatever the row shows by then |
| Virements.VirementService.OnApprovalCompleted | budget/signals.py:114-158 | works on the status under the lock; applied virements are left alone |
| Virements.VirementService.CompleteApproval | workflow/views.py:1103-1162 | the end of a workflow approval: the engine's status write, then the receiver, both rolled back on a refusal |
| Virements.NothingAppliedAsWired | workflow/signals.py:31-75 | whatever the row showed, a completed approval is refused and changes nothing |
| Virements.ApplyKeepsExactlyWhen | budget/services_virement.py:137-187 | on an intact trail, an application keeps the trail, once per applied virement, and final rows if and only if the row is not final |
| Virements.StatusWriteKeepsExactlyWhen | budget/services_virement.py:95-202 | on an intact trail, writing a status through a copy keeps it if and only if the row is not applied at the write, and final rows too if and only if the row is not final or gets the status it has |
| Virements.ServeKeepsExactlyWhen | budget/services_virement.py:47-202 | on an intact trail, a request that goes through keeps trail and final rows if and only if it is in time; a receiver on an open row always is |
| Virements.CallsKeepExactlyWhen | budget/services_virement.py:47-202 | from an intact trail, over any run of requests each with the status its copy shows, every virement is applied at most once and final rows stay final at every point if and only if each request that went through was in time |
| Virements.FreshCopyIsInTime | budget/services_virement.py:95-202 | a request whose copy shows the current status is in time |
| Virements.StaleApprovalMovesTwice | budget/views.py:2587-2599 | two approvals on copies read before either move the amount twice |
| Virements.StaleSubmissionMovesTwice | budget/views.py:2577-2585 | a submission on a copy read before the approval reopens the row, and a further approval, direct or by a receiver that reads the row afresh, moves the amount again |
| Virements.StaleRejectionHidesApplication | budget/views.py:2601-2615 | a rejection on such a copy, or by the workflow engine, shows a virement as rejected whose money has moved |
| Virements.UninterruptedIsReceiver | budget/signals.py:140-158 | an approval nobody interrupts does to the tables exactly what the receiver does |
| AccountTree.Subtree | budget/models.py:1270-1275 | the frontier walk ends and finds an account and everything below it, each once |
| AccountTree.WalkEndsExactlyWhen | budget/models.py:1272-1275 | the walk reaches an empty frontier if and only if the account is not its own proper ancestor |
| Disbursements.ComputeDirectDisbursements | budget/models.py:1207-1367 | the result is the roll-up of posted invoices, paid vouchers and contra-aware journal lines, and zero across a bridge gap |
| DisbursementFigures.InvoiceCounts | budget/models.py:1288-1299 | one more invoice counts its amount if and only if it is posted, on no purchase order, of the ministry and fund, on the account or below it and in the window |
| DisbursementFigures.VoucherCounts | budget/models.py:1301-1304 | one more voucher counts its net amount if and only if it is paid and has no source document |
| DisbursementFigures.LineCounts | budget/models.py:1330-1365 | one more posted line of the ministry, fund, account and window counts its debit less its credit, an asset's credit apart, unless it comes from one of the seven excluded sources |
| Disbursements.RollUpIsOwnPlusChildren | budget/models.py:1270-1299 | the roll-up of an account is its own postings plus its children's roll-ups |
| Disbursements.IncomparableNeverShare | budget/models.py:1270-1299 | appropriations on incomparable accounts never count one posting twice |
| Disbursements.ReversalUndoesContraDoesNot | budget/models.py:1355-1365 | a reversal takes a spend back, an asset contra does not |
| Disbursements.YearsNeverShare | budget/models.py:1290-1298 | appropriations of years that do not overlap never count one row twice |
| Encumbrances.Encumbrance.Save | budget/models.py:375-383 | remaining is recomputed and only an active record changes status |
| Encumbrances.Encumbrance.Liquidate | budget/models.py:385-393 | adds to the liquidated amount and saves |
| Encumbrances.Encumbrance.Cancel | budget/models.py:395-399 | cancels and saves |
| Encumbrances.LiquidationBalancesExactlyWhen | budget/models.py:165-206 | a liquidation matched by an equal posting leaves encumbered plus expended unchanged if and only if nothing is liquidated, or the record counts and, if active, has that much left |
| Encumbrances.CancelFreesExactlyWhen | budget/models.py:395-399 | cancelling never adds to the encumbered total, unless the record counts although liquidated beyond its amount |
| Encumbrances.StepKeeps | budget/logic.py:83-115 | each step of a reservation keeps what it has read a bound on what is there now, and the budget within its ceiling |
| Encumbrances.SaveRaisesExactlyWhen | budget/models.py:375-399 | a posted liquidation saved through a copy does not raise encumbered plus expended if and only if the record still reserves at least what the copy shows; a cancellation never raises it |
| Encumbrances.LateLiquidationOverCommitsExactlyWhen | budget/models.py:385-393 | on a budget without slack a liquidation over-commits if and only if it is late |
| Encumbrances.LateLiquidationOverCommits | budget/models.py:385-399 | a run that takes a budget of a hundred to two hundred: read, cancelled, reserved again, liquidated through the old copy |
| Encumbrances.NeverOverCommitted | budget/logic.py:83-115 | any interleaving of reservations, cancellations through copies and liquidations that are in time keeps encumbered plus expended within allocation and allowance at every point |
| EncumbranceFigures.RunStaysWithinBudget | budget/models.py:155-206 | after any timely run on a hard-stop budget, encumbered plus expended is within the revised amount, or the original one where none is set, or that and the allowance |
| EncumbranceFigures.CeilingIsBudget | budget/models.py:155-206 | the ceiling is that amount, and with over-expenditure switched on and positive that amount times one plus the percentage |
| EncumbranceFigures.ReservedExactlyWhen | budget/logic.py:83-115 | alone under the lock, a reservation is stored as an active record if and only if its reference is free and it fits the amount, asks for nothing, or the budget is no hard stop |
| EncumbranceFigures.RecordCounts | budget/models.py:165-175 | one record adds to the encumbered total what it has left while active or partially liquidated |
| EncumbranceFigures.LiquidatesExactlyWhen | budget/models.py:375-393 | when a liquidation goes through and the record and posting it leaves |
| EncumbranceFigures.BeginsAndReads | budget/logic.py:83-115 | a reservation begins waiting for the lock, beside those there are, and a read copies the record as it is |
| EncumbranceFigures.CancelsAlways | budget/models.py:395-399 | a cancellation goes through and leaves the amounts of the copy |
| EncumbranceSafety.SafeExactlyWhen | budget/logic.py:83-115 | a hard-stop budget stays within its ceiling under every timely continuation if and only if what is committed and what the reservation under way may still add fit |
| EncumbranceSafety.ActIsSafeExactlyWhen | budget/models.py:375-399 | from a safe budget an action leaves it safe if and only if it is timely, or its rise finds room beside what the reservation under way may add once it is posted, all read off the state before |
| EncumbranceSafety.RunIsSafeExactlyWhen | budget/logic.py:83-115 | over any interleaving every point is safe if and only if every action that went through had room |
| EncumbranceSafety.SafeRunsStayWithin | budget/logic.py:83-115 | safe at every point is within the ceiling at every point |
| Warrants.WarrantLine.SumActive | budget/models.py:1573-1586 | the active total is the sum over pending and released rows not past due |
| Warrants.WarrantLine.Create | budget/models.py:1535-1591 | a warrant is stored exactly when its dates are in order, overlap no reserving warrant and its amount fits |
| Warrants.WarrantLine.Release | budget/views.py:1870-1887 | releases the row exactly when the caller's copy shows it pending, whatever the row shows by then |
| Warrants.WarrantLine.Suspend | budget/views.py:1889-1903 | suspends the row exactly when the copy shows it released |
| Warrants.WarrantLine.OnApprovalCompleted | budget/signals.py:68-91 | the receiver releases the row unless it is released or expired under the lock |
| Warrants.WarrantLine.CompleteApproval | workflow/views.py:1103-1162 | the end of a workflow approval: the engine's status write, then the receiver |
| Warrants.RevivalKeepsExactlyWhen | budget/signals.py:84-91 | releasing a warrant that reserved nothing keeps the line sound if and only if it fits and overlaps nothing |
| Warrants.ActKeepsExactlyWhen | budget/models.py:1535-1591 | each action keeps the strengthened promise (active total within approved, separation, no negative amount that counts) if and only if it is harmless, a condition on the state before it |
| Warrants.ExpiryKeeps | budget/management/commands/expire_warrants.py:40-86 | the expiry sweep keeps ceiling and separation |
| Warrants.SweptAt | budget/management/commands/expire_warrants.py:40-86 | the sweep expires exactly the pending and released warrants whose last day is over |
| Warrants.RunStaysCovered | budget/models.py:895-915 | over any run of harmless actions the released total never exceeds the approved amount and no two reserving warrants overlap |
| Warrants.NegativeCanBreak | budget/models.py:1573-1591 | from any line within its active ceiling holding a negative reserving warrant, harmless actions lead to more released than approved: fill the room, cancel the negative one, release |
| Warrants.ActIsSafeExactlyWhen | budget/models.py:1535-1591 | on a sound line, released stays within approved and reserving warrants apart under every harmless continuation if and only if the action was harmless |
| Warrants.TwoCreationsExactlyWhen | budget/models.py:1535-1591 | two warrants validated side by side keep the line sound if and only if the second would also pass after the first |
| Warrants.TwoCreationsCanOvercommit | budget/models.py:1535-1591 | two warrants that each pass alone and together let more be released than approved |
| Warrants.StaleReleaseOvercommits | budget/views.py:1870-1887 | a release on a copy read before the suspension, the room being taken by another warrant, is not safe |
| Warrants.ApprovalReleasesAny | workflow/views.py:1116-1120 | as wired, a completed approval releases the row whatever it shows |
| Warrants.LateApprovalOverlaps | budget/management/commands/expire_warrants.py:40-86 | an approval completed after the expiry sweep makes two warrants overlap |
| Warrants.NegativeWarrantBreaksCeiling | budget/models.py:1582-1591 | the shortest such run, in figures |
| Gate.NearestAppropriation | accounting/services/budget_check_rules.py:222-258 | the nearest ancestor with a budget line is charged, and none only when no ancestor has one |
| Gate.StrictAdmitsExactlyWhen | budget/services.py:221-238 | under a strict rule or none, a spend on an active line passes if and only if it is covered and, where enforced, a warrant is in force |
| Gate.WithLineRuleDecides | budget/services.py:165-261 | with a line: which rule lets pass, warns or refuses, after a missing warrant |
| Gate.WithoutLineLevelDecides | budget/services.py:100-165 | revenue passes; without a line a strict level refuses, a warning level warns and none lets pass, the rule before the default |
| Gate.DeficitIsExact | budget/services.py:221-261 | the deficit a refusal names is just what is missing: with it the spend passes, with less it is refused for the rest |
| Gate.InForceExactlyWhen | budget/services.py:190-219 | a warrant is in force if and only if it is released and not past its last day |
| Gate.SkipsOutsideStrictMode | accounting/budget_logic.py:385-441 | a ceiling that cannot be resolved passes only outside strict mode, one that can is the same in both |
| Gate.ActiveWarrantMeansCash | budget/services.py:190-219 | with positive amounts a warrant in force is the same as cash released today |
| Gate.RecheckDecidesAlike | accounting/budget_logic.py:405-418 | checking an order again with its own commitment added back decides as before the commitment |
| Gate.CeilingCoversExactlyWhen | accounting/budget_logic.py:385-441 | the cash ceiling implies the appropriation check for every amount if and only if no more is released than approved |
| Gate.SoundWarrantsCover | accounting/budget_logic.py:385-441 | on a line with sound warrants the ceiling never passes what the line cannot cover |
| Gate.SlicesFitExactlyWhen | accounting/budget_logic.py:385-441 | spends admitted one after another fit exactly when their sum does |
| FiscalPeriods.DailyPeriods | accounting/views_old.py:2759-2774 | the daily loop ends and yields one period a day, or overflows exactly at the last date of the calendar |
| FiscalPeriods.MonthlyPeriods | accounting/views_old.py:2775-2799 | the monthly loop ends and yields one period a month, or overflows exactly at December of the last year |
| FiscalPeriods.FiscalCalendar.CreateYear | accounting/views_old.py:2735-2816 | refuses an existing year, rolls back on overflow, otherwise stores the year's tiling and changes nothing else |
| FiscalPeriods.MonthlyTilingTiles | accounting/views_old.py:2775-2799 | monthly periods are numbered from one, adjacent, and every date of the range lies in exactly one |
| FiscalPeriods.MonthlyTilingCount | accounting/views_old.py:2775-2799 | there are as many as calendar months in the range |
| FiscalPeriods.DailyTilingTiles | accounting/views_old.py:2759-2774 | daily periods tile the requested range exactly |
| FiscalPeriods.OtherTypesHaveOnePeriod | accounting/views_old.py:2800-2816 | a year of any other type is one period over the whole range |
| FiscalPeriods.TilingByType | accounting/views_old.py:2759-2816 | which tiling each type gets and when its loop overflows |
| Recurrence.NextRunIsLater | accounting/utils.py:154-196 | every frequency yields a valid, strictly later run date, posted on or after it in the same month |
| Recurrence.PostingDates | accounting/utils.py:190-196 | a monthly run is posted on the last day of its month, every other run on its own day |
| Recurrence.SchedulersAgree | accounting/advanced_services.py:151-165 | the hand-written and the library stepping agree on every known frequency and differ by a day on unknown ones |
| Recurrence.IterateMeetsDirectStep | accounting/utils.py:170-183 | repeated monthly steps land in the month of the direct step, never later, and meet it if and only if no month on the way is shorter than the day it lands on |
| Recurrence.EarlyDaysCompose | accounting/utils.py:170-188 | up to the 28th, three monthly runs are one quarterly run and twelve one annual run |
| Recurrence.LateDaysDrift | accounting/utils.py:170-188 | a concrete later day on which they differ |

## Left out

- Persistence, web views, serializers, permissions, approvals workflow, notifications, imports and exports: plumbing.
- Cached appropriation totals: the model uses the live sums.
- Names and memos, the drawing of document numbers from their sequence (only whether the number can be saved), and other reference patterns than those of the modelled services.
- Currency revaluation, utilisation percentages, tax and operational reports: rounding or single aggregates.
- The wording of the gate's messages and the utilisation warning: they do not change its decision.
- The resolution of check rules by account range: the gate takes the resolved level as a parameter.
- Bulk recognition of deferrals by period: the single recognition is modelled.
- JournalBooks.JournalBook.Post: requests are served one at a time, the commit of the index and the header's save as one step; what interleaved updates of balance rows do is stated in `RowUpdates`, one row at a time and with each save visible at once, and what others write to headers in between is as if the copy were older. Descriptions, which a full save compares as well, are left out, and so is the choice of rule, appropriation and warrant behind the budget's verdict on a line.
- JournalBooks.JournalBook.Update: status and lines are taken as the view's branches take them, whatever the serializer lets through.
- JournalBooks.JournalBook.AppendPosted: the ministry dimension of the balance key and the overrides of dimensions, which the legacy posting methods do not carry and the modelled services leave blank.
- VirementProtocol.RunIsSane: a spend touches one line; payments over several lines would need the same lock order. Sane reads and locks are kept by every run; what a late write can break is stated in `VirementOnce`.
- VirementOwnSteps.FinishableAloneExactlyWhen: leaves undecided states to `FinishableAloneWhenDecided`, because whether such an approval is refused hangs on which of the waiting spends and approvals go first.
- VirementProgress.EveryoneCanFinish: one way, for the receiver's runs; the exact condition, direct approvals included, is `FinishableExactlyWhen`, whose continuations may bring new requests. The database's own deadlock detection, which would roll one of the two back, is not modelled.
- Virements.VirementService.OnApprovalCompleted: the error the receiver logs and swallows is its returned refusal.
- Encumbrances.NeverOverCommitted: one way; both ways, late liquidations included, is `EncumbranceSafety.RunIsSafeExactlyWhen`. A liquidation and its posting commit together and stay within what the copy shows; ledger postings without a liquidation are not bounded by the budget.
- Warrants.RunStaysCovered: actions on one line happen one after another, creations side by side being stated in `TwoCreationsExactlyWhen`; edits of stored warrants are not modelled.
- AccountTree.Subtree: terminates on the condition of `WalkEndsExactlyWhen`, which the chart's validation asks (`accounting/models/gl.py:236-250`) and its save does not.
- Gate.NearestAppropriation: requires the ancestry to end, for the same reason.
- Accruals.LedgerCarriesOutstanding: an accrual's amount, kind and accounts are not edited after it is posted.
- YearRuns.RunKeepsBooks: assumes each close is dated in its year, nothing else is posted to retained earnings or later into a closed year, no balance-sheet account is inactive, no other journal uses the references of the closes, and headers take their numbers.
