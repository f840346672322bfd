# LoanTrack backend: a verified model

This Dafny 4.11 project models the stateful and arithmetic core of the LoanTrack backend and proves its
central promises. `dafny verify dfyconfig.toml` checks all of it. Nothing was executed: the results are about
the model, which follows the Python code branch by branch.

## What is modelled

| files | part of the system |
|---|---|
| `Calendar.dfy` | Gregorian dates, the cycle dates (the 15th, and the 30th or month end), next / nearest / due dates |
| `Ledger.dfy`, `LedgerLaws.dfy` | interest per cycle rounded to cents, bucketing of payments, replay from an import anchor, current balance |
| `Payments.dfy`, `AnchorLaws.dfy`, `ReplayLaws.dfy`, `DeletionLaws.dfy`, `SnapshotLaws.dfy`, `SettledLaws.dfy`, `Witnesses.dfy` | stored payment snapshots, recording, deletion, recalculation, account status |
| `Imports.dfy`, `ImportLaws.dfy`, `CommitLaws.dfy` | committing an import batch |
| `LegacyParser.dfy`, `ParserLaws.dfy`, `ParserReports.dfy` | the parser of the external ledger CSV |
| `RefreshTokens.dfy`, `TokenLaws.dfy` | refresh-token rotation with reuse detection, over all interleavings |
| `CycleScan.dfy`, `ScanLaws.dfy` | the cycle-close scan, by any number of workers |
| `Delivery.dfy` | webhook delivery with bounded retries |

Conventions. Money is whole cents and a rate is whole ten-thousandths per cycle, so `_round2` is a rounding of
integers; sums of amounts are exact. Dates are compared field by field, as Python does, and subtracted through day
numbers. Cycle dates are numbered (`CycleAt`, `CycleIndex`, `AfterIndex`); the numbering is the reference against
which the date arithmetic, the loops over cycle dates and the bucketing by date are proved. Code that updates
state is a class whose methods are proved against a specification function on values (`Add`, `Recalculated`,
`AfterCommit`, `Apply`, ...); the laws are lemmas about those functions. Clock readings, password verification,
receivers' replies, freshly generated identifiers and which scans raise are parameters.

## What the proofs found

- Recalculating a ledger reproduces every stored snapshot exactly if no payment recorded since the last deletion was
  backdated, into the replayed past, before a payment of a later cycle (`RecalculationReproducesTheLedgerIff`, and
  for a single payment `RecordingKeepsTheLedgerIff`). A payment backdated within its cycle, or before the start,
  disturbs nothing, and every deletion repairs the ledger. `BackdatedPaymentLeavesAStaleBalance` is a failing input.
- The status is not always reproduced even then: an import that charges more interest than it pays, or a payment
  that settles the account and is backdated within its cycle, can leave a paid account with a positive balance,
  which recalculation turns "active"; and an import that records nothing opens an open account.
  `RecalculationReproducesTheStatusIff` gives the exact condition; `ImportLeavesPaidAccountPaid`,
  `BackdatedSettlementLeavesABalance` and `EmptyImportActivates` are inputs.
- A native account equals one on which only its remaining payments were recorded, after any refusals and deletions,
  if its requests came in date order. With backdated payments a deletion still does, exactly if of the remaining
  payments none but the last covers what is owed on its date (`DeletingEqualsNeverRecordingIff`);
  `DeletionAfterSettlementDiffers` is an input at which it does not.
- A paid account shows zero from its last payment on exactly if the closing balance of that payment's cycle is not
  positive either (`PaidShowsZeroIff`). Otherwise it comes to show a debt for which no payment is accepted, although
  "a paid account owes nothing": `PaidAccountOwesInterest` is an input.
- A reference that has payments but no account row in the file is meant to be mapped to an existing account. The
  commit never does so, whatever the mapping says: every such payment becomes an error
  (`PaymentsWithoutAccountAreErrors`; `UnmatchedReferenceIsNotMapped` for one file).
- A payment dated before the start date (which `add_payment` accepts when given by hand) is subtracted from its
  stored balance but never from the displayed one, and "paying earlier" across the start date loses the payment:
  `StoredVersusDisplayed` and `PayingEarlierNeverHurts` state both sides. `PaidBeforeTheStart` is an input: the
  loan is stored as paid while all of it is still displayed as owed.
- A webhook event whose last allowed attempt gets a non-success status stays "pending" for good; only a raising last
  attempt marks it "failed" (`LeftPendingIff`; `AnsweredEventIsNeverFailed` for inputs of either kind).
- The docstring of the scan says it returns the number of events enqueued; the code returns the number of closed
  cycles. For one account they agree exactly if nothing is new or one webhook is subscribed
  (`ScanReturnsItsEventsIff`); `EventsOfAPass` gives the difference for a whole pass, `FirstCycleEvents` passes that
  return 1 and enqueue none or two. The model follows the code.

## Model

| member | source | states |
|---|---|---|
| Calendar.OrdinalOrder | backend/app/modules/accounts/interest_engine.py:79-91 | comparing two dates field by field agrees with comparing the day numbers that date subtraction uses, and day numbers are injective, leap years included |
| Calendar.NextDayOrdinal | backend/app/modules/accounts/interest_engine.py:213 | adding one day advances the day number by exactly one across month and year ends |
| Calendar.NextCycleDateIsLeast | backend/app/modules/accounts/interest_engine.py:35-60 | the result is a cycle date on or after the argument and no cycle date lies between |
| Calendar.NextDueDateIsLeast | backend/app/modules/accounts/interest_engine.py:112-120 | the same strictly after the argument |
| Calendar.NearestMinimisesDistance | backend/app/modules/accounts/interest_engine.py:79-91 | among all cycle dates none is fewer days away, and of two equally near ones the later is chosen |
| Calendar.EngineInNumbers | backend/app/modules/accounts/interest_engine.py:35-76 | next, due and advance are the cycle dates numbered by the first index on or after, strictly after, and one further |
| Calendar.CycleDatesOfAMonth | backend/app/modules/accounts/interest_engine.py:29-60 | the cycle dates are the 15th and the 30th of every month, and the last day of February |
| Calendar.GetCycleDates | backend/app/modules/accounts/interest_engine.py:94-109 | the loop terminates (measured in days) and returns the consecutively numbered cycle dates of the interval |
| Calendar.CycleDatesExact | backend/app/modules/accounts/interest_engine.py:94-109 | a date is returned if and only if it is a cycle date in [start, until]; the list is strictly increasing |
| Ledger.InterestIsNearest | backend/app/modules/accounts/interest_engine.py:149-150 | the interest is the number of cents nearest to balance times rate, ties away from zero, for either sign of the balance |
| Ledger.InterestMonotone | backend/app/modules/accounts/interest_engine.py:149-150 | a higher balance never earns less interest, rounding included |
| Ledger.PeriodTest | backend/app/modules/accounts/interest_engine.py:223-242 | the date test of a period, closed on the left only for the first, selects exactly the replayed payments whose first cycle on or after is that one |
| Ledger.ProjectLedger | backend/app/modules/accounts/interest_engine.py:186-259 | the row loop computes the recurrence over cycle numbers, with and without an anchor |
| Ledger.LedgerAnchor | backend/app/modules/accounts/interest_engine.py:158-183 | the anchor is the last imported payment's balance at the later of its date and its nearest cycle |
| LedgerLaws.ClosingConserves | backend/app/modules/accounts/interest_engine.py:230-257 | the closing balance after n cycles is base plus the rows' interest minus everything paid so far |
| LedgerLaws.CurrentBalanceConserves | backend/app/modules/accounts/interest_engine.py:262-296 | the displayed balance at a date is base plus all charged interest minus every replayed payment dated by then |
| LedgerLaws.CountedExactlyOnce | backend/app/modules/accounts/interest_engine.py:223-242 | each replayed payment dated by then is in exactly one row or else pending, never both |
| LedgerLaws.DisplayedBalanceCountsEveryPayment | backend/app/modules/accounts/interest_engine.py:299-302 | at the display date no replayed payment is missing, future-dated ones included |
| LedgerLaws.Dominance | backend/app/modules/accounts/interest_engine.py:230-257 | of two books on the same cycles the one that has always paid at least as much owes less by at least the difference |
| LedgerLaws.RemovingAPaymentCostsAtLeastItsAmount | backend/app/modules/accounts/interest_engine.py:230-257 | without a payment every closing balance from its cycle on is higher by at least its amount, and none is lower |
| LedgerLaws.PayingEarlierNeverHurts | backend/app/modules/accounts/interest_engine.py:230-257 | moving a payment earlier raises no closing balance while it is still replayed there; moved before the replayed dates it costs its amount |
| LedgerLaws.RowsArePrefix | backend/app/modules/accounts/interest_engine.py:219-259 | projecting to a later date only appends rows |
| LedgerLaws.PaymentLeavesEarlierRows | backend/app/modules/accounts/interest_engine.py:219-259 | a payment changes no row before its cycle nor that cycle's opening and interest, and lowers its closing by the amount |
| LedgerLaws.ChargedCycles | backend/app/modules/accounts/interest_engine.py:211-221 | a cycle date has a row exactly if it is strictly after the anchor (else on or after the start) and not after `until` |
| LedgerLaws.ReportedRowIsTheProjectedRow | backend/app/modules/webhooks/service.py:239-258 | the row reported when a cycle closes is the row of any later projection, and is missing exactly for a cycle not charged |
| LedgerLaws.ImportAnchorChargesTheNextCycle | backend/app/modules/accounts/interest_engine.py:158-183 | after an import on any date the first cycle charged is the one following its nearest cycle date: none twice, none skipped |
| AnchorLaws.BalanceAfterImport | backend/app/modules/accounts/interest_engine.py:158-183 | after an import every displayed balance is the one the last imported payment left, plus the interest since, minus the payments past it; the cycles charged are those from the one following its nearest cycle date |
| AnchorLaws.ImportedBalanceIsShown | backend/app/modules/accounts/interest_engine.py:158-183 | until that cycle, and until something is paid past the import, the balance shown is exactly the one the import left |
| AnchorLaws.PaymentAfterImport | backend/app/modules/payments/service.py:120-149 | a payment accepted by that cycle stores the balance the import left as the balance before it, with interest on it exactly on the cycle date |
| AnchorLaws.BalanceWithoutImports | backend/app/modules/accounts/interest_engine.py:186-296 | without imports it is what was borrowed, plus the interest, minus the payments on or after the start; every cycle date from the start on is charged |
| LedgerLaws.DriftIsBounded | backend/app/modules/accounts/interest_engine.py:149-150 | after n cycles rounding has moved the balance by at most the compounded half cents; at rate zero not at all |
| LedgerLaws.DriftClosedForm | backend/app/modules/accounts/interest_engine.py:149-150 | that bound is half a cent times ((1 + r)^n - 1) / r |
| LedgerLaws.BalanceAtMostDoubles | backend/app/modules/accounts/interest_engine.py:230-257 | at a rate of at most 1 and without overpayment, n cycles at most double the base n times |
| Payments.SnapshotFromRows | backend/app/modules/payments/service.py:134-146 | the three ways of reading a snapshot off the rows all give the balance before the payment's cycle, and interest exactly on a charged cycle date |
| Payments.LoanAccount.Snapshot | backend/app/modules/payments/service.py:306-322 | projecting and reading the rows yields that snapshot for any history and anchor |
| Payments.LoanAccount.ResolveDate | backend/app/modules/payments/service.py:101-109 | an automatic payment is dated at the first cycle date after the last payment or start, past the imported cycle |
| Payments.LoanAccount.AddPayment | backend/app/modules/payments/service.py:80-174 | the new account state and the result are those of recording the payment; query order is kept |
| Payments.LoanAccount.RecalculateLedger | backend/app/modules/payments/service.py:253-340 | overwriting in place with the incremental anchor and running balance equals recording the whole history again from nothing |
| Payments.LoanAccount.DeletePayment | backend/app/modules/payments/service.py:228-251 | an unknown payment changes nothing; otherwise the remaining history is recalculated |
| SnapshotLaws.AddRecordsExactlyThePayment | backend/app/modules/payments/service.py:88-174 | accepted exactly on an open or active account after the imported history; adds one row in date order, due at the next cycle date; paid exactly if nothing is owed; a refusal changes nothing |
| AnchorLaws.AutomaticPaymentIsNextInLine | backend/app/modules/payments/service.py:89-118 | an automatic or undated payment is accepted exactly on an open or active account, and dated at the least cycle date that is after the last payment (or the start) and not before the cycle following the last import |
| AnchorLaws.ManualPaymentAcceptedIff | backend/app/modules/payments/service.py:89-118 | a payment dated by hand is accepted exactly on an open or active account and past the last import and its nearest cycle date; which of the two reasons a refusal gives |
| AnchorLaws.StoredSnapshotAddsUp | backend/app/modules/payments/service.py:134-160 | balance after is balance before plus interest minus amount; on a charged cycle date the first two are those of its row, on any other date there is no interest |
| ReplayLaws.RecalculationIsIdempotent | backend/app/modules/payments/service.py:253-340 | recalculating twice equals recalculating once, whatever snapshots were stored |
| ReplayLaws.RunIsConsistent | backend/app/modules/payments/service.py:292-335 | over every run of payments (backdated or not), imports, deletions and closing the order and the status stay right; while nothing disturbs the stored ledger since the last deletion it is its own replay |
| ReplayLaws.InsertedBefore | backend/app/modules/payments/service.py:292-335 | how a payment inserted before another changes its replay: not at all if not replayed or in the same cycle, otherwise lower by at least the amount |
| ReplayLaws.RecordingKeepsTheLedgerIff | backend/app/modules/payments/service.py:120-174 | an accepted payment leaves a ledger that recalculation reproduces exactly if it is not backdated, into the replayed past, before a payment of a later cycle |
| ReplayLaws.RecalculationReproducesTheLedgerIff | backend/app/modules/payments/service.py:292-335 | for any mix of imported and requested payments, deletions and closing, recalculation changes no stored snapshot if and only if no payment since the last deletion was backdated so |
| ReplayLaws.RunInOrderIsUndisturbed | backend/app/modules/payments/service.py:292-335 | in particular it changes none after any run in non-decreasing date order |
| ReplayLaws.RecalculationReproducesTheStatusIff | backend/app/modules/payments/service.py:283-290 | after any run the status is reproduced exactly if it fits the replayed balance; in an undisturbed ledger, exactly unless the account is paid with a positive last balance, or has no payment and is neither open nor closed |
| Witnesses.ImportLeavesPaidAccountPaid | backend/app/modules/imports/service.py:368-371 | a reachable account that is paid, owes 4 cents, and becomes active on recalculation |
| Witnesses.EmptyImportActivates | backend/app/modules/imports/service.py:368-371 | an open account whose import was rejected as a whole is active without payments, and becomes open on recalculation |
| Witnesses.BackdatedPaymentLeavesAStaleBalance | backend/app/modules/payments/service.py:120-174 | two payments, the second backdated before the first in an earlier cycle: 95.00 is stored where recalculation gives 85.00 |
| Witnesses.BackdatedSettlementLeavesABalance | backend/app/modules/payments/service.py:120-174 | a payment backdated within its cycle settles the account, whose last stored balance stays 99.80; recalculation changes only the status |
| Witnesses.DeletionAfterSettlementDiffers | backend/app/modules/payments/service.py:228-340 | a deletion leaves two payments on an active account, of which recording by date would have refused the second |
| Witnesses.PaidAccountOwesInterest | backend/app/modules/accounts/service.py:297-307 | a loan paid in full shows 5.00 owed five days later while it is still paid |
| Witnesses.PaidBeforeTheStart | backend/app/modules/payments/service.py:134-170 | a loan paid in full on a date before its start is stored as paid, while on that date all of it is displayed as owed |
| DeletionLaws.DeletionLowersNoBalance | backend/app/modules/payments/service.py:297-334 | after a deletion each remaining native payment leaves at least the balance it left before |
| DeletionLaws.RecordingAgain | backend/app/modules/payments/service.py:80-174 | recording a native history again is never refused exactly if only its last payment settles the account, and then gives its replay |
| DeletionLaws.DeletingEqualsNeverRecording | backend/app/modules/payments/service.py:228-340 | for any native in-order run, refusals and earlier deletions included, deletion and recalculation leave the snapshots and status that recording only the other payments would have given, and none of those would have been refused |
| DeletionLaws.OnlyWhatIsLeftMatters | backend/app/modules/payments/service.py:228-340 | so after any number of deletions the account is the one that recording only the payments left gives |
| DeletionLaws.DeletingEqualsNeverRecordingIff | backend/app/modules/payments/service.py:228-340 | for any native account not closed, backdated payments included, the same holds exactly if of the remaining payments none but the last covers what is owed when it is dated, told from the history before the call |
| SnapshotLaws.DisplayedFromSnapshot | backend/app/modules/accounts/interest_engine.py:262-296 | the displayed balance at a date is the snapshot there less what was paid earlier in the same period |
| SnapshotLaws.StoredVersusDisplayed | backend/app/modules/payments/service.py:134-149 | a stored balance exceeds the displayed one by exactly the payments already made in its period, and a payment before the start lowers only the stored one |
| SnapshotLaws.AcceptedPaymentVersusDisplayed | backend/app/modules/payments/service.py:120-149 | the same between the account before and after any accepted payment |
| SnapshotLaws.AutoPaymentsChain | backend/app/modules/payments/service.py:89-174 | automatic payments fall on consecutive cycle dates after the start, each starts from the balance the previous left, the last agrees with the display, and paid comes at the first balance not positive, after which all are refused |
| SettledLaws.OwesNothingIff | backend/app/modules/accounts/interest_engine.py:230-296 | after the last payment nothing is ever owed exactly if nothing is owed on its date and at the close of its cycle |
| SettledLaws.PaidShowsZeroIff | backend/app/modules/accounts/service.py:280-307 | so a paid account shows zero for good exactly under that condition |
| SettledLaws.ShownBalanceConserves | backend/app/modules/accounts/service.py:280-307 | the balance an account shows is base plus interest minus all replayed payments, cut off at zero exactly for a paid account |
| Imports.ImportService.MapParsedAccount | backend/app/modules/imports/service.py:203-288 | one parsed account updates tables, rows and counters as its mapping says |
| Imports.ImportService.GroupPayments | backend/app/modules/imports/service.py:291-293 | payments are grouped by reference, references in order of first appearance |
| Imports.ImportService.ReplayMapped | backend/app/modules/imports/service.py:310-371 | running balance and last date, started from the existing history or from the loan, chain the payments onto the account |
| Imports.ImportService.ReplayGroups | backend/app/modules/imports/service.py:295-371 | every reference in turn, mapped or not; a newly created account is still empty when its turn comes |
| Imports.ImportService.Commit | backend/app/modules/imports/service.py:167-396 | a committed batch is refused unchanged; otherwise the whole session is mapping followed by replay, and the batch becomes committed |
| Imports.MappingKeepsApart | backend/app/modules/imports/service.py:203-281 | a new account belongs to one reference only and is empty before the replay |
| ImportLaws.MappingIsExact | backend/app/modules/imports/service.py:203-281 | each reference maps to the named existing account or to a new open account with the parsed terms, under the right row; no earlier account changes |
| ImportLaws.EveryAccountHasOneRow | backend/app/modules/imports/service.py:203-281 | one row per parsed account in order, and created, matched, skipped and erroneous rows are all of them |
| ImportLaws.SortIsStable | backend/app/modules/imports/service.py:296-298 | the payments of a reference are replayed by date, none lost or added, equal dates in file order |
| ImportLaws.EveryPaymentHasOneRow | backend/app/modules/imports/service.py:290-366 | each parsed payment gets exactly one row, and created plus errored payments are the number parsed |
| ImportLaws.RowsOfAReference | backend/app/modules/imports/service.py:295-366 | after a commit the rows of each reference stand together in date order: errors for exactly the leading rejected payments (all, without an account), then only created payments of the mapped account |
| ImportLaws.ReplayAcceptsASuffix | backend/app/modules/imports/service.py:332-366 | the rejected payments are exactly those dated before the recorded history, a prefix; each accepted one starts from the balance the one before left |
| ImportLaws.ReplayConserves | backend/app/modules/imports/service.py:343-357 | the final balance is the initial one plus interest minus amounts of the accepted payments |
| ImportLaws.AppendKeepsOrder | backend/app/modules/imports/service.py:333-358 | imported payments extend the history in date order |
| ImportLaws.ReplayTouchesOnlyMapped | backend/app/modules/imports/service.py:295-371 | an account no reference is mapped to is untouched, one with a single reference gets exactly that import |
| CommitLaws.CommitExtendsRuns | backend/app/modules/imports/service.py:295-371 | a commit continues the run of every account by the imports of all references mapped to it, in order, and creates only runs of imports; it neither disturbs nor repairs a ledger |
| CommitLaws.ImportedPaymentsAreTheParsed | backend/app/modules/imports/service.py:310-371 | of the payments of a reference those before the history (or the start) are left out and each other one is recorded with its own date, amount and interest, chained onto the one before; the account is paid exactly if nothing is owed then, and an open one becomes active |
| CommitLaws.GroupIsExact | backend/app/modules/imports/service.py:291-293 | the group of a reference holds exactly its payments |
| CommitLaws.RefsInFileOrder | backend/app/modules/imports/service.py:291-296 | exactly the references that have a payment are replayed, in the order the file first names them |
| CommitLaws.LastMappingCounts | backend/app/modules/imports/service.py:180 | a reference is mapped exactly if some confirmed mapping carries it, and by the last one that does |
| CommitLaws.CommitFollowsTheMappings | backend/app/modules/imports/service.py:203-281 | each parsed account follows that mapping: skipped, matched with the account it names, created with the parsed amount and start and the confirmed rate (else the parsed one, else zero), or an error |
| CommitLaws.MappedExactlyIf | backend/app/modules/imports/service.py:180-281 | payments of a reference reach an account exactly if the file has an account row for it and the last mapping confirmed for it names an existing account or an existing user |
| CommitLaws.PaymentsWithoutAccountAreErrors | backend/app/modules/imports/service.py:295-330 | every payment of a reference without an account row is reported as an error, whatever its mapping |
| CommitLaws.UnmatchedReferenceIsNotMapped | backend/app/modules/imports/schemas.py:30-34 | a file with one such payment, mapped to an existing account, changes no account |
| LegacyParser.Parse | backend/app/modules/imports/parsers/legacy_ledger_csv.py:96-207 | the two loops produce the accounts, payments and errors that the groups of the file determine |
| LegacyParser.GroupsOneMore | backend/app/modules/imports/parsers/legacy_ledger_csv.py:122-164 | a row changes only the group of its own reference and date |
| ParserLaws.KeysPartitionTheFile | backend/app/modules/imports/parsers/legacy_ledger_csv.py:122-164 | the groups partition the accepted amounts of the file |
| ParserLaws.NoMoneyVanishes | backend/app/modules/imports/parsers/legacy_ledger_csv.py:107-195 | parsed payments sum to the accepted payment rows; accepted interest is on payments or in groups reported as errors |
| ParserLaws.OnePaymentPerReferenceAndDate | backend/app/modules/imports/parsers/legacy_ledger_csv.py:171-200 | the payments are strictly ordered by reference and date, so one per pair |
| ParserLaws.AccountsAreFirstDisbursements | backend/app/modules/imports/parsers/legacy_ledger_csv.py:125-149 | one account per reference with a valid disbursement, from the first such row |
| ParserLaws.EveryRowIsAccountedFor | backend/app/modules/imports/parsers/legacy_ledger_csv.py:107-169 | each row is exactly one of: the source of one account (the first disbursement of its reference), an accepted payment or interest amount, or the row rejected by exactly one error |
| ParserLaws.GroupRowsAreExact | backend/app/modules/imports/parsers/legacy_ledger_csv.py:122-123 | a group lists the numbers of exactly its rows, in file order |
| ParserLaws.TextOrderIsLexicographic | backend/app/modules/imports/parsers/legacy_ledger_csv.py:200 | references are compared character by character |
| ParserReports.PaymentsAreTheGroups | backend/app/modules/imports/parsers/legacy_ledger_csv.py:171-195 | the parsed payments are exactly those of the references and dates with an accepted payment row, each with the sums of its payment and interest rows and its row numbers |
| ParserReports.ErrorsSayWhy | backend/app/modules/imports/parsers/legacy_ledger_csv.py:107-186 | the errors are exactly the reasons of the rejected rows (reference, date, kind, amount, or the earlier disbursement it repeats) and one per reference and date with interest but no payment |
| ParserReports.AccountsInFileOrder | backend/app/modules/imports/parsers/legacy_ledger_csv.py:144-149 | the accounts come in the order of their rows |
| ParserReports.ErrorsInFileOrder | backend/app/modules/imports/parsers/legacy_ledger_csv.py:107-186 | the errors of rows come first, in file order, then those of groups, by first row |
| RefreshTokens.AuthService.CheckRefresh | backend/app/modules/auth/service.py:66-99 | through session, commit and rollback, only the two commit-first rejections leave a trace |
| RefreshTokens.AuthService.ClaimRefresh | backend/app/modules/auth/service.py:101-112 | the conditional update and the successor are committed together, or nothing is |
| RefreshTokens.AuthService.CommitThenReject | backend/app/modules/auth/service.py:190-197 | the session's revocations survive the rollback that the rejection causes |
| RefreshTokens.AuthService.LogIn | backend/app/modules/auth/service.py:56-64 | a verified login of an active user adds one token of a new family; any other changes nothing |
| RefreshTokens.AuthService.LogOut | backend/app/modules/auth/service.py:114-127 | the loop over user ids, in whatever order, revokes the live tokens of all of them |
| RefreshTokens.AuthService.UpdateSelf | backend/app/modules/auth/service.py:129-151 | revocation and fresh session are one step, refused unless the current password is verified |
| RefreshTokens.AuthService.UpdateUser | backend/app/modules/admin/router.py:105-117 | an administrator's change is the password revocation followed by the activation change, each with its revocation |
| TokenLaws.EveryFamilyIsAChain | backend/app/modules/auth/service.py:91-112 | in every reachable state all tokens of a family but the newest are exchanged and the newest is not, at most one is live, and only active users have live tokens |
| TokenLaws.RevocationIsWrittenOnce | backend/app/modules/auth/service.py:182-188 | over any run revoked, revoked-at and reason of a revoked token, and owner, family and expiry of any, never change |
| TokenLaws.NoTokenIsExchangedTwice | backend/app/modules/auth/service.py:101-112 | a token once claimed is never claimed again, whatever passed its checks before |
| TokenLaws.RaceHasOneWinner | backend/app/modules/auth/service.py:101-110 | of two refreshes past their checks with the same token exactly one succeeds, in either order, and the session lives on |
| TokenLaws.RefreshSucceedsExactlyIf | backend/app/modules/auth/service.py:75-112 | a check passes exactly with a known, live, unexpired token of an active user; a later claim succeeds exactly if that token is still live, and issues to its owner |
| TokenLaws.RotationSucceeds | backend/app/modules/auth/service.py:66-112 | undisturbed, a live unexpired token is spent and replaced by a live one of the same family, nothing else changing |
| TokenLaws.DeadFamilyStaysDead | backend/app/modules/auth/service.py:66-112 | a family without a live token never gains one, over any interleaving |
| TokenLaws.ReplayAfterGraceEndsTheSession | backend/app/modules/auth/service.py:75-89 | replaying an exchanged token more than ten seconds after its exchange kills the family for good; within them nothing changes |
| TokenLaws.RejectionRollsBackExceptRevocations | backend/app/modules/auth/service.py:78-99 | a token replayed after grace and a token of an inactive user are rejected and revoke exactly the live tokens of the family, or of the user; any other rejected check changes nothing |
| TokenLaws.RevokedUserKeepsNoSession | backend/app/modules/users/service.py:34-42 | after a user's tokens are revoked none of the sessions they had revives, not even through a refresh already past its checks |
| TokenLaws.NewSessionsAreApart | backend/app/modules/auth/service.py:137-144 | a login adds one live token of an unused family; a password change also revokes exactly the user's other live tokens |
| TokenLaws.OnlyActiveUsersSignIn | backend/app/modules/auth/service.py:50-64 | an unverified login or password change, or one of a user not active, is rejected and changes nothing |
| TokenLaws.SignOutEndsTheirSessions | backend/app/modules/auth/service.py:114-127 | exactly the live tokens of the caller and of the cookie's owner are revoked, and their sessions never revive |
| TokenLaws.AdministratorEndsSessions | backend/app/modules/admin/router.py:105-117 | setting a password, and deactivating, revoke exactly the live tokens of that user, each with its reason, and end every session the user had for good |
| CycleScan.CycleCloseScanService.ScanAccount | backend/app/modules/webhooks/service.py:202-268 | the nested loops insert one notification per new cycle date and one event per date and webhook, with the projected row |
| CycleScan.CycleCloseScanService.ScanAll | backend/app/modules/webhooks/service.py:179-200 | a pass over the accounts with savepoints; the result counts the notifications added, and the events added are that number plus the surplus of the pass |
| CycleScan.PassNotifiesEveryAccount | backend/app/modules/webhooks/service.py:190-200 | after a pass every cycle date up to today of every open or active account is notified, except where the scan raised, which stops no other account |
| CycleScan.ScanReturnsItsEventsIff | backend/app/modules/webhooks/service.py:202-268 | the number a scan returns is its number of events exactly if it has no new date or one subscribed webhook |
| CycleScan.EventsOfAPass | backend/app/modules/webhooks/service.py:175-200 | what a pass enqueues beyond what it returns, from the tables before it; nothing if every account has one webhook |
| CycleScan.FirstCycleEvents | backend/app/modules/webhooks/service.py:175-200 | passes that return 1 and enqueue no event, or two |
| CycleScan.ReadIsExact | backend/app/modules/webhooks/service.py:157-164 | the dates to notify are exactly the cycle dates in range without a notification, each once |
| CycleScan.SubscribedIsExact | backend/app/modules/webhooks/service.py:213-224 | the webhooks are exactly the active, subscribed ones of the account or of all accounts |
| ScanLaws.ExactlyOnce | backend/app/modules/webhooks/service.py:202-268 | over all interleavings each account and cycle date is notified at most once, by one scan, with exactly one event per webhook that scan had read, and no event without a notification |
| ScanLaws.OneEventPerMatchingConfig | backend/app/modules/webhooks/service.py:202-268 | over all interleavings each notified cycle has exactly one event per active, subscribed webhook of the account or of all accounts, as configured when the scan that notified it began, each with the projected row of the payments read then |
| ScanLaws.CommitOrNothing | backend/app/modules/webhooks/service.py:190-200 | a scan that loses the race leaves neither notification nor event; one that commits leaves every cycle date it looked at notified |
| Delivery.WebhookDeliveryService.Deliver | backend/app/modules/webhooks/service.py:113-154 | one attempt changes only its own event, counted before the target is checked, not counted if the webhook is gone |
| Delivery.WebhookDeliveryService.DeliverPending | backend/app/modules/webhooks/service.py:97-111 | exactly the events selectable at the start are attempted, each once |
| Delivery.FinalStatusesAndBoundedAttempts | backend/app/modules/webhooks/service.py:97-154 | delivered and failed never change and attempts never exceed the maximum, over any passes |
| Delivery.DeliveryDrains | backend/app/modules/webhooks/service.py:97-154 | after as many passes as attempts nothing is selectable; an event is delivered, failed, or pending with a non-success status as its last reply |
| Delivery.LeftPendingIff | backend/app/modules/webhooks/service.py:137-153 | a new event stays pending for good exactly if no attempt succeeded or failed outright and the last one did not raise |
| Delivery.Outcome | backend/app/modules/webhooks/service.py:113-154 | the first attempt that is neither answered without success nor raises decides: delivered on success, failed on a missing webhook (not counted) or unsafe target; if all are unsuccessful, failed exactly if the last one raised |
| Delivery.DeliveredOrFailedIff | backend/app/modules/webhooks/service.py:113-154 | a new event ends delivered, or failed, exactly under those conditions |
| Delivery.AnsweredEventIsNeverFailed | backend/app/modules/webhooks/service.py:137-153 | an event answered without success at every attempt is pending for good, one that raised at every attempt is failed |

## Left out

- Years outside 1 to 9999, where Python dates raise; the model's years are unbounded.
- The float conversions of amounts and rates and the Decimal context: amounts and sums are exact cents, so the sort that fixes the float summation order is not modelled, nor the overflow fallback of the account listing.
- The order the database gives to payments of equal date (`ORDER BY payment_date` leaves it open): the model uses the order of insertion.
- Statement-level visibility inside concurrent transactions: each commit is one atomic step, so a family revocation that runs while a successor is inserted but not committed is not distinguished.
- Changes of an account's rate or start date between its payments: runs have constant terms, because after such a change a replay intentionally differs from what was stored.
- DeletionLaws.DeletingEqualsNeverRecording: for natively recorded payments, because an imported payment is not recorded by a payment request, and kinds are compared as if given by hand, since an automatic request would choose its own date.
- Deletion of a user with its tokens, and of an account with its payments and notifications (database cascades).
- Delivery by several workers at once, which may send an event twice; the request itself, signatures, URL checks.
- JWT, hashing and password checks: tokens are table positions, verification is a boolean.
- CSV reading, description patterns, and parsing of dates and amounts: the parser starts from classified rows. The group's copy of the disbursement amount, which nothing reads, is not kept.
- The other import format, the preview, and error message texts.
- Webhooks for added payments, the audit log, attachments, loan requests, listings and the HTTP layer.
- `upcoming_cycle_dates` and the uncalled `compute_payment_ledger_entry`: easy members.
- Manual status edits by an administrator.
