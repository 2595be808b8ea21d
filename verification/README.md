# Verification of the private workspace server

A Dafny model of the server's bookkeeping and of its small state machines, with proofs of what they
promise. `dafny verify dfyconfig.toml` checks the whole project.

## What is modelled

**The wallet** (`internal/wallet`). Each month stores a wallet balance that no operation recomputes: every
operation moves it by a delta. Beside it the pages show an expected balance that is recomputed from rows. The
tables are the datatype `Ledger`; what each operation does to them is a function of `LedgerOps` and
`MonthRows`; `LedgerRuns` makes one state machine of them, with refused operations as steps that change
nothing. The class `WalletRepository.Repository` holds the tables as fields and works on them step by step, as
the Go repository does; each of its methods is proved to do what the function of the same name says. The
central result is that wallet minus expected balance, the variance, is conserved by every operation except two
that move it by a known amount.

**Rate limiters** (`internal/security`, `internal/auth/service.go`). Per-key fixed windows over whole timed
histories of calls, and login attempts whose check and outcome interleave with those of other attempts.

**Printers, parsers and scanners.** The argon2id hash text, repository paths, inline markdown links, and prompt
templates.

**Two persistent state machines.** The migration runner under failures and crashes, and login sessions whose
expiry is compared once as text and once as time.

| files | content |
|---|---|
| `Wrappers`, `Sums`, `Text`, `Calendar`, `Validation` | results, SQL sums, strings, calendar, request checks |
| `Ledger`, `MonthRows`, `LedgerOps`, `LedgerRuns` | tables and figures, new months, operations, runs |
| `Conservation`, `Variance`, `Splits`, `Origins`, `SplitExamples`, `SplitTotals`, `Patches`, `Inverses`, `Totals`, `ClosedMonths`, `ClosedExamples`, `NewMonths` | the wallet's laws |
| `Closing`, `Edits`, `NewRows`, `MonthStarts` | what each operation accepts and leaves |
| `Summary`, `Preparation`, `Repository` | the wallet's loops and its state-changing methods |
| `Windows`, `Spans`, `RequestLimits`, `LoginLimits`, `LoginSpans`, `LoginSharing` | the limiters |
| `Base64`, `Passwords`, `Paths`, `MarkdownLinks`, `Templates`, `Prompts` | printers, parsers, scanners |
| `Migrations`, `Timestamps`, `Sessions` | migrations, stored times, sessions |

## What the proofs turned up

- Deleting an envelope deletes its transactions through the schema and leaves the wallet where it is
  (`internal/wallet/repository.go:518-527`, `migrations/003_wallet.sql`), so it is the one operation,
  manual corrections apart, that moves the variance. The variance stays exactly when the envelope's income and
  the split parents it reveals make up for its spent figure.
- The same operation can leave a split row without its parent: exactly when the parent is filed in the envelope and
  some child is not. Such a row can be split again, and then a parent is a split row; without that step every
  parent is a manual spend. It can also leave a parent with a single child.
- Carry-forward counts split parents as spent and the summary does not; the carried amount equals the remaining
  amount exactly when nothing remains or the envelope holds no split parent.
- Closed months are frozen but for two columns. Deleting a template clears the template reference of envelope rows,
  and deleting a category takes it out of their default lists, in closed months as well; the rows of a closed month
  stay as they are over a run exactly when no such reference is deleted.
- The split check adds in 64 bits. Three rows can add up to a parent of one cent modulo 2^64. With at most 20
  rows of at most 2^58 each it cannot wrap.
- The request limiter admits at most 2 * limit - 1 calls in any span of one window length, one less than twice
  the limit, and this is reached. The login limiter checks before the password is verified and counts after it, so
  with n attempts in flight a key counts up to c = limit - 1 + n failures in a window and 2 * c - 1 in a span; both
  are reached.
- The login limiter keys address and email together as one text with a colon between them, so `1:2` with `x` and `1`
  with `2:x` are counted as one. Where addresses or emails hold no colon, an attempt is refused only for failures from
  its address or for its email.
- `NormalizePath` is applied to its own result (`internal/gitnote/gitnote.go:200-223`), but is not idempotent:
  a percent sign encoded four times over is accepted and then refused. It is stable exactly on results without a
  percent sign and without outer white space.
- Prompt values are inserted one after the other, so a value can be rewritten: by the replacement patterns `$$`,
  `$&`, `` $` `` and `$'`, by a placeholder of another variable in it, and when two values, or two copies of one,
  form a placeholder between them. Values in which none of these can happen are rendered by substitution in every
  body whose braces occur only in placeholders, and any other values are rewritten in some such body; variables named
  like properties that JavaScript objects inherit are left out of this.

## Model

| member | source | states |
|---|---|---|
| `LedgerRuns.StepKeepsSound` | `internal/wallet/repository.go:101-828` | Every operation, accepted or refused, keeps the foreign keys, the snapshot rule of closed months, each transaction filed in an envelope of its own month, and the split forest. |
| `LedgerRuns.RunKeepsSound` | `internal/wallet/repository.go:101-828` | The same for every finite run of operations. |
| `Splits.ReachableForest` | `internal/wallet/splits.go:21-82` | In every reachable ledger link table and parent column hold the same pairs, no child is a parent, and children and parents are spends of one month, no parent a reconciliation row. |
| `Origins.StepIsSourcedIff` | `internal/wallet/repository.go:518-527` | From a ledger in which every split row has its parent and no row is the system's, a step leaves a split row without its parent exactly when it deletes the envelope of a parent of which some child is filed elsewhere. |
| `Origins.ReachableParentsAreManual` | `internal/wallet/splits.go:21-30` | Over every run without such a step each split row keeps its parent and each parent is a manual spend. |
| `Origins.ParentsAreManualWithoutEnvelopeDeletions` | `internal/wallet/splits.go:21-30` | In particular over every run without envelope deletions. |
| `Origins.StraySplitsAgainIff` | `internal/wallet/splits.go:21-42` | A split row without its parent passes every guard on the row itself: it may be split exactly when it is a spend, its month is open, it has no children yet and the number of rows is 2 to 20. |
| `SplitExamples.ParentsCanBeSplitRows` | `internal/wallet/splits.go:21-42` | A run of three operations, split, delete the parent's envelope, split the child that stayed, after which a parent is a split row. |
| `ClosedMonths.ReachableSnapshots` | `internal/wallet/reports.go:165-205` | In every reachable ledger a month is closed exactly when it holds a snapshot, which is its wallet. |
| `LedgerRuns.SplitTransactionKeeps` | `internal/wallet/splits.go:13-100` | Splitting keeps link table and parent column the same relation, with no child a parent. |
| `LedgerRuns.DeleteTransactionKeeps` | `internal/wallet/repository.go:683-735` | Deleting a split as a whole keeps the tables sound. |
| `LedgerRuns.ReconcileKeeps` | `internal/wallet/reconciliation.go:73-138` | Finding or creating the hidden envelope and category and adding the reconciliation row keeps the tables sound. |
| `LedgerOps.ReconciliationDateIs` | `internal/wallet/reconciliation.go:205-211` | The reconciliation row is dated within its month, and today whenever today lies in it. |
| `Closing.ClosingIs` | `internal/wallet/reports.go:165-184` | Closing succeeds for every month that exists: it is closed afterwards, with its wallet as snapshot, opening and wallet as before, and no other month and no other table differs. |
| `Closing.ReopeningIs` | `internal/wallet/reports.go:186-205` | Reopening ends with an open month without a snapshot, and nothing else differs. |
| `Closing.UnknownMonthIsRefused` | `internal/wallet/repository.go:140-157` | A key that names no month is refused by every operation on months, as malformed or as not found. |
| `Closing.CorrectionIs` | `internal/wallet/repository.go:159-191` | A correction by hand writes the figures given, keeps the others, and touches no other month. |
| `Closing.ClosedMonthRefuses` | `internal/wallet/repository.go:800-812` | Every operation on an income item, envelope, spend, split or balance of a closed month fails because the month is closed. |
| `Closing.ClosedUntilReopened` | `internal/wallet/reports.go:165-205` | From closing on, over every run that neither reopens nor deletes the month, it stays closed, its snapshot is the wallet it had, and all those operations fail in this way. |
| `Closing.ReopenedMonthAccepts` | `internal/wallet/reports.go:186-205` | After reopening, a correction is accepted again. |
| `Edits.RefusedEditIs` | `internal/wallet/repository.go:588-643` | The first thing wrong with an edit of a transaction, in the order of the checks, is what it fails with. |
| `Edits.EditAcceptedIff` | `internal/wallet/repository.go:588-643` | The exact condition under which an edit is accepted. |
| `Edits.EditIs` | `internal/wallet/repository.go:605-681` | Every field of the edited row is the one given, dates trimmed and blank notes none, or the one there was; no other row and no other table differs, but for the wallet. |
| `Edits.WalletAfterEdit` | `internal/wallet/repository.go:596-604` | The wallet falls by what a spend grew and rises by what an income grew, and stays for rows of a split. |
| `Edits.EditedSpend` | `internal/wallet/repository.go:588-681` | An accepted edit of a visible spend takes its old amount from the figure of its old envelope and adds its new amount to that of its new one. |
| `Edits.MovedSpend` | `internal/wallet/repository.go:610-618` | Filing a visible spend in another envelope lowers the spent figure of the one, raises that of the other by its amount, and leaves every other. |
| `Edits.RefusedIncomeEditIs` | `internal/wallet/repository.go:294-346` | The first thing wrong with an edit of an income item. |
| `Edits.IncomeEditIs` | `internal/wallet/repository.go:294-366` | Its fields afterwards, and the wallet moved by the difference of the amounts. |
| `Edits.RefusedEnvelopeEditIs` | `internal/wallet/repository.go:455-505` | The first thing wrong with an edit of an envelope. |
| `Edits.EnvelopeEditIs` | `internal/wallet/repository.go:455-516` | Its fields afterwards; no wallet moves. |
| `Edits.IncomeDeletionIs` | `internal/wallet/repository.go:368-387` | When deleting an income item is refused; otherwise exactly that item goes, and its amount from the wallet. |
| `Edits.DeletionIs` | `internal/wallet/repository.go:683-735` | When deleting a transaction is refused; otherwise exactly the row and its children go. |
| `Edits.EnvelopeDeletionIs` | `internal/wallet/repository.go:518-527` | When deleting an envelope is refused; otherwise exactly the rows filed in it go, and children of such rows lose their parent reference. |
| `Edits.MonthDeletionIs` | `internal/wallet/repository.go:193-206` | Deleting a month takes exactly its own rows out of every table. |
| `Edits.CategoryChangeIs` | `internal/wallet/templates.go:521-533` | Categories change unless a transaction would lose its own; default lists keep what is left. |
| `Edits.KeptInOrder` | `internal/wallet/templates.go:521-533` | What is left of a default list keeps its order. |
| `Edits.TemplateChangeIs` | `internal/wallet/templates.go:205-207` | Templates change freely; only links to deleted ones go. |
| `NewRows.CheckedIncomeIs` | `internal/wallet/month_preview.go:198-233` | The first thing wrong with a new income item, or its fields. |
| `NewRows.IncomeCreationIs` | `internal/wallet/repository.go:232-278` | A new income item is added under its identifier, with its amount on the wallet, and nothing else differs. |
| `NewRows.CheckedEnvelopeIs` | `internal/wallet/month_preview.go:235-283` | The first thing wrong with a new envelope, or its fields. |
| `NewRows.DefaultsChecked` | `internal/wallet/templates.go:259-279` | Default categories are those given, once each, in the order of first mention, and refused when one is not offered. |
| `NewRows.EnvelopeCreationIs` | `internal/wallet/repository.go:389-435` | A new envelope is added under its identifier; no wallet moves. |
| `NewRows.CheckedSpendIs` | `internal/wallet/repository.go:537-557` | The first thing wrong with a new spend, or its fields. |
| `NewRows.SpendCreationIs` | `internal/wallet/repository.go:529-574` | A new spend is added under its identifier and taken from the wallet, and nothing else differs. |
| `NewRows.CheckedChildIs` | `internal/wallet/splits.go:125-167` | The first thing wrong with a row of a split, or its fields: envelope, category and date are the parent's where left out. |
| `NewRows.FirstBadRowDecides` | `internal/wallet/splits.go:47-53` | Of several bad rows of a split the first decides. |
| `NewRows.RefusedSplitIs` | `internal/wallet/splits.go:13-57` | Why a split is refused, in the order of the checks. |
| `NewRows.SplitLeaves` | `internal/wallet/splits.go:59-82` | An accepted split adds one child per row, as given, linked to the parent, and leaves every other row. |
| `NewRows.ReconcilingRowIs` | `internal/wallet/reconciliation.go:84-109` | The row that explains a difference: an income when more was counted, a spend when less, with its note, date and source. |
| `NewRows.ReconcilingEnvelopeIs` | `internal/wallet/reconciliation.go:111-138` | The hidden envelope, found or made: worth nothing, inactive, last. |
| `NewRows.ReconcilingCategoryIs` | `internal/wallet/reconciliation.go:140-182` | Its category, or a refusal when another row holds the name or the key. |
| `NewRows.ReconciliationLeaves` | `internal/wallet/reconciliation.go:73-109` | A reconciliation adds that one row, claims envelope and category, and sets the wallet; nothing else differs. |
| `NewRows.BalanceUpdateLeaves` | `internal/wallet/reconciliation.go:14-71` | A balance update is refused unless the month is open, idle when nothing differs, and otherwise a reconciliation. |
| `MonthStarts.MatchIs` | `internal/wallet/templates.go:603-623` | Which envelope carries over: one linked to the template, else an unlinked one of its name in any case. |
| `MonthStarts.CopiedEnvelopeIs` | `internal/wallet/month_preview.go:125-155` | Every field of an envelope copied from a template; the budget exceeds the template's amount by what is carried over, when request and template ask for it. |
| `MonthStarts.CopiedItemIs` | `internal/wallet/month_preview.go:159-175` | Every field of an income item copied from a template. |
| `MonthStarts.PreparedRowsAre` | `internal/wallet/month_preview.go:40-48` | The rows of a new month: as reviewed, as copied, or none. |
| `MonthStarts.PreviewedMonthIs` | `internal/wallet/month_preview.go:13-60` | The first thing wrong with a request for a month, or its record. |
| `MonthStarts.CreatedMonthIs` | `internal/wallet/repository.go:101-138` | Creating a month writes exactly the previewed record and rows. |
| `VarianceOverRuns.StepVariance` | `internal/wallet/repository.go:814-828` | Every step moves the variance of every surviving month by exactly its drift, which is zero but for manual corrections and envelope deletion. |
| `VarianceOverRuns.VarianceIsConserved` | `internal/wallet/reconciliation.go:314-337` | Over every run without those two operations, wallet minus (opening + income items + visible income - visible spend) never changes. |
| `VarianceOverRuns.VarianceOfRun` | `internal/wallet/reconciliation.go:314-337` | Over any run at all the variance moves by the sum of the drifts along it. |
| `VarianceOverRuns.NewMonthVariance` | `internal/wallet/month_preview.go:50-60` | A month created without an explicit wallet starts at variance 0, one with it at wallet - opening - income; other months keep theirs. |
| `VarianceOverRuns.UpdateMonthVariance` | `internal/wallet/repository.go:159-191` | UpdateMonth shifts the variance by exactly the change of the wallet less the change of the opening balance. |
| `VarianceOverRuns.ReconcileVariance` | `internal/wallet/reconciliation.go:14-109` | Reconciling ends with the wallet at the counted figure and every month's variance unchanged. |
| `VarianceOverRuns.UpdateTransactionVariance` | `internal/wallet/repository.go:588-681` | An edit conserves the variance whether or not the row belongs to a split. |
| `VarianceOverRuns.DeleteTransactionVariance` | `internal/wallet/repository.go:683-757` | Deleting a row, or a split with all its children, conserves the variance. |
| `VarianceOverRuns.SplitTransactionVariance` | `internal/wallet/splits.go:44-82` | Splitting conserves the variance of every month. |
| `VarianceOverRuns.IncomeWriteVariance` | `internal/wallet/repository.go:232-366` | Writing an income item and moving the wallet by the difference conserves the variance. |
| `VarianceOverRuns.DeleteMonthVariance` | `internal/wallet/repository.go:193-206` | Deleting a month leaves the variance of the others alone. |
| `VarianceOverRuns.DeleteAllocationVariance` | `internal/wallet/repository.go:518-527` | Deleting an envelope moves the variance of its month by the drift of its rows, and no other month's. |
| `VarianceOverRuns.EnvelopeDriftIs` | `internal/wallet/repository.go:518-527` | That drift is the envelope's income less its spent figure plus split parents whose children all lay in it. |
| `VarianceOverRuns.DeletingEnvelopeIsNeutralIff` | `internal/wallet/repository.go:518-527` | For every envelope the variance stays exactly when its income plus the split parents elsewhere that lose all their children equals its spent figure. |
| `VarianceOverRuns.DeletingPlainEnvelopeIsNeutralIff` | `internal/wallet/repository.go:518-527` | Without income and without children of splits filed elsewhere: exactly when nothing visible was spent from it. |
| `VarianceOverRuns.DeletingSpentEnvelopeMovesVariance` | `internal/wallet/repository.go:518-527` | A ledger with one spend of 100 whose envelope is deleted: the variance changes. |
| `Conservation.NetOfFamilyRemoval` | `internal/wallet/repository.go:696-720` | Removing a parent with its children takes exactly the family's weight out of the month's net, so the refund must be the children's sum. |
| `Conservation.NetOfSplit` | `internal/wallet/splits.go:44-82` | Children replacing their parent leave the month's net as it was when they add up to the parent's amount. |
| `Splits.SplitPreservesFigures` | `internal/wallet/splits.go:44-82` | A split changes no wallet, month spend, income or expected balance. |
| `Splits.DeletingUndoesSplitting` | `internal/wallet/repository.go:683-735` | Splitting and then deleting the parent leaves the very ledger that deleting the unsplit row leaves. |
| `Splits.StepLeavesFamily` | `internal/wallet/repository.go:597-609` | A step changes which rows are a surviving parent's children, or their amounts, exactly when it deletes an envelope that holds one of them. |
| `Splits.ChildrenKeepTheOriginalAmount` | `internal/wallet/repository.go:597-609` | Over any later run that deletes no envelope from under one of them, the children still add up to the parent's amount at the moment of splitting. |
| `Splits.ParentEditIsInert` | `internal/wallet/repository.go:597-604` | Editing a split parent's amount is accepted and moves neither wallet nor expected balance. |
| `Splits.StepKeepsSizes` | `internal/wallet/splits.go:37-42` | No step gives a parent more than 20 children, and a step leaves a parent with one child exactly when it deletes the envelopes of all the others. |
| `Splits.RunKeepsSizes` | `internal/wallet/splits.go:37-42` | Over every run each parent has at most 20 children, and at least 2 as long as no step does that. |
| `Splits.DeleteAllocationPrunesSplits` | `internal/wallet/repository.go:518-527` | Envelope deletion leaves a surviving parent exactly the children filed elsewhere. |
| `SplitExamples.ParentsCanBeLeftWithOneChild` | `internal/wallet/repository.go:518-527` | A sound ledger and an envelope whose deletion leaves a parent with a single child. |
| `Inverses.DeletingUndoesCreatingTransaction` | `internal/wallet/repository.go:529-735` | Deleting a spend just created restores the whole ledger. |
| `Inverses.DeletingUndoesCreatingIncome` | `internal/wallet/repository.go:232-387` | Deleting an income item just created restores the whole ledger. |
| `Inverses.RestoringIncomeAmount` | `internal/wallet/repository.go:294-366` | Changing an income amount and changing it back restores the whole ledger. |
| `Inverses.ReopeningUndoesClosing` | `internal/wallet/reports.go:165-205` | Reopening a month just closed restores the whole ledger. |
| `Patches.EditsCompose` | `internal/wallet/repository.go:588-681` | Two edits of a row are one combined edit, wallet included: the balance deltas add up. |
| `Patches.TransactionPatchesCompose` | `internal/wallet/repository.go:605-658` | Patches compose field by field with the later value winning, and the empty patch changes nothing. |
| `Patches.IncomePatchesCompose` | `internal/wallet/repository.go:302-346` | The same for income items. |
| `Patches.AllocationPatchesCompose` | `internal/wallet/repository.go:455-516` | The same for envelopes. |
| `SplitTotals.RunningTotal` | `internal/wallet/splits.go:44-54` | The int64 total is the sum wrapped to 64 bits, and is the sum exactly when that is below 2^63. |
| `SplitTotals.BoundedTotal` | `internal/wallet/splits.go:37-57` | At most 20 rows of at most 2^58 cannot wrap. |
| `SplitTotals.CheckPassesIff` | `internal/wallet/splits.go:55-57` | The check passes exactly when rows and parent agree modulo 2^64. |
| `SplitTotals.ThreeRowsCanWrap` | `internal/wallet/splits.go:55-57` | Three rows far above one cent whose int64 total is one cent. |
| `Totals.EnvelopesAddUp` | `internal/wallet/summary.go:100-147` | The envelopes' spent figures, hidden envelope included, add up to the month's visible spending. |
| `Totals.CategoriesAddUp` | `internal/wallet/review.go:127-157` | The category breakdown over all categories adds up to the month's visible spending. |
| `Totals.EnvelopeCategoriesAddUp` | `internal/wallet/review.go:100-157` | An envelope's own breakdown adds up to its spent figure, though only one of the two filters by month. |
| `Totals.TotalsAgreeOnRuns` | `internal/wallet/repository.go:759-772` | In every reachable ledger these computations agree. |
| `Totals.SpendLowersAvailableByOverspend` | `internal/wallet/repository.go:529-574` | A spend of a lowers the available balance by max(0, a - max(0, remaining)) in an active ordinary envelope and by a elsewhere. |
| `Totals.AvailableIsConstantWithinEnvelopes` | `internal/wallet/summary.go:52-69` | Over any run of spends within their envelopes the available balance is constant. |
| `ClosedMonths.StepLeavesClosedMonth` | `internal/wallet/repository.go:800-812` | Short of reopening or deleting it, a step leaves all rows of a closed month as they are exactly when it deletes no template and no category that one of the month's envelopes refers to; otherwise only those references go. |
| `ClosedMonths.ClosedMonthIsFrozen` | `internal/wallet/reports.go:165-205` | The same, both ways, from closing on over every run, in particular over every run without template and category edits; and the snapshot stays the wallet. |
| `ClosedMonths.ClosedMonthKeepsFigures` | `internal/wallet/reports.go:165-205` | Expected balance and variance of a closed month stay too. |
| `ClosedMonths.TemplateDeletionReachesClosedMonths` | `internal/wallet/templates.go:205-207` | Deleting templates leaves an envelope row alone exactly when it does not refer to a deleted one, closed month or not, and never touches its default categories. |
| `ClosedMonths.CategoryDeletionReachesClosedMonths` | `internal/wallet/templates.go:521-533` | Deleting categories leaves an envelope row alone exactly when all its default categories survive, closed month or not, and never touches its template link. |
| `ClosedExamples.TemplateDeletionChangesClosedMonth` | `internal/wallet/templates.go:205-207` | A sound ledger with a closed month whose envelope loses its template link. |
| `ClosedExamples.CategoryDeletionChangesClosedMonth` | `internal/wallet/templates.go:521-533` | The same ledger, whose envelope loses its default category. |
| `NewMonths.PreviousIsLatestEarlier` | `internal/wallet/templates.go:588-601` | The greatest smaller month key as text is the chronologically latest earlier month. |
| `NewMonths.NoPreviousIffNoneEarlier` | `internal/wallet/templates.go:588-601` | None is found exactly when no month is earlier. |
| `NewMonths.CarriedOverBounds` | `internal/wallet/templates.go:603-623` | 0 <= carried <= max(0, remaining), with equality exactly when nothing remains or no split parent is filed there. |
| `SplitExamples.CarriedCanDifferFromRemaining` | `internal/wallet/templates.go:603-623` | A sound ledger in which an envelope with a split parent shows 240 as remaining and carries 140 over. |
| `NewMonths.StartingBudget` | `internal/wallet/month_preview.go:125-140` | A new budget is the default plus what the matched envelope carries over. |
| `NewMonths.ConfirmedPreviewIs` | `internal/wallet/month_preview.go:13-48` | Confirming a template preview is accepted exactly when all its default categories are still active and visible, and then prepares the same month. |
| `NewMonths.PreviewThenCreate` | `internal/wallet/repository.go:101-138` | Creating from a preview's rows creates exactly what creating from the templates creates. |
| `Calendar.MonthOrder` | `internal/wallet/templates.go:588-601` | Text order of YYYY-MM keys is month order. |
| `Calendar.NextMonthIs` | `internal/wallet/templates.go:588-601` | One index further is the next month. |
| `Calendar.MonthKeyIff` | `internal/shared/shared.go:198-204` | Month keys are the prints of a four-digit year and a month of 1 to 12. |
| `Calendar.DateKeyIff` | `internal/shared/shared.go:190-196` | Day keys are the prints of a real day. |
| `Calendar.MonthLengths` | `internal/shared/shared.go:190-196` | The lengths of the months. |
| `Validation.NormalizedTypeIs` | `internal/wallet/validation.go:54-62` | An envelope type is the one spelled, up to case and with blanks or hyphens for underscores, and otherwise flexible. |
| `Text.TrimTakesSpace` | `internal/wallet/validation.go:38-52` | What trimming takes away is white space. |
| `Text.LowerCharIs` | `internal/auth/store.go:257-259` | Capital letters become their small letters, and nothing else changes. |
| `MonthRows.ReceivedDate` | `internal/wallet/templates.go:625-640` | A default day gives a real date in the month: that day, or the month's last day when the month is shorter. |
| `Preparation.PreviousMonth` | `internal/wallet/templates.go:588-601` | Finds the greatest month key below the given one. |
| `Preparation.FindMatch` | `internal/wallet/templates.go:603-623` | Finds an envelope linked to the template if there is one, else an unlinked one of the same name. |
| `Preparation.PreviousRemaining` | `internal/wallet/templates.go:603-623` | Computes the carried amount of the envelope found. |
| `Preparation.StartingAmount` | `internal/wallet/month_preview.go:130-140` | Default amount plus carry-forward where both template and request ask for it. |
| `Preparation.TemplateAllocations` | `internal/wallet/month_preview.go:120-157` | The loop over templates builds the specified envelope rows, and its query answers are legal ones. |
| `Preparation.TemplateIncomes` | `internal/wallet/month_preview.go:159-175` | The loop over income templates builds the specified income rows. |
| `Preparation.SanitizeDefaults` | `internal/wallet/templates.go:259-279` | Repeats are dropped in order and the first unknown category is an error. |
| `Preparation.SanitizeAllocation` | `internal/wallet/month_preview.go:235-283` | The checks of a reviewed envelope in their order. |
| `Preparation.ReviewedIncomes` | `internal/wallet/month_preview.go:178-186` | All reviewed incomes checked, the first bad one decides. |
| `Preparation.ReviewedAllocations` | `internal/wallet/month_preview.go:187-196` | All reviewed envelopes checked, the first bad one decides. |
| `Preparation.Prepare` | `internal/wallet/month_preview.go:40-48` | Reviewed rows win over templates, templates over nothing. |
| `Preparation.ApplyInitialWallet` | `internal/wallet/month_preview.go:50-60` | The wallet given, or opening plus the rows' income. |
| `Preparation.Preview` | `internal/wallet/month_preview.go:13-38` | The preview is the month and rows that creation would write. |
| `Summary.ExpectedBalance` | `internal/wallet/reconciliation.go:314-337` | Computes the expected balance of the ledger. |
| `Summary.SpentPerEnvelope` | `internal/wallet/summary.go:101-109` | The query's rows: each envelope of the month with its visible spending. |
| `Summary.Tally` | `internal/wallet/summary.go:115-137` | One loop keeps reserve, spending and list, leaving the hidden envelope out of two of them. |
| `Summary.ListAllocationSummaries` | `internal/wallet/summary.go:100-147` | Its totals are the month's reserve and the month's visible spending. |
| `Summary.Summarise` | `internal/wallet/summary.go:10-71` | Expected, variance, reserved and available on the page are the ledger's, although spending is summed by envelope here. |
| `Summary.CategoryBreakdown` | `internal/wallet/review.go:127-157` | Its rows are exactly the categories with spending, each with its sum and its number of transactions, and the sums add up to the month's spending or to the envelope's spent figure. |
| `WalletRepository.Repository.CreateMonth` | `internal/wallet/repository.go:101-138` | Inserts the prepared month and rows, as the specified step. |
| `WalletRepository.Repository.UpdateMonth` | `internal/wallet/repository.go:159-191` | Sets opening and wallet of an open month, or changes nothing. |
| `WalletRepository.Repository.DeleteMonth` | `internal/wallet/repository.go:193-206` | Removes the month and all its rows. |
| `WalletRepository.Repository.CloseMonth` | `internal/wallet/reports.go:165-184` | Closes with the wallet as snapshot; closing twice changes nothing. |
| `WalletRepository.Repository.ReopenMonth` | `internal/wallet/reports.go:186-205` | Reopens and drops the snapshot. |
| `WalletRepository.Repository.AddToWallet` | `internal/wallet/repository.go:814-828` | Moves one month's wallet by the delta. |
| `WalletRepository.Repository.CreateIncome` | `internal/wallet/repository.go:232-278` | Adds the item and its amount to the wallet. |
| `WalletRepository.Repository.PatchedIncome` | `internal/wallet/repository.go:302-346` | Patches field by field; the first bad field decides the error. |
| `WalletRepository.Repository.UpdateIncome` | `internal/wallet/repository.go:294-366` | Writes the patched item and moves the wallet by the difference. |
| `WalletRepository.Repository.DeleteIncome` | `internal/wallet/repository.go:368-387` | Removes the item and its amount. |
| `WalletRepository.Repository.CreateAllocation` | `internal/wallet/repository.go:389-435` | Adds the checked envelope to an open month. |
| `WalletRepository.Repository.UpdateAllocation` | `internal/wallet/repository.go:455-516` | Writes the patched envelope. |
| `WalletRepository.Repository.DeleteAllocation` | `internal/wallet/repository.go:518-527` | Removes the envelope and, through the schema, its transactions; no wallet moves. |
| `WalletRepository.Repository.NewTransaction` | `internal/wallet/repository.go:537-557` | The checks of a new spend in their order. |
| `WalletRepository.Repository.CreateTransaction` | `internal/wallet/repository.go:529-574` | Adds a spend and takes its amount from the wallet. |
| `WalletRepository.Repository.RefiledTransaction` | `internal/wallet/repository.go:605-627` | A child's amount is frozen; envelope and category must be usable in the month. |
| `WalletRepository.Repository.PatchedTransaction` | `internal/wallet/repository.go:605-658` | The whole patch, in order. |
| `WalletRepository.Repository.WalletEffect` | `internal/wallet/repository.go:596-604` | An amount edit moves the wallet only outside splits. |
| `WalletRepository.Repository.UpdateTransaction` | `internal/wallet/repository.go:588-681` | Writes the patched row and moves the wallet accordingly. |
| `WalletRepository.Repository.SplitRows` | `internal/wallet/repository.go:696-717` | The loop collects the children and what they add up to. |
| `WalletRepository.Repository.DeleteRows` | `internal/wallet/repository.go:721-729` | Deleting row after row is deleting them together, with the schema's cascades. |
| `WalletRepository.Repository.DeleteTransaction` | `internal/wallet/repository.go:683-735` | Deletes a row or a whole split and refunds the children's sum or the row's own delta. |
| `WalletRepository.Repository.BuildChildren` | `internal/wallet/splits.go:44-54` | The loop checks the rows, the first bad one decides, and keeps their total. |
| `WalletRepository.Repository.InsertChildren` | `internal/wallet/splits.go:59-82` | The loop adds child rows and links. |
| `WalletRepository.Repository.SplitTransaction` | `internal/wallet/splits.go:13-100` | All the guards in their order, then the split. |
| `WalletRepository.Repository.FindEnvelope` | `internal/wallet/reconciliation.go:111-118` | Finds the month's hidden envelope: inactive before active, then oldest. |
| `WalletRepository.Repository.FindCategory` | `internal/wallet/reconciliation.go:140-182` | Finds the reconciliation category by id, system key or name. |
| `WalletRepository.Repository.Reconcile` | `internal/wallet/reconciliation.go:73-109` | Adds the row that explains the difference and sets the wallet, or changes nothing. |
| `WalletRepository.Repository.CreateBalanceUpdate` | `internal/wallet/reconciliation.go:14-71` | The wallet ends at the counted figure and the record holds month, note, and the previous, expected and difference figures of before. |
| `Windows.PruneTable` | `internal/security/security.go:126-132` | The pruning loop deletes exactly the windows that have ended. |
| `Windows.BumpAllAt` | `internal/security/security.go:192-199` | Each of several distinct keys goes up by exactly one, others stay. |
| `RequestLimits.RequestLimiter.constructor` | `internal/security/security.go:157-170` | Non-positive settings become 120 calls a minute. |
| `RequestLimits.RequestLimiter.Allow` | `internal/security/security.go:172-201` | Prunes, refuses if any key is full, otherwise counts every key once. |
| `RequestLimits.NormalizedKeys` | `internal/security/security.go:211-226` | The loop computes the normalised keys. |
| `RequestLimits.NormalizedKeysAre` | `internal/security/security.go:211-226` | They are the non-blank keys, trimmed, each once. |
| `RequestLimits.PruningIsUnobservable` | `internal/security/security.go:172-209` | With a clock that does not run backwards, every answer is that of a limiter that never prunes. |
| `RequestLimits.RefusedCallLeavesNoTrace` | `internal/security/security.go:185-191` | After a refused call all later answers are as if it had not been made: it counts against no key. |
| `RequestLimits.SpanAdmitsUnderTwiceLimit` | `internal/security/security.go:185-200` | Any half-open span of one window length admits at most 2 * limit - 1 calls per key, and at most the limit when the window is a single tick of the clock. |
| `RequestLimits.WindowAdmitsLimit` | `internal/security/security.go:185-200` | A window admits at most the limit, and its counter is what it admitted. |
| `RequestLimits.RefusedIff` | `internal/security/security.go:172-201` | A call is refused exactly when one of its non-blank keys, trimmed, has a running window that has already admitted the limit. |
| `RequestLimits.SpanCanAdmitThatMuch` | `internal/security/security.go:185-200` | For every limit and window there is a history that reaches that bound. |
| `LoginLimits.LoginLimiter.constructor` | `internal/security/security.go:72-85` | Non-positive settings become 5 failures in 15 minutes. |
| `LoginLimits.LoginLimiter.Allow` | `internal/security/security.go:87-100` | Prunes, and refuses exactly when one of the three keys is full. |
| `LoginLimits.LoginLimiter.RecordFailure` | `internal/security/security.go:102-115` | Counts one failure on the three keys. |
| `LoginLimits.LoginLimiter.Reset` | `internal/security/security.go:117-124` | Forgets the three keys. |
| `LoginLimits.LoginKeysAreDistinct` | `internal/security/security.go:134-142` | The three keys of an attempt always differ. |
| `LoginLimits.FailureAddsOne` | `internal/security/security.go:102-115` | So a failure adds exactly one to each of them. |
| `LoginLimits.StepContains` | `internal/security/security.go:87-124` | Count plus pending attempts of every key stays within limit - 1 + n over each event. |
| `LoginLimits.CountsStayBelow` | `internal/auth/service.go:118-142` | With at most n attempts between check and outcome, no key counts past limit - 1 + n, whatever the interleaving and the clock. |
| `LoginLimits.SequentialCountsStayWithinLimit` | `internal/auth/service.go:118-142` | One attempt at a time: at most the limit. |
| `LoginSharing.CountsOnIff` | `internal/security/security.go:134-142` | An attempt counts on a key of another exactly when they share the address, or the email up to case and outer blanks, or the text of both together. |
| `LoginSharing.PairsCoincideIff` | `internal/security/security.go:134-142` | The text of both is shared only with address and email, unless both hold colons. |
| `LoginSharing.PairsCanCoincide` | `internal/security/security.go:134-142` | Two attempts that share neither, and yet the text of both. |
| `LoginSharing.RefusedIff` | `internal/security/security.go:87-100` | An attempt is refused exactly when the window of its address, of its email or of both together, told from the failures and successes so far, is running and full. |
| `LoginSharing.EnoughFailuresBlock` | `internal/security/security.go:87-115` | As many failures as the limit from one address, with any emails, or for one email, from any addresses, without a success among them: within a window length of the first, every attempt from that address, or for that email, is refused. |
| `LoginSharing.FewFailuresDoNotBlock` | `internal/security/security.go:87-115` | Fewer do not have this effect. |
| `LoginSharing.SuccessClearsExactly` | `internal/security/security.go:117-124` | After a success an attempt is refused exactly for what it does not share with it. |
| `LoginSharing.FailureElsewhere` | `internal/security/security.go:102-115` | A failure of an attempt that shares nothing with another changes nothing for it. |
| `LoginSharing.StrangersAreAdmitted` | `internal/security/security.go:87-100` | An attempt that shares nothing with any failure is admitted. |
| `LoginSpans.CountsCanReachThatMuch` | `internal/auth/service.go:118-142` | For every limit and n an interleaving that reaches the bound. |
| `LoginSpans.SpanRecordsUnderTwice` | `internal/security/security.go:87-124` | With c = limit - 1 + n, any half-open span of one window length records at most 2 * c - 1 failures on a key since its last reset, and at most c when the window is a single tick. |
| `LoginSpans.SpanCanRecordThatMuch` | `internal/security/security.go:87-124` | For every limit, window, n and key of an attempt there is an interleaving that reaches that bound. |
| `LoginLimits.Login` | `internal/auth/service.go:108-162` | The handler's calls to the limiter and its status, by outcome, with the session and token that may fail after the reset; from counts within the limit it keeps them there. |
| `Base64.DecodeEncode` | `internal/auth/password.go:65-72` | Decoding undoes encoding for all bytes. |
| `Base64.SymbolIs` | `internal/auth/password.go:65-72` | Digit by digit, the symbol is the one that table 1 of RFC 4648 lists. |
| `Base64.GroupIs` | `internal/auth/password.go:65-72` | Three bytes and their four digits are the same 24-bit number, highest first. |
| `Base64.LastGroupIs` | `internal/auth/password.go:65-72` | One or two bytes at the end are two or three digits with zero spare bits. |
| `Base64.DecodeFailsIff` | `internal/auth/password.go:88-96` | A text is refused exactly when it holds a character that is neither in the table nor a line break, or leaves one symbol over. |
| `Passwords.ReadPart` | `internal/auth/password.go:107-129` | One turn of the loop: the part's setting is stored, or its error returned. |
| `Passwords.ParseArgon2Params` | `internal/auth/password.go:104-135` | The loop reads the last value of each parameter, the first bad part decides, and all three must occur. |
| `Passwords.ParsePrint` | `internal/auth/password.go:56-102` | Parsing a printed hash gives back parameters, salt and key, for all non-zero parameters and non-empty salt and key. |
| `Passwords.PrintedText` | `internal/auth/password.go:65-72` | The printed hash is `argon2id$v=19$m=..,t=..,p=..$salt$key`, with memory in m, iterations in t and parallelism in p. |
| `Passwords.ParsedText` | `internal/auth/password.go:75-135` | Such a text, with the three parameters in any of their six orders, reads as these figures. |
| `Passwords.PartIs` | `internal/auth/password.go:107-129` | What one `key=value` part reads as: only m, t and p are known, numbers are positive and fit 32 bits, for p 8. |
| `Passwords.PartWithoutValue` | `internal/auth/password.go:108-111` | A part without an equals sign is malformed. |
| `Passwords.AbsentParameter` | `internal/auth/password.go:130-132` | A parameter that no part names is missing. |
| `Passwords.RefusedFieldsAre` | `internal/auth/password.go:75-102` | What is wrong with a hash text, in the order of the checks. |
| `Passwords.AnyOrderParses` | `internal/auth/password.go:104-135` | Any reordering of m, t and p reads the same. |
| `Passwords.ParseReordered` | `internal/auth/password.go:75-102` | A hash text with the three parameters in any order parses to parameters, salt and key. |
| `Passwords.AcceptedTextHasCanonicalForm` | `internal/auth/password.go:75-102` | Printing what was read from any accepted text gives a text that reads the same. |
| `Passwords.VerifyHashed` | `internal/auth/password.go:39-73` | A password verifies against a hash of another exactly when the key function agrees on them. |
| `Paths.NormalizePath` | `internal/gitnote/gitnote.go:251-283` | The method, its decoding loop and its segment loop compute the specified result. |
| `Paths.Decode` | `internal/gitnote/gitnote.go:259-269` | At most three rounds, ended early when nothing changes. |
| `Paths.UnescapeIsIdentityIff` | `internal/gitnote/gitnote.go:261-267` | A round changes nothing exactly when there is no percent sign. |
| `Paths.HexValueIs` | `internal/gitnote/gitnote.go:259-269` | A hexadecimal digit's value is its place among the sixteen, in either case. |
| `Paths.UnescapeEscaped` | `internal/gitnote/gitnote.go:259-269` | Decoding undoes writing every character as a percent sign and two hexadecimal digits. |
| `Paths.AcceptedIff` | `internal/gitnote/gitnote.go:251-283` | A path is accepted exactly when it decodes to a plain relative path; the final path.Clean check never rejects. |
| `Paths.RefusedPathIs` | `internal/gitnote/gitnote.go:251-283` | Why a path is refused: blank; a leading slash, backslash or empty or dot segment before or after decoding; or an escape that does not decode. |
| `Paths.DecodeErrorIs` | `internal/gitnote/gitnote.go:259-269` | A round of decoding can fail only for a bad escape. |
| `Paths.AcceptedPathsArePlain` | `internal/gitnote/gitnote.go:273-283` | Accepted paths are non-empty, relative, free of empty and dot segments, and path.Clean leaves them alone. |
| `Paths.CleanIsIdentity` | `internal/gitnote/gitnote.go:278-281` | path.Clean is the identity on plain paths. |
| `Paths.CleanIsIdentityOnRooted` | `internal/gitnote/gitnote.go:278-281` | And on such a path from the root. |
| `Paths.NormalizeAgainIff` | `internal/gitnote/gitnote.go:220-225` | A second normalisation changes nothing exactly when the result has no percent sign and no outer white space. |
| `Paths.NormalizeAgainCanFail` | `internal/gitnote/gitnote.go:220-225` | A path that is accepted once and refused the second time. |
| `Paths.WithinPrefixIff` | `internal/gitnote/gitnote.go:285-290` | On plain paths the prefix test holds exactly when the segments of the prefix begin those of the path. |
| `Paths.FilterTree` | `internal/gitnote/gitnote.go:292-303` | The loop keeps the items below the prefix in order. |
| `Paths.FilteredIs` | `internal/gitnote/gitnote.go:292-303` | What is kept, and how often, by segments. |
| `Paths.FilteredInOrder` | `internal/gitnote/gitnote.go:292-303` | Items are kept in the order of the tree. |
| `MarkdownLinks.FindClosing` | `internal/share/share.go:637-656` | The loop over depth and escapes computes the specified position. |
| `MarkdownLinks.ClosingIff` | `internal/share/share.go:637-656` | It stops at k exactly when a closing parenthesis stands there after a balanced text, balanced by a grammar of its own. |
| `MarkdownLinks.NoClosingIff` | `internal/share/share.go:637-656` | It finds nothing exactly when there is no such place. |
| `MarkdownLinks.ExtractDestinations` | `internal/share/share.go:620-635` | The loop extracts the specified spans. |
| `MarkdownLinks.SpansAreLinks` | `internal/share/share.go:620-635` | Every span is a balanced destination between `](` and `)`. |
| `MarkdownLinks.SpansAreOrdered` | `internal/share/share.go:620-635` | Spans increase and do not overlap. |
| `MarkdownLinks.EveryLinkIsCovered` | `internal/share/share.go:620-635` | Every link is extracted unless it starts inside an extracted one. |
| `Templates.ExtractVariables` | `web/src/lib/prompts/renderPrompt.js:5-18` | The loop lists the matched names once each, in order. |
| `Templates.CharacterClasses` | `web/src/lib/prompts/renderPrompt.js:1` | Which characters names begin with and hold. |
| `Templates.OnceEachIs` | `web/src/lib/prompts/renderPrompt.js:5-18` | The list holds exactly the names, without repetition. |
| `Templates.NamesArePrinted` | `web/src/lib/prompts/renderPrompt.js:1-18` | The names found in a printed template are its variables. |
| `Prompts.ExpandsToItselfIff` | `web/src/lib/prompts/renderPrompt.js:39-42` | A value goes in as it stands, whatever surrounds the placeholder, exactly when none of its dollar signs is followed by a dollar sign, an ampersand, a backtick or an apostrophe. |
| `Templates.ExpandIs` | `web/src/lib/prompts/renderPrompt.js:39-42` | What each of the four replacement patterns stands for, and that any other dollar sign stands for itself. |
| `Templates.ExpandText` | `web/src/lib/prompts/renderPrompt.js:39-42` | Every other character stays. |
| `Prompts.ReplaceFills` | `web/src/lib/prompts/renderPrompt.js:39-42` | One replacement fills in exactly its own placeholders, unless a value filled in earlier holds one, or two such values can form one between them. |
| `Prompts.SequentialIsSimultaneous` | `web/src/lib/prompts/renderPrompt.js:39-42` | For values harmless to the variables replaced, other values and placeholders of other names aside, one variable at a time, in any order, is substitution all at once; with repetition too, unless a value holds its own placeholder. |
| `Prompts.HarmlessIff` | `web/src/lib/prompts/renderPrompt.js:29-42` | Rendering is substitution in every body whose braces occur only in placeholders exactly when the values pass the test: no live dollar pattern, no placeholder of another variable that does not stand for itself, and not one value with the open beginning of a placeholder while one has its end. |
| `Templates.TidyBodiesParse` | `web/src/lib/prompts/renderPrompt.js:1-18` | Every body whose braces occur only in placeholders is a printed template. |
| `Templates.PrintsAreTidy` | `web/src/lib/prompts/renderPrompt.js:1-18` | And every printed template is such a body, of the same meaning. |
| `Prompts.RenderPrompt` | `web/src/lib/prompts/renderPrompt.js:29-49` | The text is the trimmed rendering, with the context under its own variable if the body has one, and otherwise, unless empty, appended after the literal separator; with values harmless to its variables, the rendering of a body whose braces occur only in placeholders is substitution. |
| `Prompts.TrimIs` | `web/src/lib/prompts/renderPrompt.js:44-48` | Trimming takes white space off both ends, and nothing else. |
| `Prompts.BracesInValuesAreReplaced` | `web/src/lib/prompts/renderPrompt.js:39-42` | A value with braces for which it is not substitution. |
| `Prompts.DollarsInValuesAreExpanded` | `web/src/lib/prompts/renderPrompt.js:39-42` | A value with a dollar sign for which it is not substitution. |
| `Migrations.MigrationFiles` | `internal/db/db.go:221-238` | The .sql files of the directory in ascending order, or an error when there are none. |
| `Migrations.VersionsAreInjective` | `internal/db/db.go:178-179` | Different files have different versions. |
| `Migrations.VersionIs` | `internal/db/db.go:178-179` | A version is the file name without `.sql`. |
| `Migrations.LatestIs` | `internal/db/db.go:78-112` | The latest version is that of the last file name. |
| `Migrations.Database.ApplyMigrations` | `internal/db/db.go:164-211` | One run, whatever befalls each transaction, and what it reports as applied. |
| `Migrations.AppliedAtMostOnce` | `internal/db/db.go:164-211` | Over any sequence of runs with failures and crashes each script is applied at most once and recorded exactly when applied. |
| `Migrations.RunAppliesPrefix` | `internal/db/db.go:177-210` | A run applies a prefix of what is pending, in order, and all of it when it completes. |
| `Migrations.PendingIs` | `internal/db/db.go:178-186` | Pending is exactly what the directory holds and the table does not. |
| `Migrations.SecondRunIsIdle` | `internal/db/db.go:164-211` | A run after a completed one does nothing. |
| `Migrations.StartsConverge` | `internal/db/db.go:164-211` | Any number of broken starts and then a complete one leave what one complete start leaves. |
| `Migrations.ReadyAfterCompleteRun` | `internal/db/db.go:78-112` | The latest version is recorded after every completed run. |
| `Timestamps.CivilOf` | `internal/auth/store.go:261-263` | Every instant of years 0000 to 9999 has a valid civil time that names it. |
| `Timestamps.FormatOrder` | `internal/auth/store.go:20` | On those years comparing the stored texts compares the times. |
| `Timestamps.FormatIs` | `internal/auth/store.go:20` | The text of an instant, field by field. |
| `Timestamps.ParseFormat` | `internal/auth/store.go:261-267` | A stored time reads back as the instant that was stored. |
| `Sessions.Store.constructor` | `internal/auth/store.go:42-51` | A non-positive lifetime becomes 168 hours. |
| `Sessions.Store.CreateSession` | `internal/auth/store.go:118-155` | Stores a session that expires one lifetime from now. |
| `Sessions.Store.SessionByToken` | `internal/auth/store.go:157-188` | Returns and touches a live session, deletes an expired one on sight; no stored expiry fails to parse. |
| `Sessions.Store.DeleteExpired` | `internal/auth/store.go:206-212` | The text comparison deletes exactly the sessions whose time is up. |
| `Sessions.TextSweepIsTimeSweep` | `internal/auth/store.go:206-212` | Sweeping the stored table is sweeping by time. |
| `Sessions.SweepRemovesTheRefused` | `internal/auth/store.go:157-212` | Sweeping removes exactly the sessions that a lookup at that moment would refuse. |
| `Sessions.SessionLivesItsLifetime` | `internal/auth/store.go:118-188` | Over every run of other events a session is found, as it was created, until exactly one lifetime after its creation, and then no more. |
| `Sessions.LookupTouches` | `internal/auth/store.go:157-188` | A lookup notes when a live session was last seen and changes nothing else. |
| `Sessions.UsedTokenIsRefused` | `internal/auth/store.go:118-155` | A token in use is refused, and its session stays. |
| `Sessions.LogoutEndsSession` | `internal/auth/store.go:190-204` | A logout ends that session and no other. |
| `Sessions.SweepingIsUnobservable` | `internal/auth/store.go:157-212` | With a clock that does not run backwards no client can tell whether or when sessions are swept. |

## Left out

- HTTP handlers, JSON decoding and typing of patches, cookies and headers: a patch is a record of optional fields.
- SQL text and the driver: tables are maps and queries are sums and filters. From the schema the model takes that
  deleting a month or an envelope deletes its rows, that deleting a transaction deletes its split links and clears
  parent references, and that a referenced category cannot be deleted.
- Row identifiers and keys: a month is identified by its key, other identifiers are opaque and new ones unused.
- Query results that the SQL leaves unordered are any legal choice: which of several equally good envelopes
  carry-forward or reconciliation picks, and the order of equal templates.
- Timestamps of rows, except an envelope's creation time; sort orders of lists shown.
- The history of balance updates and the reconciliation adjustments table, which no figure proved here reads.
- The single template and category edits: `OpChangeTemplates` and `OpChangeCategories` stand for any sequence of
  them, with the effects the schema has on other tables.
- Concurrent wallet requests: each wallet operation is one atomic step.
- 64-bit arithmetic: amounts in the ledger are mathematical integers, and its split step compares exact sums;
  `SplitTotals` says when the 64-bit total of the split check is that sum.
- The order in which summaries and breakdowns are listed: they are maps from rows to figures.
- `MonthlyReport`, review counts, recent transactions, the month book: listings over the same figures.
- A nil request limiter, which admits everything.
- Sessions with a blank token, which are refused before any lookup; users, user agents and addresses of sessions.
- `Sessions.Store.SessionByToken`: reads only texts of the stored form, and clocks of the years 0000 to 9999; the
  other forms that RFC 3339 allows are not modelled.
- `Sessions.Store.CreateSession`: expiries after the year 9999 are not modelled; their texts would be longer.
- `Sessions.Store.DeleteExpired`: clocks after the year 9999 are not modelled, for the same reason.
- `WalletRepository.Repository.SplitTransaction`: compares exact sums, so rows whose 64-bit total wraps to the
  parent's amount are refused here; `SplitTotals.CheckPassesIff` says which those are.
- `WalletRepository.Repository.BuildChildren`: its total is exact; `SplitTotals.RunningTotal` says when that is the
  64-bit total.
- `WalletRepository.Repository.CreateBalanceUpdate`: the record is returned; the history table is not modelled.
- Argon2id, HMAC, SHA-256 and random numbers: argon2id is an arbitrary function whose result has the requested
  length.
- Non-ASCII text: characters stand for code points, decoded escapes above 7F for the character of that number, and
  case folding is ASCII.
- `cleanMarkdownDestination` and the reference, wiki and HTML link patterns: only inline destinations are scanned.
- Prompt values under names that JavaScript objects inherit, such as `constructor`; `buildContextText` and
  `estimateTokens`.
- Two processes migrating one database at a time: runs follow one another.
- GitHub, storage, AI and holiday clients, backups, configuration, static files and the user interface.
