# A verified model of the order ledger and its algorithms

The system keeps invoices with orders, receipts that pay orders, payment details
with SWIFT transfers, customers, and rankings over all of them. This project
models its money ledger and the self-contained algorithms around it, and proves
what they keep: money is conserved, cached balances are right, undoing is exact,
paging loses nothing, limits hold under concurrency.

Money is in integer cents and time in integer milliseconds. A transaction is one
atomic step on a map of rows, except in `SwiftCap`, where transactions interleave
step by step. Objects and loops of the source are classes, methods and loops here;
each is proved against a specification, and the properties are proved about that.

| file | what it holds |
|---|---|
| `Basics`, `Sums`, `Sorting` | options, filtering, sums over finite maps, the stable sort |
| `Ledger` | the tables, and transfer, reversal, receipt edit, cleanup and cache update on them |
| `LedgerRuns`, `LedgerHistory`, `LedgerEdits` | what these keep: one step, whole runs, and edits that undo transfers |
| `OrderAlias` | splitting, joining and canonicalizing order numbers |
| `LedgerMerges` | order lookup, transfers to an order number, absorbing orders, balances of invoices |
| `Consolidation`, `GroupKeys`, `ConsolidationPass`, `SecondPass` | merging a group, grouping, a whole pass, and what a second pass still finds |
| `NumberFolding`, `MergedNumbers` | how folding and splitting go together, and what the number of a merged group names |
| `Rematch` | the manual resolution of conflicting orders |
| `InvoiceSave`, `InvoiceRows` | saving an invoice and moving orders out of the system pools; what becomes of one row |
| `RowsApart`, `HiddenNumbers` | saving rows with new numbers: when every number has its own order, and when one is hidden |
| `ReceiptBalance` | the balance shown after each receipt |
| `PaymentTimeline`, `CustomerOrders`, `CycleRanking` | the payment waterfall and the payment cycle ranking |
| `CompletedMonths`, `CapacityRanking` | the calendar window and the payment capacity ranking |
| `CustomerSync` | the incremental two-stream sync |
| `SubsetSum` | finding receipts that add up to an amount |
| `SwiftCap` | SWIFT transfers of a payment detail under concurrency |
| `RateLimit`, `ReceiptNumbers`, `AuditPaging`, `BranchUsers`, `JsonRepair` | smaller algorithms with exact specifications |

Where a promise does not hold as one would state it, the code is modelled as it is
and the exact condition is proved:

- A reversal straight after a transfer fails exactly when the source's amount was
  negative before (`EditUndoesTransfer`, `ReversedAfterTransfer`).
- A generated receipt that has left the status `Bank_Transfer` can be edited. Every
  edit writes a row of history, so its transfer can then no longer be reversed, even
  if the receipt stays on its order; no other transfer is affected
  (`EditKeepsReversible`, and `EditReversible` without its assumptions).
- The guard of a transfer counts receipts still waiting for a signature, so a
  transfer can leave its source owing money (`PendingReceiptCanLeaveDebt`,
  `TransferStaysWithinReceipts`).
- Consolidating is not idempotent: the merged number of a group has another group
  key (`MergedNumberChangesGroup`). A second pass merges nothing exactly when no
  merged number shares its key with another resulting number of the invoice, unless
  all numbers there consist of one same part (`SecondPassIdleExactly`). Orders a-1,
  a-2 and a-1-a-9 are merged twice (`ThreeOrdersMeet`, `SecondPassMergesAgain`).
  Every pass that merges leaves fewer orders.
- Saving complete rows to an invoice fails only when a balance transfer points at a
  pool order that would have to be merged (`SaveRow`, `SaveInvoiceWithOrders`).
- Rows of one save can end up on one order although their numbers differ: of rows with
  new numbers exactly when some number, where it comes first, finds the order of an
  earlier one, by an alias or a segment (`NewRowsApartExactly`). A row renames the order
  it finds, so a number saved before can be lost: after rows x, x/y and y no search
  finds x (`LaterRowsHide`, with a-1 and b-2 as such words in `HidingWords`). A single
  row hides its own number exactly when an order keeps another spelling of it and
  nothing but an alias of that order led there (`RaisedFindableExactly`).
- The sync loses rows exactly when a stream's cursor jumps (`LosesExactly`): on a
  first call without cursors, or for a salesperson behind hidden tombstones, which
  the tables, limit and cursors of the call decide (`CustomersLostExactly`,
  `TombstonesLostExactly`). It repeats rows when the clock has not moved on between
  calls (`MovesBackExactly`, `SameMillisecondRepeats`).
- The subset search is complete exactly for choices whose first parts stay within
  the target; with negative amounts it can miss one (`NegativeAmountMissed`).
- A receipt's deletion looks for its details before it locks them, and leaves a
  detail's total wrong exactly when it removes items elsewhere that do not add up to
  nothing (`DeletionBalancedExactly`, `DeletionCanMiss`).
- Suggestion and allocation of a receipt number agree, or both fail, exactly when the
  suggested counter fits its 32-bit column (`SuggestionIsAllocation`).

## Model

| member | source | states |
|---|---|---|
| `Ledger.LedgerDb.CalculateLiveOrderBalance` | src/lib/order-balance-service.ts:96-103 | the live balance is the amount less all receipts of the order but those waiting for a signature; 0 for a missing order |
| `Ledger.LedgerDb.UpdateOrderBalance` | src/lib/order-balance-service.ts:105-165 | the cached balance becomes the live one and nothing else changes; a repair is reported just when it differed |
| `LedgerMerges.TransferInvoiceBalance` | src/lib/invoice-service.ts:1638-1748 | refused for a blank number, an order the user does not see, or an amount that is not positive or beyond the overpayment, and then nothing changes; otherwise the amount goes to an order the number finds among those the user sees, or to a new pool order |
| `LedgerMerges.NewTargetIsFound` | src/lib/invoice-service.ts:1685-1710 | the order created for an unknown number is an Un_Associated order without an amount, and whoever sees it finds it by exactly this number |
| `Ledger.LedgerDb.CreatePoolOrder` | src/lib/invoice-service.ts:1685-1710 | the target of a transfer to an unknown number is an empty order of the one Un_Associated invoice |
| `Ledger.LedgerDb.InspectReceiptEditTransferImpact` | src/lib/balance-transfer-reversal-service.ts:183-228 | the transfer a re-binding would have to undo: none, exactly one with a sound generated receipt, or a conflict |
| `LedgerHistory.ReverseGoesThrough` | src/lib/balance-transfer-reversal-service.ts:125-181 | over a run, a live transfer passes all checks of a reversal as long as nothing else refers to its generated receipt |
| `Ledger.LedgerDb.CleanupSafeSystemPoolSourceOrder` | src/lib/balance-transfer-reversal-service.ts:230-262 | deletes an order just when it is in a system pool, carries nothing and nothing refers to it |
| `Ledger.LedgerDb.ReverseBalanceTransfer` | src/lib/balance-transfer-reversal-service.ts:264-385 | refuses in the source's order of checks (role, existence, visibility of both orders, receipt, references, amount) without a change, or takes back amount, receipt and transfer and refreshes both orders |
| `Ledger.LedgerDb.ApplyReceiptEdit` | src/lib/receipt-edit-apply-service.ts:63-247 | re-binds the receipt and gives it a row of history; a transfer is undone first just when it is the one confirmed, and without its confirmation the edit is refused; an emptied pool order is cleaned up after; every refusal changes nothing |
| `LedgerRuns.TransferEffect` | src/lib/invoice-service.ts:1712-1748 | a transfer raises only its source's amount, moves balance from target to source, and leaves every cache right |
| `LedgerRuns.ReversalEffect` | src/lib/balance-transfer-reversal-service.ts:308-346 | a reversal takes the same amounts back and leaves every cache right |
| `LedgerRuns.ReversalUndoesTransfer` | src/lib/balance-transfer-reversal-service.ts:308-346 | reversing a transfer gives back the very same tables |
| `LedgerRuns.StepSound` | src/lib/invoice-service.ts:1663-1748 | every transfer and reversal keeps links, caches and the sum of all balances |
| `LedgerHistory.RunKeeps` | src/lib/invoice-service.ts:1663-1748 | over any interleaving of transfers and reversals: caches right, total balance and each order's invoiced amount unchanged |
| `LedgerHistory.NeverNegative` | src/lib/balance-transfer-reversal-service.ts:308-330 | over any run no amount goes negative, and each order holds enough to take back each of its live transfers |
| `LedgerHistory.SameTransfersSameLedger` | src/lib/balance-transfer-reversal-service.ts:308-346 | once the live transfers are those of the start, all amounts and balances are too |
| `LedgerHistory.ReverseAllRestores` | src/lib/balance-transfer-reversal-service.ts:264-385 | reversing all live transfers in any order restores the starting ledger |
| `LedgerEdits.EditCoherent` | src/lib/receipt-edit-apply-service.ts:108-221 | after any receipt edit every cached balance is right |
| `LedgerEdits.EditConfirms` | src/lib/receipt-edit-apply-service.ts:108-127 | an edit that moves a receipt goes through only if the transfers that moved its amount the same way are exactly the confirmed one, or none when nothing is confirmed |
| `LedgerEdits.UnconfirmedIsRefused` | src/lib/receipt-edit-apply-service.ts:114-122 | after a transfer of the receipt's amount the edit asks for the reversal when none is named, and is a conflict when another one is |
| `LedgerEdits.EqualTransfersConflict` | src/lib/balance-transfer-reversal-service.ts:204-210 | with two equal transfers the edit is a conflict, whatever is confirmed |
| `LedgerEdits.StayingUndoesNothing` | src/lib/balance-transfer-reversal-service.ts:187-193 | an edit that moves the receipt between no two orders goes through exactly when no transfer is named |
| `LedgerEdits.EditEffect` | src/lib/receipt-edit-apply-service.ts:128-221 | the receipt is on its new order with a history, only the undone transfer and its generated receipt are gone, and all other rows are what they were |
| `LedgerEdits.GeneratedNotEditable` | src/lib/receipt-edit-apply-service.ts:87-92 | the receipt a transfer has just generated cannot be edited |
| `LedgerEdits.ReversalSucceedsExactly` | src/lib/balance-transfer-reversal-service.ts:125-181 | when a reversal goes through, told by role, visibility, the generated receipt and the source's amount |
| `LedgerEdits.EmptiedExactly` | src/lib/balance-transfer-reversal-service.ts:230-262 | moving a receipt away with cleanup removes the order it leaves exactly when that is a pool order without an amount and nothing else refers to it |
| `LedgerEdits.ImpactIsTransfer` | src/lib/balance-transfer-reversal-service.ts:183-228 | after a transfer of a receipt's amount, re-binding that receipt is recognized as undoing it |
| `LedgerEdits.ReversedAfterTransfer` | src/lib/balance-transfer-reversal-service.ts:264-346 | a reversal after a transfer restores the tables exactly when the source's amount was not negative, and is a conflict otherwise |
| `LedgerEdits.EditUndoesTransfer` | src/lib/receipt-edit-apply-service.ts:108-221 | transferring an amount and then re-binding a receipt of that amount with the reversal confirmed equals re-binding directly, up to an emptied pool order |
| `LedgerEdits.EditReversible` | src/lib/balance-transfer-reversal-service.ts:160-181 | after an edit a transfer can be reversed exactly when it could before, the edited receipt is not its own, and its source still holds enough |
| `LedgerEdits.EditKeepsReversible` | src/lib/receipt-edit-apply-service.ts:140-157 | an edit leaves all remaining transfers reversible exactly when it does not edit a generated receipt, moved or not |
| `LedgerEdits.TransferAllowedExactly` | src/lib/invoice-service.ts:1663-1675 | a transfer is allowed exactly for a positive amount of at most what the source is overpaid by, pending receipts counted in |
| `LedgerEdits.TransferStaysWithinReceipts` | src/lib/invoice-service.ts:1663-1675 | a transfer never lifts the amount above all receipts; it leaves debt exactly when it exceeds the live overpayment, and to the order itself it leaves the balance as it was |
| `LedgerEdits.PendingReceiptCanLeaveDebt` | src/lib/invoice-service.ts:1663-1675 | one receipt waiting for its signature is enough to leave debt |
| `OrderAlias.CanonicalizeOrderNo` | src/lib/order-alias.ts:28-47 | the loop computes the canonical number: first spelling of each folded segment, sorted and joined |
| `OrderAlias.SplitPartOfWords` | src/lib/order-alias.ts:13-26 | a part of several words is split exactly when two look like orders, into exactly those that do; else it stays in one piece |
| `OrderAlias.SplitCanonical` | src/lib/order-alias.ts:13-47 | splitting a canonical number gives back its segments |
| `OrderAlias.CanonicalKeepsSegments` | src/lib/order-alias.ts:13-47 | a canonical number has exactly the folded segments of the number |
| `OrderAlias.CanonicalIdempotent` | src/lib/order-alias.ts:28-47 | canonicalizing twice is canonicalizing once |
| `OrderAlias.CanonicalIgnoresOrder` | src/lib/order-alias.ts:28-47 | numbers with the same segments in any order have the same canonical segments when no two tie |
| `OrderAlias.DistinctKeys` | src/lib/order-name-kernel.ts:28-40 | de-duplication keeps exactly the set of folded segments, in spellings that occur |
| `OrderAlias.SegmentIsCandidate` | src/lib/order-name-kernel.ts:42-73 | a lookup for one segment tries that segment's alias |
| `LedgerMerges.FindOrderId` | src/lib/order-alias-db.ts:39-104 | the staged lookup finds a match exactly when there is one in scope; it prefers a match by number to one by alias, and that to one by segment |
| `LedgerMerges.WordMatchesExactly` | src/lib/order-alias-db.ts:39-104 | a search for a single folded word finds the orders that have it as number or alias, or as a segment of a number that contains the word as it is spelled |
| `LedgerMerges.SegmentSearchFinds` | src/lib/order-alias-db.ts:39-80 | once the aliases of an order are synced, a search for any segment of its composite number finds an order |
| `LedgerMerges.SyncKeepsAliases` | src/lib/order-alias-db.ts:148-162 | afterwards the known aliases are those of the number and those of other orders, each with the order that had it; other aliases of the order are gone |
| `Consolidation.MergeBucket` | src/lib/order-alias-db.ts:222-317 | a group is skipped, or refused without a change exactly when its number is taken or a transfer points at a row that would go, or becomes exactly the merged tables |
| `Consolidation.MergeConserves` | src/lib/order-alias-db.ts:208-317 | a merge keeps each invoice's total amount and the total balance, with a new or a reused composite order, and leaves every cache right |
| `Consolidation.MergeRows` | src/lib/order-alias-db.ts:208-317 | the rows of a merged group become one row with their whole amount |
| `Consolidation.MergeReceipts` | src/lib/order-alias-db.ts:208-317 | receipts of the merged rows are on the one row, all others stay |
| `Consolidation.MergeKeepsInvoices` | src/lib/order-alias-db.ts:208-317 | no receipt leaves its invoice, and each invoice keeps its balance |
| `Consolidation.MergeAliases` | src/lib/order-alias-db.ts:300-315 | after a merge the row has the inherited aliases but those an order outside the group holds, and all aliases outside are what they were |
| `MergedNumbers.MergedNumberSegments` | src/lib/order-alias-db.ts:222-255 | the number of a merged group, new or renamed, names exactly the segments that the numbers of all its rows named |
| `MergedNumbers.MergedNumberIsCanonical` | src/lib/order-alias-db.ts:226-239 | it folds to a canonical number: every segment once, in order |
| `GroupKeys.GroupOrders` | src/lib/order-alias-db.ts:208-220 | orders are grouped by invoice and group key, each in one group |
| `GroupKeys.SameGroupExactly` | src/lib/order-group.ts:1-15 | two numbers of several words have one group key exactly when they differ in nothing but the last word |
| `GroupKeys.TokensIgnoreCase` | src/lib/order-group.ts:1-9 | letter case does not matter for the words of a number, and so for its group key |
| `ConsolidationPass.BucketMerged` | src/lib/order-alias-db.ts:243-317 | one merged group keeps everything of value and becomes one row with the whole amount, all receipts, a number that names the segments of all rows, and their aliases; nothing else changes and no alias is lost |
| `ConsolidationPass.ConsolidateGroupedOrders` | src/lib/order-alias-db.ts:168-326 | every group that calls for it becomes one row that goes by all names of the group, and every other order stays; a pass ends early exactly at a group that is refused; it keeps per invoice amounts, receipts and balances, counts its merges, and each leaves fewer orders, so repeated passes end |
| `GroupKeys.MergedNumberChangesGroup` | src/lib/order-group.ts:11-15 | the merged number of a group has another group key |
| `SecondPass.SkippedExactly` | src/lib/order-alias-db.ts:222-237 | a group is skipped exactly when its numbers fold to one, or consist of one same part |
| `SecondPass.SecondPassIdleExactly` | src/lib/order-alias-db.ts:168-326 | told by the orders before the first pass: the second merges nothing exactly when no merged number meets another resulting number of its invoice in a group that is not skipped |
| `SecondPass.PairIsNotRefused` | src/lib/order-alias-db.ts:243-317 | for two orders of one group and a third that the merged number meets, the first pass goes through |
| `SecondPass.SecondPassMergesAgain` | src/lib/order-alias-db.ts:168-326 | after any whole first pass over such orders a second pass has something to merge |
| `SecondPass.ThreeOrdersMeet` | src/lib/order-group.ts:11-15 | orders a-1, a-2 and a-1-a-9 of one invoice are such orders |
| `Rematch.ApplyRematchConflict` | src/lib/invoice-service.ts:890-949 | one resolution gives exactly the rematched tables, or nothing exactly when a source order is still referred to |
| `Rematch.RematchConserves` | src/lib/invoice-service.ts:917-946 | merging keeps the total balance, keeping one order drops exactly the others' amounts; receipts and caches are right either way |
| `Rematch.RematchGathers` | src/lib/invoice-service.ts:917-946 | the receipts of the other orders are on the chosen one, which has its own amount and in merge mode theirs; all other orders stay |
| `InvoiceSave.SaveElsewhere` | src/lib/invoice-write.ts:183-235 | when neither the invoice nor a pool has the number, the wide search never leads to a pool order: the formal order it finds is raised, or an order is created |
| `InvoiceSave.ApplyVerifiedSystemPoolMove` | src/lib/invoice-system-pool-reconciliation.ts:105-186 | a pool order is moved to the invoice with the new amount, or merged into the target, which fails exactly when a transfer points at it |
| `InvoiceSave.MigrateSystemPoolOrder` | src/lib/invoice-system-pool-reconciliation.ts:279-312 | a pool order with the number is migrated whenever there is one; the formal total gains its new amount, or nothing when it is merged; it fails only for a merge of a pool order a transfer points at |
| `InvoiceSave.SaveRow` | src/lib/invoice-write.ts:125-235 | the tables after each of the five branches, and which branch is taken; the formal total rises by exactly the amount; a row fails only when the invoice and a pool have the number and a transfer points at the pool order |
| `InvoiceRows.BookedRow` | src/lib/invoice-write.ts:125-235 | told by the books before and after: the row goes to a match in the invoice, else in a pool, else anywhere, else to a new order; that order gets exactly the amount and the number; only a pool order may go, and its receipts follow |
| `InvoiceRows.RaisedFindableExactly` | src/lib/invoice-write.ts:135-160 | when the number of a row that raised an order is found afterwards |
| `InvoiceSave.SaveInvoiceWithOrders` | src/lib/invoice-write.ts:83-255 | a bad request exactly for a blank number, no rows or an incomplete row; otherwise every row is booked in turn with its own number and amount, from the start to the end of the tables, and the formal total rises by exactly the sum of the rows, or nothing changes; complete rows are always saved while no transfer points at a pool order |
| `RowsApart.SavedRowsAreNew` | src/lib/invoice-write.ts:125-235 | a save of rows whose numbers no order had is such a run of new numbers |
| `RowsApart.NewNumbersBooked` | src/lib/invoice-write.ts:125-235 | of rows with new, unrelated numbers every number has an order of its own in the invoice with exactly the sum of its rows; the orders there were are what they were |
| `RowsApart.NewNumbersFound` | src/lib/invoice-write.ts:125-235 | every such number is found in the invoice and leads to its own order |
| `RowsApart.NewRowsApartExactly` | src/lib/order-alias-db.ts:39-104 | rows with new numbers share orders exactly by their numbers, if and only if no number, where it comes first, meets an earlier one |
| `HiddenNumbers.LaterRowsHide` | src/lib/invoice-write.ts:135-160 | rows x, x/y and y with new numbers end on one order, and a search for x finds nothing |
| `HiddenNumbers.HidingWords` | src/lib/order-alias.ts:13-26 | a-1 and b-2 are such words |
| `ReceiptBalance.GroupByOrder` | src/lib/receipt-balance.ts:11-22 | every counted receipt is listed under its order, in reading order |
| `ReceiptBalance.BuildReceiptBalanceAfterMap` | src/lib/receipt-balance.ts:11-49 | one entry a receipt: the amount less all receipts up to it, or none |
| `ReceiptBalance.LastEntryIsLiveBalance` | src/lib/receipt-balance.ts:23-43 | the entry of the last receipt is the fold over the order's receipts |
| `ReceiptBalance.FoldIsLive` | src/lib/order-balance.ts:29-37 | that fold over the ledger's receipts is the ledger's live balance |
| `ReceiptBalance.LastEntryIsCachedBalance` | src/lib/receipt-balance.ts:23-43 | where caches are right the entry of the last receipt is the order's cached balance |
| `ReceiptBalance.BalanceIgnoresReadingOrder` | src/lib/receipt-balance.ts:23-43 | the entries do not depend on the order of reading |
| `PaymentTimeline.CalculateOrderPaymentTimeline` | src/lib/customer-analytics.ts:392-430 | the dollar-days of the waterfall are the area under the outstanding curve; paid and outstanding make the amount |
| `PaymentTimeline.AverageWithinAge` | src/lib/customer-analytics.ts:419-429 | the average lies between 0 and the age |
| `PaymentTimeline.PayingEarlierNeverRaises` | src/lib/customer-analytics.ts:386-430 | moving one payment earlier never raises the dollar-days, though payments are sorted again |
| `CustomerOrders.SightedWhenFirst` | src/lib/customer-analytics.ts:367-369 | a receipt is looked at just when it is the first with its id |
| `CycleRanking.NormalizeCyclePayments` | src/lib/customer-analytics.ts:360-390 | the payments are the first sightings that count, sorted; all ids become seen |
| `CycleRanking.VisitOrder` | src/lib/customer-analytics.ts:477-514 | an order is listed, within terms or dropped by what is outstanding, its age and its release |
| `CycleRanking.VisitsJudgeByDays` | src/lib/customer-analytics.ts:477-514 | every order that takes part is visited once, in order; an unpaid one is within terms up to its last normal day and listed from the next, a paid one is listed when released in the window |
| `CycleRanking.CalculatePaymentCycleRanking` | src/lib/customer-analytics.ts:432-569 | a customer is ranked just when an order is listed; the row's sums are those of its lines |
| `CycleRanking.AverageLiesBetween` | src/lib/customer-analytics.ts:516-545 | a customer's average lies between the averages of two of its listed orders |
| `CycleRanking.ListedIsPaidOrOverdue` | src/lib/customer-analytics.ts:498-503 | what is listed is paid or overdue |
| `CycleRanking.PaymentsAreNotShared` | src/lib/customer-analytics.ts:367-369 | no receipt is allocated to two orders |
| `CompletedMonths.GetCompletedMonthWindow` | src/lib/customer-analytics.ts:94-101 | the window starts that many months before the first of the current month and ends there; an error just below one month |
| `CompletedMonths.BuildMonthKeys` | src/lib/customer-analytics.ts:84-92 | the keys are the consecutive months of the window |
| `CompletedMonths.WindowIsItsMonths` | src/lib/customer-analytics.ts:80-101 | an instant lies in the window just when its month is one of the keys |
| `CompletedMonths.MonthIsUnique` | src/lib/customer-analytics.ts:46-49 | every day lies in exactly one month |
| `CompletedMonths.YearStartsAt` | src/lib/customer-analytics.ts:80-101 | the calendar behind the window: every year starts on the day the closed Gregorian formula gives |
| `CapacityRanking.AddReceipts` | src/lib/customer-analytics.ts:282-322 | each receipt id is looked at once and counted in the bucket of its month; the missing-bucket branch is dead |
| `CapacityRanking.CalculatePaymentCapacityRanking` | src/lib/customer-analytics.ts:256-339 | each customer's total and buckets hold exactly the counted receipts |
| `CapacityRanking.TotalIsSumOfMonths` | src/lib/customer-analytics.ts:310-321 | a customer's total is the sum of its months |
| `CapacityRanking.ReceiptsCountOnce` | src/lib/customer-analytics.ts:285-287 | no receipt is counted twice across orders and customers |
| `CapacityRanking.EntriesExactly` | src/lib/customer-analytics.ts:280-313 | a receipt counts for a customer just when the first order that shows it is the customer's and it is usable inside the window |
| `CustomerSync.LosesExactly` | src/lib/customer-sync-service.ts:216-230 | a stream loses a row exactly when its cursor jumps over one: nothing selected, and nothing exposed fetched or no cursor |
| `CustomerSync.CustomersLostExactly` | src/lib/customer-sync-service.ts:208-230 | told by tables, limit and cursors: a customer is lost exactly without a cursor for customers when exposed tombstones older than the first customer fill the page |
| `CustomerSync.TombstonesLostExactly` | src/lib/customer-sync-service.ts:208-267 | a tombstone is lost exactly when all that were taken are hidden, or without a cursor when customers fill the page before the first one |
| `CustomerSync.MovesBackExactly` | src/lib/customer-sync-service.ts:224-229 | a cursor moves back exactly when its stream is empty and the watermark is behind it |
| `CustomerSync.SelectsPrefix` | src/lib/customer-sync-service.ts:208-214 | sorting and cutting a page keeps a first part of each stream; a page is full or takes all |
| `CustomerSync.PageIsInOrder` | src/lib/customer-sync-service.ts:208-214 | a page is in order of time, customers before tombstones, then by id |
| `CustomerSync.FollowIsFaithful` | src/lib/customer-sync-service.ts:135-151 | following the cursors delivers both streams in order, nothing twice and nothing passed over, whatever changes between the calls |
| `CustomerSync.DrainedIsComplete` | src/lib/customer-sync-service.ts:216-290 | once there is no more, every change and tombstone up to the watermark has been delivered once |
| `CustomerSync.MoreMakesProgress` | src/lib/customer-sync-service.ts:273-282 | a page with more to come is full and shrinks the backlog by the limit, so the walk ends |
| `CustomerSync.EmptySinceLoses` | src/lib/customer-sync-service.ts:228-229 | a first call without cursors can lose a customer it has fetched |
| `CustomerSync.SalesLoses` | src/lib/customer-sync-service.ts:259-267 | hidden tombstones can make a salesperson lose one |
| `CustomerSync.SameMillisecondRepeats` | src/lib/customer-sync-service.ts:224-229 | when a second call in the same millisecond finds nothing new, every row of that millisecond is asked for again |
| `SubsetSum.FindSubsetSum` | src/lib/matching.ts:221-253 | the answer names a choice of distinct candidates in order that adds up to the target, and there is one just when a choice reaches it within the target |
| `SubsetSum.ReachableStep` | src/lib/matching.ts:238-249 | what one more candidate makes reachable |
| `SubsetSum.CompleteForNonNegative` | src/lib/matching.ts:221-253 | for amounts that are not negative no choice is missed |
| `SubsetSum.NegativeAmountMissed` | src/lib/matching.ts:242 | with a negative amount one can be missed |
| `SwiftCap.StepSafe` | src/lib/swift-service.ts:25-67 | every step of every transaction keeps what was read under a lock current, the cap and the status |
| `SwiftCap.NewSwiftsCapped` | src/lib/swift-service.ts:25-33 | what each kind of work writes stays within the total |
| `SwiftCap.LocatesExactly` | src/lib/swift-service.ts:35-42 | which details a transaction locks: the one named, the one that has the SWIFT, or those with an item of the receipt |
| `SwiftCap.CreateGoesThroughExactly` | src/lib/swift-service.ts:82-90 | a create commits exactly for a new id, an open detail and a positive amount within what is left |
| `SwiftCap.CreateEffect` | src/lib/swift-service.ts:91-98 | the SWIFT is there with its amount, under transfer; the detail's sum rises by the amount and every other SWIFT stays |
| `SwiftCap.UpdateGoesThroughExactly` | src/lib/swift-service.ts:53-57 | an update commits exactly for a SWIFT not received in an open detail, with a positive amount that fits besides the others |
| `SwiftCap.UpdateEffect` | src/lib/swift-service.ts:58-64 | the SWIFT has the new amount, under transfer and without an error; the others still count |
| `SwiftCap.ReceiveEffect` | src/lib/swift-service.ts:137-145 | a SWIFT is received exactly while under transfer without an error; only its status changes |
| `SwiftCap.DeleteEffect` | src/lib/swift-service.ts:157-165 | a deletion removes exactly its SWIFT and what it counted for |
| `SwiftCap.EditEffect` | src/lib/detail-service.ts:245-342 | an edit commits exactly when its items cover what is transferred in an open detail; then they are the items and their sum the total |
| `SwiftCap.ReceiptDeletionEffect` | src/lib/deletion-service.ts:154-219 | a receipt's deletion commits exactly when the items left cover what is transferred in every detail read; its items are gone everywhere and the details read get the sum of what they had then |
| `SwiftCap.TransferredIsAllChanges` | src/lib/swift-service.ts:25-171 | over any interleaving what is transferred for a detail is what was at the start and the changes of all commits |
| `SwiftCap.NeverOverpaid` | src/lib/swift-service.ts:69-171 | under every interleaving the SWIFTs without an error never exceed the total, and the status is the one they call for; what each commit writes is stated by the rows above |
| `SwiftCap.StatusMeans` | src/lib/swift-transfer-summary.ts:9-36 | at any moment of any run: a detail waits while more than the fees are open or no SWIFT counts, is under transfer while a counted one is, and is received when all are |
| `SwiftCap.TotalIsSumOfItems` | src/lib/detail-service.ts:245-342 | as long as no deletion misses an item every total is the sum of its items |
| `SwiftCap.DeletionBalancedExactly` | src/lib/deletion-service.ts:154-219 | a receipt's deletion keeps totals right exactly when what it removes outside the details it locked adds up to nothing |
| `SwiftCap.DeletionCanMiss` | src/lib/deletion-service.ts:164-171 | a run in which an item added after the search for details is missed |
| `SwiftCap.NoDeadlock` | src/lib/deletion-service.ts:168-171 | waiting for detail locks, taken in ascending order, never closes a circle |
| `RateLimit.Limiter.SweepExpiredRateLimitKeys` | src/lib/rate-limit.ts:59-72 | sweeping keeps the store consistent with the full history; a due sweep leaves nothing expired |
| `RateLimit.Limiter.EnforceRateLimit` | src/lib/rate-limit.ts:99-134 | every decision is that of a limiter that forgets nothing, and only admitted requests enter the history |
| `RateLimit.AdmittedKeepsSpacing` | src/lib/rate-limit.ts:113-133 | requests `max` places apart stay a window apart |
| `RateLimit.RefusedExactly` | src/lib/rate-limit.ts:113-128 | a request is refused exactly when the latest `max` admitted ones all lie in the window, and told to wait until the earliest of these has left it |
| `RateLimit.WindowHoldsAtMostMax` | src/lib/rate-limit.ts:99-134 | any interval as long as the window holds at most `max` admitted requests |
| `RateLimit.RetryAfterIsExact` | src/lib/rate-limit.ts:116-128 | with no other traffic a later request is admitted exactly when the given time has passed |
| `ReceiptNumbers.ParseOfFormat` | src/lib/receipt-number.ts:8-18 | parsing a formatted counter gives the counter back |
| `ReceiptNumbers.FormatHasSevenDigits` | src/lib/receipt-number.ts:8-10 | a counter below ten million is written with seven digits that denote it |
| `ReceiptNumbers.FirstFreeExactly` | src/lib/receipt-number.ts:60-80 | the number found is the first free one within the attempts |
| `ReceiptNumbers.SuggestionIsAllocation` | src/lib/receipt-number.ts:60-132 | suggestion and allocation give the same number, or both fail, exactly when the suggested counter fits the column |
| `ReceiptNumbers.LeastIsReserved` | src/lib/receipt-number.ts:82-132 | the loop of reservations succeeds exactly when one of the next hundred counters that fit has a free number, and then gives out the least |
| `ReceiptNumbers.Allocator.BumpCounterPast` | src/lib/receipt-number.ts:34-50 | the counter moves past a requested number, never back |
| `ReceiptNumbers.Allocator.ReserveNextReceiptCounter` | src/lib/receipt-number.ts:82-99 | reserves the next counter and moves on by one, or fails at the end of the column |
| `ReceiptNumbers.Allocator.GetSuggestedNextReceiptNo` | src/lib/receipt-number.ts:60-80 | the suggestion is the first free number and changes nothing |
| `ReceiptNumbers.Allocator.AllocateAutomatically` | src/lib/receipt-number.ts:118-132 | an automatic number was never given out before; a failure changes nothing |
| `ReceiptNumbers.Allocator.AllocateRequested` | src/lib/receipt-number.ts:105-116 | a requested number is given out in normal form just when it is a free positive number that fits |
| `ReceiptNumbers.Allocator.AllocateNextReceiptNo` | src/lib/receipt-number.ts:101-132 | a blank request succeeds exactly when one of the next hundred counters that fit has a free number, and gets the least; any other exactly when its digits denote a free positive counter that fits, and gets that one; the number is remembered as issued |
| `AuditPaging.CollectSystemSettingsAuditRows` | src/lib/settings-read-service.ts:299-366 | the batches bring a first part of the filtered log, long enough or complete, whatever their size |
| `AuditPaging.ListSystemSettingsAuditLogs` | src/lib/settings-read-service.ts:453-500 | a page is the next `limit` rows of the filtered log, with a cursor just when there is more |
| `AuditPaging.NextPageGoesOn` | src/lib/settings-read-service.ts:473-499 | after a full page the filtered log goes on just where the page ended |
| `AuditPaging.PagesMakeTheLog` | src/lib/settings-read-service.ts:453-500 | following the cursors gives exactly the filtered log, also while newer rows are logged |
| `BranchUsers.GroupByParent` | src/lib/settings-write-service.ts:64-69 | the map lists each parent's children |
| `BranchUsers.GetBranchUserIds` | src/lib/settings-write-service.ts:60-83 | the result is exactly the users below the root, each once, also when links form a cycle |
| `JsonRepair.SanitizeUnescapedInnerQuotes` | src/lib/ocr.ts:386-439 | the scanner computes the repair |
| `JsonRepair.ChangesLittle` | src/lib/ocr.ts:386-439 | only control characters and quotes change, each in its place |
| `JsonRepair.UnchangedExactly` | src/lib/ocr.ts:415-433 | a text is left as it is exactly when there is nothing to repair |
| `JsonRepair.RepairIsClean` | src/lib/ocr.ts:415-433 | afterwards no raw control character is inside a string but directly after a backslash, and every quote ends its string |
| `JsonRepair.RepairIsIdempotent` | src/lib/ocr.ts:386-439 | repairing twice is repairing once |
| `JsonRepair.InnerQuoteBeforeComma` | src/lib/ocr.ts:424-426 | a stray quote before a comma is taken for the end of its string and stays |
| `JsonRepair.JsonTextUnchanged` | src/lib/ocr.ts:386-439 | every JSON text (RFC 8259, sections 2 to 7) is left as it is |

## Left out

- The import of invoice rows, adding and updating single orders, and the matching of receipts to detail items: lookups and row copying, no new invariant.
- Wrapping text into columns, the dashboard layout and the dashboard's outstanding snapshot: they would only add easy members.
- The annual ranking, risk bands, quality counters, display fields and the final sorting of rankings; ids stand for their place in a collation.
- Rounding of decimals and of averages: money is exact in cents, averages are compared crosswise.
- The reconciliation of touched orders after a save and the receipt generator's deposit order: both leave a cached balance stale on purpose, so coherence is not claimed for them.
- Pool repairs run as a batch: the verified move each of them makes is modelled.
- Reads made before a transaction starts (the transfer's guard and target lookup, the orders a consolidation lists) are taken in the same atomic step as its writes.
- LedgerMerges.TransferInvoiceBalance: takes fresh row ids as parameters. The generated receipt's number and its uniqueness are not modelled.
- Ledger.LedgerDb.ApplyReceiptEdit: the order the edit resolves to is a parameter; the receipt's other fields and its detail items are not modelled, and of its history only that there is some.
- ConsolidationPass.ConsolidateGroupedOrders: takes the listed orders and fresh ids as parameters; a merge is refused by the schema's unique number and foreign keys, which are modelled. The counters of merged orders, created groups and aliases are left out.
- SecondPass.SecondPassIdleExactly: the second pass lists the orders the first left of its own, in any order; other changes between the two passes are not modelled.
- Roles and protected references of receipts are flags; which orders a user sees is an arbitrary predicate.
- Case folding and collation are an abstract locale; comparing texts in the database is exact equality, and surrogate pairs are one character.
- MergedNumbers.MergedNumberSegments: for a locale that folds character by character and leaves white space, slashes and dashes alone; without that a folded number may split elsewhere.
- RowsApart.NewRowsApartExactly: for rows whose numbers no order had before the save; which of several older orders a row finds is left to the database, and `InvoiceRows.BookedRow` holds for any.
- CustomerSync.FollowIsFaithful: for an administrator with both cursors set, not after the first watermark, and a clock that moves on between calls; the counterexamples show why. Both orders of ids, the database's and the program's, are taken to be the same.
- SwiftCap.NeverOverpaid: locks on other rows, deletion of whole details, purging and the status of receipts are not modelled; the fee setting stays fixed, and the SWIFTs that count are taken to be positive and within the total at the start.
- RateLimit.Limiter.EnforceRateLimit: settings are fixed per key and the clock does not go back.
- ReceiptNumbers.Allocator.AllocateNextReceiptNo: allocations do not run concurrently.
- AuditPaging.ListSystemSettingsAuditLogs: the limit is a positive whole number, and rows are not deleted between pages.
- CompletedMonths.GetCompletedMonthWindow: instants are unbounded, years before 100 are not special, and the formatted key of a month is its number.
- JsonRepair.SanitizeUnescapedInnerQuotes: finding the braces of the object and parsing it are not modelled.
- Cursor encoding, sessions, file uploads, notifications, audit records, image recognition and everything on screen.
