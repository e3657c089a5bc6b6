# Order lifecycle of the material-requisition picking panel, in Dafny

This project models the panel that warehouse staff use for consumables requisitions.
An extracted requisition becomes an order in the **queue** (status `picking`).
An operator promotes it to the picking screen and ticks items into a **ledger** of picked item numbers.
The operator then finishes the order as `completed` or `canceled`, and it moves to the **history**.
A completed order with missing items can be reopened ("continue picking").
Any history order can be canceled by hand.
A report screen summarises the history, and a team screen maintains the list of separators and confirmers.

The order store is either a remote database (the "configured" case) or the in-memory lists themselves (the local fallback).
With a remote store, every handler writes to the store and then re-reads it, splitting the orders into history and queue by status.
Without one, the handlers edit the two lists directly.
Both paths are modelled.

Modules, following the program's files:

- `Types` holds the records: items, orders, team members, the extracted draft.
- `ItemOrder` is the location-sorted copy of the items shown on every screen.
- `Picking` is the picking screen, a class holding the ledger.
- `HistoryDetail` is the read-only detail view of a finished order.
- `Lifecycle` holds the value-level rules behind the application's handlers: partition, ingestion, finishing, canceling, reopening.
- `App` is the application state, a class with one method per handler.
- `Backend` is the database adapter: row mapping, payloads, and an in-memory stand-in for the remote tables.
- `UserAdmin` is the team screen.
- `Analytics` is the report screen.

Proved properties include the following:

- The history/queue split is exact.
- Every local edit keeps history finished-only and the queue picking-only; every re-read restores the split, including after importing a duplicate as new.
- Ingestion gives exactly one of three outcomes, decided by history first and then the queue.
- Finishing replaces only the entry of the same (orderId, timestamp) instance.
- Toggling an item twice restores the ledger.
- Progress reads 100 exactly when every item is picked, for a ledger that names only the order's own item numbers (see "## Findings" for how the open screen can break that).
- A created order reads back as created, and leaves every other stored order unchanged. An updated instance reads back with the new fields, and every other instance reads back unchanged.
- Report figures and row status agree with the detail view.

Two behaviours of the code are worth knowing, and both are stated as lemmas:

- Finishing removes from the queue **every** entry with that `orderId`, whatever its timestamp (`Lifecycle.FinishDropsSiblingInstances`). The source's own comment there says the removal concerns the finished order.
- The remote update leaves out absent fields. So canceling a history order in the remote store keeps its old `completion_status`, while the local path clears it (`App.RemoteCancelKeepsStoredClassification`). Every reader still shows the order as canceled.

## Model

| member | source | states |
|---|---|---|
| Types.PickedOrEmpty | types.ts:18 | A missing picked list reads as the empty list; a present one as itself. |
| Types.ItemNos | types.ts:1-8 | The set of item numbers is exactly the `itemNo` of some item of the order. |
| ItemOrder.LocLeqTotal | components/OrderDashboard.tsx:33-35 | The location comparison is total, so every pair of items can be ordered. |
| ItemOrder.Insert | components/OrderDashboard.tsx:33-35 | Inserting one item adds exactly that item, one entry longer, with the item or the old first entry in front. |
| ItemOrder.InsertKeepsSorted | components/OrderDashboard.tsx:33-35 | Inserting into a location-sorted list keeps it sorted. |
| ItemOrder.SortByLocation | components/OrderDashboard.tsx:33-35 | The displayed copy is a permutation of the order's items and is sorted by location. |
| ItemOrder.SortedCopyHasSameItemNos | components/HistoryOrderDetail.tsx:22-24 | The sorted copy shows exactly the order's item numbers. |
| Picking.Distinct | components/OrderDashboard.tsx:14 | `new Set(list)` as a sequence: no repeats, the same members, and unchanged when the list had no repeats. |
| Picking.SeedLedger | components/OrderDashboard.tsx:14 | The screen's ledger starts from the order's persisted picks, with no repeats, and is empty when none are stored. |
| Picking.Without | components/OrderDashboard.tsx:19-20 | Deleting removes just that item number, keeps the others, keeps "no repeats" and shortens the ledger by one when the item was present. |
| Picking.Toggled | components/OrderDashboard.tsx:16-26 | A toggle flips membership of that item number only, adding or removing exactly one entry. |
| Picking.WithoutAppended | components/OrderDashboard.tsx:16-26 | Deleting an item number just appended gives back the previous ledger. |
| Picking.ToggleTwice | components/OrderDashboard.tsx:16-26 | Toggling twice restores the picked set, and restores the ledger itself when the item was not picked. |
| Picking.Progress | components/OrderDashboard.tsx:28-31 | Progress is non-negative, and 100 for an order without items. |
| Picking.ProgressFull | components/OrderDashboard.tsx:28-31 | Progress is 100 iff the order has no items or as many picks as items; it never exceeds 100 while picks do not exceed items. |
| Picking.DistinctSeqCard | components/OrderDashboard.tsx:59 | The size of a ledger with no repeats is its length, so the displayed count is the set's size. |
| Picking.UniqueItemNosCard | types.ts:1-8 | An order whose item numbers are distinct has as many item numbers as items. |
| Picking.AllPickedMeansEveryItem | components/OrderDashboard.tsx:37 | For a ledger of the order's own distinct item numbers, "all items picked" holds iff every item of the order is in the ledger. |
| Picking.ItemNosCardBound | types.ts:1-8 | An order has no more distinct item numbers than items. |
| Picking.ContainedProgressAtMostFull | components/OrderDashboard.tsx:28-31 | A repeat-free ledger of the order's own item numbers is no longer than the item list, so progress never passes 100. |
| Picking.StaleLedgerOvershoots | components/OrderDashboard.tsx:14-31 | A ledger with two items ticked on one order, kept over an order with a single other item, names item numbers that order lacks, and its progress reads 200. |
| Picking.PickingSession.constructor | components/OrderDashboard.tsx:14 | Opening the screen seeds the ledger from the order's persisted picks. |
| Picking.PickingSession.ShowOrder | App.tsx:480-481 | Showing another order on the open screen replaces the order and keeps the ledger exactly as it was. |
| Picking.PickingSession.Remount | components/OrderDashboard.tsx:14 | Opening the screen afresh seeds the ledger from the new order. When that order's stored picks are its own item numbers, so is the ledger, and progress stays within 100. |
| Picking.PickingSession.TogglePicked | components/OrderDashboard.tsx:16-26 | The new ledger is the toggle of the old one, and it keeps holding only the order's item numbers. |
| Picking.PickingSession.CurrentProgress | components/OrderDashboard.tsx:28-31 | The bar shows the progress of the ledger's size over the item count. |
| Picking.PickingSession.AllItemsPicked | components/OrderDashboard.tsx:37 | The "all picked" title shows iff there are no items or the ledger is as long as the item list. |
| Picking.PickingSession.SortedItems | components/OrderDashboard.tsx:33-35 | The cards are the order's items, sorted by location. |
| Picking.PickingSession.Finish | components/OrderDashboard.tsx:64-78 | Both buttons pass on the chosen status and the current ledger unchanged, with no repeats, whatever the progress. |
| HistoryDetail.PickedSet | components/HistoryOrderDetail.tsx:15 | The marked set is exactly the persisted picks; it is empty when none are stored. |
| HistoryDetail.HistoryProgress | components/HistoryOrderDetail.tsx:17-20 | The progress is 100 iff the order has no items or its distinct picks number as many as its items. |
| HistoryDetail.StatusBadge | components/HistoryOrderDetail.tsx:35-51 | Complete iff completed with "complete"; incomplete iff completed otherwise; canceled iff not completed. |
| HistoryDetail.CanContinuePicking | components/HistoryOrderDetail.tsx:111-119 | Reopening is offered iff the order is completed and incomplete, so only under the incomplete badge. |
| HistoryDetail.ShownCancellationReason | components/HistoryOrderDetail.tsx:64-69 | The reason panel shows iff the order is canceled with a non-empty reason, and it shows that reason. |
| HistoryDetail.DetailItems | components/HistoryOrderDetail.tsx:22-24 | The cards are the order's items, sorted by location. |
| HistoryDetail.CardIsPicked | components/HistoryOrderDetail.tsx:130-137 | A card is marked iff its item number is among the persisted picks. |
| HistoryDetail.HistoryProgressMatchesPicking | components/HistoryOrderDetail.tsx:15-20 | The detail's progress equals the picking screen's progress for the ledger seeded from the same order. |
| Lifecycle.HistoryOf | App.tsx:99 | History is exactly the fetched orders that are completed or canceled. |
| Lifecycle.QueueOf | App.tsx:100 | The queue is exactly the fetched orders in picking. |
| Lifecycle.PartitionIsExact | App.tsx:99-100 | Every fetched order lands in exactly one of the two lists, with multiplicity. |
| Lifecycle.HistoryOfAppend | App.tsx:99 | Splitting two runs of orders one after the other gives their histories one after the other. |
| Lifecycle.QueueOfAppend | App.tsx:100 | Splitting two runs of orders one after the other gives their queues one after the other. |
| Lifecycle.FetchedIsPartitioned | App.tsx:117-125 | After a re-read, history holds only finished orders, the queue only picking ones, and each fetched order is in exactly one. |
| Lifecycle.FindByOrderId | App.tsx:143-144 | The lookup finds the first order with that orderId, and finds nothing iff none has it. |
| Lifecycle.NewOrder | App.tsx:156 | A new order carries the draft's id, requester, sector and items and is in picking at the given time. It has no picks, completion time, classification, names or cancellation reason. |
| Lifecycle.ClassifyIngestion | App.tsx:143-167 | Duplicate iff the orderId is in history; already queued iff it is not in history but is in the queue; accepted iff it is in neither. Each outcome carries the new order or the existing one. |
| Lifecycle.QueuedMessage | App.tsx:153 | The refusal message starts "O pedido " followed by the orderId. |
| Lifecycle.CompletionFor | App.tsx:229-232 | Only a completed order is classified: "complete" iff picks equal items, otherwise "incomplete"; a canceled order gets none. |
| Lifecycle.CompleteMeansEveryItemPicked | App.tsx:229-239 | With a repeat-free ledger of the order's own distinct item numbers, completing classifies the order complete iff every one of its items is in the ledger. |
| Lifecycle.StaleLedgerCompletesUnpickedOrder | App.tsx:229-239 | Completing a one-item order with a one-entry ledger from another order classifies it complete and records the foreign item number, while its own item is not recorded. |
| Lifecycle.Finalized | App.tsx:235-243 | The finished record keeps the instance, header and items, and takes the status, picks and time. A completed order records the chosen separator and confirmer; a canceled one records the current user as separator and no confirmer. |
| Lifecycle.IndexOfInstance | App.tsx:258 | The result is the first position of the same (orderId, timestamp), or -1 iff there is none. |
| Lifecycle.Upserted | App.tsx:257-265 | A known instance is overwritten at its first position, with the length and every other entry kept; an unknown one is put in front of the unchanged history. |
| Lifecycle.UpsertedReplacesOnlyThatInstance | App.tsx:257-268 | The finished record is in history. A known instance is replaced in place, with every other entry and the length kept; a new one is put in front. No other instance is lost. |
| Lifecycle.WithoutOrderId | App.tsx:270-274 | The queue keeps exactly the entries whose orderId differs. |
| Lifecycle.FinishDropsSiblingInstances | App.tsx:269-274 | A second picking instance of the same orderId, with a different timestamp, also leaves the queue. |
| Lifecycle.CanceledCopy | App.tsx:343-349 | The canceled copy keeps the instance, items, picks and names, is canceled with no classification, and carries the fixed reason and the new time. |
| Lifecycle.CancelInHistory | App.tsx:357-366 | Only entries of that instance become the canceled copy; every other entry and the length are kept. |
| Lifecycle.Reopened | App.tsx:334-340 | The reopened order is the same instance in picking, with its items and picks, so the ledger resumes from them. |
| Lifecycle.QueuingKeepsPartition | App.tsx:163-167 | Appending a new order to the queue keeps history finished-only and the queue picking-only. |
| Lifecycle.FinishingKeepsPartition | App.tsx:257-274 | Finishing keeps the partition: the finished record goes to history and its orderId leaves the queue. |
| Lifecycle.CancelingKeepsPartition | App.tsx:357-366 | Canceling from history keeps the partition. |
| App.FindInstanceIndex | App.tsx:258 | The loop finds the first entry of the same instance, or -1 iff there is none, and agrees with `Lifecycle.IndexOfInstance`. |
| App.AppState.constructor | App.tsx:64-69 | The app starts with empty lists, the default team, and the remembered user or else the fifth default member. |
| App.AppState.Refresh | App.tsx:117-125 | With a store, history and queue become the fetched orders split by status; a failed query yields no orders, so both become empty. Without a store nothing changes. |
| App.AppState.CreateRemotely | App.tsx:158-160 | The store becomes its creation by that order and history and queue are re-read from it. |
| App.AppState.UpdateRemotely | App.tsx:248-249 | The store becomes its update by that order and history and queue are re-read from it. |
| App.AppState.LoadData | App.tsx:73-114 | Without a store, the saved lists are restored where present. With one, the fetched orders are split (none when the order query fails) and a non-empty fetched team replaces the default. Only a raised failure sets the connection message, and then nothing else changes. |
| App.AppState.FileProcess | App.tsx:127-188 | The view is cleared. A read or extraction failure sets its message. Otherwise the classification decides: a pending duplicate; the "already queued" message; or one new picking order, appended to the queue or created in the store (whole new store state stated) and re-read. A failed creation sets the extraction message and leaves the store. The local path keeps the partition. |
| App.AppState.ConfirmDuplicateAction | App.tsx:190-215 | Resume makes the existing record current and creates nothing. Import-as-new queues the new order once, locally or as one store creation followed by a re-read; a failed creation changes nothing. Nothing happens without a pending duplicate. The local path keeps the partition. |
| App.AppState.FinalizeOrder | App.tsx:226-278 | Without a current order nothing happens. Locally, history gets the finished record in place or in front, the queue loses that orderId, and the partition is kept. Remotely, the store becomes its update by that record and is re-read, or the save message is set and the store is unchanged. The current order is cleared. |
| App.AppState.FinishLocally | App.tsx:257-274 | History becomes the upsert of the finished record, the queue loses every entry with its orderId, and a finished record keeps the partition. |
| App.AppState.PromoteOrder | App.tsx:280-286 | The promoted order becomes current and the detail selection is cleared. |
| App.AppState.SelectHistoryOrder | App.tsx:325-328 | The chosen history order is selected. |
| App.AppState.ContinuePicking | App.tsx:334-340 | The order becomes current again in picking, as the same instance, with the same seeded ledger; history is untouched. |
| App.AppState.CancelHistoryOrder | App.tsx:342-369 | Locally, only that instance's entries become canceled and the partition is kept. Remotely, the store becomes its update by the canceled copy and is re-read; a failed update changes nothing further. The selection is cleared unless the update failed. |
| App.AppState.ResetToUpload | App.tsx:217-224 | Current, selected, pending duplicate and error are all cleared. |
| App.AppState.PersistUsers | App.tsx:288-311 | The team list handed back replaces the current one. |
| App.AppState.DeleteUser | App.tsx:313-323 | Locally, the team loses exactly that id and keeps the others in order. Remotely, the store becomes its user deletion and the team is re-read, and a failed query yields no team. A raised delete failure leaves both store and team as they were. |
| App.CreatedOrderReachesQueue | App.tsx:117-125 | After a remote creation, the re-read queue holds exactly the old queue's orders plus the new order read back (same instance, in picking), and history is unchanged. |
| App.FinishedInstanceLeavesQueue | App.tsx:248-249 | After a remote finish, every order of that instance reads back in history with the new status, and no queued order is that instance. |
| App.RemoteFinishKeepsSiblingInstances | services/supabaseService.ts:246-250 | A picking order of the same orderId with another timestamp is untouched by the remote finish and stays queued. |
| App.FailedReadBlindsDuplicateCheck | services/supabaseService.ts:182-185 | A failed re-read empties both lists, after which any draft is accepted as new. |
| App.RemoteCancelKeepsStoredClassification | services/supabaseService.ts:236-250 | A stored "incomplete" classification survives a remote cancel, while the local cancel clears it; both records are canceled. |
| Backend.MapOrderFromDB | services/supabaseService.ts:6-28 | Every order field is its renamed column. A missing picked list becomes the empty list and a present one is kept. Item rows map in order with the same length. |
| Backend.InsertRow | services/supabaseService.ts:195-202 | The inserted row takes id, requester, sector, status and time from the order under the given key, and the picks or an empty list. Every lifecycle column is absent. |
| Backend.ItemRowsOf | services/supabaseService.ts:211-220 | One item row per item, in order, each linked to the new row's key and mapping back to that item. |
| Backend.CreateThenReadBack | services/supabaseService.ts:195-202 | Reading back a created order gives the same header, status, time, items and picks (missing becomes empty); lifecycle fields are absent. |
| Backend.UpdatePayloadOf | services/supabaseService.ts:236-244 | The payload carries the order's status, picks, classification, names, completion time and reason, each unchanged, with absent fields absent. |
| Backend.ApplyUpdate | services/supabaseService.ts:236-250 | Key, instance and header columns are kept. Each lifecycle column takes the sent value when present and keeps the stored one when absent. The status is always set. |
| Backend.UpdatedRows | services/supabaseService.ts:246-250 | Exactly the rows matching both orderId and timestamp are updated; all others are untouched. |
| Backend.ItemsOfRow | services/supabaseService.ts:176-179 | An order's items are exactly the item rows linked to its row key. |
| Backend.ItemsOfNoMatch | services/supabaseService.ts:176-179 | A row with no linked item rows reads back with no items. |
| Backend.ItemsOfAllMatch | services/supabaseService.ts:176-179 | Item rows all linked to one row read back as they are, in order. |
| Backend.ItemsOfOtherRow | services/supabaseService.ts:211-224 | Inserting another order's item rows leaves an existing order's items unchanged. |
| Backend.ItemsOfNewRow | services/supabaseService.ts:211-224 | A fresh row key reads back exactly the item rows inserted for it. |
| Backend.OperationalUsers | services/supabaseService.ts:127-141 | The team query returns exactly the separators and confirmers, never viewers. |
| Backend.SaveUserPayload | services/supabaseService.ts:144-151 | The id is sent iff it is longer than 10 characters; name and role are always sent. |
| Backend.OrdersOf | services/supabaseService.ts:171-188 | One order per order row, in table order, each read from its row and the item rows linked to its key. |
| Backend.AfterCreate | services/supabaseService.ts:190-231 | One row under the next key is appended with its item rows; user rows are kept, the next key advances, and keys stay below it. |
| Backend.AfterUpdate | services/supabaseService.ts:233-253 | Only the order rows of that instance are updated; item rows, user rows and the next key are kept. |
| Backend.AfterDeleteUser | services/supabaseService.ts:160-169 | User rows lose exactly that id; order and item rows are kept. |
| Backend.RemoteStore.constructor | services/supabaseService.ts:171-253 | The in-memory tables start as given, with every row key below the next key. |
| Backend.RemoteStore.GetOrders | services/supabaseService.ts:171-188 | Every stored order when configured and the query succeeds; nothing when it fails or no store is configured. |
| Backend.RemoteStore.Fetched | services/supabaseService.ts:171-188 | The stored orders, or none when not configured or the query fails. |
| Backend.RemoteStore.FetchedUsers | services/supabaseService.ts:124-142 | The operational team, or none when not configured or the query fails. |
| Backend.RemoteStore.CreateOrder | services/supabaseService.ts:190-231 | When configured, the tables become their creation by that order; otherwise nothing changes. Keys stay below the next key. |
| Backend.RemoteStore.UpdateOrder | services/supabaseService.ts:233-253 | When configured, the tables become their update by that order; otherwise nothing changes. |
| Backend.RemoteStore.GetUsers | services/supabaseService.ts:124-142 | The operational team when configured and the query succeeds; nothing otherwise. |
| Backend.RemoteStore.DeleteUser | services/supabaseService.ts:160-169 | When configured, the user rows lose exactly that id; otherwise nothing changes. |
| Backend.UsersWithoutId | services/supabaseService.ts:163-166 | The list keeps exactly the users of another id, in order. |
| Backend.UsersWithoutIdAppend | services/supabaseService.ts:163-166 | Deleting an id from two lists one after the other gives the two filtered lists one after the other, so the kept users stay in their order. |
| Backend.CreatedOrderIsReadBack | services/supabaseService.ts:190-231 | After a creation, every previously stored order reads back unchanged and the new one reads back as created. |
| Backend.UpdateThenReadBack | services/supabaseService.ts:233-253 | After an update, the order count is kept and orders of other instances read back unchanged. Orders of the instance read back with its status and their own items and header, take each present lifecycle field, and keep the stored classification when none is sent. |
| UserAdmin.EditUser | components/UserManagement.tsx:47 | Editing keeps length, order and ids; only members of that id get the new name and role. |
| UserAdmin.TrimStart | components/UserManagement.tsx:38 | The result is a suffix of the name, every character dropped is white space, and it does not start with white space. |
| UserAdmin.TrimEnd | components/UserManagement.tsx:38 | The result is a prefix of the name, every character dropped is white space, and it does not end with white space. |
| UserAdmin.TrimmedEmptyIffBlank | components/UserManagement.tsx:38 | The trimmed name is empty exactly when every character is white space, so the save guard refuses exactly the blank names. |
| UserAdmin.NewUserId | components/UserManagement.tsx:55 | A new member's id is "user" followed by the stamp. |
| UserAdmin.UserManager.constructor | components/UserManagement.tsx:15-21 | The dialog is closed and blank with role separator, and no deletion is pending. |
| UserAdmin.UserManager.OpenModal | components/UserManagement.tsx:23-28 | The dialog opens blank as a separator for a new member, or filled with the member's name and role. |
| UserAdmin.UserManager.CloseModal | components/UserManagement.tsx:30-35 | The dialog closes and resets to blank with role separator. |
| UserAdmin.UserManager.SaveUser | components/UserManagement.tsx:37-64 | A blank name is refused and nothing changes. An edit renames that id's members, and the current user when it is that id. A new member is appended. The dialog closes, and the current user's id never changes. |
| UserAdmin.UserManager.DeleteClick | components/UserManagement.tsx:66-72 | Deleting the logged-in member is refused; any other becomes the pending deletion. |
| UserAdmin.UserManager.ConfirmDelete | components/UserManagement.tsx:74-84 | The pending member's id leaves the list and the logged-in member stays. Nothing happens with nothing pending. |
| Analytics.OrderKey | components/AnalyticsDashboard.tsx:36 | The row key is the orderId, a dash, then the timestamp. |
| Analytics.KeysSeparateInstances | components/AnalyticsDashboard.tsx:36 | Two instances of one orderId at different times get different row keys. |
| Analytics.KeyDeterminesInstance | components/AnalyticsDashboard.tsx:36 | For equal-length timestamps, equal keys hold iff the orders are the same instance. |
| Analytics.Flipped | components/AnalyticsDashboard.tsx:60-70 | A toggle flips that key's membership only. |
| Analytics.FlippedTwice | components/AnalyticsDashboard.tsx:81-91 | Toggling a key twice restores the set. |
| Analytics.AllKeys | components/AnalyticsDashboard.tsx:72-79 | Select-all yields exactly the keys of the history's orders. |
| Analytics.PrintedOf | components/AnalyticsDashboard.tsx:140-141 | The report prints exactly the history orders whose key is selected. |
| Analytics.PrintedAllIsHistory | components/AnalyticsDashboard.tsx:140-141 | With every row selected, the report is the whole history in order. |
| Analytics.PrintedNoneIsEmpty | components/AnalyticsDashboard.tsx:140-141 | With nothing selected, the report is empty. |
| Analytics.CompletedOf | components/AnalyticsDashboard.tsx:95 | Exactly the completed orders of the history. |
| Analytics.NotCompletedOf | components/AnalyticsDashboard.tsx:96 | Exactly the orders that are not completed. |
| Analytics.SumItems | components/AnalyticsDashboard.tsx:98 | The item total is zero for no orders or for orders without items, and at least the item count of each order. |
| Analytics.SumPicked | components/AnalyticsDashboard.tsx:99 | The picked total is zero for no orders or for orders without picks (a missing list counts 0), and at least each order's pick count. |
| Analytics.SumItemsAppend | components/AnalyticsDashboard.tsx:98 | The item total of two histories joined is the sum of their totals. |
| Analytics.SumPickedAppend | components/AnalyticsDashboard.tsx:99 | The picked total of two histories joined is the sum of their totals. |
| Analytics.CompletedOfAppend | components/AnalyticsDashboard.tsx:95 | The completed orders of two histories joined are the completed orders of each, in order. |
| Analytics.ComputeStats | components/AnalyticsDashboard.tsx:93-114 | Totals: orders is the history length and canceled is orders minus completed (never negative). Picked is summed over the history. The rate is N/A iff completed orders hold no items, and otherwise is completed picks over completed items. |
| Analytics.StatsAdditive | components/AnalyticsDashboard.tsx:93-105 | The order, completed, canceled and picked figures of two histories joined are the sums of their figures. |
| Analytics.CompletedSplit | components/AnalyticsDashboard.tsx:94-99 | Completed and other orders together make up the history's count and picked total. |
| Analytics.CanceledFigureCountsCanceled | components/AnalyticsDashboard.tsx:96 | The canceled figure counts the orders that are not completed, which are exactly the canceled ones on a finished-only history. |
| Analytics.CompletedPickedWithinTotal | components/AnalyticsDashboard.tsx:99-105 | Picks of completed orders never exceed the history's picked total. |
| Analytics.RateAtMostFull | components/AnalyticsDashboard.tsx:98-103 | When no completed order lists more picks than items, the rate never exceeds 100%. |
| Analytics.RenderStatus | components/AnalyticsDashboard.tsx:127-134 | "Completo" iff completed and complete; "Incompleto" iff completed otherwise; "Cancelado" iff not completed. |
| Analytics.RenderStatusAgreesWithDetail | components/AnalyticsDashboard.tsx:127-134 | The report's status text and the detail view's badge classify every order alike. |
| Analytics.ReportView.constructor | components/AnalyticsDashboard.tsx:32-34 | Nothing is selected or expanded and printing is off. |
| Analytics.ReportView.ToggleSelect | components/AnalyticsDashboard.tsx:60-70 | The selection becomes the toggle of the old one for that key. |
| Analytics.ReportView.ToggleExpand | components/AnalyticsDashboard.tsx:81-91 | The expansion set becomes the toggle of the old one for that key. |
| Analytics.ReportView.SelectAll | components/AnalyticsDashboard.tsx:72-79 | Checking selects exactly the history's keys; unchecking empties the selection. |
| Analytics.ReportView.Print | components/AnalyticsDashboard.tsx:52-58 | Printing starts iff some row is selected; otherwise the operator is warned and nothing starts. |
| Analytics.ReportView.Printed | components/AnalyticsDashboard.tsx:140-141 | The printed orders are exactly the history orders with a selected key. |


## Left out

- Document extraction (the AI call) and file reading are reduced to their outcome: a read failure, an extraction failure, or a draft.
- Clocks are parameters: timestamps and the new-member stamp are supplied by the caller as opaque strings.
- Backend failures that raise are a `backendOk` parameter. A failed insert of item rows after a successful order-row insert is not modelled; the creation is all-or-nothing.
- A failed query in `getOrders` or `getUsers` does not raise: it yields an empty list. This is the `readOk` parameter, and the handlers then empty history and queue, or the team, with no message.
- `App.AppState.CancelHistoryOrder`: a failed remote update is an unhandled rejection in the handler; the model stops there with nothing else changed, and the loading flag it leaves set is not modelled.
- The outer "unexpected error" path of the file handler, loading flags, view switching and the app-name preference are UI state and are not modelled.
- Local storage writes are not modelled; the in-memory lists are the local copy.
- The concurrency of async handlers (interleaved refreshes and ingestions) is not modelled. Each handler runs to completion.
- `getOrders` sorts by descending timestamp in the store; the model returns rows in table order. Two consequences are not captured. First, a newly created order is re-read at the front of the queue, since it carries the newest timestamp; the model puts it at the end. Second, when a remote history holds several instances of one orderId, duplicate detection finds the newest one and offers it for resuming; the model finds the one stored first.
- `App.CreatedOrderReachesQueue`: states the re-read queue as a multiset, not its order, because the model's table order is not the program's newest-first order.
- `App.AppState.PromoteOrder`: the application state does not hold the picking screen. `FinalizeOrder` takes the ledger as a parameter, so promoting an order while another is open does not carry the open ledger over in the application model. That path is modelled on the screen alone (`Picking.PickingSession.ShowOrder`; see "## Findings").
- `getCurrentUserProfile`, `signIn`, `signUp`, `signOut` and the login screen are authentication, outside the order lifecycle.
- `App.AppState.PersistUsers`: the remote branch's loop of `saveUser` calls is not modelled as store writes; only the payload rule (`Backend.SaveUserPayload`) is.
- Percentages use exact rational arithmetic. Floating-point rounding and `toFixed` formatting are not modelled; the completion rate is kept as its two counts.
- `localeCompare` is modelled as character-by-character order. Locale collation rules are not modelled.
- `quantityOrdered` is an integer in the model; fractional quantities are not represented.
- The `onCancel` property passed to the detail view is never called by it, so no UI path to cancel is modelled beyond the handler itself.
- `UserAdmin.UserManager.SaveUser`: models the current-user selector as always provided; when the screen is shown without it, the current user is not renamed.
- `UserAdmin.UserManager.ConfirmDelete`: models the local filter; when the application's delete handler is given, the list comes from `App.AppState.DeleteUser` instead.
- Printing itself, `afterprint` and the print timer are browser effects and are not modelled; `Print` only sets the printing flag.
- Date formatting for display is not modelled.
- `Lifecycle.Finalized` and `App.AppState.FinalizeOrder` take an optional separator and confirmer as the handler's signature does. The picking screen, the only caller, passes neither (components/OrderDashboard.tsx:9, 65, 72), so in the running application a completed order records no names.
- `ItemOrder.SortByLocation`: states sortedness and permutation but not stability; JavaScript's sort is stable, so items of equal location keep their order, and the model does not prove this.

## Findings

| source | as written | input that shows it | evidently intended | confidence | as-written member | corrected member |
|---|---|---|---|---|---|---|
| components/OrderDashboard.tsx:14 | The ledger is seeded only when the picking screen mounts. The screen is rendered without a key (App.tsx:481), and the queue's promote button stays active while an order is open (App.tsx:280-286). Promoting another order therefore keeps the earlier order's ledger. | Open an order with items "1" and "2", tick both, then promote an order whose only item is "3": progress reads 200. Alternatively, tick "1" on a one-item order and promote, then complete an order whose only item is "3": it is saved as complete with picks ["1"]. | The ledger is seeded afresh from the newly shown order, as on a new mount. | high; not executed | `Picking.PickingSession.ShowOrder`, `Picking.StaleLedgerOvershoots`, `Lifecycle.StaleLedgerCompletesUnpickedOrder` | `Picking.PickingSession.Remount`, `Picking.ContainedProgressAtMostFull`, `Lifecycle.CompleteMeansEveryItemPicked` |
