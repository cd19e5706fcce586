# A verified model of the commerce platform's core

This project models the parts of the platform where several pieces of code have to agree: payment
events and the stock ledger, the CSV importer, frame selection and product merging, the category tree,
the search index, sign-in sessions, checkout numbering and fees. Each module holds the behaviour as functions
on values, the code's loops and in-place updates as methods proved equal to those functions, and theorems about
every input or every run.

| module | what it models |
|---|---|
| `Stock`, `Totals`, `Queries`, `Promises`, `StockRuns` | inventory items and the stock movement ledger: creation, adjustment, greedy sale, return restock, with current or outdated query answers, to the unit, and exactly which outdated ones are harmless |
| `Commerce`, `CommerceRuns`, `ReturnRuns`, `Effects`, `Billing` | orders, payments, refunds, carts and returns as a machine whose steps are database transactions, under redelivery, reordering, worker crashes, marker loss, outdated reads and overlapping return calls; what each transaction leaves behind; the worker and refund endpoints as methods on the tables |
| `Csv`, `LooseCsv`, `ImportRows`, `ImportCells`, `Importer`, `Imported` | the hand-written CSV reader, a printer for section 2 of RFC 4180, column matching and price parsing, the importer, and reading back what it wrote |
| `Slugs`, `SlugWords` | slugs, unique slugs, SKUs and the importer's own slug |
| `Hashes`, `Blur`, `Dedup`, `Sampler`, `Frames` | difference hashes, blur scores, pruning and near-duplicate removal of video frames, frame by frame |
| `Sorting`, `Enrich`, `Merge`, `MergeOrder`, `Titles` | title normalisation, one survivor per title, and barcode lookups that override guesses |
| `Forest`, `ForestOps`, `CategoryRows` | the category tree built by in-place pushes, and create, move and remove on the parent table |
| `Search`, `Listings`, `Catalog` | the search index as a cache of the catalogue, and the product service that writes both |
| `Sessions`, `SignIns` | sign-in sessions with rotating refresh tokens, and whose tokens they are |
| `Fees`, `Checkout`, `Invoices` | the platform fee, cart re-pricing, order numbers and rollback |
| `Text` | white space, trimming, case mapping and decimal numerals |

Conventions. A database transaction is one atomic step, and a failed unique index undoes the whole step. What a query
answered is part of a step's label wherever the answer may be outdated or SQL leaves it open: the items and levels a sale
reads, the level an adjustment checks, the item a restock picks, the newest order. A label that no query could have
answered is no step. The fee rate lies between 0 and 10000 basis points, as apps/api/src/config/configuration.ts:52
enforces. Stripe, the embedder, the barcode service and the search server appear as parameters. Row ids are table indices
where the tables only grow. A `History` in `ReturnRuns` is a run together with the states it goes through. All inductions
are written out: every lemma switches automatic induction off.

## Where the code does less than its comments or callers suggest

- A completion event that meets a fully refunded order without its processed marker takes the stock a second time: the
  paid guard does not cover REFUNDED. As long as each transaction runs on its own, `CommerceRuns.AtMostOncePass` says this
  is the only way to a second pass. At the database's default isolation there is another one, which atomic steps do not
  show: two overlapping unmarked deliveries that both read the order as unpaid both take the stock.
- An admin refund is judged alone, so two half refunds leave an order PARTIALLY_REFUNDED until a complete Stripe
  snapshot arrives (`CommerceRuns.TwoHalfRefunds`, `SnapshotSettles`; `AdminRefundAgrees` has the exact condition).
- Return decisions and refunds check the status in one transaction and write in another. A return is restocked twice if
  and only if a refund overtakes another refund call, or an approval that a later refund call then profits from
  (`ReturnRuns.TwiceIffOvertaken`); whole calls restock at most once (`ReturnRuns.WholeCallsRestockOnce`).
- Two sales that read the same on-hand level keep the ledger exact but can leave a negative level
  (`StockRuns.TwoBuyersOversell`). A line, a pass or a whole run is safe from that, whatever is asked for, if and only if
  its answers promise no more than there is (`Promises.SafeLineIff`, `Promises.SafePassIff`, `StockRuns.SafeRunIff`).
- The inventory service books no movement for a negative initial level; it relies on the `@Min(0)` of
  apps/api/src/inventory/dto/create-inventory-item.dto.ts:21 (`Stock.CreateConserves`).
- Order numbers follow the newest order by creation time. Orders of the same moment leave that open and can stop a store's
  checkouts for good (`Checkout.TiesStopCheckout`). However much later the following orders are placed, some checkout fails
  for its number in some run if and only if two stored orders are tied or inverted, the one created no earlier not having
  the higher number (`Checkout.NumbersRunOutIff`).
- Moving a category is only checked against itself, so a move below a descendant hides the whole cycle
  (`ForestOps.MoveExact`, `MutualParents`).
- Brand edits are not followed by an index call (`Search.BrandEditDrifts`), and a full reindex deletes nothing (`Search.ReindexRepairs`),
  so a product removed while the index is unreachable stays listed (`Search.OrphanSurvives`).
- The importer cuts its slug after trimming hyphens, so a slug of 80 characters can end in one (`Slugs.ImportSlugStable`).
- The comment on cosine similarity promises 0 for vectors of different lengths; the code compares their prefixes of common
  length, so `[1.0]` and `[1.0, 0.1]` are merged (`Dedup.DifferentLengthsMerge`, and `Dedup.SimilarityZeroIff` says when it is 0).
- The refresh comment says a replayed token fails the hash check; it fails the revocation check before that.
- `refreshTokenHash` is unique and every new session starts with the same placeholder, so one request that dies
  between its two transactions stops all later sign-ins (`Sessions.SessionsStopIffOrphaned`, `CrashStopsSignIn`).

## Model

| member | source | states |
|---|---|---|
| `Stock.CreateConserves` | apps/api/src/inventory/inventory.service.ts:45-99 | creating an item keeps every on-hand level equal to the sum of its movements if and only if the initial level is not negative |
| `Stock.AdjustConserves` | apps/api/src/inventory/inventory.service.ts:192-247 | an accepted adjustment keeps the ledger exact, whatever level its check saw |
| `Stock.AdjustLevel` | apps/api/src/inventory/inventory.service.ts:197-238 | an accepted adjustment moves exactly its item by the delta, and when the check saw the current level only a kind that may go negative leaves a negative one |
| `Stock.StockTables.CreateItem` | apps/api/src/inventory/inventory.service.ts:45-99 | the tables become exactly what creation specifies; a second item for a variant and location is refused and changes nothing |
| `Stock.StockTables.AdjustItem` | apps/api/src/inventory/inventory.service.ts:192-247 | find or create, then post the delta; a delta below zero of a kind that may not go negative changes nothing, not even the created item |
| `Stock.GreedyExact` | apps/worker/src/queues/billing.processor.ts:301-319 | the greedy takes never exceed what a level has and add up to the smaller of the need and the positive stock |
| `Stock.GreedyFewest` | apps/worker/src/queues/billing.processor.ts:296-319 | over levels in descending order, no allocation of the same total touches fewer inventory items |
| `Stock.SellLevels` | apps/worker/src/queues/billing.processor.ts:305-322 | each listed item goes down by its take and nothing else about any item changes |
| `Stock.SellConserves` | apps/worker/src/queues/billing.processor.ts:305-322 | selling keeps the ledger exact whatever levels the takes were computed from |
| `Stock.SellVariantExact` | apps/worker/src/queues/billing.processor.ts:295-330 | from a current answer, an order line books exactly the smaller of its quantity and the variant's positive stock, touches no other variant and drives no level that was not negative below zero |
| `Stock.SellVariantBounded` | apps/worker/src/queues/billing.processor.ts:295-330 | from any answer, current or not, a line books between nothing and its quantity, touches no other variant, raises no level and keeps the ledger exact |
| `Stock.SellFewestItems` | apps/worker/src/queues/billing.processor.ts:297-323 | from a current answer, no way of taking the same total from the variant's items changes fewer of them |
| `Stock.SellLinesBounded` | apps/worker/src/queues/billing.processor.ts:289-330 | whatever levels its queries saw, a pass over an order sells between nothing and what was ordered, books only its own order, raises no level and keeps the ledger exact |
| `Totals.CreatedIsFound` | apps/api/src/inventory/inventory.service.ts:45-99 | a created item is found under its variant and location with the initial level, booked as a RECEIVE when positive, and cannot be created again |
| `Totals.AdjustBooks` | apps/api/src/inventory/inventory.service.ts:192-247 | an adjustment is refused exactly when a checked kind would go below zero, and is booked with its kind and delta |
| `Totals.PassSells` | apps/worker/src/queues/billing.processor.ts:289-330 | a pass books for its order exactly the sum over its tracked lines of the smaller of the quantity and what the answer saw, and takes exactly that from each variant |
| `Totals.FreshPassSells` | apps/worker/src/queues/billing.processor.ts:289-330 | with current answers the sellable stock of every variant falls by exactly the smaller of what the lines naming it ask for and what there was |
| `Totals.RestockLevels` | apps/api/src/returns/returns.service.ts:196-226 | each item goes up by exactly the lines whose query answered it, and nothing else about any item changes |
| `Totals.RestockTotals` | apps/api/src/returns/returns.service.ts:196-226 | a variant that has an item gets exactly the units returned of it, and other variants get none |
| `Promises.LineTakes` | apps/worker/src/queues/billing.processor.ts:297-325 | a line takes at most what its answer promises of an item, and all of it when it asks for enough |
| `Promises.SafeLineIff` | apps/worker/src/queues/billing.processor.ts:297-325 | a line may ask for any quantity without driving a level below zero if and only if its answer overstates no item |
| `Promises.SellLinesCovered` | apps/worker/src/queues/billing.processor.ts:289-330 | a pass whose answers overstate no item when their lines sell drives no level that was not negative below zero |
| `Promises.SellLinesFresh` | apps/worker/src/queues/billing.processor.ts:289-330 | a pass whose queries all got current answers drives no level that was not negative below zero |
| `Promises.PassTakes` | apps/worker/src/queues/billing.processor.ts:289-330 | a pass takes at most what its answers together promise of an item, and all of it when every line asks for enough |
| `Promises.SafePassIff` | apps/worker/src/queues/billing.processor.ts:289-330 | the lines of a pass may ask for any quantities without driving a level below zero if and only if its answers together promise no more of an item than it holds when the pass begins |
| `StockRuns.SafeRunIff` | apps/worker/src/queues/billing.processor.ts:289-330 | along a run from non-negative levels no level goes below zero, nor would whatever quantity a line or delta an adjustment had asked for, if and only if no answer overstates an item when its line sells, no check sees more than there is and no correction goes below zero |
| `StockRuns.TwoBuyersOversell` | apps/worker/src/queues/billing.processor.ts:297-308 | a run of two paid orders that both read the last unit ends with an exact ledger and a level of -1 |
| `Stock.StockTables.TakeFrom` | apps/worker/src/queues/billing.processor.ts:301-323 | the loop with its running remainder and early exit writes exactly the greedy allocation of the levels as read |
| `Stock.StockTables.SellOneVariant` | apps/worker/src/queues/billing.processor.ts:297-323 | one line's loop over the rows its query answered has the effect of the specified sale |
| `Stock.StockTables.DecrementStock` | apps/worker/src/queues/billing.processor.ts:289-330 | the loop over the order's lines sells them one after the other, skipping lines without a variant |
| `Stock.RestockExact` | apps/api/src/returns/returns.service.ts:145-149 | a refunded return puts back every line whose variant has an item, in full, books no sale and keeps the ledger exact |
| `Stock.StockTables.RestockAll` | apps/api/src/returns/returns.service.ts:196-227 | the restock loop has exactly that effect on the tables |
| `Queries.AnswerIsFresh` | apps/worker/src/queues/billing.processor.ts:297-300 | a stable sort of the variant's items by descending on-hand is a current answer |
| `Queries.FreshPassExists` | apps/worker/src/queues/billing.processor.ts:289-330 | every pass over an order can be answered currently throughout, so the theorems about current answers are not empty |
| `Queries.TargetsExist` | apps/api/src/returns/returns.service.ts:196-210 | the restock queries of any return can be answered in every state |
| `Effects.SellsIff` | apps/worker/src/queues/billing.processor.ts:188-242 | a completion commits exactly when its order is known and unpaid and neither its intent nor a second cart of the order is taken elsewhere |
| `Effects.CartOpened` | apps/api/src/cart/cart.service.ts:68-80 | a new cart is open and no other cart changes |
| `Effects.CompletionWrites` | apps/worker/src/queues/billing.processor.ts:202-242 | a paid order carries the event's amount (or its own total) and tax, the payment of the intent is SUCCEEDED with that amount whether it existed or not, the open cart named is converted, and nothing else is written |
| `Effects.CompletionSellsStock` | apps/worker/src/queues/billing.processor.ts:235-330 | a completion books exactly what its queries saw, out of the variants the lines name |
| `Effects.FailureWrites` | apps/worker/src/queues/billing.processor.ts:333-361 | a failed payment marks its row, or adds one over the order's total, and writes nothing else |
| `Effects.SnapshotRows` | apps/worker/src/queues/billing.processor.ts:389-405 | a refund snapshot adds only rows for refunds of its own that were not stored, with its order, payment and amounts |
| `Effects.SnapshotWrites` | apps/worker/src/queues/billing.processor.ts:387-424 | a refund snapshot marks its order and payment by its total and no other order or payment |
| `Effects.DeliveryRuns` | apps/worker/src/queues/billing.processor.ts:123-161 | an unmarked delivery runs the handler of its event, and a marked one changes nothing |
| `Effects.MarkerWrites` | apps/worker/src/queues/billing.processor.ts:128-162 | the marker is set exactly by the deliveries that get through |
| `Effects.AdminRefundWrites` | apps/api/src/orders/orders.service.ts:147-176 | an admin refund adds its row and marks its order and payment by its own amount, and no other |
| `Effects.AmountIsUnits` | apps/api/src/returns/returns.service.ts:125 | a return refunds the price of each of its units |
| `Effects.ReturnRefundWrites` | apps/api/src/returns/returns.service.ts:144-193 | a return refund marks the return; with a captured payment it writes a row over its units and judges the order by it, without one it leaves both |
| `Effects.DecisionWrites` | apps/api/src/returns/returns.service.ts:84-116 | a written decision approves or rejects its own return and writes nothing else |
| `Effects.RefundCallOpens` | apps/api/src/returns/returns.service.ts:118-123 | a refund call is opened exactly for a return that is neither refunded nor rejected |
| `Effects.DecisionCallOpens` | apps/api/src/returns/returns.service.ts:84-110 | an approval is opened exactly for a requested return, a rejection for any return that is not refunded |
| `Commerce.CompletedKeepsInv` | apps/worker/src/queues/billing.processor.ts:188-252 | a committed completion keeps, whatever its stock queries answered: exact ledger, one payment per intent, one order per intent, one cart per order, consistent order statuses |
| `Commerce.FailedKeepsInv` | apps/worker/src/queues/billing.processor.ts:333-361 | a failed payment keeps the same invariant |
| `Commerce.RefundedKeepsInv` | apps/worker/src/queues/billing.processor.ts:368-424 | a refund snapshot keeps the same invariant, with one row per Stripe refund |
| `Commerce.AdminRefundKeepsInv` | apps/api/src/orders/orders.service.ts:147-176 | the admin refund's transaction keeps the invariant |
| `Commerce.ReturnRefundKeepsInv` | apps/api/src/returns/returns.service.ts:144-181 | the write of a return refund keeps the invariant |
| `Commerce.StepKeepsInv` | apps/worker/src/queues/billing.processor.ts:123-163 | every transaction of the machine keeps the invariant, wherever the worker dies |
| `Commerce.ReachableInv` | apps/worker/src/queues/billing.processor.ts:123-163 | the invariant, and with it an exact ledger, holds after every run from empty tables, however outdated the levels were that sales and adjustments decided on |
| `Billing.Database.ProcessEvent` | apps/worker/src/queues/billing.processor.ts:123-163 | marked events are skipped, the marker is set only after a handler that committed, and the tables change exactly as specified for each crash point |
| `Billing.Database.CompleteCheckout` | apps/worker/src/queues/billing.processor.ts:166-252 | the row-by-row handler commits the specified state or, on a unique conflict, leaves the tables as they were |
| `Billing.Database.UpsertPayment` | apps/worker/src/queues/billing.processor.ts:217-233 | one payment row per intent is updated or inserted and no other table changes |
| `Billing.Database.FailPayment` | apps/worker/src/queues/billing.processor.ts:333-361 | the payment is upserted as FAILED for a known order and nothing else changes |
| `Billing.Database.RefundCharge` | apps/worker/src/queues/billing.processor.ts:368-424 | the missing refund rows are written and the order judged by the snapshot's total, or nothing changes |
| `Billing.Database.WriteRefunds` | apps/worker/src/queues/billing.processor.ts:389-407 | the loop adds exactly the refunds not stored yet and totals the whole snapshot |
| `Billing.Database.RecordAdminRefund` | apps/api/src/orders/orders.service.ts:147-176 | the transaction after Stripe's refund commits the specified state or nothing |
| `Billing.Database.BeginDecision` | apps/api/src/returns/returns.service.ts:84-88 | the check opens a call exactly for requests to approve and for returns not yet refunded to reject |
| `Billing.Database.FinishDecision` | apps/api/src/returns/returns.service.ts:89-110 | the write overwrites the status, whatever it is by then |
| `Billing.Database.DecideRma` | apps/api/src/returns/returns.service.ts:84-112 | with nothing in between, an allowed decision is written and a refused one changes nothing |
| `Billing.Database.BeginRefund` | apps/api/src/returns/returns.service.ts:118-123 | the check opens a call unless the return is refunded or rejected |
| `Billing.Database.FinishRefund` | apps/api/src/returns/returns.service.ts:144-181 | the write restocks, records and marks the return, or rolls back on conflict and only ends the call |
| `Billing.Database.RefundRma` | apps/api/src/returns/returns.service.ts:118-193 | with nothing in between, a refund call is its check followed by its write |
| `CommerceRuns.StepSells` | apps/worker/src/queues/billing.processor.ts:188-235 | in one step an order becomes placed exactly when a pass over its stock commits, and only such a step books sales of it |
| `CommerceRuns.PassesExact` | apps/worker/src/queues/billing.processor.ts:134-161 | over any run, an order is placed if and only if a stock pass committed, and there is a further pass if and only if a marker-less completion meets it refunded |
| `CommerceRuns.AtMostOncePass` | apps/worker/src/queues/billing.processor.ts:197-200 | under redelivery, reordering, crashes and marker loss an unpaid order takes stock at most once if and only if no marker-less completion meets it after a full refund |
| `CommerceRuns.SoldWithinOrdered` | apps/worker/src/queues/billing.processor.ts:289-330 | the units a run books as sold of an order are at most the units ordered for each pass, whatever levels the passes saw |
| `CommerceRuns.SoldExact` | apps/worker/src/queues/billing.processor.ts:289-330 | over any run the units booked as sold of an order are exactly what its passes got out of the levels they saw |
| `CommerceRuns.NoOversell` | apps/worker/src/queues/billing.processor.ts:188-252 | without such a replay the ledger never shows more sold of an order than was ordered |
| `CommerceRuns.ReplayPasses` | apps/worker/src/queues/billing.processor.ts:197-200 | from any state with a refunded order and no marker, the completion takes stock once more |
| `CommerceRuns.ReplayReachable` | apps/worker/src/queues/billing.processor.ts:197-200 | such a state is reached by paying, refunding in full and letting the marker expire |
| `CommerceRuns.RunGrows` | apps/worker/src/queues/billing.processor.ts:237-242 | a converted cart keeps its order and refund rows are never changed or removed, in any run |
| `CommerceRuns.RefundsConverge` | apps/worker/src/queues/billing.processor.ts:387-405 | under any interleaving of admin refunds, return refunds and snapshots, the stored Stripe ids are the union of those announced, each in one row |
| `CommerceRuns.SnapshotSettles` | apps/worker/src/queues/billing.processor.ts:407-415 | after any history, a complete snapshot makes the refund rows add up to it and the order REFUNDED exactly when they reach the captured amount |
| `CommerceRuns.AdminRun` | apps/api/src/orders/orders.service.ts:147-169 | a run of admin refunds of a payment adds up in the rows, while the status follows the last committed amount alone |
| `CommerceRuns.AdminRefundAgrees` | apps/api/src/orders/orders.service.ts:147-169 | after any run of admin refunds of a payment, the status agrees with the stored total if and only if the last refund reached the captured amount by itself or all of them with the earlier rows stay below it |
| `CommerceRuns.TwoHalfRefunds` | apps/api/src/orders/orders.service.ts:147-169 | two halves refunded one after the other leave a fully refunded order PARTIALLY_REFUNDED |
| `ReturnRuns.StepReopens` | apps/api/src/returns/returns.service.ts:84-123 | a refunded or rejected return stays so until an approval is written over it |
| `ReturnRuns.PassedCheck` | apps/api/src/returns/returns.service.ts:84-123 | a call that is still pending passed its status check in the state where it was opened |
| `ReturnRuns.TwiceIffOvertaken` | apps/api/src/returns/returns.service.ts:84-193 | in any run a return is restocked more than once if and only if a refund was written whose check came before another refund's write, or an approval checked before a refund's write was written over it and a later refund call passed its check and was written |
| `ReturnRuns.WholeCallsRestockOnce` | apps/api/src/returns/returns.service.ts:84-193 | in every run in which calls on returns are whole, among any other steps, a return is restocked at most once |
| `ReturnRuns.RestockUnits` | apps/api/src/returns/returns.service.ts:145-149 | a committed refund puts back every restockable unit of its return |
| `ReturnRuns.RestockPlaces` | apps/api/src/returns/returns.service.ts:145-149 | a committed refund puts the units on the items its queries answered, so each variant with an item gets exactly the units returned of it |
| `ReturnRuns.PutBackBounded` | apps/api/src/returns/returns.service.ts:145-149 | over any run, the units put back are at most the units returned for each restock |
| `ReturnRuns.WholeCallsPutBack` | apps/api/src/returns/returns.service.ts:118-227 | in every run of whole calls, no more units of a return are put back than were returned |
| `ReturnRuns.TwoRefundsRestockTwice` | apps/api/src/returns/returns.service.ts:118-181 | two refund calls that both pass their checks first restock the return twice |
| `ReturnRuns.LateApprovalRestocksTwice` | apps/api/src/returns/returns.service.ts:84-91 | a whole refund call, overtaking an approval that had passed its check, and another whole refund call restock the return twice |
| `Csv.ParseDelimited` | apps/api/src/import/csv.util.ts:15-52 | the character loop with its look-ahead returns what the quote automaton defines, blank rows dropped |
| `Csv.RoundTrip` | apps/api/src/import/csv.util.ts:15-52 | for every table, every choice of quoting allowed by section 2 of RFC 4180 and of LF or CRLF per record, with or without a last line break, printing and reading gives back exactly the non-blank rows, cell for cell |
| `Csv.ParseIsNormal` | apps/api/src/import/csv.util.ts:15-52 | whatever text was read, printing the result with quotes only where needed and reading it again changes nothing |
| `Csv.BareFieldExact` | apps/api/src/import/csv.util.ts:15-52 | an unquoted field is read as itself if and only if it is not blank and holds no comma, quote or line break |
| `LooseCsv.QuotedStretch` | apps/api/src/import/csv.util.ts:15-52 | a quoted stretch may stand anywhere in a field and joins what is around it |
| `LooseCsv.UnclosedQuote` | apps/api/src/import/csv.util.ts:15-52 | a quote that is never closed takes the text to its end |
| `LooseCsv.ReturnsVanish` | apps/api/src/import/csv.util.ts:15-52 | outside quotes carriage returns are as if they were not there |
| `LooseCsv.KeptRows` | apps/api/src/import/csv.util.ts:15-52 | a row is dropped exactly when all its cells are blank |
| `ImportRows.CentsAreNearest` | apps/api/src/import/csv.util.ts:55-59 | the cents are the nearest to the decimal read, halves rounding up |
| `ImportRows.PriceRoundTrip` | apps/api/src/import/csv.util.ts:55-59 | an amount printed as dollars is read back exactly, whatever currency signs and separators decorate it |
| `ImportRows.IndexOf` | apps/api/src/import/csv.util.ts:79-85 | the first column with the name, or -1 exactly when there is none |
| `ImportRows.CsvToImportRows` | apps/api/src/import/csv.util.ts:74-107 | the row loop returns the titled rows of the table under the matched columns |
| `ImportCells.ColumnsPrefer` | apps/api/src/import/csv.util.ts:74-92 | each column is the first one with the first of its names that the header has, prices from the regular price before the others |
| `ImportCells.TitledCount` | apps/api/src/import/csv.util.ts:93-106 | every row with a title becomes one import row, and only those do |
| `ImportCells.CellReads` | apps/api/src/import/csv.util.ts:96-104 | blank cells read as nothing, others as their trimmed text |
| `ImportCells.NumberReads` | apps/api/src/import/csv.util.ts:55-59 | a number is read as its exact decimal value, with its sign, whatever follows it |
| `ImportCells.NumericConcat` | apps/api/src/import/csv.util.ts:55-59 | the price cleaner looks at every character by itself |
| `ImportRows.ExportImport` | apps/api/src/import/csv.util.ts:74-107 | a catalogue exported in any quoting and line-break style is imported unchanged, row for row |
| `Importer.ImportService.ImportRow` | apps/api/src/import/import.service.ts:60-108 | one transaction: skip an existing slug, fail on a brand or SKU conflict leaving no trace, else write brand, draft product and default variant |
| `Importer.ImportService.ImportProducts` | apps/api/src/import/import.service.ts:26-42 | the loop imports the rows in order and created + skipped + errors is the number of rows |
| `Imported.OutcomeIff` | apps/api/src/import/import.service.ts:60-108 | a row is skipped if and only if its slug is there, and otherwise fails if and only if its SKU or the slug of a missing brand is taken; only a created row changes the tables |
| `Imported.ImportedIsRead` | apps/api/src/import/import.service.ts:60-108 | every created row is read back, field by field, from the product, its only variant and its brand, in the tables the whole import leaves |
| `Imported.BrandsFromRows` | apps/api/src/import/import.service.ts:70-86 | new brands carry a name from the rows that had no brand, and its slug |
| `Imported.TallyCounts` | apps/api/src/import/import.service.ts:27-43 | the summary counts the outcomes and names the rows that failed |
| `Importer.TallyTotal` | apps/api/src/import/import.service.ts:28-37 | every row is counted in exactly one of the three counters |
| `Importer.BrandConflictStays` | apps/api/src/import/import.service.ts:70-83 | a brand that could not get its slug can never get it later |
| `Importer.Reimport` | apps/api/src/import/import.service.ts:26-108 | after a file, any file made of its rows, in any order and number and whatever their first outcome, creates nothing and leaves products, variants and brands as they are |
| `Importer.ImportExtends` | apps/api/src/import/import.service.ts:60-108 | an import keeps every old row and the unique constraints, and each new product is a DRAFT with exactly one variant called Default |
| `Slugs.SlugifyCanonical` | packages/shared/src/ids.ts:15-22 | a slug is empty or hyphen-separated runs, spells exactly the alphanumeric characters of the lower-cased text, and the fixed points of slugify are exactly the texts of that shape |
| `SlugWords.SlugIsRuns` | packages/shared/src/ids.ts:15-22 | a slug is the runs of letters and digits of the lower-cased text, joined with single hyphens |
| `Slugs.UniqueSlug` | packages/shared/src/ids.ts:28-35 | the loop ends after at most as many suffixes as there are taken slugs and returns the free base or its least free suffix |
| `Slugs.SkuShape` | packages/shared/src/ids.ts:42-52 | a SKU keeps the run shape in upper case, fits the maximum length and is a prefix of the joined segments |
| `SlugWords.SuffixReads` | packages/shared/src/ids.ts:28-35 | a suffixed slug is the base, a hyphen and the number |
| `SlugWords.SkuIsRuns` | packages/shared/src/ids.ts:42-52 | a SKU is all runs of title and parts joined, cut at the limit and then freed of a hyphen at the cut |
| `SlugWords.ImportSlugIsRuns` | apps/api/src/import/csv.util.ts:62-71 | the importer's slug is the first 80 characters of the joined runs, or "item" when there are none |
| `Slugs.ImportSlugStable` | apps/api/src/import/csv.util.ts:62-71 | the importer's slug is never empty, fits 80 characters, and is its own slug if and only if the cut does not fall right after a hyphen |
| `Slugs.ImportSlugCut` | apps/api/src/import/csv.util.ts:62-71 | there is a title whose slug is not its own slug |
| `Hashes.ComputeDHash` | apps/worker/src/extraction/frame-sampler.service.ts:179-191 | the nested loop sets the specified bits |
| `Hashes.DHashBits` | apps/worker/src/extraction/frame-sampler.service.ts:179-191 | the hash fits 64 bits and each bit says whether its pixel is brighter than the one to its right |
| `Frames.HashByRows` | apps/worker/src/extraction/frame-sampler.service.ts:179-191 | bit c of row r says whether the pixel in column c is brighter than the one to its right |
| `Hashes.Hamming` | apps/worker/src/extraction/frame-sampler.service.ts:194-202 | the shifting loop ends and counts the ones of the exclusive or |
| `Hashes.HammingIsMetric` | apps/worker/src/extraction/frame-sampler.service.ts:194-202 | the distance is zero only between equal hashes, symmetric, and satisfies the triangle inequality |
| `Hashes.DistanceCountsDifferences` | apps/worker/src/extraction/frame-sampler.service.ts:179-202 | the distance of two image hashes is the number of the 64 comparisons that came out differently |
| `Blur.LaplacianVariance` | apps/worker/src/extraction/frame-sampler.service.ts:217-238 | the loop's three running sums give the variance of the Laplacians of the inner pixels, 0 when there are none |
| `Blur.VarianceIsMeanDeviation` | apps/worker/src/extraction/frame-sampler.service.ts:236-237 | the score is the mean squared deviation, so it is never negative and zero exactly for a constant sequence |
| `Frames.LaplacianIsDifferences` | apps/worker/src/extraction/frame-sampler.service.ts:217-238 | the stencil compares a pixel with its four neighbours |
| `Frames.LapsAt` | apps/worker/src/extraction/frame-sampler.service.ts:217-238 | the scored values are those of all inner pixels, row by row |
| `Frames.MedianSplits` | apps/worker/src/extraction/frame-sampler.service.ts:244-251 | the median is a score with at most half of the scores below it and fewer than the rest above it |
| `Blur.PruningKeepsHalf` | apps/worker/src/extraction/frame-sampler.service.ts:244-257 | while the minimum is at most half, the frames reaching the share of the median are the result, at least half of them rounded up, and the fallback is not taken |
| `Blur.DefaultPruning` | apps/worker/src/extraction/frame-sampler.service.ts:244-251 | with the default share and minimum the fallback is unreachable |
| `Blur.PruningShape` | apps/worker/src/extraction/frame-sampler.service.ts:244-257 | for any scores and settings the result is in temporal order and at least the minimum long |
| `Blur.FallbackShape` | apps/worker/src/extraction/frame-sampler.service.ts:252-256 | the fallback keeps exactly the minimum, in temporal order, and nothing dropped is sharper than anything kept |
| `Dedup.GreedyIsCanonical` | apps/worker/src/extraction/frame-sampler.service.ts:205-211 | for any notion of far, the greedy result is the only selection in which an item is kept exactly when no earlier kept one is too close; it has the first item and every dropped one is close to an earlier kept one |
| `Dedup.ComputeDedupeByHash` | apps/worker/src/extraction/frame-sampler.service.ts:205-211 | the loop computes that selection for the hash distance |
| `Dedup.DedupeTwice` | apps/worker/src/extraction/frame-sampler.service.ts:205-211 | deduplicating the survivors again drops nothing |
| `Dedup.ComputeSimilarityBelow` | packages/ai-core/src/clip.ts:26-40 | the three running sums decide the comparison with the threshold |
| `Sampler.CosineBelowIsQuotient` | packages/ai-core/src/clip.ts:38-39 | with the square roots of the two norms, the comparison is that of dot / (sqrt na * sqrt nb) with the threshold |
| `Dedup.CauchySchwarz` | packages/ai-core/src/clip.ts:31-39 | the square of the dot product is at most the product of the norms, so similarities lie between -1 and 1 |
| `Dedup.SimilarityFacts` | packages/ai-core/src/clip.ts:26-40 | the comparison is symmetric and no non-degenerate vector is below a threshold of at most 1 against itself |
| `Dedup.SimilarityZeroIff` | packages/ai-core/src/clip.ts:25-40 | the similarity of any two vectors is zero if and only if their prefixes of common length are orthogonal or one of them is all zeros |
| `Dedup.DifferentLengthsMerge` | packages/ai-core/src/clip.ts:25-56 | two vectors of different lengths with a similarity above the default threshold, of which the second is dropped |
| `Dedup.NothingDroppedAboveOne` | packages/ai-core/src/clip.ts:48-55 | a threshold above 1 drops nothing |
| `Dedup.SemanticDedupeIndices` | packages/ai-core/src/clip.ts:48-55 | the loop computes the canonical selection for the cosine comparison |
| `Sampler.SemanticDedupeTwice` | packages/ai-core/src/clip.ts:48-55 | deduplicating the kept vectors again keeps all of them |
| `Sampler.ThresholdOf` | apps/worker/src/extraction/semantic-deduper.service.ts:28-29 | the threshold in use is always above 0 and at most 1 |
| `Sampler.ComputeDedupeFrames` | apps/worker/src/extraction/semantic-deduper.service.ts:38-60 | filtering by the kept indices, with all its early returns, gives the specified frames |
| `Frames.ThresholdIs` | apps/worker/src/extraction/semantic-deduper.service.ts:28-29 | a configured threshold above 0 and at most 1 is used, and otherwise 0.92 |
| `Frames.DedupedExactly` | apps/worker/src/extraction/semantic-deduper.service.ts:38-60 | with one vector a frame, a frame is kept exactly when it is below the threshold against every kept frame before it |
| `Sampler.DedupeFramesShape` | apps/worker/src/extraction/semantic-deduper.service.ts:38-60 | the service never empties a list, keeps the order and the first frame, returns the input on any mismatch, and otherwise keeps frames pairwise below the threshold |
| `Sampler.SelectKept` | apps/worker/src/extraction/frame-sampler.service.ts:347-365 | the reassigned list ends up pruned, then deduplicated |
| `Dedup.PruneKeepsHalf` | apps/worker/src/extraction/frame-sampler.service.ts:355-358 | with real blur scores, pruning keeps at least half of more than two frames |
| `Frames.PrunedAreSharp` | apps/worker/src/extraction/frame-sampler.service.ts:355-358 | pruning keeps exactly the frames whose score reaches half the median, where more than two frames are all scored, and otherwise all |
| `Frames.SelectedIff` | apps/worker/src/extraction/frame-sampler.service.ts:347-365 | a frame is selected exactly when it is sharp and, where all sharp frames have hashes, far from every selected frame before it |
| `Dedup.SelectFramesShape` | apps/worker/src/extraction/frame-sampler.service.ts:347-365 | selection keeps at least one frame of a non-empty clip, in temporal order, pairwise at least the hash threshold apart when all have hashes |
| `Sorting.SortCorrect` | apps/worker/src/extraction/extraction-analyzer.service.ts:120 | sorting permutes, orders by descending key and keeps the order of equal keys |
| `Sorting.SortKeepsOrder` | apps/worker/src/extraction/extraction-analyzer.service.ts:120 | when the input is ordered by a relation, sorting leaves that order among equal keys |
| `Enrich.NormalIdempotent` | apps/worker/src/extraction/extraction-analyzer.service.ts:111-112 | normalising a title twice is normalising it once, and only blank titles become empty |
| `Titles.NormalIsWords` | apps/worker/src/extraction/extraction-analyzer.service.ts:111-112 | a cleaned title is its words with single blanks between them |
| `Titles.KeyIgnoresCase` | apps/worker/src/extraction/extraction-analyzer.service.ts:113 | titles that differ in case or spacing only have the same key |
| `Titles.KeptIff` | apps/worker/src/extraction/extraction-analyzer.service.ts:109-120 | a product's title key survives if and only if the title holds more than white space |
| `Titles.CleanKeeps` | apps/worker/src/extraction/extraction-analyzer.service.ts:111-119 | cleaning a product touches its title and nothing else |
| `Enrich.ComputeEnrichProducts` | apps/worker/src/extraction/extraction-analyzer.service.ts:108-121 | the loop over the insertion-ordered map computes the specified list |
| `Enrich.CollectOrder` | apps/worker/src/extraction/extraction-analyzer.service.ts:109-119 | the map lists its keys in the order in which they first occur in the input, replacements included |
| `Enrich.EnrichCanonical` | apps/worker/src/extraction/extraction-analyzer.service.ts:108-121 | exactly one product survives for each title key that occurs, the earliest of the most confident with its title normalised, best first, and equally confident ones in the order in which their keys first occur in the input |
| `Enrich.EnrichIdempotent` | apps/worker/src/extraction/extraction-analyzer.service.ts:108-121 | enriching twice is enriching once |
| `Merge.CodesExact` | apps/worker/src/queues/extraction.processor.ts:211-216 | the codes looked up are exactly the seeds and the codes vision products carry |
| `Merge.FillTable` | apps/worker/src/queues/extraction.processor.ts:217-221 | the table holds exactly the resolved codes with their lookups |
| `Merge.TakeStandalone` | apps/worker/src/queues/extraction.processor.ts:227-228 | the loop collects the lookups whose code no vision product carries, in order |
| `Merge.MergeProducts` | apps/worker/src/queues/extraction.processor.ts:211-232 | the merged list is the standalone lookups followed by the corrected vision products |
| `Merge.LookupEntersOnce` | apps/worker/src/queues/extraction.processor.ts:222-232 | a resolved code enters through its vision products, each fully replaced, or once on its own when none carries it, never both |
| `Merge.LookupSurvives` | apps/worker/src/queues/extraction.processor.ts:222-234 | every resolved lookup is in the merged list and its title key survives enrichment with at least its confidence |
| `MergeOrder.AloneInOrder` | apps/worker/src/queues/extraction.processor.ts:210-228 | the lookups on their own come in the order in which the seeds first name their codes |
| `Titles.VisionStays` | apps/worker/src/queues/extraction.processor.ts:222-232 | the merged list ends with the vision products in their order, each replaced by what its barcode resolves to and otherwise unchanged |
| `Merge.ChooseProducts` | apps/worker/src/queues/extraction.processor.ts:205-234 | vision products count only for a live answer, and the analysis list is used only when the merge is empty |
| `Merge.MockOnlyWhenNothing` | apps/worker/src/queues/extraction.processor.ts:230-234 | the merge is empty exactly when vision gave nothing and no seed code resolved |
| `Forest.MakeNodes` | apps/api/src/catalog/categories.service.ts:64-65 | one fresh childless node for each row, under its id |
| `Forest.File` | apps/api/src/catalog/categories.service.ts:68-74 | one push puts the row's node at the end of its parent's list or of the roots and changes no other list |
| `Forest.Tree` | apps/api/src/catalog/categories.service.ts:62-76 | every node's list holds exactly its children in row order and the roots are the rows without a listed parent |
| `Forest.RootedIffNoCycle` | apps/api/src/catalog/categories.service.ts:68-74 | an ancestor chain ends, within as many steps as there are rows, if and only if it does not run into a cycle |
| `Forest.TreeShows` | apps/api/src/catalog/categories.service.ts:62-76 | each row is in exactly one list, and walking down from the roots meets it once, or never exactly when its ancestor chain runs into a cycle |
| `Forest.DepthEnough` | apps/api/src/catalog/categories.service.ts:62-76 | no branch is deeper than the number of rows |
| `Forest.CompleteIffAcyclic` | apps/api/src/catalog/categories.service.ts:62-76 | the tree is a permutation of the rows if and only if the parent pointers are acyclic |
| `ForestOps.CategoryTable.Create` | apps/api/src/catalog/categories.service.ts:29-49 | a category is appended under a live parent or as a root; a missing parent and then a taken slug are refused without a change |
| `ForestOps.CategoryTable.Update` | apps/api/src/catalog/categories.service.ts:86-114 | an update is refused for the first of: missing row, itself as parent, missing parent, taken slug; otherwise it changes the given slug and parent pointer and nothing else |
| `ForestOps.CategoryTable.Remove` | apps/api/src/catalog/categories.service.ts:117-123 | a live row is marked deleted and stays in the table |
| `CategoryRows.SlugTakenIff` | apps/api/src/catalog/categories.service.ts:107-113 | a slug is refused if and only if another category, deleted or not, has it |
| `CategoryRows.CreatedRows` | apps/api/src/catalog/categories.service.ts:29-49 | a new category has the given slug and parent, and no other row changes |
| `CategoryRows.MovedRows` | apps/api/src/catalog/categories.service.ts:86-113 | a move sets the parent of its category and nothing else |
| `CategoryRows.RenamedRows` | apps/api/src/catalog/categories.service.ts:86-113 | a new slug changes nothing else |
| `CategoryRows.RemovedRows` | apps/api/src/catalog/categories.service.ts:117-123 | removing marks the row, which keeps its slug and its parent |
| `CategoryRows.LiveIff` | apps/api/src/catalog/categories.service.ts:52-60 | a category is live exactly when its row is not marked deleted |
| `ForestOps.CreateKeepsAcyclic` | apps/api/src/catalog/categories.service.ts:29-49 | creation keeps the live parent pointers acyclic |
| `ForestOps.RemoveKeepsAcyclic` | apps/api/src/catalog/categories.service.ts:117-123 | removal keeps them acyclic; the children become roots |
| `ForestOps.ClearKeepsAcyclic` | apps/api/src/catalog/categories.service.ts:101-105 | making a category a root keeps them acyclic |
| `ForestOps.MoveExact` | apps/api/src/catalog/categories.service.ts:86-105 | a move keeps them acyclic if and only if the category is not already above its new parent |
| `ForestOps.MutualParents` | apps/api/src/catalog/categories.service.ts:88-93 | two categories moved under each other are both live and the tree shows neither |
| `ForestOps.RenameKeepsTree` | apps/api/src/catalog/categories.service.ts:95-97 | a new slug changes nothing about what the tree shows |
| `Search.PriceMinLeast` | apps/api/src/search/search-indexer.service.ts:44-57 | the card's price is the least price of a live variant and missing exactly when there is none |
| `Listings.RunKeepsUnique` | packages/db/prisma/schema.prisma:851-906 | over every run no two products of a tenant share a slug and no two of its variants an SKU, deleted or not |
| `Listings.RefusedIff` | apps/api/src/catalog/products.service.ts:35-260 | a write is refused if and only if its row is missing or another row of the same tenant, deleted or not, has the slug or SKU it asks for |
| `Listings.UpdateWrites` | apps/api/src/catalog/products.service.ts:117-152 | an update sets the fields it gives and leaves the others and all other products |
| `Listings.PublishedIsListed` | apps/api/src/catalog/products.service.ts:165-175 | a published product whose index call gets through is ACTIVE and listed on both paths as its rows say |
| `Listings.RemovedIsUnlisted` | apps/api/src/catalog/products.service.ts:155-162 | a removed product whose index call gets through is listed on neither path |
| `Listings.VariantWrites` | apps/api/src/catalog/products.service.ts:181-260 | a variant is added under its product's tenant, gets the SKU or price given, or is marked deleted, and nothing else changes |
| `Listings.SyncLists` | apps/api/src/search/search-indexer.service.ts:64-82 | after a sync a product is listed on both paths as its rows say when it is live and ACTIVE, and otherwise on none |
| `Search.StepKeepsInv` | apps/api/src/search/search-indexer.service.ts:64-105 | every write and index call keeps this: a product not written since its last index call has the document of its current row, up to the brand name, and only live products have one |
| `Search.FastPathAgrees` | apps/api/src/storefront/storefront.service.ts:62-120 | after any run with delayed, failed or repeated index calls, if the tenant's writes were all synced in the end, both branches list the same cards up to the brand name |
| `Search.FastPathAgreesInFull` | apps/api/src/storefront/storefront.service.ts:62-120 | without brand edits they list the same cards |
| `Search.ServedPathsAgree` | apps/api/src/catalog/products.service.ts:35-260 | when index calls succeed, any sequence of product and variant operations, draft imports and brand edits leaves both branches agreeing, for every tenant, up to the brand name, and fully without brand edits |
| `Search.BrandEditDrifts` | apps/api/src/catalog/brands.service.ts:56-77 | after a brand edit the branches still agree if and only if the name is as before or no shown product carries the brand |
| `Search.RenameDrifts` | apps/api/src/catalog/brands.service.ts:56-69 | a run that renames a synced product's brand ends with nothing left to sync and different cards |
| `Search.ReindexRepairs` | apps/api/src/search/search-indexer.service.ts:95-105 | from any index, a full reindex makes the branches agree if and only if no ACTIVE document of the tenant lacks a live product of the tenant |
| `Search.OrphanSurvives` | apps/api/src/search/search-indexer.service.ts:84-105 | a run that removes a synced product while the index is unreachable, followed by a full reindex, leaves such a document and differing cards |
| `Catalog.ProductsService.LeastPrice` | apps/api/src/search/search-indexer.service.ts:44-57 | the minimum over the live variants' prices |
| `Catalog.ProductsService.SyncProduct` | apps/api/src/search/search-indexer.service.ts:64-82 | a successful call writes the live product's document or deletes that of a product that is gone; a failed one changes nothing |
| `Catalog.ProductsService.Unindex` | apps/api/src/search/search-indexer.service.ts:84-92 | a successful call deletes the document, a failed one changes nothing |
| `Catalog.ProductsService.ReindexTenant` | apps/api/src/search/search-indexer.service.ts:95-105 | the documents of the tenant's live products are added, counted, and no document is deleted |
| `Catalog.ProductsService.Create` | apps/api/src/catalog/products.service.ts:35-60 | a taken slug is refused; otherwise the product is written and synced, the write stands when the index call fails, and when it succeeds the document is the row's |
| `Catalog.ProductsService.Import` | apps/api/src/import/import.service.ts:62-105 | a draft and its variant are written without an index call, unless slug or SKU is taken |
| `Catalog.ProductsService.Update` | apps/api/src/catalog/products.service.ts:117-152 | a missing product and then a taken slug are refused without a change; otherwise only the given fields change and after a successful index call the document is the row's |
| `Catalog.ProductsService.Remove` | apps/api/src/catalog/products.service.ts:155-162 | the product is soft-deleted and its document removed |
| `Catalog.ProductsService.Publish` | apps/api/src/catalog/products.service.ts:165-175 | the product becomes ACTIVE and is synced |
| `Catalog.ProductsService.CreateVariant` | apps/api/src/catalog/products.service.ts:181-214 | a missing product and then a taken SKU are refused without a change; otherwise the variant is added and its product synced |
| `Catalog.ProductsService.UpdateVariant` | apps/api/src/catalog/products.service.ts:216-247 | a missing variant and then a taken SKU are refused without a change; otherwise the given SKU and price are written and the variant's product synced |
| `Catalog.ProductsService.RemoveVariant` | apps/api/src/catalog/products.service.ts:250-260 | the variant is soft-deleted and its product synced |
| `Sessions.StepKeepsInv` | apps/api/src/auth/auth.service.ts:192-325 | every transaction keeps: one holder (unrevoked session or request about to open one) per sign-in, one row per hash with at most one placeholder, spent tokens revoked |
| `Sessions.OneLiveSession` | apps/api/src/auth/auth.service.ts:192-325 | with any number of requests in flight and crashes between transactions, a sign-in has at most one unrevoked session at any time |
| `Sessions.TokensExchangedOnce` | apps/api/src/auth/auth.service.ts:202-233 | no refresh token is exchanged twice in any run |
| `Sessions.RevocationIsPermanent` | apps/api/src/auth/auth.service.ts:218-222 | sessions are never removed, keep their user and sign-in, and stay revoked |
| `Sessions.SpentTokenIsRefused` | apps/api/src/auth/auth.service.ts:202-264 | after a token was exchanged or logged out, presenting it changes nothing in any later state |
| `Sessions.SessionsAreEarned` | apps/api/src/auth/auth.service.ts:270-285 | there are never more sessions and pending grants than sign-ins and exchanged tokens together |
| `Sessions.SignInWorks` | apps/api/src/auth/auth.service.ts:270-325 | an undisturbed sign-in ends with a usable token if and only if no row holds the placeholder when it starts |
| `Sessions.SessionsStopIffOrphaned` | packages/db/prisma/schema.prisma:522-537 | some continuation creates another session if and only if no placeholder row was left by a dead request |
| `Sessions.CrashStopsSignIn` | apps/api/src/auth/auth.service.ts:277-317 | after one crash between the two transactions of a sign-in no later run creates a session |
| `SignIns.PrincipalsStay` | apps/api/src/auth/auth.service.ts:150-325 | over every run each session, pending request and signed token carries the user and the tenant of the sign-in it goes back to, through every rotation |
| `SignIns.RefreshIff` | apps/api/src/auth/auth.service.ts:192-241 | a token is exchanged exactly when it is signed and unexpired, its session is live and unexpired and the membership active; a missing membership still revokes |
| `SignIns.RotationWorks` | apps/api/src/auth/auth.service.ts:192-325 | an undisturbed rotation replaces a usable token by a usable one for the same user, tenant and sign-in, and the old one is of no use any more |
| `SignIns.RevokedByOwnToken` | apps/api/src/auth/auth.service.ts:202-264 | a session is only revoked by presenting one of its own tokens, signed and unexpired |
| `SignIns.LogoutRevokes` | apps/api/src/auth/auth.service.ts:248-264 | logging out with a token that verifies revokes its session, and otherwise changes nothing |
| `Sessions.AuthService.Login` | apps/api/src/auth/auth.service.ts:150-185 | an accepted login becomes a request about to open a session of a new sign-in |
| `Sessions.AuthService.Refresh` | apps/api/src/auth/auth.service.ts:192-233 | the chain of checks exchanges exactly the verified, backed tokens of active members, and a backed token of a former member still revokes its session |
| `Sessions.AuthService.Logout` | apps/api/src/auth/auth.service.ts:248-264 | a verified token revokes its session, any other changes nothing |
| `Sessions.AuthService.Create` | apps/api/src/auth/auth.service.ts:277-285 | the placeholder row is inserted unless another one exists |
| `Sessions.AuthService.Store` | apps/api/src/auth/auth.service.ts:306-317 | the signed token's hash replaces the placeholder of its own unrevoked row |
| `Sessions.AuthService.IssueTokens` | apps/api/src/auth/auth.service.ts:270-325 | both transactions succeed if and only if no placeholder row exists |
| `Fees.FeeIsNearest` | apps/api/src/checkout/fee.util.ts:7-10 | the fee is the one integer within half a cent of the exact share, halves rounding up |
| `Fees.FeeMonotone` | apps/api/src/checkout/fee.util.ts:7-10 | a larger subtotal or rate never lowers the fee, for all integers |
| `Fees.FeeWithinSubtotal` | apps/api/src/checkout/fee.util.ts:7-10 | up to 10000 basis points the fee is between 0 and the subtotal, 0 without a positive subtotal and rate, and all of it at 10000 |
| `Fees.SplitMovesFee` | apps/api/src/checkout/fee.util.ts:7-10 | splitting a subtotal into n orders moves the total fee by at most n/2 cents |
| `Fees.SplitBoundIsTight` | apps/api/src/checkout/fee.util.ts:7-10 | for every n there is a split that moves it by n/2 cents, rounded down |
| `Checkout.CheckoutService.PriceCart` | apps/api/src/checkout/checkout.service.ts:91-92 | the lines are the cart's items at live prices with their subtotal, or none exactly when an item is unavailable |
| `Checkout.CheckoutService.Create` | apps/api/src/checkout/checkout.service.ts:104-140 | a DRAFT order with the next number, its lines, totals and fee is appended, unless the number is taken |
| `Checkout.CheckoutService.MarkPending` | apps/api/src/checkout/checkout.service.ts:159-168 | exactly the order with the id becomes PENDING |
| `Checkout.CheckoutService.KeepOthers` | apps/api/src/checkout/checkout.service.ts:176-177 | the orders without the one with the id, in their order |
| `Checkout.CheckoutService.Delete` | apps/api/src/checkout/checkout.service.ts:176-177 | exactly the order with the id is removed and the rest keep their order |
| `Checkout.CheckoutService.Checkout` | apps/api/src/checkout/checkout.service.ts:58-183 | a checkout leaves one new PENDING order priced from live variants, or fails for the first of its checks that does (Stripe, store, cart, item, number, session) with the orders as they were |
| `Invoices.SubtotalIsUnits` | apps/api/src/checkout/checkout.service.ts:91-92 | the subtotal is the live price of every unit in the cart |
| `Invoices.OrderCharges` | apps/api/src/checkout/checkout.service.ts:91-140 | a new order is a DRAFT over exactly the lines, charges their subtotal, and a fee only to connected stores, the share of the subtotal rounded to the nearest cent |
| `Invoices.RefusedIff` | apps/api/src/checkout/checkout.service.ts:58-90 | each refusal before the order happens exactly under its own condition and the absence of the earlier ones |
| `Invoices.ConfirmWrites` | apps/api/src/checkout/checkout.service.ts:159-168 | a confirmation makes the order with the id PENDING and changes nothing else of any order |
| `Invoices.NumbersStart` | apps/api/src/checkout/checkout.service.ts:110-116 | the first order of a store is number 1001, and so is the one after a number that starts with no digit or is all zeros |
| `Checkout.OrdersSound` | apps/api/src/checkout/checkout.service.ts:104-140 | however placements, confirmations and rollbacks interleave, and whichever of several newest orders is read, no two orders share a number and every total is the sum of its lines and covers its fee |
| `Checkout.NumbersNeverRunOut` | apps/api/src/checkout/checkout.service.ts:104-116 | from stored orders whose numbers and creation times grow together, while each order is placed later than all others, they keep doing so and the next number is free |
| `Checkout.GapCloses` | apps/api/src/checkout/checkout.service.ts:104-116 | while some order has a higher number than the newest one, later placements run into it |
| `Checkout.NumbersRunOutIff` | apps/api/src/checkout/checkout.service.ts:104-181 | some checkout fails for its number in some run of later placements, confirmations and rollbacks if and only if two stored orders are out of step: one that was not created before the other has no higher number |
| `Checkout.TiedRun` | apps/api/src/checkout/checkout.service.ts:105-110 | three orders of one moment, a rollback and one more placement leave 1002 as the newest order beside 1003 |
| `Checkout.TiesStopCheckout` | apps/api/src/checkout/checkout.service.ts:105-116 | from there every later placement computes a number that is taken and fails |
| `Checkout.NumberRoundTrip` | apps/api/src/checkout/checkout.service.ts:110-116 | parsing a printed order number gives it back |
| `Checkout.RollbackUndoesPlace` | apps/api/src/checkout/checkout.service.ts:175-181 | deleting the order just placed restores the orders and the next number |
| `Checkout.OrdersOfRun` | apps/api/src/checkout/checkout.service.ts:104-181 | the stored orders of a run are exactly those it started with and those it placed, less those rolled back later |
| `Checkout.StaleNumberTaken` | apps/api/src/checkout/checkout.service.ts:105-116 | a number computed from an earlier state is taken after any steps in between if and only if one of them placed an order under it that no later one rolled back |

## Left out

- Row-level security and the tenant helpers: a transaction sees one tenant's rows, and the tables of `Commerce`, `Stock` and `Checkout` are one tenant's.
- Interleaving inside one transaction: transactions are atomic steps. Outdated reads are part of the labels where on-hand levels and return statuses are decided on, and `Checkout.StaleNumberTaken` says what an outdated newest order leads to; an order status that two overlapping deliveries both read as unpaid is not among them.
- Calls that check in one transaction and write in another are one step in `Catalog` and `ForestOps`, and the lookup of the payment is part of the refund snapshot's step in `Commerce`.
- Stripe, Shippo, Gemini, the embedder, the barcode service, S3, SMTP, Redis and BullMQ as clients: only their answers and failures appear, as parameters.
- Reading the product and writing its document in `syncProduct` is one step; two overlapping syncs of one product are not interleaved.
- Floating point: confidences, scores, vectors and prices are exact reals or decimals, and the fee's product and quotient are exact. Overflow to infinity in `parseFloat` does not occur.
- Unicode: case mapping covers ASCII, text is taken as already decomposed and stripped of combining marks, and a `char` is one code point rather than a UTF-16 unit.
- Non-empty search queries, ranking, pagination and the order of cards: both branches are compared as sets of cards.
- Document fields that no card shows (description, categories, SKUs, type, dates).
- Catalog.ProductsService.UpdateVariant: models the SKU and the price; title, barcode, options, cost, tax, policy and position neither reach a card nor conflict.
- Catalog.ProductsService.Import: the importer's brand rows and brand conflicts are in `Importer`, not here.
- Barcodes of vision products are absent or 6 to 14 digits, as the analyser's own check leaves them, so an empty code does not occur.
- JWT signing, argon2 and credential checks: a refresh token is its unique signed payload, and hash verification is equality.
- Sign-up provisioning and the deletion of a user with its sessions.
- Notifications, e-mails, address snapshots, metrics and the Connect account mirror of the billing worker.
- The JSON form of the import request, which trims its fields and joins the CSV path.
- Reserved stock, reorder alerts and the derived available quantity.
- Frame rate computation, ffmpeg arguments and image decoding; the job's status stages and image uploads of the extraction worker.
- Cart totals, order search, shipping, media, GDPR erasure and RBAC: single-branch code that would only add easy members.
- Search.FastPathAgrees: compares brand names only in the absence of brand edits, because the code does not sync them; `Search.BrandEditDrifts` gives the exact condition.
