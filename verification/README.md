# Orders, stock, carts and reminders: a verified model

A Dafny 4.11 model of the order microservice. Two components share one clock and one store catalogue:

- **Orders** (`Stock`, `Orders`, `OrderViews`, `OrderRules`, `Interleaving`, `Returns`, `Accounting`, `Lifecycle`,
  `Idempotency`, `Checkout`, `OrderServices`): checkout with remote stock reservation, the payment saga, status
  handlers with their audit log, asynchronous stock returns, refunds, idempotency keys and status mails.
- **Carts** (`Fields`, `Shop`, `ShopRules`, `ShopEffects`, `Reminders`, `CartServices`): the two Redis hashes of each
  user with sliding deadlines, the sync with the store, moves between the hashes, and delayed reminder jobs.

`Base`, `Sums`, `Money` and `Pricing` hold shared vocabulary, sums and the two price selectors; `Listing` the order
queries; `Environments` the world the services act on (Redis, queue, store, database tables, broker, clock).

Each component is a state machine on values (`Shop.Shop`, `Orders.World`), one function per handler. The classes in
`CartServices` and `OrderServices` carry the imperative code with its loops and in-place updates; every method is
proved to leave exactly the state, and give the reply, of its handler function. `OrderRules` and `ShopEffects` say
what each of these functions does in plain terms: when it succeeds, its error otherwise, and all it writes. The
properties are then proved over all runs of the machines. Status handlers are split into `Decide` (read and guards)
and `Commit` (transaction, stock returns, mail): an atomic handler does both at once, an interleaved run
(`Interleaving.SplitRun`) does anything in between, and a checkout in it may go on long after it looked its
idempotency key up. Failures are inputs: each reservation call may work, never arrive or lose its reply; each rollback
return and each return message may fail; checkout may fail at each of its writes; a status transaction may fail as a
whole. `World.lost` and `World.returned` only record history.

Where the repository's own documentation differs, the code is followed:

- Reminders: four delays (1, 24, 72 and 144 hours), not three jobs; they are also cancelled when an update or removal
  empties the cart, and moving an item to the wishlist neither reschedules nor cancels them nor slides the cart's
  deadline (`ShopRules.MoveToWishlistKeepsReminders`, `EmptiedByMoveKeepsReminders`).
- Moving to the cart deletes the wishlist entry before the cart has accepted the item (`ShopRules.FailedMoveLosesItem`).
- Reservations are rolled back on a shortage only; when a reservation call itself fails, the earlier ones stay taken
  (`Stock.BrokenRestoresExactly` and `RollBackRestoresExactly` say exactly when nothing is lost, `FailingCallLosesStock`
  loses two units).
- An idempotency key does not always prevent duplicates: `Idempotency.OneOrderPerKeyExactly` says exactly when it does
  and `OrdersPerKey` counts the orders; a write failing after the order row (`FailedWriteThenRetryPlacesTwice`) or a
  key looked up too early (`RacingRequestsPlaceTwice`) leads to a second one.
- Stock is not always returned once per cancelled or refunded order: `Returns.SingleReturnExactly` and
  `AtomicSingleReturnExactly` say exactly when it is, `RaceReturnsStockTwice` and `AdminCancelReturnsNothing` break it.
- The first history row is written outside any transaction with the order, so creation is not always recorded:
  `Lifecycle.PathsStartPending` says exactly when it is, `UnloggedOrder` which failures leave an order without a row.
- Order and items are two inserts, so a stored total need not match the stored items: `Checkout.TotalsStayClose` says
  exactly when it does, `UnitemizedTotalIsOff` leaves one that does not.
- The checkout reply carries the unrounded prices of the entity in memory; the database keeps cents.

Assumptions: money is exact (reals) and store prices are numbers; order quantities are positive where a lemma says so;
the store accepts a tracked reservation exactly when stock covers it, ignores returns of untracked items and treats an
empty variant id as none; the set of tracked items is fixed; the clock never goes back and stands still within a
handler; adding a queue job whose id exists does nothing; a Redis key disappears with its last field; Redis reports
the remaining time in rounded seconds. Order ids are modelled as creation indices.

## Model

| member | source | states |
|---|---|---|
| Stock.ReserveAllOrNothing | src/order/order.service.ts:356-384 | without remote failures, for any list (repeated keys, untracked items): everything is reserved exactly when for each tracked key the summed demand fits, each counter then drops by exactly that sum, and otherwise the counters are exactly restored |
| Stock.ReserveAccounts | src/order/order.service.ts:356-384 | under any failing, unanswered or lost calls each counter plus the losses plus the reserved demand equals the counter before |
| Stock.ReserveStaysNonNegative | src/order/order.service.ts:356-384 | no failures and no demand drive a counter below zero, after any number of items |
| Stock.ReserveFromLosesNothing | src/order/order.service.ts:356-384 | without failures nothing is lost, whatever the quantities |
| Stock.BrokenRestoresExactly | src/order/order.service.ts:356-384 | a checkout stopped by a failing reservation call leaves the stock as it was if and only if every item before it is untracked and the store did not act on that call |
| Stock.FailingCallLosesStock | src/order/order.service.ts:356-384 | two units taken for the first item never come back when the call for the second does not arrive |
| Stock.RollBackRestoresExactly | src/order/order.service.ts:368-378 | the rollback after a shortage loses nothing if and only if none of its return calls fails |
| OrderServices.OrderService.ReserveStock | src/order/order.service.ts:356-384 | the loop with its list of reservations computes exactly that reservation, including what it abandons when a call fails |
| OrderServices.OrderService.RollBackAll | src/order/order.service.ts:368-378 | the rollback returns every reservation, each call failing on its own |
| Accounting.StockIsAccounted | src/order/order.service.ts:113-134 | in every interleaved run with any failures: stock on hand = initial - held by created orders + handed back - in flight - lost, for each tracked key |
| Accounting.ReachableIsAccounted | src/order/order.service.ts:113-134 | so it is in every state reachable from the opening |
| Accounting.StockBelongsToLiveOrders | src/order/order.service.ts:337-354 | in every state reached by commits that suit the orders: initial stock = on hand + held by orders neither cancelled nor refunded + in flight + lost |
| Accounting.CommitAccounts | src/order/order.service.ts:274-274 | a transaction that hands stock back puts exactly the order's quantities in flight |
| Accounting.ArriveAccounts | src/order/order.service.ts:436-450 | a return message that arrives raises the counter by what left the wire, one that fails is counted as lost |
| Accounting.CreateAccounts | src/order/order.service.ts:83-164 | a checkout failing at any call or write keeps the balance |
| Accounting.NoFailureNoLoss | src/order/order.service.ts:356-384 | nothing is ever lost in a run without failures |
| Accounting.StockStaysNonNegative | src/order/order.service.ts:356-384 | with positive order quantities no interleaving and no failure makes a counter negative |
| Accounting.ReachableIsPhysical | src/order/order.service.ts:356-384 | so from an opening without negative stock none is ever reached |
| Interleaving.AuditSurvivesInterleaving | src/order/order.service.ts:208-219 | with reads and commits of status handlers interleaved at will: every status is the one of the last row, or PENDING without any row, the owner was mailed exactly once per row with a notifiable status, in order, and rows are in time order |
| Interleaving.ReachableIsSound | src/order/order.service.ts:208-219 | so it is in every state reachable from the opening |
| Interleaving.LogOnlyGrows | src/order-status-history/order-status-history.service.ts:25-36 | in every interleaved run rows are only added at the end |
| Interleaving.CommitKeepsPath | src/order/order.service.ts:337-351 | a commit keeps an order's path unbroken exactly when the order still has the status the handler had read |
| Interleaving.PathsUnbrokenExactly | src/order/order.service.ts:228-351 | after any interleaved run all paths are unbroken if and only if every commit found the status its handler had read; a broken path never heals |
| Interleaving.InterleavingBreaksPath | src/order/order.service.ts:286-310 | a confirmation and a cancellation that both read before either commits do break the path and cancel a confirmed order |
| Interleaving.HandlerIsReadThenCommit | src/order/order.service.ts:228-243 | the atomic handler is the read and the commit with nothing in between |
| Interleaving.AtomicRunsAreSplitRuns | src/order/order.service.ts:228-333 | every atomic run is an interleaved run, so the interleaved guarantees hold for it |
| Returns.CommitKeepsSingleReturn | src/order/order.service.ts:337-354 | a commit keeps an order's stock handed back once exactly when cancelled or refunded if and only if a commit that hands stock back finds the order in neither status and any other carries it neither into nor out of them, the guard no handler has |
| Returns.SingleReturnExactly | src/order/order.service.ts:228-354 | for interleaved runs with any failures: stock is handed back right in every state of the run if and only if every commit meets that condition |
| Returns.ReachableSingleReturn | src/order/order.service.ts:228-354 | the same from the opening |
| Returns.RaceReturnsStockTwice | src/order/order.service.ts:228-243 | two cancellations that both read before either commits miss the condition and hand the same stock back twice |
| Returns.AtomicSingleReturnExactly | src/order/order.service.ts:200-354 | for atomic handlers with any failures: stock is handed back right in every state of the run if and only if no admin update takes an order into or out of CANCELLED and REFUNDED |
| Returns.ReachableAtomicSingleReturn | src/order/order.service.ts:200-354 | the same from the opening |
| Returns.AdminCancelReturnsNothing | src/order/order.service.ts:200-219 | such an update, from PENDING to CANCELLED, is accepted and hands no stock back |
| Lifecycle.AtomicPathsUnbroken | src/order/order.service.ts:260-310 | with atomic handlers each row continues from the status the previous row reached, so the literal PENDING and DELIVERED of the code are always true |
| Lifecycle.PathsStartPending | src/order/order.service.ts:115-141 | after any interleaved run with any failures every order's log opens with null -> PENDING if and only if no checkout that adds an order has its item or history write fail |
| Lifecycle.ReachablePathsStartPending | src/order/order.service.ts:115-141 | the same from the opening |
| Lifecycle.LastRowIsStatus | src/order/order.service.ts:136-141 | in a run from the opening in which no such write fails for an added order, every order has a last row, and that row has its status |
| Lifecycle.UnloggedOrder | src/order/order.service.ts:115-141 | a checkout that adds an order leaves it without any row if and only if its item or history write fails |
| Lifecycle.FirstResolutionWins | src/order/order.service.ts:228-333 | for any finite mix of steps without an admin update of a pending order, the first payment event or owner's cancellation alone fixes its status, with exactly one row more, and stock return and cancellation mail once if it was a cancellation and never otherwise |
| Lifecycle.ResolvedStays | src/order/order.service.ts:293-296 | a confirmed or cancelled order ignores every later payment event, cancellation and refund |
| Lifecycle.LifecycleIsBounded | README.md:93-112 | with admin updates only on the documented edges: one row per status passed (less a creation row that failed), CANCELLED and REFUNDED absorbing, and each committed transaction uses up one of the levels left |
| Lifecycle.AtMostSixRows | README.md:93-112 | in such runs no order ever has more than six rows |
| Lifecycle.DocumentedSingleReturn | README.md:93-112 | in such runs each order's stock is handed back once exactly when it is cancelled or refunded, in every state |
| Lifecycle.DeliveryIsLastRow | src/order-status-history/order-status-history.service.ts:38-44 | a delivered order's last row is the delivery that findDeliveredAt picks |
| Lifecycle.DeliveredAtIsARow | src/order-status-history/order-status-history.service.ts:38-44 | the delivery time found is that of a delivery row of the order, and no delivery row is later |
| Lifecycle.RefundExactly | src/order/order.service.ts:245-282 | in every sound state a refund is granted exactly to the owner of a delivered order whose last row is at most thirty days old, and the missing-date error never occurs |
| Lifecycle.ReachableRefundExactly | src/order/order.service.ts:245-282 | so it is in every state reachable from the opening, interleaved or not |
| Idempotency.ReplayChangesNothing | src/order/order.service.ts:88-96 | within twenty-four hours of an answered keyed request, whatever atomic handlers did or failed to do in between, the key yields the original answer to its user, a refusal to others, and no change of any state |
| Idempotency.ReplayExactly | src/order/order.service.ts:88-96 | in interleaved runs with any failures a request of the same user under that key within twenty-four hours changes nothing and yields the original answer if and only if no checkout that looked the key up too early has taken it over in between |
| Idempotency.EntryStaysExactly | src/order/order.service.ts:147-154 | after any interleaved run a key still holds the same entry if and only if no checkout took it over, and otherwise one for a newer order |
| Idempotency.CachedExactlyWhenAnswered | src/order/order.service.ts:147-158 | a keyed request that is not a replay is remembered exactly when it answers with an order; after any error a retry is not recognised |
| Idempotency.OneOrderPerKey | README.md:32 | in any run of atomic checkouts shorter than twenty-four hours in which no request under the key fails after its order row, at most one order is created under the key, whatever else happens or fails |
| Idempotency.OneOrderPerKeyExactly | src/order/order.service.ts:88-158 | for every interleaved run shorter than twenty-four hours that starts with the key unknown, with any failures: in every state one order exists under the key if it is known and none if not, if and only if every checkout that will create an order finds the key unknown and has no write failing after its order row; then at most one is created in all |
| Idempotency.PlacesExactly | src/order/order.service.ts:98-134 | whether a checkout will create an order is settled beforehand by its key, lines, prices, stock and the order row write |
| Idempotency.OrdersPerKey | src/order/order.service.ts:88-158 | for every interleaved run with any failures: the orders created under a key are those whose request failed after the order row, those of checkouts that looked the key up too early, and at most one more |
| Idempotency.KeyForgottenExactly | src/order/order.service.ts:115-154 | a keyed request that creates an order leaves its key unknown if and only if the item, history, cart or cache write fails |
| Idempotency.FailedWriteThenRetryPlacesTwice | src/order/order.service.ts:147-158 | after such a failure the retry under the same key does place the order and take the stock a second time |
| Idempotency.LateRequestExactly | src/order/order.service.ts:88-96 | a request that looked its key up earlier does what an atomic one would do now if and only if the key is still unknown |
| Idempotency.RacingRequestsPlaceTwice | src/order/order.service.ts:88-96 | two checkouts under one key that both look it up before either is through create two orders |
| Idempotency.CacheStaysTrue | src/order/order.service.ts:147-154 | in every interleaved run with any failures each cached answer names an order of its user whose items and total no later handler has altered |
| Idempotency.ReachableCacheIsTrue | src/order/order.service.ts:147-154 | so it is in every state reachable from the opening |
| Pricing.SelectorsAgree | src/order/order.service.ts:386-420 | an order price exists exactly for items on sale that the cart's selector can price, and is the same price |
| Pricing.BasePriceChoice | src/cart/cart.service.ts:218-227 | without a variant the first discount price wins, and the first regular price counts only when there is none |
| Pricing.VariantPriceChoice | src/cart/cart.service.ts:205-216 | with a variant its first entry counts; the regular price replaces an absent discount price but not a blank one |
| Checkout.TotalsAgree | src/cart/cart.service.ts:287-300 | on one snapshot the order total over the entries of a synced cart is the cart total, whatever prices the client sent and in whatever order the hash was listed |
| Checkout.CheckoutTotalIsCartTotal | src/order/order.service.ts:98-110 | a newly answered order on what getCart showed, at any later time with the same store snapshot, has the total getCart showed |
| Checkout.CheckoutAllOrNothing | src/order/order.service.ts:83-164 | without failures a new checkout succeeds exactly when it has lines, all are priceable and the demand fits; otherwise nothing in the system changes |
| OrderRules.CheckoutTakesDemand | src/order/order.service.ts:83-164 | without failures a new checkout is answered exactly when it has lines, every line has a server price and each tracked item and variant has stock for the units asked of it; each counter then falls by exactly those units, a shortage is a failed precondition, and an error leaves everything as it was |
| OrderRules.CheckoutReplies | src/order/order.service.ts:83-164 | each error of a checkout, and its answer, by its own condition: no lines, a remembered key of another user, a line without a price, a shortage, a failed reservation call, a failed write |
| OrderRules.RepricedExactly | src/order/order.service.ts:98-100 | a checkout can be priced exactly when each of its lines can |
| OrderRules.FirstUnpriced | src/order/order.service.ts:98-100 | otherwise the first line without a price decides the error |
| OrderRules.ServerPriceErrors | src/order/order.service.ts:386-420 | a line without a price is a failed precondition, unless the store failed in another way than not knowing the item |
| OrderRules.CheckoutWrites | src/order/order.service.ts:112-158 | an answered new checkout adds one order, its null -> PENDING row, its twenty-four hour cache entry and its confirmation mail, and answers with that order before rounding to cents |
| OrderRules.FailedWriteLeaves | src/order/order.service.ts:112-158 | what each failing write leaves of order, items, row, cart, cache entry and mail |
| Checkout.SnapshotOfRequest | src/order/order.service.ts:115-134 | an answered new checkout adds exactly one order, the customer's pending one, line by line the requested product, variant, display and quantity at the rounded server price, with currency and price type defaulted |
| Checkout.CheckoutClearsCart | src/order/order.service.ts:145-145 | a checkout touches nothing of carts, wishlists and reminders but its customer's cart, which a successful one clears |
| Checkout.OrderSettlesCart | src/order/order.service.ts:145-145 | after a new order its customer has an empty cart and no pending reminder |
| Checkout.RunKeepsShopGood | src/cart/cart.service.ts:18-22 | the cart, wishlist and job invariants hold in runs of both components together |
| Checkout.StoredTotalIsClose | src/order/entities/order.entity.ts:20-21 | the stored total differs from the sum over stored unit prices by at most half a cent times (1 + units), and not at all for whole-cent prices |
| Checkout.AddedTotalExactly | src/order/order.repository.ts:49-55 | the bound holds for the order a checkout adds if and only if its items were written or its total rounds to nothing |
| Checkout.UnitemizedTotalIsOff | src/order/order.repository.ts:49-55 | a checkout of one unit at 5.00 whose item insert fails leaves a stored total of 5.00 over no items |
| Checkout.TotalsStayClose | src/order-item/entities/order-item.entity.ts:27-28 | after any interleaved run with any failures the bound holds for every order if and only if no checkout with a total that does not round to nothing added an order while its item insert failed |
| Checkout.ReachableTotalsStayClose | src/order-item/entities/order-item.entity.ts:27-28 | the same from the opening |
| Money.StoredTotalBound | src/order/entities/order.entity.ts:20-21 | the rounding bound for any number of items |
| Money.RoundingExactly | src/order-item/entities/order-item.entity.ts:27-28 | storing keeps whole cents, at most half a cent away, ties going away from zero |
| OrderServices.OrderService.CreateOrder | src/order/order.service.ts:83-164 | the handler leaves exactly the state and gives the reply of the checkout step, for every failure |
| OrderServices.OrderService.PersistOrder | src/order/order.service.ts:115-158 | order, items, first row, cart clearing, cache entry and mail, stopping at the first failing write |
| OrderServices.OrderService.FinishOrder | src/order/order.service.ts:143-158 | cart clearing, cache entry and mail; a failing cache write leaves the order uncached and unmailed |
| OrderServices.OrderService.CreateWithItems | src/order/order.repository.ts:49-55 | two separate inserts: a failure of the second leaves an order row without items |
| OrderServices.OrderService.CancelOrder | src/order/order.service.ts:228-243 | state and reply are those of the atomic cancellation; a failed transaction changes nothing |
| OrderRules.CancelExactly | src/order/order.service.ts:228-243 | each reply of a cancellation by its own condition on existence, owner, status and transaction; the answer is the order as it then stands, CANCELLED, with one row, one mail and one return message per line for its item, variant and quantity |
| OrderServices.OrderService.PerformCancellation | src/order/order.service.ts:337-354 | status and row together, then stock on its way and one mail |
| OrderServices.OrderService.RefundOrder | src/order/order.service.ts:245-282 | state and reply are those of the atomic refund |
| OrderRules.RefundReplies | src/order/order.service.ts:245-282 | the same for a refund: granted exactly to the owner of a delivered order with a delivery row at most thirty days old, and answered with the order REFUNDED |
| OrderServices.OrderService.UpdateOrderStatus | src/order/order.service.ts:200-226 | state and reply are those of the unguarded update, with a mail for notifiable statuses only |
| OrderRules.UpdateExactly | src/order/order.service.ts:200-226 | each reply of an update; the answer is the order with the requested status, the row has the old and the new status, actor and notes, and exactly SHIPPED, DELIVERED, CANCELLED and REFUNDED are mailed to the owner |
| OrderServices.OrderService.ConfirmOrder | src/order/order.service.ts:286-315 | state is that of the atomic confirmation; it throws only when the transaction fails |
| OrderRules.ConfirmExactly | src/order/order.service.ts:286-315 | a confirmation acts exactly on a pending order whose transaction goes through, with one row by the saga and nothing else |
| OrderServices.OrderService.CancelOrderBySaga | src/order/order.service.ts:317-333 | state is that of the atomic saga cancellation; it throws only when the transaction fails |
| OrderRules.SagaCancelExactly | src/order/order.service.ts:317-354 | a failed payment does too, with the reason in the row, and mails and hands the stock back once |
| OrderServices.OrderService.ReturnStockForOrder | src/order/order.service.ts:436-450 | one return message per item joins those in flight, in order |
| OrderRules.ArriveExactly | src/order/order.service.ts:436-450 | a return message that arrives raises exactly the counter of its item and variant, and is off the wire either way |
| OrderServices.OrderSagaController.OnPaymentSucceeded | src/order/order-saga.controller.ts:31-42 | the event is acknowledged unless the order was pending and the transaction failed |
| OrderServices.OrderSagaController.OnPaymentFailed | src/order/order-saga.controller.ts:44-55 | the same for failed payments |
| OrderServices.OrderStatusHistoryService.Append | src/order-status-history/order-status-history.service.ts:25-36 | one row at the end of the log, nothing else |
| OrderServices.OrderStatusHistoryService.FindDeliveredAt | src/order-status-history/order-status-history.service.ts:38-44 | the search over the log finds the latest delivery |
| OrderServices.OrderStatusHistoryService.FindByOrderId | src/order-status-history/order-status-history.service.ts:46-62 | all rows of the order and no other, sorted by time; on a log written in time order, as written |
| OrderRules.RowsOfExactly | src/order-status-history/order-status-history.service.ts:46-49 | an order has exactly the rows of the log with its id |
| ShopRules.ReachableIsGood | src/cart/cart.service.ts:63-74 | in every reachable state every entry of either hash has quantity 1 to 99 under the field of its own product and variant, every non-empty hash has a live deadline at most 7 (cart) or 30 (wishlist) days ahead, and pending jobs are unique per user and index |
| ShopRules.StepKeepsGood | src/wishlist/wishlist.service.ts:97-134 | every single handler, worker run and clock tick keeps that |
| ShopRules.AddItemExactly | src/cart/cart.service.ts:53-83 | exactly when adding succeeds, by how much the entry grows, and that otherwise nothing changes |
| ShopEffects.AddItemErrors | src/cart/cart.service.ts:53-74 | why adding is refused: each error by its own condition |
| ShopEffects.PriceErrors | src/cart/cart.service.ts:204-228 | a missing variant is NotFound, a missing price PreconditionFailed |
| ShopRules.UpdateItemExactly | src/cart/cart.service.ts:85-120 | exactly when an update succeeds, the quantity it sets, 0 removing the entry, and nothing else changing |
| ShopEffects.UpdateItemErrors | src/cart/cart.service.ts:85-99 | why an update is refused: each error by its own condition |
| ShopEffects.CartChangesFrame | src/cart/cart.service.ts:53-120 | adding and updating change at most one field of the one cart, no other key and no other user's jobs |
| ShopEffects.RemoveItemExactly | src/cart/cart.service.ts:122-141 | removing takes exactly the named entry out, leaves every other entry, key and user alone, and settles what is left of the cart |
| ShopEffects.RemovingOneOfTwo | src/cart/cart.service.ts:122-141 | a cart of two items keeps the other one and its four reminders |
| ShopEffects.ClearCartExactly | src/cart/cart.service.ts:143-152 | clearing takes the cart and its reminders and nothing else |
| ShopRules.CartHandlersSettle | src/cart/cart.service.ts:106-134 | right after each successful add, update, remove or clear all four reminders are pending with fresh due times and the deadline is seven days away if the cart is non-empty, and neither exists if it is empty |
| ShopRules.GetHashDeadline | src/cart/cart.service.ts:43-45 | a read keeps a hash alive exactly when the sync leaves it an entry, with its full time to live and never less than it had |
| ShopEffects.GetHashExactly | src/cart/cart.service.ts:39-51 | a read leaves exactly the synced entries, touches no other key and no job, and gives a non-empty cart 7 and a wishlist 30 days |
| ShopRules.SyncMeaning | src/cart/cart.service.ts:255-284 | field by field: withdrawn items are dropped, priceable ones refreshed, others kept, and no quantity changes and no field is added |
| ShopEffects.VariantNameChoice | src/cart/cart.service.ts:195-200 | the shown variant is named after the first variant with its id |
| ShopEffects.VariantNameNone | src/cart/cart.service.ts:195-200 | none is shown without a variant or for one the item does not have |
| ShopEffects.HashTotalIsSum | src/cart/cart.service.ts:294-295 | a total is the sum of price times quantity over all entries, in whatever order they are listed |
| ShopRules.SyncIdempotent | src/cart/cart.service.ts:230-285 | a second sync on the same snapshot changes nothing |
| ShopRules.AddToWishlistOnce | src/wishlist/wishlist.service.ts:53-84 | saving twice is the same as once, saves one unit and never touches the cart |
| ShopEffects.AddToWishlistExactly | src/wishlist/wishlist.service.ts:53-84 | saving succeeds exactly for a named item that is saved already or on sale with a price; a new entry is one unit of it as a sync would show it, the wishlist then lives thirty days, and nothing else changes |
| ShopEffects.AddToWishlistErrors | src/wishlist/wishlist.service.ts:136-151 | why saving is refused: each error by its own condition |
| ShopEffects.RemoveFromWishlistExactly | src/wishlist/wishlist.service.ts:86-95 | removing takes exactly the named entry out; the others, the deadline and everything else stay |
| ShopRules.MoveToCartConserves | src/wishlist/wishlist.service.ts:97-113 | a move to the cart conserves the field's combined quantity exactly when there is no such wishlist entry or the item is on sale, priced and within the cap with what the cart holds; otherwise the entry is lost |
| ShopRules.FailedMoveLosesItem | src/wishlist/wishlist.service.ts:103-105 | a concrete state in which a refused move loses the item |
| ShopRules.MoveToWishlistConserves | src/wishlist/wishlist.service.ts:115-134 | a move to the wishlist conserves the combined quantity exactly when the wishlist had no such entry |
| ShopEffects.MoveToWishlistExactly | src/wishlist/wishlist.service.ts:115-134 | a move to the wishlist is refused exactly for an item not in the cart; the entry is taken over as it is, the wishlist gets thirty days, and nothing else changes |
| ShopEffects.MoveToCartErrors | src/wishlist/wishlist.service.ts:97-105 | a move to the cart is refused for an item not on the wishlist, and otherwise exactly as adding that quantity would be |
| ShopRules.MoveToWishlistKeepsReminders | src/wishlist/wishlist.service.ts:115-134 | a move to the wishlist touches no reminder job and does not slide the cart's deadline |
| ShopRules.EmptiedByMoveKeepsReminders | src/wishlist/wishlist.service.ts:115-134 | a cart emptied by moving its only entry away keeps its four reminders, one emptied by a removal has none left |
| ShopRules.MovesTouchOneField | src/wishlist/wishlist.service.ts:97-134 | moves leave every other field and every other user alone |
| ShopRules.MoveRoundTrip | src/wishlist/wishlist.service.ts:97-134 | setting an item aside and taking it back restores the entries of both hashes, the entry being the one a sync would have produced |
| ShopRules.MoveRoundTripExact | src/wishlist/wishlist.service.ts:97-134 | for an entry in sync the entries of every hash are restored exactly (deadlines and reminders aside) |
| CartServices.SyncWithStore | src/cart/cart.service.ts:230-285 | the de-duplicated fetch map and the conditional delete and write loop yield exactly the field-by-field sync, in any listing order |
| CartServices.DistinctProducts | src/cart/cart.service.ts:239-239 | each product once |
| CartServices.FetchAll | src/cart/cart.service.ts:241-253 | the map holds exactly the products the store answered for |
| CartServices.SyncField | src/cart/cart.service.ts:255-284 | skipping unchanged entries makes no difference |
| CartServices.BuildResponse | src/cart/cart.service.ts:287-300 | the response lists every entry once, in some order, and its total is the sum over all of them |
| CartServices.AnswerAndSlide | src/cart/cart.service.ts:39-51 | answers with the hash as it is and slides its deadline exactly if it has entries; an announced expiry is the deadline then held |
| CartServices.CartService.GetCart | src/cart/cart.service.ts:39-51 | state and response of the sync, with the deadline slid for a non-empty cart only; the announced expiry is the deadline held |
| CartServices.CartService.PrepareItem | src/cart/cart.service.ts:55-71 | all checks before the first write, in the code's order, and the entry to store |
| CartServices.CartService.AddItem | src/cart/cart.service.ts:53-83 | state, error and response of adding; the announced expiry is the deadline held |
| CartServices.CartService.UpdateItem | src/cart/cart.service.ts:85-120 | state, error and response of updating; the announced expiry is the deadline held |
| CartServices.CartService.RemoveItem | src/cart/cart.service.ts:122-141 | state and response of removing; the announced expiry is the deadline held |
| CartServices.CartService.ClearCart | src/cart/cart.service.ts:143-152 | the cart key and the user's jobs are gone, nothing else |
| CartServices.WishlistService.GetWishlist | src/wishlist/wishlist.service.ts:39-51 | state and response of the wishlist sync |
| CartServices.WishlistService.PrepareItem | src/wishlist/wishlist.service.ts:61-74 | the store checks in the code's order, and the entry to save, always one unit |
| CartServices.WishlistService.AddItem | src/wishlist/wishlist.service.ts:53-84 | state, error and response of saving |
| CartServices.WishlistService.RemoveItem | src/wishlist/wishlist.service.ts:86-95 | only the entry is gone; the deadline stays |
| CartServices.WishlistService.MoveToCart | src/wishlist/wishlist.service.ts:97-113 | delete first, then add; the add's error is passed on |
| CartServices.WishlistService.MoveToWishlist | src/wishlist/wishlist.service.ts:115-134 | the cart entry replaces the wishlist's |
| CartServices.CartAbandonmentService.ScheduleReminders | src/cart-abandonment/cart-abandonment.service.ts:21-33 | the user's jobs are replaced by one per delay, all counted from now, and no other user's |
| CartServices.CartAbandonmentService.CancelReminders | src/cart-abandonment/cart-abandonment.service.ts:43-48 | exactly the user's four job ids are removed |
| CartServices.CartAbandonmentService.Process | src/cart-abandonment/cart-abandonment.processor.ts:30-58 | an empty cart is skipped, otherwise one mail with the cart's total and the days it has left |
| ShopEffects.FireExactly | src/cart-abandonment/cart-abandonment.processor.ts:30-58 | a worker takes its due job and no other, and mails its owner exactly when that cart has entries |
| ShopEffects.NotDueStays | src/cart-abandonment/cart-abandonment.processor.ts:30-33 | a job that is not due stays |
| Reminders.RemindersComeInOrder | src/cart-abandonment/cart-abandonment.processor.ts:30-58 | with no further action of the user and workers on that user's jobs at most 23 hours (first reminder) or 24 hours late, each less half a second, the reminders mailed are at any time the first few of the four, in order, each once, for the cart as it was left and announcing 7, 6, 4 and 1 days |
| Reminders.RemindersAllFire | src/cart-abandonment/cart-abandonment.service.ts:9-15 | once the last window has passed all four have been mailed and no job of the user is left |
| Reminders.EachReminderAtMostOnce | src/cart-abandonment/cart-abandonment.processor.ts:30-58 | with no further action of the user and workers arbitrarily late each of the four reminders is mailed at most once, with the total of the cart as it was left and 0 to 7 days announced |
| Reminders.DaysAnnounced | src/cart-abandonment/cart-abandonment.processor.ts:42-44 | a due reminder announces 7, 6, 4 or 1 days if and only if it is mailed at most 23 hours (the first) or 24 hours late, each less half a second |
| Reminders.StepWhileWaiting | src/cart-abandonment/cart-abandonment.processor.ts:30-58 | each step of anyone else keeps the cart alive and untouched and the remaining jobs in place until the last reminder |
| Reminders.EmptiedCartStaysSilent | src/cart-abandonment/cart-abandonment.service.ts:43-48 | without pending jobs no reminder is ever mailed to an idle user, whatever others do and however late the workers are |
| Reminders.OthersDoNotInterfere | src/cart-abandonment/cart-abandonment.service.ts:21-48 | no other user's handlers touch the user's cart or jobs |
| Fields.FieldRoundTrip | src/cart/cart.service.ts:19-20 | a field decodes to its product and variant exactly when the product id has no colon |
| Fields.FieldInjective | src/wishlist/wishlist.service.ts:19-20 | colon-free products share a field only if they are the same item, an empty variant counting as none |
| Fields.ColonsCollide | src/cart/cart.service.ts:19-20 | with a colon in a product id two different items do share a field |
| Fields.JobNameInjective | src/cart-abandonment/cart-abandonment.service.ts:27-27 | job ids of different users or indices never clash, whatever characters a user id holds |
| Listing.FiltersMean | src/order/order.repository.ts:65-94 | the built conditions denote the intended conjunction; unspecified or unknown statuses and currencies impose nothing, and a price bound of 0 counts |
| Listing.StatusCodes | src/order/order.mappers.ts:16-24 | the codes 1 to 7 name the statuses in declared order, others none |
| Listing.CurrencyCodes | src/order/order.mappers.ts:33-38 | the codes 1 to 4 name the currencies, others none |
| Listing.QueryBuilder.ApplyFilters | src/order/order.repository.ts:65-94 | adds exactly those conditions |
| Listing.QueryBuilder.ApplySort | src/order/order.repository.ts:96-100 | unknown fields sort by creation, and only an explicit ascending order is ascending |
| Listing.SortMeans | src/order/order.repository.ts:96-100 | by total for totalPrice, by status for status, by creation otherwise; rising only for an explicit ascending order, so newest first by default |
| Listing.RankByDeclaration | src/order/order.repository.ts:96-100 | statuses rank in declared order |
| Listing.FindByUser | src/order/order.repository.ts:24-37 | one page and the total of the user's orders passing the filters, ranked by the requested field and direction |
| Listing.FindAll | src/order/order.repository.ts:39-47 | the same for all orders |
| Listing.PagesCoverSelection | src/order/order.repository.ts:33-36 | for any page size the pages up to the last are together the whole selection, each row once and in order |
| Listing.AllPagesTogether | src/order/order.repository.ts:24-47 | the pages that listings answer until the announced total is covered hold, in the requested order, each order asked for exactly as often as the table, nothing else, and all announce that total |
| Listing.SelectionIsExact | src/order/order.repository.ts:33-36 | the selection has each matching row as often as the table and no other row |
| Listing.SelectionStaysRanked | src/order/order.repository.ts:96-100 | filtering keeps the ranking |

## Left out

- Stock.Reserve: a call whose reply is lost counts as a loss if the store took the stock; a return that arrives although its reply fails is not modelled.
- Orders.Repriced: of several lines without a price the first in the list decides the error; the code's parallel requests let the earliest failure decide.
- Orders.CreateOrder: in interleaved runs a checkout is its key lookup and the rest; two checkouts reserving and writing at the same time are not interleaved call by call.
- Orders.Persist: a total beyond `decimal(10,2)` appears only as a failing write; a failing cart clearing leaves the cart and its jobs whole; ids of items and `updatedAt` are not kept.
- Interleaving.SplitRun: a refund's two reads, of the order and of its delivery, form one step.
- Interleaving.AuditSurvivesInterleaving: claims neither unbroken paths nor single stock returns under interleaving, because both can fail there; `PathsUnbrokenExactly` and `Returns.SingleReturnExactly` give the exact conditions.
- Lifecycle.LifecycleIsBounded: the documented edges are a hypothesis, because `updateOrderStatus` itself accepts every status.
- CartServices.SyncWithStore: the cart and the wishlist hold the same loop twice in the code; it is written once here, and so are the two price and display selectors.
- CartServices.CartService.AddItem: Redis and queue failures inside cart and wishlist handlers, and concurrent handlers of one user, are not modelled.
- CartServices.CartService.ClearCart: its status reply carries no information and is dropped.
- OrderServices.OrderStatusHistoryService.FindByOrderId: rows with equal timestamps come in insertion order, which the database does not promise; the mapping of rows to wire enums is dropped.
- Listing.FindByUser: how the database ranks the table for a sort is an input, assumed to be the same for every page, ties included; pages start at 1, and page 0 is not modelled.
- Reminders.RemindersAllFire: assumes the user's own jobs picked up no later than `Lateness`; later runs, job failures and retries are not modelled.
- gRPC, RabbitMQ, Redis, TypeORM and BullMQ plumbing, module wiring, configuration, health checks, migrations and logging.
- The seed script, whose delivered orders have no history rows, and `triggerImmediateReminder`, which has no caller.
- Wire enum tables other than those of the listing filters, mail wording and date formatting: a mail is its kind, recipient and order.
