# Haritha Weli retail backend — stock and document workflows in Dafny

This project models the core of a retail backend that sells products through
branches. Stock sits in two places: the central (admin) stock of each product,
and one branch-product row per branch that carries the product. The workflows
that move stock or record sales are modelled with their handlers' branches,
error cases and constants, including what a handler does with a request body
it does not validate; what remains unmodelled is listed under "Left out":

- **Stock requests.** A branch agent asks for products. The admin approves
  (per-item approved quantities) or rejects the request, then marks it as
  delivered. The agent receives it, which moves the received quantities from
  central stock into the branch rows. Requests can also be updated (items
  edited, added and dropped) and deleted.
- **Branch stock.** The admin assigns a product to a branch, tops up or removes
  a row, assigns or removes the branch's agent and sales rep, and edits the
  branch's details.
- **Cart and checkout.** A customer adds to, changes and deletes cart lines.
  Checkout turns all of the customer's cart lines into one order with one
  event; it then changes status and can be cancelled.
- **In-store sales.** An agent records a paid order for a customer and lowers
  the branch's rows. The agent's shelf view lists the branch's stocked rows by
  product name.
- **Reviews.** A customer reviews products of their delivered orders.
- **Mason-bass records.** These are contractor records with unique discount
  codes.

The store is one object, `Store.Db`, whose fields are the tables (maps from
row id to row). One auto-increment counter serves every table.
`Store.Tables.Wellformed` is the invariant every handler keeps:
- ids in use are below the counter;
- central stock covers exactly the catalogue;
- requests point at branches;
- no user is the agent of two branches;
- cart lines, reviews, codes and emails are unique;
- every order has at least one event.

A handler method takes the store, checks its refusals first and writes nothing
when it refuses. Its new state is stated as the old snapshot with named tables
replaced by pure functions of the old one. Loops in the source (per-item
approval, receipt, request editing, row decrements, key scans) are `while`
loops proved against those functions. The properties of the functions are
lemmas.

Behaviours of the code worth noting:

- Checkout does not touch any stock, and it takes every cart line of the user,
  whatever branch the line was added at (`src/controllers/orders.ts:20-27`).
- Approval checks each decision against central stock on its own and
  reserves nothing, so several decisions may together exceed it. A receipt
  lowers central stock without a floor.
- A mason-bass update that names no code drops the code from the duplicate
  lookup. The lookup then matches every other record, so such an update is
  refused whenever another record exists (`src/controllers/masonbass.ts:79-93`).
- The status endpoint passes the body's status through unchecked. A body
  without one keeps the order's status but still logs an event with the
  default status, so an order's status need not be its latest event
  (`src/controllers/orders.ts:229-250`).
- Removing a product from a branch does not validate its body. An absent id
  drops its filter from the row lookup; without a product id the row is
  deleted and the write back to central stock fails, so the row's units are
  lost (`src/controllers/branch.ts:282-330`).

The review, mason-bass and agent-order routers are not mounted in
`src/routes/index.ts`; their controllers are modelled as written.

## Model

| member | source | states |
|---|---|---|
| Types.OrElse | src/controllers/stockrequest.ts:341 | definition of `s \|\| fallback` on a string: a present non-empty string wins, an absent or empty one gives the fallback |
| Ledger.Debit | src/controllers/branch.ts:270-277 | lowering one product's central stock by q changes that product only, by exactly q, and keeps the catalogue |
| Ledger.Credit | src/controllers/stockrequest.ts:543-569 | raising the (branch, product) row by q creates it at q when missing and leaves every other row alone |
| Ledger.MoveConserves | src/controllers/branch.ts:263-277 | moving q of a product from central stock to a branch row keeps central + all branch rows of every product unchanged |
| Ledger.ReturnConserves | src/controllers/branch.ts:313-327 | deleting a branch row and adding its quantity back to central stock keeps every product's total unchanged |
| Ledger.BranchSumRemove | src/controllers/branch.ts:313-318 | the branch-row sum of a product splits into one row's share plus the sum of the others |
| Ledger.BranchSumDelete | src/controllers/branch.ts:313-318 | deleting a row lowers the product's branch sum by exactly that row's quantity |
| Ledger.BranchSumSet | src/controllers/branch.ts:362-369 | setting one row shifts the product's branch sum by the change of that row |
| StockRequestItems.NewItems | src/controllers/stockrequest.ts:72-100 | a new request gets one item per input, under consecutive fresh ids, with requested quantity as given and nothing approved or received |
| StockRequestItems.ApproveItems | src/controllers/stockrequest.ts:384-416 | per-item approval keeps the item ids and stops at the first failing decision |
| StockRequestItems.ApproveOutcome | src/controllers/stockrequest.ts:384-416 | approval succeeds iff each decision's product exists and its approved quantity is at most the product's central stock; the first failing decision gives the error (missing product or insufficient stock); only approved quantities change |
| StockRequestItems.ApproveWritesLastDecision | src/controllers/stockrequest.ts:409-414 | after a successful approval an item not named keeps its values, and a named item holds the approved quantity of its last decision |
| StockRequestItems.ApproveIgnoresRequested | src/controllers/stockrequest.ts:384-408 | whether approval succeeds depends only on the items' products and the central stock, not on the items' stored quantities |
| StockRequestItems.ReceiveItems | src/controllers/stockrequest.ts:505-570 | per-item receipt keeps the item ids and the catalogue and stops at the first failing receipt |
| StockRequestItems.ReceiveOne | src/controllers/stockrequest.ts:506-569 | one receipt keeps the item ids and the catalogue: unknown item, quantity above approved, then missing product, else received quantity written and stock moved |
| StockRequestItems.ReceiveConserves | src/controllers/stockrequest.ts:525-569 | whatever receipts succeed or fail, central + branch stock of every product is unchanged |
| StockRequestItems.ReceiveOutcome | src/controllers/stockrequest.ts:508-522 | receipt succeeds iff every receipt names an item, stays within its approved quantity and its product exists |
| StockRequestItems.ReceiveStep | src/controllers/stockrequest.ts:525-569 | a single passing receipt is the one-element run of the receipt fold |
| StockRequestItems.ReceiveMovesStock | src/controllers/stockrequest.ts:533-569 | after a successful receipt each product's central stock falls, and the branch row rises, by exactly the quantities received for it |
| StockRequestItems.ReceiveKeepsOtherRows | src/controllers/stockrequest.ts:543-569 | a receipt creates only rows of the request's branch for received products, and leaves other rows alone |
| StockRequestItems.ReceiveRecordsLastReceipt | src/controllers/stockrequest.ts:525-531 | each received item holds the quantity of its last receipt, never above the approved quantity |
| StockRequestItems.MovedForSameProducts | src/controllers/stockrequest.ts:525-540 | the quantity moved per product depends only on the items' products |
| StockRequestItems.EditItems | src/controllers/stockrequest.ts:810-860 | request editing keeps every item already present and never lowers the counter, and fresh ids stay below it |
| StockRequestItems.EditOne | src/controllers/stockrequest.ts:811-858 | one edit: a product the branch lacks or an unknown item id is refused; a known id is rewritten, otherwise a new item is created under the counter |
| StockRequestItems.EditItemsEffect | src/controllers/stockrequest.ts:810-860 | after successful edits every named id was an existing item, the counter has advanced by the number of new entries, the items are the old ones plus the fresh ids, the kept set is exactly the named and fresh ids, and every kept item's product is carried by the branch |
| StockRequestItems.UpdateReplacesItemSet | src/controllers/stockrequest.ts:810-868 | after an update the request holds exactly the items named by id plus the new ones; unnamed old items are dropped |
| StockRequestItems.LastEdit | src/controllers/stockrequest.ts:838-847 | the last entry naming an item by a truthy id; absent exactly when no entry names it |
| StockRequestItems.EditWritesLastEntry | src/controllers/stockrequest.ts:826-855 | after successful edits every item of the request is still there: unchanged if no entry names it, otherwise with the product and requested quantity of the last entry naming it and its approved and received quantities kept; the k-th entry without an id creates, under the counter plus the number of new entries before it, an item with its product and requested quantity and nothing approved or received |
| StockRequests.CreateStockRequest | src/controllers/stockrequest.ts:43-127 | an agent's request for their own branch is stored under the next id with fresh item ids, and every item's product must be carried by the branch; each refusal writes nothing |
| StockRequests.ApproveRefusal | src/controllers/stockrequest.ts:289-382 | refusal order: bad action, non-admin, missing request, not pending; rejection skips the item checks; then negative quantity, then an item id outside the request |
| StockRequests.ApproveStockRequest | src/controllers/stockrequest.ts:289-457 | reject records the admin and a note defaulting to "Request rejected by admin"; approve writes the per-item approvals, then status Approved and its default note; a failing item leaves earlier item writes |
| StockRequests.ApproveDecisions | src/controllers/stockrequest.ts:384-416 | the approval loop writes the request's items exactly as the approval fold does |
| StockRequests.MarkStockAsDelivered | src/controllers/stockrequest.ts:613-689 | only an admin, only an approved request: status Delivered with note defaulting to "Stock marked as delivered by admin" |
| StockRequests.ReceiveRefusal | src/controllers/stockrequest.ts:460-502 | refusal order: missing request, caller not the branch's agent, not delivered, negative quantity |
| StockRequests.ReceiveStock | src/controllers/stockrequest.ts:460-610 | receipt moves stock as the receipt fold does and completes the request, note defaulting to "Stock received by agent"; a failing receipt leaves earlier writes; every outcome, refusals and failures included, keeps every product's total |
| StockRequests.ReceiveEntries | src/controllers/stockrequest.ts:505-570 | the receipt loop writes items, central stock and branch rows exactly as the receipt fold does |
| StockRequests.DeleteStockRequest | src/controllers/stockrequest.ts:692-752 | an admin or the creator may delete a pending, completed or rejected request; it disappears with its items |
| StockRequests.UpdateRefusal | src/controllers/stockrequest.ts:755-805 | refusal order: invalid body, missing request, caller not the creator, request not pending |
| StockRequests.UpdateStockRequest | src/controllers/stockrequest.ts:755-901 | on success the items become the survivors of the edits and the note is replaced only when given; a failing edit leaves earlier edits |
| StockRequests.DropUnnamed | src/controllers/stockrequest.ts:862-868 | the deletion loop removes exactly the old items that no edit named |
| Branches.AddRefusal | src/controllers/branch.ts:228-261 | refusal order: missing product, no central stock, product already at the branch, missing branch |
| Branches.AddProductsToBranch | src/controllers/branch.ts:228-280 | the row is created at q and central stock falls by q, with no check that q fits; every product's total of central plus branch stock is unchanged |
| Branches.RemoveProductFromBranch | src/controllers/branch.ts:282-330 | refused iff no row matches the ids given (an absent id matches any); then a given product id must exist, and the row is deleted and credited back with every total unchanged; without a product id (and some product in the catalogue) the row is deleted, nothing is credited, the answer is a server error and the row's product total falls by its quantity |
| Branches.ReturnRow | src/controllers/branch.ts:313-327 | the row is deleted and its quantity credited to central stock, keeping every product's total |
| Branches.DropRow | src/controllers/branch.ts:313-317 | the row is deleted and nothing else: the row's product total falls by its quantity |
| Branches.TopUpRefusal | src/controllers/branch.ts:333-385 | refusal order: missing product, no central stock, product not at the branch |
| Branches.UpdateBranchStock | src/controllers/branch.ts:333-385 | the row rises and central stock falls by the same (possibly negative) quantity, keeping every product's total |
| Branches.AssignAgent | src/controllers/branch.ts:387-425 | missing user, user not an agent, agent already at a branch, then missing branch; otherwise the branch's agent is set |
| Branches.AssignRep | src/controllers/branch.ts:427-466 | missing user, not a rep, missing branch, branch already has a rep; otherwise the rep is set |
| Branches.RemoveRepFromBranch | src/controllers/branch.ts:470-498 | missing branch, then no rep assigned; otherwise the rep is cleared |
| Branches.RemoveAgentFromBranch | src/controllers/branch.ts:501-529 | missing branch, then no agent assigned; otherwise the agent is cleared |
| Branches.UpdateBranch | src/controllers/branch.ts:30-59 | a missing branch is refused; each given field replaces the stored one |
| Carts.LineQuantityAt | src/controllers/cart.ts:36-43 | with unique lines, the quantity for a (user, product, branch) is that of its one row |
| Carts.GrowLineEffect | src/controllers/cart.ts:51-60 | adding to an existing line raises that line by q, changes no other line and keeps lines unique |
| Carts.OpenLineEffect | src/controllers/cart.ts:62-71 | opening a line for an absent (user, product, branch) gives it quantity q, changes no other line and keeps lines unique |
| Carts.SameLineElsewhere | src/controllers/cart.ts:36-71 | writing one row leaves the quantity of every other line unchanged |
| Carts.AddItemToCart | src/controllers/cart.ts:9-78 | missing product, then missing branch; otherwise the caller's line grows by q or is created under the next id with the branch's name; the caller's line for that product and branch rises by q and every other line is unchanged |
| Carts.DeleteItemFromCart | src/controllers/cart.ts:80-90 | exactly the row with that id is removed, whoever owns it; a missing row is refused |
| Carts.ChangeQuantity | src/controllers/cart.ts:92-105 | the row's quantity becomes exactly the value given, with no ownership check |
| Carts.GetCart | src/controllers/cart.ts:107-118 | exactly the caller's rows, unchanged |
| Orders.CartTotalAppend | src/controllers/orders.ts:34-36 | the checkout total of two lists is the sum of their totals |
| Orders.CartTotalRemove | src/controllers/orders.ts:34-36 | removing one row from a list lowers its total by that row's value |
| Orders.CartTotalPermutation | src/controllers/orders.ts:34-36 | the checkout total does not depend on the order rows are listed in |
| Orders.EnumerationsAgree | src/controllers/orders.ts:20-36 | every listing of the user's cart rows gives the same total, so the order amount is a function of the cart |
| Orders.LinesOf | src/controllers/orders.ts:57-62 | one order line per cart row, carrying that row's product and quantity |
| Orders.CheckoutAmountIsLinesValue | src/controllers/orders.ts:34-62 | the order's amount is the value of its own lines at the prices of checkout |
| Orders.WithoutUser | src/controllers/orders.ts:75-79 | the cart after checkout: exactly the other users' rows, unchanged |
| Orders.FindUserRows | src/controllers/orders.ts:20-27 | the scan lists each of the user's cart rows exactly once, from every branch |
| Orders.CreateOrder | src/controllers/orders.ts:6-83 | an absent branch id is a server error and writes nothing; an unknown branch, empty cart or no default address writes nothing; otherwise one order with the cart's total, one line per row, status pending and one pending event, and the user's cart emptied, with no stock change |
| Orders.WithStatus | src/controllers/orders.ts:176-189 | the status becomes the new one and exactly one event with it is appended |
| Orders.AfterStatusUpdate | src/controllers/orders.ts:232-245 | one event is appended; a given status replaces the stored one, an absent one keeps it (and the event gets the default status) |
| Orders.StatusUpdateLogged | src/controllers/orders.ts:232-245 | after the update the status is the latest event iff a status was given or the order was already pending |
| Orders.ChangeStatus | src/controllers/orders.ts:229-250 | a status outside the enum or a missing order gives ORDER_NOT_FOUND and writes nothing; otherwise any enum status is set from any status, or kept when absent, and one event is logged |
| Orders.CancelOrder | src/controllers/orders.ts:172-194 | cancellation from any status, with no ownership check, logged as one CANCELLED event |
| Orders.Matching | src/controllers/orders.ts:213-227 | an order is listed iff it passes the optional status filter |
| Orders.MatchingNoRepeats | src/controllers/orders.ts:216-220 | filtering a listing without repeats yields a listing without repeats |
| Orders.ListAllOrders | src/controllers/orders.ts:213-227 | a negative skip or a status outside the enum is a server error; otherwise exactly the matching orders after the first `skip`, in the order the store reads them and without repeats; with skip 0 an order is listed iff it passes the filter, and with no filter every order is |
| Orders.NoFilterKeepsAll | src/controllers/orders.ts:216-220 | without a status filter no order is dropped |
| AgentOrders.SaleIdsCount | src/controllers/agentorder.ts:51 | a sale names at most as many products as it has items, and exactly that many iff no product repeats |
| AgentOrders.FoundCountAccepts | src/controllers/agentorder.ts:51-58 | comparing the found count with the item count accepts iff every product exists and none is named twice |
| AgentOrders.SaleAmountIsLinesValue | src/controllers/agentorder.ts:67-70 | the sale's amount is the value of the order lines it creates |
| AgentOrders.DecrementEffect | src/controllers/agentorder.ts:132-146 | each existing row of the agent's branch falls by the total quantity sold of its product, with no floor; other rows are untouched and no row is created |
| AgentOrders.SaleRefusal | src/controllers/agentorder.ts:27-58 | refusal order: invalid body, caller agent of no branch, unknown or repeated product, then a truthy customer id naming no user |
| AgentOrders.CreateAgentOrder | src/controllers/agentorder.ts:25-146 | a truthy customer id is used, else the user with the email, else a new customer; one PAYMENT_DONE order for the sale's amount with lines mirroring the items and one PAYMENT_DONE event; then the branch rows fall |
| AgentOrders.DecrementRows | src/controllers/agentorder.ts:132-146 | the decrement loop writes the branch rows exactly as the decrement fold does |
| AgentOrders.NameLeTotal | src/controllers/agentorder.ts:203-207 | any two names are ordered one way or the other |
| AgentOrders.NameLeTransitive | src/controllers/agentorder.ts:203-207 | name order is transitive |
| AgentOrders.InsertByName | src/controllers/agentorder.ts:203-207 | inserting into a name-sorted list keeps it sorted and adds exactly that row |
| AgentOrders.SortByName | src/controllers/agentorder.ts:203-207 | the result is sorted by name and is a permutation of the input |
| AgentOrders.CollectShelf | src/controllers/agentorder.ts:193-199 | the scan returns exactly the branch's stocked rows, one per product |
| AgentOrders.GetAgentBranchProducts | src/controllers/agentorder.ts:179-210 | a caller who is the agent of no branch is refused; otherwise exactly the rows of their branch with quantity above zero, sorted by name, one per product |
| AgentOrders.DistinctKept | src/controllers/agentorder.ts:203-207 | sorting keeps the products distinct |
| Reviews.ReviewRefusal | src/controllers/review.ts:11-55 | a review is accepted iff product, order and rating are truthy, the caller owns the order, the order has the product, is delivered and is not yet reviewed; the first failing check gives the error, and a delivered order already reviewed by the caller for that product gives AlreadyReviewed |
| Reviews.NewReviewKeepsUnique | src/controllers/review.ts:44-66 | a review of an unreviewed (product, order, user) keeps reviews unique |
| Reviews.CreateReview | src/controllers/review.ts:5-73 | an accepted review is stored under the next id with the comment defaulting to ""; a refusal writes nothing |
| Reviews.UpdateReview | src/controllers/review.ts:76-113 | a truthy rating on the caller's own review replaces the rating; the comment changes only when a non-empty one is given |
| Reviews.DeleteReview | src/controllers/review.ts:198-225 | only the author's review is removed; a missing review and someone else's are refused alike |
| Reviews.GetReviewsByOrder | src/controllers/review.ts:116-146 | refused unless the caller owns the order; otherwise exactly the caller's reviews on that order |
| MasonBasses.OwnCodeNoClash | src/controllers/masonbass.ts:79-93 | an update may always keep the record's own code |
| MasonBasses.AbsentCodeClashes | src/controllers/masonbass.ts:79-93 | an update naming no code is refused whenever another record exists |
| MasonBasses.Patched | src/controllers/masonbass.ts:95-105 | definition of the partial update: each given field replaces the stored one, and absent fields are kept |
| MasonBasses.PatchKeepsCodesUnique | src/controllers/masonbass.ts:79-105 | an update the duplicate lookup lets through keeps codes unique |
| MasonBasses.CreateMasonBass | src/controllers/masonbass.ts:7-52 | refused with CODE_ALREADY_EXISTS iff some record holds the code; otherwise exactly one record with the given fields under the next id |
| MasonBasses.UpdateMasonBass | src/controllers/masonbass.ts:54-118 | a missing record is refused, then a code clash with another record; otherwise the record is patched |
| MasonBasses.DeleteMasonBass | src/controllers/masonbass.ts:120-134 | exactly the record with that id is removed; a missing one is refused |

## Left out

- Concurrency is modelled sequentially in item order, with no claim about races or rollback. This covers `Promise.all` in approval, receipt and sale decrements, and the checkout `$transaction`. A failure part-way through leaves the earlier writes, as it does without a transaction.
- Prices are Decimals converted to JS numbers. They are modelled as integers in minor units, so floating point is not modelled.
- Quantities are modelled as integers; fractional JSON numbers are not modelled.
- Non-integer or NaN ids parsed from the URL are not modelled. They make the store throw an internal error; a negative id is modelled as a missing row.
- Checkout takes the default shipping address as an input (`address`), since it is a lookup in an address table that is not part of this model.
- The order-status database enum is not part of this model. The status of an event written without one (at checkout, and by a status update whose body has none) is taken to be the enum's default, PENDING.
- A cart row whose product has been deleted is priced at 0 (`Orders.Price`). Foreign keys rule this out in the store.
- Shelf rows whose product is missing are skipped (`AgentOrders.OnShelf`). Foreign keys rule this out too.
- PDF receipts, WhatsApp messages, admin notifications and logging are left out: they are I/O.
- The e-mail format check on the sale body is left out: it is a library validator.
- The payment method and amount paid affect only the receipt. Only the schema check that the amount is not negative is modelled.
- Authentication and the role middlewares are folded into handler preconditions (`HasRole`) where the handler reads the caller. Handlers that never read the caller take no caller.
- `getReviewsByOrder` reads the caller though its route attaches no authentication. This is modelled as if a caller were present.
- Branch creation and deletion, product, user, auth and visit handlers, and the read-only listings other than those modelled are left out: they are plain CRUD.
- Prisma's numeric error codes are not copied (they are incomplete and reuse values). `Types.ErrorCode` names each refusal instead.
- A new cart row stores a copy of the branch's name; later renames of the branch do not reach it, as in the store.
- Orders.ListAllOrders: the query names no sort order, so the listing read from the store is a parameter: any enumeration that lists each order exactly once.
- Orders.ListAllOrders: `skip` is taken as the number the query text converts to (0 when absent or not a number); the conversion itself and a fractional skip are not modelled.
- Branches.RemoveProductFromBranch: when an incomplete body matches several rows, the store takes the one with the lowest row id; rows carry no id here, so any matching row may be taken. Body values of the wrong type are not modelled.
- AgentOrders.SortByName: names are ordered by character code; the database collation is not modelled, and rows with equal names come in no stated order.
- MasonBasses.CreateMasonBass: the code is taken as always given. An absent code, which would match any existing record, is modelled only for updates.
