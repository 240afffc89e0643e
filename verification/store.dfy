/**
 * The relational store the handlers read and write, as one object whose
 * fields are the tables. Rows are values; a table is a map from the row's
 * identifier to the row. Identifiers are drawn from one auto-increment
 * counter shared by every table.
 */
module Store {
  import opened Types
  import opened Ledger

  datatype User = User(name: string, email: string, phoneNumber: string, role: Role)

  datatype Branch = Branch(
    name: string, phoneNumber: string, address: string,
    agentId: Option<UserId>, salesRepId: Option<UserId>)

  /** Catalogue data of a product; its central stock lives in `adminStock`. Prices are in minor units. */
  datatype Product = Product(name: string, price: int)

  datatype RequestItem = RequestItem(
    productId: ProductId, requestedQuantity: int, approvedQuantity: int, receivedQuantity: int)

  datatype StockRequest = StockRequest(
    branchId: BranchId, createdById: UserId, status: RequestStatus, note: Option<string>,
    approvedById: Option<UserId>, items: map<ItemId, RequestItem>)

  datatype CartItem = CartItem(
    userId: UserId, productId: ProductId, branchId: BranchId, branchName: string, quantity: int)

  datatype OrderLine = OrderLine(productId: ProductId, quantity: int)

  /** An order with its line items and the statuses of its event log, oldest first. */
  datatype Order = Order(
    userId: UserId, branchId: BranchId, netAmount: int, address: string,
    status: OrderStatus, lines: seq<OrderLine>, events: seq<OrderStatus>)

  datatype Review = Review(productId: ProductId, orderId: OrderId, userId: UserId, rating: int, comment: string)

  datatype MasonBass = MasonBass(
    bassName: string, location: string, phoneNumber: string, description: string,
    code: string, bassDiscount: int)

  /** A snapshot of every table. */
  datatype Tables = Tables(
    users: map<UserId, User>,
    branches: map<BranchId, Branch>,
    products: map<ProductId, Product>,
    adminStock: AdminStock,
    branchStock: BranchStock,
    requests: map<RequestId, StockRequest>,
    cart: map<CartId, CartItem>,
    orders: map<OrderId, Order>,
    reviews: map<ReviewId, Review>,
    basses: map<BassId, MasonBass>,
    nextId: nat)
  {
    /** Every identifier in use is below the counter, so the counter is always fresh. */
    ghost predicate IdsFresh() {
      && KeysBelow(users.Keys, nextId)
      && RequestsBelow(requests, nextId)
      && KeysBelow(cart.Keys, nextId)
      && KeysBelow(orders.Keys, nextId)
      && KeysBelow(reviews.Keys, nextId)
      && KeysBelow(basses.Keys, nextId)
    }

    ghost predicate Wellformed() {
      && products.Keys == adminStock.Keys
      && IdsFresh()
      && RequestsAtBranches(requests, branches)
      && AgentsUnique(branches)
      && CartRowsUnique(cart)
      && ReviewsUnique(reviews)
      && CodesUnique(basses)
      && OrdersHaveEvents(orders)
      && EmailsUnique(users)
    }
  }

  /**
   * An order's current status is the status of its latest event. Orders are
   * created this way, but a status update without a status breaks it, so it
   * is not part of the tables' invariant.
   */
  ghost predicate StatusLogged(o: Order) {
    |o.events| > 0 && o.events[|o.events| - 1] == o.status
  }

  /** Every order has at least one event: the one written when it was placed. */
  ghost predicate OrdersHaveEvents(orders: map<OrderId, Order>) {
    forall o :: o in orders ==> |orders[o].events| > 0
  }

  /** No two users share an email address. */
  ghost predicate EmailsUnique(users: map<UserId, User>) {
    forall u1, u2 :: u1 in users && u2 in users && u1 != u2 ==> users[u1].email != users[u2].email
  }

  ghost predicate KeysBelow(keys: set<nat>, bound: nat) {
    forall k :: k in keys ==> k < bound
  }

  /** Requests and their items have identifiers below `bound`. */
  ghost predicate RequestsBelow(requests: map<RequestId, StockRequest>, bound: nat) {
    forall r :: r in requests ==> r < bound && KeysBelow(requests[r].items.Keys, bound)
  }

  /** Every request is for an existing branch. */
  ghost predicate RequestsAtBranches(requests: map<RequestId, StockRequest>, branches: map<BranchId, Branch>) {
    forall r :: r in requests ==> requests[r].branchId in branches
  }

  /** No user is the agent of two branches. */
  ghost predicate AgentsUnique(branches: map<BranchId, Branch>) {
    forall b1, b2 :: b1 in branches && b2 in branches && b1 != b2 && branches[b1].agentId.Some?
      ==> branches[b1].agentId != branches[b2].agentId
  }

  /** At most one cart row per (user, product, branch). */
  ghost predicate CartRowsUnique(cart: map<CartId, CartItem>) {
    forall c1, c2 :: c1 in cart && c2 in cart && c1 != c2
      ==> (cart[c1].userId, cart[c1].productId, cart[c1].branchId) != (cart[c2].userId, cart[c2].productId, cart[c2].branchId)
  }

  /** At most one review per (product, order, user). */
  ghost predicate ReviewsUnique(reviews: map<ReviewId, Review>) {
    forall v1, v2 :: v1 in reviews && v2 in reviews && v1 != v2
      ==> (reviews[v1].productId, reviews[v1].orderId, reviews[v1].userId) != (reviews[v2].productId, reviews[v2].orderId, reviews[v2].userId)
  }

  /** No two mason-bass records share a code. */
  ghost predicate CodesUnique(basses: map<BassId, MasonBass>) {
    forall m1, m2 :: m1 in basses && m2 in basses && m1 != m2 ==> basses[m1].code != basses[m2].code
  }

  /** Writing a request whose branch exists and whose item ids are below the (possibly advanced) counter keeps the tables well formed. */
  lemma WriteRequestKeepsWellformed(t: Tables, id: RequestId, req: StockRequest, next: nat)
    requires t.Wellformed()
    requires t.nextId <= next && id < next
    requires req.branchId in t.branches
    requires forall i :: i in req.items ==> i < next
    ensures t.(requests := t.requests[id := req], nextId := next).Wellformed()
  {
  }

  /** Replacing the stock tables keeps the tables well formed as long as the central table keeps its products. */
  lemma StockWriteKeepsWellformed(t: Tables, admin: AdminStock, branch: BranchStock)
    requires t.Wellformed() && admin.Keys == t.adminStock.Keys
    ensures t.(adminStock := admin, branchStock := branch).Wellformed()
  {
  }

  /** Replacing the cart keeps the tables well formed if lines stay unique and ids stay below the (possibly advanced) counter. */
  lemma CartWriteKeepsWellformed(t: Tables, cart: map<CartId, CartItem>, next: nat)
    requires t.Wellformed() && t.nextId <= next
    requires CartRowsUnique(cart) && KeysBelow(cart.Keys, next)
    ensures t.(cart := cart, nextId := next).Wellformed()
  {
  }

  /** Writing an order with at least one event, under an id below the (possibly advanced) counter, keeps the tables well formed. */
  lemma OrderWriteKeepsWellformed(t: Tables, id: OrderId, o: Order, next: nat)
    requires t.Wellformed() && t.nextId <= next && id < next
    requires |o.events| > 0
    ensures t.(orders := t.orders[id := o], nextId := next).Wellformed()
  {
  }

  /** Adding a user under the counter, with an email nobody holds, keeps the tables well formed. */
  lemma UserWriteKeepsWellformed(t: Tables, u: User)
    requires t.Wellformed()
    requires forall v :: v in t.users ==> t.users[v].email != u.email
    ensures t.(users := t.users[t.nextId := u], nextId := t.nextId + 1).Wellformed()
  {
  }

  /** Replacing the reviews keeps the tables well formed if each (product, order, user) is reviewed at most once and ids stay below the (possibly advanced) counter. */
  lemma ReviewsWriteKeepsWellformed(t: Tables, reviews: map<ReviewId, Review>, next: nat)
    requires t.Wellformed() && t.nextId <= next
    requires ReviewsUnique(reviews) && KeysBelow(reviews.Keys, next)
    ensures t.(reviews := reviews, nextId := next).Wellformed()
  {
  }

  /** Replacing the mason-bass records keeps the tables well formed if codes stay unique and ids stay below the (possibly advanced) counter. */
  lemma BassesWriteKeepsWellformed(t: Tables, basses: map<BassId, MasonBass>, next: nat)
    requires t.Wellformed() && t.nextId <= next
    requires CodesUnique(basses) && KeysBelow(basses.Keys, next)
    ensures t.(basses := basses, nextId := next).Wellformed()
  {
  }

  class Db {
    var users: map<UserId, User>
    var branches: map<BranchId, Branch>
    var products: map<ProductId, Product>
    var adminStock: AdminStock
    var branchStock: BranchStock
    var requests: map<RequestId, StockRequest>
    var cart: map<CartId, CartItem>
    var orders: map<OrderId, Order>
    var reviews: map<ReviewId, Review>
    var basses: map<BassId, MasonBass>
    var nextId: nat

    /** The current contents of every table. */
    function Snapshot(): Tables
      reads this
    {
      Tables(users, branches, products, adminStock, branchStock, requests, cart, orders, reviews, basses, nextId)
    }

    ghost predicate Valid()
      reads this
    {
      Snapshot().Wellformed()
    }

    /** The user exists and holds one of `roles`. */
    predicate HasRole(u: UserId, roles: set<Role>)
      reads this
    {
      u in users && users[u].role in roles
    }

    /** Store `req` under `id` and move the counter to `next`; the ids of the request and its items must be below it. */
    method PutRequest(id: RequestId, req: StockRequest, next: nat)
      requires Valid()
      requires nextId <= next && id < next && req.branchId in branches
      requires forall i :: i in req.items ==> i < next
      modifies this
      ensures Valid()
      ensures Snapshot() == old(Snapshot()).(requests := old(requests)[id := req], nextId := next)
    {
      WriteRequestKeepsWellformed(Snapshot(), id, req, next);
      requests := requests[id := req];
      nextId := next;
    }

    /** Remove request `id` together with its items. */
    method DeleteRequest(id: RequestId)
      requires Valid()
      modifies this
      ensures Valid()
      ensures Snapshot() == old(Snapshot()).(requests := old(requests) - {id})
    {
      requests := requests - {id};
    }

    /** Rewrite request `id` in place, keeping its branch and at most its items. */
    method ReplaceRequest(id: RequestId, req: StockRequest)
      requires Valid()
      requires id in requests && req.branchId == requests[id].branchId && req.items.Keys <= requests[id].items.Keys
      modifies this
      ensures Valid()
      ensures Snapshot() == old(Snapshot()).(requests := old(requests)[id := req])
    {
      WriteRequestKeepsWellformed(Snapshot(), id, req, nextId);
      requests := requests[id := req];
    }

    constructor ()
      ensures Valid()
      ensures Snapshot() == Tables(map[], map[], map[], map[], map[], map[], map[], map[], map[], map[], 1)
    {
      users, branches, products, adminStock, branchStock := map[], map[], map[], map[], map[];
      requests, cart, orders, reviews, basses := map[], map[], map[], map[], map[];
      nextId := 1;
    }
  }
}
