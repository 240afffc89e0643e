/**
 * Checkout and the order status log. Checkout turns all of a user's cart
 * rows into one order priced at the products' current prices; a status
 * change appends an event and is never checked against a transition table.
 */
module Orders {
  import opened Types
  import opened Store

  /** Every listed id is a key of `m`. */
  predicate AllIn<K, V>(ids: seq<K>, m: map<K, V>) {
    forall i :: 0 <= i < |ids| ==> ids[i] in m
  }

  /** A product's current price; a row whose product is missing is priced at 0. */
  function Price(products: map<ProductId, Product>, p: ProductId): int {
    if p in products then products[p].price else 0
  }

  /** The value of cart row `k`: its quantity at the current price. */
  function RowValue(cart: map<CartId, CartItem>, products: map<ProductId, Product>, k: CartId): int
    requires k in cart
  {
    cart[k].quantity * Price(products, cart[k].productId)
  }

  /** The running total of the listed cart rows, folded in list order from 0. */
  function CartTotal(cart: map<CartId, CartItem>, products: map<ProductId, Product>, ids: seq<CartId>): int
    requires AllIn(ids, cart)
    decreases |ids|
  {
    if ids == [] then 0 else RowValue(cart, products, ids[0]) + CartTotal(cart, products, ids[1..])
  }

  /** The total of two lists laid end to end is the sum of their totals. */
  lemma {:induction false} CartTotalAppend(cart: map<CartId, CartItem>, products: map<ProductId, Product>, a: seq<CartId>, b: seq<CartId>)
    requires AllIn(a, cart)
    requires AllIn(b, cart)
    ensures AllIn(a + b, cart)
    ensures CartTotal(cart, products, a + b) == CartTotal(cart, products, a) + CartTotal(cart, products, b)
    decreases |a|
  {
    if a == [] {
      assert a + b == b;
    } else {
      assert (a + b)[0] == a[0];
      assert (a + b)[1..] == a[1..] + b;
      CartTotalAppend(cart, products, a[1..], b);
    }
  }

  /** Taking row `j` out of a list lowers its total by that row's value. */
  lemma CartTotalRemove(cart: map<CartId, CartItem>, products: map<ProductId, Product>, b: seq<CartId>, j: nat)
    requires AllIn(b, cart)
    requires j < |b|
    ensures AllIn(b[..j] + b[j + 1..], cart)
    ensures CartTotal(cart, products, b) == RowValue(cart, products, b[j]) + CartTotal(cart, products, b[..j] + b[j + 1..])
  {
    assert b == b[..j] + ([b[j]] + b[j + 1..]);
    CartTotalAppend(cart, products, b[..j], [b[j]] + b[j + 1..]);
    assert ([b[j]] + b[j + 1..])[1..] == b[j + 1..];
    CartTotalAppend(cart, products, b[..j], b[j + 1..]);
  }

  /** Taking one occurrence of `b[j]` out of a list takes it out of the list's multiset. */
  lemma MultisetRemove(b: seq<CartId>, j: nat)
    requires j < |b|
    ensures multiset(b[..j] + b[j + 1..]) == multiset(b) - multiset{b[j]}
  {
    assert b == b[..j] + [b[j]] + b[j + 1..];
  }

  /** The total does not depend on the order the rows are listed in. */
  lemma {:induction false} CartTotalPermutation(cart: map<CartId, CartItem>, products: map<ProductId, Product>, a: seq<CartId>, b: seq<CartId>)
    requires AllIn(a, cart)
    requires AllIn(b, cart)
    requires multiset(a) == multiset(b)
    ensures CartTotal(cart, products, a) == CartTotal(cart, products, b)
    decreases |a|
  {
    if a == [] {
      assert |b| == |multiset(b)| == 0;
    } else {
      assert a[0] in multiset(b);
      var j :| 0 <= j < |b| && b[j] == a[0];
      MultisetRemove(b, j);
      assert a == [a[0]] + a[1..];
      assert multiset(a[1..]) == multiset(a) - multiset{a[0]};
      CartTotalRemove(cart, products, b, j);
      CartTotalPermutation(cart, products, a[1..], b[..j] + b[j + 1..]);
    }
  }

  /** `ids` lists each of the user's cart rows exactly once and nothing else. */
  ghost predicate Enumerates(ids: seq<CartId>, cart: map<CartId, CartItem>, userId: UserId) {
    && (forall i :: 0 <= i < |ids| ==> ids[i] in cart && cart[ids[i]].userId == userId)
    && (forall k :: k in cart && cart[k].userId == userId ==> k in ids)
    && (forall i, j :: 0 <= i < j < |ids| ==> ids[i] != ids[j])
  }

  /** A list without repeats holds each of its elements once. */
  lemma {:induction false} DistinctMultiset(s: seq<CartId>, x: CartId)
    requires forall i, j :: 0 <= i < j < |s| ==> s[i] != s[j]
    ensures multiset(s)[x] == if x in s then 1 else 0
    decreases |s|
  {
    if s != [] {
      assert s == [s[0]] + s[1..];
      DistinctMultiset(s[1..], x);
      assert s[0] !in s[1..];
    }
  }

  /** Every listing of the user's rows gives the same checkout total, so the total is a function of the cart. */
  lemma EnumerationsAgree(cart: map<CartId, CartItem>, products: map<ProductId, Product>, userId: UserId, a: seq<CartId>, b: seq<CartId>)
    requires Enumerates(a, cart, userId) && Enumerates(b, cart, userId)
    ensures CartTotal(cart, products, a) == CartTotal(cart, products, b)
  {
    forall x ensures multiset(a)[x] == multiset(b)[x] {
      DistinctMultiset(a, x);
      DistinctMultiset(b, x);
    }
    assert multiset(a) == multiset(b);
    CartTotalPermutation(cart, products, a, b);
  }

  /** The order lines of a checkout: one per listed cart row, with its product and quantity. */
  function LinesOf(cart: map<CartId, CartItem>, ids: seq<CartId>): (lines: seq<OrderLine>)
    requires AllIn(ids, cart)
    ensures |lines| == |ids|
    ensures forall i :: 0 <= i < |ids| ==> lines[i] == OrderLine(cart[ids[i]].productId, cart[ids[i]].quantity)
    decreases |ids|
  {
    if ids == [] then [] else [OrderLine(cart[ids[0]].productId, cart[ids[0]].quantity)] + LinesOf(cart, ids[1..])
  }

  /** The value of a list of order lines at the given prices. */
  function LinesTotal(products: map<ProductId, Product>, lines: seq<OrderLine>): int
    decreases |lines|
  {
    if lines == [] then 0 else lines[0].quantity * Price(products, lines[0].productId) + LinesTotal(products, lines[1..])
  }

  /** A checkout's amount is the value of the order lines it creates, at the prices of that moment. */
  lemma {:induction false} CheckoutAmountIsLinesValue(cart: map<CartId, CartItem>, products: map<ProductId, Product>, ids: seq<CartId>)
    requires AllIn(ids, cart)
    ensures CartTotal(cart, products, ids) == LinesTotal(products, LinesOf(cart, ids))
    decreases |ids|
  {
    if ids != [] {
      assert LinesOf(cart, ids)[1..] == LinesOf(cart, ids[1..]);
      CheckoutAmountIsLinesValue(cart, products, ids[1..]);
    }
  }

  /** The cart without the user's rows. */
  function WithoutUser(cart: map<CartId, CartItem>, userId: UserId): (rest: map<CartId, CartItem>)
    ensures forall k :: k in rest <==> k in cart && cart[k].userId != userId
    ensures forall k :: k in rest ==> rest[k] == cart[k]
  {
    map k | k in cart && cart[k].userId != userId :: cart[k]
  }

  /** The user's cart rows, in the order the query returns them. */
  method FindUserRows(cart: map<CartId, CartItem>, userId: UserId) returns (ids: seq<CartId>)
    ensures Enumerates(ids, cart, userId)
  {
    ids := [];
    var rest := cart.Keys;
    while rest != {}
      invariant rest <= cart.Keys
      invariant forall i :: 0 <= i < |ids| ==> ids[i] in cart && cart[ids[i]].userId == userId && ids[i] !in rest
      invariant forall k :: k in cart && cart[k].userId == userId ==> k in ids || k in rest
      invariant forall i, j :: 0 <= i < j < |ids| ==> ids[i] != ids[j]
      decreases rest
    {
      var k :| k in rest;
      if cart[k].userId == userId {
        ids := ids + [k];
      }
      rest := rest - {k};
    }
  }

  /**
   * Check out the caller's whole cart (from every branch) into one order for
   * `branchId`, shipped to the caller's default address. The order is priced
   * at current prices, gets one line per cart row and one initial event, and
   * the caller's cart is emptied; no stock is touched. A missing branch, an
   * empty cart or a missing address writes nothing. The body is not
   * validated: without a branch id the branch lookup fails, uncaught, and
   * the transaction writes nothing.
   */
  method CreateOrder(db: Db, caller: UserId, branchId: Option<BranchId>, address: Option<string>) returns (r: Result<OrderId>)
    requires db.Valid()
    modifies db
    ensures db.Valid()
    ensures branchId.None? ==> r == Failure(ServerError)
    ensures branchId.Some? && branchId.value !in old(db.branches) ==> r == Failure(BranchNotFound)
    ensures branchId.Some? && branchId.value in old(db.branches) && (forall k :: k in old(db.cart) ==> old(db.cart[k].userId) != caller) ==>
      r == Failure(EmptyCart)
    ensures branchId.Some? && branchId.value in old(db.branches) && (exists k :: k in old(db.cart) && old(db.cart[k].userId) == caller) ==>
      r == (if address.None? then Failure(NoShippingAddress) else Success(old(db.nextId)))
    ensures r.Failure? ==> db.Snapshot() == old(db.Snapshot())
    ensures r.Success? ==> branchId.Some? && exists ids ::
      && Enumerates(ids, old(db.cart), caller)
      && db.Snapshot() == old(db.Snapshot()).(
           orders := old(db.orders)[r.value := Order(caller, branchId.value, CartTotal(old(db.cart), old(db.products), ids), address.value,
                                                     OrderPending, LinesOf(old(db.cart), ids), [OrderPending])],
           cart := WithoutUser(old(db.cart), caller),
           nextId := r.value + 1)
  {
    if branchId.None? { return Failure(ServerError); }
    if branchId.value !in db.branches { return Failure(BranchNotFound); }
    var ids := FindUserRows(db.cart, caller);
    if |ids| == 0 {
      assert forall k :: k in db.cart ==> db.cart[k].userId != caller;
      return Failure(EmptyCart);
    }
    assert ids[0] in db.cart && db.cart[ids[0]].userId == caller;
    if address.None? { return Failure(NoShippingAddress); }
    ghost var before := db.Snapshot();
    var id := PlaceOrder(db, caller, branchId.value, address.value, ids);
    ghost var order := db.orders[id];
    OrderWriteKeepsWellformed(before, id, order, id + 1);
    CartWriteKeepsWellformed(before.(orders := before.orders[id := order], nextId := id + 1), WithoutUser(before.cart, caller), id + 1);
    r := Success(id);
  }

  /** Write the order for the listed rows under the next id and drop the caller's cart rows. */
  method PlaceOrder(db: Db, caller: UserId, branchId: BranchId, address: string, ids: seq<CartId>) returns (id: OrderId)
    requires AllIn(ids, db.cart)
    modifies db
    ensures id == old(db.nextId)
    ensures db.Snapshot() == old(db.Snapshot()).(
      orders := old(db.orders)[id := Order(caller, branchId, CartTotal(old(db.cart), old(db.products), ids), address,
                                           OrderPending, LinesOf(old(db.cart), ids), [OrderPending])],
      cart := WithoutUser(old(db.cart), caller),
      nextId := id + 1)
  {
    id := db.nextId;
    var total := CartTotal(db.cart, db.products, ids);
    db.orders := db.orders[id := Order(caller, branchId, total, address, OrderPending, LinesOf(db.cart, ids), [OrderPending])];
    db.cart := WithoutUser(db.cart, caller);
    db.nextId := id + 1;
  }

  /** An order after a status change: the status is replaced and one event with it is appended. */
  function WithStatus(o: Order, status: OrderStatus): (o': Order)
    ensures o'.status == status && o'.events == o.events + [status]
    ensures StatusLogged(o')
    ensures o' == o.(status := status, events := o'.events)
  {
    o.(status := status, events := o.events + [status])
  }

  /**
   * The `status` field of a request: absent (for a query, also the empty
   * string), a value of the order-status enum, or a value outside the enum.
   */
  datatype StatusField = StatusAbsent | StatusGiven(status: OrderStatus) | StatusOutsideEnum

  /** The status a field names, if it names one. */
  function StatusValue(f: StatusField): (s: Option<OrderStatus>)
    ensures s.Some? <==> f.StatusGiven?
    ensures s.Some? ==> s.value == f.status
  {
    if f.StatusGiven? then Some(f.status) else None
  }

  /**
   * An order after the status endpoint: a given status replaces the stored
   * one, and either way one event is appended, carrying the given status or,
   * when none is given, the event table's default status, PENDING.
   */
  function AfterStatusUpdate(o: Order, status: Option<OrderStatus>): (o': Order)
    ensures |o'.events| == |o.events| + 1 && o'.events[..|o.events|] == o.events
    ensures status.Some? ==> o' == WithStatus(o, status.value)
    ensures status.None? ==> o'.status == o.status
  {
    if status.Some? then WithStatus(o, status.value) else o.(events := o.events + [OrderPending])
  }

  /**
   * The status endpoint keeps an order's status equal to its latest event
   * exactly when a status is given or the order was pending already.
   */
  lemma StatusUpdateLogged(o: Order, status: Option<OrderStatus>)
    requires StatusLogged(o)
    ensures StatusLogged(AfterStatusUpdate(o, status)) <==> status.Some? || o.status == OrderPending
  {
  }

  /**
   * The status endpoint: any status of the enum is set from any status and
   * logged. A body without a status keeps the order's status but still logs
   * an event with the default status; a status outside the enum makes the
   * update fail, which is answered as a missing order.
   */
  method ChangeStatus(db: Db, orderId: OrderId, status: StatusField) returns (r: Outcome)
    requires db.Valid()
    modifies db
    ensures db.Valid()
    ensures r == (if orderId in old(db.orders) && !status.StatusOutsideEnum? then Ok else Err(OrderNotFound))
    ensures r.Err? ==> db.Snapshot() == old(db.Snapshot())
    ensures r.Ok? ==> db.Snapshot() == old(db.Snapshot()).(orders := old(db.orders)[orderId := AfterStatusUpdate(old(db.orders[orderId]), StatusValue(status))])
  {
    if status.StatusOutsideEnum? || orderId !in db.orders { return Err(OrderNotFound); }
    ghost var before := db.Snapshot();
    db.orders := db.orders[orderId := AfterStatusUpdate(db.orders[orderId], StatusValue(status))];
    OrderWriteKeepsWellformed(before, orderId, db.orders[orderId], before.nextId);
    r := Ok;
  }

  /** Cancel an order from any status (no ownership check) and log the cancellation. */
  method CancelOrder(db: Db, orderId: OrderId) returns (r: Outcome)
    requires db.Valid()
    modifies db
    ensures db.Valid()
    ensures r == (if orderId in old(db.orders) then Ok else Err(OrderNotFound))
    ensures r.Err? ==> db.Snapshot() == old(db.Snapshot())
    ensures r.Ok? ==> db.Snapshot() == old(db.Snapshot()).(orders := old(db.orders)[orderId := WithStatus(old(db.orders[orderId]), Cancelled)])
  {
    r := ChangeStatus(db, orderId, StatusGiven(Cancelled));
  }

  /** No id is listed twice. */
  predicate NoRepeats(ids: seq<nat>) {
    forall i, j :: 0 <= i < j < |ids| ==> ids[i] != ids[j]
  }

  /**
   * `ids` lists every key of `orders` once, in the order the store reads the
   * table. The query names no order, so any such listing may be the one read.
   */
  predicate ListsEachOnce(ids: seq<OrderId>, orders: map<OrderId, Order>) {
    && AllIn(ids, orders)
    && (forall k :: k in orders ==> k in ids)
    && NoRepeats(ids)
  }

  /** The order passes the optional status filter. */
  predicate Passes(o: Order, status: Option<OrderStatus>) {
    status.None? || o.status == status.value
  }

  /** The listed orders that pass the optional status filter, in list order. */
  function Matching(orders: map<OrderId, Order>, byId: seq<OrderId>, status: Option<OrderStatus>): (r: seq<OrderId>)
    requires AllIn(byId, orders)
    ensures forall x :: x in r <==> x in byId && Passes(orders[x], status)
    ensures |r| <= |byId|
    decreases |byId|
  {
    if byId == [] then []
    else
      var rest := Matching(orders, byId[1..], status);
      if Passes(orders[byId[0]], status) then [byId[0]] + rest else rest
  }

  /** Putting an id that is not in a repeat-free list in front keeps it repeat-free. */
  lemma PrependNoRepeats(x: nat, rest: seq<nat>)
    requires NoRepeats(rest) && x !in rest
    ensures NoRepeats([x] + rest)
  {
    var m := [x] + rest;
    forall i, j | 0 <= i < j < |m|
      ensures m[i] != m[j]
    {
      assert m[j] == rest[j - 1] && rest[j - 1] in rest;
      if i > 0 {
        assert m[i] == rest[i - 1];
      }
    }
  }

  /** Filtering a repeat-free listing lists no order twice. */
  lemma {:induction false} MatchingNoRepeats(orders: map<OrderId, Order>, byId: seq<OrderId>, status: Option<OrderStatus>)
    requires AllIn(byId, orders) && NoRepeats(byId)
    ensures NoRepeats(Matching(orders, byId, status))
    decreases |byId|
  {
    if byId != [] {
      var tail := byId[1..];
      assert AllIn(tail, orders) && NoRepeats(tail);
      MatchingNoRepeats(orders, tail, status);
      var rest := Matching(orders, tail, status);
      assert forall j :: 0 <= j < |tail| ==> tail[j] == byId[j + 1] && tail[j] != byId[0];
      assert byId[0] !in tail;
      if Passes(orders[byId[0]], status) {
        PrependNoRepeats(byId[0], rest);
      }
    }
  }

  /**
   * The admin listing: the orders passing the optional status filter, in
   * the order the store reads them, with the first `skip` of them dropped. `skip` is the number
   * the query text converts to, 0 when it is absent or not a number. A
   * negative skip, like a status outside the enum, makes the store refuse
   * the query, and the handler does not catch that.
   */
  function ListAllOrders(orders: map<OrderId, Order>, byId: seq<OrderId>, status: StatusField, skip: int): (r: Result<seq<OrderId>>)
    requires ListsEachOnce(byId, orders)
    ensures r.Failure? <==> status.StatusOutsideEnum? || skip < 0
    ensures r.Failure? ==> r.error == ServerError
    ensures r.Success? ==> NoRepeats(r.value)
    ensures r.Success? ==>
      var m := Matching(orders, byId, StatusValue(status));
      r.value == (if skip <= |m| then m[skip..] else [])
    ensures r.Success? && skip == 0 ==> forall k :: k in r.value <==> k in orders && Passes(orders[k], StatusValue(status))
    ensures status.StatusAbsent? && skip == 0 ==> r == Success(byId)
  {
    if status.StatusOutsideEnum? || skip < 0 then Failure(ServerError)
    else
      var m := Matching(orders, byId, StatusValue(status));
      MatchingNoRepeats(orders, byId, StatusValue(status));
      NoFilterKeepsAll(orders, byId);
      Success(if skip <= |m| then m[skip..] else [])
  }

  /** Without a filter every order is listed. */
  lemma {:induction false} NoFilterKeepsAll(orders: map<OrderId, Order>, byId: seq<OrderId>)
    requires AllIn(byId, orders)
    ensures Matching(orders, byId, None) == byId
    decreases |byId|
  {
    if byId != [] {
      NoFilterKeepsAll(orders, byId[1..]);
    }
  }
}
