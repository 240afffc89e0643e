/**
 * In-store sales by a branch agent: the agent records a paid order for a
 * customer, and the branch's stock rows are lowered by the quantities sold.
 * Also the agent's view of the branch shelf.
 */
module AgentOrders {
  import opened Types
  import opened Ledger
  import opened Store
  import opened Orders
  import opened Branches

  /** One sold product and its quantity, as the agent submits it. */
  datatype SaleItem = SaleItem(productId: ProductId, quantity: int)

  /** What the body schema demands: positive quantities and a non-negative amount paid. */
  predicate ValidSale(items: seq<SaleItem>, amountPaid: int) {
    (forall i :: 0 <= i < |items| ==> items[i].quantity > 0) && amountPaid >= 0
  }

  /** The distinct product ids the sale names. */
  function SaleIds(items: seq<SaleItem>): (ids: set<ProductId>)
    ensures forall p :: p in ids <==> exists i :: 0 <= i < |items| && items[i].productId == p
    decreases |items|
  {
    if items == [] then {}
    else
      var rest := SaleIds(items[1..]);
      assert forall p :: p in rest <==> exists i :: 1 <= i < |items| && items[i].productId == p by {
        forall p | p in rest ensures exists i :: 1 <= i < |items| && items[i].productId == p {
          var j :| 0 <= j < |items[1..]| && items[1..][j].productId == p;
          assert items[j + 1].productId == p;
        }
      }
      {items[0].productId} + rest
  }

  /** How many products the store finds for the sale's ids: each existing product is found once. */
  function FoundCount(products: map<ProductId, Product>, items: seq<SaleItem>): nat {
    |SaleIds(items) * products.Keys|
  }

  predicate DistinctProducts(items: seq<SaleItem>) {
    forall i, j :: 0 <= i < j < |items| ==> items[i].productId != items[j].productId
  }

  predicate AllProductsExist(products: map<ProductId, Product>, items: seq<SaleItem>) {
    forall i :: 0 <= i < |items| ==> items[i].productId in products
  }

  /** A list of items names at most as many products as it has items, and exactly that many iff no product repeats. */
  lemma {:induction false} SaleIdsCount(items: seq<SaleItem>)
    ensures |SaleIds(items)| <= |items|
    ensures |SaleIds(items)| == |items| <==> DistinctProducts(items)
    decreases |items|
  {
    if items != [] {
      var rest := items[1..];
      SaleIdsCount(rest);
      DistinctCons(items);
      var p := items[0].productId;
      assert SaleIds(items) == {p} + SaleIds(rest);
      if p in SaleIds(rest) {
        var j :| 0 <= j < |rest| && rest[j].productId == p;
      } else {
        assert |SaleIds(items)| == 1 + |SaleIds(rest)|;
        assert forall j :: 0 <= j < |rest| ==> rest[j].productId != p;
      }
    }
  }

  /** A list names distinct products iff its tail does and the head's product is not in the tail. */
  lemma DistinctCons(items: seq<SaleItem>)
    requires items != []
    ensures DistinctProducts(items) <==>
      DistinctProducts(items[1..]) && forall j :: 0 <= j < |items[1..]| ==> items[1..][j].productId != items[0].productId
  {
    var rest := items[1..];
    assert forall j :: 0 <= j < |rest| ==> rest[j] == items[j + 1];
    if DistinctProducts(rest) && forall j :: 0 <= j < |rest| ==> rest[j].productId != items[0].productId {
      forall i, j | 0 <= i < j < |items| ensures items[i].productId != items[j].productId {
        if i > 0 {
          assert rest[i - 1].productId != rest[j - 1].productId;
        } else {
          assert rest[j - 1].productId != items[0].productId;
        }
      }
    }
  }

  /**
   * The length comparison the handler makes accepts a sale exactly when
   * every product exists and no product is named twice.
   */
  lemma FoundCountAccepts(products: map<ProductId, Product>, items: seq<SaleItem>)
    ensures FoundCount(products, items) == |items| <==> AllProductsExist(products, items) && DistinctProducts(items)
  {
    var a := SaleIds(items);
    SaleIdsCount(items);
    assert a == (a * products.Keys) + (a - products.Keys);
    assert |a| == |a * products.Keys| + |a - products.Keys|;
    if AllProductsExist(products, items) {
      assert a - products.Keys == {};
    } else {
      var i :| 0 <= i < |items| && items[i].productId !in products;
      assert items[i].productId in a - products.Keys;
    }
  }

  /** The sale's amount: each item's quantity at its product's price, summed over the items. */
  function SaleTotal(products: map<ProductId, Product>, items: seq<SaleItem>): int
    requires AllProductsExist(products, items)
    decreases |items|
  {
    if items == [] then 0 else products[items[0].productId].price * items[0].quantity + SaleTotal(products, items[1..])
  }

  /** The order lines of a sale, one per item. */
  function SaleLines(items: seq<SaleItem>): (lines: seq<OrderLine>)
    ensures |lines| == |items|
    ensures forall i :: 0 <= i < |items| ==> lines[i] == OrderLine(items[i].productId, items[i].quantity)
    decreases |items|
  {
    if items == [] then [] else [OrderLine(items[0].productId, items[0].quantity)] + SaleLines(items[1..])
  }

  /** A sale's amount is the value of the order lines it creates. */
  lemma {:induction false} SaleAmountIsLinesValue(products: map<ProductId, Product>, items: seq<SaleItem>)
    requires AllProductsExist(products, items)
    ensures SaleTotal(products, items) == LinesTotal(products, SaleLines(items))
    decreases |items|
  {
    if items != [] {
      assert SaleLines(items)[1..] == SaleLines(items[1..]);
      SaleAmountIsLinesValue(products, items[1..]);
    }
  }

  /** The total quantity of product `p` the sale names. */
  function SoldOf(items: seq<SaleItem>, p: ProductId): int
    decreases |items|
  {
    if items == [] then 0 else (if items[0].productId == p then items[0].quantity else 0) + SoldOf(items[1..], p)
  }

  /** Lower the branch's rows by the sale, item by item; an item without a row changes nothing. */
  function Decrement(branch: BranchStock, b: BranchId, items: seq<SaleItem>): (r: BranchStock)
    ensures r.Keys == branch.Keys
    decreases |items|
  {
    if items == [] then branch
    else
      var k := (b, items[0].productId);
      Decrement(if k in branch then branch[k := branch[k] - items[0].quantity] else branch, b, items[1..])
  }

  /**
   * After a sale every existing row of the branch is lowered by the total
   * quantity sold of its product, with no floor at zero; rows of other
   * branches are untouched and no row is created.
   */
  lemma {:induction false} DecrementEffect(branch: BranchStock, b: BranchId, items: seq<SaleItem>, k: (BranchId, ProductId))
    requires k in branch
    ensures Decrement(branch, b, items)[k] == branch[k] - (if k.0 == b then SoldOf(items, k.1) else 0)
    decreases |items|
  {
    if items != [] {
      var row := (b, items[0].productId);
      var next := if row in branch then branch[row := branch[row] - items[0].quantity] else branch;
      DecrementEffect(next, b, items[1..], k);
    }
  }

  /** `b` is the branch whose agent is `u`. */
  ghost predicate AgentOf(branches: map<BranchId, Branch>, b: BranchId, u: UserId) {
    b in branches && branches[b].agentId == Some(u)
  }

  /** `u` is the user holding `email`. */
  ghost predicate EmailHolder(users: map<UserId, User>, email: string, u: UserId) {
    u in users && users[u].email == email
  }

  /**
   * Which customer a sale is for, and the users table and counter after
   * choosing: the given id when it is truthy, else the user holding the
   * email, else a new customer created with the given details under the
   * counter.
   */
  ghost predicate ChoosesCustomer(t: Tables, users: map<UserId, User>, next: nat, customer: UserId, customerId: Option<int>,
                                  name: string, email: string, phone: string) {
    if Truthy(customerId) then customer == customerId.value && users == t.users && next == t.nextId
    else if exists u :: EmailHolder(t.users, email, u) then EmailHolder(t.users, email, customer) && users == t.users && next == t.nextId
    else customer == t.nextId && users == t.users[t.nextId := User(name, email, phone, Customer)] && next == t.nextId + 1
  }

  /**
   * Why a sale is refused, checked in the handler's order: the body schema,
   * the caller's branch, the product lookup, and the store refusing an
   * order for a customer id that names no user.
   */
  function SaleRefusal(t: Tables, caller: UserId, customerId: Option<int>, items: seq<SaleItem>, amountPaid: int): (e: Option<ErrorCode>)
    ensures !ValidSale(items, amountPaid) ==> e == Some(InvalidInput)
    ensures ValidSale(items, amountPaid) && !IsAssignedAgent(t.branches, caller) ==> e == Some(Forbidden)
    ensures ValidSale(items, amountPaid) && IsAssignedAgent(t.branches, caller) ==>
      (e == Some(ProductNotFound) <==> !(AllProductsExist(t.products, items) && DistinctProducts(items)))
    ensures ValidSale(items, amountPaid) && IsAssignedAgent(t.branches, caller)
            && AllProductsExist(t.products, items) && DistinctProducts(items) ==>
      e == (if Truthy(customerId) && !(customerId.value >= 0 && customerId.value as nat in t.users) then Some(ForeignKeyViolation) else None)
  {
    FoundCountAccepts(t.products, items);
    if !ValidSale(items, amountPaid) then Some(InvalidInput)
    else if !IsAssignedAgent(t.branches, caller) then Some(Forbidden)
    else if FoundCount(t.products, items) != |items| then Some(ProductNotFound)
    else if Truthy(customerId) && !(customerId.value >= 0 && customerId.value as nat in t.users) then Some(ForeignKeyViolation)
    else None
  }

  /**
   * Record a paid in-store sale by the calling agent at the agent's branch,
   * for the customer `ChoosesCustomer` picks. The order is for the sale's
   * amount at current prices, has status PAYMENT_DONE, one line per item
   * and one PAYMENT_DONE event; then the branch's rows are lowered by the
   * quantities sold. A refused sale writes nothing.
   */
  method CreateAgentOrder(db: Db, caller: UserId, customerId: Option<int>, customerName: string, customerEmail: string,
                          customerPhone: string, address: string, items: seq<SaleItem>, amountPaid: int)
    returns (r: Result<OrderId>)
    requires db.Valid() && db.HasRole(caller, {Agent})
    modifies db
    ensures db.Valid()
    ensures r.Failure? <==> SaleRefusal(old(db.Snapshot()), caller, customerId, items, amountPaid).Some?
    ensures r.Failure? ==> Some(r.error) == SaleRefusal(old(db.Snapshot()), caller, customerId, items, amountPaid)
    ensures r.Failure? ==> db.Snapshot() == old(db.Snapshot())
    ensures r.Success? ==>
      && r.value in db.orders
      && AllProductsExist(old(db.products), items)
      && AgentOf(old(db.branches), db.orders[r.value].branchId, caller)
      && ChoosesCustomer(old(db.Snapshot()), db.users, r.value, db.orders[r.value].userId, customerId, customerName, customerEmail, customerPhone)
      && db.Snapshot() == old(db.Snapshot()).(
           users := db.users,
           orders := old(db.orders)[r.value := Order(db.orders[r.value].userId, db.orders[r.value].branchId,
                                                     SaleTotal(old(db.products), items), address, PaymentDone,
                                                     SaleLines(items), [PaymentDone])],
           branchStock := Decrement(old(db.branchStock), db.orders[r.value].branchId, items),
           nextId := r.value + 1)
  {
    var refusal := SaleRefusal(db.Snapshot(), caller, customerId, items, amountPaid);
    if refusal.Some? { return Failure(refusal.value); }
    FoundCountAccepts(db.products, items);
    var b :| b in db.branches && db.branches[b].agentId == Some(caller);
    ghost var before := db.Snapshot();
    var customer, id := ApplySale(db, b, customerId, customerName, customerEmail, customerPhone, address, items);
    ghost var order := db.orders[id];
    if !Truthy(customerId) && !(exists u :: EmailHolder(before.users, customerEmail, u)) {
      assert forall v :: v in before.users ==> !EmailHolder(before.users, customerEmail, v);
      UserWriteKeepsWellformed(before, User(customerName, customerEmail, customerPhone, Customer));
    }
    ghost var chosen := before.(users := db.users, nextId := id);
    OrderWriteKeepsWellformed(chosen, id, order, id + 1);
    ghost var placed := chosen.(orders := chosen.orders[id := order], nextId := id + 1);
    StockWriteKeepsWellformed(placed, placed.adminStock, db.branchStock);
    r := Success(id);
  }

  /** Choose the customer, write the order under the next id and lower the branch's rows. */
  method ApplySale(db: Db, b: BranchId, customerId: Option<int>, customerName: string, customerEmail: string,
                   customerPhone: string, address: string, items: seq<SaleItem>)
    returns (customer: UserId, id: OrderId)
    requires AllProductsExist(db.products, items)
    requires Truthy(customerId) ==> customerId.value >= 0
    modifies db
    ensures ChoosesCustomer(old(db.Snapshot()), db.users, id, customer, customerId, customerName, customerEmail, customerPhone)
    ensures db.Snapshot() == old(db.Snapshot()).(
      users := db.users,
      orders := old(db.orders)[id := Order(customer, b, SaleTotal(old(db.products), items), address, PaymentDone,
                                           SaleLines(items), [PaymentDone])],
      branchStock := Decrement(old(db.branchStock), b, items),
      nextId := id + 1)
  {
    var total := SaleTotal(db.products, items);
    if Truthy(customerId) {
      customer := customerId.value as nat;
    } else if exists u :: u in db.users && db.users[u].email == customerEmail {
      customer :| customer in db.users && db.users[customer].email == customerEmail;
    } else {
      customer := db.nextId;
      db.users := db.users[customer := User(customerName, customerEmail, customerPhone, Customer)];
      db.nextId := db.nextId + 1;
    }
    id := db.nextId;
    db.orders := db.orders[id := Order(customer, b, total, address, PaymentDone, SaleLines(items), [PaymentDone])];
    db.nextId := id + 1;
    DecrementRows(db, b, items);
  }

  /** Apply the sale to the branch's rows, one item at a time. */
  method DecrementRows(db: Db, b: BranchId, items: seq<SaleItem>)
    modifies db
    ensures db.Snapshot() == old(db.Snapshot()).(branchStock := Decrement(old(db.branchStock), b, items))
  {
    ghost var start := db.Snapshot();
    var i := 0;
    while i < |items|
      invariant 0 <= i <= |items|
      invariant Decrement(db.branchStock, b, items[i..]) == Decrement(start.branchStock, b, items)
      invariant db.Snapshot() == start.(branchStock := db.branchStock)
    {
      assert items[i..][0] == items[i] && items[i..][1..] == items[i + 1..];
      var k := (b, items[i].productId);
      if k in db.branchStock {
        db.branchStock := db.branchStock[k := db.branchStock[k] - items[i].quantity];
      }
      i := i + 1;
    }
    assert items[i..] == [];
  }

  /** A shelf row as the agent sees it: the product, its name and the branch's quantity. */
  datatype ShelfRow = ShelfRow(productId: ProductId, name: string, quantity: int)

  /** Ascending order on names: character by character, a prefix first. */
  predicate NameLe(a: string, b: string)
    decreases |a|
  {
    a == [] || (b != [] && (a[0] < b[0] || (a[0] == b[0] && NameLe(a[1..], b[1..]))))
  }

  lemma {:induction false} NameLeTotal(a: string, b: string)
    ensures NameLe(a, b) || NameLe(b, a)
    decreases |a|
  {
    if a != [] && b != [] && a[0] == b[0] {
      NameLeTotal(a[1..], b[1..]);
    }
  }

  lemma {:induction false} NameLeTransitive(a: string, b: string, c: string)
    requires NameLe(a, b) && NameLe(b, c)
    ensures NameLe(a, c)
    decreases |a|
  {
    if a != [] && a[0] == b[0] && b[0] == c[0] {
      NameLeTransitive(a[1..], b[1..], c[1..]);
    }
  }

  predicate SortedByName(rows: seq<ShelfRow>) {
    forall i, j :: 0 <= i < j < |rows| ==> NameLe(rows[i].name, rows[j].name)
  }

  /** Insert a row into a list sorted by name, keeping it sorted. */
  function InsertByName(x: ShelfRow, rows: seq<ShelfRow>): (r: seq<ShelfRow>)
    requires SortedByName(rows)
    ensures SortedByName(r)
    ensures multiset(r) == multiset(rows) + multiset{x}
    decreases |rows|
  {
    if rows == [] then [x]
    else if NameLe(x.name, rows[0].name) then
      BelowHeadBelowAll(x.name, rows);
      [x] + rows
    else
      var tail := rows[1..];
      var rest := InsertByName(x, tail);
      assert rows == [rows[0]] + tail;
      NameLeTotal(x.name, rows[0].name);
      assert forall j :: 0 <= j < |tail| ==> NameLe(rows[0].name, tail[j].name);
      InsertedStaysAbove(rows[0].name, x, tail, rest);
      [rows[0]] + rest
  }

  /** A name ordered before the head of a sorted list is ordered before every row of it. */
  lemma BelowHeadBelowAll(n: string, rows: seq<ShelfRow>)
    requires SortedByName(rows) && rows != [] && NameLe(n, rows[0].name)
    ensures forall j :: 0 <= j < |rows| ==> NameLe(n, rows[j].name)
  {
    forall j | 0 <= j < |rows| ensures NameLe(n, rows[j].name) {
      if j > 0 { NameLeTransitive(n, rows[0].name, rows[j].name); }
    }
  }

  /** A name ordered before `x` and every row of `tail` is ordered before every row of a list holding exactly those. */
  lemma InsertedStaysAbove(n: string, x: ShelfRow, tail: seq<ShelfRow>, rest: seq<ShelfRow>)
    requires NameLe(n, x.name)
    requires forall j :: 0 <= j < |tail| ==> NameLe(n, tail[j].name)
    requires multiset(rest) == multiset(tail) + multiset{x}
    ensures forall j :: 0 <= j < |rest| ==> NameLe(n, rest[j].name)
  {
    forall j | 0 <= j < |rest| ensures NameLe(n, rest[j].name) {
      assert rest[j] in multiset(rest);
      if rest[j] != x {
        assert rest[j] in multiset(tail);
        var m :| 0 <= m < |tail| && tail[m] == rest[j];
      }
    }
  }

  /** The rows sorted by name ascending; rows with equal names keep no particular order. */
  function SortByName(rows: seq<ShelfRow>): (r: seq<ShelfRow>)
    ensures SortedByName(r)
    ensures multiset(r) == multiset(rows)
    decreases |rows|
  {
    if rows == [] then []
    else
      assert rows == [rows[0]] + rows[1..];
      InsertByName(rows[0], SortByName(rows[1..]))
  }

  /** A shelf row of branch `b`: a stocked row (quantity above zero) of an existing product. */
  predicate OnShelf(t: Tables, b: BranchId, x: ShelfRow) {
    && (b, x.productId) in t.branchStock
    && x.productId in t.products
    && x.quantity == t.branchStock[(b, x.productId)]
    && x.name == t.products[x.productId].name
    && x.quantity > 0
  }

  /** The stocked rows of branch `b`, in the order the key scan meets them. */
  method CollectShelf(t: Tables, b: BranchId) returns (rows: seq<ShelfRow>)
    ensures forall x :: x in rows <==> OnShelf(t, b, x)
    ensures forall i, j :: 0 <= i < j < |rows| ==> rows[i].productId != rows[j].productId
  {
    rows := [];
    var rest := t.branchStock.Keys;
    while rest != {}
      invariant rest <= t.branchStock.Keys
      invariant forall x :: x in rows ==> OnShelf(t, b, x) && (b, x.productId) !in rest
      invariant forall k :: k in t.branchStock && k !in rest && k.0 == b && k.1 in t.products && t.branchStock[k] > 0 ==>
        ShelfRow(k.1, t.products[k.1].name, t.branchStock[k]) in rows
      invariant forall i, j :: 0 <= i < j < |rows| ==> rows[i].productId != rows[j].productId
      decreases rest
    {
      var k :| k in rest;
      if k.0 == b && k.1 in t.products && t.branchStock[k] > 0 {
        rows := rows + [ShelfRow(k.1, t.products[k.1].name, t.branchStock[k])];
      }
      rest := rest - {k};
    }
  }

  /**
   * The calling agent's shelf: the agent's branch rows whose quantity is
   * above zero, each with its product, sorted by product name ascending.
   * A caller who is the agent of no branch is refused.
   */
  method GetAgentBranchProducts(db: Db, caller: UserId) returns (r: Result<seq<ShelfRow>>)
    requires db.HasRole(caller, {Agent})
    ensures r.Failure? <==> !IsAssignedAgent(db.branches, caller)
    ensures r.Failure? ==> r.error == Forbidden
    ensures r.Success? ==> exists b :: AgentOf(db.branches, b, caller) && forall x :: x in r.value <==> OnShelf(db.Snapshot(), b, x)
    ensures r.Success? ==> SortedByName(r.value)
    ensures r.Success? ==> forall i, j :: 0 <= i < j < |r.value| ==> r.value[i].productId != r.value[j].productId
  {
    if !IsAssignedAgent(db.branches, caller) { return Failure(Forbidden); }
    var b :| b in db.branches && db.branches[b].agentId == Some(caller);
    var rows := CollectShelf(db.Snapshot(), b);
    var sorted := SortByName(rows);
    assert forall x :: x in sorted <==> x in multiset(rows);
    DistinctKept(rows, sorted);
    assert AgentOf(db.branches, b, caller);
    r := Success(sorted);
  }

  /** Reordering a list of rows keeps its products distinct. */
  lemma DistinctKept(a: seq<ShelfRow>, b: seq<ShelfRow>)
    requires forall i, j :: 0 <= i < j < |a| ==> a[i].productId != a[j].productId
    requires multiset(a) == multiset(b)
    ensures forall i, j :: 0 <= i < j < |b| ==> b[i].productId != b[j].productId
  {
    forall i, j | 0 <= i < j < |b| ensures b[i].productId != b[j].productId {
      if b[i].productId == b[j].productId {
        assert b[i] in multiset(a) && b[j] in multiset(a);
        var m :| 0 <= m < |a| && a[m] == b[i];
        var n :| 0 <= n < |a| && a[n] == b[j];
        if m == n {
          assert b[i] == b[j];
          assert multiset(b)[b[i]] >= 2 by {
            assert b == b[..i] + [b[i]] + b[i + 1..j] + [b[j]] + b[j + 1..];
          }
          DistinctOnce(a, m);
        }
      }
    }
  }

  /** In a list with distinct products every row occurs once. */
  lemma DistinctOnce(a: seq<ShelfRow>, m: nat)
    requires m < |a|
    requires forall i, j :: 0 <= i < j < |a| ==> a[i].productId != a[j].productId
    ensures multiset(a)[a[m]] == 1
  {
    assert a == a[..m] + [a[m]] + a[m + 1..];
    forall y | y in a[..m] ensures y != a[m] {
      var i :| 0 <= i < m && a[..m][i] == y;
      assert a[i].productId != a[m].productId;
    }
    var tail := a[m + 1..];
    forall y | y in tail ensures y != a[m] {
      var i :| 0 <= i < |tail| && tail[i] == y;
      assert a[m + 1 + i].productId != a[m].productId;
    }
  }
}
