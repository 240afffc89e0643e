/**
 * The shopping cart: one row per (user, product, branch), whose quantity
 * grows when the same product is added again from the same branch.
 */
module Carts {
  import opened Types
  import opened Store

  /** The row is the user's line for `productId` at `branchId`. */
  predicate IsLine(c: CartItem, userId: UserId, productId: ProductId, branchId: BranchId) {
    c.userId == userId && c.productId == productId && c.branchId == branchId
  }

  /** How many units of `productId` from `branchId` the user's cart holds (0 when there is no line). */
  ghost function LineQuantity(cart: map<CartId, CartItem>, userId: UserId, productId: ProductId, branchId: BranchId): int
    requires CartRowsUnique(cart)
  {
    if exists k :: k in cart && IsLine(cart[k], userId, productId, branchId) then
      var k :| k in cart && IsLine(cart[k], userId, productId, branchId); cart[k].quantity
    else 0
  }

  /** A line's quantity is that of the one row holding it. */
  lemma LineQuantityAt(cart: map<CartId, CartItem>, k: CartId)
    requires CartRowsUnique(cart) && k in cart
    ensures LineQuantity(cart, cart[k].userId, cart[k].productId, cart[k].branchId) == cart[k].quantity
  {
    var c := cart[k];
    assert IsLine(cart[k], c.userId, c.productId, c.branchId);
    forall j | j in cart && IsLine(cart[j], c.userId, c.productId, c.branchId)
      ensures j == k
    {
      assert (cart[j].userId, cart[j].productId, cart[j].branchId) == (cart[k].userId, cart[k].productId, cart[k].branchId);
    }
  }

  /** Growing the existing row `k` of a line raises that line by `q` and no other. */
  lemma GrowLineEffect(cart: map<CartId, CartItem>, k: CartId, q: int, u: UserId, p: ProductId, b: BranchId)
    requires CartRowsUnique(cart) && k in cart
    ensures CartRowsUnique(cart[k := cart[k].(quantity := cart[k].quantity + q)])
    ensures LineQuantity(cart[k := cart[k].(quantity := cart[k].quantity + q)], u, p, b) ==
      LineQuantity(cart, u, p, b) + (if IsLine(cart[k], u, p, b) then q else 0)
  {
    var cart' := cart[k := cart[k].(quantity := cart[k].quantity + q)];
    assert forall j :: j in cart' ==> (cart'[j].userId, cart'[j].productId, cart'[j].branchId) == (cart[j].userId, cart[j].productId, cart[j].branchId);
    LineQuantityAt(cart, k);
    LineQuantityAt(cart', k);
    if !IsLine(cart[k], u, p, b) {
      SameLineElsewhere(cart, cart', k, u, p, b);
    }
  }

  /** Opening a line under a fresh id gives that line `q` units and changes no other. */
  lemma OpenLineEffect(cart: map<CartId, CartItem>, id: CartId, row: CartItem, u: UserId, p: ProductId, b: BranchId)
    requires CartRowsUnique(cart) && id !in cart
    requires forall k :: k in cart ==> !IsLine(cart[k], row.userId, row.productId, row.branchId)
    ensures CartRowsUnique(cart[id := row])
    ensures LineQuantity(cart[id := row], u, p, b) ==
      LineQuantity(cart, u, p, b) + (if IsLine(row, u, p, b) then row.quantity else 0)
  {
    var cart' := cart[id := row];
    LineQuantityAt(cart', id);
    if !IsLine(row, u, p, b) {
      SameLineElsewhere(cart, cart', id, u, p, b);
    } else {
      assert !exists j :: j in cart && IsLine(cart[j], u, p, b);
    }
  }

  /** Changing or adding row `k` does not affect the lines other than row `k`'s own. */
  lemma SameLineElsewhere(cart: map<CartId, CartItem>, cart': map<CartId, CartItem>, k: CartId, u: UserId, p: ProductId, b: BranchId)
    requires CartRowsUnique(cart) && CartRowsUnique(cart')
    requires k in cart' && cart'.Keys == cart.Keys + {k}
    requires forall j :: j in cart && j != k ==> cart'[j] == cart[j]
    requires k in cart ==> IsLine(cart[k], cart'[k].userId, cart'[k].productId, cart'[k].branchId)
    requires !IsLine(cart'[k], u, p, b)
    ensures LineQuantity(cart', u, p, b) == LineQuantity(cart, u, p, b)
  {
    if exists j :: j in cart && IsLine(cart[j], u, p, b) {
      var j :| j in cart && IsLine(cart[j], u, p, b);
      assert j != k;
      LineQuantityAt(cart, j);
      LineQuantityAt(cart', j);
    } else {
      assert !exists j :: j in cart' && IsLine(cart'[j], u, p, b);
    }
  }

  /**
   * Add `quantity` units of a product from a branch to the caller's cart:
   * the existing line grows, or a new line is opened carrying the branch's
   * name.
   */
  method AddItemToCart(db: Db, caller: UserId, productId: ProductId, branchId: BranchId, quantity: int) returns (r: Result<CartId>)
    requires db.Valid()
    modifies db
    ensures db.Valid()
    ensures productId !in old(db.products) ==> r == Failure(ProductNotFound)
    ensures productId in old(db.products) && branchId !in old(db.branches) ==> r == Failure(BranchNotFound)
    ensures r.Failure? ==> db.Snapshot() == old(db.Snapshot())
    ensures r.Success? <==> productId in old(db.products) && branchId in old(db.branches)
    ensures r.Success? ==> AddsToLine(old(db.Snapshot()), db.Snapshot(), r.value, caller, productId, branchId, quantity)
    ensures r.Success? ==> forall u: UserId, p: ProductId, b: BranchId ::
      LineQuantity(db.cart, u, p, b) == LineQuantity(old(db.cart), u, p, b) + (if (u, p, b) == (caller, productId, branchId) then quantity else 0)
  {
    if productId !in db.products { return Failure(ProductNotFound); }
    if branchId !in db.branches { return Failure(BranchNotFound); }
    ghost var before := db.Snapshot();
    var id := AddToLine(db, caller, productId, branchId, quantity);
    forall u: UserId, p: ProductId, b: BranchId
      ensures CartRowsUnique(db.cart)
      ensures LineQuantity(db.cart, u, p, b) == LineQuantity(before.cart, u, p, b) + (if (u, p, b) == (caller, productId, branchId) then quantity else 0)
    {
      if id in before.cart {
        GrowLineEffect(before.cart, id, quantity, u, p, b);
      } else {
        OpenLineEffect(before.cart, id, db.cart[id], u, p, b);
      }
    }
    CartWriteKeepsWellformed(before, db.cart, db.nextId);
    r := Success(id);
  }

  /**
   * `t'` is `t` after `quantity` units were added under cart id `id`: either
   * `id` held the line already and grew, or the user had no such line and a
   * row was opened under the counter's id, carrying the branch's name.
   */
  ghost predicate AddsToLine(t: Tables, t': Tables, id: CartId, userId: UserId, productId: ProductId, branchId: BranchId, quantity: int) {
    if id in t.cart then
      && IsLine(t.cart[id], userId, productId, branchId)
      && t' == t.(cart := t.cart[id := t.cart[id].(quantity := t.cart[id].quantity + quantity)])
    else
      && branchId in t.branches
      && (forall k :: k in t.cart ==> !IsLine(t.cart[k], userId, productId, branchId))
      && id == t.nextId
      && t' == t.(cart := t.cart[id := CartItem(userId, productId, branchId, t.branches[branchId].name, quantity)], nextId := id + 1)
  }

  /** The write of an add that passed its checks: grow the line, or open it. */
  method AddToLine(db: Db, userId: UserId, productId: ProductId, branchId: BranchId, quantity: int) returns (id: CartId)
    requires branchId in db.branches && db.nextId !in db.cart
    modifies db
    ensures AddsToLine(old(db.Snapshot()), db.Snapshot(), id, userId, productId, branchId, quantity)
  {
    if exists k :: k in db.cart && IsLine(db.cart[k], userId, productId, branchId) {
      id :| id in db.cart && IsLine(db.cart[id], userId, productId, branchId);
      db.cart := db.cart[id := db.cart[id].(quantity := db.cart[id].quantity + quantity)];
    } else {
      id := db.nextId;
      db.cart := db.cart[id := CartItem(userId, productId, branchId, db.branches[branchId].name, quantity)];
      db.nextId := id + 1;
    }
  }

  /** Delete a cart row by id; the row need not belong to the caller. */
  method DeleteItemFromCart(db: Db, id: CartId) returns (r: Outcome)
    requires db.Valid()
    modifies db
    ensures db.Valid()
    ensures r == (if id in old(db.cart) then Ok else Err(RecordNotFound))
    ensures db.Snapshot() == old(db.Snapshot()).(cart := old(db.cart) - {id})
  {
    if id !in db.cart { return Err(RecordNotFound); }
    db.cart := db.cart - {id};
    r := Ok;
  }

  /** Set a cart row's quantity by id; the row need not belong to the caller. */
  method ChangeQuantity(db: Db, id: CartId, quantity: int) returns (r: Outcome)
    requires db.Valid()
    modifies db
    ensures db.Valid()
    ensures r == (if id in old(db.cart) then Ok else Err(RecordNotFound))
    ensures r.Err? ==> db.Snapshot() == old(db.Snapshot())
    ensures r.Ok? ==> db.Snapshot() == old(db.Snapshot()).(cart := old(db.cart)[id := old(db.cart[id]).(quantity := quantity)])
  {
    if id !in db.cart { return Err(RecordNotFound); }
    db.cart := db.cart[id := db.cart[id].(quantity := quantity)];
    r := Ok;
  }

  /** The caller's cart: exactly the rows that belong to them, unchanged. */
  function GetCart(cart: map<CartId, CartItem>, userId: UserId): (rows: map<CartId, CartItem>)
    ensures forall k :: k in rows <==> k in cart && cart[k].userId == userId
    ensures forall k :: k in rows ==> rows[k] == cart[k]
  {
    map k | k in cart && cart[k].userId == userId :: cart[k]
  }
}
