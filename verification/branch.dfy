/**
 * Branch administration: moving stock between the central pool and a
 * branch's rows, and assigning or removing a branch's agent and sales rep.
 */
module Branches {
  import opened Types
  import opened Ledger
  import opened Store

  /** The refusal of adding a product to a branch, in the order the checks are made. */
  function AddRefusal(t: Tables, branchId: BranchId, productId: ProductId): (e: Option<ErrorCode>)
    requires t.Wellformed()
    ensures e.None? <==>
      productId in t.products && t.adminStock[productId] != 0 && (branchId, productId) !in t.branchStock && branchId in t.branches
    ensures productId !in t.products ==> e == Some(ProductNotFound)
    ensures productId in t.products && t.adminStock[productId] == 0 ==> e == Some(OutOfStock)
  {
    if productId !in t.products then Some(ProductNotFound)
    else if t.adminStock[productId] == 0 then Some(OutOfStock)
    else if (branchId, productId) in t.branchStock then Some(ProductAlreadyAdded)
    else if branchId !in t.branches then Some(ForeignKeyViolation)
    else None
  }

  /**
   * Open a row for `productId` at `branchId` holding `quantity`, taken from
   * the central stock. Only an empty central stock is refused, so the
   * central stock can go below zero.
   */
  method AddProductsToBranch(db: Db, productId: ProductId, branchId: BranchId, quantity: int) returns (r: Outcome)
    requires db.Valid()
    modifies db
    ensures db.Valid()
    ensures var e := AddRefusal(old(db.Snapshot()), branchId, productId);
      r == (if e.None? then Ok else Err(e.value))
    ensures r.Err? ==> db.Snapshot() == old(db.Snapshot())
    ensures r.Ok? ==> db.Snapshot() == old(db.Snapshot()).(
      adminStock := Debit(old(db.adminStock), productId, quantity),
      branchStock := old(db.branchStock)[(branchId, productId) := quantity])
    ensures r.Ok? ==> forall p :: Total(db.adminStock, db.branchStock, p) == Total(old(db.adminStock), old(db.branchStock), p)
  {
    var refusal := AddRefusal(db.Snapshot(), branchId, productId);
    if refusal.Some? { return Err(refusal.value); }
    ghost var before := db.Snapshot();
    db.branchStock := db.branchStock[(branchId, productId) := quantity];
    db.adminStock := Debit(db.adminStock, productId, quantity);
    assert db.branchStock == Credit(before.branchStock, branchId, productId, quantity);
    forall p
      ensures Total(db.adminStock, db.branchStock, p) == Total(before.adminStock, before.branchStock, p)
    {
      MoveConserves(before.adminStock, before.branchStock, branchId, productId, quantity, p);
    }
    r := Ok;
  }

  /** Row `k` passes the row lookup's filter; an absent id filters nothing. */
  predicate RowMatches(k: (BranchId, ProductId), branchId: Option<BranchId>, productId: Option<ProductId>) {
    (branchId.None? || k.0 == branchId.value) && (productId.None? || k.1 == productId.value)
  }

  /**
   * Close a branch row and return its quantity to the central stock. The
   * body is not validated, and an absent id drops its filter from the row
   * lookup, so any row matching the other id is taken. Without a product id
   * the product lookup takes any product and the row is deleted, but the
   * final write to the central stock fails, uncaught: the row's units are
   * lost.
   */
  method RemoveProductFromBranch(db: Db, branchId: Option<BranchId>, productId: Option<ProductId>) returns (r: Outcome)
    requires db.Valid()
    modifies db
    ensures db.Valid()
    ensures r == Err(ProductNotFoundInBranch) <==> !exists k :: k in old(db.branchStock) && RowMatches(k, branchId, productId)
    ensures r != Err(ProductNotFoundInBranch) ==>
      r == (if productId.Some? && productId.value in old(db.products) then Ok
            else if productId.Some? || old(db.products) == map[] then Err(ProductNotFound)
            else Err(ServerError))
    ensures r.Err? && r != Err(ServerError) ==> db.Snapshot() == old(db.Snapshot())
    ensures r.Ok? ==> exists k ::
      && k in old(db.branchStock) && RowMatches(k, branchId, productId) && k.1 in old(db.adminStock)
      && db.Snapshot() == old(db.Snapshot()).(
           adminStock := old(db.adminStock)[k.1 := old(db.adminStock[k.1] + db.branchStock[k])],
           branchStock := old(db.branchStock) - {k})
    ensures r.Ok? ==> forall p :: Total(db.adminStock, db.branchStock, p) == Total(old(db.adminStock), old(db.branchStock), p)
    ensures r == Err(ServerError) ==> exists k ::
      && k in old(db.branchStock) && RowMatches(k, branchId, productId)
      && db.Snapshot() == old(db.Snapshot()).(branchStock := old(db.branchStock) - {k})
      && forall p :: Total(db.adminStock, db.branchStock, p)
                  == Total(old(db.adminStock), old(db.branchStock), p) - (if k.1 == p then old(db.branchStock[k]) else 0)
  {
    if !exists k :: k in db.branchStock && RowMatches(k, branchId, productId) { return Err(ProductNotFoundInBranch); }
    var k :| k in db.branchStock && RowMatches(k, branchId, productId);
    if productId.Some? && productId.value !in db.products { return Err(ProductNotFound); }
    if productId.None? && db.products == map[] { return Err(ProductNotFound); }
    ghost var before := db.Snapshot();
    if productId.None? {
      DropRow(db, k);
      StockWriteKeepsWellformed(before, db.adminStock, db.branchStock);
      return Err(ServerError);
    }
    ReturnRow(db, k);
    StockWriteKeepsWellformed(before, db.adminStock, db.branchStock);
    r := Ok;
  }

  /** Delete row `k` and credit its quantity to its product's central stock. */
  method ReturnRow(db: Db, k: (BranchId, ProductId))
    requires k in db.branchStock && k.1 in db.adminStock
    modifies db
    ensures db.Snapshot() == old(db.Snapshot()).(
      adminStock := old(db.adminStock)[k.1 := old(db.adminStock[k.1] + db.branchStock[k])],
      branchStock := old(db.branchStock) - {k})
    ensures forall p :: Total(db.adminStock, db.branchStock, p) == Total(old(db.adminStock), old(db.branchStock), p)
  {
    forall p
      ensures Total(db.adminStock[k.1 := db.adminStock[k.1] + db.branchStock[k]], db.branchStock - {k}, p)
           == Total(db.adminStock, db.branchStock, p)
    {
      ReturnConserves(db.adminStock, db.branchStock, k.0, k.1, p);
    }
    db.adminStock := db.adminStock[k.1 := db.adminStock[k.1] + db.branchStock[k]];
    db.branchStock := db.branchStock - {k};
  }

  /** Delete row `k` and nothing else: its units leave both pools. */
  method DropRow(db: Db, k: (BranchId, ProductId))
    requires k in db.branchStock
    modifies db
    ensures db.Snapshot() == old(db.Snapshot()).(branchStock := old(db.branchStock) - {k})
    ensures forall p :: Total(db.adminStock, db.branchStock, p)
                     == Total(old(db.adminStock), old(db.branchStock), p) - (if k.1 == p then old(db.branchStock[k]) else 0)
  {
    forall p
      ensures Total(db.adminStock, db.branchStock - {k}, p) == Total(db.adminStock, db.branchStock, p) - (if k.1 == p then db.branchStock[k] else 0)
    {
      BranchSumDelete(db.branchStock, k, p);
    }
    db.branchStock := db.branchStock - {k};
  }

  /** The refusal of topping up a branch row, in the order the checks are made. */
  function TopUpRefusal(t: Tables, branchId: BranchId, productId: ProductId): (e: Option<ErrorCode>)
    requires t.Wellformed()
    ensures e.None? <==> productId in t.products && t.adminStock[productId] != 0 && (branchId, productId) in t.branchStock
    ensures productId !in t.products ==> e == Some(ProductNotFound)
  {
    if productId !in t.products then Some(ProductNotFound)
    else if t.adminStock[productId] == 0 then Some(OutOfStock)
    else if (branchId, productId) !in t.branchStock then Some(ProductNotAdded)
    else None
  }

  /** Move `quantity` more units from the central stock into an existing branch row. */
  method UpdateBranchStock(db: Db, productId: ProductId, branchId: BranchId, quantity: int) returns (r: Outcome)
    requires db.Valid()
    modifies db
    ensures db.Valid()
    ensures var e := TopUpRefusal(old(db.Snapshot()), branchId, productId);
      r == (if e.None? then Ok else Err(e.value))
    ensures r.Err? ==> db.Snapshot() == old(db.Snapshot())
    ensures r.Ok? ==> db.Snapshot() == old(db.Snapshot()).(
      adminStock := Debit(old(db.adminStock), productId, quantity),
      branchStock := Credit(old(db.branchStock), branchId, productId, quantity))
    ensures r.Ok? ==> forall p :: Total(db.adminStock, db.branchStock, p) == Total(old(db.adminStock), old(db.branchStock), p)
  {
    var refusal := TopUpRefusal(db.Snapshot(), branchId, productId);
    if refusal.Some? { return Err(refusal.value); }
    ghost var before := db.Snapshot();
    db.branchStock := db.branchStock[(branchId, productId) := db.branchStock[(branchId, productId)] + quantity];
    db.adminStock := Debit(db.adminStock, productId, quantity);
    forall p
      ensures Total(db.adminStock, db.branchStock, p) == Total(before.adminStock, before.branchStock, p)
    {
      MoveConserves(before.adminStock, before.branchStock, branchId, productId, quantity, p);
    }
    r := Ok;
  }

  /** The branch, if any, whose agent is `u`. */
  predicate IsAssignedAgent(branches: map<BranchId, Branch>, u: UserId) {
    exists b :: b in branches && branches[b].agentId == Some(u)
  }

  /**
   * Make `agentId` the agent of `branchId`. A user who already runs any
   * branch (this one included) is refused; the branch's previous agent, if
   * any, is replaced.
   */
  method AssignAgent(db: Db, agentId: UserId, branchId: BranchId) returns (r: Outcome)
    requires db.Valid()
    modifies db
    ensures db.Valid()
    ensures agentId !in old(db.users) ==> r == Err(UserNotFound)
    ensures agentId in old(db.users) && old(db.users[agentId].role) != Agent ==> r == Err(UserIsNotAnAgent)
    ensures old(db.HasRole(agentId, {Agent})) && IsAssignedAgent(old(db.branches), agentId) ==> r == Err(AgentAlreadyAssigned)
    ensures old(db.HasRole(agentId, {Agent})) && !IsAssignedAgent(old(db.branches), agentId) ==>
      r == (if branchId in old(db.branches) then Ok else Err(RecordNotFound))
    ensures r.Err? ==> db.Snapshot() == old(db.Snapshot())
    ensures r.Ok? ==> db.Snapshot() == old(db.Snapshot()).(branches := old(db.branches)[branchId := old(db.branches[branchId]).(agentId := Some(agentId))])
  {
    if agentId !in db.users { return Err(UserNotFound); }
    if db.users[agentId].role != Agent { return Err(UserIsNotAnAgent); }
    if IsAssignedAgent(db.branches, agentId) { return Err(AgentAlreadyAssigned); }
    if branchId !in db.branches { return Err(RecordNotFound); }
    db.branches := db.branches[branchId := db.branches[branchId].(agentId := Some(agentId))];
    r := Ok;
  }

  /** Make `repId` the sales rep of a branch that has none; one rep may serve several branches. */
  method AssignRep(db: Db, repId: UserId, branchId: BranchId) returns (r: Outcome)
    requires db.Valid()
    modifies db
    ensures db.Valid()
    ensures repId !in old(db.users) ==> r == Err(UserNotFound)
    ensures repId in old(db.users) && old(db.users[repId].role) != Rep ==> r == Err(UserIsNotARep)
    ensures old(db.HasRole(repId, {Rep})) && branchId !in old(db.branches) ==> r == Err(BranchNotFound)
    ensures old(db.HasRole(repId, {Rep})) && branchId in old(db.branches) ==>
      r == (if Truthy(old(db.branches[branchId].salesRepId)) then Err(BranchAlreadyAssigned) else Ok)
    ensures r.Err? ==> db.Snapshot() == old(db.Snapshot())
    ensures r.Ok? ==> db.Snapshot() == old(db.Snapshot()).(branches := old(db.branches)[branchId := old(db.branches[branchId]).(salesRepId := Some(repId))])
  {
    if repId !in db.users { return Err(UserNotFound); }
    if db.users[repId].role != Rep { return Err(UserIsNotARep); }
    if branchId !in db.branches { return Err(BranchNotFound); }
    if Truthy(db.branches[branchId].salesRepId) { return Err(BranchAlreadyAssigned); }
    db.branches := db.branches[branchId := db.branches[branchId].(salesRepId := Some(repId))];
    r := Ok;
  }

  /** Clear a branch's sales rep. */
  method RemoveRepFromBranch(db: Db, branchId: BranchId) returns (r: Outcome)
    requires db.Valid()
    modifies db
    ensures db.Valid()
    ensures branchId !in old(db.branches) ==> r == Err(BranchNotFound)
    ensures branchId in old(db.branches) ==> r == (if old(db.branches[branchId].salesRepId).None? then Err(NoRepAssigned) else Ok)
    ensures r.Err? ==> db.Snapshot() == old(db.Snapshot())
    ensures r.Ok? ==> db.Snapshot() == old(db.Snapshot()).(branches := old(db.branches)[branchId := old(db.branches[branchId]).(salesRepId := None)])
  {
    if branchId !in db.branches { return Err(BranchNotFound); }
    if db.branches[branchId].salesRepId.None? { return Err(NoRepAssigned); }
    db.branches := db.branches[branchId := db.branches[branchId].(salesRepId := None)];
    r := Ok;
  }

  /** Clear a branch's agent. */
  method RemoveAgentFromBranch(db: Db, branchId: BranchId) returns (r: Outcome)
    requires db.Valid()
    modifies db
    ensures db.Valid()
    ensures branchId !in old(db.branches) ==> r == Err(BranchNotFound)
    ensures branchId in old(db.branches) ==> r == (if old(db.branches[branchId].agentId).None? then Err(NoAgentAssigned) else Ok)
    ensures r.Err? ==> db.Snapshot() == old(db.Snapshot())
    ensures r.Ok? ==> db.Snapshot() == old(db.Snapshot()).(branches := old(db.branches)[branchId := old(db.branches[branchId]).(agentId := None)])
  {
    if branchId !in db.branches { return Err(BranchNotFound); }
    if db.branches[branchId].agentId.None? { return Err(NoAgentAssigned); }
    db.branches := db.branches[branchId := db.branches[branchId].(agentId := None)];
    r := Ok;
  }

  /** Replace the branch fields that are given; absent fields keep their value. */
  method UpdateBranch(db: Db, branchId: BranchId, name: Option<string>, phoneNumber: Option<string>, address: Option<string>)
    returns (r: Outcome)
    requires db.Valid()
    modifies db
    ensures db.Valid()
    ensures r == (if branchId in old(db.branches) then Ok else Err(BranchNotFound))
    ensures r.Err? ==> db.Snapshot() == old(db.Snapshot())
    ensures r.Ok? ==>
      var b := old(db.branches[branchId]);
      db.Snapshot() == old(db.Snapshot()).(branches := old(db.branches)[branchId :=
        b.(name := Coalesce(name, b.name), phoneNumber := Coalesce(phoneNumber, b.phoneNumber), address := Coalesce(address, b.address))])
  {
    if branchId !in db.branches { return Err(BranchNotFound); }
    var b := db.branches[branchId];
    db.branches := db.branches[branchId := b.(name := Coalesce(name, b.name), phoneNumber := Coalesce(phoneNumber, b.phoneNumber), address := Coalesce(address, b.address))];
    r := Ok;
  }
}
