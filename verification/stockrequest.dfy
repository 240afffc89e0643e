/**
 * The stock-replenishment workflow handlers. A request moves
 * PENDING -> APPROVED | REJECTED, APPROVED -> DELIVERED and
 * DELIVERED -> COMPLETED; stock moves only when the branch receives it.
 */
module StockRequests {
  import opened Types
  import opened Ledger
  import opened Store
  import opened StockRequestItems

  predicate PositiveQuantities(items: seq<NewItem>) {
    forall i :: 0 <= i < |items| ==> items[i].requestedQuantity > 0
  }

  /** Every requested product already has a row at the branch. */
  predicate AllStocked(branch: BranchStock, b: BranchId, items: seq<NewItem>) {
    forall i :: 0 <= i < |items| ==> (b, items[i].productId) in branch
  }

  /**
   * Create a request for `branchId` on behalf of its agent. Nothing is
   * written unless every check passes; the request and its items are then
   * written together, the items numbered after the request.
   */
  method CreateStockRequest(db: Db, caller: UserId, branchId: BranchId, items: seq<NewItem>, note: Option<string>)
    returns (r: Result<RequestId>)
    requires db.Valid() && db.HasRole(caller, {Agent})
    modifies db
    ensures db.Valid()
    ensures r.Failure? ==> db.Snapshot() == old(db.Snapshot())
    ensures !PositiveQuantities(items) ==> r == Failure(InvalidInput)
    ensures PositiveQuantities(items) && branchId !in old(db.branches) ==> r == Failure(BranchNotFound)
    ensures PositiveQuantities(items) && branchId in old(db.branches) && old(db.branches[branchId].agentId) != Some(caller)
      ==> r == Failure(Unauthorized)
    ensures PositiveQuantities(items) && branchId in old(db.branches) && old(db.branches[branchId].agentId) == Some(caller)
      ==> r == (if AllStocked(old(db.branchStock), branchId, items) then Success(old(db.nextId)) else Failure(ProductNotFoundInBranch))
    ensures r.Success? ==>
      && r.value !in old(db.requests)
      && db.Snapshot() == old(db.Snapshot()).(
           requests := old(db.requests)[r.value := StockRequest(branchId, caller, Pending, note, None, NewItems(items, r.value + 1))],
           nextId := r.value + 1 + |items|)
  {
    if !PositiveQuantities(items) { return Failure(InvalidInput); }
    if branchId !in db.branches { return Failure(BranchNotFound); }
    if db.branches[branchId].agentId != Some(caller) { return Failure(Unauthorized); }
    if !AllStocked(db.branchStock, branchId, items) { return Failure(ProductNotFoundInBranch); }
    var id := db.nextId;
    var request := StockRequest(branchId, caller, Pending, note, None, NewItems(items, id + 1));
    db.PutRequest(id, request, id + 1 + |items|);
    r := Success(id);
  }

  /** The refusal approve/reject gives before writing anything, in the order the checks are made. */
  function ApproveRefusal(t: Tables, caller: UserId, requestId: RequestId, action: string, ds: seq<Decision>): (e: Option<ErrorCode>)
    ensures e.None? ==>
      && (action == "approve" || action == "reject")
      && caller in t.users && t.users[caller].role == Admin
      && requestId in t.requests && t.requests[requestId].status == Pending
      && (action == "approve" ==> forall j :: 0 <= j < |ds| ==> ds[j].itemId in t.requests[requestId].items && ds[j].approvedQuantity >= 0)
    ensures requestId in t.requests && t.requests[requestId].status != Pending
      && (action == "approve" || action == "reject") && caller in t.users && t.users[caller].role == Admin
      ==> e == Some(InvalidRequestStatus)
  {
    if action != "approve" && action != "reject" then Some(InvalidAction)
    else if caller !in t.users || t.users[caller].role != Admin then Some(Unauthorized)
    else if requestId !in t.requests then Some(RequestNotFound)
    else if t.requests[requestId].status != Pending then Some(InvalidRequestStatus)
    else if action == "reject" then None
    else if exists j :: 0 <= j < |ds| && ds[j].approvedQuantity < 0 then Some(InvalidInput)
    else if exists j :: 0 <= j < |ds| && ds[j].itemId !in t.requests[requestId].items then Some(InvalidItemId)
    else None
  }

  /**
   * Approve (with per-item quantities) or reject a pending request. Approval
   * checks and writes each decision in turn against the central stock, which
   * it never changes; the status becomes APPROVED only after every decision
   * has passed. Rejection touches no quantity.
   */
  method ApproveStockRequest(db: Db, caller: UserId, requestId: RequestId, action: string, ds: seq<Decision>, note: Option<string>)
    returns (r: Outcome)
    requires db.Valid()
    modifies db
    ensures db.Valid()
    ensures ApproveRefusal(old(db.Snapshot()), caller, requestId, action, ds).Some? ==>
      r == Err(ApproveRefusal(old(db.Snapshot()), caller, requestId, action, ds).value) && db.Snapshot() == old(db.Snapshot())
    ensures ApproveRefusal(old(db.Snapshot()), caller, requestId, action, ds).None? && action == "reject" ==>
      && r == Ok
      && db.Snapshot() == old(db.Snapshot()).(requests := old(db.requests)[requestId :=
           old(db.requests[requestId]).(status := Rejected, approvedById := Some(caller), note := Some(OrElse(note, "Request rejected by admin")))])
    ensures ApproveRefusal(old(db.Snapshot()), caller, requestId, action, ds).None? && action == "approve" ==>
      var req := old(db.requests[requestId]);
      var (items, err) := ApproveItems(req.items, old(db.adminStock), ds);
      && r == (if err.None? then Ok else Err(err.value))
      && db.Snapshot() == old(db.Snapshot()).(requests := old(db.requests)[requestId :=
           if err.None? then req.(items := items, status := Approved, approvedById := Some(caller), note := Some(OrElse(note, "Request approved by admin")))
           else req.(items := items)])
    ensures r.Ok? ==> Transition(old(db.requests[requestId].status), db.requests[requestId].status)
  {
    var refusal := ApproveRefusal(db.Snapshot(), caller, requestId, action, ds);
    if refusal.Some? { return Err(refusal.value); }
    var req := db.requests[requestId];
    if action == "reject" {
      var rejected := req.(status := Rejected, approvedById := Some(caller), note := Some(OrElse(note, "Request rejected by admin")));
      db.ReplaceRequest(requestId, rejected);
      return Ok;
    }
    ghost var before := db.Snapshot();
    r := ApplyApproval(db, caller, requestId, ds, note);
    WriteRequestKeepsWellformed(before, requestId, db.requests[requestId], before.nextId);
  }

  /** The writes of an approval that passed its checks: the per-item pass, then the status. */
  method ApplyApproval(db: Db, caller: UserId, requestId: RequestId, ds: seq<Decision>, note: Option<string>) returns (r: Outcome)
    requires requestId in db.requests
    requires forall j :: 0 <= j < |ds| ==> ds[j].itemId in db.requests[requestId].items
    modifies db
    ensures
      var req := old(db.requests[requestId]);
      var (items, err) := ApproveItems(req.items, old(db.adminStock), ds);
      && r == (if err.None? then Ok else Err(err.value))
      && db.Snapshot() == old(db.Snapshot()).(requests := old(db.requests)[requestId :=
           if err.None? then req.(items := items, status := Approved, approvedById := Some(caller), note := Some(OrElse(note, "Request approved by admin")))
           else req.(items := items)])
  {
    var req := db.requests[requestId];
    var items, err := ApproveDecisions(db, requestId, ds);
    if err.Some? { return Err(err.value); }
    db.requests := db.requests[requestId := req.(items := items, status := Approved, approvedById := Some(caller), note := Some(OrElse(note, "Request approved by admin")))];
    r := Ok;
  }


  /**
   * The per-item pass of approval: each decision is checked against the
   * central stock and written to the request at once, so a failure leaves
   * the earlier decisions in place.
   */
  method ApproveDecisions(db: Db, requestId: RequestId, ds: seq<Decision>) returns (items: Items, err: Option<ErrorCode>)
    requires requestId in db.requests
    requires forall j :: 0 <= j < |ds| ==> ds[j].itemId in db.requests[requestId].items
    modifies db
    ensures (items, err) == ApproveItems(old(db.requests[requestId].items), old(db.adminStock), ds)
    ensures db.Snapshot() == old(db.Snapshot()).(requests := old(db.requests)[requestId := old(db.requests[requestId]).(items := items)])
  {
    ghost var start := db.Snapshot();
    var req := db.requests[requestId];
    var admin := db.adminStock;
    items := req.items;
    var i := 0;
    while i < |ds|
      invariant 0 <= i <= |ds|
      invariant items.Keys == req.items.Keys
      invariant ApproveItems(items, admin, ds[i..]) == ApproveItems(req.items, admin, ds)
      invariant db.Snapshot() == start.(requests := start.requests[requestId := req.(items := items)])
    {
      assert ds[i..][1..] == ds[i + 1..];
      var d := ds[i];
      var p := items[d.itemId].productId;
      if p !in admin { return items, Some(ProductNotFound); }
      if admin[p] < d.approvedQuantity { return items, Some(InsufficientStock); }
      items := items[d.itemId := items[d.itemId].(approvedQuantity := d.approvedQuantity)];
      db.requests := db.requests[requestId := req.(items := items)];
      i := i + 1;
    }
    assert ds[i..] == [];
    err := None;
  }

  /** Mark an approved request as delivered (administrators only); no quantity changes. */
  method MarkStockAsDelivered(db: Db, caller: UserId, requestId: RequestId, note: Option<string>) returns (r: Outcome)
    requires db.Valid()
    modifies db
    ensures db.Valid()
    ensures !old(db.HasRole(caller, {Admin})) ==> r == Err(Unauthorized)
    ensures old(db.HasRole(caller, {Admin})) && requestId !in old(db.requests) ==> r == Err(RequestNotFound)
    ensures old(db.HasRole(caller, {Admin})) && requestId in old(db.requests) ==>
      r == (if old(db.requests[requestId].status) == Approved then Ok else Err(InvalidRequestStatus))
    ensures r.Err? ==> db.Snapshot() == old(db.Snapshot())
    ensures r.Ok? ==> db.Snapshot() == old(db.Snapshot()).(requests := old(db.requests)[requestId :=
      old(db.requests[requestId]).(status := Delivered, note := Some(OrElse(note, "Stock marked as delivered by admin")))])
    ensures r.Ok? ==> Transition(old(db.requests[requestId].status), db.requests[requestId].status)
  {
    if !db.HasRole(caller, {Admin}) { return Err(Unauthorized); }
    if requestId !in db.requests { return Err(RequestNotFound); }
    var req := db.requests[requestId];
    if req.status != Approved { return Err(InvalidRequestStatus); }
    db.ReplaceRequest(requestId, req.(status := Delivered, note := Some(OrElse(note, "Stock marked as delivered by admin"))));
    r := Ok;
  }

  /** The refusal receipt gives before writing anything, in the order the checks are made. */
  function ReceiveRefusal(t: Tables, caller: UserId, requestId: RequestId, rs: seq<Receipt>): (e: Option<ErrorCode>)
    requires t.Wellformed()
    ensures e.None? <==>
      && requestId in t.requests
      && t.branches[t.requests[requestId].branchId].agentId == Some(caller)
      && t.requests[requestId].status == Delivered
      && forall j :: 0 <= j < |rs| ==> rs[j].receivedQuantity >= 0
    ensures requestId !in t.requests ==> e == Some(RequestNotFound)
  {
    if requestId !in t.requests then Some(RequestNotFound)
    else if t.branches[t.requests[requestId].branchId].agentId != Some(caller) then Some(Unauthorized)
    else if t.requests[requestId].status != Delivered then Some(InvalidRequestStatus)
    else if exists j :: 0 <= j < |rs| && rs[j].receivedQuantity < 0 then Some(InvalidInput)
    else None
  }

  /**
   * Receive a delivered request at its branch (the branch's agent only).
   * Each receipt is recorded and its quantity moved from the central stock
   * to the branch row in turn; the request becomes COMPLETED only after every
   * receipt has passed, and a failing receipt keeps the earlier moves.
   */
  method ReceiveStock(db: Db, caller: UserId, requestId: RequestId, rs: seq<Receipt>, note: Option<string>) returns (r: Outcome)
    requires db.Valid() && db.HasRole(caller, {Agent})
    modifies db
    ensures db.Valid()
    ensures ReceiveRefusal(old(db.Snapshot()), caller, requestId, rs).Some? ==>
      r == Err(ReceiveRefusal(old(db.Snapshot()), caller, requestId, rs).value) && db.Snapshot() == old(db.Snapshot())
    ensures ReceiveRefusal(old(db.Snapshot()), caller, requestId, rs).None? ==>
      var req := old(db.requests[requestId]);
      var res := ReceiveItems(Receiving(req.items, old(db.adminStock), old(db.branchStock)), req.branchId, rs);
      && r == (if res.1.None? then Ok else Err(res.1.value))
      && db.Snapshot() == old(db.Snapshot()).(adminStock := res.0.admin, branchStock := res.0.branch, requests := old(db.requests)[requestId :=
           if res.1.None? then req.(items := res.0.items, status := Completed, note := Some(OrElse(note, "Stock received by agent")))
           else req.(items := res.0.items)])
    ensures r.Ok? ==> Transition(old(db.requests[requestId].status), db.requests[requestId].status)
    ensures forall p :: Total(db.adminStock, db.branchStock, p) == Total(old(db.adminStock), old(db.branchStock), p)
  {
    var refusal := ReceiveRefusal(db.Snapshot(), caller, requestId, rs);
    if refusal.Some? { return Err(refusal.value); }
    ghost var before := db.Snapshot();
    r := ApplyReceipt(db, requestId, rs, note);
    ghost var req := before.requests[requestId];
    forall p
      ensures Total(db.adminStock, db.branchStock, p) == Total(before.adminStock, before.branchStock, p)
    {
      ReceiveConserves(Receiving(req.items, before.adminStock, before.branchStock), req.branchId, rs, p);
    }
    StockWriteKeepsWellformed(before, db.adminStock, db.branchStock);
    WriteRequestKeepsWellformed(before.(adminStock := db.adminStock, branchStock := db.branchStock), requestId, db.requests[requestId], before.nextId);
  }

  /** The writes of a receipt that passed its checks: the per-item pass, then the status. */
  method ApplyReceipt(db: Db, requestId: RequestId, rs: seq<Receipt>, note: Option<string>) returns (r: Outcome)
    requires requestId in db.requests
    modifies db
    ensures
      var req := old(db.requests[requestId]);
      var res := ReceiveItems(Receiving(req.items, old(db.adminStock), old(db.branchStock)), req.branchId, rs);
      && r == (if res.1.None? then Ok else Err(res.1.value))
      && db.Snapshot() == old(db.Snapshot()).(adminStock := res.0.admin, branchStock := res.0.branch, requests := old(db.requests)[requestId :=
           if res.1.None? then req.(items := res.0.items, status := Completed, note := Some(OrElse(note, "Stock received by agent")))
           else req.(items := res.0.items)])
  {
    var req := db.requests[requestId];
    var s, err := ReceiveEntries(db, requestId, rs);
    if err.Some? { return Err(err.value); }
    db.requests := db.requests[requestId := req.(items := s.items, status := Completed, note := Some(OrElse(note, "Stock received by agent")))];
    r := Ok;
  }

  /**
   * The per-item pass of receipt: each entry is checked, its received
   * quantity written, and its stock moved, before the next entry is looked at.
   */
  method ReceiveEntries(db: Db, requestId: RequestId, rs: seq<Receipt>) returns (s: Receiving, err: Option<ErrorCode>)
    requires requestId in db.requests
    modifies db
    ensures (s, err) == ReceiveItems(Receiving(old(db.requests[requestId].items), old(db.adminStock), old(db.branchStock)), old(db.requests[requestId].branchId), rs)
    ensures db.Snapshot() == old(db.Snapshot()).(adminStock := s.admin, branchStock := s.branch,
      requests := old(db.requests)[requestId := old(db.requests[requestId]).(items := s.items)])
  {
    ghost var start := db.Snapshot();
    var req := db.requests[requestId];
    var b := req.branchId;
    s := Receiving(req.items, db.adminStock, db.branchStock);
    ghost var s0 := s;
    var i := 0;
    while i < |rs|
      invariant 0 <= i <= |rs|
      invariant ReceiveItems(s, b, rs[i..]) == ReceiveItems(s0, b, rs)
      invariant db.Snapshot() == start.(adminStock := s.admin, branchStock := s.branch, requests := start.requests[requestId := req.(items := s.items)])
    {
      assert rs[i..][0] == rs[i] && rs[i..][1..] == rs[i + 1..];
      var t, e := ReceiveEntry(db, requestId, req, s, rs[i]);
      s := t;
      if e.Some? { return s, e; }
      i := i + 1;
    }
    assert rs[i..] == [];
    err := None;
  }

  /** One entry of the receipt pass, writing the item first and the two stock tables after it. */
  method ReceiveEntry(db: Db, requestId: RequestId, req: StockRequest, s: Receiving, x: Receipt) returns (t: Receiving, e: Option<ErrorCode>)
    requires requestId in db.requests && db.requests[requestId] == req.(items := s.items)
    requires db.adminStock == s.admin && db.branchStock == s.branch
    modifies db
    ensures (t, e) == ReceiveOne(s, req.branchId, x)
    ensures db.Snapshot() == old(db.Snapshot()).(adminStock := t.admin, branchStock := t.branch, requests := old(db.requests)[requestId := req.(items := t.items)])
  {
    if x.itemId !in s.items { return s, Some(InvalidItemId); }
    var item := s.items[x.itemId];
    if x.receivedQuantity > item.approvedQuantity { return s, Some(InvalidQuantity); }
    t := s.(items := s.items[x.itemId := item.(receivedQuantity := x.receivedQuantity)]);
    db.requests := db.requests[requestId := req.(items := t.items)];
    if item.productId !in s.admin { return t, Some(RecordNotFound); }
    t := t.(admin := Debit(s.admin, item.productId, x.receivedQuantity), branch := Credit(s.branch, req.branchId, item.productId, x.receivedQuantity));
    db.adminStock, db.branchStock := t.admin, t.branch;
    e := None;
  }

  /** Delete a request: its creator or an administrator may, in PENDING, COMPLETED or REJECTED only. */
  method DeleteStockRequest(db: Db, caller: UserId, requestId: RequestId) returns (r: Outcome)
    requires db.Valid() && db.HasRole(caller, {Admin, Agent})
    modifies db
    ensures db.Valid()
    ensures requestId !in old(db.requests) ==> r == Err(RequestNotFound)
    ensures requestId in old(db.requests) && !old(db.HasRole(caller, {Admin})) && old(db.requests[requestId].createdById) != caller
      ==> r == Err(Unauthorized)
    ensures requestId in old(db.requests) && (old(db.HasRole(caller, {Admin})) || old(db.requests[requestId].createdById) == caller)
      ==> r == (if old(db.requests[requestId].status) in {Pending, Completed, Rejected} then Ok else Err(InvalidRequestStatus))
    ensures r.Err? ==> db.Snapshot() == old(db.Snapshot())
    ensures r.Ok? ==> db.Snapshot() == old(db.Snapshot()).(requests := old(db.requests) - {requestId})
  {
    if requestId !in db.requests { return Err(RequestNotFound); }
    var req := db.requests[requestId];
    if !db.HasRole(caller, {Admin}) && req.createdById != caller { return Err(Unauthorized); }
    if req.status !in {Pending, Completed, Rejected} { return Err(InvalidRequestStatus); }
    db.DeleteRequest(requestId);
    r := Ok;
  }

  predicate PositiveEdits(es: seq<ItemEdit>) {
    forall i :: 0 <= i < |es| ==> es[i].requestedQuantity > 0
  }

  /** The refusal an update gives before writing anything, in the order the checks are made. */
  function UpdateRefusal(t: Tables, caller: UserId, requestId: RequestId, es: seq<ItemEdit>): (e: Option<ErrorCode>)
    ensures e.None? <==>
      PositiveEdits(es) && requestId in t.requests && t.requests[requestId].createdById == caller && t.requests[requestId].status == Pending
    ensures !PositiveEdits(es) ==> e == Some(InvalidInput)
    ensures PositiveEdits(es) && requestId !in t.requests ==> e == Some(RequestNotFound)
  {
    if !PositiveEdits(es) then Some(InvalidInput)
    else if requestId !in t.requests then Some(RequestNotFound)
    else if t.requests[requestId].createdById != caller then Some(Unauthorized)
    else if t.requests[requestId].status != Pending then Some(InvalidRequestStatus)
    else None
  }

  /**
   * Update a pending request (its creator only). Each entry rewrites a named
   * item or adds a new one, written at once; after every entry has passed the
   * request's earlier items that no entry named are deleted and the note is
   * replaced when one is given. A failing entry keeps the earlier writes.
   */
  method UpdateStockRequest(db: Db, caller: UserId, requestId: RequestId, es: seq<ItemEdit>, note: Option<string>) returns (r: Outcome)
    requires db.Valid() && db.HasRole(caller, {Agent})
    modifies db
    ensures db.Valid()
    ensures UpdateRefusal(old(db.Snapshot()), caller, requestId, es).Some? ==>
      r == Err(UpdateRefusal(old(db.Snapshot()), caller, requestId, es).value) && db.Snapshot() == old(db.Snapshot())
    ensures UpdateRefusal(old(db.Snapshot()), caller, requestId, es).None? ==>
      var req := old(db.requests[requestId]);
      var res := EditItems(Editing(req.items, {}, old(db.nextId)), req.items.Keys, old(db.branchStock), req.branchId, es);
      && r == (if res.1.None? then Ok else Err(res.1.value))
      && db.Snapshot() == old(db.Snapshot()).(nextId := res.0.nextId, requests := old(db.requests)[requestId :=
           if res.1.None? then req.(items := Survivors(req.items, res.0), note := if note.Some? then note else req.note)
           else req.(items := res.0.items)])
  {
    var refusal := UpdateRefusal(db.Snapshot(), caller, requestId, es);
    if refusal.Some? { return Err(refusal.value); }
    ghost var before := db.Snapshot();
    ghost var req := db.requests[requestId];
    assert forall i :: i in req.items ==> i < before.nextId;
    r := ApplyUpdate(db, requestId, es, note);
    ghost var res := EditItems(Editing(req.items, {}, before.nextId), req.items.Keys, before.branchStock, req.branchId, es);
    WriteRequestKeepsWellformed(before, requestId, db.requests[requestId], res.0.nextId);
  }

  /** The writes of an update that passed its checks. */
  method ApplyUpdate(db: Db, requestId: RequestId, es: seq<ItemEdit>, note: Option<string>) returns (r: Outcome)
    requires requestId in db.requests
    modifies db
    ensures
      var req := old(db.requests[requestId]);
      var res := EditItems(Editing(req.items, {}, old(db.nextId)), req.items.Keys, old(db.branchStock), req.branchId, es);
      && r == (if res.1.None? then Ok else Err(res.1.value))
      && db.Snapshot() == old(db.Snapshot()).(nextId := res.0.nextId, requests := old(db.requests)[requestId :=
           if res.1.None? then req.(items := Survivors(req.items, res.0), note := if note.Some? then note else req.note)
           else req.(items := res.0.items)])
  {
    var req := db.requests[requestId];
    var t, err := EditEntries(db, requestId, es);
    if err.Some? { return Err(err.value); }
    DropUnnamed(db, requestId, req.items.Keys, t.kept);
    db.requests := db.requests[requestId := req.(items := Survivors(req.items, t), note := if note.Some? then note else req.note)];
    r := Ok;
  }

  /** The per-item pass of an update; new items take their ids from the counter. */
  method EditEntries(db: Db, requestId: RequestId, es: seq<ItemEdit>) returns (s: Editing, err: Option<ErrorCode>)
    requires requestId in db.requests
    modifies db
    ensures var req := old(db.requests[requestId]);
      (s, err) == EditItems(Editing(req.items, {}, old(db.nextId)), req.items.Keys, old(db.branchStock), req.branchId, es)
    ensures db.Snapshot() == old(db.Snapshot()).(nextId := s.nextId,
      requests := old(db.requests)[requestId := old(db.requests[requestId]).(items := s.items)])
  {
    ghost var start := db.Snapshot();
    var req := db.requests[requestId];
    var existing := req.items.Keys;
    s := Editing(req.items, {}, db.nextId);
    ghost var s0 := s;
    var i := 0;
    while i < |es|
      invariant 0 <= i <= |es|
      invariant existing <= s.items.Keys
      invariant EditItems(s, existing, start.branchStock, req.branchId, es[i..]) == EditItems(s0, existing, start.branchStock, req.branchId, es)
      invariant db.Snapshot() == start.(nextId := s.nextId, requests := start.requests[requestId := req.(items := s.items)])
    {
      assert es[i..][0] == es[i] && es[i..][1..] == es[i + 1..];
      var t, e := EditEntry(db, requestId, req, existing, s, es[i]);
      s := t;
      if e.Some? { return s, e; }
      i := i + 1;
    }
    assert es[i..] == [];
    err := None;
  }

  /** One entry of the update pass. */
  method EditEntry(db: Db, requestId: RequestId, req: StockRequest, existing: set<ItemId>, s: Editing, x: ItemEdit)
    returns (t: Editing, e: Option<ErrorCode>)
    requires existing <= s.items.Keys
    requires requestId in db.requests && db.requests[requestId] == req.(items := s.items) && db.nextId == s.nextId
    modifies db
    ensures (t, e) == EditOne(s, existing, db.branchStock, req.branchId, x)
    ensures db.Snapshot() == old(db.Snapshot()).(nextId := t.nextId, requests := old(db.requests)[requestId := req.(items := t.items)])
  {
    if (req.branchId, x.productId) !in db.branchStock { return s, Some(ProductNotFoundInBranch); }
    if Truthy(x.id) {
      if x.id.value !in existing { return s, Some(InvalidItemId); }
      var id: ItemId := x.id.value;
      var item := s.items[id].(productId := x.productId, requestedQuantity := x.requestedQuantity);
      t := Editing(s.items[id := item], s.kept + {id}, s.nextId);
    } else {
      var item := RequestItem(x.productId, x.requestedQuantity, 0, 0);
      t := Editing(s.items[db.nextId := item], s.kept + {db.nextId}, db.nextId + 1);
      db.nextId := db.nextId + 1;
    }
    db.requests := db.requests[requestId := req.(items := t.items)];
    e := None;
  }

  /** Delete, one at a time, the items of `existing` that are not in `kept`. */
  method DropUnnamed(db: Db, requestId: RequestId, existing: set<ItemId>, kept: set<ItemId>)
    requires requestId in db.requests
    modifies db
    ensures db.Snapshot() == old(db.Snapshot()).(requests := old(db.requests)[requestId :=
      old(db.requests[requestId]).(items := old(db.requests[requestId].items) - (existing - kept))])
  {
    ghost var start := db.Snapshot();
    var req := db.requests[requestId];
    var rest := existing;
    var items := req.items;
    assert items == req.items - ((existing - rest) - kept);
    while rest != {}
      invariant rest <= existing
      invariant items == req.items - ((existing - rest) - kept)
      invariant db.Snapshot() == start.(requests := start.requests[requestId := req.(items := items)])
      decreases rest
    {
      var x :| x in rest;
      if x !in kept {
        items := items - {x};
        db.requests := db.requests[requestId := req.(items := items)];
      }
      rest := rest - {x};
      assert items == req.items - ((existing - rest) - kept);
    }
    assert existing - rest == existing;
  }
}
