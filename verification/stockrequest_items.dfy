/**
 * The per-item passes of the stock-request workflow, as functions over the
 * table contents: approval, receipt and the item rewrite of an update. Each
 * walks its input list in order and stops at the first item that fails,
 * keeping the writes made for the items before it.
 */
module StockRequestItems {
  import opened Types
  import opened Ledger
  import opened Store

  datatype NewItem = NewItem(productId: ProductId, requestedQuantity: int)
  datatype Decision = Decision(itemId: ItemId, approvedQuantity: int)
  datatype Receipt = Receipt(itemId: ItemId, receivedQuantity: int)
  /** An entry of an update: `id` names an existing item to rewrite; a falsy id asks for a new item. */
  datatype ItemEdit = ItemEdit(id: Option<int>, productId: ProductId, requestedQuantity: int)

  type Items = map<ItemId, RequestItem>

  /** The status changes the workflow allows. */
  predicate Transition(from: RequestStatus, to: RequestStatus) {
    || (from == Pending && (to == Approved || to == Rejected))
    || (from == Approved && to == Delivered)
    || (from == Delivered && to == Completed)
  }

  /** The items a create builds: one per input, numbered from `firstId`, nothing approved or received. */
  function NewItems(inputs: seq<NewItem>, firstId: nat): (m: Items)
    ensures forall k :: k in m <==> firstId <= k < firstId + |inputs|
    ensures forall k :: 0 <= k < |inputs| ==>
      m[firstId + k] == RequestItem(inputs[k].productId, inputs[k].requestedQuantity, 0, 0)
    decreases |inputs|
  {
    if inputs == [] then map[]
    else
      var rest := NewItems(inputs[1..], firstId + 1);
      assert forall k :: 1 <= k < |inputs| ==> inputs[1..][k - 1] == inputs[k];
      rest[firstId := RequestItem(inputs[0].productId, inputs[0].requestedQuantity, 0, 0)]
  }

  // ---------------------------------------------------------------- approval

  /** The check approval makes of one decision against the central stock read at that moment. */
  predicate DecisionPasses(items: Items, admin: AdminStock, d: Decision)
    requires d.itemId in items
  {
    var p := items[d.itemId].productId;
    p in admin && d.approvedQuantity <= admin[p]
  }

  /** The error a failing decision raises. */
  function DecisionError(items: Items, admin: AdminStock, d: Decision): ErrorCode
    requires d.itemId in items
  {
    if items[d.itemId].productId !in admin then ProductNotFound else InsufficientStock
  }

  /**
   * Approval of the listed items in order: each decision is checked and, when
   * it passes, its approved quantity is written. The central stock is only
   * read. Every listed id is already known to belong to the request.
   */
  function ApproveItems(items: Items, admin: AdminStock, ds: seq<Decision>): (res: (Items, Option<ErrorCode>))
    requires forall j :: 0 <= j < |ds| ==> ds[j].itemId in items
    ensures res.0.Keys == items.Keys
    decreases |ds|
  {
    if ds == [] then (items, None)
    else
      var d := ds[0];
      if !DecisionPasses(items, admin, d) then (items, Some(DecisionError(items, admin, d)))
      else
        var items' := items[d.itemId := items[d.itemId].(approvedQuantity := d.approvedQuantity)];
        ApproveItems(items', admin, ds[1..])
  }

  /** Two item maps that differ at most in approved quantities. */
  predicate SameButApproved(a: Items, b: Items) {
    a.Keys == b.Keys &&
    forall i :: i in a ==> a[i].(approvedQuantity := 0) == b[i].(approvedQuantity := 0)
  }

  /**
   * Approval succeeds exactly when every decision passes; otherwise it fails
   * with the error of the first decision that does not, and the decisions
   * before that one have been written.
   */
  lemma ApproveOutcome(items: Items, admin: AdminStock, ds: seq<Decision>)
    requires forall j :: 0 <= j < |ds| ==> ds[j].itemId in items
    ensures ApproveItems(items, admin, ds).1.None? <==> forall j :: 0 <= j < |ds| ==> DecisionPasses(items, admin, ds[j])
    ensures ApproveItems(items, admin, ds).1.Some? ==>
      exists k :: 0 <= k < |ds| && !DecisionPasses(items, admin, ds[k])
        && (forall j :: 0 <= j < k ==> DecisionPasses(items, admin, ds[j]))
        && ApproveItems(items, admin, ds).1 == Some(DecisionError(items, admin, ds[k]))
    ensures SameButApproved(items, ApproveItems(items, admin, ds).0)
  {
    ApproveSucceedsIff(items, admin, ds);
    if ApproveItems(items, admin, ds).1.Some? {
      ApproveFirstFailure(items, admin, ds);
    }
    ApproveOnlyApproves(items, admin, ds);
  }

  /** Approval succeeds exactly when every decision passes. */
  lemma {:induction false} ApproveSucceedsIff(items: Items, admin: AdminStock, ds: seq<Decision>)
    requires forall j :: 0 <= j < |ds| ==> ds[j].itemId in items
    ensures ApproveItems(items, admin, ds).1.None? <==> forall j :: 0 <= j < |ds| ==> DecisionPasses(items, admin, ds[j])
    decreases |ds|
  {
    if ds != [] {
      var d := ds[0];
      if DecisionPasses(items, admin, d) {
        var items' := items[d.itemId := items[d.itemId].(approvedQuantity := d.approvedQuantity)];
        var rest := ds[1..];
        assert forall j :: 0 <= j < |rest| ==> rest[j] == ds[j + 1];
        ApprovalStepKeepsChecks(items, admin, d, ds);
        ApproveSucceedsIff(items', admin, rest);
      }
    }
  }

  /** A failing approval fails with the error of the first decision that does not pass. */
  lemma {:induction false} ApproveFirstFailure(items: Items, admin: AdminStock, ds: seq<Decision>)
    requires forall j :: 0 <= j < |ds| ==> ds[j].itemId in items
    requires ApproveItems(items, admin, ds).1.Some?
    ensures exists k ::
      && 0 <= k < |ds| && !DecisionPasses(items, admin, ds[k])
      && (forall j :: 0 <= j < k ==> DecisionPasses(items, admin, ds[j]))
      && ApproveItems(items, admin, ds).1 == Some(DecisionError(items, admin, ds[k]))
    decreases |ds|
  {
    var d := ds[0];
    if DecisionPasses(items, admin, d) {
      var items' := items[d.itemId := items[d.itemId].(approvedQuantity := d.approvedQuantity)];
      var rest := ds[1..];
      assert forall j :: 0 <= j < |rest| ==> rest[j] == ds[j + 1];
      assert ApproveItems(items, admin, ds) == ApproveItems(items', admin, rest);
      ApprovalStepKeepsChecks(items, admin, d, ds);
      ApproveFirstFailure(items', admin, rest);
      var k :| 0 <= k < |rest| && !DecisionPasses(items', admin, rest[k])
        && (forall j :: 0 <= j < k ==> DecisionPasses(items', admin, rest[j]))
        && ApproveItems(items', admin, rest).1 == Some(DecisionError(items', admin, rest[k]));
      assert rest[k] == ds[k + 1];
      forall j | 0 <= j < k + 1
        ensures DecisionPasses(items, admin, ds[j])
      {
        if j > 0 {
          assert ds[j] == rest[j - 1];
        }
      }
    } else {
      assert !DecisionPasses(items, admin, ds[0]);
    }
  }

  /** Approval changes nothing but approved quantities. */
  lemma {:induction false} ApproveOnlyApproves(items: Items, admin: AdminStock, ds: seq<Decision>)
    requires forall j :: 0 <= j < |ds| ==> ds[j].itemId in items
    ensures SameButApproved(items, ApproveItems(items, admin, ds).0)
    decreases |ds|
  {
    if ds != [] {
      var d := ds[0];
      if DecisionPasses(items, admin, d) {
        var items' := items[d.itemId := items[d.itemId].(approvedQuantity := d.approvedQuantity)];
        var rest := ds[1..];
        assert forall j :: 0 <= j < |rest| ==> rest[j] == ds[j + 1];
        ApprovalStepKeepsChecks(items, admin, d, ds);
        ApproveOnlyApproves(items', admin, rest);
      }
    }
  }

  /** Writing one approved quantity changes no item's product, so no decision's check or error. */
  lemma ApprovalStepKeepsChecks(items: Items, admin: AdminStock, d: Decision, ds: seq<Decision>)
    requires d.itemId in items
    requires forall j :: 0 <= j < |ds| ==> ds[j].itemId in items
    ensures var items' := items[d.itemId := items[d.itemId].(approvedQuantity := d.approvedQuantity)];
      && SameButApproved(items, items')
      && (forall j :: 0 <= j < |ds| ==> DecisionPasses(items', admin, ds[j]) == DecisionPasses(items, admin, ds[j]))
      && (forall j :: 0 <= j < |ds| ==> DecisionError(items', admin, ds[j]) == DecisionError(items, admin, ds[j]))
  {
  }

  /**
   * After a successful approval, each listed item carries the quantity of the
   * last decision naming it, and every item no decision names is unchanged.
   * The requested quantity plays no part: approval may exceed it.
   */
  lemma {:induction false} ApproveWritesLastDecision(items: Items, admin: AdminStock, ds: seq<Decision>)
    requires forall j :: 0 <= j < |ds| ==> ds[j].itemId in items
    requires ApproveItems(items, admin, ds).1.None?
    ensures forall i :: i in items && (forall j :: 0 <= j < |ds| ==> ds[j].itemId != i) ==>
      ApproveItems(items, admin, ds).0[i] == items[i]
    ensures forall k :: 0 <= k < |ds| && (forall j :: k < j < |ds| ==> ds[j].itemId != ds[k].itemId) ==>
      ApproveItems(items, admin, ds).0[ds[k].itemId] == items[ds[k].itemId].(approvedQuantity := ds[k].approvedQuantity)
    decreases |ds|
  {
    if ds != [] {
      var d := ds[0];
      var items' := items[d.itemId := items[d.itemId].(approvedQuantity := d.approvedQuantity)];
      var rest := ds[1..];
      assert forall j :: 0 <= j < |rest| ==> rest[j] == ds[j + 1];
      ApproveWritesLastDecision(items', admin, rest);
      var res := ApproveItems(items', admin, rest).0;
      forall k | 0 <= k < |ds| && (forall j :: k < j < |ds| ==> ds[j].itemId != ds[k].itemId)
        ensures res[ds[k].itemId] == items[ds[k].itemId].(approvedQuantity := ds[k].approvedQuantity)
      {
        if k == 0 {
          assert forall j :: 0 <= j < |rest| ==> rest[j].itemId != d.itemId;
        } else {
          assert rest[k - 1] == ds[k];
          assert forall j :: k - 1 < j < |rest| ==> rest[j].itemId != rest[k - 1].itemId;
          ApproveOutcome(items, admin, ds);
        }
      }
    }
  }

  /** Whether approval succeeds does not depend on the requested (or any non-approved) quantity. */
  lemma {:induction false} ApproveIgnoresRequested(a: Items, b: Items, admin: AdminStock, ds: seq<Decision>)
    requires forall j :: 0 <= j < |ds| ==> ds[j].itemId in a
    requires a.Keys == b.Keys && forall i :: i in a ==> a[i].productId == b[i].productId
    ensures ApproveItems(a, admin, ds).1 == ApproveItems(b, admin, ds).1
    decreases |ds|
  {
    if ds != [] {
      var d := ds[0];
      if DecisionPasses(a, admin, d) {
        var a' := a[d.itemId := a[d.itemId].(approvedQuantity := d.approvedQuantity)];
        var b' := b[d.itemId := b[d.itemId].(approvedQuantity := d.approvedQuantity)];
        ApproveIgnoresRequested(a', b', admin, ds[1..]);
      }
    }
  }

  // ----------------------------------------------------------------- receipt

  /** What a receipt pass leaves behind: the items and both stock pools. */
  datatype Receiving = Receiving(items: Items, admin: AdminStock, branch: BranchStock)

  /**
   * Receipt of the listed items at branch `b`, in order: each receipt must
   * name an item of the request and may not exceed its approved quantity; it
   * records the received quantity, takes it from the central stock of the
   * item's product and adds it to the branch row (creating the row). A missing
   * product row makes the central update fail after the item was written.
   */
  function ReceiveItems(s: Receiving, b: BranchId, rs: seq<Receipt>): (res: (Receiving, Option<ErrorCode>))
    ensures res.0.items.Keys == s.items.Keys && res.0.admin.Keys == s.admin.Keys
    decreases |rs|
  {
    if rs == [] then (s, None)
    else
      var (t, e) := ReceiveOne(s, b, rs[0]);
      if e.Some? then (t, e) else ReceiveItems(t, b, rs[1..])
  }

  /** One receipt entry: its checks, then the item write, then the stock move. */
  function ReceiveOne(s: Receiving, b: BranchId, x: Receipt): (res: (Receiving, Option<ErrorCode>))
    ensures res.0.items.Keys == s.items.Keys && res.0.admin.Keys == s.admin.Keys
  {
    if x.itemId !in s.items then (s, Some(InvalidItemId))
    else if x.receivedQuantity > s.items[x.itemId].approvedQuantity then (s, Some(InvalidQuantity))
    else
      var item := s.items[x.itemId];
      var items' := s.items[x.itemId := item.(receivedQuantity := x.receivedQuantity)];
      if item.productId !in s.admin then (s.(items := items'), Some(RecordNotFound))
      else
        var q := x.receivedQuantity;
        (Receiving(items', Debit(s.admin, item.productId, q), Credit(s.branch, b, item.productId, q)), None)
  }

  /** Receipt keeps every product's total of central plus branch stock, whether it succeeds or stops part-way. */
  lemma {:induction false} ReceiveConserves(s: Receiving, b: BranchId, rs: seq<Receipt>, p: ProductId)
    ensures Total(ReceiveItems(s, b, rs).0.admin, ReceiveItems(s, b, rs).0.branch, p) == Total(s.admin, s.branch, p)
    decreases |rs|
  {
    if rs != [] {
      var x := rs[0];
      if x.itemId in s.items && x.receivedQuantity <= s.items[x.itemId].approvedQuantity {
        var item := s.items[x.itemId];
        if item.productId in s.admin {
          var q := x.receivedQuantity;
          var items' := s.items[x.itemId := item.(receivedQuantity := x.receivedQuantity)];
          var s' := Receiving(items', Debit(s.admin, item.productId, q), Credit(s.branch, b, item.productId, q));
          MoveConserves(s.admin, s.branch, b, item.productId, q, p);
          ReceiveConserves(s', b, rs[1..], p);
        }
      }
    }
  }

  /** The check receipt makes of one entry. */
  predicate ReceiptPasses(items: Items, admin: AdminStock, x: Receipt) {
    x.itemId in items && x.receivedQuantity <= items[x.itemId].approvedQuantity
    && items[x.itemId].productId in admin
  }

  /** Quantity the listed receipts move for product `p` (an item listed twice moves twice). */
  function MovedFor(items: Items, rs: seq<Receipt>, p: ProductId): int
    decreases |rs|
  {
    if rs == [] then 0
    else
      var here := if rs[0].itemId in items && items[rs[0].itemId].productId == p then rs[0].receivedQuantity else 0;
      here + MovedFor(items, rs[1..], p)
  }

  /** Receipt succeeds exactly when every entry passes. */
  lemma {:induction false} ReceiveOutcome(s: Receiving, b: BranchId, rs: seq<Receipt>)
    ensures ReceiveItems(s, b, rs).1.None? <==> forall j :: 0 <= j < |rs| ==> ReceiptPasses(s.items, s.admin, rs[j])
    decreases |rs|
  {
    if rs != [] {
      var x := rs[0];
      var rest := rs[1..];
      assert forall j :: 0 <= j < |rest| ==> rest[j] == rs[j + 1];
      if ReceiptPasses(s.items, s.admin, x) {
        var s' := ReceiveStep(s, b, x);
        assert ReceiveItems(s, b, rs) == ReceiveItems(s', b, rest);
        ReceiveStepKeepsChecks(s, b, x, rest);
        ReceiveOutcome(s', b, rest);
      } else {
        assert ReceiveOne(s, b, x).1.Some?;
      }
    }
  }

  /** A passing entry changes no item's product or approved quantity and no central product, so no entry's check. */
  lemma ReceiveStepKeepsChecks(s: Receiving, b: BranchId, x: Receipt, rs: seq<Receipt>)
    requires ReceiptPasses(s.items, s.admin, x)
    ensures var s' := ReceiveStep(s, b, x);
      forall j :: 0 <= j < |rs| ==> ReceiptPasses(s'.items, s'.admin, rs[j]) == ReceiptPasses(s.items, s.admin, rs[j])
  {
  }

  /** The state after one entry that passes. */
  function ReceiveStep(s: Receiving, b: BranchId, x: Receipt): (t: Receiving)
    requires ReceiptPasses(s.items, s.admin, x)
    ensures ReceiveItems(s, b, [x] ) == (t, None)
  {
    var item := s.items[x.itemId];
    var q := x.receivedQuantity;
    Receiving(s.items[x.itemId := item.(receivedQuantity := q)],
              Debit(s.admin, item.productId, q), Credit(s.branch, b, item.productId, q))
  }

  /**
   * A successful receipt lowers the central stock of each product by the
   * quantity received for it, and raises the branch's row for that product by
   * the same amount.
   */
  lemma {:induction false} ReceiveMovesStock(s: Receiving, b: BranchId, rs: seq<Receipt>, p: ProductId)
    requires forall j :: 0 <= j < |rs| ==> ReceiptPasses(s.items, s.admin, rs[j])
    ensures ReceiveItems(s, b, rs).0.admin.Keys == s.admin.Keys
    ensures Central(ReceiveItems(s, b, rs).0.admin, p) == Central(s.admin, p) - MovedFor(s.items, rs, p)
    ensures RowQuantity(ReceiveItems(s, b, rs).0.branch, b, p) == RowQuantity(s.branch, b, p) + MovedFor(s.items, rs, p)
    decreases |rs|
  {
    if rs != [] {
      var rest := rs[1..];
      assert forall j :: 0 <= j < |rest| ==> rest[j] == rs[j + 1];
      var s' := ReceiveStep(s, b, rs[0]);
      assert forall j :: 0 <= j < |rest| ==> ReceiptPasses(s'.items, s'.admin, rest[j]);
      ReceiveMovesStock(s', b, rest, p);
      MovedForSameProducts(s'.items, s.items, rest, p);
    }
  }

  /**
   * A successful receipt leaves the rows of every other branch as they were,
   * deletes no row, and creates rows only at the receiving branch, for
   * products it received.
   */
  lemma {:induction false} ReceiveKeepsOtherRows(s: Receiving, b: BranchId, rs: seq<Receipt>)
    requires forall j :: 0 <= j < |rs| ==> ReceiptPasses(s.items, s.admin, rs[j])
    ensures var t := ReceiveItems(s, b, rs).0;
      && (forall k :: k in s.branch ==> k in t.branch)
      && (forall k :: k in s.branch && k.0 != b ==> t.branch[k] == s.branch[k])
      && (forall k :: k in t.branch && k !in s.branch ==>
            k.0 == b && exists j :: 0 <= j < |rs| && rs[j].itemId in s.items && s.items[rs[j].itemId].productId == k.1)
    decreases |rs|
  {
    if rs != [] {
      var rest := rs[1..];
      assert forall j :: 0 <= j < |rest| ==> rest[j] == rs[j + 1];
      var s' := ReceiveStep(s, b, rs[0]);
      assert forall j :: 0 <= j < |rest| ==> ReceiptPasses(s'.items, s'.admin, rest[j]);
      ReceiveKeepsOtherRows(s', b, rest);
      var t := ReceiveItems(s', b, rest).0;
      forall k | k in t.branch && k !in s.branch
        ensures k.0 == b && exists j :: 0 <= j < |rs| && rs[j].itemId in s.items && s.items[rs[j].itemId].productId == k.1
      {
        if k in s'.branch {
          assert rs[0].itemId in s.items && s.items[rs[0].itemId].productId == k.1;
        } else {
          var j :| 0 <= j < |rest| && rest[j].itemId in s'.items && s'.items[rest[j].itemId].productId == k.1;
          assert rs[j + 1].itemId in s.items && s.items[rs[j + 1].itemId].productId == k.1;
        }
      }
    }
  }

  /**
   * A successful receipt records on each listed item the quantity of the last
   * entry naming it, which is never above the approved quantity, and leaves
   * every other item unchanged.
   */
  lemma {:induction false} ReceiveRecordsLastReceipt(s: Receiving, b: BranchId, rs: seq<Receipt>)
    requires forall j :: 0 <= j < |rs| ==> ReceiptPasses(s.items, s.admin, rs[j])
    ensures var t := ReceiveItems(s, b, rs).0;
      && t.items.Keys == s.items.Keys
      && (forall i :: i in s.items && (forall j :: 0 <= j < |rs| ==> rs[j].itemId != i) ==> t.items[i] == s.items[i])
      && (forall k :: 0 <= k < |rs| && rs[k].itemId in s.items && (forall j :: k < j < |rs| ==> rs[j].itemId != rs[k].itemId) ==>
            t.items[rs[k].itemId] == s.items[rs[k].itemId].(receivedQuantity := rs[k].receivedQuantity)
            && t.items[rs[k].itemId].receivedQuantity <= t.items[rs[k].itemId].approvedQuantity)
  {
    ReceiveKeepsUnnamedItems(s, b, rs);
    ReceiveLastReceiptWins(s, b, rs);
  }

  /** A successful receipt leaves every item no entry names unchanged. */
  lemma {:induction false} ReceiveKeepsUnnamedItems(s: Receiving, b: BranchId, rs: seq<Receipt>)
    requires forall j :: 0 <= j < |rs| ==> ReceiptPasses(s.items, s.admin, rs[j])
    ensures forall i :: i in s.items && (forall j :: 0 <= j < |rs| ==> rs[j].itemId != i) ==> ReceiveItems(s, b, rs).0.items[i] == s.items[i]
    decreases |rs|
  {
    if rs != [] {
      var rest := rs[1..];
      assert forall j :: 0 <= j < |rest| ==> rest[j] == rs[j + 1];
      var s' := ReceiveStep(s, b, rs[0]);
      assert forall j :: 0 <= j < |rest| ==> ReceiptPasses(s'.items, s'.admin, rest[j]);
      ReceiveKeepsUnnamedItems(s', b, rest);
    }
  }

  /** A successful receipt records on each listed item the quantity of the last entry naming it. */
  lemma ReceiveLastReceiptWins(s: Receiving, b: BranchId, rs: seq<Receipt>)
    requires forall j :: 0 <= j < |rs| ==> ReceiptPasses(s.items, s.admin, rs[j])
    ensures var t := ReceiveItems(s, b, rs).0;
      forall k :: 0 <= k < |rs| && rs[k].itemId in s.items && (forall j :: k < j < |rs| ==> rs[j].itemId != rs[k].itemId) ==>
        t.items[rs[k].itemId] == s.items[rs[k].itemId].(receivedQuantity := rs[k].receivedQuantity)
        && t.items[rs[k].itemId].receivedQuantity <= t.items[rs[k].itemId].approvedQuantity
  {
    forall k | 0 <= k < |rs| && rs[k].itemId in s.items && (forall j :: k < j < |rs| ==> rs[j].itemId != rs[k].itemId) {
      ReceiveLastAt(s, b, rs, k);
    }
  }

  /** Entry `k`, the last naming its item, is what the item records. */
  lemma {:induction false} ReceiveLastAt(s: Receiving, b: BranchId, rs: seq<Receipt>, k: nat)
    requires forall j :: 0 <= j < |rs| ==> ReceiptPasses(s.items, s.admin, rs[j])
    requires k < |rs| && forall j :: k < j < |rs| ==> rs[j].itemId != rs[k].itemId
    ensures rs[k].itemId in s.items
    ensures var t := ReceiveItems(s, b, rs).0;
      && t.items[rs[k].itemId] == s.items[rs[k].itemId].(receivedQuantity := rs[k].receivedQuantity)
      && t.items[rs[k].itemId].receivedQuantity <= t.items[rs[k].itemId].approvedQuantity
    decreases |rs|
  {
    var x := rs[0];
    var rest := rs[1..];
    assert ReceiptPasses(s.items, s.admin, x) && ReceiptPasses(s.items, s.admin, rs[k]);
    var s' := ReceiveStep(s, b, x);
    assert ReceiveItems(s, b, rs) == ReceiveItems(s', b, rest);
    if k > 0 {
      assert forall j :: 0 <= j < |rest| ==> rest[j] == rs[j + 1];
      assert forall j :: 0 <= j < |rest| ==> ReceiptPasses(s'.items, s'.admin, rest[j]);
      ReceiveLastAt(s', b, rest, k - 1);
    } else {
      assert forall j :: 0 <= j < |rest| ==> rest[j].itemId != x.itemId && ReceiptPasses(s'.items, s'.admin, rest[j]);
      ReceiveKeepsUnnamedItems(s', b, rest);
    }
  }

  lemma {:induction false} MovedForSameProducts(a: Items, c: Items, rs: seq<Receipt>, p: ProductId)
    requires a.Keys == c.Keys
    requires forall i :: i in a && i in c ==> a[i].productId == c[i].productId
    ensures MovedFor(a, rs, p) == MovedFor(c, rs, p)
    decreases |rs|
  {
    if rs != [] {
      MovedForSameProducts(a, c, rs[1..], p);
    }
  }

  // ------------------------------------------------------------------ update

  /** Progress of an update pass: the items, the ids kept or created so far, and the id counter. */
  datatype Editing = Editing(items: Items, kept: set<ItemId>, nextId: nat)

  /**
   * The item rewrite of an update, in list order: each entry's product must
   * be stocked at branch `b`; an entry with a truthy id must name one of the
   * request's items as they were before the update (`existing`) and rewrites
   * its product and requested quantity; any other entry creates a new item.
   */
  function EditItems(s: Editing, existing: set<ItemId>, branch: BranchStock, b: BranchId, es: seq<ItemEdit>): (res: (Editing, Option<ErrorCode>))
    requires existing <= s.items.Keys
    ensures s.items.Keys <= res.0.items.Keys && s.nextId <= res.0.nextId
    ensures (forall i :: i in s.items ==> i < s.nextId) ==> forall i :: i in res.0.items ==> i < res.0.nextId
    decreases |es|
  {
    if es == [] then (s, None)
    else
      var (t, e) := EditOne(s, existing, branch, b, es[0]);
      if e.Some? then (t, e) else EditItems(t, existing, branch, b, es[1..])
  }

  /** One entry of an update: its product check, then the rewrite of a named item or the creation of a new one. */
  function EditOne(s: Editing, existing: set<ItemId>, branch: BranchStock, b: BranchId, e: ItemEdit): (res: (Editing, Option<ErrorCode>))
    requires existing <= s.items.Keys
    ensures s.items.Keys <= res.0.items.Keys && s.nextId <= res.0.nextId
    ensures (forall i :: i in s.items ==> i < s.nextId) ==> forall i :: i in res.0.items ==> i < res.0.nextId
  {
    if (b, e.productId) !in branch then (s, Some(ProductNotFoundInBranch))
    else if Truthy(e.id) then
      if e.id.value !in existing then (s, Some(InvalidItemId))
      else
        var id: ItemId := e.id.value;
        var item := s.items[id].(productId := e.productId, requestedQuantity := e.requestedQuantity);
        (Editing(s.items[id := item], s.kept + {id}, s.nextId), None)
    else
      var item := RequestItem(e.productId, e.requestedQuantity, 0, 0);
      (Editing(s.items[s.nextId := item], s.kept + {s.nextId}, s.nextId + 1), None)
  }

  /** The ids the entries name (truthy ids only). */
  function ListedIds(es: seq<ItemEdit>): set<int>
    decreases |es|
  {
    if es == [] then {}
    else (if Truthy(es[0].id) then {es[0].id.value} else {}) + ListedIds(es[1..])
  }

  /** How many entries ask for a new item. */
  function NewCount(es: seq<ItemEdit>): nat
    decreases |es|
  {
    if es == [] then 0 else (if Truthy(es[0].id) then 0 else 1) + NewCount(es[1..])
  }

  lemma EditItemsEffect(s: Editing, existing: set<ItemId>, branch: BranchStock, b: BranchId, es: seq<ItemEdit>)
    requires existing <= s.items.Keys
    requires forall i :: i in s.items ==> i < s.nextId
    requires forall i :: i in s.kept ==> i in s.items && (b, s.items[i].productId) in branch
    requires EditItems(s, existing, branch, b, es).1.None?
    ensures var t := EditItems(s, existing, branch, b, es).0;
      && t.nextId == s.nextId + NewCount(es)
      && ListedIds(es) <= existing
      && (forall i :: i in t.items <==> i in s.items || s.nextId <= i < t.nextId)
      && (forall i :: i in t.kept <==> i in s.kept || i in ListedIds(es) || s.nextId <= i < t.nextId)
      && (forall i :: i in t.kept ==> (b, t.items[i].productId) in branch)
  {
    EditCounts(s, existing, branch, b, es);
    EditKeys(s, existing, branch, b, es);
    EditKept(s, existing, branch, b, es);
  }

  /** A successful pass advances the counter by the number of new entries, and names only existing items. */
  lemma {:induction false} EditCounts(s: Editing, existing: set<ItemId>, branch: BranchStock, b: BranchId, es: seq<ItemEdit>)
    requires existing <= s.items.Keys
    requires EditItems(s, existing, branch, b, es).1.None?
    ensures EditItems(s, existing, branch, b, es).0.nextId == s.nextId + NewCount(es)
    ensures ListedIds(es) <= existing
    decreases |es|
  {
    if es != [] {
      var step := EditOne(s, existing, branch, b, es[0]);
      var rest := es[1..];
      assert step.1.None? && EditItems(s, existing, branch, b, es) == EditItems(step.0, existing, branch, b, rest);
      assert ListedIds(es) == (if Truthy(es[0].id) then {es[0].id.value} else {}) + ListedIds(rest);
      EditCounts(step.0, existing, branch, b, rest);
    }
  }

  /** A successful pass adds exactly the ids from the old counter to the new one. */
  lemma {:induction false} EditKeys(s: Editing, existing: set<ItemId>, branch: BranchStock, b: BranchId, es: seq<ItemEdit>)
    requires existing <= s.items.Keys
    requires EditItems(s, existing, branch, b, es).1.None?
    ensures var t := EditItems(s, existing, branch, b, es).0;
      forall i :: i in t.items <==> i in s.items || s.nextId <= i < t.nextId
    decreases |es|
  {
    if es != [] {
      var step := EditOne(s, existing, branch, b, es[0]);
      var rest := es[1..];
      assert step.1.None? && EditItems(s, existing, branch, b, es) == EditItems(step.0, existing, branch, b, rest);
      EditKeys(step.0, existing, branch, b, rest);
    }
  }

  /** A successful pass keeps exactly the named and the new ids, all of them stocked at the branch. */
  lemma {:induction false} EditKept(s: Editing, existing: set<ItemId>, branch: BranchStock, b: BranchId, es: seq<ItemEdit>)
    requires existing <= s.items.Keys
    requires forall i :: i in s.kept ==> i in s.items && (b, s.items[i].productId) in branch
    requires EditItems(s, existing, branch, b, es).1.None?
    ensures var t := EditItems(s, existing, branch, b, es).0;
      && (forall i :: i in t.kept <==> i in s.kept || i in ListedIds(es) || s.nextId <= i < t.nextId)
      && (forall i :: i in t.kept ==> i in t.items && (b, t.items[i].productId) in branch)
    decreases |es|
  {
    if es != [] {
      var step := EditOne(s, existing, branch, b, es[0]);
      var rest := es[1..];
      assert step.1.None? && EditItems(s, existing, branch, b, es) == EditItems(step.0, existing, branch, b, rest);
      assert ListedIds(es) == (if Truthy(es[0].id) then {es[0].id.value} else {}) + ListedIds(rest);
      EditKept(step.0, existing, branch, b, rest);
    }
  }

  /** The last entry naming item `i` by a truthy id, if any. */
  function LastEdit(es: seq<ItemEdit>, i: int): (r: Option<ItemEdit>)
    ensures r.Some? ==> r.value in es && Truthy(r.value.id) && r.value.id.value == i
    ensures r.None? <==> i !in ListedIds(es)
    decreases |es|
  {
    if es == [] then None
    else
      var later := LastEdit(es[1..], i);
      if later.Some? then later
      else if Truthy(es[0].id) && es[0].id.value == i then Some(es[0])
      else None
  }

  /** An item as an entry naming it rewrites it: product and requested quantity replaced, the rest kept. */
  function AfterEdit(item: RequestItem, last: Option<ItemEdit>): RequestItem {
    match last
    case None => item
    case Some(e) => item.(productId := e.productId, requestedQuantity := e.requestedQuantity)
  }

  /**
   * What a successful update pass writes. An item of the request that no
   * entry names is unchanged. A named item takes the product and requested
   * quantity of the last entry naming it, and keeps its approved and
   * received quantities. The k-th entry without an id creates, under the
   * counter advanced by the new items before it, an item with its product
   * and requested quantity and nothing approved or received.
   */
  lemma EditWritesLastEntry(s: Editing, existing: set<ItemId>, branch: BranchStock, b: BranchId, es: seq<ItemEdit>, t: Editing)
    requires existing <= s.items.Keys
    requires forall i :: i in s.items ==> i < s.nextId
    requires EditItems(s, existing, branch, b, es) == (t, None)
    ensures forall i :: i in s.items ==> i in t.items && t.items[i] == AfterEdit(s.items[i], LastEdit(es, i))
    ensures forall k :: 0 <= k < |es| && !Truthy(es[k].id) ==>
      && s.nextId + NewCount(es[..k]) in t.items
      && t.items[s.nextId + NewCount(es[..k])] == RequestItem(es[k].productId, es[k].requestedQuantity, 0, 0)
  {
    forall i | i in s.items
      ensures i in t.items && t.items[i] == AfterEdit(s.items[i], LastEdit(es, i))
    {
      EditNamedAt(s, existing, branch, b, es, i);
    }
    forall k | 0 <= k < |es| && !Truthy(es[k].id) {
      EditNewAt(s, existing, branch, b, es, k);
    }
  }

  /** A successful pass leaves unchanged every item outside `existing`. */
  lemma {:induction false} EditKeepsOthers(s: Editing, existing: set<ItemId>, branch: BranchStock, b: BranchId, es: seq<ItemEdit>, i: ItemId)
    requires existing <= s.items.Keys
    requires forall i :: i in s.items ==> i < s.nextId
    requires EditItems(s, existing, branch, b, es).1.None?
    requires i in s.items && i !in existing
    ensures EditItems(s, existing, branch, b, es).0.items[i] == s.items[i]
    decreases |es|
  {
    if es != [] {
      var step := EditOne(s, existing, branch, b, es[0]);
      assert step.1.None? && EditItems(s, existing, branch, b, es) == EditItems(step.0, existing, branch, b, es[1..]);
      EditKeepsOthers(step.0, existing, branch, b, es[1..], i);
    }
  }

  /** Item `i` of the request ends with the product and requested quantity of the last entry naming it, if any. */
  lemma {:induction false} EditNamedAt(s: Editing, existing: set<ItemId>, branch: BranchStock, b: BranchId, es: seq<ItemEdit>, i: ItemId)
    requires existing <= s.items.Keys
    requires forall i :: i in s.items ==> i < s.nextId
    requires EditItems(s, existing, branch, b, es).1.None?
    requires i in s.items
    ensures EditItems(s, existing, branch, b, es).0.items[i] == AfterEdit(s.items[i], LastEdit(es, i))
    decreases |es|
  {
    if es != [] {
      var step := EditOne(s, existing, branch, b, es[0]);
      var rest := es[1..];
      assert step.1.None? && EditItems(s, existing, branch, b, es) == EditItems(step.0, existing, branch, b, rest);
      EditNamedAt(step.0, existing, branch, b, rest, i);
    }
  }

  /** Counting new entries in a prefix: the first entry, then the rest of the prefix. */
  lemma NewCountShift(es: seq<ItemEdit>, k: nat)
    requires 0 < k <= |es|
    ensures NewCount(es[..k]) == (if Truthy(es[0].id) then 0 else 1) + NewCount(es[1..][..k - 1])
  {
    assert es[..k][1..] == es[1..][..k - 1];
  }

  /** The k-th entry without an id creates its item under the counter advanced by the new items before it. */
  lemma {:induction false} EditNewAt(s: Editing, existing: set<ItemId>, branch: BranchStock, b: BranchId, es: seq<ItemEdit>, k: nat)
    requires existing <= s.items.Keys
    requires forall i :: i in s.items ==> i < s.nextId
    requires EditItems(s, existing, branch, b, es).1.None?
    requires k < |es| && !Truthy(es[k].id)
    ensures s.nextId + NewCount(es[..k]) in EditItems(s, existing, branch, b, es).0.items
    ensures EditItems(s, existing, branch, b, es).0.items[s.nextId + NewCount(es[..k])]
         == RequestItem(es[k].productId, es[k].requestedQuantity, 0, 0)
    decreases |es|
  {
    var step := EditOne(s, existing, branch, b, es[0]);
    var rest := es[1..];
    assert step.1.None? && EditItems(s, existing, branch, b, es) == EditItems(step.0, existing, branch, b, rest);
    if k > 0 {
      assert rest[k - 1] == es[k];
      EditNewAt(step.0, existing, branch, b, rest, k - 1);
      NewCountShift(es, k);
      assert step.0.nextId == s.nextId + (if Truthy(es[0].id) then 0 else 1);
    } else {
      assert es[..k] == [];
      assert s.nextId !in existing;
      EditKeepsOthers(step.0, existing, branch, b, rest, s.nextId);
    }
  }

  /** The items of a request after a successful update: the pass's items without the existing ones it did not keep. */
  function Survivors(items: Items, t: Editing): (r: Items)
  {
    t.items - (items.Keys - t.kept)
  }

  /**
   * After a successful update the request holds exactly the existing items
   * the entries named plus one new item per entry without an id, and every
   * item it holds is for a product stocked at the branch.
   */
  lemma UpdateReplacesItemSet(items: Items, branch: BranchStock, b: BranchId, es: seq<ItemEdit>, next: nat)
    requires forall i :: i in items ==> i < next
    requires EditItems(Editing(items, {}, next), items.Keys, branch, b, es).1.None?
    ensures var t := EditItems(Editing(items, {}, next), items.Keys, branch, b, es).0;
      && t.nextId == next + NewCount(es)
      && (forall i :: i in Survivors(items, t) <==> i in ListedIds(es) || next <= i < t.nextId)
      && (forall i :: i in Survivors(items, t) ==> (b, Survivors(items, t)[i].productId) in branch)
  {
    EditItemsEffect(Editing(items, {}, next), items.Keys, branch, b, es);
  }
}
