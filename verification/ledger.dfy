/**
 * The two stock pools: the central ("admin") pool per product and the
 * per-branch pools keyed by (branch, product). Neither pool is assumed to be
 * non-negative; what every stock movement keeps is the product's total.
 */
module Ledger {
  import opened Types

  type AdminStock = map<ProductId, int>
  type BranchStock = map<(BranchId, ProductId), int>

  /** Central stock of `p`, zero for an unknown product. */
  function Central(admin: AdminStock, p: ProductId): int {
    if p in admin then admin[p] else 0
  }

  /** Quantity of the (branch, product) row, zero when there is no row. */
  function RowQuantity(branch: BranchStock, b: BranchId, p: ProductId): int {
    if (b, p) in branch then branch[(b, p)] else 0
  }

  /** What row `k` contributes to the branch-wide stock of `p`. */
  function Contribution(branch: BranchStock, k: (BranchId, ProductId), p: ProductId): int
    requires k in branch
  {
    if k.1 == p then branch[k] else 0
  }

  /** Sum over every branch of the stock of product `p`. */
  ghost function BranchSum(branch: BranchStock, p: ProductId): int
    decreases |branch|
  {
    if branch == map[] then 0
    else
      var k :| k in branch;
      Contribution(branch, k, p) + BranchSum(branch - {k}, p)
  }

  /** The quantity of `p` the two pools hold together. */
  ghost function Total(admin: AdminStock, branch: BranchStock, p: ProductId): int {
    Central(admin, p) + BranchSum(branch, p)
  }

  /** Taking any one row out of the sum leaves the sum of the others. */
  lemma {:induction false} BranchSumRemove(branch: BranchStock, k: (BranchId, ProductId), p: ProductId)
    requires k in branch
    ensures BranchSum(branch, p) == Contribution(branch, k, p) + BranchSum(branch - {k}, p)
    decreases |branch|
  {
    var j :| j in branch && BranchSum(branch, p) == Contribution(branch, j, p) + BranchSum(branch - {j}, p);
    if j != k {
      var rest := branch - {j};
      assert k in rest;
      BranchSumRemove(rest, k, p);
      var restK := branch - {k};
      assert j in restK;
      BranchSumRemove(restK, j, p);
      assert rest - {k} == restK - {j};
      assert Contribution(rest, k, p) == Contribution(branch, k, p);
      assert Contribution(restK, j, p) == Contribution(branch, j, p);
    }
  }

  /** Setting row `k` to `v` changes the sum of `p` by exactly the row's change. */
  lemma BranchSumSet(branch: BranchStock, k: (BranchId, ProductId), v: int, p: ProductId)
    ensures BranchSum(branch[k := v], p)
         == BranchSum(branch, p) - (if k in branch && k.1 == p then branch[k] else 0) + (if k.1 == p then v else 0)
  {
    var updated := branch[k := v];
    BranchSumRemove(updated, k, p);
    assert updated - {k} == branch - {k};
    if k in branch {
      BranchSumRemove(branch, k, p);
    } else {
      assert branch - {k} == branch;
    }
  }

  /** Deleting row `k` lowers the sum of `p` by exactly the row's quantity. */
  lemma BranchSumDelete(branch: BranchStock, k: (BranchId, ProductId), p: ProductId)
    requires k in branch
    ensures BranchSum(branch - {k}, p) == BranchSum(branch, p) - (if k.1 == p then branch[k] else 0)
  {
    BranchSumRemove(branch, k, p);
  }

  /** Central pool after `q` units of `p` leave it. */
  function Debit(admin: AdminStock, p: ProductId, q: int): (r: AdminStock)
    requires p in admin
    ensures r.Keys == admin.Keys && r[p] == admin[p] - q
    ensures forall p' :: p' in admin && p' != p ==> r[p'] == admin[p']
  {
    admin[p := admin[p] - q]
  }

  /** Branch pools after `q` units of `p` arrive at branch `b`, the row created when absent. */
  function Credit(branch: BranchStock, b: BranchId, p: ProductId, q: int): (r: BranchStock)
    ensures r.Keys == branch.Keys + {(b, p)} && r[(b, p)] == RowQuantity(branch, b, p) + q
    ensures forall k :: k in branch && k != (b, p) ==> r[k] == branch[k]
  {
    branch[(b, p) := RowQuantity(branch, b, p) + q]
  }

  /** Moving `q` units of `p` from the central pool to branch `b` keeps every product's total. */
  lemma MoveConserves(admin: AdminStock, branch: BranchStock, b: BranchId, p: ProductId, q: int, p': ProductId)
    requires p in admin
    ensures Total(Debit(admin, p, q), Credit(branch, b, p, q), p') == Total(admin, branch, p')
  {
    BranchSumSet(branch, (b, p), RowQuantity(branch, b, p) + q, p');
  }

  /** Deleting the (b, p) row and crediting its quantity to the central pool keeps every total. */
  lemma ReturnConserves(admin: AdminStock, branch: BranchStock, b: BranchId, p: ProductId, p': ProductId)
    requires p in admin && (b, p) in branch
    ensures Total(admin[p := admin[p] + branch[(b, p)]], branch - {(b, p)}, p') == Total(admin, branch, p')
  {
    BranchSumDelete(branch, (b, p), p');
  }
}
