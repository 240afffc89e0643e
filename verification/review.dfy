/**
 * Product reviews: a customer may review a product of one of their own
 * delivered orders, once per (product, order); reviews are edited and
 * deleted only by their author.
 */
module Reviews {
  import opened Types
  import opened Store

  /** Order `orderId` exists and belongs to `u`. */
  predicate OwnsOrder(orders: map<OrderId, Order>, orderId: int, u: UserId) {
    orderId >= 0 && orderId as nat in orders && orders[orderId as nat].userId == u
  }

  /** The order has a line for product `p`. */
  predicate HasProduct(o: Order, p: int) {
    exists i :: 0 <= i < |o.lines| && o.lines[i].productId == p
  }

  /** `u` has already reviewed product `p` of order `o`. */
  predicate Reviewed(reviews: map<ReviewId, Review>, p: int, o: int, u: UserId) {
    exists v :: v in reviews && reviews[v].productId == p && reviews[v].orderId == o && reviews[v].userId == u
  }

  /** Review `id` exists and was written by `u`. */
  predicate Authored(reviews: map<ReviewId, Review>, id: int, u: UserId) {
    id >= 0 && id as nat in reviews && reviews[id as nat].userId == u
  }

  /**
   * Why a new review is refused, in the handler's order: a falsy product,
   * order or rating (so a rating of 0 is refused), an order that is not the
   * caller's, a product not in the order, an order not delivered, and a
   * review already written. A review is accepted exactly when none applies.
   */
  function ReviewRefusal(t: Tables, caller: UserId, productId: Option<int>, orderId: Option<int>, rating: Option<int>): (e: Option<ErrorCode>)
    ensures e.None? <==>
      && Truthy(productId) && Truthy(orderId) && Truthy(rating)
      && OwnsOrder(t.orders, orderId.value, caller)
      && HasProduct(t.orders[orderId.value as nat], productId.value)
      && t.orders[orderId.value as nat].status == OrderDelivered
      && !Reviewed(t.reviews, productId.value, orderId.value, caller)
    ensures !(Truthy(productId) && Truthy(orderId) && Truthy(rating)) ==> e == Some(ReviewFieldsRequired)
    ensures Truthy(productId) && Truthy(orderId) && Truthy(rating) && !OwnsOrder(t.orders, orderId.value, caller) ==> e == Some(Forbidden)
    ensures Truthy(productId) && Truthy(orderId) && Truthy(rating) && OwnsOrder(t.orders, orderId.value, caller) ==>
      && (!HasProduct(t.orders[orderId.value as nat], productId.value) ==> e == Some(ProductNotInOrder))
      && (HasProduct(t.orders[orderId.value as nat], productId.value) && t.orders[orderId.value as nat].status != OrderDelivered ==> e == Some(OrderNotDelivered))
      && ((HasProduct(t.orders[orderId.value as nat], productId.value) && t.orders[orderId.value as nat].status == OrderDelivered
           && Reviewed(t.reviews, productId.value, orderId.value, caller)) ==> e == Some(AlreadyReviewed))
  {
    if !(Truthy(productId) && Truthy(orderId) && Truthy(rating)) then Some(ReviewFieldsRequired)
    else if !OwnsOrder(t.orders, orderId.value, caller) then Some(Forbidden)
    else if !HasProduct(t.orders[orderId.value as nat], productId.value) then Some(ProductNotInOrder)
    else if t.orders[orderId.value as nat].status != OrderDelivered then Some(OrderNotDelivered)
    else if Reviewed(t.reviews, productId.value, orderId.value, caller) then Some(AlreadyReviewed)
    else None
  }

  /** A review for a (product, order, user) nobody has reviewed keeps reviews unique. */
  lemma NewReviewKeepsUnique(reviews: map<ReviewId, Review>, id: ReviewId, rv: Review)
    requires ReviewsUnique(reviews) && id !in reviews
    requires !Reviewed(reviews, rv.productId, rv.orderId, rv.userId)
    ensures ReviewsUnique(reviews[id := rv])
  {
  }

  /**
   * Write a review of a product of one of the caller's delivered orders.
   * The comment defaults to the empty string; the rating is not range
   * checked. The review gets the next id.
   */
  method CreateReview(db: Db, caller: UserId, productId: Option<int>, orderId: Option<int>, rating: Option<int>, comment: Option<string>)
    returns (r: Result<ReviewId>)
    requires db.Valid()
    modifies db
    ensures db.Valid()
    ensures r.Failure? <==> ReviewRefusal(old(db.Snapshot()), caller, productId, orderId, rating).Some?
    ensures r.Failure? ==> Some(r.error) == ReviewRefusal(old(db.Snapshot()), caller, productId, orderId, rating)
    ensures r.Failure? ==> db.Snapshot() == old(db.Snapshot())
    ensures r.Success? ==>
      && r.value == old(db.nextId)
      && productId.value >= 0 && orderId.value >= 0
      && db.Snapshot() == old(db.Snapshot()).(
           reviews := old(db.reviews)[r.value := Review(productId.value as nat, orderId.value as nat, caller, rating.value, OrElse(comment, ""))],
           nextId := r.value + 1)
  {
    var refusal := ReviewRefusal(db.Snapshot(), caller, productId, orderId, rating);
    if refusal.Some? { return Failure(refusal.value); }
    var i :| 0 <= i < |db.orders[orderId.value as nat].lines| && db.orders[orderId.value as nat].lines[i].productId == productId.value;
    var id := db.nextId;
    var review := Review(productId.value as nat, orderId.value as nat, caller, rating.value, OrElse(comment, ""));
    NewReviewKeepsUnique(db.reviews, id, review);
    ReviewsWriteKeepsWellformed(db.Snapshot(), db.reviews[id := review], id + 1);
    db.reviews := db.reviews[id := review];
    db.nextId := id + 1;
    r := Success(id);
  }

  /**
   * Change the rating of the caller's own review; the comment is replaced
   * only by a non-empty one. A falsy rating, a missing review and someone
   * else's review are refused.
   */
  method UpdateReview(db: Db, caller: UserId, id: int, rating: Option<int>, comment: Option<string>) returns (r: Outcome)
    requires db.Valid()
    modifies db
    ensures db.Valid()
    ensures r == (if !Truthy(rating) then Err(ReviewFieldsRequired)
                  else if !Authored(old(db.reviews), id, caller) then Err(ReviewNotFound)
                  else Ok)
    ensures r.Err? ==> db.Snapshot() == old(db.Snapshot())
    ensures r.Ok? ==> db.Snapshot() == old(db.Snapshot()).(
      reviews := old(db.reviews)[id as nat := old(db.reviews[id as nat]).(rating := rating.value, comment := OrElse(comment, old(db.reviews[id as nat].comment)))])
  {
    if !Truthy(rating) { return Err(ReviewFieldsRequired); }
    if !Authored(db.reviews, id, caller) { return Err(ReviewNotFound); }
    var current := db.reviews[id as nat];
    var updated := current.(rating := rating.value, comment := OrElse(comment, current.comment));
    ReviewsWriteKeepsWellformed(db.Snapshot(), db.reviews[id as nat := updated], db.nextId);
    db.reviews := db.reviews[id as nat := updated];
    r := Ok;
  }

  /** Delete the caller's own review; a missing review and someone else's review are refused alike. */
  method DeleteReview(db: Db, caller: UserId, id: int) returns (r: Outcome)
    requires db.Valid()
    modifies db
    ensures db.Valid()
    ensures r == (if Authored(old(db.reviews), id, caller) then Ok else Err(ReviewNotFound))
    ensures r.Err? ==> db.Snapshot() == old(db.Snapshot())
    ensures r.Ok? ==> db.Snapshot() == old(db.Snapshot()).(reviews := old(db.reviews) - {id as nat})
  {
    if !Authored(db.reviews, id, caller) { return Err(ReviewNotFound); }
    ReviewsWriteKeepsWellformed(db.Snapshot(), db.reviews - {id as nat}, db.nextId);
    db.reviews := db.reviews - {id as nat};
    r := Ok;
  }

  /**
   * The caller's reviews on one of their own orders; another user's order
   * (or a missing one) is refused, and other users' reviews on the order
   * are never returned.
   */
  function GetReviewsByOrder(t: Tables, caller: UserId, orderId: int): (r: Result<map<ReviewId, Review>>)
    ensures r.Failure? <==> !OwnsOrder(t.orders, orderId, caller)
    ensures r.Failure? ==> r.error == Forbidden
    ensures r.Success? ==> forall v :: v in r.value <==> v in t.reviews && t.reviews[v].orderId == orderId && t.reviews[v].userId == caller
    ensures r.Success? ==> forall v :: v in r.value ==> r.value[v] == t.reviews[v]
  {
    if !OwnsOrder(t.orders, orderId, caller) then Failure(Forbidden)
    else Success(map v | v in t.reviews && t.reviews[v].orderId == orderId && t.reviews[v].userId == caller :: t.reviews[v])
  }
}
