/** Identifiers, enumerations and the outcome of a request handler. */
module Types {

  type UserId = nat
  type BranchId = nat
  type ProductId = nat
  type RequestId = nat
  type ItemId = nat
  type CartId = nat
  type OrderId = nat
  type ReviewId = nat
  type BassId = nat

  datatype Option<+T> = None | Some(value: T)

  /** The role stored on a user record. */
  datatype Role = Admin | Agent | Rep | Customer

  /** Status of a stock-replenishment request. */
  datatype RequestStatus = Pending | Approved | Rejected | Delivered | Completed

  /**
   * Status of an order. The database enum is not part of this model; the
   * values the handlers name are listed, and every other value of the enum
   * is carried as `OtherStatus`.
   */
  datatype OrderStatus = OrderPending | PaymentDone | OrderDelivered | Cancelled | OtherStatus(name: string)

  /**
   * The model's own error taxonomy: one constructor per error code or
   * refusal the handlers produce (the source's numeric codes are
   * incomplete and reuse values, so they are not copied).
   */
  datatype ErrorCode =
    | InvalidInput             // request body refused by schema validation
    | InvalidAction            // approve endpoint called with an action other than approve/reject
    | Unauthorized
    | Forbidden                // 403 answers given without an error code
    | BranchNotFound
    | ProductNotFound
    | ProductNotFoundInBranch
    | ProductNotAdded
    | ProductAlreadyAdded
    | OutOfStock
    | RequestNotFound
    | InvalidRequestStatus
    | InvalidItemId
    | InsufficientStock
    | InvalidQuantity
    | UserNotFound
    | UserIsNotAnAgent
    | UserIsNotARep
    | AgentAlreadyAssigned
    | BranchAlreadyAssigned
    | NoRepAssigned
    | NoAgentAssigned
    | RecordNotFound           // the store refused an update or delete of a missing row
    | ForeignKeyViolation      // the store refused a row pointing at a missing parent
    | OrderNotFound
    | EmptyCart
    | NoShippingAddress
    | CartItemNotFound
    | ReviewFieldsRequired
    | ProductNotInOrder
    | OrderNotDelivered
    | AlreadyReviewed
    | ReviewNotFound
    | CodeAlreadyExists
    | BassNotFound
    | ServerError              // an error the handler does not catch, answered as an internal server error

  /** What a handler answers: success, or the error it raised. */
  datatype Outcome = Ok | Err(code: ErrorCode)

  /** Result of a handler that also returns a value. */
  datatype Result<+T> = Success(value: T) | Failure(error: ErrorCode)

  /** JavaScript truthiness of an optional number: present and not zero. */
  predicate Truthy(x: Option<int>) {
    x.Some? && x.value != 0
  }

  /** `s || fallback` on an optional string: the empty string is falsy. */
  function OrElse(s: Option<string>, fallback: string): (r: string)
    ensures s.Some? && s.value != [] ==> r == s.value
    ensures (s.None? || s.value == []) ==> r == fallback
  {
    if s.Some? && s.value != [] then s.value else fallback
  }

  /** `s ?? fallback`: only an absent value falls back; the empty string is kept. */
  function Coalesce(s: Option<string>, fallback: string): string {
    if s.Some? then s.value else fallback
  }
}
