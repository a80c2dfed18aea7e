/** The three order-status transitions an administrator can make: confirm,
    revert a confirmation, cancel. Orders are a table keyed by order id; each
    transition reads one order, checks its status and writes the whole row
    back with only the status changed. */
module Admin {
  import opened Common
  import opened Domain

  const ORDER_NOT_FOUND: string := "Order not found !!"
  const NOT_CONFIRMED_BY_CUSTOMER: string := "Order is not confirmed by customer yet !!"
  const NOT_CONFIRMED_BY_ADMIN: string := "Order is not confirmed by admin yet !!"
  const DELIVERED_NOT_CANCELLABLE: string := "Delivered orders cannot be cancelled !!"

  type Orders = map<int, Order>

  /** A successful transition: the table after the write and the order returned. */
  datatype Transition = Transition(orders: Orders, order: Order)

  /** The row is the old one with a new status and nothing else changed. */
  predicate OnlyStatusChanged(before: Order, after: Order, status: int) {
    after.status == status
    && after.id == before.id && after.uniqueId == before.uniqueId && after.isActive == before.isActive
    && after.maxDateRequired == before.maxDateRequired && after.deliveryDate == before.deliveryDate
    && after.customerId == before.customerId && after.confirmationId == before.confirmationId
    && after.cartId == before.cartId && after.createdByAdmin == before.createdByAdmin
  }

  /** Every other order is untouched. */
  predicate OthersUnchanged(before: Orders, after: Orders, orderId: int) {
    after.Keys == before.Keys && forall id :: id in before && id != orderId ==> after[id] == before[id]
  }

  /** The write-back of a transition: the order returned is the stored row,
      it differs from the old row in its status alone, and nothing else moved. */
  predicate WrittenBack(before: Orders, t: Transition, orderId: int, status: int) {
    orderId in before && OthersUnchanged(before, t.orders, orderId)
    && orderId in t.orders && t.orders[orderId] == t.order
    && OnlyStatusChanged(before[orderId], t.order, status)
  }

  /** The shape all three transitions share: look the order up, refuse it
      when its status is refused, otherwise store it with the new status. */
  function Move(orders: Orders, orderId: int, refused: int -> bool, message: string, status: int): (r: Result<Transition>)
    ensures orderId !in orders ==> r == Failure(RestError(NOT_FOUND, ORDER_NOT_FOUND))
    ensures orderId in orders && refused(orders[orderId].status) ==> r == BadRequest(message)
    ensures r.Success? <==> orderId in orders && !refused(orders[orderId].status)
    ensures r.Success? ==> WrittenBack(orders, r.value, orderId, status)
  {
    if orderId !in orders then Failure(RestError(NOT_FOUND, ORDER_NOT_FOUND))
    else
      var order := orders[orderId];
      if refused(order.status) then BadRequest(message)
      else
        var updated := order.(status := status);
        Success(Transition(orders[orderId := updated], updated))
  }

  /** `confirmOrderByAdmin`: only an order the customer confirmed (status 2)
      can be confirmed, and it is stored as confirmed by the administrator. */
  function ConfirmOrderByAdmin(orders: Orders, orderId: int): (r: Result<Transition>)
    ensures orderId !in orders ==> r == Failure(RestError(NOT_FOUND, ORDER_NOT_FOUND))
    ensures orderId in orders && orders[orderId].status != STATUS_CONFIRMED_BY_CUSTOMER ==> r == BadRequest(NOT_CONFIRMED_BY_CUSTOMER)
    ensures r.Success? <==> orderId in orders && orders[orderId].status == STATUS_CONFIRMED_BY_CUSTOMER
    ensures r.Success? ==> WrittenBack(orders, r.value, orderId, STATUS_CONFIRMED_BY_ADMIN)
  {
    Move(orders, orderId, s => s != STATUS_CONFIRMED_BY_CUSTOMER, NOT_CONFIRMED_BY_CUSTOMER, STATUS_CONFIRMED_BY_ADMIN)
  }

  /** `revertConfirmationByAdmin`: only from status 2, back to pending. */
  function RevertConfirmationByAdmin(orders: Orders, orderId: int): (r: Result<Transition>)
    ensures orderId !in orders ==> r == Failure(RestError(NOT_FOUND, ORDER_NOT_FOUND))
    ensures orderId in orders && orders[orderId].status != STATUS_CONFIRMED_BY_ADMIN ==> r == BadRequest(NOT_CONFIRMED_BY_ADMIN)
    ensures r.Success? <==> orderId in orders && orders[orderId].status == STATUS_CONFIRMED_BY_ADMIN
    ensures r.Success? ==> WrittenBack(orders, r.value, orderId, STATUS_PENDING)
  {
    Move(orders, orderId, s => s != STATUS_CONFIRMED_BY_ADMIN, NOT_CONFIRMED_BY_ADMIN, STATUS_PENDING)
  }

  /** `cancelOrderByAdmin`: anything but a delivered order is cancelled. */
  function CancelOrderByAdmin(orders: Orders, orderId: int): (r: Result<Transition>)
    ensures orderId !in orders ==> r == Failure(RestError(NOT_FOUND, ORDER_NOT_FOUND))
    ensures orderId in orders && orders[orderId].status == STATUS_DELIVERED ==> r == BadRequest(DELIVERED_NOT_CANCELLABLE)
    ensures r.Success? <==> orderId in orders && orders[orderId].status != STATUS_DELIVERED
    ensures r.Success? ==> WrittenBack(orders, r.value, orderId, STATUS_CANCELLED)
  {
    Move(orders, orderId, s => s == STATUS_DELIVERED, DELIVERED_NOT_CANCELLABLE, STATUS_CANCELLED)
  }

  /** The two confirmed statuses share one value, so a confirmation writes
      back exactly the table it read and may be repeated any number of times. */
  lemma ConfirmChangesNothing(orders: Orders, orderId: int)
    requires ConfirmOrderByAdmin(orders, orderId).Success?
    ensures ConfirmOrderByAdmin(orders, orderId).value.orders == orders
    ensures ConfirmOrderByAdmin(ConfirmOrderByAdmin(orders, orderId).value.orders, orderId) == ConfirmOrderByAdmin(orders, orderId)
  {
    var t := ConfirmOrderByAdmin(orders, orderId).value;
    assert t.order == orders[orderId];
    assert t.orders == orders;
  }

  /** An order the customer confirmed can be reverted to pending without an
      administrator ever having confirmed it. */
  lemma RevertAcceptsCustomerConfirmation(orders: Orders, orderId: int)
    requires orderId in orders && orders[orderId].status == STATUS_CONFIRMED_BY_CUSTOMER
    ensures RevertConfirmationByAdmin(orders, orderId).Success?
    ensures RevertConfirmationByAdmin(orders, orderId).value.order.status == STATUS_PENDING
  {
  }

  /** After a revert the order is pending, so neither a second revert nor a
      confirmation is accepted until the customer confirms again. */
  lemma RevertedOrderIsPending(orders: Orders, orderId: int)
    requires RevertConfirmationByAdmin(orders, orderId).Success?
    ensures var after := RevertConfirmationByAdmin(orders, orderId).value.orders;
            RevertConfirmationByAdmin(after, orderId) == BadRequest(NOT_CONFIRMED_BY_ADMIN)
            && ConfirmOrderByAdmin(after, orderId) == BadRequest(NOT_CONFIRMED_BY_CUSTOMER)
  {
  }

  /** A cancelled order can be cancelled again, and the second cancellation
      writes back the table it read. */
  lemma CancelIsIdempotent(orders: Orders, orderId: int)
    requires CancelOrderByAdmin(orders, orderId).Success?
    ensures var after := CancelOrderByAdmin(orders, orderId).value.orders;
            CancelOrderByAdmin(after, orderId).Success?
            && CancelOrderByAdmin(after, orderId).value.orders == after
  {
    var after := CancelOrderByAdmin(orders, orderId).value.orders;
    var again := CancelOrderByAdmin(after, orderId).value;
    assert again.order == after[orderId];
    assert again.orders == after;
  }

  /** A status value of `ORDER_STATUS`. */
  predicate KnownStatus(s: int) { STATUS_PENDING <= s <= STATUS_CANCELLED }

  predicate AllKnown(orders: Orders) { forall id :: id in orders ==> KnownStatus(orders[id].status) }

  /** Every transition keeps all statuses among the known values, and a
      delivered order is never moved by any of them. */
  lemma TransitionsKeepStatusesKnown(orders: Orders, orderId: int)
    requires AllKnown(orders)
    ensures ConfirmOrderByAdmin(orders, orderId).Success? ==> AllKnown(ConfirmOrderByAdmin(orders, orderId).value.orders)
    ensures RevertConfirmationByAdmin(orders, orderId).Success? ==> AllKnown(RevertConfirmationByAdmin(orders, orderId).value.orders)
    ensures CancelOrderByAdmin(orders, orderId).Success? ==> AllKnown(CancelOrderByAdmin(orders, orderId).value.orders)
    ensures orderId in orders && orders[orderId].status == STATUS_DELIVERED ==>
              ConfirmOrderByAdmin(orders, orderId).Failure? && RevertConfirmationByAdmin(orders, orderId).Failure?
              && CancelOrderByAdmin(orders, orderId).Failure?
  {
  }
}
