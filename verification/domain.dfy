/** The records the order pipeline and the admin services work on, and the
    constants they share. Quantities are kilograms as `real` (JavaScript
    floating-point rounding is not modelled); dates are millisecond
    timestamps. */
module Domain {
  import opened Common

  const DAY_MS: int := 24 * 60 * 60 * 1000

  /** `SHIPPING_TIME`: days between the end of a batch's production and the
      earliest delivery from it. */
  const SHIPPING_TIME_DAYS: int := 2

  const SHIPPING_LEAD_MS: int := SHIPPING_TIME_DAYS * DAY_MS

  /** `MAX_LIMIT_PER_PAGE` */
  const MAX_LIMIT_PER_PAGE: int := 25

  /** A production run of one product. */
  datatype StockBatch = StockBatch(
    id: int,
    batchCode: string,
    productId: int,
    quantityProduced: real,
    quantityAllocated: real,
    startDate: int,
    endDate: int,
    isActive: bool,
    pricePerKg: real)
  {
    /** `quantity_produced - quantity_allocated` */
    function Remaining(): real { quantityProduced - quantityAllocated }

    /** The invariant a batch is meant to keep: `0 <= quantity_allocated <= quantity_produced`. */
    predicate WellFormed() { 0.0 <= quantityAllocated <= quantityProduced }
  }

  predicate AllWellFormed(bs: seq<StockBatch>) {
    forall k :: 0 <= k < |bs| ==> bs[k].WellFormed()
  }

  predicate AllRemainingNonNegative(bs: seq<StockBatch>) {
    forall k :: 0 <= k < |bs| ==> bs[k].Remaining() >= 0.0
  }

  /** Batches in ascending `end_date`, the order the batch query asks for. */
  predicate SortedByEndDate(bs: seq<StockBatch>) {
    forall i, j :: 0 <= i < j < |bs| ==> bs[i].endDate <= bs[j].endDate
  }

  /** One requested line: a cart item or an admin order item. */
  datatype Item = Item(productId: int, quantity: real)

  /** One `OrderBatchAllocation` row. */
  datatype Allocation = Allocation(orderId: int, productId: int, batchId: int, quantity: real)

  /** `ORDER_STATUS` values. `confirmedByCustomer` and `confirmedByAdmin`
      share the value 2. */
  const STATUS_PENDING: int := 1
  const STATUS_CONFIRMED_BY_CUSTOMER: int := 2
  const STATUS_CONFIRMED_BY_ADMIN: int := 2
  const STATUS_SHIPPED: int := 3
  const STATUS_DELIVERED: int := 4
  const STATUS_CANCELLED: int := 5

  /** The fallback ids of the order-date confirmation options. */
  const CONFIRMATION_PENDING: int := 1
  const CONFIRMATION_BY_CUSTOMER: int := 2
  const CONFIRMATION_APPROVED_BY_ADMIN: int := 3

  /** An `Order` row. */
  datatype Order = Order(
    id: int,
    uniqueId: string,
    isActive: bool,
    maxDateRequired: int,
    deliveryDate: Option<int>,
    status: int,
    customerId: int,
    confirmationId: int,
    cartId: Option<int>,
    createdByAdmin: bool)

  /** A `Cart` row. */
  datatype Cart = Cart(id: int, uniqueId: string, customerId: int, isActive: bool)

  /** A `CartItem` row. */
  datatype CartItem = CartItem(cartId: int, productId: int, quantity: real)
}
