/** The order-placement services of src/services/order.service.ts:
    `placeOrderByCart` (:19-125), `createOrderByAdmin` (:696-871) and
    `confirmOrderByCustomer` (:266-310). Database reads are inputs: the
    stored carts, cart items and orders, the batch query's result (the active
    batches of the ordered products, in ascending end date), the ids of the
    confirmation options the lookup found, and the id the database gives the
    new order. Customer and address upserts and the deletion of earlier
    orders of the same cart are writes the model does not carry. */
module OrderPlacement {
  import opened Common
  import opened Domain
  import opened Requirement
  import opened Availability
  import opened Delivery
  import opened Allocator
  import opened Validation
  import Strings
  import UniqueIds

  const INVALID_DATE_MESSAGE: string := "Please provide a valid date for maximum delivery date"
  const PAST_DATE_MESSAGE: string := "Please provide a date in the future for delivery date"
  const CART_NOT_FOUND_MESSAGE: string := "Cart not found. Please try adding again"
  const EMPTY_CART_MESSAGE: string := "No Items found in Cart. Please add atleast one item in Cart"
  const NO_STOCK_MESSAGE: string := "Required quantity is not yet available. Please try again later"
  const NO_ITEMS_MESSAGE: string := "At least one product item is required"
  const ORDER_NOT_FOUND_MESSAGE: string := "Order not found or not active"
  const ADMIN_ORDER_MESSAGE: string := "This order was created by admin and cannot be confirmed by customer"
  const PLACED_MESSAGE: string := "Order placed successfully"
  const PLACED_BY_ADMIN_MESSAGE: string := "Order placed successfully by admin"
  const DATE_NOT_MET_MESSAGE: string :=
    "Order could not be processed for the given date. Please confirm with given date for delivery"

  /** `earliestDeliveryDate <= maxDateRequired.getTime()`: a null estimate
      compares as 0. */
  predicate CanProvideInTime(estimate: Option<int>, maxDate: int) {
    match estimate
    case None => 0 <= maxDate
    case Some(d) => d <= maxDate
  }

  /** `option?.id || fallback` */
  function OptionIdOr(option: Option<int>, fallback: int): int {
    match option
    case Some(id) => if id != 0 then id else fallback
    case None => fallback
  }

  /** What steps 1-5 decide for one order. */
  datatype Outcome = Outcome(estimate: Option<int>, promised: bool, batches: seq<StockBatch>, allocations: seq<Allocation>)

  /** The shared middle of both placements: build the requirement, dry-run
      it (BAD_REQUEST when the stock falls short), estimate the delivery
      date, and allocate only when the estimate meets the deadline. With
      non-negative remaining quantities it fails exactly when some ordered
      product's total quantity exceeds its batches' remaining stock. */
  function Fulfil(items: seq<Item>, available: seq<StockBatch>, maxDate: int, orderId: int): (r: Result<Outcome>)
    ensures AllRemainingNonNegative(available) ==>
      (r.Failure? <==> exists p :: p in ProductIds(items) && Supply(available, p) < Demand(items, p))
    ensures r.Failure? ==> r.error == RestError(BAD_REQUEST, NO_STOCK_MESSAGE)
    ensures r.Success? ==> r.value.estimate == GetEarliestDeliveryDate(available, BuildRequirement(items), maxDate)
    ensures r.Success? ==>
      (r.value.promised <==> (r.value.estimate.None? && 0 <= maxDate) || (r.value.estimate.Some? && r.value.estimate.value <= maxDate))
    ensures r.Success? && !r.value.promised ==> r.value.batches == available && r.value.allocations == []
  {
    var req := BuildRequirement(items);
    if !CheckIfHasRequiredQuantity(available, req) then BadRequest(NO_STOCK_MESSAGE)
    else
      var estimate := GetEarliestDeliveryDate(available, req, maxDate);
      if CanProvideInTime(estimate, maxDate) then
        var a := AllocateItems(available, orderId, items);
        Success(Outcome(estimate, true, a.batches, a.records))
      else Success(Outcome(estimate, false, available, []))
  }

  /** The headline property: when the order is promised, every product
      receives exactly its ordered quantity, its batches' remaining stock
      drops by exactly that, every row is positive and names a batch of its
      product, and well-formed batches stay well-formed. */
  lemma PromisedOrderAllocatesDemand(items: seq<Item>, available: seq<StockBatch>, maxDate: int, orderId: int)
    requires AllRemainingNonNegative(available)
    requires forall k :: 0 <= k < |items| ==> items[k].quantity >= 0.0
    requires Fulfil(items, available, maxDate, orderId).Success?
    requires Fulfil(items, available, maxDate, orderId).value.promised
    ensures var o := Fulfil(items, available, maxDate, orderId).value;
      && (forall p :: Allocated(o.allocations, p) == Demand(items, p))
      && (forall p :: Supply(o.batches, p) == Supply(available, p) - Demand(items, p))
      && RowsValid(o.allocations, orderId, available)
      && (AllWellFormed(available) ==> AllWellFormed(o.batches))
  {
    var o := Fulfil(items, available, maxDate, orderId).value;
    forall p ensures Allocated(o.allocations, p) == Demand(items, p)
      && Supply(o.batches, p) == Supply(available, p) - Demand(items, p)
    {
      AllocateItemsTotals(available, orderId, items, p);
      SupplyNonNegative(available, p);
      if p !in ProductIds(items) {
        DemandOfUnlisted(items, p);
      }
    }
  }

  /** When the order is not promised it is still created, with nothing
      allocated and the batches untouched; a null estimate counts as
      meeting any deadline that is not before the epoch, and the estimate is
      null exactly when no batch brings a requested product's running
      stock up to its requirement. */
  lemma UnpromisedOrderAllocatesNothing(items: seq<Item>, available: seq<StockBatch>, maxDate: int, orderId: int)
    requires Fulfil(items, available, maxDate, orderId).Success?
    ensures var o := Fulfil(items, available, maxDate, orderId).value;
      && (!o.promised ==> o.allocations == [] && o.batches == available)
      && (o.estimate.None? && 0 <= maxDate ==> o.promised)
      && (o.estimate.Some? && maxDate < o.estimate.value ==> !o.promised)
      && (o.estimate.None? <==> forall k :: !Qualifies(available, BuildRequirement(items), k))
  {
    EstimateIsLastWrittenMinDate(available, BuildRequirement(items), maxDate);
  }

  /** The estimate is null only when nothing positive was ordered: an order
      that passes the stock check and holds an item of positive quantity
      always gets a delivery date. */
  lemma PositiveOrderGetsEstimate(items: seq<Item>, available: seq<StockBatch>, maxDate: int, orderId: int, k: nat)
    requires AllRemainingNonNegative(available)
    requires forall j :: 0 <= j < |items| ==> items[j].quantity >= 0.0
    requires k < |items| && items[k].quantity > 0.0
    requires Fulfil(items, available, maxDate, orderId).Success?
    ensures Fulfil(items, available, maxDate, orderId).value.estimate.Some?
  {
    var req := BuildRequirement(items);
    var p := items[k].productId;
    assert items[k] in items;
    DemandPositive(items, k);
    CoveredRequirementGivesEstimate(available, req, maxDate, p);
  }

  lemma {:induction false} DemandPositive(items: seq<Item>, k: nat)
    requires forall j :: 0 <= j < |items| ==> items[j].quantity >= 0.0
    requires k < |items| && items[k].quantity > 0.0
    ensures Demand(items, items[k].productId) > 0.0
  {
    DemandNonNegative(items[1..], items[k].productId);
    if k > 0 {
      DemandPositive(items[1..], k - 1);
    }
  }

  /** The outcome of a placement service. */
  datatype Placement = Placement(order: Order, batches: seq<StockBatch>, allocations: seq<Allocation>, cartDeactivated: bool, message: string,
                                 counters: UniqueIds.IdCounters)

  /** `prisma.cart.findFirst({ cart_unique_id, is_active: true })` */
  function FindActiveCart(carts: seq<Cart>, uniqueId: string): (r: Option<Cart>)
    ensures r.None? <==> forall k :: 0 <= k < |carts| ==> !(carts[k].uniqueId == uniqueId && carts[k].isActive)
    ensures r.Some? ==> exists k :: (0 <= k < |carts| && carts[k] == r.value
      && forall j :: 0 <= j < k ==> !(carts[j].uniqueId == uniqueId && carts[j].isActive))
    ensures r.Some? ==> r.value.uniqueId == uniqueId && r.value.isActive
  {
    if |carts| == 0 then None
    else if carts[0].uniqueId == uniqueId && carts[0].isActive then Some(carts[0])
    else
      var r := FindActiveCart(carts[1..], uniqueId);
      assert forall k :: 0 <= k < |carts[1..]| ==> carts[1..][k] == carts[k + 1];
      r
  }

  /** The items stored for one cart, in storage order. */
  function ItemsOfCart(rows: seq<CartItem>, cartId: int): (items: seq<Item>)
    ensures |items| <= |rows|
    ensures forall it :: it in items <==> exists k :: (0 <= k < |rows| && rows[k].cartId == cartId
      && it == Item(rows[k].productId, rows[k].quantity))
  {
    if |rows| == 0 then []
    else
      var rest := ItemsOfCart(rows[1..], cartId);
      assert forall k :: 0 <= k < |rows[1..]| ==> rows[1..][k] == rows[k + 1];
      if rows[0].cartId == cartId then [Item(rows[0].productId, rows[0].quantity)] + rest else rest
  }

  /** Reading the items of a cart is a filter over the stored rows: it
      distributes over concatenation, and one row gives its item exactly when
      it belongs to the cart. */
  lemma {:induction false} ItemsOfCartIsFilter(a: seq<CartItem>, b: seq<CartItem>, row: CartItem, cartId: int)
    ensures ItemsOfCart(a + b, cartId) == ItemsOfCart(a, cartId) + ItemsOfCart(b, cartId)
    ensures ItemsOfCart([row], cartId) == if row.cartId == cartId then [Item(row.productId, row.quantity)] else []
    decreases |a|
  {
    if |a| == 0 {
      assert a + b == b;
    } else {
      assert (a + b)[1..] == a[1..] + b;
      ItemsOfCartIsFilter(a[1..], b, row, cartId);
    }
    assert [row][1..] == [];
  }

  /** `placeOrderByCart`: the deadline must be a valid date not before
      `now`, the cart must exist and be active and hold items, and the stock
      must cover them; then an order confirmed by the customer is created,
      with the "success" confirmation when promised and "pending" otherwise,
      and only a promised order allocates stock and deactivates the cart. */
  function PlaceOrderByCart(
    carts: seq<Cart>, cartRows: seq<CartItem>, cartUniqueId: string, maxDate: Option<int>, now: int,
    available: seq<StockBatch>, pendingOption: Option<int>, confirmedOption: Option<int>,
    orderId: int, counters: UniqueIds.IdCounters, dateCode: int -> string, rand: string): (r: Result<Placement>)
    requires UniqueIds.RandomPart(rand)
    ensures maxDate.None? ==> r == BadRequest(INVALID_DATE_MESSAGE)
    ensures maxDate.Some? && maxDate.value < now ==> r == BadRequest(PAST_DATE_MESSAGE)
    ensures maxDate.Some? && now <= maxDate.value && FindActiveCart(carts, cartUniqueId).None?
      ==> r == BadRequest(CART_NOT_FOUND_MESSAGE)
    ensures maxDate.Some? && now <= maxDate.value && FindActiveCart(carts, cartUniqueId).Some?
      && |ItemsOfCart(cartRows, FindActiveCart(carts, cartUniqueId).value.id)| == 0
      ==> r == BadRequest(EMPTY_CART_MESSAGE)
    ensures maxDate.Some? && now <= maxDate.value && FindActiveCart(carts, cartUniqueId).Some?
      && |ItemsOfCart(cartRows, FindActiveCart(carts, cartUniqueId).value.id)| > 0
      ==> var f := Fulfil(ItemsOfCart(cartRows, FindActiveCart(carts, cartUniqueId).value.id), available, maxDate.value, orderId);
        && (r.Success? <==> f.Success?)
        && (r.Failure? ==> r.error == RestError(BAD_REQUEST, NO_STOCK_MESSAGE))
    ensures r.Success? ==> maxDate.Some? && now <= maxDate.value && FindActiveCart(carts, cartUniqueId).Some?
    ensures r.Success? ==>
      var cart := FindActiveCart(carts, cartUniqueId).value;
      var f := Fulfil(ItemsOfCart(cartRows, cart.id), available, maxDate.value, orderId);
      f.Success? && var o := f.value;
      && |ItemsOfCart(cartRows, cart.id)| > 0
      && var id := UniqueIds.OrderUniqueId(counters, now, dateCode(now), dateCode(maxDate.value), cartUniqueId, rand);
      && r.value.order.uniqueId == id.1 && r.value.counters == id.0
      && r.value.order.id == orderId && r.value.order.isActive
      && r.value.order.maxDateRequired == maxDate.value && !r.value.order.createdByAdmin
      && r.value.order.status == STATUS_CONFIRMED_BY_CUSTOMER
      && r.value.order.cartId == Some(cart.id) && r.value.order.customerId == cart.customerId
      && r.value.order.deliveryDate == o.estimate
      && r.value.order.confirmationId == (if o.promised then OptionIdOr(confirmedOption, CONFIRMATION_BY_CUSTOMER)
                                          else OptionIdOr(pendingOption, CONFIRMATION_PENDING))
      && r.value.batches == o.batches && r.value.allocations == o.allocations
      && r.value.cartDeactivated == (o.promised && cart.id != 0)
      && r.value.message == (if o.promised then PLACED_MESSAGE else DATE_NOT_MET_MESSAGE)
  {
    if maxDate.None? then BadRequest(INVALID_DATE_MESSAGE)
    else if maxDate.value < now then BadRequest(PAST_DATE_MESSAGE)
    else match FindActiveCart(carts, cartUniqueId)
      case None => BadRequest(CART_NOT_FOUND_MESSAGE)
      case Some(cart) =>
        var items := ItemsOfCart(cartRows, cart.id);
        if |items| == 0 then BadRequest(EMPTY_CART_MESSAGE)
        else
          var o :- Fulfil(items, available, maxDate.value, orderId);
          var confirmation :=
            if o.promised then OptionIdOr(confirmedOption, CONFIRMATION_BY_CUSTOMER)
            else OptionIdOr(pendingOption, CONFIRMATION_PENDING);
          var (next, uniqueId) := UniqueIds.OrderUniqueId(counters, now, dateCode(now), dateCode(maxDate.value), cartUniqueId, rand);
          var order := Order(orderId, uniqueId, true, maxDate.value, o.estimate, STATUS_CONFIRMED_BY_CUSTOMER,
                             cart.customerId, confirmation, Some(cart.id), false);
          if !o.promised then Success(Placement(order, available, [], false, DATE_NOT_MET_MESSAGE, next))
          else Success(Placement(order, o.batches, o.allocations, cart.id != 0, PLACED_MESSAGE, next))
  }

  /** Past the date and cart checks, a cart order is refused exactly when
      some product in the cart is short of stock; once placed with the
      "placed" message every product receives exactly its quantity in the
      cart, otherwise nothing is allocated. */
  lemma CartPlacementAllocatesCart(
    carts: seq<Cart>, cartRows: seq<CartItem>, cartUniqueId: string, maxDate: Option<int>, now: int,
    available: seq<StockBatch>, pendingOption: Option<int>, confirmedOption: Option<int>,
    orderId: int, counters: UniqueIds.IdCounters, dateCode: int -> string, rand: string)
    requires UniqueIds.RandomPart(rand)
    requires maxDate.Some? && now <= maxDate.value && FindActiveCart(carts, cartUniqueId).Some?
    requires AllRemainingNonNegative(available)
    requires forall k :: 0 <= k < |cartRows| ==> cartRows[k].quantity >= 0.0
    ensures var items := ItemsOfCart(cartRows, FindActiveCart(carts, cartUniqueId).value.id);
      var r := PlaceOrderByCart(carts, cartRows, cartUniqueId, maxDate, now, available, pendingOption, confirmedOption,
                                orderId, counters, dateCode, rand);
      && (|items| > 0 ==> (r.Failure? <==> exists p :: p in ProductIds(items) && Supply(available, p) < Demand(items, p)))
      && (r.Success? && r.value.message == PLACED_MESSAGE ==>
            forall p :: Allocated(r.value.allocations, p) == Demand(items, p)
                     && Supply(r.value.batches, p) == Supply(available, p) - Demand(items, p))
      && (r.Success? && r.value.message != PLACED_MESSAGE ==> r.value.allocations == [] && r.value.batches == available)
  {
    var items := ItemsOfCart(cartRows, FindActiveCart(carts, cartUniqueId).value.id);
    var r := PlaceOrderByCart(carts, cartRows, cartUniqueId, maxDate, now, available, pendingOption, confirmedOption,
                              orderId, counters, dateCode, rand);
    forall k | 0 <= k < |items| ensures items[k].quantity >= 0.0 {
      assert items[k] in items;
    }
    if r.Success? && r.value.message == PLACED_MESSAGE {
      PromisedOrderAllocatesDemand(items, available, maxDate.value, orderId);
    }
  }

  /** A placed cart order's id is generated from the cart's unique id and
      the deadline: its fourth piece is the cart id's last four characters,
      and only the order counter advances. A refused placement returns no
      counters, so the caller's stay as they were. */
  lemma CartOrderIdNamesCart(
    carts: seq<Cart>, cartRows: seq<CartItem>, cartUniqueId: string, maxDate: Option<int>, now: int,
    available: seq<StockBatch>, pendingOption: Option<int>, confirmedOption: Option<int>,
    orderId: int, counters: UniqueIds.IdCounters, dateCode: int -> string, rand: string)
    requires UniqueIds.RandomPart(rand)
    requires maxDate.Some? && '-' !in dateCode(now) && '-' !in dateCode(maxDate.value)
    requires '-' !in Strings.Last(cartUniqueId, 4)
    ensures var r := PlaceOrderByCart(carts, cartRows, cartUniqueId, maxDate, now, available, pendingOption, confirmedOption,
                                      orderId, counters, dateCode, rand);
      r.Success? ==>
        && r.value.counters.cart == counters.cart
        && r.value.counters.order == UniqueIds.Tick(counters.order, now)
        && Strings.StartsWith(r.value.order.uniqueId, "O-")
        && 3 < |Strings.Split(r.value.order.uniqueId, '-')|
        && Strings.Split(r.value.order.uniqueId, '-')[3] == Strings.ToUpper(Strings.Last(cartUniqueId, 4))
  {
    var r := PlaceOrderByCart(carts, cartRows, cartUniqueId, maxDate, now, available, pendingOption, confirmedOption,
                              orderId, counters, dateCode, rand);
    if r.Success? {
      var id := UniqueIds.OrderUniqueId(counters, now, dateCode(now), dateCode(maxDate.value), cartUniqueId, rand);
      assert r.value.order.uniqueId == id.1 && r.value.counters == id.0;
      UniqueIds.OrderIdNamesSource(counters, now, dateCode(now), dateCode(maxDate.value), cartUniqueId, rand);
    }
  }

  /** `createOrderByAdmin`: items, then the deadline, then the customer and
      the address are checked before the stock; a promised order gets the
      "approved by admin" confirmation, an unpromised one "pending", and no
      cart is involved. `customerId` is the id of the customer row found by
      mobile number or created. */
  function CreateOrderByAdmin(
    customer: Customer, address: Address, items: seq<Item>, maxDate: Option<int>, now: int,
    isMobile: string -> bool, isEmail: string -> bool, customerId: int,
    available: seq<StockBatch>, approvedOption: Option<int>, pendingOption: Option<int>,
    orderId: int, counters: UniqueIds.IdCounters, dateCode: int -> string, rand: string): (r: Result<Placement>)
    requires UniqueIds.RandomPart(rand)
    ensures |items| == 0 ==> r == BadRequest(NO_ITEMS_MESSAGE)
    ensures |items| > 0 && maxDate.None? ==> r == BadRequest(INVALID_DATE_MESSAGE)
    ensures |items| > 0 && maxDate.Some? && maxDate.value < now ==> r == BadRequest(PAST_DATE_MESSAGE)
    ensures |items| > 0 && maxDate.Some? && now <= maxDate.value && ValidateCustomer(customer, isMobile, isEmail).Fail?
      ==> r == Failure(ValidateCustomer(customer, isMobile, isEmail).error)
    ensures |items| > 0 && maxDate.Some? && now <= maxDate.value && ValidateCustomer(customer, isMobile, isEmail).Pass?
      && ValidateAddress(address).Fail?
      ==> r == Failure(ValidateAddress(address).error)
    ensures |items| > 0 && maxDate.Some? && now <= maxDate.value && ValidateCustomer(customer, isMobile, isEmail).Pass?
      && ValidateAddress(address).Pass?
      ==> && (r.Success? <==> Fulfil(items, available, maxDate.value, orderId).Success?)
          && (r.Failure? ==> r.error == RestError(BAD_REQUEST, NO_STOCK_MESSAGE))
    ensures r.Success? ==>
      ValidateCustomer(customer, isMobile, isEmail).Pass? && ValidateAddress(address).Pass?
    ensures r.Success? ==> |items| > 0 && maxDate.Some? && now <= maxDate.value
    ensures r.Success? ==>
      var f := Fulfil(items, available, maxDate.value, orderId);
      f.Success? && var o := f.value;
      && customer.mobile.Some?
      && var id := UniqueIds.OrderUniqueId(counters, now, dateCode(now), dateCode(maxDate.value), customer.mobile.value, rand);
      && r.value.order.uniqueId == id.1 && r.value.counters == id.0
      && r.value.order.id == orderId && r.value.order.isActive
      && r.value.order.maxDateRequired == maxDate.value
      && r.value.order.status == STATUS_CONFIRMED_BY_ADMIN && r.value.order.createdByAdmin
      && r.value.order.cartId.None? && r.value.order.customerId == customerId
      && r.value.order.deliveryDate == o.estimate
      && r.value.order.confirmationId == (if o.promised then OptionIdOr(approvedOption, CONFIRMATION_APPROVED_BY_ADMIN)
                                          else OptionIdOr(pendingOption, CONFIRMATION_PENDING))
      && r.value.batches == o.batches && r.value.allocations == o.allocations
      && !r.value.cartDeactivated
      && r.value.message == (if o.promised then PLACED_BY_ADMIN_MESSAGE else DATE_NOT_MET_MESSAGE)
  {
    if |items| == 0 then BadRequest(NO_ITEMS_MESSAGE)
    else if maxDate.None? then BadRequest(INVALID_DATE_MESSAGE)
    else if maxDate.value < now then BadRequest(PAST_DATE_MESSAGE)
    else
      var customerCheck := ValidateCustomer(customer, isMobile, isEmail);
      if customerCheck.Fail? then Failure(customerCheck.error)
      else
      var addressCheck := ValidateAddress(address);
      if addressCheck.Fail? then Failure(addressCheck.error)
      else
      var o :- Fulfil(items, available, maxDate.value, orderId);
      var confirmation :=
        if o.promised then OptionIdOr(approvedOption, CONFIRMATION_APPROVED_BY_ADMIN)
        else OptionIdOr(pendingOption, CONFIRMATION_PENDING);
      var (next, uniqueId) := UniqueIds.OrderUniqueId(counters, now, dateCode(now), dateCode(maxDate.value), customer.mobile.value, rand);
      var order := Order(orderId, uniqueId, true, maxDate.value, o.estimate, STATUS_CONFIRMED_BY_ADMIN,
                         customerId, confirmation, None, true);
      if !o.promised then Success(Placement(order, available, [], false, DATE_NOT_MET_MESSAGE, next))
      else Success(Placement(order, o.batches, o.allocations, false, PLACED_BY_ADMIN_MESSAGE, next))
  }

  /** Past the item, date, customer and address checks, an admin order is
      refused exactly when some ordered product is short of stock; once
      placed with the "placed by admin" message every product receives
      exactly the quantity ordered, otherwise nothing is allocated. */
  lemma AdminPlacementAllocatesItems(
    customer: Customer, address: Address, items: seq<Item>, maxDate: Option<int>, now: int,
    isMobile: string -> bool, isEmail: string -> bool, customerId: int,
    available: seq<StockBatch>, approvedOption: Option<int>, pendingOption: Option<int>,
    orderId: int, counters: UniqueIds.IdCounters, dateCode: int -> string, rand: string)
    requires UniqueIds.RandomPart(rand)
    requires |items| > 0 && maxDate.Some? && now <= maxDate.value
    requires ValidateCustomer(customer, isMobile, isEmail).Pass? && ValidateAddress(address).Pass?
    requires AllRemainingNonNegative(available)
    requires forall k :: 0 <= k < |items| ==> items[k].quantity >= 0.0
    ensures var r := CreateOrderByAdmin(customer, address, items, maxDate, now, isMobile, isEmail, customerId,
                                        available, approvedOption, pendingOption, orderId, counters, dateCode, rand);
      && (r.Failure? <==> exists p :: p in ProductIds(items) && Supply(available, p) < Demand(items, p))
      && (r.Success? && r.value.message == PLACED_BY_ADMIN_MESSAGE ==>
            forall p :: Allocated(r.value.allocations, p) == Demand(items, p)
                     && Supply(r.value.batches, p) == Supply(available, p) - Demand(items, p))
      && (r.Success? && r.value.message != PLACED_BY_ADMIN_MESSAGE ==> r.value.allocations == [] && r.value.batches == available)
  {
    var r := CreateOrderByAdmin(customer, address, items, maxDate, now, isMobile, isEmail, customerId,
                                available, approvedOption, pendingOption, orderId, counters, dateCode, rand);
    if r.Success? && r.value.message == PLACED_BY_ADMIN_MESSAGE {
      PromisedOrderAllocatesDemand(items, available, maxDate.value, orderId);
    }
  }

  /** A placed admin order's id is generated from the customer's mobile
      number, not from a cart: its fourth piece is the number's last four
      characters, and only the order counter advances. */
  lemma AdminOrderIdNamesMobile(
    customer: Customer, address: Address, items: seq<Item>, maxDate: Option<int>, now: int,
    isMobile: string -> bool, isEmail: string -> bool, customerId: int,
    available: seq<StockBatch>, approvedOption: Option<int>, pendingOption: Option<int>,
    orderId: int, counters: UniqueIds.IdCounters, dateCode: int -> string, rand: string)
    requires UniqueIds.RandomPart(rand)
    requires maxDate.Some? && '-' !in dateCode(now) && '-' !in dateCode(maxDate.value)
    requires customer.mobile.Some? && '-' !in Strings.Last(customer.mobile.value, 4)
    ensures var r := CreateOrderByAdmin(customer, address, items, maxDate, now, isMobile, isEmail, customerId,
                                        available, approvedOption, pendingOption, orderId, counters, dateCode, rand);
      r.Success? ==>
        && r.value.counters.cart == counters.cart
        && r.value.counters.order == UniqueIds.Tick(counters.order, now)
        && Strings.StartsWith(r.value.order.uniqueId, "O-")
        && 3 < |Strings.Split(r.value.order.uniqueId, '-')|
        && Strings.Split(r.value.order.uniqueId, '-')[3] == Strings.ToUpper(Strings.Last(customer.mobile.value, 4))
  {
    var r := CreateOrderByAdmin(customer, address, items, maxDate, now, isMobile, isEmail, customerId,
                                available, approvedOption, pendingOption, orderId, counters, dateCode, rand);
    if r.Success? {
      var id := UniqueIds.OrderUniqueId(counters, now, dateCode(now), dateCode(maxDate.value), customer.mobile.value, rand);
      assert r.value.order.uniqueId == id.1 && r.value.counters == id.0;
      UniqueIds.OrderIdNamesSource(counters, now, dateCode(now), dateCode(maxDate.value), customer.mobile.value, rand);
    }
  }

  /** `prisma.order.findFirst({ is_active: true, order_unique_id })` */
  function FindActiveOrder(orders: seq<Order>, uniqueId: string): (r: Option<Order>)
    ensures r.None? <==> forall k :: 0 <= k < |orders| ==> !(orders[k].uniqueId == uniqueId && orders[k].isActive)
    ensures r.Some? ==> r.value in orders && r.value.uniqueId == uniqueId && r.value.isActive
  {
    if |orders| == 0 then None
    else if orders[0].uniqueId == uniqueId && orders[0].isActive then Some(orders[0])
    else
      var r := FindActiveOrder(orders[1..], uniqueId);
      assert forall k :: 0 <= k < |orders[1..]| ==> orders[1..][k] == orders[k + 1];
      r
  }

  /** The effect of `confirmOrderByCustomer`: the stored order with its new
      confirmation, the batches and rows after allocation, the cart that is
      deactivated, and the order the response carries. */
  datatype Confirmation = Confirmation(order: Order, batches: seq<StockBatch>, allocations: seq<Allocation>, deactivatedCart: int,
                                       response: Order)

  /** `confirmOrderByCustomer`: an active order created through a cart is
      allocated from the batches of its products (all of them, unsorted and
      active or not, and with no availability check), its cart is
      deactivated and its stored confirmation set to "approved by admin".
      The response carries the order as it was read before that update. */
  function ConfirmOrderByCustomer(
    orders: seq<Order>, uniqueId: string, cartRows: seq<CartItem>, productBatches: seq<StockBatch>,
    approveOption: Option<int>): (r: Result<Confirmation>)
    ensures FindActiveOrder(orders, uniqueId).None? ==> r == BadRequest(ORDER_NOT_FOUND_MESSAGE)
    ensures FindActiveOrder(orders, uniqueId).Some?
      && (FindActiveOrder(orders, uniqueId).value.cartId.None? || FindActiveOrder(orders, uniqueId).value.cartId.value == 0)
      ==> r == BadRequest(ADMIN_ORDER_MESSAGE)
    ensures FindActiveOrder(orders, uniqueId).Some?
      && FindActiveOrder(orders, uniqueId).value.cartId.Some? && FindActiveOrder(orders, uniqueId).value.cartId.value != 0
      ==> r.Success?
    ensures r.Success? ==> (FindActiveOrder(orders, uniqueId).Some?
      && r.value.order == FindActiveOrder(orders, uniqueId).value.(confirmationId := OptionIdOr(approveOption, CONFIRMATION_APPROVED_BY_ADMIN))
      && FindActiveOrder(orders, uniqueId).value.cartId == Some(r.value.deactivatedCart) && r.value.deactivatedCart != 0)
    ensures r.Success? ==> r.value.response == FindActiveOrder(orders, uniqueId).value
  {
    match FindActiveOrder(orders, uniqueId)
    case None => BadRequest(ORDER_NOT_FOUND_MESSAGE)
    case Some(order) =>
      if order.cartId.None? || order.cartId.value == 0 then BadRequest(ADMIN_ORDER_MESSAGE)
      else
        var cartId := order.cartId.value;
        var a := AllocateItems(productBatches, order.id, ItemsOfCart(cartRows, cartId));
        Success(Confirmation(order.(confirmationId := OptionIdOr(approveOption, CONFIRMATION_APPROVED_BY_ADMIN)),
                             a.batches, a.records, cartId, order))
  }

  /** Without the stock check, confirming allocates what the batches can
      give: each product receives `min(ordered, remaining)`, never more than
      its batches hold, drawn from its batches in list order. */
  lemma ConfirmationAllocatesWhatIsLeft(
    orders: seq<Order>, uniqueId: string, cartRows: seq<CartItem>, productBatches: seq<StockBatch>,
    approveOption: Option<int>, p: int)
    requires AllRemainingNonNegative(productBatches)
    requires forall k :: 0 <= k < |cartRows| ==> cartRows[k].quantity >= 0.0
    requires ConfirmOrderByCustomer(orders, uniqueId, cartRows, productBatches, approveOption).Success?
    ensures var c := ConfirmOrderByCustomer(orders, uniqueId, cartRows, productBatches, approveOption).value;
      var items := ItemsOfCart(cartRows, c.deactivatedCart);
      && Allocated(c.allocations, p) == Min(Demand(items, p), Supply(productBatches, p))
      && Allocated(c.allocations, p) <= Supply(productBatches, p)
      && forall k :: 0 <= k < |productBatches| ==>
           c.batches[k].quantityAllocated == productBatches[k].quantityAllocated
             + Drawn(productBatches, productBatches[k].productId, Demand(items, productBatches[k].productId), k)
  {
    var c := ConfirmOrderByCustomer(orders, uniqueId, cartRows, productBatches, approveOption).value;
    var items := ItemsOfCart(cartRows, c.deactivatedCart);
    forall k | 0 <= k < |items| ensures items[k].quantity >= 0.0 {
      assert items[k] in items;
    }
    AllocateItemsTotals(productBatches, FindActiveOrder(orders, uniqueId).value.id, items, p);
    AllocateItemsDrawn(productBatches, FindActiveOrder(orders, uniqueId).value.id, items);
  }
}
