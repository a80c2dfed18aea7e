/** The cart service (src/services/cart.service.ts): the checks and sums of
    `createCart` and the error order of `deleteCart`. The product table
    enters as the set of ids of active products; the address, customer and
    cart rows the service creates are reduced to the cart and its items. */
module Carts {
  import opened Common
  import opened Strings
  import opened Domain
  import Validation
  import UniqueIds

  const PRODUCTS_UNAVAILABLE: string := "Some Products are not available right now. Please remove them from cart"
  const QUANTITY_INVALID: string := "Quantity must be a valid number greater than 0"
  const CART_ID_REQUIRED: string := "Cart unique ID is required"
  const CART_NOT_FOUND: string := "Cart not found"

  /** One requested cart line. `quantity` is `None` when the JSON value is
      not a number at all. */
  datatype CartData = CartData(productId: int, quantity: Option<JsNumber>)

  // ---------------------------------------------------------------------
  // the product check
  // ---------------------------------------------------------------------

  /** The ids `prisma.product.count` counts: the distinct requested ids that
      belong to an active product. */
  function ActiveIds(items: seq<CartData>, active: set<int>): (r: set<int>)
    ensures forall p :: p in r <==> p in active && exists k :: 0 <= k < |items| && items[k].productId == p
  {
    if |items| == 0 then {}
    else
      var rest := ActiveIds(items[1..], active);
      assert forall k :: 0 <= k < |items[1..]| ==> items[1..][k] == items[k + 1];
      (if items[0].productId in active then {items[0].productId} else {}) + rest
  }

  /** Every requested product is active and none is requested twice. */
  ghost predicate ActiveAndDistinct(items: seq<CartData>, active: set<int>) {
    && (forall k :: 0 <= k < |items| ==> items[k].productId in active)
    && (forall i, j :: 0 <= i < j < |items| ==> items[i].productId != items[j].productId)
  }

  /** One line adds at most one id, and exactly one when its product is
      active and not among the later lines. */
  lemma ActiveIdsStep(items: seq<CartData>, active: set<int>)
    requires |items| > 0
    ensures var p := items[0].productId;
      var rest := ActiveIds(items[1..], active);
      |ActiveIds(items, active)| == if p in active && p !in rest then |rest| + 1 else |rest|
  {
    var p := items[0].productId;
    var rest := ActiveIds(items[1..], active);
    if p in active && p !in rest {
      assert ActiveIds(items, active) == rest + {p};
    } else {
      assert ActiveIds(items, active) == rest;
    }
  }

  /** The count equals the number of lines exactly when every requested
      product is active and none is requested twice; otherwise it is
      smaller. */
  lemma {:induction false} ActiveCountMatchesIffDistinct(items: seq<CartData>, active: set<int>)
    ensures |ActiveIds(items, active)| <= |items|
    ensures |ActiveIds(items, active)| == |items| <==> ActiveAndDistinct(items, active)
  {
    if |items| > 0 {
      var tail := items[1..];
      ActiveCountMatchesIffDistinct(tail, active);
      ActiveIdsStep(items, active);
      if |ActiveIds(items, active)| == |items| {
        DistinctFromCount(items, active);
      }
      if ActiveAndDistinct(items, active) {
        CountFromDistinct(items, active);
      }
    }
  }

  lemma DistinctFromCount(items: seq<CartData>, active: set<int>)
    requires |items| > 0
    requires |ActiveIds(items[1..], active)| <= |items| - 1
    requires |ActiveIds(items[1..], active)| == |items| - 1 ==> ActiveAndDistinct(items[1..], active)
    requires |ActiveIds(items, active)| == |items|
    ensures ActiveAndDistinct(items, active)
  {
    var tail := items[1..];
    var p := items[0].productId;
    ActiveIdsStep(items, active);
    assert p in active && p !in ActiveIds(tail, active);
    assert ActiveAndDistinct(tail, active);
    forall j | 0 < j < |items| ensures p != items[j].productId && items[j].productId in active {
      assert tail[j - 1] == items[j];
    }
    forall i, j | 0 <= i < j < |items| ensures items[i].productId != items[j].productId {
      if i > 0 {
        assert tail[i - 1] == items[i] && tail[j - 1] == items[j];
      }
    }
  }

  lemma CountFromDistinct(items: seq<CartData>, active: set<int>)
    requires |items| > 0
    requires ActiveAndDistinct(items[1..], active) ==> |ActiveIds(items[1..], active)| == |items| - 1
    requires ActiveAndDistinct(items, active)
    ensures |ActiveIds(items, active)| == |items|
  {
    var tail := items[1..];
    var p := items[0].productId;
    ActiveIdsStep(items, active);
    forall i, j | 0 <= i < j < |tail| ensures tail[i].productId != tail[j].productId {
      assert tail[i] == items[i + 1] && tail[j] == items[j + 1];
    }
    forall k | 0 <= k < |tail| ensures tail[k].productId in active && tail[k].productId != p {
      assert tail[k] == items[k + 1];
    }
    assert ActiveAndDistinct(tail, active);
    assert p !in ActiveIds(tail, active);
  }

  // ---------------------------------------------------------------------
  // quantities and sums
  // ---------------------------------------------------------------------

  /** `typeof q !== "number" || isNaN(q) || !isFinite(q) || q <= 0` fails. */
  predicate ValidQuantity(q: Option<JsNumber>) {
    q.Some? && q.value.Finite? && q.value.r > 0.0
  }

  predicate AllQuantitiesValid(items: seq<CartData>) {
    forall k :: 0 <= k < |items| ==> ValidQuantity(items[k].quantity)
  }

  /** `totalQuantity` */
  function TotalQuantity(items: seq<CartData>): real
    requires AllQuantitiesValid(items)
  {
    if |items| == 0 then 0.0 else items[0].quantity.value.r + TotalQuantity(items[1..])
  }

  /** `productIdSumForCartUniqueId` */
  function ProductIdSum(items: seq<CartData>): int {
    if |items| == 0 then 0 else items[0].productId + ProductIdSum(items[1..])
  }

  /** The total quantity of a non-empty cart is positive and at least every
      single line. */
  lemma {:induction false} TotalQuantityBounds(items: seq<CartData>)
    requires AllQuantitiesValid(items)
    ensures |items| > 0 ==> TotalQuantity(items) > 0.0
    ensures forall k :: 0 <= k < |items| ==> items[k].quantity.value.r <= TotalQuantity(items)
  {
    if |items| > 0 {
      TotalQuantityBounds(items[1..]);
      assert forall k :: 0 < k < |items| ==> items[k] == items[1..][k - 1];
    }
  }

  /** Sums split over concatenation, so the order of lines does not matter
      to which id is generated, up to its random and time parts. */
  lemma {:induction false} SumsAppend(a: seq<CartData>, b: seq<CartData>)
    requires AllQuantitiesValid(a) && AllQuantitiesValid(b)
    ensures AllQuantitiesValid(a + b)
    ensures TotalQuantity(a + b) == TotalQuantity(a) + TotalQuantity(b)
    ensures ProductIdSum(a + b) == ProductIdSum(a) + ProductIdSum(b)
  {
    assert forall k :: 0 <= k < |a + b| ==> (a + b)[k] == if k < |a| then a[k] else b[k - |a|];
    if |a| == 0 {
      assert a + b == b;
    } else {
      assert (a + b)[1..] == a[1..] + b;
      SumsAppend(a[1..], b);
    }
  }

  // ---------------------------------------------------------------------
  // createCart
  // ---------------------------------------------------------------------

  /** What a successful `createCart` writes: the cart and its items. */
  datatype CartCreated = CartCreated(cart: Cart, items: seq<CartItem>)

  /** The outcome of `createCart` together with the id counters, which move
      as soon as the id is generated, whether or not the call then fails. */
  datatype CartAttempt = CartAttempt(counters: UniqueIds.IdCounters, result: Result<CartCreated>)

  /** The environment of one call: the clock, the date code of `now`, the
      random characters of the id, `String` on a fractional number, and the
      ids the database assigns. */
  datatype CartContext = CartContext(
    now: int,
    dateCode: string,
    rand: string,
    numberText: real -> string,
    cartId: int,
    customerId: int)

  function CartItems(items: seq<CartData>, cartId: int): (r: seq<CartItem>)
    requires AllQuantitiesValid(items)
    ensures |r| == |items|
    ensures forall k :: 0 <= k < |items| ==> r[k] == CartItem(cartId, items[k].productId, items[k].quantity.value.r)
  {
    if |items| == 0 then [] else [CartItem(cartId, items[0].productId, items[0].quantity.value.r)] + CartItems(items[1..], cartId)
  }

  /** `createCart`: products, then quantities, then the address, then the
      customer, each failing with its own error before any row is written.
      A success writes an active cart whose id is built from the sum of the
      product ids and the total quantity, and one item per line. The cart id
      (and with it the cart counter) is generated before the address and
      customer are validated. */
  function CreateCart(items: seq<CartData>, address: Validation.Address, customer: Validation.Customer,
                      active: set<int>, counters: UniqueIds.IdCounters, ctx: CartContext,
                      isMobile: string -> bool, isEmail: string -> bool): (r: CartAttempt)
    requires UniqueIds.RandomPart(ctx.rand)
    ensures !ActiveAndDistinct(items, active) ==>
      r == CartAttempt(counters, BadRequest(PRODUCTS_UNAVAILABLE))
    ensures ActiveAndDistinct(items, active) && !AllQuantitiesValid(items) ==>
      r == CartAttempt(counters, BadRequest(QUANTITY_INVALID))
    ensures ActiveAndDistinct(items, active) && AllQuantitiesValid(items) ==>
      && r.counters.cart == UniqueIds.Tick(counters.cart, ctx.now)
      && r.counters.order == counters.order
      && (Validation.ValidateAddress(address).Fail? ==> r.result == Failure(Validation.ValidateAddress(address).error))
    ensures r.result.Success? <==>
      && ActiveAndDistinct(items, active) && AllQuantitiesValid(items)
      && Validation.ValidateAddress(address).Pass? && Validation.ValidateCustomer(customer, isMobile, isEmail).Pass?
    ensures r.result.Success? ==>
      && r.result.value.cart.isActive
      && r.result.value.cart.id == ctx.cartId
      && r.result.value.cart.customerId == ctx.customerId
      && r.result.value.cart.uniqueId ==
           UniqueIds.CartUniqueId(counters, ctx.now, ctx.dateCode, ProductIdSum(items), TotalQuantity(items), ctx.numberText, ctx.rand).1
      && |r.result.value.items| == |items|
      && (forall k :: 0 <= k < |items| ==>
            && r.result.value.items[k].cartId == ctx.cartId
            && r.result.value.items[k].productId == items[k].productId
            && r.result.value.items[k].quantity == items[k].quantity.value.r)
  {
    ActiveCountMatchesIffDistinct(items, active);
    if |ActiveIds(items, active)| != |items| then CartAttempt(counters, BadRequest(PRODUCTS_UNAVAILABLE))
    else if !AllQuantitiesValid(items) then CartAttempt(counters, BadRequest(QUANTITY_INVALID))
    else
      var (next, uniqueId) := UniqueIds.CartUniqueId(counters, ctx.now, ctx.dateCode, ProductIdSum(items), TotalQuantity(items), ctx.numberText, ctx.rand);
      var addressCheck := Validation.ValidateAddress(address);
      var customerCheck := Validation.ValidateCustomer(customer, isMobile, isEmail);
      if addressCheck.Fail? then CartAttempt(next, Failure(addressCheck.error))
      else if customerCheck.Fail? then CartAttempt(next, Failure(customerCheck.error))
      else CartAttempt(next, Success(CartCreated(Cart(ctx.cartId, uniqueId, ctx.customerId, true), CartItems(items, ctx.cartId))))
  }

  /** A cart that asks for the same product on two lines is always refused,
      whatever else it holds. */
  lemma RepeatedProductIsRefused(items: seq<CartData>, i: nat, j: nat, address: Validation.Address, customer: Validation.Customer,
                                 active: set<int>, counters: UniqueIds.IdCounters, ctx: CartContext,
                                 isMobile: string -> bool, isEmail: string -> bool)
    requires UniqueIds.RandomPart(ctx.rand)
    requires i < j < |items| && items[i].productId == items[j].productId
    ensures CreateCart(items, address, customer, active, counters, ctx, isMobile, isEmail) ==
      CartAttempt(counters, BadRequest(PRODUCTS_UNAVAILABLE))
  {
  }

  /** A failed address check still uses up a sequence number: a second call
      in the same millisecond gets the next one. */
  lemma InvalidAddressStillAdvancesCounter(items: seq<CartData>, address: Validation.Address, customer: Validation.Customer,
                                           active: set<int>, counters: UniqueIds.IdCounters, ctx: CartContext,
                                           isMobile: string -> bool, isEmail: string -> bool)
    requires UniqueIds.RandomPart(ctx.rand)
    requires ActiveAndDistinct(items, active) && AllQuantitiesValid(items)
    requires Validation.ValidateAddress(address).Fail?
    ensures var r := CreateCart(items, address, customer, active, counters, ctx, isMobile, isEmail);
      && r.result.Failure?
      && r.counters.cart.last == ctx.now
      && (counters.cart.last == ctx.now ==> r.counters.cart.sequence == counters.cart.sequence + 1)
  {
  }

  // ---------------------------------------------------------------------
  // deleteCart
  // ---------------------------------------------------------------------

  /** What a successful `deleteCart` leaves: the remaining carts and the
      status of the response. */
  datatype CartDeletion = CartDeletion(carts: seq<Cart>, status: Status)

  /** The position of the first cart with that unique id. */
  function FindCart(carts: seq<Cart>, uniqueId: string): (r: Option<nat>)
    ensures r.Some? ==> r.value < |carts| && carts[r.value].uniqueId == uniqueId
    ensures r.None? <==> forall k :: 0 <= k < |carts| ==> carts[k].uniqueId != uniqueId
  {
    if |carts| == 0 then None
    else if carts[0].uniqueId == uniqueId then Some(0)
    else
      var rest := FindCart(carts[1..], uniqueId);
      if rest.None? then None else Some(rest.value + 1)
  }

  /** `deleteCart` with the status of its success response as a parameter. */
  function DeleteCartWith(carts: seq<Cart>, uniqueId: string, status: Status): Result<CartDeletion> {
    if |uniqueId| == 0 then BadRequest(CART_ID_REQUIRED)
    else
      var found := FindCart(carts, uniqueId);
      if found.None? then Failure(RestError(NOT_FOUND, CART_NOT_FOUND))
      else
        var i := found.value;
        Success(CartDeletion(carts[..i] + carts[i + 1..], status))
  }

  /** The effect of a successful deletion: one cart with that id is gone and
      the others stay, in order. */
  ghost predicate RemovedOne(carts: seq<Cart>, uniqueId: string, rest: seq<Cart>) {
    exists i :: 0 <= i < |carts| && carts[i].uniqueId == uniqueId && rest == carts[..i] + carts[i + 1..]
  }

  /** `deleteCart` as written: an empty id is a BAD_REQUEST, an unknown one
      NOT_FOUND, and a success removes one cart with that id but answers
      with status CREATED. */
  function DeleteCart(carts: seq<Cart>, uniqueId: string): (r: Result<CartDeletion>)
    ensures |uniqueId| == 0 ==> r == Failure(RestError(BAD_REQUEST, CART_ID_REQUIRED))
    ensures |uniqueId| > 0 && (forall k :: 0 <= k < |carts| ==> carts[k].uniqueId != uniqueId) ==>
      r == Failure(RestError(NOT_FOUND, CART_NOT_FOUND))
    ensures r.Success? <==> |uniqueId| > 0 && exists k :: 0 <= k < |carts| && carts[k].uniqueId == uniqueId
    ensures r.Success? ==> r.value.status == CREATED && RemovedOne(carts, uniqueId, r.value.carts)
  {
    DeleteCartWith(carts, uniqueId, CREATED)
  }

  /** `deleteCart` answering a deletion with OK, as every other successful
      read or change does. */
  function DeleteCartCorrected(carts: seq<Cart>, uniqueId: string): (r: Result<CartDeletion>)
    ensures r.Success? ==> r.value.status == OK && StatusCode(r.value.status) == 200
    ensures r.Success? ==> RemovedOne(carts, uniqueId, r.value.carts)
    ensures r.Failure? <==> DeleteCart(carts, uniqueId).Failure?
    ensures r.Failure? ==> r == DeleteCart(carts, uniqueId)
  {
    DeleteCartWith(carts, uniqueId, OK)
  }

  /** A successful deletion as written answers 201 where 200 is meant, and
      otherwise does exactly what the corrected one does. */
  lemma DeleteCartAnswersCreated(carts: seq<Cart>, uniqueId: string)
    requires |uniqueId| > 0 && exists k :: 0 <= k < |carts| && carts[k].uniqueId == uniqueId
    ensures StatusCode(DeleteCart(carts, uniqueId).value.status) == 201
    ensures DeleteCart(carts, uniqueId).value.carts == DeleteCartCorrected(carts, uniqueId).value.carts
  {
  }
}
