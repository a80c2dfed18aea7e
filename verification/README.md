# Stock-batch ordering backend, modelled in Dafny

This project models the core of a TypeScript backend that sells produce by the kilogram. Stock comes in dated
**stock batches**: each has a quantity produced, a quantity already allocated and an end date. A customer builds
a **cart** and places an **order** against a delivery deadline, or an administrator creates the order directly.

Placing an order runs a four-step pipeline:

1. **Requirement.** The items become a per-product requirement map.
2. **Availability.** A dry run checks whether the active batches can cover the requirement.
3. **Delivery estimate.** The batches are scanned in `end_date` order to estimate a delivery date, which is the
   batch's end date plus two shipping days.
4. **Allocation.** If that date meets the deadline, the batches are walked greedily. Allocation rows are written
   and each batch's allocated quantity is raised.

Around the pipeline the model covers:

- the administrator's order-status transitions;
- three credential state machines: API keys, refresh tokens, and the in-memory blacklist of access tokens;
- the readable base-32 encoder and the cart and order id builders;
- the validators for addresses, customers, carts, enquiries, stock batches and products;
- sort whitelists and pagination arithmetic;
- the chat socket's cookie-token extraction and CORS origin rule;
- the per-conversation callback registry of the agent client.

**Modelling choices**

- **Pure functions.** Everything is a pure function, or a method where a loop is the point, over immutable
  datatypes.
- **Tables.** Database tables are sequences or maps that the caller passes in. A write is the new table returned.
- **Quantities** are `real`: decimal kilograms, with floating-point rounding ignored.
- **Dates** are `int` millisecond timestamps.
- **JavaScript numbers** are `Common.JsNumber` wherever `NaN` or an infinity changes a branch.
- **Parameters.** The following become parameters:
  - the clock;
  - the random bytes and characters;
  - the row ids and options the database supplies;
  - the date codes;
  - the mobile and e-mail patterns of `../utils/regex`, which are not part of this model;
  - whether a database write fails.
- **Source over design.** Where the design and the code disagree, the model follows the code. The places where
  the code looks wrong are listed under Findings.

Modules, in pipeline order:

- shared modules: `Common`, `Strings`, `Domain`;
- the placement pipeline: `Requirement`, `Availability`, `Delivery`, `Allocator`, `OrderPlacement`;
- validators and catalogue: `Validation`, `StockBatches`, `Listing`, `Products`, `UniqueIds`, `Carts`, `Enquiries`;
- order statuses: `Admin`;
- credentials: `Hex`, `ApiKeys`, `RefreshTokens`, `TokenBlacklist`;
- sockets: `SocketAuth`, `AgentClient`.

## Model

| member | source | states |
|---|---|---|
| Requirement.BuildRequirement | src/services/order.service.ts:52-59 | The requirement map holds each ordered product once, and maps it to the sum of that product's item quantities: duplicate lines add up, they do not overwrite. |
| Requirement.SupplyPermutation | src/services/order.service.ts:238-264 | The summed remaining stock of a product is the same for any reordering of the batch list. |
| Requirement.DemandAppend | src/services/order.service.ts:53-59 | The demand of a product over two item lists is the sum of the demands over each list. |
| Availability.Outstanding | src/services/order.service.ts:239-262 | After the dry run on the cloned map, a product that asked for more than zero keeps exactly what its batches could not cover. The clone has the same keys as the requirement, which is left as it was. |
| Availability.CheckIfHasRequiredQuantity | src/services/order.service.ts:238-264 | With non-negative remaining quantities, the check passes exactly when every requested product's requirement is at most the summed `produced - allocated` of its batches. |
| Availability.CheckIsOrderIndependent | src/services/order.service.ts:238-264 | Any permutation of the batches gives the same verdict. |
| Availability.CheckIsMonotonic | src/services/order.service.ts:238-264 | Adding batches never turns a satisfiable requirement into an unsatisfiable one. |
| Delivery.GetEarliestDeliveryDate | src/services/order.service.ts:187-236 | The estimate is null exactly when no batch ever meets its requested product's requirement. Otherwise it is the minimum delivery date of the product of the last batch that qualified. |
| Delivery.EstimateIgnoresDeadline | src/services/order.service.ts:214-222 | The estimate does not depend on the deadline, because the in-time and later quantities are only used through their sum. |
| Delivery.SplitSumsToSupply | src/services/order.service.ts:209-222 | For each scanned product, the in-time and later totals add up to its whole remaining stock. |
| Delivery.StepHitsIff | src/services/order.service.ts:214-222 | The loop's test on a batch holds exactly when the batch's product is requested and that product's remaining stock, counted over every batch up to and including this one, meets the requirement. |
| Delivery.MinDateIsFirstCrossing | src/services/order.service.ts:209-230 | On batches sorted by end date, a product's minimum date is end date plus two days of the first batch at which its cumulative stock reaches the requirement. |
| Delivery.LaterBatchesKeepMinDate | src/services/order.service.ts:209-230 | Once a product has reached its requirement on sorted batches, scanning more batches never changes its minimum date. |
| Delivery.EstimateIsLastWrittenMinDate | src/services/order.service.ts:189-235 | The estimate is null exactly when no batch ever meets its product's requirement. Otherwise it is the minimum date of the product whose batch was the last one to qualify, not the latest over products. |
| Delivery.LastQualifying | src/services/order.service.ts:224-231 | Finds the last batch index at which a requested product's cumulative stock meets its requirement, or reports that none does. |
| Delivery.CoveredRequirementGivesEstimate | src/services/order.service.ts:209-235 | A requested product whose whole stock covers its requirement makes the estimate non-null. |
| Delivery.EstimateIgnoresSlowerProduct | src/services/order.service.ts:231 | On a concrete two-product order, the estimate as written is day 12, within the deadline, although one product cannot be delivered before day 22. |
| Delivery.EarliestDeliveryForAll | src/services/order.service.ts:187-236 | The corrected estimate is a date by which every requested product can be delivered, and it is the earliest date for one of them. It is null exactly when some requested product never reaches its requirement or nothing is requested. |
| Delivery.CorrectedEstimateMeetsDeadline | src/services/order.service.ts:75 | When the corrected estimate meets the deadline, every requested product can be delivered by the deadline. |
| Delivery.CorrectedEstimateOnExample | src/services/order.service.ts:231 | On the same example, the corrected estimate is day 22, which is the slower product's date. |
| Allocator.AllocateItem | src/services/order.service.ts:134-172 | One item's pass over the batches. Only the item's own batches change, and only in their allocated quantity. With non-negative stock, batch `k` of the product gains `min(its remaining stock, max(0, quantity - remaining stock of the product's earlier batches))`, so the earliest batches are drawn on first. The rows are exactly one per batch whose allocated quantity rose, carrying the rise, in batch order. Well-formed batches stay well formed. |
| Allocator.ScanDrawn | src/services/order.service.ts:139-168 | The loop with its `break` agrees batch by batch with the reference `Allocator.Drawn`, which is defined from the supply of the earlier batches and not from the loop. |
| Allocator.ScanRowsAreRises | src/services/order.service.ts:160-167 | A row is pushed exactly for a batch whose allocated quantity rose, and it carries that rise. |
| Allocator.AllocateItemTotal | src/services/order.service.ts:139-172 | One item receives `min(quantity, remaining stock of its product)`, and that product's remaining stock drops by exactly this amount. |
| Allocator.AllocateItems | src/services/order.service.ts:127-185 | Across all items, batches of products that were not ordered are unchanged. Every row is valid against the original batches and names an ordered product. Well-formedness and non-negative stock are kept. |
| Allocator.ItemEffect | src/services/order.service.ts:134-172 | A later item sees the increments of earlier ones. Its own product receives `min(quantity, what is left)`, and every other product receives nothing. |
| Allocator.AllocateItemsTotals | src/services/order.service.ts:127-185 | Every product receives `min(total ordered, remaining stock)` over the whole item list, and its remaining stock drops by exactly that. |
| Allocator.AllocateItemsDrawn | src/services/order.service.ts:127-172 | Over the whole item list, every batch gains what one greedy pass for its product's total ordered quantity would draw from it: items of the same product continue where earlier ones stopped. |
| Allocator.AdminItemMatchesCartItem | src/services/order.service.ts:885-930 | The admin inner loop, which resets the outstanding quantity to 0, writes the same rows and batches as the cart loop, which subtracts. |
| Allocator.AdminAllocationMatchesCart | src/services/order.service.ts:873-931 | `createOrderBatchesForAdmin` produces the same rows and batch states as `createOrderBatches` for the same item list. |
| OrderPlacement.Fulfil | src/services/order.service.ts:52-114 | With non-negative remaining stock, placement fails with the "not yet available" BAD_REQUEST exactly when some product's ordered total exceeds its stock. Otherwise the estimate is the delivery scan's, and the order is promised exactly when the estimate is on or before the deadline, a null estimate counting as 0. An order that is not promised allocates nothing and leaves the batches alone. |
| OrderPlacement.PromisedOrderAllocatesDemand | src/services/order.service.ts:69-114 | A promised order gives every product exactly its ordered total, and lowers its remaining stock by exactly that. Every row is positive and names a batch of its product, and well-formed batches stay well formed. |
| OrderPlacement.UnpromisedOrderAllocatesNothing | src/services/order.service.ts:69-114 | An estimate after the deadline means no rows and no batch changes. A null estimate is treated as on time for any deadline from the epoch on. The estimate is null exactly when no batch brings a requested product's running stock up to its requirement. |
| OrderPlacement.PositiveOrderGetsEstimate | src/services/order.service.ts:69-75 | An order that passes the stock check and holds an item of positive quantity always gets a non-null delivery date. |
| OrderPlacement.FindActiveCart | src/services/order.service.ts:31-40 | Returns the first active cart with that unique id, or none exactly when no active cart has it. |
| OrderPlacement.ItemsOfCart | src/services/order.service.ts:41-48 | The items of a cart are exactly the stored rows that carry its id, and never more than the rows. |
| OrderPlacement.ItemsOfCartIsFilter | src/services/order.service.ts:41-48 | Reading a cart's items distributes over concatenation of the rows. A single row gives its item exactly when it carries the cart's id, so the items keep storage order. |
| OrderPlacement.PlaceOrderByCart | src/services/order.service.ts:19-125 | Checks, in order: an invalid date, a past date, a missing cart, an empty cart. Past them it succeeds exactly when the stock check passes, and fails otherwise with "not yet available". A success is an active order with the given row id, deadline and estimate, confirmed by the customer through the cart. Its unique id is `generateOrderUniqueId` of the cart's unique id and the deadline, and the returned counters are the ones that call leaves; a refusal returns no counters. It has the "success" option and the placed message when promised, and "pending" with the date-not-met message otherwise. Only a promised order allocates and deactivates its cart. |
| OrderPlacement.CartPlacementAllocatesCart | src/services/order.service.ts:52-124 | Past the date and cart checks, a cart order is refused exactly when some product in the cart is short. A placed order gives every product exactly its cart quantity; an order not met by the date allocates nothing. |
| OrderPlacement.CartOrderIdNamesCart | src/services/order.service.ts:104 | A placed cart order's unique id starts with `O-` and its fourth piece is the cart id's last four characters. Only the order counter advances. |
| OrderPlacement.CreateOrderByAdmin | src/services/order.service.ts:696-871 | Checks, in order: no items, an invalid date, a past date, then the customer's error, then the address's error. Past them it succeeds exactly when the stock check passes, and fails otherwise with "not yet available". A success is an admin-created active order with status 2 and no cart, with the "approved by admin" option when promised and "pending" otherwise. Its unique id is `generateOrderUniqueId` of the customer's mobile number and the deadline, and only a success advances the counters. |
| OrderPlacement.AdminPlacementAllocatesItems | src/services/order.service.ts:793-869 | Past the item, date, customer and address checks, an admin order is refused exactly when some product is short. A placed order gives every product exactly its ordered total; an order not met by the date allocates nothing. |
| OrderPlacement.AdminOrderIdNamesMobile | src/services/order.service.ts:855 | A placed admin order's unique id starts with `O-` and its fourth piece is the last four characters of the customer's mobile number, not of a cart id. Only the order counter advances. |
| OrderPlacement.FindActiveOrder | src/services/order.service.ts:277-282 | Finds an active order with that unique id, or none exactly when there is none. |
| OrderPlacement.ConfirmOrderByCustomer | src/services/order.service.ts:266-310 | An unknown order is a BAD_REQUEST. A found order without a cart is refused as created by admin, and any other found order is confirmed. The stored row gets the "approved by admin" option, and the deactivated cart is the one the order was created through. The response carries the order as found, before that update. |
| OrderPlacement.ConfirmationAllocatesWhatIsLeft | src/services/order.service.ts:289-296 | Confirmation has no stock check, so each product receives `min(ordered, remaining)`, never more than its batches hold. Each batch gains what a greedy pass for its product's cart total draws from it. |
| Validation.MissingTextIffNoText | src/utils/validation-utils.ts:18-30 | A field fails `!s \|\| s.trim().length === 0` exactly when it holds no character other than white space. |
| Validation.Utf16Length | src/utils/validation-utils.ts:11 | JavaScript's `.length`: at least the number of characters and at most twice it, more exactly when a character lies outside the Basic Multilingual Plane. |
| Validation.Utf16LengthAppend | src/utils/validation-utils.ts:11 | The code-unit length of a concatenation is the sum of the lengths. |
| Validation.ValidateAddress | src/utils/validation-utils.ts:8-38 | An address passes exactly when the first line has at least 5 UTF-16 code units, the city and district hold text, and the pin code is six digits. Otherwise the first failing check in that order names the error. |
| Validation.ValidateCustomer | src/utils/validation-utils.ts:40-65 | A customer passes exactly when the trimmed name has at least 3 UTF-16 code units, the mobile number matches, and the e-mail matches when it is given. Otherwise the first failing check names the error. |
| Validation.AstralNameIsLongEnough | src/utils/validation-utils.ts:44 | A name of two characters outside the Basic Multilingual Plane is four code units long and passes the name check. |
| StockBatches.Create | src/services/stock-batch.service.ts:149-180 | Succeeds exactly for an active product, a positive produced quantity and a start before the end, with errors in that order. The new batch has nothing allocated, is active, and so is well formed. |
| StockBatches.UpdateById | src/services/stock-batch.service.ts:182-219 | As written: a missing batch, then a missing or zero allocated quantity, then a missing or zero produced quantity are refused. A success has `allocated <= produced` and a positive production, and changes only the found row. It succeeds exactly when every check passes, with the end date compared as JavaScript does: a `Date` by its timestamp, text as `Number(text)`. Date text is therefore never refused, while numeric or blank text is refused as ending before the start. |
| StockBatches.ZeroAllocationIsRefused | src/services/stock-batch.service.ts:193-195 | An allocated quantity of 0 is always refused, so allocation cannot be reset to 0 through an update. |
| StockBatches.TextEndDateBeforeStartIsAccepted | src/services/stock-batch.service.ts:202 | A concrete update whose end date, sent as date text, lies nine days before the stored start is accepted as written and breaks date order. The corrected update refuses it. |
| StockBatches.NumericEndDateTextIsRefused | src/services/stock-batch.service.ts:202-204 | End-date text `5` or blank text compares as a number below the start's timestamp, so the update is refused as ending before the start. |
| StockBatches.UpdateByIdChecked | src/services/stock-batch.service.ts:182-219 | The corrected update compares the end date by time in every form. It succeeds exactly when every check passes and otherwise agrees with the written version. |
| StockBatches.CheckedUpdateKeepsDatesOrdered | src/services/stock-batch.service.ts:202-204 | The corrected update never breaks any row's start-before-end order. |
| StockBatches.DeleteById | src/services/stock-batch.service.ts:221-236 | Deletion succeeds exactly for an active batch that no allocation row names. The first active row with that id is then removed, and the others stay, in order. |
| StockBatches.DeleteRemovesOnlyThatBatch | src/services/stock-batch.service.ts:221-236 | With unique ids, the deleted batch is gone and every other batch is still present. |
| StockBatches.WhereMatchesFiltersWithOneBound | src/services/stock-batch.service.ts:22-43 | With at most one bound per date column, a batch matches exactly when all of these hold: it is active (unless `onlyActive` is false), it contains the code, it belongs to a listed product, and its dates are in range. |
| StockBatches.UpperBoundReplacesLowerBound | src/services/stock-batch.service.ts:32-43 | With both bounds given, only the `lte` bound survives, so the lower bound has no effect. |
| StockBatches.LowerBoundIsLost | src/services/stock-batch.service.ts:32-37 | A batch starting before `fromStartDate` is still returned. |
| Listing.KeepKnown | src/services/stock-batch.service.ts:60-72 | The kept entries are exactly the input entries whose field the whitelist knows. |
| Listing.KeepKnownOfKnown | src/services/stock-batch.service.ts:60-72 | An all-known list passes through unchanged and in order. |
| Listing.BatchOrderBy | src/services/stock-batch.service.ts:50-76 | Every term names a whitelisted column or the product name, and the list is never empty: `end_date asc` when no entry is known. |
| Listing.UnknownBatchSortFieldIsIgnored | src/services/stock-batch.service.ts:60-72 | An unknown entry anywhere in the sort list changes nothing. |
| Listing.ProductOrderBy | src/services/product.service.ts:17-32 | Every term names a whitelisted column, `name asc` is used when none is known, and an all-known list is kept in order. |
| Listing.UnknownProductSortFieldIsIgnored | src/services/product.service.ts:25-29 | An unknown product sort entry anywhere changes nothing. |
| Listing.CeilDivBounds | src/services/stock-batch.service.ts:107 | `Math.ceil(a / b)` pages of `b` rows hold all `a` rows, and one page fewer does not. |
| Listing.CeilDivLeast | src/services/stock-batch.service.ts:107 | No smaller page count holds all the rows. |
| Listing.Paginate | src/services/stock-batch.service.ts:101-108 | `totalPages` is the fewest pages that hold all rows. `currentPage` is the 1-based page holding row `skip`. There is a next page exactly when rows remain after this one. |
| Listing.AlignedPageHasNextIffNotLast | src/services/stock-batch.service.ts:105-107 | On a page-aligned offset, there is a next page exactly when the current page is not the last one. |
| Listing.BatchTake | src/services/stock-batch.service.ts:46 | The page size is between 1 and 25. It is the limit itself when that is from 1 to 25, and otherwise 25. |
| Listing.BatchSkip | src/services/stock-batch.service.ts:47 | A non-negative offset is kept, and anything else becomes 0. |
| Listing.BatchPage | src/services/stock-batch.service.ts:46-47 | The stock-batch pagination never exceeds 25 rows a page, starts at page 1 or later, and counts enough pages for all rows. |
| Listing.OrderPage | src/services/order.service.ts:314-315 | Order pagination caps the limit at 25 and raises a negative offset to 0. There is a previous page exactly when the offset is positive, and a next page exactly when rows remain. |
| Products.Sanitize | src/services/product.service.ts:77 | The sanitised name has the original's length. Allowed characters are kept, and every other character becomes `_`. |
| Products.SanitizeIsClean | src/services/product.service.ts:77 | A sanitised name holds only allowed characters and `_`, so it has no `/`, and sanitising again changes nothing. |
| Products.StoragePath | src/services/product.service.ts:78 | The path starts with `products/` and ends with the sanitised name. |
| Products.StoragePathTimestamp | src/services/product.service.ts:76-78 | The file part of the path reads back as the timestamp, a `-`, and the sanitised name. |
| Products.CreateProduct | src/services/product.service.ts:57-114 | As written: blank name, then blank description, then missing image, then a price that is not a number above 0 (NaN passes), then a missing bucket. A success is an active product with the given name, description and price, holding the new image. The image row keeps the original file name and stores the public URL, or the storage path when there is no public URL. The upload path is exactly `products/<timestamp>-<sanitised name>`. |
| Products.NaNPriceIsAccepted | src/services/product.service.ts:67 | A NaN price is accepted and stored as written, and refused by the corrected create. |
| Products.CreateProductChecked | src/services/product.service.ts:67-69 | The corrected create stores only finite positive prices, and otherwise behaves as written. |
| Common.FindFirst | src/services/product.service.ts:116-123 | The lookup of an active row by id: the position of the first row the filter picks, and none exactly when no row matches; used for products and stock batches alike. |
| Products.UpdateProductById | src/services/product.service.ts:116-217 | A missing product, or a given price at or below 0, is refused. A success writes only the found row. A truthy name, description or price, or a defined `is_active`, replaces the stored value, and every other field is kept. With a file, the file goes under `products/`; the product's image row is rewritten with the file's name and URL, or a new one is created and linked when the product has none. |
| Products.NaNPriceIsIgnoredOnUpdate | src/services/product.service.ts:126-128 | A NaN price passes the check but is falsy, so the update succeeds and keeps every stored price. |
| Products.UpdateIsIdempotent | src/services/product.service.ts:116-217 | Repeating an update that leaves the product active, with the same payload and file, changes nothing further. |
| Products.OldImagePath | src/services/product.service.ts:158-160 | A source URL without "http" is already the path to delete. |
| Products.OldImagePathOfUploadedImage | src/services/product.service.ts:141-160 | When an image uploaded under `products/` is replaced, it is deleted under exactly its storage path. |
| Products.SoftDeleteProductById | src/services/product.service.ts:219-239 | Succeeds exactly for an active product that no allocation row names. The row stays but becomes inactive, and every other row is unchanged. |
| Products.SoftDeletedProductIsInactive | src/services/product.service.ts:233-237 | With unique ids, a soft-deleted product is no longer found as active. |
| UniqueIds.AlphabetFacts | src/utils/unique-field-utils.ts:1 | The alphabet has 32 distinct characters: no I, O, 0 or 1, no lower-case letter, and no `-`. |
| UniqueIds.DigitsRoundTrip | src/utils/unique-field-utils.ts:14-21 | The base-32 digits of a positive number are non-empty, do not start with `A`, and decode back to the number. |
| UniqueIds.Encode | src/utils/unique-field-utils.ts:9-22 | A non-finite or non-positive value encodes as `A`, and every encoding uses only alphabet characters. |
| UniqueIds.EncodeNumberWithAlphabet | src/utils/unique-field-utils.ts:9-22 | The loop gives `A` for a non-finite or non-positive value. Values of at least 1 get a non-empty encoding without a leading `A` that decodes to their floor, and values between 0 and 1 get the empty string. |
| UniqueIds.FloorOfPositive | src/utils/unique-field-utils.ts:14 | The floor is at least 1 exactly when the value is. |
| UniqueIds.Tick | src/utils/unique-field-utils.ts:44-49 | In the same millisecond as the last call the sequence increments. In a different one it restarts at 0 and records the time. |
| UniqueIds.CallsInOneMillisecondAreNumbered | src/utils/unique-field-utils.ts:44-49 | Calls within one millisecond are numbered consecutively: the `k`-th after a call at another time gets `k - 1`. |
| UniqueIds.Suffix | src/utils/unique-field-utils.ts:61-65 | The suffix has at least 4 alphabet characters and ends with the random part. |
| UniqueIds.CartUniqueId | src/utils/unique-field-utils.ts:41-69 | The cart id advances only the cart counter. It starts with `C-` and ends with the suffix of the new sequence number. |
| UniqueIds.CartIdSplits | src/utils/unique-field-utils.ts:53-68 | Split at `-`, the cart id gives back its upper-cased pieces: `C`, date, `P<abs id sum>`, `Q<quantity>`, suffix. |
| UniqueIds.OrderUniqueId | src/utils/unique-field-utils.ts:71-95 | The order id advances only the order counter. It starts with `O-` and ends with the suffix of the new sequence number. |
| UniqueIds.OrderIdSplits | src/utils/unique-field-utils.ts:71-95 | Split at `-`, the order id gives back its upper-cased pieces: `O`, date, delivery date, the last four characters of its source text, suffix. |
| UniqueIds.OrderIdNamesSource | src/utils/unique-field-utils.ts:71-95 | Only the order counter advances, the id starts with `O-`, and its fourth piece is the upper-cased last four characters of the source text. |
| UniqueIds.OrderIdCarriesCartSuffix | src/utils/unique-field-utils.ts:85 | The four characters the order id takes from the cart id are the tail of the cart id's own suffix. |
| Carts.ActiveIds | src/services/cart.service.ts:18-28 | The counted ids are exactly the distinct requested ids that belong to an active product. |
| Carts.ActiveCountMatchesIffDistinct | src/services/cart.service.ts:18-28 | The count never exceeds the number of lines. It equals it exactly when every product is active and none repeats. |
| Carts.TotalQuantityBounds | src/services/cart.service.ts:30-34 | A non-empty cart of valid quantities has a positive total that is at least every line's quantity. |
| Carts.SumsAppend | src/services/cart.service.ts:30-39 | The total quantity and the product-id sum split over concatenation. |
| Carts.CartItems | src/services/cart.service.ts:65-74 | One cart item per line, in order, carrying the cart id. |
| Carts.CreateCart | src/services/cart.service.ts:17-78 | Checks, in order: products, quantities, address, customer, all before any row is written. A success is an active cart with an id built from the sums, plus one item per line. |
| Carts.RepeatedProductIsRefused | src/services/cart.service.ts:18-28 | A cart that names the same product on two lines is always refused. |
| Carts.InvalidAddressStillAdvancesCounter | src/services/cart.service.ts:36-41 | The cart id is built before the address is validated, so a refused address still uses up a sequence number. |
| Carts.FindCart | src/services/cart.service.ts:105-113 | Finds the position of a cart with that id, or none exactly when no cart has it. |
| Carts.DeleteCart | src/services/cart.service.ts:100-125 | As written: an empty id is a BAD_REQUEST and an unknown id NOT_FOUND. A success removes one cart with that id but answers CREATED. |
| Carts.DeleteCartCorrected | src/services/cart.service.ts:121-124 | The corrected delete answers 200. It fails exactly when the written one does, with the same error. |
| Carts.DeleteCartAnswersCreated | src/services/cart.service.ts:121-122 | A successful deletion as written answers 201, and removes the same cart as the corrected one. |
| Enquiries.IsEmailIffShape | src/services/enquiry.service.ts:26-27 | The scanning e-mail check accepts exactly the strings of `^[^\s@]+@[^\s@]+\.[^\s@]+$`. |
| Enquiries.CreateEnquiry | src/services/enquiry.service.ts:15-68 | A blank field gives the "all fields" error. A success requires every field, the e-mail shape, ten digits and a working write. A failed write becomes the 500 "Failed to create enquiry", while validation errors pass through. |
| Enquiries.EmailCheckedBeforeMobile | src/services/enquiry.service.ts:26-41 | A submission wrong in both is told about its e-mail. |
| Enquiries.MobileCheckedAfterEmail | src/services/enquiry.service.ts:35-41 | A mobile number is refused for its shape only once the e-mail passes. |
| Enquiries.MobileString | src/services/contact-us.service.ts:13 | `String(mobile)` is empty exactly for the empty text. |
| Enquiries.CreateContactEnquiry | src/services/contact-us.service.ts:10-57 | Name, mobile text and message are required, and the e-mail is checked only when given. A success requires every check and a working write. |
| Enquiries.SkipOf | src/services/contact-us.service.ts:63 | The offset is never NaN or negative. |
| Enquiries.FetchAllEnquiries | src/services/contact-us.service.ts:59-94 | As written, every failure, the limit error included, is the 500 "Failed to fetch enquiries". The page size lies in 1..100 on success. |
| Enquiries.FetchAllEnquiriesChecked | src/services/contact-us.service.ts:66-71 | The corrected listing answers an out-of-range limit with the 400 "between 1 and 100", and otherwise behaves as written. |
| Enquiries.LimitErrorIsHidden | src/services/contact-us.service.ts:86-93 | A limit of 500 is a 500 as written and a 400 when corrected. |
| Admin.Move | src/services/admin.service.ts:9-76 | An unknown order is NOT_FOUND and a refused status is a BAD_REQUEST. A success writes back the row with the new status, changes nothing else in it, and leaves every other order alone. |
| Admin.ConfirmOrderByAdmin | src/services/admin.service.ts:9-30 | Succeeds exactly for an order with status 2 and stores it with status 2. Otherwise the answer is NOT_FOUND or the "not confirmed by customer" error. |
| Admin.RevertConfirmationByAdmin | src/services/admin.service.ts:32-53 | Succeeds exactly from status 2 and moves the order to pending (1). |
| Admin.CancelOrderByAdmin | src/services/admin.service.ts:55-76 | Refuses a delivered order (4). Any other status, cancelled included, becomes 5. |
| Admin.ConfirmChangesNothing | src/services/admin.service.ts:19-22 | The two confirmed statuses share the value 2, so a confirmation writes back exactly the table it read and can be repeated. |
| Admin.RevertAcceptsCustomerConfirmation | src/services/admin.service.ts:38-44 | An order the customer confirmed can be reverted without an administrator ever confirming it. |
| Admin.RevertedOrderIsPending | src/services/admin.service.ts:32-53 | After a revert, neither a second revert nor a confirmation is accepted. |
| Admin.CancelIsIdempotent | src/services/admin.service.ts:55-76 | A cancelled order can be cancelled again, and that writes back the table unchanged. |
| Admin.TransitionsKeepStatusesKnown | src/utils/constants.ts:36-61 | Every transition keeps all statuses within 1..5 and never moves a delivered order. |
| Hex.FromToHex | src/services/api-key.service.ts:33 | Reading back the hex text of a byte string gives the bytes. |
| Hex.ToHexInjective | src/services/refresh-token.service.ts:12 | Different byte strings never share a hex text. |
| ApiKeys.GenerateApiKey | src/services/api-key.service.ts:32-55 | A new key is `ila_` plus the hex of the bytes. It is active, expires 30 days after `now`, and leaves other keys alone. It fails only when the text is taken. |
| ApiKeys.KeyTextShape | src/services/api-key.service.ts:33 | Keys from 32 random bytes are 68 characters long, and different bytes give different keys. |
| ApiKeys.ValidateApiKey | src/services/api-key.service.ts:60-90 | A key is valid exactly when it is present, active and not past its expiry. An expired active key is deactivated, and no other key changes. |
| ApiKeys.NewKeyValidatesForThirtyDays | src/services/api-key.service.ts:32-90 | A new key validates at every time from its creation up to its expiry, inclusive. |
| ApiKeys.CleanupExpiredKeys | src/services/api-key.service.ts:95-114 | Exactly the active keys with `expires_at < now` are deactivated, and nothing else changes. |
| ApiKeys.CleanupKeepsValidity | src/services/api-key.service.ts:95-114 | Cleanup never changes which keys validate, and a second cleanup at the same time changes nothing. |
| ApiKeys.RevokeApiKey | src/services/api-key.service.ts:119-131 | The key is deactivated. The answer is true exactly when a row matched, even an inactive one. |
| ApiKeys.RevokedKeyIsRefused | src/services/api-key.service.ts:119-131 | A revoked key never validates again. |
| ApiKeys.RefreshApiKey | src/services/api-key.service.ts:136-153 | An invalid old key gives `null` and only validation's own change. A valid one is revoked. Then the new key and table are exactly those of generating a key on the revoked table, or `null` with the old key still revoked when the insert fails. |
| ApiKeys.RefreshSwapsKeys | src/services/api-key.service.ts:136-153 | Refreshing a valid key with fresh bytes swaps the keys. The new key validates for thirty days, the old one never again, and every other key is unchanged. |
| ApiKeys.InvalidRefreshRevokesNothingElse | src/services/api-key.service.ts:136-153 | An invalid old key gives null. It changes nothing, except that an expired active key is deactivated by validation. |
| ApiKeys.ListNewestFirst | src/services/api-key.service.ts:162-168 | Lists the wanted rows, each once, newest first. |
| ApiKeys.GetActiveKeys | src/services/api-key.service.ts:158-181 | Runs cleanup first. It then lists exactly the keys that are active and expire after `now`, each once and newest first. |
| ApiKeys.KeyExpiringNowValidatesButIsNotListed | src/services/api-key.service.ts:76 | A key that expires exactly now still validates but is not listed. |
| RefreshTokens.CreateRefreshToken | src/services/refresh-token.service.ts:10-29 | A new token is the hex of the bytes. It is unrevoked, expires `days` days after `now`, and leaves other tokens alone. It fails only when the text is taken. |
| RefreshTokens.VerifyRefreshToken | src/services/refresh-token.service.ts:34-52 | The answer is invalid exactly for an unknown token, revoked exactly for a revoked one, and expired exactly when `now > expires_at`. Otherwise it is the token's user. |
| RefreshTokens.NewTokenVerifies | src/services/refresh-token.service.ts:4-29 | A new token verifies for its user until its expiry, inclusive. |
| RefreshTokens.RevokeToken | src/services/refresh-token.service.ts:57-62 | Only that token is marked revoked. |
| RefreshTokens.RevokedTokenIsRefused | src/services/refresh-token.service.ts:57-62 | A revoked token is refused as revoked, and every other token verifies as before. |
| RefreshTokens.RevokeUserTokens | src/services/refresh-token.service.ts:67-72 | Every token of the user is revoked, and other users' tokens are unchanged. |
| RefreshTokens.UserTokensAreRefused | src/services/refresh-token.service.ts:67-72 | No token of the user verifies afterwards, and other tokens verify as before. |
| RefreshTokens.CleanupExpiredTokens | src/services/refresh-token.service.ts:77-87 | Exactly the tokens with `expires_at < now` are deleted, revoked or not, and the count is how many went. |
| RefreshTokens.CleanupKeepsAcceptance | src/services/refresh-token.service.ts:77-87 | Cleanup never changes whether a token is accepted. |
| TokenBlacklist.Add | src/services/token-blacklist.service.ts:17-19 | Adds or overwrites the token's expiry, and leaves other entries unchanged. |
| TokenBlacklist.AddThenLookup | src/services/token-blacklist.service.ts:17-48 | A blacklisted token is reported. Blacklisting it again keeps the count, and a new token adds one. |
| TokenBlacklist.Cleanup | src/services/token-blacklist.service.ts:34-41 | Exactly the entries with `expiresAt < now` are dropped. An entry expiring now stays, and the count never grows. |
| TokenBlacklist.CleanupIsMonotone | src/services/token-blacklist.service.ts:34-41 | Cleanup is idempotent, and a later cleanup removes at least what an earlier one did. |
| SocketAuth.OriginAllowed | src/socket.ts:14-24 | Any `.vercel.app` host is allowed. Without the setting, only a missing or empty origin or a Vercel host is allowed. An origin holding a comma is never a listed one, so it is refused unless it is a Vercel host. |
| SocketAuth.OriginAllowedIff | src/socket.ts:14-24 | With the setting written as a comma-separated list, an origin is allowed exactly when it is empty, listed, or ends with `.vercel.app`. |
| SocketAuth.FindTokenCookie | src/socket.ts:43-44 | Finds the first trimmed piece starting with `accessToken=`, or none exactly when no piece does. |
| SocketAuth.CookieToken | src/socket.ts:41-48 | A token exists exactly when a non-empty header has an `accessToken=` piece. It is the text after the first `=` up to the next one. |
| SocketAuth.CookieTokenOfHeader | src/socket.ts:41-48 | Reading back a `;`-joined header gives the first `accessToken` cookie's value up to its first `=`, or the whole value when it holds no `=`. |
| SocketAuth.PaddingIsCut | src/socket.ts:46 | A token ending in `==` padding loses the padding. |
| SocketAuth.ConnectionToken | src/socket.ts:41-57 | A non-empty cookie token wins, then `auth.token`. With neither, the connection is refused with "Authentication required". |
| SocketAuth.MessageToken | src/socket.ts:91-105 | The per-message token is empty exactly when the connection would be refused, and otherwise equals the connection token. |
| AgentClient.CleanupCallbacks | src/agentSocketClient.ts:82-86 | Removes the conversation from all three maps and keeps every other entry. |
| AgentClient.SendMessage | src/agentSocketClient.ts:88-114 | While disconnected it calls `onError` once with "Not connected to Agent Server" and registers and sends nothing. Otherwise it registers the three callbacks, replacing earlier ones, and sends `chat:send`. |
| AgentClient.OnStream | src/agentSocketClient.ts:52-57 | Calls the stream callback if present and keeps the registry. |
| AgentClient.OnComplete | src/agentSocketClient.ts:59-66 | Calls the complete callback if present, then drops that conversation's three callbacks. |
| AgentClient.OnError | src/agentSocketClient.ts:68-75 | Calls the error callback if present, then drops that conversation's three callbacks. |
| AgentClient.Disconnect | src/agentSocketClient.ts:120-128 | Leaves the registry disconnected, with all three maps empty. |
| AgentClient.TransitionsKeepAligned | src/agentSocketClient.ts:52-128 | Every transition keeps the three maps on the same conversations. |
| AgentClient.ConversationLifecycle | src/agentSocketClient.ts:52-114 | After a send, chunks reach the stream callback, the completion reaches the complete callback once, and a second completion or error reaches nothing. |
| AgentClient.OtherConversationsUntouched | src/agentSocketClient.ts:59-86 | A completion or error for one conversation leaves every other conversation's callbacks in place. |

## Left out

- Prisma reads and writes are not modelled: each table is an input sequence or map and each write is the returned value. This leaves out:
  - the query objects of `fetchOrders`, `getOrdersCount` and `fetchOrderDetails`;
  - `count` of the stock-batch service;
  - `getProductsCount`, `downloadProductImage` and `fetchBestSellers`;
  - `fetchCart`;
  - `getEnquiriesCount` and `getKeyInfo`, which are single reads.
- The duplicate `confirmOrderByAdmin` and `cancelOrderByAdmin` in src/services/order.service.ts:473-565: the administrator's transitions are modelled from src/services/admin.service.ts.
- The customer upsert and address update inside `createOrderByAdmin` (src/services/order.service.ts:722-790) are database writes. The customer id they produce is a parameter.
- OrderPlacement.CreateOrderByAdmin: allocates with `Allocator.AllocateItems`. `Allocator.AdminAllocationMatchesCart` proves this equal to `createOrderBatchesForAdmin`.
- Concurrency is left out: the race between concurrent placements and the two-step persistence of allocations. The model is one sequential pass.
- moment and Date calendar arithmetic are left out (time zones, daylight saving, the date codes, `generateBatchCode`). Dates are millisecond timestamps, the shipping lead is the constant two days, and date codes are opaque parameters.
- Floating-point rounding of quantities is left out; quantities are exact reals.
- Randomness and the clock are parameters: `crypto.randomBytes`, `randomReadable`, `Date.now`.
- The mobile and e-mail patterns of `../utils/regex` are not part of this model; they are predicate parameters.
- The Supabase upload and deletion, multer, bcrypt and JWT signing and checking (`verifyToken`) are left out. The upload's public URL and storage path are parameters, and so is the URL parser's `pathname`.
- Express plumbing, controllers, routes, the API-key middleware and the `setInterval` cleanup timers are left out.
- The socket.io transport, connecting and reconnecting are left out. The agent socket is reduced to a `connected` flag, and callbacks are opaque handles whose calls are recorded.
- ApiKeys.ValidateApiKey: a database failure, which the source's catch turns into `false`, `null` or `[]`, is not modelled.
- ApiKeys.GetActiveKeys: the order of keys created in the same millisecond is left unspecified, as the database's sort leaves it.
- RefreshTokens.CreateRefreshToken: the lifetime in days is a parameter. The environment lookup and a `parseInt` that yields `NaN` are not modelled.
- SocketAuth.ConnectionToken: a non-string `auth.token` is not modelled; the handshake value is an optional string.
- StockBatches.Create: start and end are compared as timestamps. Comparing two text dates as text is not modelled.
- StockBatches.Create: the produced quantity is a number, so `NaN` or an absent value, which pass the source's `<= 0` test, are not modelled.
- OrderPlacement.PlaceOrderByCart: the past-date check and the order id generator read one clock value `now`. The source reads the clock twice, a few milliseconds apart.
- Products.Sanitize: works on characters, where the source's pattern works on UTF-16 code units. A character outside the Basic Multilingual Plane becomes `__` in the source and `_` here.
- Allocator.AllocateItems: its own contract states the shape of the result. The per-batch quantities are stated by `Allocator.AllocateItemsDrawn` and the totals by `Allocator.AllocateItemsTotals`. Across items, the rows are the per-item rows of `Allocator.AllocateItem` in item order; no single formula over all items is stated for them.
- `placeOrderByCart` first deletes the orders earlier created through the same cart (src/services/order.service.ts:49-51), before the stock check and even when the request then fails. That deletion is not modelled.
- Products.UpdateProductById: the upload to storage and the deletion of the old file are left out, and so is an upload that fails.
- Listing.OrderPage: requires `limit > 0`. The source divides by the limit and would report infinite or `NaN` pages for zero.
- Listing.ProductOrderBy: takes the sort list as given. The default parameter `[{name: asc}]` for an absent list is not modelled.
- Strings.ToUpper: upper-cases the ASCII letters only. JavaScript's `toUpperCase` also maps other letters, such as `é` to `É` and `ß` to `SS`. Ids built from ASCII text are unaffected; a mobile number with non-ASCII letters in its last four characters is not modelled.
- Strings.IntToString: `String` on a number is modelled only for integers. `String` on a fractional quantity is a parameter.
- Enquiries.CreateContactEnquiry: `String(mobile)` is modelled only for absent, null, text and non-negative whole-number inputs.
- Sort-field names that collide with `Object.prototype` members (such as `constructor`) are not modelled: they would be truthy lookups in the source's plain objects.

## Findings

| source | as written | input that shows it | evidently intended | confidence | as-written member | corrected member |
|---|---|---|---|---|---|---|
| src/services/order.service.ts:231 | The estimate is overwritten with the minimum date of whichever product's batch qualified last. | Product 1 has 100 kg batches ending on days 10 and 30, product 2 one ending on day 20; 50 kg of each is ordered by day 15. The day-30 batch qualifies last, so the estimate is product 1's day 12, although product 2 cannot ship before day 22. | The estimate should be the latest of the requested products' minimum dates, so that a promised order can ship every product by the deadline. | not executed; high | Delivery.EstimateIgnoresSlowerProduct | Delivery.CorrectedEstimateMeetsDeadline |
| src/services/stock-batch.service.ts:202 | `payload.end_date < stockBatch.start_date` compares a JSON text with a `Date`, which is false for date text, since `Number` of it is `NaN`. | Updating a batch that starts on day 10 with `end_date` given as text for day 1 is accepted, and stores an end before the start. | The end date should be compared by time, refusing an end before the start. | not executed; high | StockBatches.TextEndDateBeforeStartIsAccepted | StockBatches.CheckedUpdateKeepsDatesOrdered |
| src/services/cart.service.ts:121-122 | A successful deletion answers 201 CREATED. | Delete an existing cart id. | Answer 200 OK, as every other successful read or change does. | not executed; high | Carts.DeleteCartAnswersCreated | Carts.DeleteCartCorrected |
| src/services/product.service.ts:67 | `typeof price !== 'number' \|\| price <= 0` lets `NaN` through, since `NaN <= 0` is false. | Create a product with `price_per_kg` = `parseFloat("abc")`. | Refuse any price that is not a finite positive number, as the message "Valid price_per_kg is required" says. | not executed; medium | Products.NaNPriceIsAccepted | Products.CreateProductChecked |
| src/services/contact-us.service.ts:66-71, 86-93 | The catch-all handler turns the service's own 400 "Limit must be between 1 and 100" into a 500. | List enquiries with `limit` = 500. | Pass the service's own errors through, as the enquiry service does. | not executed; high | Enquiries.LimitErrorIsHidden | Enquiries.FetchAllEnquiriesChecked |
