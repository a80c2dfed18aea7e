/** The rules of the stock-batch service (src/services/stock-batch.service.ts):
    `create`, `updateById` and `deleteById` on the batch table, and the
    `where` object `fetch` and `count` build from their filters. The table
    is a sequence of rows; the product table enters as the set of ids of
    active products, and the allocation table as a sequence of rows. */
module StockBatches {
  import opened Common
  import opened Strings
  import opened Domain

  const PRODUCT_NOT_FOUND: string := "Product not found"
  const PRODUCED_NOT_POSITIVE: string := "Quantity produced must be greater than 0"
  const START_NOT_BEFORE_END: string := "Start date must be before end date"
  const BATCH_NOT_FOUND: string := "Stock batch not found"
  const ALLOCATED_REQUIRED: string := "Allocated quantity is reqiured to update the batch"
  const PRODUCED_REQUIRED: string := "Produced quantity is required to update the batch"
  const END_BEFORE_START: string := "End date must be after start date"
  const ALLOCATED_EXCEEDS_PRODUCED: string := "Allocated quantity must be less than or equal to produced quantity"
  const BATCH_IN_USE: string := "An Order has been placed by using this batch. Cannot delete now"

  // ---------------------------------------------------------------------
  // create
  // ---------------------------------------------------------------------

  /** The payload of `create`; both dates are already parsed timestamps. */
  datatype NewBatch = NewBatch(productId: int, quantityProduced: real, startDate: int, endDate: int, pricePerKg: real)

  /** `create`: the product must be active, the produced quantity positive and
      the start strictly before the end, checked in that order. The new row
      starts with nothing allocated and active, so it is well formed and all
      of its production is available. `id` and `batchCode` are what the
      database and `generateBatchCode` supply. */
  function Create(activeProducts: set<int>, p: NewBatch, id: int, batchCode: string): (r: Result<StockBatch>)
    ensures r.Success? <==> p.productId in activeProducts && p.quantityProduced > 0.0 && p.startDate < p.endDate
    ensures p.productId !in activeProducts ==> r == BadRequest(PRODUCT_NOT_FOUND)
    ensures p.productId in activeProducts && p.quantityProduced <= 0.0 ==> r == BadRequest(PRODUCED_NOT_POSITIVE)
    ensures p.productId in activeProducts && p.quantityProduced > 0.0 && p.startDate >= p.endDate ==>
      r == BadRequest(START_NOT_BEFORE_END)
    ensures r.Success? ==>
      && r.value.WellFormed()
      && r.value.isActive
      && r.value.quantityAllocated == 0.0
      && r.value.Remaining() == p.quantityProduced
      && r.value.startDate < r.value.endDate
      && r.value.productId == p.productId
      && r.value.id == id
      && r.value.batchCode == batchCode
  {
    if p.productId !in activeProducts then BadRequest(PRODUCT_NOT_FOUND)
    else if p.quantityProduced <= 0.0 then BadRequest(PRODUCED_NOT_POSITIVE)
    else if p.startDate >= p.endDate then BadRequest(START_NOT_BEFORE_END)
    else Success(StockBatch(id, batchCode, p.productId, p.quantityProduced, 0.0, p.startDate, p.endDate, true, p.pricePerKg))
  }

  // ---------------------------------------------------------------------
  // lookup
  // ---------------------------------------------------------------------

  /** `findUnique({ where: { id, is_active: true } })`: the position of the
      first active row with that id. */
  function FindActive(table: seq<StockBatch>, id: int): Option<nat> {
    FindFirst(table, (b: StockBatch) => b.id == id && b.isActive)
  }

  ghost predicate HasActive(table: seq<StockBatch>, id: int) {
    exists j :: 0 <= j < |table| && table[j].id == id && table[j].isActive
  }

  predicate UniqueIds(table: seq<StockBatch>) {
    forall i, j :: 0 <= i < j < |table| ==> table[i].id != table[j].id
  }

  // ---------------------------------------------------------------------
  // updateById
  // ---------------------------------------------------------------------

  /** An `end_date` as the service receives it. A request body is JSON, so
      the value arrives as text; a caller inside the server could pass a
      `Date`. Either way `ms` is what `new Date(...)` makes of it. For text,
      `asNumber` is `Number(text)`: NaN for date text such as `2024-05-01`,
      a number for numeric text such as `5`, and 0 for blank text. */
  datatype DateInput = DateText(ms: int, asNumber: JsNumber) | DateValue(ms: int)

  /** The payload of `updateById`. `None` is an absent field; an absent or
      empty `end_date` is `None` as well, since both are falsy. */
  datatype BatchUpdate = BatchUpdate(
    productId: Option<int>,
    quantityProduced: Option<real>,
    quantityAllocated: Option<real>,
    endDate: Option<DateInput>,
    isActive: Option<bool>)

  /** JavaScript truthiness of an optional number: absent and 0 are falsy. */
  predicate Given(q: Option<real>) { q.Some? && q.value != 0.0 }

  /** `payload.end_date < stockBatch.start_date` as JavaScript evaluates it
      against the stored `Date`: the `Date` becomes its timestamp and text
      becomes `Number(text)`, so date text (NaN) never compares below it,
      while numeric or blank text compares as that small number. */
  predicate JsEndBeforeStart(d: DateInput, start: int) {
    match d
    case DateText(_, n) => n.LessThan(start as real)
    case DateValue(ms) => ms < start
  }

  /** The comparison the check is meant to make: on timestamps. */
  predicate EndBeforeStartByTime(d: DateInput, start: int) {
    d.ms < start
  }

  /** The row `prisma.stockBatch.update` writes: given fields replace the
      stored ones, absent fields keep them. */
  function Apply(b: StockBatch, u: BatchUpdate): StockBatch
    requires u.quantityProduced.Some? && u.quantityAllocated.Some?
  {
    b.(productId := u.productId.GetOr(b.productId),
       quantityProduced := u.quantityProduced.value,
       quantityAllocated := u.quantityAllocated.value,
       endDate := if u.endDate.Some? then u.endDate.value.ms else b.endDate,
       isActive := u.isActive.GetOr(b.isActive))
  }

  /** What a successful update leaves in a row: the quantities of the
      payload, the given fields, and everything else as it was. */
  ghost predicate UpdatedRow(before: StockBatch, after: StockBatch, u: BatchUpdate) {
    && u.quantityProduced.Some? && u.quantityAllocated.Some?
    && after.quantityProduced == u.quantityProduced.value
    && after.quantityAllocated == u.quantityAllocated.value
    && after.productId == (if u.productId.Some? then u.productId.value else before.productId)
    && after.endDate == (if u.endDate.Some? then u.endDate.value.ms else before.endDate)
    && after.isActive == (if u.isActive.Some? then u.isActive.value else before.isActive)
    && after.id == before.id
    && after.batchCode == before.batchCode
    && after.startDate == before.startDate
    && after.pricePerKg == before.pricePerKg
  }

  /** The checks of `updateById` in their order; `endBeforeStart` is the
      end-date comparison. */
  function UpdateWith(table: seq<StockBatch>, id: int, u: BatchUpdate, endBeforeStart: (DateInput, int) -> bool): Result<seq<StockBatch>>
  {
    var found := FindActive(table, id);
    if found.None? then BadRequest(BATCH_NOT_FOUND)
    else
      var b := table[found.value];
      if !Given(u.quantityAllocated) then BadRequest(ALLOCATED_REQUIRED)
      else if !Given(u.quantityProduced) then BadRequest(PRODUCED_REQUIRED)
      else if u.quantityProduced.value <= 0.0 then BadRequest(PRODUCED_NOT_POSITIVE)
      else if u.endDate.Some? && endBeforeStart(u.endDate.value, b.startDate) then BadRequest(END_BEFORE_START)
      else if u.quantityAllocated.value > u.quantityProduced.value then BadRequest(ALLOCATED_EXCEEDS_PRODUCED)
      else Success(table[found.value := Apply(b, u)])
  }

  /** The quantity checks every successful update has passed. */
  ghost predicate QuantitiesAccepted(u: BatchUpdate) {
    && Given(u.quantityAllocated) && Given(u.quantityProduced)
    && u.quantityProduced.value > 0.0
    && u.quantityAllocated.value <= u.quantityProduced.value
  }

  /** `updateById` as written. An absent or zero quantity of either kind is
      refused, so the allocation can never be reset to 0 through it; a
      success has a positive production no smaller than the allocation, and
      changes the one row found and nothing else. Date text for the end
      date is never refused, whatever day it names. */
  function UpdateById(table: seq<StockBatch>, id: int, u: BatchUpdate): (r: Result<seq<StockBatch>>)
    ensures !HasActive(table, id) ==> r == BadRequest(BATCH_NOT_FOUND)
    ensures HasActive(table, id) && !Given(u.quantityAllocated) ==> r == BadRequest(ALLOCATED_REQUIRED)
    ensures HasActive(table, id) && Given(u.quantityAllocated) && !Given(u.quantityProduced) ==>
      r == BadRequest(PRODUCED_REQUIRED)
    ensures r.Success? ==>
      && HasActive(table, id)
      && QuantitiesAccepted(u)
      && |r.value| == |table|
      && (forall j :: 0 <= j < |table| && !(table[j].id == id && table[j].isActive) ==> r.value[j] == table[j])
      && (exists j :: 0 <= j < |table| && table[j].id == id && table[j].isActive && UpdatedRow(table[j], r.value[j], u))
    ensures r.Success? <==>
      && HasActive(table, id)
      && QuantitiesAccepted(u)
      && !(u.endDate.Some? && JsEndBeforeStart(u.endDate.value, table[FindActive(table, id).value].startDate))
    ensures (HasActive(table, id) && QuantitiesAccepted(u) && u.endDate.Some? &&
             JsEndBeforeStart(u.endDate.value, table[FindActive(table, id).value].startDate)) ==>
      r == BadRequest(END_BEFORE_START)
    ensures HasActive(table, id) && QuantitiesAccepted(u) && (u.endDate.None? || (u.endDate.value.DateText? && u.endDate.value.asNumber.NaN?)) ==> r.Success?
  {
    UpdateWith(table, id, u, JsEndBeforeStart)
  }

  /** `updateById` with the end date compared by time: an end date before
      the stored start is refused whatever form it arrives in, so a
      successful update never writes one. */
  function UpdateByIdChecked(table: seq<StockBatch>, id: int, u: BatchUpdate): (r: Result<seq<StockBatch>>)
    ensures r.Success? <==>
      && HasActive(table, id)
      && QuantitiesAccepted(u)
      && (u.endDate.Some? ==> u.endDate.value.ms >= table[FindActive(table, id).value].startDate)
    ensures r.Success? ==>
      && |r.value| == |table|
      && (forall j :: 0 <= j < |table| && !(table[j].id == id && table[j].isActive) ==> r.value[j] == table[j])
      && (exists j :: 0 <= j < |table| && table[j].id == id && table[j].isActive && UpdatedRow(table[j], r.value[j], u))
    ensures (HasActive(table, id) && QuantitiesAccepted(u) && u.endDate.Some? &&
             u.endDate.value.ms < table[FindActive(table, id).value].startDate) ==>
      r == BadRequest(END_BEFORE_START)
  {
    UpdateWith(table, id, u, EndBeforeStartByTime)
  }

  /** Rows whose end is not before their start. */
  predicate DatesOrdered(table: seq<StockBatch>) {
    forall j :: 0 <= j < |table| ==> table[j].startDate <= table[j].endDate
  }

  /** The corrected update keeps every row's dates in order. */
  lemma CheckedUpdateKeepsDatesOrdered(table: seq<StockBatch>, id: int, u: BatchUpdate)
    requires DatesOrdered(table)
    requires UpdateByIdChecked(table, id, u).Success?
    ensures DatesOrdered(UpdateByIdChecked(table, id, u).value)
  {
    var r := UpdateByIdChecked(table, id, u).value;
    var i := FindActive(table, id).value;
    assert r == table[i := Apply(table[i], u)];
  }

  /** The update of a row stored with start day 10 and end day 20. */
  const ExampleTable: seq<StockBatch> := [StockBatch(7, "B7", 1, 100.0, 10.0, 10 * DAY_MS, 20 * DAY_MS, true, 1.0)]

  /** An update that moves the end date to day 1 and arrives as JSON date
      text, which `Number` turns into NaN. */
  const ExampleUpdate: BatchUpdate := BatchUpdate(None, Some(100.0), Some(10.0), Some(DateText(DAY_MS, NaN)), None)

  /** As written, the update above is accepted and stores an end date nine
      days before the start; the corrected update refuses it. */
  lemma TextEndDateBeforeStartIsAccepted()
    ensures UpdateById(ExampleTable, 7, ExampleUpdate).Success?
    ensures !DatesOrdered(UpdateById(ExampleTable, 7, ExampleUpdate).value)
    ensures UpdateByIdChecked(ExampleTable, 7, ExampleUpdate) == BadRequest(END_BEFORE_START)
  {
    assert FindActive(ExampleTable, 7) == Some(0);
    var r := UpdateById(ExampleTable, 7, ExampleUpdate).value;
    assert r[0].endDate == DAY_MS;
  }

  /** Numeric or blank end-date text is compared as a number against the
      stored start's timestamp, so `5` and ` ` are refused as ending before
      the start, whatever day `new Date` makes of them. */
  lemma NumericEndDateTextIsRefused(ms: int, n: JsNumber)
    requires n == Finite(5.0) || n == Finite(0.0)
    ensures UpdateById(ExampleTable, 7, ExampleUpdate.(endDate := Some(DateText(ms, n)))) == BadRequest(END_BEFORE_START)
  {
    assert FindActive(ExampleTable, 7) == Some(0);
  }

  /** A zero allocation is refused before anything else about the payload is
      looked at. */
  lemma ZeroAllocationIsRefused(table: seq<StockBatch>, id: int, u: BatchUpdate)
    requires HasActive(table, id)
    requires u.quantityAllocated == Some(0.0)
    ensures UpdateById(table, id, u) == BadRequest(ALLOCATED_REQUIRED)
    ensures UpdateByIdChecked(table, id, u) == BadRequest(ALLOCATED_REQUIRED)
  {
  }

  // ---------------------------------------------------------------------
  // deleteById
  // ---------------------------------------------------------------------

  /** `deleteById`: the batch must be active and no allocation row may name
      it; the row is then removed and every other row stays, in order. */
  function DeleteById(table: seq<StockBatch>, allocations: seq<Allocation>, id: int): (r: Result<seq<StockBatch>>)
    ensures !HasActive(table, id) ==> r == BadRequest(BATCH_NOT_FOUND)
    ensures HasActive(table, id) && (exists a :: a in allocations && a.batchId == id) ==> r == BadRequest(BATCH_IN_USE)
    ensures r.Success? <==> HasActive(table, id) && forall a :: a in allocations ==> a.batchId != id
    ensures r.Success? ==>
      exists i :: 0 <= i < |table| && table[i].id == id && table[i].isActive
        && (forall j :: 0 <= j < i ==> !(table[j].id == id && table[j].isActive))
        && r.value == table[..i] + table[i + 1..]
        && |r.value| == |table| - 1 && multiset(r.value) + multiset{table[i]} == multiset(table)
  {
    var found := FindActive(table, id);
    if found.None? then BadRequest(BATCH_NOT_FOUND)
    else if exists a :: a in allocations && a.batchId == id then BadRequest(BATCH_IN_USE)
    else
      var i := found.value;
      assert table == table[..i] + [table[i]] + table[i + 1..];
      Success(table[..i] + table[i + 1..])
  }

  /** With ids unique, a deleted batch is gone from the table and every other
      batch is still there. */
  lemma DeleteRemovesOnlyThatBatch(table: seq<StockBatch>, allocations: seq<Allocation>, id: int)
    requires UniqueIds(table)
    requires DeleteById(table, allocations, id).Success?
    ensures forall b :: b in DeleteById(table, allocations, id).value ==> b.id != id
    ensures forall b :: b in table && b.id != id ==> b in DeleteById(table, allocations, id).value
  {
    var i := FindActive(table, id).value;
    assert DeleteById(table, allocations, id).value == table[..i] + table[i + 1..];
    RemoveAtKeepsOthers(table, i);
  }

  /** Taking out row `i` of a table with unique ids removes exactly the rows
      with that id. */
  lemma RemoveAtKeepsOthers(table: seq<StockBatch>, i: nat)
    requires UniqueIds(table) && i < |table|
    ensures forall b :: b in table[..i] + table[i + 1..] ==> b.id != table[i].id
    ensures forall b :: b in table && b.id != table[i].id ==> b in table[..i] + table[i + 1..]
  {
    var r := table[..i] + table[i + 1..];
    forall k | 0 <= k < |r| ensures r[k].id != table[i].id {
      if k < i {
        assert r[k] == table[k];
      } else {
        assert r[k] == table[k + 1];
      }
    }
    forall k | 0 <= k < |table| && k != i ensures table[k] in r {
      if k < i {
        assert r[k] == table[k];
      } else {
        assert r[k - 1] == table[k];
      }
    }
  }

  // ---------------------------------------------------------------------
  // the fetch / count filter
  // ---------------------------------------------------------------------

  /** The filters of `fetch` and `count`. A date bound is `None` when absent
      or empty and otherwise the timestamp `new Date(...)` makes of it. */
  datatype BatchFilters = BatchFilters(
    batchCode: Option<string>,
    productIds: Option<seq<int>>,
    fromStartDate: Option<int>,
    toStartDate: Option<int>,
    fromEndDate: Option<int>,
    toEndDate: Option<int>,
    onlyActive: Option<bool>)

  datatype Bound = AtLeast(ms: int) | AtMost(ms: int)

  /** The `where` object handed to the batch query. */
  datatype BatchWhere = BatchWhere(
    activeOnly: bool,
    codeContains: Option<string>,
    productIn: Option<seq<int>>,
    startDate: Option<Bound>,
    endDate: Option<Bound>)

  /** One date column's condition: `gte` for a lower bound, then `lte` for
      an upper one, the second assignment replacing the first. */
  function DateCondition(from: Option<int>, to: Option<int>): Option<Bound> {
    if to.Some? then Some(AtMost(to.value))
    else if from.Some? then Some(AtLeast(from.value))
    else None
  }

  function BuildWhere(f: BatchFilters): BatchWhere {
    BatchWhere(
      f.onlyActive != Some(false),
      if f.batchCode.Some? && |f.batchCode.value| > 0 then f.batchCode else None,
      if f.productIds.Some? && |f.productIds.value| > 0 then f.productIds else None,
      DateCondition(f.fromStartDate, f.toStartDate),
      DateCondition(f.fromEndDate, f.toEndDate))
  }

  predicate Within(b: Option<Bound>, ms: int) {
    match b
    case None => true
    case Some(AtLeast(lo)) => lo <= ms
    case Some(AtMost(hi)) => ms <= hi
  }

  /** The rows the query returns for a `where` object; the code filter is a
      case-insensitive substring match. */
  predicate Matches(w: BatchWhere, b: StockBatch) {
    && (w.activeOnly ==> b.isActive)
    && (w.codeContains.Some? ==> Contains(ToUpper(b.batchCode), ToUpper(w.codeContains.value)))
    && (w.productIn.Some? ==> b.productId in w.productIn.value)
    && Within(w.startDate, b.startDate)
    && Within(w.endDate, b.endDate)
  }

  /** The range a pair of date filters describes. */
  predicate InRange(from: Option<int>, to: Option<int>, ms: int) {
    (from.Some? ==> from.value <= ms) && (to.Some? ==> ms <= to.value)
  }

  /** With at most one bound per date column, a batch matches exactly when it
      is active (unless `onlyActive` is false), carries the code, belongs to
      one of the products, and has both dates in their ranges. */
  lemma WhereMatchesFiltersWithOneBound(f: BatchFilters, b: StockBatch)
    requires f.fromStartDate.None? || f.toStartDate.None?
    requires f.fromEndDate.None? || f.toEndDate.None?
    ensures Matches(BuildWhere(f), b) <==>
      && (f.onlyActive != Some(false) ==> b.isActive)
      && (f.batchCode.Some? && |f.batchCode.value| > 0 ==> Contains(ToUpper(b.batchCode), ToUpper(f.batchCode.value)))
      && (f.productIds.Some? && |f.productIds.value| > 0 ==> b.productId in f.productIds.value)
      && InRange(f.fromStartDate, f.toStartDate, b.startDate)
      && InRange(f.fromEndDate, f.toEndDate, b.endDate)
  {
  }

  /** With both bounds on a date column only the upper one survives: the
      lower bound has no effect on which batches match. */
  lemma UpperBoundReplacesLowerBound(f: BatchFilters, b: StockBatch)
    requires f.toStartDate.Some? && f.toEndDate.Some?
    ensures Matches(BuildWhere(f), b) == Matches(BuildWhere(f.(fromStartDate := None, fromEndDate := None)), b)
  {
  }

  /** So a batch that starts before `fromStartDate` is still returned. */
  lemma LowerBoundIsLost(f: BatchFilters)
    requires f.onlyActive == Some(false) && f.batchCode.None? && f.productIds.None?
    requires f.fromStartDate == Some(10) && f.toStartDate == Some(20)
    requires f.fromEndDate.None? && f.toEndDate.None?
    ensures Matches(BuildWhere(f), StockBatch(1, "B1", 1, 1.0, 0.0, 5, 30, false, 1.0))
    ensures !InRange(f.fromStartDate, f.toStartDate, 5)
  {
  }
}
