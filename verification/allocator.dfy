/** Step 5 of order placement: `createOrderBatches` and
    `createOrderBatchesForAdmin` (src/services/order.service.ts:127-185 and
    :873-931). Each item walks the batch list in order, taking from each
    batch of its product until its quantity is met; batches are updated in
    place, so a later item of the same product sees what earlier items took.
    The admin variant writes `requiredQuantity = 0` where the cart variant
    writes `requiredQuantity -= requiredQuantity`; both are modelled and shown
    to agree. */
module Allocator {
  import opened Common
  import opened Domain
  import opened Requirement

  /** The updated batch list and the allocation rows pushed, in push order. */
  datatype AllocationResult = AllocationResult(batches: seq<StockBatch>, records: seq<Allocation>)

  /** Total quantity of product `p` over a list of allocation rows. */
  function Allocated(recs: seq<Allocation>, p: int): real {
    if |recs| == 0 then 0.0
    else (if recs[0].productId == p then recs[0].quantity else 0.0) + Allocated(recs[1..], p)
  }

  /** Every row belongs to `orderId`, carries a positive quantity, and names
      a batch of its own product from `bs`. */
  ghost predicate RowsValid(recs: seq<Allocation>, orderId: int, bs: seq<StockBatch>) {
    forall j :: 0 <= j < |recs| ==>
      && recs[j].orderId == orderId
      && recs[j].quantity > 0.0
      && exists k :: 0 <= k < |bs| && bs[k].id == recs[j].batchId && bs[k].productId == recs[j].productId
  }

  /** `b2` is `b` with at most its allocated quantity changed. */
  predicate SameBatchBut(b: StockBatch, b2: StockBatch) {
    b2 == b.(quantityAllocated := b2.quantityAllocated)
  }

  /** The inner loop for one item: scan the batches, stop (`break`) at the
      first batch of the product once nothing is required, otherwise take
      `min(remaining, required)` and push a row when that is positive. */
  function Scan(bs: seq<StockBatch>, orderId: int, productId: int, required: real): AllocationResult
    decreases |bs|
  {
    if |bs| == 0 then AllocationResult([], [])
    else
      var b := bs[0];
      if b.productId == productId && required <= 0.0 then
        AllocationResult(bs, [])
      else if b.productId == productId then
        var take := if b.Remaining() >= required then required else b.Remaining();
        var rest := Scan(bs[1..], orderId, productId, required - take);
        var row := if take > 0.0 then [Allocation(orderId, productId, b.id, take)] else [];
        AllocationResult([b.(quantityAllocated := b.quantityAllocated + take)] + rest.batches, row + rest.records)
      else
        var rest := Scan(bs[1..], orderId, productId, required);
        AllocationResult([b] + rest.batches, rest.records)
  }

  /** One item's pass over the batches (the inner loop of
      `createOrderBatches`), with what it guarantees: only the item's own
      batches change, and only in their allocated quantity, each by what the
      reference `Drawn` says; the rows are exactly the rises, in batch order;
      every row names a batch of the product; well-formed batches stay well
      formed. */
  function AllocateItem(bs: seq<StockBatch>, orderId: int, productId: int, required: real): (r: AllocationResult)
    ensures |r.batches| == |bs|
    ensures forall k :: 0 <= k < |bs| ==> SameBatchBut(bs[k], r.batches[k])
    ensures forall k :: 0 <= k < |bs| && bs[k].productId != productId ==> r.batches[k] == bs[k]
    ensures forall j :: 0 <= j < |r.records| ==> r.records[j].productId == productId
    ensures RowsValid(r.records, orderId, bs)
    ensures AllWellFormed(bs) ==> AllWellFormed(r.batches)
    ensures AllRemainingNonNegative(bs) ==> AllRemainingNonNegative(r.batches)
    ensures AllRemainingNonNegative(bs) && required >= 0.0 ==> DrawnHolds(bs, r.batches, productId, required)
    ensures r.records == IncreaseRows(bs, r.batches, orderId, productId)
  {
    ScanBatches(bs, orderId, productId, required);
    ScanKeepsBounds(bs, orderId, productId, required);
    ScanRows(bs, orderId, productId, required);
    ScanDrawnWhenValid(bs, orderId, productId, required);
    ScanRowsAreRises(bs, orderId, productId, required);
    Scan(bs, orderId, productId, required)
  }

  /** The scan changes only the allocated quantity, and only of the
      product's own batches. */
  lemma {:induction false} ScanBatches(bs: seq<StockBatch>, orderId: int, productId: int, required: real)
    ensures var r := Scan(bs, orderId, productId, required);
      && |r.batches| == |bs|
      && (forall k :: 0 <= k < |bs| ==> SameBatchBut(bs[k], r.batches[k]))
      && (forall k :: 0 <= k < |bs| && bs[k].productId != productId ==> r.batches[k] == bs[k])
    decreases |bs|
  {
    if |bs| > 0 && !(bs[0].productId == productId && required <= 0.0) {
      var b := bs[0];
      var r := Scan(bs, orderId, productId, required);
      var next := if b.productId == productId then required - (if b.Remaining() >= required then required else b.Remaining()) else required;
      var rest := Scan(bs[1..], orderId, productId, next);
      ScanBatches(bs[1..], orderId, productId, next);
      assert r.batches[1..] == rest.batches;
      forall k | 1 <= k < |bs|
        ensures SameBatchBut(bs[k], r.batches[k])
        ensures bs[k].productId != productId ==> r.batches[k] == bs[k]
      {
        assert bs[k] == bs[1..][k - 1] && r.batches[k] == rest.batches[k - 1];
      }
    }
  }

  /** Batch by batch, the scan keeps `0 <= allocated <= produced` and a
      non-negative remaining quantity. */
  lemma {:induction false} ScanKeepsBounds(bs: seq<StockBatch>, orderId: int, productId: int, required: real)
    ensures var r := Scan(bs, orderId, productId, required);
      && |r.batches| == |bs|
      && (forall k :: 0 <= k < |bs| && bs[k].WellFormed() ==> r.batches[k].WellFormed())
      && (forall k :: 0 <= k < |bs| && bs[k].Remaining() >= 0.0 ==> r.batches[k].Remaining() >= 0.0)
    decreases |bs|
  {
    if |bs| > 0 && !(bs[0].productId == productId && required <= 0.0) {
      var b := bs[0];
      var r := Scan(bs, orderId, productId, required);
      var next := if b.productId == productId then required - (if b.Remaining() >= required then required else b.Remaining()) else required;
      var rest := Scan(bs[1..], orderId, productId, next);
      ScanKeepsBounds(bs[1..], orderId, productId, next);
      assert r.batches[1..] == rest.batches;
      forall k | 1 <= k < |bs|
        ensures bs[k].WellFormed() ==> r.batches[k].WellFormed()
        ensures bs[k].Remaining() >= 0.0 ==> r.batches[k].Remaining() >= 0.0
      {
        assert bs[k] == bs[1..][k - 1] && r.batches[k] == rest.batches[k - 1];
      }
    }
  }

  /** Every row the scan pushes is valid and names the product. */
  lemma {:induction false} ScanRows(bs: seq<StockBatch>, orderId: int, productId: int, required: real)
    ensures var r := Scan(bs, orderId, productId, required);
      && (forall j :: 0 <= j < |r.records| ==> r.records[j].productId == productId)
      && RowsValid(r.records, orderId, bs)
    decreases |bs|
  {
    if |bs| > 0 && !(bs[0].productId == productId && required <= 0.0) {
      var b := bs[0];
      if b.productId == productId {
        var take := if b.Remaining() >= required then required else b.Remaining();
        var rest := Scan(bs[1..], orderId, productId, required - take);
        var row := if take > 0.0 then [Allocation(orderId, productId, b.id, take)] else [];
        ScanRows(bs[1..], orderId, productId, required - take);
        RowsValidCons(row, rest.records, orderId, bs);
        assert Scan(bs, orderId, productId, required).records == row + rest.records;
      } else {
        var rest := Scan(bs[1..], orderId, productId, required);
        ScanRows(bs[1..], orderId, productId, required);
        RowsValidCons([], rest.records, orderId, bs);
        assert [] + rest.records == rest.records;
      }
    }
  }

  /** Rows naming the first batch, followed by rows valid for the tail. */
  lemma RowsValidCons(row: seq<Allocation>, recs: seq<Allocation>, orderId: int, bs: seq<StockBatch>)
    requires |bs| > 0
    requires forall j :: 0 <= j < |row| ==>
      row[j].orderId == orderId && row[j].quantity > 0.0 && row[j].batchId == bs[0].id && row[j].productId == bs[0].productId
    requires RowsValid(recs, orderId, bs[1..])
    ensures RowsValid(row + recs, orderId, bs)
  {
    forall j | 0 <= j < |row + recs|
      ensures exists k :: 0 <= k < |bs| && bs[k].id == (row + recs)[j].batchId && bs[k].productId == (row + recs)[j].productId
    {
      if j < |row| {
        assert (row + recs)[j] == row[j];
      } else {
        assert (row + recs)[j] == recs[j - |row|];
        var k :| 0 <= k < |bs[1..]| && bs[1..][k].id == recs[j - |row|].batchId && bs[1..][k].productId == recs[j - |row|].productId;
        assert bs[k + 1] == bs[1..][k];
      }
    }
  }

  lemma {:induction false} AllocatedAppend(a: seq<Allocation>, b: seq<Allocation>, p: int)
    ensures Allocated(a + b, p) == Allocated(a, p) + Allocated(b, p)
  {
    if |a| > 0 {
      assert (a + b)[1..] == a[1..] + b;
      AllocatedAppend(a[1..], b, p);
    } else {
      assert a + b == b;
    }
  }

  lemma {:induction false} AllocatedOfOther(recs: seq<Allocation>, p: int)
    requires forall j :: 0 <= j < |recs| ==> recs[j].productId != p
    ensures Allocated(recs, p) == 0.0
  {
    if |recs| > 0 {
      AllocatedOfOther(recs[1..], p);
    }
  }

  /** Supply is the same for two lists that differ only in batches of other
      products. */
  lemma {:induction false} SupplyOfUntouched(bs: seq<StockBatch>, bs2: seq<StockBatch>, p: int)
    requires |bs2| == |bs|
    requires forall k :: 0 <= k < |bs| ==> SameBatchBut(bs[k], bs2[k])
    requires forall k :: 0 <= k < |bs| && bs[k].productId == p ==> bs2[k] == bs[k]
    ensures Supply(bs2, p) == Supply(bs, p)
  {
    if |bs| > 0 {
      SupplyOfUntouched(bs[1..], bs2[1..], p);
    }
  }

  /** With non-negative remaining quantities and a non-negative requirement,
      one item's pass (the scan `AllocateItem` returns) gives it
      `min(required, supply)` of its product, and the product's supply drops
      by exactly that. */
  lemma AllocateItemTotal(bs: seq<StockBatch>, orderId: int, productId: int, required: real)
    requires AllRemainingNonNegative(bs) && required >= 0.0
    ensures Allocated(Scan(bs, orderId, productId, required).records, productId) == Min(required, Supply(bs, productId))
    ensures Supply(Scan(bs, orderId, productId, required).batches, productId)
            == Supply(bs, productId) - Min(required, Supply(bs, productId))
  {
    ScanTotal(bs, orderId, productId, required);
    assert TotalsHold(bs, orderId, productId, required);
  }

  lemma {:induction false} ScanTotal(bs: seq<StockBatch>, orderId: int, productId: int, required: real)
    requires AllRemainingNonNegative(bs) && required >= 0.0
    ensures TotalsHold(bs, orderId, productId, required)
    decreases |bs|
  {
    if |bs| > 0 {
      var b := bs[0];
      TailRemainingNonNegative(bs);
      if b.productId == productId && required > 0.0 {
        var take := if b.Remaining() >= required then required else b.Remaining();
        ScanTotal(bs[1..], orderId, productId, required - take);
        TotalsAfterTake(bs, orderId, productId, required);
      } else if b.productId != productId {
        ScanTotal(bs[1..], orderId, productId, required);
        TotalsAfterSkip(bs, orderId, productId, required);
      } else {
        assert Scan(bs, orderId, productId, required) == AllocationResult(bs, []);
        SupplyNonNegative(bs, productId);
      }
    }
  }

  /** What the scan of one item gives its product: `min(required, supply)`
      in rows, and that much less supply. */
  predicate TotalsHold(bs: seq<StockBatch>, orderId: int, productId: int, required: real) {
    var r := Scan(bs, orderId, productId, required);
    && Allocated(r.records, productId) == Min(required, Supply(bs, productId))
    && Supply(r.batches, productId) == Supply(bs, productId) - Min(required, Supply(bs, productId))
  }

  lemma TailRemainingNonNegative(bs: seq<StockBatch>)
    requires |bs| > 0 && AllRemainingNonNegative(bs)
    ensures AllRemainingNonNegative(bs[1..]) && bs[0].Remaining() >= 0.0
  {
    var tail := bs[1..];
    forall k | 0 <= k < |tail| ensures tail[k].Remaining() >= 0.0 {
      assert tail[k] == bs[k + 1];
    }
  }

  lemma TotalsAfterTake(bs: seq<StockBatch>, orderId: int, productId: int, required: real)
    requires |bs| > 0 && bs[0].productId == productId && required > 0.0
    requires bs[0].Remaining() >= 0.0 && AllRemainingNonNegative(bs[1..])
    requires var take := if bs[0].Remaining() >= required then required else bs[0].Remaining();
      TotalsHold(bs[1..], orderId, productId, required - take)
    ensures TotalsHold(bs, orderId, productId, required)
  {
    var b := bs[0];
    var take := if b.Remaining() >= required then required else b.Remaining();
    var rest := Scan(bs[1..], orderId, productId, required - take);
    var restSupply := Supply(bs[1..], productId);
    SupplyNonNegative(bs[1..], productId);
    ScanTakes(bs, orderId, productId, required);
    TakeStepTotals(b, orderId, productId, required, restSupply, rest.records, rest.batches);
    assert Supply(bs, productId) == b.Remaining() + restSupply;
  }

  lemma TotalsAfterSkip(bs: seq<StockBatch>, orderId: int, productId: int, required: real)
    requires |bs| > 0 && bs[0].productId != productId
    requires TotalsHold(bs[1..], orderId, productId, required)
    ensures TotalsHold(bs, orderId, productId, required)
  {
    var rest := Scan(bs[1..], orderId, productId, required);
    ScanSkips(bs, orderId, productId, required);
    SupplyCons(bs[0], rest.batches, productId);
    assert Supply(bs, productId) == Supply(bs[1..], productId);
  }

  /** The totals after taking from the first batch, given those of the
      rest of the scan. */
  lemma TakeStepTotals(b: StockBatch, orderId: int, productId: int, required: real, restSupply: real,
                       recs: seq<Allocation>, batches: seq<StockBatch>)
    requires b.productId == productId && b.Remaining() >= 0.0 && required > 0.0 && restSupply >= 0.0
    requires var take := if b.Remaining() >= required then required else b.Remaining();
      && Allocated(recs, productId) == Min(required - take, restSupply)
      && Supply(batches, productId) == restSupply - Min(required - take, restSupply)
    ensures var take := if b.Remaining() >= required then required else b.Remaining();
      var row := if take > 0.0 then [Allocation(orderId, productId, b.id, take)] else [];
      && Allocated(row + recs, productId) == Min(required, b.Remaining() + restSupply)
      && Supply([b.(quantityAllocated := b.quantityAllocated + take)] + batches, productId)
         == (b.Remaining() + restSupply) - Min(required, b.Remaining() + restSupply)
  {
    var remaining := b.Remaining();
    var take := if remaining >= required then required else remaining;
    var row := if take > 0.0 then [Allocation(orderId, productId, b.id, take)] else [];
    var b' := b.(quantityAllocated := b.quantityAllocated + take);
    AllocatedAppend(row, recs, productId);
    assert Allocated(row, productId) == take;
    SupplyCons(b', batches, productId);
    assert b'.Remaining() == remaining - take;
    TakeThenRest(remaining, required, restSupply);
  }

  /** One step of the scan at a batch of the product while something is
      still required. */
  lemma ScanTakes(bs: seq<StockBatch>, orderId: int, productId: int, required: real)
    requires |bs| > 0 && bs[0].productId == productId && required > 0.0
    ensures var b := bs[0];
      var take := if b.Remaining() >= required then required else b.Remaining();
      var rest := Scan(bs[1..], orderId, productId, required - take);
      var row := if take > 0.0 then [Allocation(orderId, productId, b.id, take)] else [];
      Scan(bs, orderId, productId, required)
        == AllocationResult([b.(quantityAllocated := b.quantityAllocated + take)] + rest.batches, row + rest.records)
  {
  }

  /** One step of the scan at a batch of another product. */
  lemma ScanSkips(bs: seq<StockBatch>, orderId: int, productId: int, required: real)
    requires |bs| > 0 && bs[0].productId != productId
    ensures var rest := Scan(bs[1..], orderId, productId, required);
      Scan(bs, orderId, productId, required) == AllocationResult([bs[0]] + rest.batches, rest.records)
  {
  }

  /** The supply of a list with a batch in front. */
  lemma SupplyCons(b: StockBatch, bs: seq<StockBatch>, p: int)
    ensures Supply([b] + bs, p) == (if b.productId == p then b.Remaining() else 0.0) + Supply(bs, p)
  {
    assert ([b] + bs)[1..] == bs;
  }

  /** Taking `min(remaining, required)` from the first batch and then
      `min(what is left, supply)` from the rest takes `min(required, total)`. */
  lemma TakeThenRest(remaining: real, required: real, restSupply: real)
    requires remaining >= 0.0 && required >= 0.0 && restSupply >= 0.0
    ensures var take := if remaining >= required then required else remaining;
      && take + Min(required - take, restSupply) == Min(required, remaining + restSupply)
      && (remaining - take) + (restSupply - Min(required - take, restSupply))
         == (remaining + restSupply) - Min(required, remaining + restSupply)
  {
  }

  /** The outer `forEach`: items in order, each on the batches as the
      previous items left them. */
  function AllocateItems(bs: seq<StockBatch>, orderId: int, items: seq<Item>): (r: AllocationResult)
    ensures |r.batches| == |bs|
    ensures forall k :: 0 <= k < |bs| ==> SameBatchBut(bs[k], r.batches[k])
    ensures forall k :: 0 <= k < |bs| && bs[k].productId !in ProductIds(items) ==> r.batches[k] == bs[k]
    ensures RowsValid(r.records, orderId, bs)
    ensures forall j :: 0 <= j < |r.records| ==> r.records[j].productId in ProductIds(items)
    ensures AllWellFormed(bs) ==> AllWellFormed(r.batches)
    ensures AllRemainingNonNegative(bs) ==> AllRemainingNonNegative(r.batches)
    decreases |items|
  {
    if |items| == 0 then AllocationResult(bs, [])
    else
      var first := AllocateItem(bs, orderId, items[0].productId, items[0].quantity);
      var rest := AllocateItems(first.batches, orderId, items[1..]);
      assert ProductIds(items) == {items[0].productId} + ProductIds(items[1..]) by {
        assert forall it :: it in items <==> it == items[0] || it in items[1..];
      }
      RowsValidAppend(first.records, rest.records, orderId, bs, first.batches);
      AllocationResult(rest.batches, first.records + rest.records)
  }

  /** Rows valid against a batch list stay valid against its updated copy. */
  lemma RowsValidAppend(a: seq<Allocation>, b: seq<Allocation>, orderId: int, bs: seq<StockBatch>, bs2: seq<StockBatch>)
    requires |bs2| == |bs| && forall k :: 0 <= k < |bs| ==> SameBatchBut(bs[k], bs2[k])
    requires RowsValid(a, orderId, bs) && RowsValid(b, orderId, bs2)
    ensures RowsValid(a + b, orderId, bs)
  {
    forall j | 0 <= j < |a + b|
      ensures exists k :: 0 <= k < |bs| && bs[k].id == (a + b)[j].batchId && bs[k].productId == (a + b)[j].productId
    {
      if j < |a| {
        assert (a + b)[j] == a[j];
      } else {
        assert (a + b)[j] == b[j - |a|];
        var k :| 0 <= k < |bs2| && bs2[k].id == b[j - |a|].batchId && bs2[k].productId == b[j - |a|].productId;
        assert SameBatchBut(bs[k], bs2[k]);
      }
    }
  }

  /** What one item does to product `p`: its own product receives
      `min(quantity, supply)`, any other product nothing. */
  lemma ItemEffect(bs: seq<StockBatch>, orderId: int, it: Item, p: int)
    requires AllRemainingNonNegative(bs) && it.quantity >= 0.0
    ensures var first := AllocateItem(bs, orderId, it.productId, it.quantity);
      var got := if it.productId == p then Min(it.quantity, Supply(bs, p)) else 0.0;
      && Allocated(first.records, p) == got
      && Supply(first.batches, p) == Supply(bs, p) - got
  {
    var first := AllocateItem(bs, orderId, it.productId, it.quantity);
    if it.productId == p {
      AllocateItemTotal(bs, orderId, p, it.quantity);
    } else {
      AllocatedOfOther(first.records, p);
      SupplyOfUntouched(bs, first.batches, p);
    }
  }

  /** Taking `min(q, s)` and then `min(d, rest)` takes `min(q + d, s)`. */
  lemma MinSplit(q: real, d: real, s: real)
    requires d >= 0.0 && s >= 0.0
    ensures Min(q, s) + Min(d, s - Min(q, s)) == Min(q + d, s)
  {
  }

  /** With non-negative remaining quantities and item quantities, every
      product receives `min(total ordered, supply)` over all the items, and
      its supply drops by exactly what it received. */
  lemma {:induction false} AllocateItemsTotals(bs: seq<StockBatch>, orderId: int, items: seq<Item>, p: int)
    requires AllRemainingNonNegative(bs)
    requires forall k :: 0 <= k < |items| ==> items[k].quantity >= 0.0
    ensures Allocated(AllocateItems(bs, orderId, items).records, p) == Min(Demand(items, p), Supply(bs, p))
    ensures Supply(AllocateItems(bs, orderId, items).batches, p) == Supply(bs, p) - Min(Demand(items, p), Supply(bs, p))
    decreases |items|
  {
    SupplyNonNegative(bs, p);
    if |items| > 0 {
      var it := items[0];
      var first := AllocateItem(bs, orderId, it.productId, it.quantity);
      var rest := AllocateItems(first.batches, orderId, items[1..]);
      assert AllocateItems(bs, orderId, items) == AllocationResult(rest.batches, first.records + rest.records);
      ItemEffect(bs, orderId, it, p);
      AllocateItemsTotals(first.batches, orderId, items[1..], p);
      AllocatedAppend(first.records, rest.records, p);
      DemandNonNegative(items[1..], p);
      var s, q, d := Supply(bs, p), it.quantity, Demand(items[1..], p);
      assert Demand(items, p) == (if it.productId == p then q else 0.0) + d;
      if it.productId == p {
        MinSplit(q, d, s);
      }
    }
  }

  /** The reference for one greedy pass: what a pass for `demand` units of
      product `p` draws from batch `k` is that batch's remaining stock,
      capped by what the earlier batches of the product left uncovered.
      Batches of other products give nothing. */
  function Drawn(bs: seq<StockBatch>, p: int, demand: real, k: nat): real
    requires k < |bs|
  {
    if bs[k].productId == p then Min(bs[k].Remaining(), Max(0.0, demand - Supply(bs[..k], p))) else 0.0
  }

  /** `bs2` is `bs` after a greedy pass for `demand` units of `p`. */
  predicate DrawnHolds(bs: seq<StockBatch>, bs2: seq<StockBatch>, p: int, demand: real) {
    && |bs2| == |bs|
    && forall k :: 0 <= k < |bs| ==> bs2[k].quantityAllocated == bs[k].quantityAllocated + Drawn(bs, p, demand, k)
  }

  /** The rows a pass leaves, read off the batches alone: one row for each
      batch of the product whose allocated quantity rose, carrying the rise,
      in batch order. */
  function IncreaseRows(bs: seq<StockBatch>, bs2: seq<StockBatch>, orderId: int, p: int): seq<Allocation>
    requires |bs2| == |bs|
    decreases |bs|
  {
    if |bs| == 0 then []
    else
      var rise := bs2[0].quantityAllocated - bs[0].quantityAllocated;
      (if bs[0].productId == p && rise > 0.0 then [Allocation(orderId, p, bs[0].id, rise)] else [])
        + IncreaseRows(bs[1..], bs2[1..], orderId, p)
  }

  lemma PrefixSupplyNonNegative(bs: seq<StockBatch>, n: nat, p: int)
    requires AllRemainingNonNegative(bs) && n <= |bs|
    ensures Supply(bs[..n], p) >= 0.0
  {
    var prefix := bs[..n];
    forall j | 0 <= j < |prefix| ensures prefix[j].Remaining() >= 0.0 {
      assert prefix[j] == bs[j];
    }
    SupplyNonNegative(prefix, p);
  }

  /** A pass for nothing draws nothing. */
  lemma DrawnOfZero(bs: seq<StockBatch>, p: int, k: nat)
    requires AllRemainingNonNegative(bs) && k < |bs|
    ensures Drawn(bs, p, 0.0, k) == 0.0
  {
    PrefixSupplyNonNegative(bs, k, p);
  }

  /** After taking `min(remaining, required)` from the first batch, the rest
      of the pass draws from batch `k` what the whole pass would. */
  lemma DrawnAfterTake(bs: seq<StockBatch>, p: int, required: real, k: nat)
    requires 1 <= k < |bs| && bs[0].productId == p && required > 0.0 && AllRemainingNonNegative(bs)
    ensures var take := if bs[0].Remaining() >= required then required else bs[0].Remaining();
      Drawn(bs[1..], p, required - take, k - 1) == Drawn(bs, p, required, k)
  {
    var tail := bs[1..];
    assert bs[..k] == [bs[0]] + tail[..k - 1];
    assert tail[k - 1] == bs[k];
    SupplyCons(bs[0], tail[..k - 1], p);
    TailRemainingNonNegative(bs);
    PrefixSupplyNonNegative(tail, k - 1, p);
  }

  /** Passing over a batch of another product changes nothing further on. */
  lemma DrawnAfterSkip(bs: seq<StockBatch>, p: int, required: real, k: nat)
    requires 1 <= k < |bs| && bs[0].productId != p
    ensures Drawn(bs[1..], p, required, k - 1) == Drawn(bs, p, required, k)
  {
    var tail := bs[1..];
    assert bs[..k] == [bs[0]] + tail[..k - 1];
    assert tail[k - 1] == bs[k];
    SupplyCons(bs[0], tail[..k - 1], p);
  }

  /** The scan of one item agrees with the reference, batch by batch: the
      earliest batches of the product are drawn on first, each giving all it
      has until the requirement is met. */
  lemma {:induction false} ScanDrawn(bs: seq<StockBatch>, orderId: int, p: int, required: real)
    requires AllRemainingNonNegative(bs) && required >= 0.0
    ensures DrawnHolds(bs, Scan(bs, orderId, p, required).batches, p, required)
    decreases |bs|
  {
    if |bs| > 0 {
      var b := bs[0];
      TailRemainingNonNegative(bs);
      if b.productId == p && required > 0.0 {
        var take := if b.Remaining() >= required then required else b.Remaining();
        ScanDrawn(bs[1..], orderId, p, required - take);
        DrawnTakeStep(bs, orderId, p, required);
      } else if b.productId != p {
        ScanDrawn(bs[1..], orderId, p, required);
        DrawnSkipStep(bs, orderId, p, required);
      } else {
        var r := Scan(bs, orderId, p, required);
        assert r.batches == bs;
        forall k | 0 <= k < |bs|
          ensures r.batches[k].quantityAllocated == bs[k].quantityAllocated + Drawn(bs, p, required, k)
        {
          DrawnOfZero(bs, p, k);
        }
      }
    }
  }

  /** The reference holds for a scan that takes from its first batch when
      it holds for the rest of the scan. */
  lemma DrawnTakeStep(bs: seq<StockBatch>, orderId: int, p: int, required: real)
    requires |bs| > 0 && bs[0].productId == p && required > 0.0 && AllRemainingNonNegative(bs)
    requires var take := if bs[0].Remaining() >= required then required else bs[0].Remaining();
      DrawnHolds(bs[1..], Scan(bs[1..], orderId, p, required - take).batches, p, required - take)
    ensures DrawnHolds(bs, Scan(bs, orderId, p, required).batches, p, required)
  {
    var b := bs[0];
    var take := if b.Remaining() >= required then required else b.Remaining();
    var rest := Scan(bs[1..], orderId, p, required - take);
    var r := Scan(bs, orderId, p, required);
    ScanTakes(bs, orderId, p, required);
    assert r.batches == [b.(quantityAllocated := b.quantityAllocated + take)] + rest.batches;
    forall k | 0 <= k < |bs|
      ensures r.batches[k].quantityAllocated == bs[k].quantityAllocated + Drawn(bs, p, required, k)
    {
      if k == 0 {
        assert bs[..0] == [];
      } else {
        assert r.batches[k] == rest.batches[k - 1] && bs[1..][k - 1] == bs[k];
        DrawnAfterTake(bs, p, required, k);
      }
    }
  }

  /** The reference holds for a scan that passes over its first batch when
      it holds for the rest of the scan. */
  lemma DrawnSkipStep(bs: seq<StockBatch>, orderId: int, p: int, required: real)
    requires |bs| > 0 && bs[0].productId != p
    requires DrawnHolds(bs[1..], Scan(bs[1..], orderId, p, required).batches, p, required)
    ensures DrawnHolds(bs, Scan(bs, orderId, p, required).batches, p, required)
  {
    var rest := Scan(bs[1..], orderId, p, required);
    var r := Scan(bs, orderId, p, required);
    ScanSkips(bs, orderId, p, required);
    assert r.batches == [bs[0]] + rest.batches;
    forall k | 0 <= k < |bs|
      ensures r.batches[k].quantityAllocated == bs[k].quantityAllocated + Drawn(bs, p, required, k)
    {
      if k > 0 {
        assert r.batches[k] == rest.batches[k - 1] && bs[1..][k - 1] == bs[k];
        DrawnAfterSkip(bs, p, required, k);
      }
    }
  }

  lemma ScanDrawnWhenValid(bs: seq<StockBatch>, orderId: int, p: int, required: real)
    ensures AllRemainingNonNegative(bs) && required >= 0.0 ==> DrawnHolds(bs, Scan(bs, orderId, p, required).batches, p, required)
  {
    if AllRemainingNonNegative(bs) && required >= 0.0 {
      ScanDrawn(bs, orderId, p, required);
    }
  }

  lemma {:induction false} IncreaseRowsOfSame(bs: seq<StockBatch>, orderId: int, p: int)
    ensures IncreaseRows(bs, bs, orderId, p) == []
    decreases |bs|
  {
    if |bs| > 0 {
      IncreaseRowsOfSame(bs[1..], orderId, p);
    }
  }

  /** The scan pushes exactly the rows read off its batch updates: one per
      batch whose allocated quantity rose, carrying the rise, in order. */
  lemma {:induction false} ScanRowsAreRises(bs: seq<StockBatch>, orderId: int, p: int, required: real)
    ensures var r := Scan(bs, orderId, p, required);
      |r.batches| == |bs| && r.records == IncreaseRows(bs, r.batches, orderId, p)
    decreases |bs|
  {
    ScanBatches(bs, orderId, p, required);
    if |bs| > 0 {
      var b := bs[0];
      var r := Scan(bs, orderId, p, required);
      if b.productId == p && required <= 0.0 {
        IncreaseRowsOfSame(bs, orderId, p);
      } else if b.productId == p {
        var take := if b.Remaining() >= required then required else b.Remaining();
        ScanTakes(bs, orderId, p, required);
        ScanRowsAreRises(bs[1..], orderId, p, required - take);
        assert r.batches[1..] == Scan(bs[1..], orderId, p, required - take).batches;
        assert r.batches[0].quantityAllocated - b.quantityAllocated == take;
      } else {
        ScanSkips(bs, orderId, p, required);
        ScanRowsAreRises(bs[1..], orderId, p, required);
        assert r.batches[1..] == Scan(bs[1..], orderId, p, required).batches;
        assert r.batches[0] == b;
      }
    }
  }

  /** Drawing `min(rem, max(0, d1 - s))` and then, from what is left and
      with the earlier supply reduced by `min(d1, s)`, drawing for `d2`,
      draws what one pass for `d1 + d2` would. */
  lemma DrawnTwice(rem: real, s: real, d1: real, d2: real)
    requires rem >= 0.0 && s >= 0.0 && d1 >= 0.0 && d2 >= 0.0
    ensures var t1 := Min(rem, Max(0.0, d1 - s));
      t1 + Min(rem - t1, Max(0.0, d2 - (s - Min(d1, s)))) == Min(rem, Max(0.0, d1 + d2 - s))
  {
  }

  /** The supply left in front of a batch after a pass, one batch more. */
  lemma DrawnSupplyStep(rem: real, s: real, d: real)
    requires rem >= 0.0 && s >= 0.0 && d >= 0.0
    ensures (s - Min(d, s)) + (rem - Min(rem, Max(0.0, d - s))) == (s + rem) - Min(d, s + rem)
  {
  }

  /** After a pass for `d` units, the batches in front of position `n` hold
      `min(d, their supply)` less of the product. */
  lemma {:induction false} PrefixSupplyAfterDraw(bs: seq<StockBatch>, bs2: seq<StockBatch>, p: int, d: real, n: nat)
    requires AllRemainingNonNegative(bs) && d >= 0.0 && n <= |bs|
    requires DrawnHolds(bs, bs2, p, d)
    requires forall k :: 0 <= k < |bs| ==> SameBatchBut(bs[k], bs2[k])
    ensures Supply(bs2[..n], p) == Supply(bs[..n], p) - Min(d, Supply(bs[..n], p))
    decreases n
  {
    if n == 0 {
      assert bs[..0] == [] && bs2[..0] == [];
    } else {
      PrefixSupplyAfterDraw(bs, bs2, p, d, n - 1);
      assert bs[..n] == bs[..n - 1] + [bs[n - 1]];
      assert bs2[..n] == bs2[..n - 1] + [bs2[n - 1]];
      SupplySnoc(bs[..n - 1], bs[n - 1], p);
      SupplySnoc(bs2[..n - 1], bs2[n - 1], p);
      PrefixSupplyNonNegative(bs, n - 1, p);
      assert SameBatchBut(bs[n - 1], bs2[n - 1]);
      if bs[n - 1].productId == p {
        DrawnSupplyStep(bs[n - 1].Remaining(), Supply(bs[..n - 1], p), d);
      }
    }
  }

  /** One item's pass followed by a pass for `d2` units of `P` draws from a
      batch of `P` what a single pass for their combined demand would. */
  lemma DrawnCompose(bs: seq<StockBatch>, bs1: seq<StockBatch>, q: int, d1: real, d2: real, k: nat)
    requires AllRemainingNonNegative(bs) && d1 >= 0.0 && d2 >= 0.0 && k < |bs|
    requires DrawnHolds(bs, bs1, q, d1)
    requires forall j :: 0 <= j < |bs| ==> SameBatchBut(bs[j], bs1[j])
    ensures var P := bs[k].productId;
      bs1[k].quantityAllocated + Drawn(bs1, P, d2, k)
        == bs[k].quantityAllocated + Drawn(bs, P, (if q == P then d1 else 0.0) + d2, k)
  {
    var P := bs[k].productId;
    assert SameBatchBut(bs[k], bs1[k]);
    if q == P {
      PrefixSupplyAfterDraw(bs, bs1, P, d1, k);
      PrefixSupplyNonNegative(bs, k, P);
      DrawnTwice(bs[k].Remaining(), Supply(bs[..k], P), d1, d2);
    } else {
      forall j | 0 <= j < k && bs[..k][j].productId == P ensures bs1[..k][j] == bs[..k][j] {
        assert SameBatchBut(bs[j], bs1[j]);
      }
      forall j | 0 <= j < k ensures SameBatchBut(bs[..k][j], bs1[..k][j]) {
        assert SameBatchBut(bs[j], bs1[j]);
      }
      SupplyOfUntouched(bs[..k], bs1[..k], P);
      assert bs1[k] == bs[k];
    }
  }

  /** `bs2` is `bs` after greedy passes for the total demand of `items`,
      product by product. */
  predicate ItemsDrawnHolds(bs: seq<StockBatch>, bs2: seq<StockBatch>, items: seq<Item>) {
    && |bs2| == |bs|
    && forall k :: 0 <= k < |bs| ==>
         bs2[k].quantityAllocated == bs[k].quantityAllocated + Drawn(bs, bs[k].productId, Demand(items, bs[k].productId), k)
  }

  /** Over the whole item list, every batch ends up with what one greedy
      pass for its product's total demand would draw from it: items of the
      same product continue where the earlier ones stopped, so the earliest
      batches are drawn on first whatever the split into items. */
  lemma {:induction false} AllocateItemsDrawn(bs: seq<StockBatch>, orderId: int, items: seq<Item>)
    requires AllRemainingNonNegative(bs)
    requires forall k :: 0 <= k < |items| ==> items[k].quantity >= 0.0
    ensures var r := AllocateItems(bs, orderId, items);
      forall k :: 0 <= k < |bs| ==>
        r.batches[k].quantityAllocated == bs[k].quantityAllocated + Drawn(bs, bs[k].productId, Demand(items, bs[k].productId), k)
    decreases |items|
  {
    var r := AllocateItems(bs, orderId, items);
    if |items| == 0 {
      forall k | 0 <= k < |bs|
        ensures r.batches[k].quantityAllocated == bs[k].quantityAllocated + Drawn(bs, bs[k].productId, Demand(items, bs[k].productId), k)
      {
        DrawnOfZero(bs, bs[k].productId, k);
      }
    } else {
      var it := items[0];
      var first := AllocateItem(bs, orderId, it.productId, it.quantity);
      var rest := AllocateItems(first.batches, orderId, items[1..]);
      assert r.batches == rest.batches;
      AllocateItemsDrawn(first.batches, orderId, items[1..]);
      ItemsDrawnStep(bs, first.batches, rest.batches, items);
    }
  }

  /** The first item's pass followed by the passes of the rest of the list
      draws what passes for the whole list's demand would. */
  lemma ItemsDrawnStep(bs: seq<StockBatch>, bs1: seq<StockBatch>, bs2: seq<StockBatch>, items: seq<Item>)
    requires |items| > 0 && AllRemainingNonNegative(bs)
    requires forall k :: 0 <= k < |items| ==> items[k].quantity >= 0.0
    requires DrawnHolds(bs, bs1, items[0].productId, items[0].quantity)
    requires forall j :: 0 <= j < |bs| ==> SameBatchBut(bs[j], bs1[j])
    requires ItemsDrawnHolds(bs1, bs2, items[1..])
    ensures ItemsDrawnHolds(bs, bs2, items)
  {
    var it := items[0];
    forall k | 0 <= k < |bs|
      ensures bs2[k].quantityAllocated == bs[k].quantityAllocated + Drawn(bs, bs[k].productId, Demand(items, bs[k].productId), k)
    {
      var P := bs[k].productId;
      assert SameBatchBut(bs[k], bs1[k]);
      DemandNonNegative(items[1..], P);
      assert Demand(items, P) == (if it.productId == P then it.quantity else 0.0) + Demand(items[1..], P);
      DrawnCompose(bs, bs1, it.productId, it.quantity, Demand(items[1..], P), k);
    }
  }

  /** The inner loop of `createOrderBatchesForAdmin`, which clears the
      requirement with `requiredQuantity = 0` once a batch covers it. */
  function AllocateItemForAdmin(bs: seq<StockBatch>, orderId: int, productId: int, required: real): AllocationResult
    decreases |bs|
  {
    if |bs| == 0 then AllocationResult([], [])
    else
      var b := bs[0];
      if b.productId == productId && required <= 0.0 then
        AllocationResult(bs, [])
      else if b.productId == productId then
        var remaining := b.Remaining();
        var covered := remaining >= required;
        var take := if covered then required else remaining;
        var rest := AllocateItemForAdmin(bs[1..], orderId, productId, if covered then 0.0 else required - remaining);
        var row := if take > 0.0 then [Allocation(orderId, productId, b.id, take)] else [];
        AllocationResult([b.(quantityAllocated := b.quantityAllocated + take)] + rest.batches, row + rest.records)
      else
        var rest := AllocateItemForAdmin(bs[1..], orderId, productId, required);
        AllocationResult([b] + rest.batches, rest.records)
  }

  /** The outer `forEach` of `createOrderBatchesForAdmin`. */
  function AllocateItemsForAdmin(bs: seq<StockBatch>, orderId: int, items: seq<Item>): AllocationResult
    decreases |items|
  {
    if |items| == 0 then AllocationResult(bs, [])
    else
      var first := AllocateItemForAdmin(bs, orderId, items[0].productId, items[0].quantity);
      var rest := AllocateItemsForAdmin(first.batches, orderId, items[1..]);
      AllocationResult(rest.batches, first.records + rest.records)
  }

  /** The admin inner loop, which clears the requirement outright, computes
      the same as the cart's, which subtracts it. */
  lemma AdminItemMatchesCartItem(bs: seq<StockBatch>, orderId: int, productId: int, required: real)
    ensures AllocateItemForAdmin(bs, orderId, productId, required) == AllocateItem(bs, orderId, productId, required)
  {
    AdminScanMatches(bs, orderId, productId, required);
  }

  lemma {:induction false} AdminScanMatches(bs: seq<StockBatch>, orderId: int, productId: int, required: real)
    ensures AllocateItemForAdmin(bs, orderId, productId, required) == Scan(bs, orderId, productId, required)
    decreases |bs|
  {
    if |bs| > 0 {
      var b := bs[0];
      if b.productId == productId && required > 0.0 {
        var remaining := b.Remaining();
        var covered := remaining >= required;
        var take := if covered then required else remaining;
        var next := if covered then 0.0 else required - remaining;
        assert next == required - take;
        AdminScanMatches(bs[1..], orderId, productId, next);
      } else if b.productId != productId {
        AdminScanMatches(bs[1..], orderId, productId, required);
      }
    }
  }

  /** The admin allocation produces the same rows and batch states as the
      cart allocation for the same item list. */
  lemma {:induction false} AdminAllocationMatchesCart(bs: seq<StockBatch>, orderId: int, items: seq<Item>)
    ensures AllocateItemsForAdmin(bs, orderId, items) == AllocateItems(bs, orderId, items)
    decreases |items|
  {
    if |items| > 0 {
      AdminItemMatchesCartItem(bs, orderId, items[0].productId, items[0].quantity);
      var first := AllocateItem(bs, orderId, items[0].productId, items[0].quantity);
      AdminAllocationMatchesCart(first.batches, orderId, items[1..]);
    }
  }
}
