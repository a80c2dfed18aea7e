/** Step 3 of order placement: `getEarliestDeliveryDate`
    (src/services/order.service.ts:187-236). Batches are scanned in list
    order; each product accumulates its remaining stock, split into
    "in time" and "later" by the requested deadline, and once the running
    total reaches the product's requirement the batch's delivery candidate
    (`end_date + SHIPPING_TIME` days) feeds the product's minimum date, which
    is then also written to the single result variable. */
module Delivery {
  import opened Common
  import opened Domain
  import opened Requirement

  /** The per-product entry of `stockAvailabilityResults`. */
  datatype ProductAvailability = ProductAvailability(inTime: real, later: real, minDate: Option<int>)

  /** The loop state: the entry map and `earliestDeliveryDate`. */
  datatype ScanState = ScanState(entries: map<int, ProductAvailability>, earliest: Option<int>)

  /** `moment(end_date).add(SHIPPING_TIME, 'days')` on millisecond timestamps. */
  function Candidate(b: StockBatch): int { b.endDate + SHIPPING_LEAD_MS }

  /** `quantityRequirement.get(productId)` is truthy: present and non-zero. */
  predicate Requested(req: map<int, real>, p: int) { p in req && req[p] != 0.0 }

  /** The product's entry once the batch's remaining stock is counted, in
      time or later depending on its delivery candidate. */
  function Counted(st: ScanState, b: StockBatch, maxDate: int): ProductAvailability {
    var entry := if b.productId in st.entries then st.entries[b.productId] else ProductAvailability(0.0, 0.0, None);
    if Candidate(b) <= maxDate then entry.(inTime := entry.inTime + b.Remaining())
    else entry.(later := entry.later + b.Remaining())
  }

  /** The batch's product is requested and its counted stock now meets the
      requirement. */
  predicate Hits(st: ScanState, b: StockBatch, req: map<int, real>, maxDate: int) {
    var c := Counted(st, b, maxDate);
    Requested(req, b.productId) && c.inTime + c.later >= req[b.productId]
  }

  /** The entry's minimum date with one more candidate. */
  function NewMin(md: Option<int>, candidate: int): int {
    match md
    case None => candidate
    case Some(d) => if d <= candidate then d else candidate
  }

  /** One turn of the loop over the batches. */
  function ScanStep(st: ScanState, b: StockBatch, req: map<int, real>, maxDate: int): ScanState {
    var counted := Counted(st, b, maxDate);
    if Hits(st, b, req, maxDate) then
      var newMin := NewMin(counted.minDate, Candidate(b));
      ScanState(st.entries[b.productId := counted.(minDate := Some(newMin))], Some(newMin))
    else
      ScanState(st.entries[b.productId := counted], st.earliest)
  }

  /** The state after scanning the batches in order. */
  function ScanBatches(bs: seq<StockBatch>, req: map<int, real>, maxDate: int): ScanState
    decreases |bs|
  {
    if |bs| == 0 then ScanState(map[], None)
    else ScanStep(ScanBatches(bs[..|bs| - 1], req, maxDate), bs[|bs| - 1], req, maxDate)
  }

  /** `getEarliestDeliveryDate`: the last value written to `earliestDeliveryDate`,
      or null. It is null exactly when no batch ever meets its product's
      requirement, and otherwise it is the minimum delivery candidate of the
      product of the last batch that did. */
  function GetEarliestDeliveryDate(bs: seq<StockBatch>, req: map<int, real>, maxDate: int): (r: Option<int>)
    ensures r.None? <==> forall k :: !Qualifies(bs, req, k)
    ensures LastQualifying(bs, req).Some? ==> MinDateSpec(bs, req, bs[LastQualifying(bs, req).value].productId, r)
  {
    var st := ScanBatches(bs, req, maxDate);
    ScanBatchesInvariant(bs, req, maxDate);
    match LastQualifying(bs, req)
    case None => st.earliest
    case Some(k) =>
      assert MinDateSpec(bs, req, bs[k].productId, st.entries[bs[k].productId].minDate);
      st.earliest
  }

  // ---------------------------------------------------------------------
  // A deadline-free description of the scan.

  /** Batch `k` is one at which its product is requested and the product's
      cumulative remaining stock up to and including batch `k` meets the
      requirement. */
  predicate Qualifies(bs: seq<StockBatch>, req: map<int, real>, k: int) {
    0 <= k < |bs| && Requested(req, bs[k].productId)
    && Supply(bs[..k + 1], bs[k].productId) >= req[bs[k].productId]
  }

  /** `md` is the minimum delivery candidate over the qualifying batches of
      product `p`, and absent when none qualifies. */
  ghost predicate MinDateSpec(bs: seq<StockBatch>, req: map<int, real>, p: int, md: Option<int>) {
    match md
    case None => forall k :: Qualifies(bs, req, k) ==> bs[k].productId != p
    case Some(d) =>
      (exists k :: Qualifies(bs, req, k) && bs[k].productId == p && d == Candidate(bs[k]))
      && (forall k :: Qualifies(bs, req, k) && bs[k].productId == p ==> d <= Candidate(bs[k]))
  }

  /** The index of the last qualifying batch, if any. */
  function LastQualifying(bs: seq<StockBatch>, req: map<int, real>): (r: Option<nat>)
    ensures r.None? <==> forall k :: !Qualifies(bs, req, k)
    ensures r.Some? ==> Qualifies(bs, req, r.value)
    ensures r.Some? ==> forall j :: r.value < j ==> !Qualifies(bs, req, j)
    decreases |bs|
  {
    if |bs| == 0 then None
    else if Qualifies(bs, req, |bs| - 1) then Some(|bs| - 1)
    else
      var pre := bs[..|bs| - 1];
      QualifiesOnPrefix(bs, |bs| - 1, req);
      LastQualifying(pre, req)
  }

  lemma QualifiesOnPrefix(bs: seq<StockBatch>, n: nat, req: map<int, real>)
    requires n <= |bs|
    ensures forall k :: 0 <= k < n ==> (Qualifies(bs[..n], req, k) <==> Qualifies(bs, req, k))
  {
    forall k | 0 <= k < n ensures Qualifies(bs[..n], req, k) <==> Qualifies(bs, req, k) {
      assert bs[..n][..k + 1] == bs[..k + 1];
    }
  }

  /** Every scanned batch's product has an entry. */
  ghost predicate Covers(bs: seq<StockBatch>, st: ScanState) {
    forall k :: 0 <= k < |bs| ==> bs[k].productId in st.entries
  }

  /** Each entry's in-time and later quantities add up to the product's
      remaining stock over the scanned batches. */
  ghost predicate Totals(bs: seq<StockBatch>, st: ScanState) {
    forall p :: p in st.entries ==> st.entries[p].inTime + st.entries[p].later == Supply(bs, p)
  }

  /** Each entry's minimum date is the one its qualifying batches give. */
  ghost predicate MinDates(bs: seq<StockBatch>, req: map<int, real>, st: ScanState) {
    forall p :: p in st.entries ==> MinDateSpec(bs, req, p, st.entries[p].minDate)
  }

  /** The result variable holds the minimum date of the product of the last
      qualifying batch, and nothing if none qualified. */
  ghost predicate EarliestIsLast(bs: seq<StockBatch>, req: map<int, real>, st: ScanState) {
    match LastQualifying(bs, req)
    case None => st.earliest.None?
    case Some(k) => bs[k].productId in st.entries && st.earliest == st.entries[bs[k].productId].minDate
  }

  /** What the loop keeps after each batch. */
  ghost predicate ScanInvariant(bs: seq<StockBatch>, req: map<int, real>, st: ScanState) {
    Covers(bs, st) && Totals(bs, st) && MinDates(bs, req, st) && EarliestIsLast(bs, req, st)
  }

  lemma {:induction false} SupplyOfAbsent(bs: seq<StockBatch>, p: int)
    requires forall k :: 0 <= k < |bs| ==> bs[k].productId != p
    ensures Supply(bs, p) == 0.0
  {
    if |bs| > 0 {
      assert forall k :: 0 <= k < |bs[1..]| ==> bs[1..][k] == bs[k + 1];
      SupplyOfAbsent(bs[1..], p);
    }
  }

  /** Qualification of the batches already scanned is unaffected by appending one. */
  lemma QualifiesSnoc(bs: seq<StockBatch>, b: StockBatch, req: map<int, real>)
    ensures forall k :: 0 <= k < |bs| ==> (Qualifies(bs + [b], req, k) <==> Qualifies(bs, req, k))
    ensures Qualifies(bs + [b], req, |bs|) <==>
      Requested(req, b.productId) && Supply(bs + [b], b.productId) >= req[b.productId]
    ensures !Qualifies(bs, req, |bs|)
  {
    var bs' := bs + [b];
    assert bs'[..|bs|] == bs;
    QualifiesOnPrefix(bs', |bs|, req);
    assert bs'[..|bs| + 1] == bs';
  }

  lemma MinDateStepSame(bs: seq<StockBatch>, b: StockBatch, req: map<int, real>, p: int, md: Option<int>)
    requires MinDateSpec(bs, req, p, md)
    requires b.productId != p || !Qualifies(bs + [b], req, |bs|)
    ensures MinDateSpec(bs + [b], req, p, md)
  {
    QualifiesSnoc(bs, b, req);
    var bs' := bs + [b];
    assert forall k :: 0 <= k < |bs| ==> bs'[k] == bs[k];
    match md
    case None =>
    case Some(d) =>
      var k :| Qualifies(bs, req, k) && bs[k].productId == p && d == Candidate(bs[k]);
      assert Qualifies(bs', req, k);
  }

  lemma MinDateStepNew(bs: seq<StockBatch>, b: StockBatch, req: map<int, real>, md: Option<int>, newMin: int)
    requires MinDateSpec(bs, req, b.productId, md)
    requires Qualifies(bs + [b], req, |bs|)
    requires newMin == match md case None => Candidate(b) case Some(d) => if d <= Candidate(b) then d else Candidate(b)
    ensures MinDateSpec(bs + [b], req, b.productId, Some(newMin))
  {
    QualifiesSnoc(bs, b, req);
    var bs' := bs + [b];
    var p := b.productId;
    assert bs'[|bs|] == b;
    assert forall k :: 0 <= k < |bs| ==> bs'[k] == bs[k];
    match md
    case None =>
    case Some(d) =>
      var k :| Qualifies(bs, req, k) && bs[k].productId == p && d == Candidate(bs[k]);
      assert Qualifies(bs', req, k);
  }

  lemma ScanStepKeepsInvariant(bs: seq<StockBatch>, b: StockBatch, req: map<int, real>, maxDate: int, st: ScanState)
    requires ScanInvariant(bs, req, st)
    ensures ScanInvariant(bs + [b], req, ScanStep(st, b, req, maxDate))
  {
    StepCovers(bs, b, req, maxDate, st);
    StepTotals(bs, b, req, maxDate, st);
    StepHitsIff(bs, b, req, maxDate, st);
    StepMinDates(bs, b, req, maxDate, st);
    StepEarliest(bs, b, req, maxDate, st);
  }

  lemma StepCovers(bs: seq<StockBatch>, b: StockBatch, req: map<int, real>, maxDate: int, st: ScanState)
    requires Covers(bs, st)
    ensures Covers(bs + [b], ScanStep(st, b, req, maxDate))
  {
    var bs' := bs + [b];
    var st' := ScanStep(st, b, req, maxDate);
    forall k | 0 <= k < |bs'| ensures bs'[k].productId in st'.entries {
      if k < |bs| {
        assert bs'[k] == bs[k];
      } else {
        assert bs'[k] == b;
      }
    }
  }

  /** The counted entry of the batch's product totals its remaining stock
      over the scanned batches and this one. */
  lemma StepCountedTotal(bs: seq<StockBatch>, b: StockBatch, maxDate: int, st: ScanState)
    requires Covers(bs, st) && Totals(bs, st)
    ensures Counted(st, b, maxDate).inTime + Counted(st, b, maxDate).later == Supply(bs + [b], b.productId)
  {
    SupplySnoc(bs, b, b.productId);
    if b.productId !in st.entries {
      SupplyOfAbsent(bs, b.productId);
    }
  }

  lemma StepTotals(bs: seq<StockBatch>, b: StockBatch, req: map<int, real>, maxDate: int, st: ScanState)
    requires Covers(bs, st) && Totals(bs, st)
    ensures Totals(bs + [b], ScanStep(st, b, req, maxDate))
  {
    var st' := ScanStep(st, b, req, maxDate);
    StepCountedTotal(bs, b, maxDate, st);
    forall q | q in st'.entries
      ensures st'.entries[q].inTime + st'.entries[q].later == Supply(bs + [b], q)
    {
      SupplySnoc(bs, b, q);
      if q != b.productId {
        assert st'.entries[q] == st.entries[q];
      }
    }
  }

  /** The loop's threshold test is exactly qualification of the new batch. */
  lemma StepHitsIff(bs: seq<StockBatch>, b: StockBatch, req: map<int, real>, maxDate: int, st: ScanState)
    requires Covers(bs, st) && Totals(bs, st)
    ensures Hits(st, b, req, maxDate) <==> Qualifies(bs + [b], req, |bs|)
  {
    StepCountedTotal(bs, b, maxDate, st);
    QualifiesSnoc(bs, b, req);
  }

  lemma StepMinDates(bs: seq<StockBatch>, b: StockBatch, req: map<int, real>, maxDate: int, st: ScanState)
    requires Covers(bs, st) && MinDates(bs, req, st)
    requires Hits(st, b, req, maxDate) <==> Qualifies(bs + [b], req, |bs|)
    ensures MinDates(bs + [b], req, ScanStep(st, b, req, maxDate))
  {
    var st' := ScanStep(st, b, req, maxDate);
    var p := b.productId;
    var md := Counted(st, b, maxDate).minDate;
    assert MinDateSpec(bs, req, p, md) by {
      if p !in st.entries {
        assert forall k :: Qualifies(bs, req, k) ==> bs[k].productId != p;
      }
    }
    forall q | q in st'.entries ensures MinDateSpec(bs + [b], req, q, st'.entries[q].minDate) {
      if q != p {
        MinDateStepSame(bs, b, req, q, st.entries[q].minDate);
      } else if Hits(st, b, req, maxDate) {
        MinDateStepNew(bs, b, req, md, NewMin(md, Candidate(b)));
      } else {
        MinDateStepSame(bs, b, req, p, md);
      }
    }
  }

  lemma StepEarliest(bs: seq<StockBatch>, b: StockBatch, req: map<int, real>, maxDate: int, st: ScanState)
    requires Covers(bs, st) && EarliestIsLast(bs, req, st)
    requires Hits(st, b, req, maxDate) <==> Qualifies(bs + [b], req, |bs|)
    ensures EarliestIsLast(bs + [b], req, ScanStep(st, b, req, maxDate))
  {
    var bs' := bs + [b];
    QualifiesSnoc(bs, b, req);
    assert bs'[..|bs'| - 1] == bs;
    if Qualifies(bs', req, |bs|) {
      assert LastQualifying(bs', req) == Some(|bs|);
      assert bs'[|bs|] == b;
    } else {
      assert LastQualifying(bs', req) == LastQualifying(bs, req);
      match LastQualifying(bs, req)
      case None =>
      case Some(k) =>
        assert bs'[k] == bs[k];
    }
  }

  lemma {:induction false} ScanBatchesInvariant(bs: seq<StockBatch>, req: map<int, real>, maxDate: int)
    ensures ScanInvariant(bs, req, ScanBatches(bs, req, maxDate))
    decreases |bs|
  {
    if |bs| > 0 {
      var pre := bs[..|bs| - 1];
      ScanBatchesInvariant(pre, req, maxDate);
      assert pre + [bs[|bs| - 1]] == bs;
      ScanStepKeepsInvariant(pre, bs[|bs| - 1], req, maxDate, ScanBatches(pre, req, maxDate));
    }
  }

  lemma MinDateSpecUnique(bs: seq<StockBatch>, req: map<int, real>, p: int, md1: Option<int>, md2: Option<int>)
    requires MinDateSpec(bs, req, p, md1) && MinDateSpec(bs, req, p, md2)
    ensures md1 == md2
  {
    if md1.Some? {
      var k1 :| Qualifies(bs, req, k1) && bs[k1].productId == p && md1.value == Candidate(bs[k1]);
      assert md2.Some?;
      var k2 :| Qualifies(bs, req, k2) && bs[k2].productId == p && md2.value == Candidate(bs[k2]);
      assert md1.value <= Candidate(bs[k2]) && md2.value <= Candidate(bs[k1]);
      assert md1.value == md2.value;
    }
  }

  /** The scan's entry for the product of a scanned batch, and the minimum
      date it holds. */
  lemma ScannedEntry(bs: seq<StockBatch>, req: map<int, real>, maxDate: int, k: nat)
    requires k < |bs|
    ensures bs[k].productId in ScanBatches(bs, req, maxDate).entries
    ensures MinDateSpec(bs, req, bs[k].productId, ScanBatches(bs, req, maxDate).entries[bs[k].productId].minDate)
  {
    ScanBatchesInvariant(bs, req, maxDate);
  }

  // ---------------------------------------------------------------------
  // Properties of the estimator.

  /** The per-product running total is the product's whole remaining stock
      over the scanned batches, whatever the deadline did to the in-time /
      later split. */
  lemma SplitSumsToSupply(bs: seq<StockBatch>, req: map<int, real>, maxDate: int, p: int)
    requires exists k :: 0 <= k < |bs| && bs[k].productId == p
    ensures p in ScanBatches(bs, req, maxDate).entries
    ensures ScanBatches(bs, req, maxDate).entries[p].inTime + ScanBatches(bs, req, maxDate).entries[p].later
            == Supply(bs, p)
  {
    ScanBatchesInvariant(bs, req, maxDate);
  }

  /** The estimate does not depend on the requested deadline: the deadline
      only decides the in-time / later split, which is used only through its
      sum. */
  lemma EstimateIgnoresDeadline(bs: seq<StockBatch>, req: map<int, real>, maxDate1: int, maxDate2: int)
    ensures GetEarliestDeliveryDate(bs, req, maxDate1) == GetEarliestDeliveryDate(bs, req, maxDate2)
  {
    var st1 := ScanBatches(bs, req, maxDate1);
    var st2 := ScanBatches(bs, req, maxDate2);
    ScanBatchesInvariant(bs, req, maxDate1);
    ScanBatchesInvariant(bs, req, maxDate2);
    match LastQualifying(bs, req)
    case None =>
    case Some(k) =>
      var p := bs[k].productId;
      MinDateSpecUnique(bs, req, p, st1.entries[p].minDate, st2.entries[p].minDate);
  }

  /** The result is null exactly when no requested product ever reaches its
      requirement; otherwise it is the minimum date of the product whose
      batch was the last one to meet its threshold (the value is overwritten
      on every qualifying batch, so it is not a maximum over products). */
  lemma EstimateIsLastWrittenMinDate(bs: seq<StockBatch>, req: map<int, real>, maxDate: int)
    ensures GetEarliestDeliveryDate(bs, req, maxDate).None? <==> forall k :: !Qualifies(bs, req, k)
    ensures forall k :: Qualifies(bs, req, k) && (forall j :: k < j ==> !Qualifies(bs, req, j)) ==>
      var p := bs[k].productId;
      p in ScanBatches(bs, req, maxDate).entries
      && GetEarliestDeliveryDate(bs, req, maxDate) == ScanBatches(bs, req, maxDate).entries[p].minDate
      && MinDateSpec(bs, req, p, GetEarliestDeliveryDate(bs, req, maxDate))
  {
    ScanBatchesInvariant(bs, req, maxDate);
    var st := ScanBatches(bs, req, maxDate);
    match LastQualifying(bs, req)
    case None =>
    case Some(k) =>
      assert st.earliest.Some? by {
        assert MinDateSpec(bs, req, bs[k].productId, st.entries[bs[k].productId].minDate);
      }
      forall k' | Qualifies(bs, req, k') && (forall j :: k' < j ==> !Qualifies(bs, req, j))
        ensures k' == k
      {
        assert Qualifies(bs, req, k) && Qualifies(bs, req, k');
      }
  }

  /** On batches sorted by end date, a product's minimum date is the delivery
      candidate of the first batch at which its cumulative stock reaches the
      requirement. */
  lemma MinDateIsFirstCrossing(bs: seq<StockBatch>, req: map<int, real>, maxDate: int, k0: nat)
    requires SortedByEndDate(bs)
    requires Qualifies(bs, req, k0)
    requires forall j :: j < k0 && Qualifies(bs, req, j) ==> bs[j].productId != bs[k0].productId
    ensures bs[k0].productId in ScanBatches(bs, req, maxDate).entries
    ensures ScanBatches(bs, req, maxDate).entries[bs[k0].productId].minDate == Some(Candidate(bs[k0]))
  {
    ScannedEntry(bs, req, maxDate, k0);
    FirstCrossingIsMin(bs, req, k0, ScanBatches(bs, req, maxDate).entries[bs[k0].productId].minDate);
  }

  lemma FirstCrossingIsMin(bs: seq<StockBatch>, req: map<int, real>, k0: nat, md: Option<int>)
    requires SortedByEndDate(bs)
    requires Qualifies(bs, req, k0)
    requires forall j :: j < k0 && Qualifies(bs, req, j) ==> bs[j].productId != bs[k0].productId
    requires MinDateSpec(bs, req, bs[k0].productId, md)
    ensures md == Some(Candidate(bs[k0]))
  {
    var p := bs[k0].productId;
    assert md.Some?;
    var k :| Qualifies(bs, req, k) && bs[k].productId == p && md.value == Candidate(bs[k]);
    assert md.value <= Candidate(bs[k0]);
    assert k0 <= k;
    if k0 < k {
      assert bs[k0].endDate <= bs[k].endDate;
    }
  }

  /** Once a product has met its requirement on sorted batches, scanning any
      further batches leaves its minimum date unchanged. */
  lemma LaterBatchesKeepMinDate(bs: seq<StockBatch>, req: map<int, real>, maxDate: int, k0: nat, n: nat)
    requires SortedByEndDate(bs)
    requires Qualifies(bs, req, k0)
    requires forall j :: j < k0 && Qualifies(bs, req, j) ==> bs[j].productId != bs[k0].productId
    requires k0 < n <= |bs|
    ensures bs[k0].productId in ScanBatches(bs[..n], req, maxDate).entries
    ensures ScanBatches(bs[..n], req, maxDate).entries[bs[k0].productId].minDate == Some(Candidate(bs[k0]))
  {
    var pre := bs[..n];
    QualifiesOnPrefix(bs, n, req);
    assert pre[k0] == bs[k0];
    forall j | j < k0 && Qualifies(pre, req, j) ensures pre[j].productId != pre[k0].productId {
      assert pre[j] == bs[j];
    }
    MinDateIsFirstCrossing(pre, req, maxDate, k0);
  }

  /** The index of the last batch of product `p`. */
  function LastBatchOf(bs: seq<StockBatch>, p: int): (r: Option<nat>)
    ensures r.None? ==> forall k :: 0 <= k < |bs| ==> bs[k].productId != p
    ensures r.Some? ==> r.value < |bs| && bs[r.value].productId == p
    ensures r.Some? ==> forall j :: r.value < j < |bs| ==> bs[j].productId != p
    decreases |bs|
  {
    if |bs| == 0 then None
    else if bs[|bs| - 1].productId == p then Some(|bs| - 1)
    else
      var r := LastBatchOf(bs[..|bs| - 1], p);
      assert forall k :: 0 <= k < |bs| - 1 ==> bs[..|bs| - 1][k] == bs[k];
      r
  }

  /** A product's whole supply lies in the batches up to its last one. */
  lemma SupplyUpToLastBatch(bs: seq<StockBatch>, p: int, k: nat)
    requires k < |bs| && forall j :: k < j < |bs| ==> bs[j].productId != p
    ensures Supply(bs[..k + 1], p) == Supply(bs, p)
  {
    assert bs == bs[..k + 1] + bs[k + 1..];
    SupplyAppend(bs[..k + 1], bs[k + 1..], p);
    var tail := bs[k + 1..];
    assert forall j :: 0 <= j < |tail| ==> tail[j] == bs[k + 1 + j];
    SupplyOfAbsent(tail, p);
  }

  /** A product whose whole supply covers a non-zero requirement qualifies
      at its last batch, so the estimate is not null. */
  lemma CoveredRequirementGivesEstimate(bs: seq<StockBatch>, req: map<int, real>, maxDate: int, p: int)
    requires Requested(req, p) && req[p] <= Supply(bs, p)
    requires req[p] > 0.0 || exists k :: 0 <= k < |bs| && bs[k].productId == p
    ensures GetEarliestDeliveryDate(bs, req, maxDate).Some?
  {
    match LastBatchOf(bs, p)
    case None =>
      SupplyOfAbsent(bs, p);
    case Some(k) =>
      SupplyUpToLastBatch(bs, p, k);
      assert Qualifies(bs, req, k);
      EstimateIsLastWrittenMinDate(bs, req, maxDate);
  }

  // ---------------------------------------------------------------------
  // The estimate the order pipeline evidently intends: the latest of the
  // requested products' minimum dates.

  /** Product `p` can be delivered from some batch by `date`. */
  ghost predicate DeliverableBy(bs: seq<StockBatch>, req: map<int, real>, p: int, date: int) {
    exists k :: Qualifies(bs, req, k) && bs[k].productId == p && Candidate(bs[k]) <= date
  }

  /** The minimum date a scan entry holds for the product of batch `k`, when
      that product is requested. */
  function EntryDate(bs: seq<StockBatch>, entries: map<int, ProductAvailability>, req: map<int, real>, k: int): Option<int>
    requires 0 <= k < |bs|
  {
    var p := bs[k].productId;
    if Requested(req, p) && p in entries then entries[p].minDate else None
  }

  /** The latest entry date over the first `n` batches. */
  function LatestEntryDate(bs: seq<StockBatch>, entries: map<int, ProductAvailability>, req: map<int, real>, n: nat): (r: Option<int>)
    requires n <= |bs|
    ensures r.None? ==> forall k :: 0 <= k < n ==> EntryDate(bs, entries, req, k).None?
    ensures r.Some? ==> exists k :: 0 <= k < n && EntryDate(bs, entries, req, k) == r
    ensures r.Some? ==> forall k :: 0 <= k < n && EntryDate(bs, entries, req, k).Some? ==>
      EntryDate(bs, entries, req, k).value <= r.value
  {
    if n == 0 then None
    else
      var here := EntryDate(bs, entries, req, n - 1);
      var before := LatestEntryDate(bs, entries, req, n - 1);
      match (before, here)
      case (None, _) => here
      case (Some(a), None) => before
      case (Some(a), Some(b)) => if a >= b then before else here
  }

  /** `date` is the earliest delivery candidate among the batches at which
      product `p` meets its requirement. */
  ghost predicate EarliestFor(bs: seq<StockBatch>, req: map<int, real>, p: int, date: int) {
    (exists k :: Qualifies(bs, req, k) && bs[k].productId == p && Candidate(bs[k]) == date)
    && forall k :: Qualifies(bs, req, k) && bs[k].productId == p ==> date <= Candidate(bs[k])
  }

  /** Some batch of product `p` meets its requirement. */
  ghost predicate EverDeliverable(bs: seq<StockBatch>, req: map<int, real>, p: int) {
    exists k :: Qualifies(bs, req, k) && bs[k].productId == p
  }

  /** The corrected estimate: when every requested product has a minimum
      date, the latest of them; null when some requested product never
      reaches its requirement or nothing is requested. */
  function EarliestDeliveryForAll(bs: seq<StockBatch>, req: map<int, real>, maxDate: int): (r: Option<int>)
    ensures r.Some? ==> forall p :: Requested(req, p) ==> DeliverableBy(bs, req, p, r.value)
    ensures r.Some? ==> exists p :: Requested(req, p) && EarliestFor(bs, req, p, r.value)
    ensures r.None? <==>
      (forall p :: !Requested(req, p)) || (exists p :: Requested(req, p) && !EverDeliverable(bs, req, p))
  {
    var st := ScanBatches(bs, req, maxDate);
    ScanBatchesInvariant(bs, req, maxDate);
    if forall p | p in req && req[p] != 0.0 :: p in st.entries && st.entries[p].minDate.Some? then
      var r := LatestEntryDate(bs, st.entries, req, |bs|);
      LatestEntryDateFacts(bs, req, st, r);
      r
    else
      var p :| p in req && req[p] != 0.0 && !(p in st.entries && st.entries[p].minDate.Some?);
      assert !EverDeliverable(bs, req, p);
      None
  }

  lemma LatestEntryDateFacts(bs: seq<StockBatch>, req: map<int, real>, st: ScanState, r: Option<int>)
    requires MinDates(bs, req, st)
    requires forall p :: Requested(req, p) ==> p in st.entries && st.entries[p].minDate.Some?
    requires r == LatestEntryDate(bs, st.entries, req, |bs|)
    ensures r.Some? ==> forall p :: Requested(req, p) ==> DeliverableBy(bs, req, p, r.value)
    ensures r.Some? ==> exists p :: Requested(req, p) && EarliestFor(bs, req, p, r.value)
    ensures r.None? <==> forall p :: !Requested(req, p)
    ensures forall p :: Requested(req, p) ==> EverDeliverable(bs, req, p)
  {
    forall p | Requested(req, p)
      ensures EverDeliverable(bs, req, p)
      ensures r.Some? && DeliverableBy(bs, req, p, r.value)
    {
      var d := st.entries[p].minDate.value;
      assert MinDateSpec(bs, req, p, st.entries[p].minDate);
      var k :| Qualifies(bs, req, k) && bs[k].productId == p && d == Candidate(bs[k]);
      assert EntryDate(bs, st.entries, req, k) == Some(d);
    }
    if r.Some? {
      var k :| 0 <= k < |bs| && EntryDate(bs, st.entries, req, k) == r;
      var p := bs[k].productId;
      assert MinDateSpec(bs, req, p, st.entries[p].minDate);
      assert EarliestFor(bs, req, p, r.value);
    }
  }

  /** Product 1 has batches ending on days 10 and 30, product 2 one batch
      ending on day 20; 50 kg of each is ordered by day 15. */
  const ExampleBatches: seq<StockBatch> := [
    StockBatch(1, "B1", 1, 100.0, 0.0, 0, 10 * DAY_MS, true, 1.0),
    StockBatch(2, "B2", 2, 100.0, 0.0, 0, 20 * DAY_MS, true, 1.0),
    StockBatch(3, "B3", 1, 100.0, 0.0, 0, 30 * DAY_MS, true, 1.0)]
  const ExampleRequirement: map<int, real> := map[1 := 50.0, 2 := 50.0]
  const ExampleDeadline: int := 15 * DAY_MS

  /** The scan over the example, batch by batch. */
  lemma ExampleScan()
    ensures ScanBatches(ExampleBatches, ExampleRequirement, ExampleDeadline) == ScanState(map[
      1 := ProductAvailability(100.0, 100.0, Some(12 * DAY_MS)),
      2 := ProductAvailability(0.0, 100.0, Some(22 * DAY_MS))], Some(12 * DAY_MS))
  {
    var bs, req, maxDate := ExampleBatches, ExampleRequirement, ExampleDeadline;
    var e1 := ProductAvailability(100.0, 0.0, Some(12 * DAY_MS));
    var e2 := ProductAvailability(0.0, 100.0, Some(22 * DAY_MS));
    var s1 := ScanState(map[1 := e1], Some(12 * DAY_MS));
    var s2 := ScanState(map[1 := e1, 2 := e2], Some(22 * DAY_MS));
    assert ScanStep(ScanState(map[], None), bs[0], req, maxDate) == s1;
    assert ScanStep(s1, bs[1], req, maxDate) == s2;
    assert bs[..1][..0] == [] && bs[..2][..1] == bs[..1] && bs[..2] == bs[..3][..2] && bs[..3] == bs;
    assert ScanBatches(bs[..1], req, maxDate) == s1;
    assert ScanBatches(bs[..2], req, maxDate) == s2;
  }

  /** Which example batches meet their product's requirement: the first
      batch of each product. */
  lemma ExampleQualifying()
    ensures forall k :: Qualifies(ExampleBatches, ExampleRequirement, k) <==> 0 <= k <= 2
    ensures forall k :: Qualifies(ExampleBatches, ExampleRequirement, k) && ExampleBatches[k].productId == 2 ==> k == 1
  {
    var bs := ExampleBatches;
    assert bs[..1][1..] == [] && bs[..2][1..] == [bs[1]] && bs[..3][1..] == [bs[1], bs[2]];
    assert [bs[1], bs[2]][1..] == [bs[2]] && [bs[1]][1..] == [] && [bs[2]][1..] == [];
    assert Supply([bs[1]], 2) == 100.0;
    assert Supply([bs[2]], 1) == 100.0;
    assert Supply([bs[1], bs[2]], 1) == 100.0;
    assert Supply(bs[..1], 1) == 100.0;
    assert Supply(bs[..2], 2) == 100.0;
    assert Supply(bs[..3], 1) == 200.0;
  }

  /** The as-written estimate promises the example order for day 12, within
      the deadline, although product 2 cannot ship before day 22: the value
      last written belongs to product 1, not to the slowest product. */
  lemma EstimateIgnoresSlowerProduct()
    ensures GetEarliestDeliveryDate(ExampleBatches, ExampleRequirement, ExampleDeadline) == Some(12 * DAY_MS)
    ensures 12 * DAY_MS <= ExampleDeadline
    ensures !DeliverableBy(ExampleBatches, ExampleRequirement, 2, ExampleDeadline)
  {
    ExampleScan();
    ExampleQualifying();
  }

  /** The corrected estimate for the example is product 2's day 22. */
  lemma CorrectedEstimateOnExample()
    ensures EarliestDeliveryForAll(ExampleBatches, ExampleRequirement, ExampleDeadline) == Some(22 * DAY_MS)
  {
    var bs, req, maxDate := ExampleBatches, ExampleRequirement, ExampleDeadline;
    ExampleScan();
    var st := ScanBatches(bs, req, maxDate);
    assert forall p | p in req && req[p] != 0.0 :: p in st.entries && st.entries[p].minDate.Some?;
    assert EntryDate(bs, st.entries, req, 0) == Some(12 * DAY_MS);
    assert EntryDate(bs, st.entries, req, 1) == Some(22 * DAY_MS);
    assert EntryDate(bs, st.entries, req, 2) == Some(12 * DAY_MS);
    assert LatestEntryDate(bs, st.entries, req, 1) == Some(12 * DAY_MS);
    assert LatestEntryDate(bs, st.entries, req, 2) == Some(22 * DAY_MS);
  }

  /** With the corrected estimate, accepting an order as deliverable by its
      deadline means every requested product can be delivered by then. */
  lemma CorrectedEstimateMeetsDeadline(bs: seq<StockBatch>, req: map<int, real>, maxDate: int)
    requires EarliestDeliveryForAll(bs, req, maxDate).Some?
    requires EarliestDeliveryForAll(bs, req, maxDate).value <= maxDate
    ensures forall p :: Requested(req, p) ==> DeliverableBy(bs, req, p, maxDate)
  {
    var d := EarliestDeliveryForAll(bs, req, maxDate).value;
    forall p | Requested(req, p) ensures DeliverableBy(bs, req, p, maxDate) {
      assert DeliverableBy(bs, req, p, d);
      var k :| Qualifies(bs, req, k) && bs[k].productId == p && Candidate(bs[k]) <= d;
    }
  }
}
