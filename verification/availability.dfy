/** Step 2 of order placement: `checkIfHasRequiredQuantity`
    (src/services/order.service.ts:238-264), a dry run of the requirement
    against the batches on a copy of the requirement map. The caller's map
    is a value here, so it is untouched by construction. */
module Availability {
  import opened Common
  import opened Domain
  import opened Requirement

  /** One loop step on the cloned map: a product with outstanding demand
      gives up `min(remaining, outstanding)` to the batch. */
  function DrainStep(m: map<int, real>, b: StockBatch): (r: map<int, real>)
    ensures r.Keys == m.Keys
  {
    var p := b.productId;
    if p in m && m[p] != 0.0 && m[p] > 0.0 then
      m[p := m[p] - Min(b.Remaining(), m[p])]
    else m
  }

  /** The cloned requirement after the scan over all batches: a product that
      asked for more than zero keeps whatever its batches could not cover,
      anything else keeps its original value. */
  function Outstanding(bs: seq<StockBatch>, req: map<int, real>): (r: map<int, real>)
    ensures r.Keys == req.Keys
    ensures AllRemainingNonNegative(bs) ==>
      forall p :: p in r ==> r[p] == if req[p] > 0.0 then Max(req[p] - Supply(bs, p), 0.0) else req[p]
  {
    if |bs| == 0 then req
    else
      var r := Outstanding(bs[1..], DrainStep(req, bs[0]));
      if AllRemainingNonNegative(bs) then
        assert bs[0].Remaining() >= 0.0;
        TailRemainingNonNegative(bs);
        SupplyNonNegativeEverywhere(bs[1..]);
        r
      else r
  }

  lemma TailRemainingNonNegative(bs: seq<StockBatch>)
    requires |bs| > 0 && AllRemainingNonNegative(bs)
    ensures AllRemainingNonNegative(bs[1..])
  {
    forall k | 0 <= k < |bs[1..]| ensures bs[1..][k].Remaining() >= 0.0 {
      assert bs[1..][k] == bs[k + 1];
    }
  }

  lemma SupplyNonNegativeEverywhere(bs: seq<StockBatch>)
    requires AllRemainingNonNegative(bs)
    ensures forall p :: Supply(bs, p) >= 0.0
  {
    forall p ensures Supply(bs, p) >= 0.0 {
      SupplyNonNegative(bs, p);
    }
  }

  /** `checkIfHasRequiredQuantity`: true when no product is left with a
      positive outstanding quantity. With non-negative remaining quantities
      this holds exactly when every requested product's requirement is
      covered by the summed remaining quantity of its batches. */
  function CheckIfHasRequiredQuantity(bs: seq<StockBatch>, req: map<int, real>): (ok: bool)
    ensures AllRemainingNonNegative(bs) ==>
      (ok <==> forall p :: p in req ==> req[p] <= Supply(bs, p))
  {
    var rest := Outstanding(bs, req);
    if AllRemainingNonNegative(bs) then
      SupplyNonNegativeEverywhere(bs);
      forall p | p in rest :: rest[p] <= 0.0
    else
      forall p | p in rest :: rest[p] <= 0.0
  }

  /** The verdict does not depend on the order of the batches. */
  lemma CheckIsOrderIndependent(bs: seq<StockBatch>, shuffled: seq<StockBatch>, req: map<int, real>)
    requires AllRemainingNonNegative(bs)
    requires multiset(bs) == multiset(shuffled)
    ensures CheckIfHasRequiredQuantity(bs, req) == CheckIfHasRequiredQuantity(shuffled, req)
  {
    assert AllRemainingNonNegative(shuffled) by {
      forall k | 0 <= k < |shuffled| ensures shuffled[k].Remaining() >= 0.0 {
        assert shuffled[k] in multiset(bs);
      }
    }
    forall p | p in req ensures Supply(bs, p) == Supply(shuffled, p) {
      SupplyPermutation(bs, shuffled, p);
    }
  }

  /** Adding batches never turns a satisfiable requirement unsatisfiable. */
  lemma CheckIsMonotonic(bs: seq<StockBatch>, more: seq<StockBatch>, req: map<int, real>)
    requires AllRemainingNonNegative(bs) && AllRemainingNonNegative(more)
    requires CheckIfHasRequiredQuantity(bs, req)
    ensures CheckIfHasRequiredQuantity(bs + more, req)
  {
    assert AllRemainingNonNegative(bs + more) by {
      forall k | 0 <= k < |bs + more| ensures (bs + more)[k].Remaining() >= 0.0 {
        if k >= |bs| {
          assert (bs + more)[k] == more[k - |bs|];
        }
      }
    }
    forall p | p in req ensures req[p] <= Supply(bs + more, p) {
      SupplyAppend(bs, more, p);
      SupplyNonNegative(more, p);
    }
  }
}
