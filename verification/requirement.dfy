/** Step 1 of order placement: the per-product demand map built from the
    ordered item list (src/services/order.service.ts:52-59 for cart orders,
    :793-800 for admin orders), and the per-product supply of a batch list
    that the later steps measure it against. */
module Requirement {
  import opened Domain

  /** Total requested quantity of product `p` over an item list. */
  function Demand(items: seq<Item>, p: int): real {
    if |items| == 0 then 0.0
    else (if items[0].productId == p then items[0].quantity else 0.0) + Demand(items[1..], p)
  }

  /** Unallocated quantity of product `p` over a batch list. */
  function Supply(bs: seq<StockBatch>, p: int): real {
    if |bs| == 0 then 0.0
    else (if bs[0].productId == p then bs[0].Remaining() else 0.0) + Supply(bs[1..], p)
  }

  function ProductIds(items: seq<Item>): set<int> {
    set it | it in items :: it.productId
  }

  /** One `forEach` step: start the product at 0 when unseen, then add the quantity. */
  function AddItem(m: map<int, real>, it: Item): map<int, real> {
    var current := if it.productId in m then m[it.productId] else 0.0;
    m[it.productId := current + it.quantity]
  }

  function BuildFrom(acc: map<int, real>, items: seq<Item>): (r: map<int, real>)
    ensures r.Keys == acc.Keys + ProductIds(items)
    ensures forall p :: p in r ==> r[p] == (if p in acc then acc[p] else 0.0) + Demand(items, p)
    decreases |items|
  {
    if |items| == 0 then acc
    else
      var r := BuildFrom(AddItem(acc, items[0]), items[1..]);
      assert ProductIds(items) == {items[0].productId} + ProductIds(items[1..]) by {
        assert forall it :: it in items <==> it == items[0] || it in items[1..];
      }
      r
  }

  /** The requirement map: every listed product once, mapped to the sum of
      its items' quantities (duplicates add up, they do not overwrite). */
  function BuildRequirement(items: seq<Item>): (r: map<int, real>)
    ensures r.Keys == ProductIds(items)
    ensures forall p :: p in r ==> r[p] == Demand(items, p)
  {
    BuildFrom(map[], items)
  }

  lemma {:induction false} DemandOfUnlisted(items: seq<Item>, p: int)
    requires p !in ProductIds(items)
    ensures Demand(items, p) == 0.0
  {
    if |items| > 0 {
      assert items[0] in items;
      assert ProductIds(items[1..]) <= ProductIds(items) by {
        forall it | it in items[1..] ensures it in items {}
      }
      DemandOfUnlisted(items[1..], p);
    }
  }

  lemma {:induction false} DemandNonNegative(items: seq<Item>, p: int)
    requires forall k :: 0 <= k < |items| ==> items[k].quantity >= 0.0
    ensures Demand(items, p) >= 0.0
  {
    if |items| > 0 {
      DemandNonNegative(items[1..], p);
    }
  }

  lemma {:induction false} DemandAppend(a: seq<Item>, b: seq<Item>, p: int)
    ensures Demand(a + b, p) == Demand(a, p) + Demand(b, p)
  {
    if |a| > 0 {
      assert (a + b)[1..] == a[1..] + b;
      DemandAppend(a[1..], b, p);
    } else {
      assert a + b == b;
    }
  }

  lemma {:induction false} SupplyAppend(a: seq<StockBatch>, b: seq<StockBatch>, p: int)
    ensures Supply(a + b, p) == Supply(a, p) + Supply(b, p)
  {
    if |a| > 0 {
      assert (a + b)[1..] == a[1..] + b;
      SupplyAppend(a[1..], b, p);
    } else {
      assert a + b == b;
    }
  }

  /** Supply of a list extended by one batch. */
  lemma SupplySnoc(bs: seq<StockBatch>, b: StockBatch, p: int)
    ensures Supply(bs + [b], p) == Supply(bs, p) + (if b.productId == p then b.Remaining() else 0.0)
  {
    SupplyAppend(bs, [b], p);
  }

  lemma {:induction false} SupplyNonNegative(bs: seq<StockBatch>, p: int)
    requires AllRemainingNonNegative(bs)
    ensures Supply(bs, p) >= 0.0
  {
    if |bs| > 0 {
      SupplyNonNegative(bs[1..], p);
    }
  }

  /** Supply with one batch taken out of the list. */
  lemma SupplyRemoveAt(b: seq<StockBatch>, k: nat, p: int)
    requires k < |b|
    ensures Supply(b, p) == (if b[k].productId == p then b[k].Remaining() else 0.0) + Supply(b[..k] + b[k + 1..], p)
  {
    var tail := [b[k]] + b[k + 1..];
    assert b == b[..k] + tail;
    SupplyAppend(b[..k], tail, p);
    SupplyAppend(b[..k], b[k + 1..], p);
    assert tail[1..] == b[k + 1..];
  }

  lemma MultisetRemoveAt(a: seq<StockBatch>, b: seq<StockBatch>, k: nat)
    requires |a| > 0 && k < |b| && b[k] == a[0] && multiset(a) == multiset(b)
    ensures multiset(a[1..]) == multiset(b[..k] + b[k + 1..])
  {
    assert b == b[..k] + [b[k]] + b[k + 1..];
    assert a == [a[0]] + a[1..];
    calc {
      multiset(a[1..]);
      multiset(a) - multiset{a[0]};
      multiset(b) - multiset{b[k]};
      multiset(b[..k]) + multiset(b[k + 1..]);
      multiset(b[..k] + b[k + 1..]);
    }
  }

  /** Supply only depends on which batches are present, not on their order. */
  lemma {:induction false} SupplyPermutation(a: seq<StockBatch>, b: seq<StockBatch>, p: int)
    requires multiset(a) == multiset(b)
    ensures Supply(a, p) == Supply(b, p)
    decreases |a|
  {
    if |a| == 0 {
      assert |b| == |multiset(b)| == 0;
    } else {
      assert a[0] in multiset(b);
      var k :| 0 <= k < |b| && b[k] == a[0];
      MultisetRemoveAt(a, b, k);
      SupplyPermutation(a[1..], b[..k] + b[k + 1..], p);
      SupplyRemoveAt(b, k, p);
    }
  }
}
