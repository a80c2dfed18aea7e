/** Listing queries: the sort whitelists of the stock-batch and product
    listings (src/services/stock-batch.service.ts:49-76,
    src/services/product.service.ts:16-32) and the page arithmetic of the
    stock-batch and order listings (src/services/stock-batch.service.ts:46-47
    and 101-108, src/services/order.service.ts:314-315 and 451-455). */
module Listing {
  import opened Common
  import opened Domain

  // ---------------------------------------------------------------------
  // sort whitelists
  // ---------------------------------------------------------------------

  /** One entry of the `sort` parameter; `order` is passed through as given. */
  datatype SortSpec = SortSpec(field: string, order: string)

  /** One entry of the `orderBy` list handed to the query. */
  datatype OrderTerm = ByColumn(column: string, order: string) | ByProductName(order: string)

  /** The entries whose field the whitelist knows, in their original order. */
  function KeepKnown(specs: seq<SortSpec>, known: set<string>): (r: seq<SortSpec>)
    ensures |r| <= |specs|
    ensures forall s :: s in r <==> s in specs && s.field in known
  {
    if |specs| == 0 then []
    else if specs[0].field in known then [specs[0]] + KeepKnown(specs[1..], known)
    else KeepKnown(specs[1..], known)
  }

  /** Filtering distributes over concatenation, so the kept entries keep
      their relative order. */
  lemma {:induction false} KeepKnownAppend(a: seq<SortSpec>, b: seq<SortSpec>, known: set<string>)
    ensures KeepKnown(a + b, known) == KeepKnown(a, known) + KeepKnown(b, known)
  {
    if |a| == 0 {
      assert a + b == b;
    } else {
      assert (a + b)[1..] == a[1..] + b;
      KeepKnownAppend(a[1..], b, known);
    }
  }

  /** An entry the whitelist does not know leaves the filtered list as it
      would be without it. */
  lemma DropUnknown(a: seq<SortSpec>, s: SortSpec, b: seq<SortSpec>, known: set<string>)
    requires s.field !in known
    ensures KeepKnown(a + [s] + b, known) == KeepKnown(a + b, known)
  {
    KeepKnownAppend(a + [s], b, known);
    KeepKnownAppend(a, [s], known);
    KeepKnownAppend(a, b, known);
    assert [s][1..] == [];
    assert KeepKnown([s], known) == KeepKnown([], known) == [];
    assert KeepKnown(a + [s], known) == KeepKnown(a, known);
  }

  /** A list of known entries passes through unchanged. */
  lemma {:induction false} KeepKnownOfKnown(specs: seq<SortSpec>, known: set<string>)
    requires forall i :: 0 <= i < |specs| ==> specs[i].field in known
    ensures KeepKnown(specs, known) == specs
  {
    if |specs| > 0 {
      KeepKnownOfKnown(specs[1..], known);
    }
  }

  /** The keys of the stock-batch `sortFieldMap`. */
  const BATCH_SORT_FIELDS: set<string> :=
    {"product_name", "price_per_kg", "end_date", "start_date", "quantity_produced", "quantity_allocated", "batch_code"}

  /** The keys of the product `sortFieldMap`. */
  const PRODUCT_SORT_FIELDS: set<string> := {"name", "price_per_kg", "is_active", "createdAt"}

  /** A kept stock-batch entry: `product_name` sorts by the related
      product's name, every other field by the column of the same name. */
  function BatchTerm(s: SortSpec): OrderTerm {
    if s.field == "product_name" then ByProductName(s.order) else ByColumn(s.field, s.order)
  }

  function BatchTerms(specs: seq<SortSpec>): (r: seq<OrderTerm>)
    ensures |r| == |specs|
    ensures forall i :: 0 <= i < |specs| ==> r[i] == BatchTerm(specs[i])
  {
    if |specs| == 0 then [] else [BatchTerm(specs[0])] + BatchTerms(specs[1..])
  }

  /** The stock-batch `orderBy`: one term per whitelisted entry, in input
      order, or `end_date asc` when none is left. An absent `sort` is
      `None`. */
  function BatchOrderBy(sort: Option<seq<SortSpec>>): (r: seq<OrderTerm>)
    ensures |r| > 0
    ensures var kept := KeepKnown(sort.GetOr([]), BATCH_SORT_FIELDS);
      |kept| > 0 ==> |r| == |kept| && forall i :: 0 <= i < |kept| ==> r[i] == BatchTerm(kept[i])
    ensures (forall s :: s in sort.GetOr([]) ==> s.field !in BATCH_SORT_FIELDS) ==> r == [ByColumn("end_date", "asc")]
    ensures forall t :: t in r ==> t.ByProductName? || t.column in BATCH_SORT_FIELDS - {"product_name"}
  {
    var kept := KeepKnown(sort.GetOr([]), BATCH_SORT_FIELDS);
    if |kept| == 0 then [ByColumn("end_date", "asc")] else BatchTerms(kept)
  }

  /** An unknown entry anywhere in the list changes nothing. */
  lemma UnknownBatchSortFieldIsIgnored(a: seq<SortSpec>, s: SortSpec, b: seq<SortSpec>)
    requires s.field !in BATCH_SORT_FIELDS
    ensures BatchOrderBy(Some(a + [s] + b)) == BatchOrderBy(Some(a + b))
  {
    DropUnknown(a, s, b, BATCH_SORT_FIELDS);
  }

  /** A product entry names the column of the same name. */
  function ProductTerms(specs: seq<SortSpec>): (r: seq<OrderTerm>)
    ensures |r| == |specs|
    ensures forall i :: 0 <= i < |specs| ==> r[i] == ByColumn(specs[i].field, specs[i].order)
  {
    if |specs| == 0 then [] else [ByColumn(specs[0].field, specs[0].order)] + ProductTerms(specs[1..])
  }

  /** The product `finalOrderBy`: the whitelisted entries in input order,
      or `name asc` when none is left. */
  function ProductOrderBy(sort: seq<SortSpec>): (r: seq<OrderTerm>)
    ensures |r| > 0
    ensures forall t :: t in r ==> t.ByColumn? && t.column in PRODUCT_SORT_FIELDS
    ensures (forall s :: s in sort ==> s.field !in PRODUCT_SORT_FIELDS) ==> r == [ByColumn("name", "asc")]
    ensures (forall i :: 0 <= i < |sort| ==> sort[i].field in PRODUCT_SORT_FIELDS) && |sort| > 0 ==>
      |r| == |sort| && forall i :: 0 <= i < |sort| ==> r[i] == ByColumn(sort[i].field, sort[i].order)
  {
    var kept := KeepKnown(sort, PRODUCT_SORT_FIELDS);
    if |kept| == 0 then [ByColumn("name", "asc")]
    else
      KeepKnownOfKnownWhenAllKnown(sort);
      ProductTerms(kept)
  }

  lemma KeepKnownOfKnownWhenAllKnown(sort: seq<SortSpec>)
    ensures (forall i :: 0 <= i < |sort| ==> sort[i].field in PRODUCT_SORT_FIELDS) ==>
      KeepKnown(sort, PRODUCT_SORT_FIELDS) == sort
  {
    if forall i :: 0 <= i < |sort| ==> sort[i].field in PRODUCT_SORT_FIELDS {
      KeepKnownOfKnown(sort, PRODUCT_SORT_FIELDS);
    }
  }

  /** An unknown product entry anywhere in the list changes nothing. */
  lemma UnknownProductSortFieldIsIgnored(a: seq<SortSpec>, s: SortSpec, b: seq<SortSpec>)
    requires s.field !in PRODUCT_SORT_FIELDS
    ensures ProductOrderBy(a + [s] + b) == ProductOrderBy(a + b)
  {
    DropUnknown(a, s, b, PRODUCT_SORT_FIELDS);
  }

  // ---------------------------------------------------------------------
  // page arithmetic
  // ---------------------------------------------------------------------

  /** The `pagination` object of a listing response. */
  datatype PageInfo = PageInfo(totalCount: nat, limit: nat, offset: nat, hasNextPage: bool, currentPage: nat, totalPages: nat)

  /** `Math.ceil(a / b)` on non-negative integers. */
  function CeilDiv(a: nat, b: nat): nat
    requires b > 0
  {
    (a + b - 1) / b
  }

  /** `q * b` is the last multiple of `b` not above `a`. */
  lemma DivBounds(a: nat, b: nat)
    requires b > 0
    ensures (a / b) * b <= a < (a / b + 1) * b
  {
    assert a == (a / b) * b + a % b;
    assert (a / b + 1) * b == (a / b) * b + b;
  }

  /** Every multiple of `b` below `n * b` is at most `(n - 1) * b`. */
  lemma MultipleOrder(m: nat, n: nat, b: nat)
    requires b > 0 && m * b < n * b
    ensures m < n
  {
  }

  lemma MultipleMonotone(m: nat, n: nat, b: nat)
    requires m <= n
    ensures m * b <= n * b
  {
  }

  lemma CeilDivBounds(a: nat, b: nat)
    requires b > 0
    ensures CeilDiv(a, b) * b >= a
    ensures CeilDiv(a, b) == 0 || (CeilDiv(a, b) - 1) * b < a
  {
    var c := CeilDiv(a, b);
    DivBounds(a + b - 1, b);
    assert c * b <= a + b - 1 < c * b + b;
    assert (c - 1) * b == c * b - b;
  }

  /** No fewer pages hold all the rows. */
  lemma CeilDivLeast(a: nat, b: nat, n: nat)
    requires b > 0 && n * b >= a
    ensures CeilDiv(a, b) <= n
  {
    var c := CeilDiv(a, b);
    CeilDivBounds(a, b);
    if c > 0 {
      assert (c - 1) * b < n * b;
      MultipleOrder(c - 1, n, b);
    }
  }

  /** The metadata of one page of `take` rows starting at row `skip`:
      `totalPages` is the fewest pages of `take` rows that hold all rows,
      `currentPage` is the 1-based page holding row `skip`, and there is a
      next page exactly when rows remain after this one. */
  function Paginate(total: nat, take: nat, skip: nat): (p: PageInfo)
    requires take > 0
    ensures p.totalCount == total && p.limit == take && p.offset == skip
    ensures p.totalPages * take >= total
    ensures p.totalPages == 0 || (p.totalPages - 1) * take < total
    ensures (p.currentPage - 1) * take <= skip < p.currentPage * take
    ensures p.hasNextPage <==> skip + take < total
  {
    var page := skip / take + 1;
    PageHolds(skip, take, page);
    CeilDivBounds(total, take);
    PageInfo(total, take, skip, skip + take < total, page, CeilDiv(total, take))
  }

  /** Page `skip / take + 1` holds row `skip`. */
  lemma PageHolds(skip: nat, take: nat, page: nat)
    requires take > 0 && page == skip / take + 1
    ensures (page - 1) * take <= skip < page * take
  {
    DivBounds(skip, take);
  }

  /** On a page that starts on a page boundary there is a next page exactly
      when the current page is not the last one. */
  lemma {:induction false} AlignedPageHasNextIffNotLast(total: nat, take: nat, skip: nat)
    requires take > 0 && skip % take == 0
    ensures Paginate(total, take, skip).hasNextPage <==>
      Paginate(total, take, skip).currentPage < Paginate(total, take, skip).totalPages
  {
    var p := Paginate(total, take, skip);
    var c := p.currentPage;
    CeilDivBounds(total, take);
    assert skip == (skip / take) * take + skip % take;
    assert skip == (c - 1) * take;
    assert skip + take == c * take;
    if skip + take < total {
      assert c * take < total;
      if p.totalPages <= c {
        MultipleMonotone(p.totalPages, c, take);
      }
    } else {
      CeilDivLeast(total, take, c);
    }
  }

  /** `take` of the stock-batch listing: a truthy, non-negative `limit`
      capped at `MAX_LIMIT_PER_PAGE`, else `MAX_LIMIT_PER_PAGE`. An absent
      or unparsable `limit` is `None`. */
  function BatchTake(limit: Option<int>): (take: nat)
    ensures 1 <= take <= MAX_LIMIT_PER_PAGE
    ensures limit.Some? && 0 < limit.value <= MAX_LIMIT_PER_PAGE ==> take == limit.value
    ensures !(limit.Some? && 0 < limit.value < MAX_LIMIT_PER_PAGE) ==> take == MAX_LIMIT_PER_PAGE
  {
    if limit.Some? && limit.value != 0 && limit.value >= 0 then
      if MAX_LIMIT_PER_PAGE <= limit.value then MAX_LIMIT_PER_PAGE else limit.value
    else MAX_LIMIT_PER_PAGE
  }

  /** `skip` of the stock-batch listing: a non-negative `offset`, else 0. */
  function BatchSkip(offset: Option<int>): (skip: nat)
    ensures offset.Some? && offset.value >= 0 ==> skip == offset.value
    ensures !(offset.Some? && offset.value > 0) ==> skip == 0
  {
    if offset.Some? && offset.value != 0 && offset.value >= 0 then offset.value else 0
  }

  /** The stock-batch `pagination` object: never more than
      `MAX_LIMIT_PER_PAGE` rows a page, and never a negative offset. */
  function BatchPage(limit: Option<int>, offset: Option<int>, total: nat): (p: PageInfo)
    ensures 1 <= p.limit <= MAX_LIMIT_PER_PAGE
    ensures p.currentPage >= 1
    ensures p.totalPages * p.limit >= total
    ensures p.hasNextPage <==> p.offset + p.limit < total
  {
    Paginate(total, BatchTake(limit), BatchSkip(offset))
  }

  /** The `pagination` object of `fetchOrders`. */
  datatype OrderPageInfo = OrderPageInfo(page: PageInfo, hasPreviousPage: bool)

  /** `fetchOrders`: `limit` is capped at `MAX_LIMIT_PER_PAGE` and a negative
      `offset` raised to 0 before the same arithmetic, and there is a
      previous page exactly when the offset is positive. */
  function OrderPage(limit: int, offset: int, total: nat): (r: OrderPageInfo)
    requires limit > 0
    ensures 1 <= r.page.limit <= MAX_LIMIT_PER_PAGE
    ensures limit <= MAX_LIMIT_PER_PAGE ==> r.page.limit == limit
    ensures r.page.offset == if offset > 0 then offset else 0
    ensures r.hasPreviousPage <==> offset > 0
    ensures r.page.hasNextPage <==> r.page.offset + r.page.limit < total
  {
    var take: nat := if limit <= MAX_LIMIT_PER_PAGE then limit else MAX_LIMIT_PER_PAGE;
    var skip: nat := if offset >= 0 then offset else 0;
    OrderPageInfo(Paginate(total, take, skip), skip > 0)
  }
}
