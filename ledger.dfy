/**
 * The two stock tables and the rules both the server and the admin page
 * apply to them: the `inventory` catalogue, the `inventory_details`
 * delivery batches, the three-way stock status and the ordering of batches
 * by delivery date. Dates are day numbers and quantities are integers.
 */
module Ledger {
  import opened Common
  import opened Lists

  /** A row of the `inventory` table: one kind of stock. `archived` is the `archive` column. */
  datatype InventoryItem = InventoryItem(
    id: nat,
    stockId: string,
    stockName: string,
    categoryId: int,
    unit: string,
    supplier: Option<string>,
    threshold: int,
    archived: bool)

  /** A row of the `inventory_details` table: one delivery of the stock item `inventoryId`. */
  datatype Batch = Batch(
    id: nat,
    inventoryId: nat,
    deliveryDate: int,
    quantity: int,
    remaining: int,
    unit: string,
    expirationDate: int)

  const OUT_OF_STOCK: string := "Out of Stock"
  const RESTOCK: string := "Restock"
  const AVAILABLE: string := "Available"

  /** The status CASE of the listing query, decided by the summed remaining quantity against the threshold. */
  function StockStatus(remaining: int, threshold: int): (status: string)
    ensures status in {OUT_OF_STOCK, RESTOCK, AVAILABLE}
    ensures status == OUT_OF_STOCK <==> remaining == 0
    ensures status == RESTOCK <==> remaining != 0 && remaining <= threshold
    ensures status == AVAILABLE <==> remaining != 0 && remaining > threshold
  {
    if remaining == 0 then OUT_OF_STOCK
    else if remaining <= threshold then RESTOCK
    else AVAILABLE
  }

  /** Selects the batches delivered for one stock item. */
  function OfItem(inventoryId: nat): Batch -> bool {
    (b: Batch) => b.inventoryId == inventoryId
  }

  /** The batches of one stock item, in table order (the LEFT JOIN on `inventory_id`). */
  function BatchesOf(batches: seq<Batch>, inventoryId: nat): (r: seq<Batch>)
    ensures forall b :: b in r <==> b in batches && b.inventoryId == inventoryId
  {
    Filter(batches, OfItem(inventoryId))
  }

  /** `COALESCE(SUM(remaining_quantity), 0)` over some batches. */
  function RemainingTotal(bs: seq<Batch>): int {
    if bs == [] then 0 else bs[0].remaining + RemainingTotal(bs[1..])
  }

  /** `COALESCE(SUM(quantity), 0)` over some batches. */
  function QuantityTotal(bs: seq<Batch>): int {
    if bs == [] then 0 else bs[0].quantity + QuantityTotal(bs[1..])
  }

  /** `MIN(...)` over a column: absent (NULL) for no rows, otherwise the least value. */
  function Earliest(dates: seq<int>): (m: Option<int>)
    ensures m.None? <==> dates == []
    ensures m.Some? ==> m.value in dates
    ensures m.Some? ==> forall k :: 0 <= k < |dates| ==> m.value <= dates[k]
  {
    if dates == [] then None
    else
      match Earliest(dates[1..])
      case None => Some(dates[0])
      case Some(rest) => Some(if dates[0] <= rest then dates[0] else rest)
  }

  function DeliveryDates(bs: seq<Batch>): (ds: seq<int>)
    ensures |ds| == |bs| && forall k :: 0 <= k < |bs| ==> ds[k] == bs[k].deliveryDate
  {
    seq(|bs|, k requires 0 <= k < |bs| => bs[k].deliveryDate)
  }

  function ExpirationDates(bs: seq<Batch>): (ds: seq<int>)
    ensures |ds| == |bs| && forall k :: 0 <= k < |bs| ==> ds[k] == bs[k].expirationDate
  {
    seq(|bs|, k requires 0 <= k < |bs| => bs[k].expirationDate)
  }

  // ------------------------------------------------------------ ordering by delivery date

  /** The sort key: ascending delivery date, or descending when `newestFirst`. */
  function SortKey(b: Batch, newestFirst: bool): int {
    if newestFirst then -b.deliveryDate else b.deliveryDate
  }

  predicate SortedByDelivery(s: seq<Batch>, newestFirst: bool) {
    forall p, q :: 0 <= p < q < |s| ==> SortKey(s[p], newestFirst) <= SortKey(s[q], newestFirst)
  }

  /**
   * Sorts the batches in place by delivery date, oldest first or newest
   * first: JavaScript's `Array.prototype.sort` with a date-difference
   * comparator, and the `ORDER BY delivery_date` of the history query.
   */
  method SortByDelivery(a: array<Batch>, newestFirst: bool)
    modifies a
    ensures SortedByDelivery(a[..], newestFirst)
    ensures multiset(a[..]) == multiset(old(a[..]))
  {
    var i := 0;
    while i < a.Length
      invariant 0 <= i <= a.Length
      invariant forall p, q :: 0 <= p < q < i ==> SortKey(a[p], newestFirst) <= SortKey(a[q], newestFirst)
      invariant multiset(a[..]) == multiset(old(a[..]))
    {
      InsertIntoSortedPrefix(a, i, newestFirst);
      i := i + 1;
    }
  }

  /** One insertion step: moves `a[i]` left until `a[..i + 1]` is in order. */
  method InsertIntoSortedPrefix(a: array<Batch>, i: nat, newestFirst: bool)
    requires i < a.Length
    requires forall p, q :: 0 <= p < q < i ==> SortKey(a[p], newestFirst) <= SortKey(a[q], newestFirst)
    modifies a
    ensures forall p, q :: 0 <= p < q <= i ==> SortKey(a[p], newestFirst) <= SortKey(a[q], newestFirst)
    ensures multiset(a[..]) == multiset(old(a[..]))
  {
    var j := i;
    while j > 0 && SortKey(a[j - 1], newestFirst) > SortKey(a[j], newestFirst)
      invariant 0 <= j <= i
      invariant forall p, q :: 0 <= p < q <= i && p != j && q != j ==> SortKey(a[p], newestFirst) <= SortKey(a[q], newestFirst)
      invariant forall q :: j < q <= i ==> SortKey(a[j], newestFirst) <= SortKey(a[q], newestFirst)
      invariant multiset(a[..]) == multiset(old(a[..]))
    {
      SwapWithPrevious(a, j);
      j := j - 1;
    }
  }

  method SwapWithPrevious(a: array<Batch>, j: nat)
    requires 0 < j < a.Length
    modifies a
    ensures a[j - 1] == old(a[j]) && a[j] == old(a[j - 1])
    ensures forall k :: 0 <= k < a.Length && k != j - 1 && k != j ==> a[k] == old(a[k])
    ensures multiset(a[..]) == multiset(old(a[..]))
  {
    a[j - 1], a[j] := a[j], a[j - 1];
  }
}
