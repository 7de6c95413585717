/**
 * The inventory API of the back office: the stock listing with its
 * aggregate quantities and status, the lookup of one stock item, the
 * validated add-stock transaction over the two stock tables, and the
 * delivery history.
 */
module InventoryRoutes {
  import opened Common
  import opened Text
  import opened Lists
  import opened Ledger
  import opened SqlNumbers

  // ------------------------------------------------------------ GET /  (the listing)

  /** One row of the listing: a catalogue item with the aggregates of its batches. */
  datatype ListingRow = ListingRow(
    id: nat,
    stockId: string,
    stockName: string,
    categoryId: int,
    unit: string,
    supplier: Option<string>,
    remainingQuantity: int,
    initialQuantity: int,
    expirationDate: Option<int>,
    deliveryDate: Option<int>,
    status: string)

  /** The GROUP BY row of one catalogue item over its LEFT-JOINed batches. */
  function RowFor(item: InventoryItem, batches: seq<Batch>): ListingRow {
    var own := BatchesOf(batches, item.id);
    var remaining := RemainingTotal(own);
    ListingRow(item.id, item.stockId, item.stockName, item.categoryId, item.unit, item.supplier,
               remaining, QuantityTotal(own),
               Earliest(ExpirationDates(own)), Earliest(DeliveryDates(own)),
               StockStatus(remaining, item.threshold))
  }

  /** The listing query: one aggregate row per catalogue item whose `archive` is 0, in table order. */
  function Listing(items: seq<InventoryItem>, batches: seq<Batch>): seq<ListingRow> {
    if items == [] then []
    else (if items[0].archived then [] else [RowFor(items[0], batches)]) + Listing(items[1..], batches)
  }

  /** Every listed row is the aggregate of an item that is not archived. */
  lemma {:induction false} ListingOnlyLive(items: seq<InventoryItem>, batches: seq<Batch>, row: ListingRow)
    requires row in Listing(items, batches)
    ensures exists item :: item in items && !item.archived && row == RowFor(item, batches)
  {
    if items != [] {
      var head := if items[0].archived then [] else [RowFor(items[0], batches)];
      assert Listing(items, batches) == head + Listing(items[1..], batches);
      if row !in head {
        ListingOnlyLive(items[1..], batches, row);
        var item :| item in items[1..] && !item.archived && row == RowFor(item, batches);
        assert item in items;
      }
    }
  }

  /** Every item that is not archived is listed. */
  lemma {:induction false} ListingCoversLive(items: seq<InventoryItem>, batches: seq<Batch>, item: InventoryItem)
    requires item in items && !item.archived
    ensures RowFor(item, batches) in Listing(items, batches)
  {
    if items[0] != item {
      ListingCoversLive(items[1..], batches, item);
    }
  }

  predicate UniqueItemIds(items: seq<InventoryItem>) {
    forall p, q :: 0 <= p < q < |items| ==> items[p].id != items[q].id
  }

  predicate HasItem(items: seq<InventoryItem>, id: nat) {
    exists k :: 0 <= k < |items| && items[k].id == id
  }

  predicate UniqueRowIds(rows: seq<ListingRow>) {
    forall p, q :: 0 <= p < q < |rows| ==> rows[p].id != rows[q].id
  }

  /** With distinct item ids there is exactly one listed row per live item: no id is listed twice. */
  lemma {:induction false} ListingOneRowPerItem(items: seq<InventoryItem>, batches: seq<Batch>)
    requires UniqueItemIds(items)
    ensures UniqueRowIds(Listing(items, batches))
  {
    if items != [] && !items[0].archived {
      var head := RowFor(items[0], batches);
      var tail := Listing(items[1..], batches);
      ListingOneRowPerItem(items[1..], batches);
      forall q | 0 <= q < |tail|
        ensures tail[q].id != head.id
      {
        ListedIdIsItemId(items[1..], batches, tail[q]);
        var k :| 0 <= k < |items[1..]| && items[1..][k].id == tail[q].id;
        assert items[k + 1].id == tail[q].id;
      }
      PrependUniqueRow(head, tail);
    } else if items != [] {
      ListingOneRowPerItem(items[1..], batches);
    }
  }

  lemma PrependUniqueRow(head: ListingRow, tail: seq<ListingRow>)
    requires UniqueRowIds(tail)
    requires forall q :: 0 <= q < |tail| ==> tail[q].id != head.id
    ensures UniqueRowIds([head] + tail)
  {
  }

  /** Every listed row carries the id of some catalogue item. */
  lemma ListedIdIsItemId(items: seq<InventoryItem>, batches: seq<Batch>, row: ListingRow)
    requires row in Listing(items, batches)
    ensures HasItem(items, row.id)
  {
    ListingOnlyLive(items, batches, row);
    var item :| item in items && !item.archived && row == RowFor(item, batches);
    var k :| 0 <= k < |items| && items[k] == item;
  }

  /** With no remaining quantity below zero, an item is "Out of Stock" exactly when every one of its batches is used up. */
  lemma {:induction false} RemainingTotalZeroIff(bs: seq<Batch>)
    requires forall b :: b in bs ==> b.remaining >= 0
    ensures RemainingTotal(bs) >= 0
    ensures RemainingTotal(bs) == 0 <==> forall b :: b in bs ==> b.remaining == 0
  {
    if bs != [] {
      assert forall b :: b in bs[1..] ==> b in bs;
      RemainingTotalZeroIff(bs[1..]);
      assert bs == [bs[0]] + bs[1..];
    }
  }

  /** An item with no batches is still listed, with zero quantities, no dates and status "Out of Stock". */
  lemma ItemWithoutBatches(item: InventoryItem, batches: seq<Batch>)
    requires forall b :: b in batches ==> b.inventoryId != item.id
    ensures var row := RowFor(item, batches);
      && row.remainingQuantity == 0 && row.initialQuantity == 0
      && row.expirationDate.None? && row.deliveryDate.None?
      && row.status == OUT_OF_STOCK
  {
    FilterKeepsNone(batches, OfItem(item.id));
  }

  /** The listed status follows the CASE rule on the item's summed remaining quantity. */
  lemma ListedStatus(item: InventoryItem, batches: seq<Batch>)
    ensures var row := RowFor(item, batches);
      var total := RemainingTotal(BatchesOf(batches, item.id));
      && row.remainingQuantity == total
      && (row.status == OUT_OF_STOCK <==> total == 0)
      && (row.status == RESTOCK <==> total != 0 && total <= item.threshold)
      && (row.status == AVAILABLE <==> total > item.threshold && total != 0)
  {
  }

  // ------------------------------------------------------------ GET /:id

  /** The first row of the `i.* LEFT JOIN inventory_details` query for one item. */
  datatype StockRow = StockRow(item: InventoryItem, detail: Option<Batch>)

  /**
   * Looks one catalogue item up, archived or not, by the id MySQL reads
   * from the path parameter (`SqlId`); 404 when that is no integer or no
   * row has it.
   */
  function StockById(items: seq<InventoryItem>, batches: seq<Batch>, idParam: string): (reply: Reply<StockRow>)
    ensures reply.NotFound? <==>
      SqlId(idParam).None? || forall k :: 0 <= k < |items| ==> items[k].id != SqlId(idParam).value
    ensures reply.NotFound? ==> reply.error == "Stock not found"
    ensures reply.Ok? || reply.NotFound?
    ensures reply.Ok? ==> SqlId(idParam).Some? && reply.body.item in items && reply.body.item.id == SqlId(idParam).value
    ensures reply.Ok? ==> (reply.body.detail.None? <==> forall b :: b in batches ==> b.inventoryId != reply.body.item.id)
    ensures reply.Ok? && reply.body.detail.Some? ==>
      reply.body.detail.value in batches && reply.body.detail.value.inventoryId == reply.body.item.id
  {
    match SqlId(idParam)
    case None => NotFound("Stock not found")
    case Some(id) =>
      match Find(items, (i: InventoryItem) => i.id == id)
      case None => NotFound("Stock not found")
      case Some(item) =>
        Ok(StockRow(item, Find(batches, OfItem(item.id))))
  }

  /** The lookup depends on the path only through the id MySQL reads from it. */
  lemma StockByIdThroughSqlId(items: seq<InventoryItem>, batches: seq<Batch>, a: string, b: string)
    requires SqlId(a) == SqlId(b)
    ensures StockById(items, batches, a) == StockById(items, batches, b)
  {
  }

  /** Text after the digits of the path is ignored: `/7abc` answers as `/7` does. */
  lemma StockByIdIgnoresTail(items: seq<InventoryItem>, batches: seq<Batch>, d: string, rest: string)
    requires d != [] && AllDigits(d)
    requires rest != [] && !IsDigit(rest[0]) && rest[0] != '.' && rest[0] != 'e' && rest[0] != 'E'
    ensures StockById(items, batches, d + rest) == StockById(items, batches, d)
  {
    SqlIdIgnoresTail(d, rest);
    StockByIdThroughSqlId(items, batches, d + rest, d);
  }

  /** A path with a non-zero fraction, such as `/1.5`, finds nothing. */
  lemma StockByIdFraction(items: seq<InventoryItem>, batches: seq<Batch>, d: string, f: string)
    requires d != [] && AllDigits(d) && AllDigits(f) && DecimalValue(f) != 0
    ensures StockById(items, batches, d + "." + f).NotFound?
  {
    SqlIdFraction(d, f);
  }

  // ------------------------------------------------------------ POST /  (add stock)

  /** The request body of the add-stock call. A field that is absent or not a number is `None`. */
  datatype AddStockRequest = AddStockRequest(
    stockId: string,
    stockName: string,
    categoryId: Option<int>,
    quantity: Option<int>,
    unit: string,
    deliveryDate: int,
    expirationDate: int,
    threshold: Option<int>)

  const ALLOWED_UNITS: seq<string> := ["kg", "liters", "units", "pieces", "tablespoons", "g", "ml", "teaspoons"]

  /** The request fields the validation chain checks. */
  datatype Field = StockIdField | StockNameField | CategoryIdField | QuantityField | ThresholdField | UnitField
  {
    function Name(): string {
      match this
      case StockIdField => "stock_id"
      case StockNameField => "stock_name"
      case CategoryIdField => "category_id"
      case QuantityField => "quantity"
      case ThresholdField => "threshold"
      case UnitField => "unit"
    }
  }

  /** Whether the unit is one of the eight the chain allows. */
  predicate AllowedUnit(unit: string) {
    unit in ALLOWED_UNITS
  }

  /**
   * The fields the validation chain rejects, in the chain's order. Emptiness
   * of `stock_id` and `stock_name` is checked on the raw value, before the
   * chain trims it.
   */
  function ValidationErrors(req: AddStockRequest): (errors: seq<Field>)
    ensures StockIdField in errors <==> req.stockId == ""
    ensures StockNameField in errors <==> req.stockName == ""
    ensures CategoryIdField in errors <==> req.categoryId.None?
    ensures QuantityField in errors <==> req.quantity.None? || req.quantity.value < 0
    ensures ThresholdField in errors <==> req.threshold.None? || req.threshold.value < 0
    ensures UnitField in errors <==> !AllowedUnit(req.unit)
  {
    Flag(req.stockId == "", StockIdField)
    + Flag(req.stockName == "", StockNameField)
    + Flag(req.categoryId.None?, CategoryIdField)
    + Flag(req.quantity.None? || req.quantity.value < 0, QuantityField)
    + Flag(req.threshold.None? || req.threshold.value < 0, ThresholdField)
    + Flag(!AllowedUnit(req.unit), UnitField)
  }

  /** One rule's contribution to the error list: its field when it rejects, nothing otherwise. */
  function Flag(rejected: bool, f: Field): (r: seq<Field>)
    ensures forall g :: g in r <==> rejected && g == f
  {
    if rejected then [f] else []
  }

  /** The 400 body: the names of the rejected fields. */
  function ErrorText(errors: seq<Field>): string {
    Join(seq(|errors|, k requires 0 <= k < |errors| => errors[k].Name()), ',')
  }

  /** The catalogue row the first INSERT writes (with the trimmed id and name, no supplier, not archived). */
  function CatalogueRow(req: AddStockRequest, id: nat): InventoryItem
    requires ValidationErrors(req) == []
  {
    InventoryItem(id, Trim(req.stockId), Trim(req.stockName), req.categoryId.value, req.unit, None,
                  req.threshold.value, false)
  }

  /** The batch row the second INSERT writes: the whole delivery is still remaining. */
  function DeliveryRow(req: AddStockRequest, id: nat, inventoryId: nat): Batch
    requires ValidationErrors(req) == []
  {
    Batch(id, inventoryId, req.deliveryDate, req.quantity.value, req.quantity.value, req.unit, req.expirationDate)
  }

  /**
   * The validator checks emptiness before trimming, so an id of blanks is
   * accepted and stored as the empty string.
   */
  lemma BlankStockIdAccepted()
    ensures var req := AddStockRequest(" ", "Sugar", Some(1), Some(5), "kg", 0, 30, Some(2));
      ValidationErrors(req) == [] && CatalogueRow(req, 1).stockId == ""
  {
    KilogramsAllowed();
    BlankTrimsToEmpty();
  }

  lemma KilogramsAllowed()
    ensures AllowedUnit("kg")
  {
    assert ALLOWED_UNITS[0] == "kg";
  }

  lemma BlankTrimsToEmpty()
    ensures Trim(" ") == ""
  {
    assert TrimStart(" ") == [];
  }

  /** Where a database step of the add-stock transaction fails, if anywhere. */
  datatype Fault = NoFault | BeginFails | CatalogueInsertFails | DetailsInsertFails | CommitFails

  /** Ids are unique and below their counters, and every batch belongs to a catalogue row. */
  predicate TablesValid(items: seq<InventoryItem>, batches: seq<Batch>, nextItemId: nat, nextBatchId: nat) {
    && UniqueItemIds(items)
    && (forall k :: 0 <= k < |items| ==> items[k].id < nextItemId)
    && (forall k, l :: 0 <= k < l < |batches| ==> batches[k].id != batches[l].id)
    && (forall k :: 0 <= k < |batches| ==> batches[k].id < nextBatchId)
    && (forall k :: 0 <= k < |batches| ==> HasItem(items, batches[k].inventoryId))
  }

  /** Appending a catalogue row and a batch linked to it, under fresh ids, keeps the tables consistent. */
  lemma AppendKeepsTablesValid(items: seq<InventoryItem>, batches: seq<Batch>, nextItemId: nat, nextBatchId: nat,
                               item: InventoryItem, batch: Batch)
    requires TablesValid(items, batches, nextItemId, nextBatchId)
    requires item.id == nextItemId && batch.id == nextBatchId && batch.inventoryId == item.id
    ensures !HasItem(items, item.id)
    ensures TablesValid(items + [item], batches + [batch], nextItemId + 1, nextBatchId + 1)
  {
    var items', batches' := items + [item], batches + [batch];
    assert items'[|items|] == item;
    forall k | 0 <= k < |batches'|
      ensures HasItem(items', batches'[k].inventoryId)
    {
      if k < |batches| {
        var m :| 0 <= m < |items| && items[m].id == batches[k].inventoryId;
        assert items'[m] == items[m];
      }
    }
  }

  /** Counters that only grow keep the tables consistent. */
  lemma CountersGrowKeepsTablesValid(items: seq<InventoryItem>, batches: seq<Batch>, i0: nat, b0: nat, i1: nat, b1: nat)
    requires TablesValid(items, batches, i0, b0) && i0 <= i1 && b0 <= b1
    ensures TablesValid(items, batches, i1, b1)
  {
  }

  /** The two stock tables and their auto-increment counters. */
  class InventoryStore {
    var items: seq<InventoryItem>
    var batches: seq<Batch>
    var nextItemId: nat
    var nextBatchId: nat

    ghost predicate Valid()
      reads this
    {
      TablesValid(items, batches, nextItemId, nextBatchId)
    }

    constructor ()
      ensures Valid()
      ensures items == [] && batches == []
    {
      items, batches := [], [];
      nextItemId, nextBatchId := 1, 1;
    }

    /**
     * POST /: validates the request (400, nothing touched), then inserts the
     * catalogue row and a batch row linked to it by the new id inside one
     * transaction. A failure of either insert or of the commit rolls back
     * and answers 500, leaving both tables as they were.
     */
    method AddStock(req: AddStockRequest, fault: Fault) returns (reply: Reply<string>)
      requires Valid()
      modifies this
      ensures Valid()
      ensures reply.BadRequest? <==> ValidationErrors(req) != []
      ensures reply.BadRequest? ==> reply.error == ErrorText(ValidationErrors(req))
      ensures reply.Created? <==> ValidationErrors(req) == [] && fault == NoFault
      ensures reply.Created? || reply.BadRequest? || reply.ServerError?
      ensures !reply.Created? ==> items == old(items) && batches == old(batches)
      ensures reply.Created? ==>
        && |items| == |old(items)| + 1
        && items[..|old(items)|] == old(items)
        && !HasItem(old(items), items[|old(items)|].id)
        && items[|old(items)|] == CatalogueRow(req, items[|old(items)|].id)
        && |batches| == |old(batches)| + 1
        && batches[..|old(batches)|] == old(batches)
        && batches[|old(batches)|] == DeliveryRow(req, batches[|old(batches)|].id, items[|old(items)|].id)
    {
      var errors := ValidationErrors(req);
      if errors != [] {
        return BadRequest(ErrorText(errors));
      }
      if fault == BeginFails {
        return ServerError("transaction could not begin");
      }
      var savedItems, savedBatches := items, batches;
      var firstItemId, firstBatchId := nextItemId, nextBatchId;

      if fault == CatalogueInsertFails {
        return ServerError("insert into inventory failed");
      }
      var item := CatalogueRow(req, firstItemId);
      var batch := DeliveryRow(req, firstBatchId, firstItemId);
      items := items + [item];
      nextItemId := nextItemId + 1;

      if fault == DetailsInsertFails {
        items, batches := savedItems, savedBatches;
        CountersGrowKeepsTablesValid(items, batches, firstItemId, firstBatchId, nextItemId, nextBatchId);
        return ServerError("insert into inventory_details failed");
      }
      batches := batches + [batch];
      nextBatchId := nextBatchId + 1;

      if fault == CommitFails {
        items, batches := savedItems, savedBatches;
        CountersGrowKeepsTablesValid(items, batches, firstItemId, firstBatchId, nextItemId, nextBatchId);
        return ServerError("commit failed");
      }
      AppendKeepsTablesValid(savedItems, savedBatches, firstItemId, firstBatchId, item, batch);
      reply := Created("Stock added successfully");
    }
  }

  // ------------------------------------------------------------ GET /inventory/history

  /**
   * The delivery history: every batch, newest delivery first; 404 when the
   * table is empty.
   */
  method History(details: seq<Batch>) returns (reply: Reply<seq<Batch>>)
    ensures reply.NotFound? <==> details == []
    ensures reply.NotFound? ==> reply.error == "Stock not found"
    ensures reply.Ok? || reply.NotFound?
    ensures reply.Ok? ==> SortedByDelivery(reply.body, true)
    ensures reply.Ok? ==> multiset(reply.body) == multiset(details)
  {
    if |details| == 0 {
      return NotFound("Stock not found");
    }
    var a := new Batch[|details|](k requires 0 <= k < |details| => details[k]);
    assert a[..] == details;
    SortByDelivery(a, true);
    reply := Ok(a[..]);
  }
}
