/**
 * The inventory page of the admin client: the delivery history grouped by
 * stock item, the current and past batches shown under each listed row,
 * the status filter and search over the listing, the expanded-row set and
 * the archive action of the row menu.
 */
module InventoryPage {
  import opened Common
  import opened Text
  import opened Lists
  import opened Ledger
  import opened InventoryRoutes

  // ---------------------------------------------------------------- grouping the history

  /**
   * The history grouped by `inventory_id`, each group oldest delivery
   * first. The comment above the sort in the page says newest first; the
   * comparator subtracts the second date from the first, which orders
   * oldest first.
   */
  method GroupByInventory(details: seq<Batch>) returns (groups: map<nat, seq<Batch>>)
    ensures forall id :: id in groups <==> exists b :: b in details && b.inventoryId == id
    ensures forall id :: id in groups ==> SortedByDelivery(groups[id], false)
    ensures forall id :: id in groups ==> multiset(groups[id]) == multiset(BatchesOf(details, id))
  {
    var collected := CollectByInventory(details);
    groups := SortEachGroup(collected);
    forall id
      ensures id in groups <==> exists b :: b in details && b.inventoryId == id
    {
      if id in groups {
        var own := BatchesOf(details, id);
        assert own[0] in own;
      } else if b :| b in details && b.inventoryId == id {
        assert b in BatchesOf(details, id);
      }
    }
  }

  /** `acc` is the reduce result over `prefix`: the ids present are the keys, each holding its details in order. */
  ghost predicate Collected(acc: map<nat, seq<Batch>>, prefix: seq<Batch>) {
    && (forall id :: HistoryOf(acc, id) == BatchesOf(prefix, id))
    && (forall id :: id in acc ==> acc[id] != [])
  }

  /** The reduce step: each detail pushed onto the list of its `inventory_id`, in history order. */
  method CollectByInventory(details: seq<Batch>) returns (acc: map<nat, seq<Batch>>)
    ensures forall id :: id in acc <==> BatchesOf(details, id) != []
    ensures forall id :: id in acc ==> acc[id] == BatchesOf(details, id)
  {
    acc := map[];
    var i := 0;
    while i < |details|
      invariant 0 <= i <= |details|
      invariant Collected(acc, details[..i])
    {
      var detail := details[i];
      var group := if detail.inventoryId in acc then acc[detail.inventoryId] else [];
      CollectStep(acc, details, i);
      acc := acc[detail.inventoryId := group + [detail]];
      i := i + 1;
    }
    assert details[..i] == details;
    CollectedEntries(acc, details);
  }

  lemma {:induction false} CollectedEntries(acc: map<nat, seq<Batch>>, details: seq<Batch>)
    requires Collected(acc, details)
    ensures forall id :: id in acc <==> BatchesOf(details, id) != []
    ensures forall id :: id in acc ==> acc[id] == BatchesOf(details, id)
  {
    forall id
      ensures id in acc <==> BatchesOf(details, id) != []
    {
      assert HistoryOf(acc, id) == BatchesOf(details, id);
    }
  }

  /** Pushing one more detail onto its id's list keeps the reduce result correct for the longer prefix. */
  lemma {:induction false} CollectStep(acc: map<nat, seq<Batch>>, details: seq<Batch>, i: nat)
    requires i < |details| && Collected(acc, details[..i])
    ensures Collected(acc[details[i].inventoryId := HistoryOf(acc, details[i].inventoryId) + [details[i]]], details[..i + 1])
  {
    assert details[..i + 1] == details[..i] + [details[i]];
    CollectPush(acc, details[..i], details[i]);
  }

  lemma {:induction false} CollectPush(acc: map<nat, seq<Batch>>, prefix: seq<Batch>, detail: Batch)
    requires Collected(acc, prefix)
    ensures Collected(acc[detail.inventoryId := HistoryOf(acc, detail.inventoryId) + [detail]], prefix + [detail])
  {
    forall id {
      PushedHistory(acc, prefix, detail, id);
    }
  }

  /** The pushed detail joins its own id's list and no other. */
  lemma {:induction false} PushedHistory(acc: map<nat, seq<Batch>>, prefix: seq<Batch>, detail: Batch, id: nat)
    requires HistoryOf(acc, id) == BatchesOf(prefix, id)
    ensures HistoryOf(acc[detail.inventoryId := HistoryOf(acc, detail.inventoryId) + [detail]], id)
         == BatchesOf(prefix + [detail], id)
  {
    FilterConcat(prefix, [detail], OfItem(id));
    assert Filter([detail], OfItem(id)) == if detail.inventoryId == id then [detail] else [];
  }

  /** The sort step: every group put in ascending order of delivery date. */
  method SortEachGroup(collected: map<nat, seq<Batch>>) returns (groups: map<nat, seq<Batch>>)
    ensures groups.Keys == collected.Keys
    ensures forall id :: id in groups ==> SortedByDelivery(groups[id], false)
    ensures forall id :: id in groups ==> multiset(groups[id]) == multiset(collected[id])
  {
    groups := map[];
    var todo := collected.Keys;
    while todo != {}
      invariant todo <= collected.Keys
      invariant groups.Keys == collected.Keys - todo
      invariant forall id :: id in groups ==> SortedByDelivery(groups[id], false)
      invariant forall id :: id in groups ==> multiset(groups[id]) == multiset(collected[id])
      decreases |todo|
    {
      var id :| id in todo;
      var group := collected[id];
      var a := new Batch[|group|](k requires 0 <= k < |group| => group[k]);
      assert a[..] == group;
      SortByDelivery(a, false);
      groups := groups[id := a[..]];
      todo := todo - {id};
    }
  }

  /** The sizes of the groups of `ids`, added up. */
  function GroupTotal(details: seq<Batch>, ids: seq<nat>): nat {
    if ids == [] then 0 else |BatchesOf(details, ids[0])| + GroupTotal(details, ids[1..])
  }

  predicate DistinctIds(ids: seq<nat>) {
    forall p, q :: 0 <= p < q < |ids| ==> ids[p] != ids[q]
  }

  /** Grouping loses and duplicates nothing: over the distinct ids present, the group sizes add up to the history's size. */
  lemma {:induction false} GroupingKeepsCount(details: seq<Batch>, ids: seq<nat>)
    requires DistinctIds(ids)
    requires forall k :: 0 <= k < |details| ==> details[k].inventoryId in ids
    ensures GroupTotal(details, ids) == |details|
  {
    if details == [] {
      GroupTotalOfNothing(ids);
    } else {
      var rest := details[1..];
      assert details == [details[0]] + rest;
      GroupTotalCons(details[0], rest, ids);
      GroupingKeepsCount(rest, ids);
    }
  }

  lemma {:induction false} GroupTotalOfNothing(ids: seq<nat>)
    ensures GroupTotal([], ids) == 0
  {
    if ids != [] {
      GroupTotalOfNothing(ids[1..]);
    }
  }

  /** One more detail adds one to exactly the group of its id. */
  lemma {:induction false} GroupTotalCons(d: Batch, rest: seq<Batch>, ids: seq<nat>)
    requires DistinctIds(ids)
    ensures GroupTotal([d] + rest, ids) == GroupTotal(rest, ids) + (if d.inventoryId in ids then 1 else 0)
  {
    if ids != [] {
      var s := [d] + rest;
      assert s[0] == d && s[1..] == rest;
      assert |BatchesOf(s, ids[0])| == (if d.inventoryId == ids[0] then 1 else 0) + |BatchesOf(rest, ids[0])|;
      assert d.inventoryId == ids[0] ==> d.inventoryId !in ids[1..];
      assert d.inventoryId in ids <==> d.inventoryId == ids[0] || d.inventoryId in ids[1..];
      GroupTotalCons(d, rest, ids[1..]);
    }
  }

  // ---------------------------------------------------------------- one listed row

  function Positive(): Batch -> bool {
    (b: Batch) => b.remaining > 0
  }

  /** `stockHistory[id] || []`: the group of an item, empty when the history has none. */
  function HistoryOf(history: map<nat, seq<Batch>>, id: nat): seq<Batch> {
    if id in history then history[id] else []
  }

  /**
   * The batches shown under a listed row: those with stock left, newest
   * delivery first; the first is the current stock, the rest are past
   * stocks, and the row can expand only when there is a past stock.
   */
  method RowStocks(history: map<nat, seq<Batch>>, id: nat) returns (current: Option<Batch>, past: seq<Batch>, hasLastStock: bool)
    ensures var positive := Filter(HistoryOf(history, id), Positive());
      && (current.None? <==> positive == [])
      && (current.None? ==> past == [])
      && (current.Some? ==> multiset([current.value] + past) == multiset(positive))
      && (hasLastStock <==> |positive| >= 2)
    ensures current.Some? ==> current.value.remaining > 0 && forall b :: b in past ==> b.remaining > 0
    ensures current.Some? ==> SortedByDelivery([current.value] + past, true)
    ensures current.Some? ==> forall b :: b in past ==> b.deliveryDate <= current.value.deliveryDate
  {
    var positive := Filter(HistoryOf(history, id), Positive());
    var sorted := NewestFirst(positive);
    SortedKeepsPositive(positive, sorted);
    if |sorted| == 0 {
      current, past := None, [];
    } else {
      current, past := Some(sorted[0]), sorted[1..];
      assert [current.value] + past == sorted;
      HeadIsNewest(sorted);
    }
    hasLastStock := |past| > 0;
  }

  /** A sorted copy, newest delivery first. */
  method NewestFirst(bs: seq<Batch>) returns (sorted: seq<Batch>)
    ensures SortedByDelivery(sorted, true)
    ensures multiset(sorted) == multiset(bs)
  {
    var a := new Batch[|bs|](k requires 0 <= k < |bs| => bs[k]);
    assert a[..] == bs;
    SortByDelivery(a, true);
    sorted := a[..];
  }

  /** A permutation of batches with stock left has as many batches, all with stock left. */
  lemma SortedKeepsPositive(positive: seq<Batch>, sorted: seq<Batch>)
    requires forall k :: 0 <= k < |positive| ==> positive[k].remaining > 0
    requires multiset(sorted) == multiset(positive)
    ensures |sorted| == |positive|
    ensures forall b :: b in sorted ==> b.remaining > 0
  {
    assert |multiset(sorted)| == |multiset(positive)|;
    forall b | b in sorted
      ensures b.remaining > 0
    {
      assert b in multiset(positive);
    }
  }

  /** In newest-first order, the first batch is delivered no earlier than any other. */
  lemma HeadIsNewest(sorted: seq<Batch>)
    requires sorted != [] && SortedByDelivery(sorted, true)
    ensures forall b :: b in sorted[1..] ==> b.deliveryDate <= sorted[0].deliveryDate
  {
    forall b | b in sorted[1..]
      ensures b.deliveryDate <= sorted[0].deliveryDate
    {
      var k :| 0 <= k < |sorted[1..]| && sorted[1..][k] == b;
      assert SortKey(sorted[0], true) <= SortKey(sorted[k + 1], true);
    }
  }

  // ---------------------------------------------------------------- status filter and search

  const ALL_STOCKS: string := "All Stocks"

  /** The options of the filter menu, as the page offers them. */
  const FILTER_OPTIONS: seq<string> := [ALL_STOCKS, "Available", "Restock", "Out-of-Stock"]

  /** The options with the out-of-stock label the listing actually emits. */
  const CORRECTED_FILTER_OPTIONS: seq<string> := [ALL_STOCKS, AVAILABLE, RESTOCK, OUT_OF_STOCK]

  function StatusIs(status: string): ListingRow -> bool {
    (row: ListingRow) => row.status == status
  }

  /** `filterByStatus`: every row for "All Stocks", otherwise the rows whose status equals the chosen option. */
  function FilterByStatus(rows: seq<ListingRow>, filterStatus: string): (r: seq<ListingRow>)
    ensures filterStatus == ALL_STOCKS ==> r == rows
    ensures filterStatus != ALL_STOCKS ==> forall row :: row in r <==> row in rows && row.status == filterStatus
    ensures multiset(r) <= multiset(rows)
  {
    if filterStatus == ALL_STOCKS then rows else Filter(rows, StatusIs(filterStatus))
  }

  /** Every listed status is one of the three the listing query can produce. */
  lemma {:induction false} ListingStatuses(items: seq<InventoryItem>, batches: seq<Batch>, row: ListingRow)
    requires row in Listing(items, batches)
    ensures row.status in {OUT_OF_STOCK, RESTOCK, AVAILABLE}
  {
    ListingOnlyLive(items, batches, row);
  }

  /** The "Out-of-Stock" option of the page never matches a listed row: the listing says "Out of Stock". */
  lemma OfferedOutOfStockMatchesNothing(items: seq<InventoryItem>, batches: seq<Batch>)
    ensures FILTER_OPTIONS[3] == "Out-of-Stock"
    ensures FilterByStatus(Listing(items, batches), FILTER_OPTIONS[3]) == []
  {
    var rows := Listing(items, batches);
    forall row | row in rows
      ensures !StatusIs("Out-of-Stock")(row)
    {
      ListingStatuses(items, batches, row);
    }
    FilterKeepsNone(rows, StatusIs("Out-of-Stock"));
  }

  /** An item without stock is listed, yet no option of the page shows it except "All Stocks". */
  lemma EmptyItemHiddenByEveryStatusOption(items: seq<InventoryItem>, batches: seq<Batch>, item: InventoryItem)
    requires item in items && !item.archived
    requires forall b :: b in batches ==> b.inventoryId != item.id
    ensures RowFor(item, batches) in Listing(items, batches)
    ensures forall k :: 1 <= k < |FILTER_OPTIONS| ==> RowFor(item, batches) !in FilterByStatus(Listing(items, batches), FILTER_OPTIONS[k])
  {
    ListingCoversLive(items, batches, item);
    ItemWithoutBatches(item, batches);
  }

  /** With the corrected options, every status option selects exactly the listed rows of that status, and each listed row has an option. */
  lemma CorrectedOptionsCoverListing(items: seq<InventoryItem>, batches: seq<Batch>, row: ListingRow)
    requires row in Listing(items, batches)
    ensures exists k :: 1 <= k < |CORRECTED_FILTER_OPTIONS| && CORRECTED_FILTER_OPTIONS[k] == row.status
    ensures row in FilterByStatus(Listing(items, batches), row.status)
  {
    ListingStatuses(items, batches, row);
    if row.status == AVAILABLE {
      assert CORRECTED_FILTER_OPTIONS[1] == row.status;
    } else if row.status == RESTOCK {
      assert CORRECTED_FILTER_OPTIONS[2] == row.status;
    } else {
      assert CORRECTED_FILTER_OPTIONS[3] == row.status;
    }
  }

  /**
   * The search as the page writes it reads `item.name`, a column the
   * listing rows do not have; calling `toLowerCase` on it throws on the
   * first row, so the search yields nothing (`None`) whenever a row is
   * listed.
   */
  function SearchAsWritten(rows: seq<ListingRow>, searchTerm: string): (r: Option<seq<ListingRow>>)
    ensures r.Some? ==> r.value == []
  {
    if rows == [] then Some([]) else None
  }

  /** One live item is enough for the page's search to throw, whatever is typed. */
  lemma SearchFailsOnAnyListing(items: seq<InventoryItem>, batches: seq<Batch>, searchTerm: string, item: InventoryItem)
    requires item in items && !item.archived
    ensures SearchAsWritten(Listing(items, batches), searchTerm).None?
  {
    ListingCoversLive(items, batches, item);
  }

  function MatchesStock(searchTerm: string): ListingRow -> bool {
    (row: ListingRow) => ContainsIgnoringCase(row.stockName, searchTerm) || ContainsIgnoringCase(row.stockId, searchTerm)
  }

  /** The search over the columns the listing has: stock name or stock id contains the term, ignoring case. */
  function SearchByStockName(rows: seq<ListingRow>, searchTerm: string): (r: seq<ListingRow>)
    ensures forall row :: row in r <==> row in rows && MatchesStock(searchTerm)(row)
    ensures multiset(r) <= multiset(rows)
  {
    Filter(rows, MatchesStock(searchTerm))
  }

  /** An empty search keeps every row. */
  lemma EmptySearchKeepsAll(rows: seq<ListingRow>)
    ensures SearchByStockName(rows, "") == rows
  {
    forall row | row in rows
      ensures MatchesStock("")(row)
    {
      ContainsEmpty(Lower(row.stockName));
    }
    FilterKeepsAll(rows, MatchesStock(""));
  }

  /**
   * The rows the table shows, with the corrected search (`SearchByStockName`)
   * followed by the status filter. As written, the search throws on any
   * non-empty listing (`SearchFailsOnAnyListing`), so the page shows no rows.
   */
  function FilteredData(rows: seq<ListingRow>, searchTerm: string, filterStatus: string): (r: seq<ListingRow>)
    ensures forall row :: row in r <==>
      && row in rows && MatchesStock(searchTerm)(row)
      && (filterStatus == ALL_STOCKS || row.status == filterStatus)
  {
    FilterByStatus(SearchByStockName(rows, searchTerm), filterStatus)
  }

  // ---------------------------------------------------------------- expanded rows

  /** `toggleRow`: the id leaves the set of expanded rows when it is in it, and joins it otherwise. */
  function ToggleRow(expanded: set<nat>, id: nat): (r: set<nat>)
    ensures id in r <==> id !in expanded
    ensures r - {id} == expanded - {id}
  {
    if id in expanded then expanded - {id} else expanded + {id}
  }

  /** Toggling the same row twice restores the set. */
  lemma ToggleTwice(expanded: set<nat>, id: nat)
    ensures ToggleRow(ToggleRow(expanded, id), id) == expanded
  {
    var once := ToggleRow(expanded, id);
    var twice := ToggleRow(once, id);
    assert twice - {id} == expanded - {id};
    assert id in twice <==> id in expanded;
  }

  // ---------------------------------------------------------------- archive from the row menu

  /** A JavaScript value used as a key: the numeric `id` of a row, or a string. Strict equality never equates the two kinds. */
  datatype Key = Num(n: nat) | Str(s: string)

  function HasKey(key: Key): ListingRow -> bool {
    (row: ListingRow) => Num(row.id) == key
  }

  /**
   * `handleArchive`: the first row whose numeric id is strictly equal to
   * the key joins the archived items; the listing itself is not changed,
   * and a key matching no row changes nothing.
   */
  function HandleArchive(rows: seq<ListingRow>, archived: seq<ListingRow>, key: Key): (r: seq<ListingRow>)
    ensures (forall k :: 0 <= k < |rows| ==> Num(rows[k].id) != key) ==> r == archived
    ensures (exists k :: 0 <= k < |rows| && Num(rows[k].id) == key) ==>
      r == archived + [rows[FindIndex(rows, HasKey(key)).value]]
    ensures key.Str? ==> r == archived
  {
    match Find(rows, HasKey(key))
    case None => archived
    case Some(row) => archived + [row]
  }

  /** The menu of a row is opened under `main-` and the row's stock id. */
  function MenuKey(row: ListingRow): string {
    "main-" + row.stockId
  }

  /** The Archive entry of the menu: the menu key with `main-` removed, passed on as a string. */
  function ArchiveFromMenu(rows: seq<ListingRow>, archived: seq<ListingRow>, activeDropdown: string): seq<ListingRow> {
    HandleArchive(rows, archived, Str(ReplaceFirst(activeDropdown, "main-", "")))
  }

  /** The Archive entry never archives anything: a stock id string is never strictly equal to a numeric id. */
  lemma MenuArchiveIsNoOp(rows: seq<ListingRow>, archived: seq<ListingRow>, row: ListingRow)
    requires row in rows
    ensures ArchiveFromMenu(rows, archived, MenuKey(row)) == archived
  {
  }

  /** Removing the `main-` prefix gives back the stock id. */
  lemma MenuKeyStockId(row: ListingRow)
    ensures ReplaceFirst(MenuKey(row), "main-", "") == row.stockId
  {
    var key := MenuKey(row);
    assert key[..|"main-"|] == "main-";
    assert key[|"main-"|..] == row.stockId;
  }

  function HasStockId(stockId: string): ListingRow -> bool {
    (row: ListingRow) => row.stockId == stockId
  }

  /** The archive the menu evidently intends: look the row up by the stock id the menu carries. */
  function ArchiveByStockId(rows: seq<ListingRow>, archived: seq<ListingRow>, stockId: string): (r: seq<ListingRow>)
    ensures (forall k :: 0 <= k < |rows| ==> rows[k].stockId != stockId) ==> r == archived
    ensures (exists k :: 0 <= k < |rows| && rows[k].stockId == stockId) ==>
      r == archived + [rows[FindIndex(rows, HasStockId(stockId)).value]]
  {
    match Find(rows, HasStockId(stockId))
    case None => archived
    case Some(row) => archived + [row]
  }

  /** Through the corrected lookup, the menu of a listed row archives a row with that stock id. */
  lemma MenuArchiveByStockId(rows: seq<ListingRow>, archived: seq<ListingRow>, row: ListingRow)
    requires row in rows
    ensures var r := ArchiveByStockId(rows, archived, ReplaceFirst(MenuKey(row), "main-", ""));
      |r| == |archived| + 1 && r[..|archived|] == archived && r[|archived|].stockId == row.stockId
  {
    MenuKeyStockId(row);
    var k :| 0 <= k < |rows| && rows[k] == row;
    assert rows[k].stockId == row.stockId;
  }
}
