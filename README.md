# Whisked Café back office — a Dafny model of its stock, employee and product core

This project models the core of the Whisked Café back office:

- the Express routes for the stock catalogue (`inventory`) and its delivery batches (`inventory_details`);
- the Express routes for the `employee` table;
- the client's stock-number service;
- the admin pages that show stock and products, and the forms that add and edit them.

The two database tables are sequences of rows. Each table's auto-increment counter is an explicit field.

**Stock routes (`InventoryRoutes`, built on `Ledger`)**
- The listing query is a function over the two tables, with its `COALESCE(SUM)`/`MIN` aggregates and its status `CASE`.
- The add-stock POST is a method on a class holding both tables. It validates the request, then runs the two inserts in one transaction. A failing step is given as a parameter; on failure the transaction rolls back.
- The history is sorted in place on an array.

**Employee routes (`EmployeeRoutes`)**
- The table is a class whose invariant keeps ids and email addresses unique.
- Lookup, insert, delete and partial update are its members.
- The PUT builder is a method that pushes a `SET` clause and a parameter for each given field.
- The `/roles` parser reads the role names out of the column's `enum(...)` type.

**Client side**
- `StockNumbers`: the stock-number service is a loop proved against a running-maximum function.
- `InventoryPage`: the inventory page groups and sorts the history with loops over a map and arrays. Its filters, search, expanded-row set and archive action are functions.
- `Products`, `ProductPage`: the product page's handlers are functions from the old product list to the new one. `Products` holds the sequential product ids shared by the two product pages.
- `AddProductModal`: the add-product form is a class. Its ingredient lines are objects, because the editors assign a field of a line in place inside a shallow copy of the list.
- `EditProductModal`: the edit-product form is a value. Its list editors copy the list into an array and assign one slot.

**Shared modules**
- `Common`: `Option` and the HTTP reply.
- `Lists`: JavaScript's `filter`, `find` and `findIndex`, and filtering by position.
- `SqlNumbers`: how MySQL reads a string compared with an integer column: leading blanks skipped, then a sign, digits, a fraction and an exponent, with the text after them ignored.
- `Text`: ASCII case mapping, `trim` over JavaScript's white-space characters, `padStart`, decimal digits, `split`/`join`, `replace` and `includes`.

**Conventions**
- Dates are day numbers.
- Quantities and prices are integers.
- The time stamps that `Date.now()` gives are string parameters.

**Where the code and its comments disagree**
- The comment above the sort of each history group in `client/src/Pages/Admin/Inventory.jsx` says newest first. The comparator subtracts the second date from the first, which sorts oldest first. The model follows the comparator: `InventoryPage.GroupByInventory` sorts each group ascending.
- The rows under a listed item are sorted newest first by a second sort, on line 323 of the same file.

## Model

| member | source | states |
|---|---|---|
| Ledger.StockStatus | backend/routes/inventoryRoutes.js:26-30 | the status is one of three; "Out of Stock" iff the summed remaining quantity is 0, "Restock" iff it is nonzero and at most the threshold, "Available" iff it is nonzero and above the threshold |
| Ledger.BatchesOf | backend/routes/inventoryRoutes.js:32 | the joined batches are exactly those whose `inventory_id` is the item's |
| Ledger.Earliest | backend/routes/inventoryRoutes.js:24-25 | `MIN` is NULL iff there are no rows, otherwise a value of the column no greater than any other |
| Ledger.SortByDelivery | backend/routes/inventoryRoutes.js:120 | the array ends up ordered by delivery date (newest or oldest first) and is a permutation of what it held |
| InventoryRoutes.ListingOnlyLive | backend/routes/inventoryRoutes.js:31-34 | every listed row is the aggregate of a catalogue item whose `archive` is 0 |
| InventoryRoutes.ListingCoversLive | backend/routes/inventoryRoutes.js:31-34 | every catalogue item whose `archive` is 0 is listed, batches or not (LEFT JOIN) |
| InventoryRoutes.ListingOneRowPerItem | backend/routes/inventoryRoutes.js:34 | with unique item ids, the GROUP BY lists no id twice |
| InventoryRoutes.RemainingTotalZeroIff | backend/routes/inventoryRoutes.js:22-27 | with no negative remaining quantity, an item is "Out of Stock" exactly when every one of its batches is used up |
| InventoryRoutes.ItemWithoutBatches | backend/routes/inventoryRoutes.js:22-32 | an item with no batches is listed with remaining and initial quantity 0, no dates and status "Out of Stock" |
| InventoryRoutes.ListedStatus | backend/routes/inventoryRoutes.js:22-30 | a listed row's remaining quantity is the sum over the item's batches and its status follows the three-way rule on that sum |
| InventoryRoutes.StockById | backend/routes/inventoryRoutes.js:47-69 | the path string goes to `WHERE i.id = ?` as it is: 404 "Stock not found" iff the value MySQL reads from it is no non-negative integer or no catalogue row has that id; otherwise that row with a batch of it, absent iff it has none |
| InventoryRoutes.StockByIdThroughSqlId | backend/routes/inventoryRoutes.js:57-61 | two paths MySQL reads as the same id get the same answer |
| InventoryRoutes.StockByIdIgnoresTail | backend/routes/inventoryRoutes.js:57-61 | text after the digits of the path that opens no fraction or exponent is ignored: `/7abc` answers as `/7` does |
| InventoryRoutes.StockByIdFraction | backend/routes/inventoryRoutes.js:57-61 | a path with a non-zero fraction, such as `/1.5`, answers 404 |
| InventoryRoutes.ValidationErrors | backend/routes/inventoryRoutes.js:7-14 | a field is rejected iff it fails its rule: empty stock id or name, a category that is not an integer, a negative or non-numeric quantity or threshold, a unit outside the eight allowed |
| InventoryRoutes.BlankStockIdAccepted | backend/routes/inventoryRoutes.js:8 | emptiness is checked before trimming, so a stock id of blanks passes validation and is stored as "" |
| InventoryRoutes.AppendKeepsTablesValid | backend/routes/inventoryRoutes.js:86-95 | a catalogue row plus one batch linked to it, under fresh ids, keeps ids unique and every batch attached to a catalogue row |
| InventoryRoutes.InventoryStore.AddStock | backend/routes/inventoryRoutes.js:72-105 | 400 iff validation fails, touching nothing; 201 iff valid and no step fails, appending one catalogue row and one batch linked to it whose remaining quantity equals its quantity; any failing step answers 500 and leaves both tables as they were; the tables stay consistent |
| InventoryRoutes.History | backend/routes/inventoryRoutes.js:107-135 | 404 iff there are no batches; otherwise all of them (a permutation), newest delivery first |
| EmployeeRoutes.CleanValue | backend/routes/employeeRoutes.js:43 | a role name holds no single quote and has no white space at either end |
| EmployeeRoutes.ParseRoles | backend/routes/employeeRoutes.js:40-44 | one role per comma-separated field of the cleaned type, each unquoted and trimmed |
| EmployeeRoutes.ParseRolesOfEnumType | backend/routes/employeeRoutes.js:40-44 | parsing the type MySQL reports for `enum('a','b',…)` gives back exactly `a, b, …` in order, for values without quotes, commas, `)` or edge blanks |
| SqlNumbers.SqlId | backend/routes/employeeRoutes.js:140-141 | the id `WHERE id = ?` can match is the value MySQL reads from the parameter when that is a non-negative integer, none otherwise; a digit string reads as its own value |
| SqlNumbers.IntegerValue | backend/routes/employeeRoutes.js:140-141 | a zero mantissa reads as 0, a negative non-zero value matches no id, and a value without sign or scale is its mantissa |
| SqlNumbers.SqlIdSkipsBlanks | backend/routes/employeeRoutes.js:140-141 | a leading space or tab does not change the id read |
| SqlNumbers.SqlIdSigned | backend/routes/employeeRoutes.js:140-141 | `+d` reads as `d`; `-d` with `d` non-zero matches no id |
| SqlNumbers.SqlIdFraction | backend/routes/employeeRoutes.js:140-141 | `d.f` matches id `d` when the fraction digits are all zeros and no id otherwise |
| SqlNumbers.SqlIdExponent | backend/routes/employeeRoutes.js:140-141 | `dEe` reads as `d` times ten to the power `e` |
| SqlNumbers.SqlIdIgnoresTail | backend/routes/employeeRoutes.js:140-141 | text after the digits that starts no fraction or exponent is ignored |
| SqlNumbers.SqlIdOfText | backend/routes/employeeRoutes.js:140-141 | a string that does not open with a numeral reads as 0 |
| SqlNumbers.FractionExample | backend/routes/employeeRoutes.js:140-141 | `1.5` matches no id |
| SqlNumbers.BlankExample | backend/routes/employeeRoutes.js:140-141 | ` 7` matches id 7 |
| SqlNumbers.SignExample | backend/routes/employeeRoutes.js:140-141 | `+7` matches id 7 |
| SqlNumbers.TailExample | backend/routes/employeeRoutes.js:140-141 | `7abc` matches id 7 |
| SqlNumbers.ExponentExample | backend/routes/employeeRoutes.js:140-141 | `1e1` matches id 10 |
| EmployeeRoutes.AppendKeepsTableValid | backend/routes/employeeRoutes.js:100-112 | inserting a row under the next id with an address no row holds keeps ids and email addresses unique |
| EmployeeRoutes.RemoveKeepsTableValid | backend/routes/employeeRoutes.js:141 | deleting a row keeps ids and email addresses unique |
| EmployeeRoutes.ReplaceKeepsTableValid | backend/routes/employeeRoutes.js:236-255 | rewriting a row with an address no other row holds keeps email addresses unique |
| EmployeeRoutes.RemoveKeepsOthers | backend/routes/employeeRoutes.js:141-151 | with unique ids, deleting the matching row leaves exactly the rows with another id |
| EmployeeRoutes.SetColumns | backend/routes/employeeRoutes.js:167-196 | a column is set iff its field is given (truthy); no column is set iff no field is given |
| EmployeeRoutes.SetColumnsInOrder | backend/routes/employeeRoutes.js:177-196 | the set columns come in the order name, email, mobile, role, password |
| EmployeeRoutes.BuildUpdate | backend/routes/employeeRoutes.js:174-199 | the clauses are those of the given columns followed by `updated_at = CURRENT_TIMESTAMP`, the parameters their values followed by the id, position for position |
| EmployeeRoutes.ApplyColumnsEffect | backend/routes/employeeRoutes.js:201-205 | after the UPDATE, each set column holds the request's value and every other column its old value |
| EmployeeRoutes.Updated | backend/routes/employeeRoutes.js:198-205 | the updated row keeps its id, has `updated_at` set to now, and per column holds the given value or the old one |
| EmployeeRoutes.EmployeeTable.Get | backend/routes/employeeRoutes.js:53-79 | 400 iff the id is not numeric; 404 iff it is and no row has it; otherwise the row with that id |
| EmployeeRoutes.EmployeeTable.Add | backend/routes/employeeRoutes.js:82-132 | 400 iff name, email, password or role is missing (mobile is optional) or the address is taken; otherwise one row is appended under a new id; emails stay unique |
| EmployeeRoutes.EmployeeTable.Delete | backend/routes/employeeRoutes.js:135-153 | 400 iff the id is empty; 404 iff the value MySQL reads from the id is not a non-negative integer or no row has it; otherwise exactly the row with that id is removed |
| EmployeeRoutes.EmployeeTable.Update | backend/routes/employeeRoutes.js:156-257 | 400 iff the id is not numeric, no field is given, or another row holds the new address; 404 iff no row has the id; otherwise only that row changes, to the updated row; emails stay unique |
| EmployeeRoutes.OwnEmailAllowed | backend/routes/employeeRoutes.js:237 | re-sending one's own address is never a clash: only other rows are compared |
| StockNumbers.TrailingDigits | client/src/services/api.js:22 | the longest run of decimal digits ending the id |
| StockNumbers.SuffixNumberOf | client/src/services/api.js:22-24 | an id `prefix-digits` yields the decimal value of the digits after the final hyphen, leading zeros ignored |
| StockNumbers.NoSuffixNumber | client/src/services/api.js:22-23 | an id not ending in a digit does not match and contributes nothing |
| StockNumbers.MaxSuffix | client/src/services/api.js:21-27 | the maximum bounds every parsed number and is 0 or attained by one of them |
| StockNumbers.MaxSuffixOrderIndependent | client/src/services/api.js:21-27 | the result depends only on which ids are listed, not their order or repetition |
| StockNumbers.MaxSuffixMonotone | client/src/services/api.js:21-27 | listing more ids never lowers the maximum |
| StockNumbers.NextStockNumber | client/src/services/api.js:17-30 | the loop returns one more than the largest parsed number over all listed stocks |
| StockNumbers.NextStockNumberBounds | client/src/services/api.js:19-29 | the next number is at least 1, exceeds every parsed number, and is 1 when no id matches |
| AddStockModal.GenerateStockId | client/src/Components/AddStockModal.jsx:71-76 | empty iff the name is empty; otherwise the upper-cased first min(3, length) characters, a hyphen, and the counter plus one zero-padded to exactly max(3, its digit count) digits, never truncated |
| AddStockModal.GeneratedIdSuffix | client/src/Components/AddStockModal.jsx:74-75 | the stock-number service reads the counter plus one back out of a generated id |
| AddStockModal.InitialCounterGives001 | client/src/Components/AddStockModal.jsx:11 | the counter starts at 0 and nothing advances it, so every proposed id ends in 001 |
| AddStockModal.HandleStockNameChange | client/src/Components/AddStockModal.jsx:78-85 | only the name and the proposed id change; every other form field is kept. The handler is never wired up: the name input sets `stockName` inline (line 131) and the id field shows `generateStockId(formData.stockName)` (line 139), which is the same id |
| Text.NamePrefix | client/src/Components/AddStockModal.jsx:73 | min(3, length) characters, each the upper-cased character at that position of the name |
| Products.SequentialId | client/src/Pages/Admin/Product.jsx:60-62 | the prefix followed by digits whose value is one more than the number of ids starting with the prefix, exactly max(3, that number's digit count) of them |
| Products.FirstSequentialId | client/src/Pages/Admin/Product.jsx:61-62 | with no id sharing the prefix the number is 001 |
| ProductPage.GenerateProductId | client/src/Pages/Admin/Product.jsx:58-63 | empty for an empty name, otherwise the sequential id of the name's prefix |
| ProductPage.GeneratedIdCanRepeat | client/src/Pages/Admin/Product.jsx:14-20 | on the sample catalogue, "Cappuccino" is given CAP002, an id already in the list |
| ProductPage.HandleAddProduct | client/src/Pages/Admin/Product.jsx:90-97 | the list grows by one at the end, the old products are kept, and the new one is the given product under the generated id |
| ProductPage.HandleUpdateProduct | client/src/Pages/Admin/Product.jsx:106-113 | the length is kept; each product with the updated id is replaced by the update and every other is kept |
| ProductPage.UpdateIdempotent | client/src/Pages/Admin/Product.jsx:106-111 | applying the same update twice is applying it once |
| ProductPage.UpdateReplacesAll | client/src/Pages/Admin/Product.jsx:108-110 | after updating a listed id, the update is in the list and no stale record with that id remains |
| ProductPage.HandleArchive | client/src/Pages/Admin/Product.jsx:125-132 | an unknown id changes neither list; otherwise the first product with the id is appended to the archive marked "Archived", and the list becomes its filter to the other ids, which keeps their order and multiplicity (`Lists.FilterMultiplicity`, `Lists.FilterConcat`) |
| ProductPage.ArchiveKeepsCount | client/src/Pages/Admin/Product.jsx:126-130 | with distinct products and ids, products and archive together keep their total count |
| ProductPage.FilteredProducts | client/src/Pages/Admin/Product.jsx:65-70 | a product is kept iff its name, id or category contains the term, ignoring case; order and multiplicity from the list |
| ProductPage.EmptyTermKeepsAll | client/src/Pages/Admin/Product.jsx:65-70 | an empty search keeps every product |
| AddProductModal.GenerateProductId | client/src/Components/AddProductModal.jsx:22-29 | "Auto" iff the name is empty or blank; otherwise the upper-cased first three characters of the untrimmed name, with no separator, then the count of ids with that prefix plus one, zero-padded to exactly max(3, its digit count) digits |
| AddProductModal.PrefixKeepsLeadingBlank | client/src/Components/AddProductModal.jsx:24 | the prefix is read from the untrimmed name, so leading blanks are part of it |
| AddProductModal.AddProductForm.constructor | client/src/Components/AddProductModal.jsx:8-15 | the form starts empty with price 0 and one blank ingredient line |
| AddProductModal.AddProductForm.ResetForm | client/src/Components/AddProductModal.jsx:68-75 | back to empty name and category, price 0, no image, and exactly one fresh blank line |
| AddProductModal.AddProductForm.AddIngredient | client/src/Components/AddProductModal.jsx:77-82 | one fresh blank line is appended; the other lines and fields are kept |
| AddProductModal.AddProductForm.RemoveIngredient | client/src/Components/AddProductModal.jsx:84-88 | with one line nothing changes; otherwise exactly the line at `index` is removed (none for an index out of range); at least one line always remains |
| AddProductModal.AddProductForm.SetIngredientName | client/src/Components/AddProductModal.jsx:208-211 | the list keeps the same line objects and only the name of line `index` changes, so the previous list sees the change too |
| AddProductModal.AddProductForm.SetIngredientQuantity | client/src/Components/AddProductModal.jsx:221-224 | the same, for the quantity |
| AddProductModal.AddProductForm.SetIngredientUnit | client/src/Components/AddProductModal.jsx:237-240 | the same, for the unit |
| AddProductModal.AddProductForm.HandleSubmit | client/src/Components/AddProductModal.jsx:46-66 | without an image file nothing is submitted and the form is unchanged; otherwise the form's values go out under the generated id and the form is reset |
| AddProductModal.EditIsSeenThroughEarlierList | client/src/Components/AddProductModal.jsx:209-211 | an edit through the copy shows through the list held before it |
| EditProductModal.LoadProduct | client/src/Components/EditProductModal.jsx:12-21 | a given product fills the form, with price 0 and empty lists where it has none; without a product the form is kept |
| EditProductModal.Submit | client/src/Components/EditProductModal.jsx:23-43 | nothing is saved iff the name or category is empty or the price is not positive; otherwise the saved record has the form's values and keeps the product's id and status |
| EditProductModal.LoadThenSubmit | client/src/Components/EditProductModal.jsx:12-39 | a complete product loaded and saved without edits comes back unchanged |
| EditProductModal.UnpricedProductNeedsPrice | client/src/Components/EditProductModal.jsx:16-29 | a product without a price cannot be saved until a price is entered |
| EditProductModal.AddIngredientRow | client/src/Components/EditProductModal.jsx:144-147 | an empty ingredient and an empty measurement are appended; nothing else changes |
| EditProductModal.AddRowsKeepsListsInStep | client/src/Components/EditProductModal.jsx:144-147 | lists that are in step stay in step, each growing by the number of presses |
| EditProductModal.EditIngredient | client/src/Components/EditProductModal.jsx:118-121 | the length is kept, position `index` holds the new value and every other position its old one |
| EditProductModal.EditMeasurement | client/src/Components/EditProductModal.jsx:130-133 | position `index` holds the new value and every other position its old one; an index past the end grows the list to reach it, leaving holes in between |
| InventoryPage.GroupByInventory | client/src/Pages/Admin/Inventory.jsx:40-54 | one group per `inventory_id` present, holding a permutation of exactly that item's details, in ascending delivery order |
| InventoryPage.CollectByInventory | client/src/Pages/Admin/Inventory.jsx:41-47 | each group is exactly that id's details in history order, and a key exists iff the id occurs |
| InventoryPage.SortEachGroup | client/src/Pages/Admin/Inventory.jsx:50-54 | the same keys, each group sorted ascending and a permutation of what it held |
| InventoryPage.GroupingKeepsCount | client/src/Pages/Admin/Inventory.jsx:41-47 | over the distinct ids present, the group sizes add up to the number of details: nothing lost, nothing duplicated |
| InventoryPage.RowStocks | client/src/Pages/Admin/Inventory.jsx:320-327 | only batches with stock left count; current is absent iff there are none; current then past is a permutation of them, newest first, current the newest; the row can expand iff there are at least two |
| InventoryPage.FilterByStatus | client/src/Pages/Admin/Inventory.jsx:143-149 | "All Stocks" keeps every row; any other option keeps exactly the rows whose status equals it |
| InventoryPage.ListingStatuses | backend/routes/inventoryRoutes.js:26-30 | every listed status is "Out of Stock", "Restock" or "Available" |
| InventoryPage.OfferedOutOfStockMatchesNothing | client/src/Pages/Admin/Inventory.jsx:170 | the page's "Out-of-Stock" option selects no listed row |
| InventoryPage.EmptyItemHiddenByEveryStatusOption | client/src/Pages/Admin/Inventory.jsx:143-149 | an item without stock is listed, yet none of the page's status options shows it |
| InventoryPage.CorrectedOptionsCoverListing | client/src/Pages/Admin/Inventory.jsx:170 | with the label the listing emits, every listed row has an option, and that option selects it |
| InventoryPage.SearchAsWritten | client/src/Pages/Admin/Inventory.jsx:151-156 | the search as written yields at most the empty list, and yields nothing at all (throws) once a row is listed |
| InventoryPage.SearchFailsOnAnyListing | client/src/Pages/Admin/Inventory.jsx:153 | one live catalogue item makes the search throw, whatever is typed |
| InventoryPage.SearchByStockName | client/src/Pages/Admin/Inventory.jsx:151-156 | a row is kept iff its stock name or stock id contains the term, ignoring case |
| InventoryPage.EmptySearchKeepsAll | client/src/Pages/Admin/Inventory.jsx:151-156 | an empty search keeps every row |
| InventoryPage.FilteredData | client/src/Pages/Admin/Inventory.jsx:143-156 | the corrected composition, built on `SearchByStockName` (the second finding): a row is shown iff its stock name or stock id contains the term and it passes the status option; as written the search throws on any non-empty listing (`SearchFailsOnAnyListing`) |
| InventoryPage.ToggleRow | client/src/Pages/Admin/Inventory.jsx:85-95 | the id is in the new set iff it was not in the old; every other id is unaffected |
| InventoryPage.ToggleTwice | client/src/Pages/Admin/Inventory.jsx:85-95 | toggling a row twice restores the set |
| InventoryPage.HandleArchive | client/src/Pages/Admin/Inventory.jsx:191-197 | the first row whose numeric id is strictly equal to the key is appended to the archived items; no match, and any string key, changes nothing |
| InventoryPage.MenuArchiveIsNoOp | client/src/Pages/Admin/Inventory.jsx:467 | the menu's Archive entry never archives a listed row |
| InventoryPage.MenuKeyStockId | client/src/Pages/Admin/Inventory.jsx:115 | removing `main-` from a row's menu key gives back its stock id |
| InventoryPage.ArchiveByStockId | client/src/Pages/Admin/Inventory.jsx:191-197 | looked up by stock id: the first row with that stock id is appended, and an unknown stock id changes nothing |
| InventoryPage.MenuArchiveByStockId | client/src/Pages/Admin/Inventory.jsx:467 | through the stock-id lookup, the menu of a listed row appends a row with its stock id |

## Findings

| source | as written | input that shows it | evidently intended | confidence | as-written member | corrected member |
|---|---|---|---|---|---|---|
| client/src/Pages/Admin/Inventory.jsx:170 | the filter offers "Out-of-Stock", but the listing query emits "Out of Stock" (backend/routes/inventoryRoutes.js:27) | any listing; an item with no batches, chosen with the "Out-of-Stock" option | an option that shows the out-of-stock items | not executed | InventoryPage.OfferedOutOfStockMatchesNothing | InventoryPage.CorrectedOptionsCoverListing |
| client/src/Pages/Admin/Inventory.jsx:153 | the search reads `item.name`, which listing rows do not have (they carry `stock_name`), and calls `toLowerCase` on it | any listing with one live item, any search term | search by stock name or stock id | not executed | InventoryPage.SearchFailsOnAnyListing | InventoryPage.SearchByStockName |
| client/src/Pages/Admin/Inventory.jsx:192 | `handleArchive` compares the numeric `item.id` strictly with the string the menu passes, which is the stock id (line 467) | Archive on the row of any listed item | the row whose stock id the menu carries is archived | not executed | InventoryPage.MenuArchiveIsNoOp | InventoryPage.MenuArchiveByStockId |

## Left out

- Database and network I/O are not modelled:
  - the 500 answers of failed queries, except for the add-stock transaction, where the failing step is a parameter;
  - the 5-second polling of the inventory page;
  - `fetch`, `alert`, `console` and navigation.
- The database driver (`backend/config/db.js`) is not part of this model. The mismatch between the history route's path and the URL the page fetches is server plumbing and is left out.
- The server setup in `backend/server.js` and `backend/index.js` is left out: which routers are mounted, and where.
- Concurrency is left out: interleaved requests and React's batched state updates.
- Floating-point quantities, prices and thresholds are modelled as integers. JavaScript `Date` parsing is replaced by integer day numbers.
- `SqlNumbers.SqlId` reads the number exactly. MySQL reads it as a double, which rounds beyond 2^53 and overflows near 1e308; these digit counts are not modelled.
- `EmployeeRoutes.EmployeeTable.Delete` follows MySQL outside strict SQL mode. In strict mode, a DELETE whose id has text after the numeral, such as `7abc`, fails with a truncation error and answers 500; that 500 is not modelled.
- `InventoryRoutes.History`: the route awaits `db.query` as a promise (backend/routes/inventoryRoutes.js:123), while every other route passes a callback to the same connection. Only one of the two styles can work with a given driver. The model assumes the query succeeds, and does not decide which style the driver supports, because the driver is not part of this model.
- `EmployeeRoutes.EmployeeTable.Get`, `EmployeeRoutes.EmployeeTable.Update` and `EmployeeRoutes.IsNumericId`: `isNaN` also accepts forms other than a run of decimal digits, such as `" 12 "`, `"1e3"`, `"1.5"` and `"0x1f"`. The source passes these on to the query, where MySQL reads them as `SqlNumbers.SqlId` does. The model accepts only non-empty digit strings and answers the other forms with 400.
- The GET of all employees and the 404 of `/roles` when the column is missing are plain queries or database outcomes. They are left out.
- The email comparisons treat addresses as exact strings. MySQL's collation may compare them ignoring case.
- Case mapping (`toUpperCase`, `toLowerCase`) covers ASCII letters only. A `char` is a Unicode scalar value, while JavaScript's `slice` counts UTF-16 code units. So `Text.NamePrefix` differs from the source for characters outside the Basic Multilingual Plane: `"😀ab"` gives `"😀A"` in JavaScript and `"😀AB"` here.
- `InventoryRoutes.ValidationErrors`: the 400 body lists only the names of the rejected fields. It does not carry express-validator's full error objects.
- `InventoryRoutes.InventoryStore.AddStock`: the counters are not rewound on rollback. They only mark which ids are fresh.
- The FIFO deduction, restock and cleanup routes are outside this model.
- Outside the model:
  - the dashboard and the other placeholder pages;
  - the calendar;
  - the archive page;
  - rendering and the dropdown positioning.
- The image-type check of `handleImageUpload` and the `FileReader` preview are browser I/O. The model keeps only whether a file was taken.
- The Add Stock form's submit calls an `inventoryApi` that is never defined. It is left out.
- The edit form renders nothing while closed or without a product (`client/src/Components/EditProductModal.jsx:45`). This is a rendering concern.
- The record the add-product form hands over keeps its `productId` field and ingredient objects. The product model keeps ingredient names only.
- The price inputs give text, which JavaScript compares numerically. It is modelled as an integer.
