# Incremental order harvesting from the supplier panel's pending-orders table

Three Node scripts under `user/` read the supplier panel's
pending-orders table. The table is virtualised, so two of them,
`user/index.js` and `user/captureProduct.js`, read it in several passes
and merge the rows they see; `user/scrapePandingOrder.js` reads it once.
`user/index.js` and `user/scrapePandingOrder.js` log in again when the
page lands on the login URL; `user/captureProduct.js` only loads the
saved cookies.

- `user/index.js` extracts the visible rows, merges them into a `Map` keyed
  by order id (first seen wins), and scrolls the table container by 800px.
  It stops once a scroll no longer moves the container, or after 20
  iterations. It then numbers the stored orders 1..n in insertion order.
- `user/captureProduct.js` runs the same extraction and merge up to 40
  times. Its extraction differs in one place: a cell that lacks the
  requested sub-element gives undefined instead of null. Each time it
  scrolls the table to its bottom, and it stops as soon as an iteration
  leaves the map's size unchanged.
- `user/scrapePandingOrder.js` maps the rows once. Each field is
  `cell?.innerText.trim() || null`, except `DispatchDate`, which reads the
  cell's `innerHTML`; a counter numbers the records. The file also
  defines an auto-scroll loop that waits for five unchanged scroll
  heights in a row. Its only call is commented out at line 185.

The model has six modules:

- `JsText` covers the JavaScript semantics the scripts rely on:
  - the field values undefined, null and string, and their truthiness;
  - `String.prototype.trim`, with the ECMA-262 white-space set;
  - `indexOf`, `includes`, and `replace` with a string pattern, which
    replaces only the first occurrence;
  - the 1-based numbering that both output stages apply to a list.
- `OrderRows` turns one table row into an order record, once for each of
  the two harvesting scripts.
- `OrderStore` covers the insertion-ordered `Map`:
  - the value model `Store` and its invariant;
  - the first-seen-wins merge of a batch, and of successive batches;
  - the mutable class `OrdersMap`, whose `Merge` method runs the source's
    merge loop.
- `PendingOrders` and `CaptureProduct` are the two harvesting loops, as
  methods with `while`/`for` loops and their invariants.
- `PendingScrape` holds the auto-scroll loop and the counter-numbered row
  mapping of `scrapePandingOrder.js`.

The browser is an oracle that the loop methods take as arguments:

- `pages[t]` is the list of rows visible at iteration `t`.
- `scrolls[t]` is what the scroll call of iteration `t` observed.
- `heights` is the sequence of scroll heights read by the auto-scroll loop.

## Model

| member | source | states |
|---|---|---|
| JsText.Trim | user/index.js:99-101 | trim's result has no white space at either end and is no longer than its input |
| JsText.TrimOfPadded | user/index.js:99-101 | white space, then a trimmed middle, then white space trims to exactly that middle, so trim removes the surrounding white space and nothing else |
| JsText.TrimOfTrimmed | user/index.js:99-101 | trim leaves a string without white space at either end unchanged |
| JsText.TrimIdempotent | user/index.js:99-101 | trimming twice is trimming once |
| JsText.Includes | user/index.js:58 | `includes` is true exactly when the pattern occurs at some index |
| JsText.IndexOfFrom | user/index.js:106 | `indexOf` from `k` gives the first index not below `k` where the pattern occurs, or none when there is no such index |
| JsText.IndexOfFromIs | user/index.js:106 | an occurrence at `j` with none between `k` and `j` is the one `indexOf` returns |
| JsText.ReplaceFirst | user/index.js:106 | replace leaves the string unchanged when the pattern does not occur; otherwise the length changes by the replacement's length minus the pattern's |
| JsText.ReplaceFirstOfPrefixed | user/index.js:106 | replace on a string that starts with the pattern removes exactly that prefix, even if the pattern occurs again later |
| JsText.ReplaceFirstLeftmost | user/index.js:106 | only the leftmost occurrence is removed: `a + pat + b` becomes `a + b` when `a + pat` has no earlier occurrence |
| JsText.Truthy | user/index.js:123 | the truthiness test on an order id: only a non-empty string passes; undefined, null and "" fail |
| JsText.Numbering | user/scrapePandingOrder.js:192-198 | the 1-based numbering used by both output stages (the `index++` counter here, and `index + 1` at user/index.js:153-156); it keeps the length of its input |
| JsText.NumberingAt | user/scrapePandingOrder.js:192-198 | element `i` of the numbering is built from element `i` of the input and position `i + 1` |
| OrderRows.CellText | user/index.js:95-102 | getCellText gives null for a missing cell, null for a missing sub-element (index.js) or undefined (captureProduct.js), and otherwise the trimmed text of the cell or of the matching element |
| OrderRows.ScriptsDifferOnlyOnMissingSubElement | user/captureProduct.js:44-47 | the two scripts' cell readers disagree exactly when the cell exists but the requested sub-element does not |
| OrderRows.NormaliseOrderId | user/index.js:105-107 | a missing order-id text gives undefined through `?.`; a present one gives a trimmed string |
| OrderRows.NormaliseLabelledOrderId | user/index.js:105-107 | `"Order ID: " + x` normalises to `trim(x)` |
| OrderRows.NormaliseUnlabelledOrderId | user/index.js:105-107 | text without the label is only trimmed |
| OrderRows.RowToOrder | user/index.js:104-115 | the order id is undefined exactly when the id element is missing, and trimmed otherwise; `subOrderId` to `size` are the trimmed text of cells 2 to 6, or null without the cell; `productDetails` and `dispatchDate` are the trimmed text of their element in cells 1 and 7, null without the cell, and, without the element, null (index.js) or undefined (captureProduct.js) |
| OrderRows.RowOrderIdOfLabel | user/index.js:105-107 | an id element reading `"Order ID: " + x`, for trimmed non-empty `x`, gives the order id `x` |
| OrderRows.Extract | user/index.js:90-118 | the `$$eval` callback: one record per visible row, in DOM order; RowToOrder states each record |
| OrderRows.ExtractAll | user/index.js:86-118 | the batch extracted at each iteration of a harvesting loop, one per page state |
| OrderStore.MergeOne | user/index.js:123-126 | one turn of the merge loop: an order is stored under its id when the id is truthy and not yet a key; MergeOneValid and MergeBatchFirstSeen state its effect |
| OrderStore.MergeBatch | user/index.js:121-127 | the merge loop over a batch, in batch order; its properties are MergeBatchValid, MergeBatchDomain, MergeBatchFirstSeen, MergeBatchAppendsInOrder and NewCountIsFreshKeys |
| OrderStore.MergeBatchAppend | user/index.js:121-127 | merging two batches in turn is merging their concatenation |
| OrderStore.MergeBatchAppendsInOrder | user/index.js:121-127 | a merge appends to the old keys exactly the batch's fresh truthy ids, in order of their first occurrence in the batch |
| OrderStore.Size | user/index.js:130 | `ordersMap.size`, the number of stored entries; SizeIsKeyCount ties it to the keys |
| OrderStore.MergeBatchValid | user/index.js:121-127 | merging into a valid map keeps it valid: distinct keys in insertion order, the keys equal to the domain, and each key the non-empty order id of its order |
| OrderStore.MergeBatchExtends | user/index.js:121-127 | merging only appends keys and never overwrites a stored order |
| OrderStore.MergeBatchDomain | user/index.js:121-127 | after a merge the keys are the old keys plus the batch's truthy order ids, and nothing else |
| OrderStore.MergeBatchFirstSeen | user/index.js:123-124 | a newly stored id holds the first order of the batch that carried it |
| OrderStore.NewCountIsFreshKeys | user/index.js:121-127 | the size grows by the number of offered ids not already stored |
| OrderStore.SizeUnchangedIff | user/captureProduct.js:62-68 | a merge leaves the size unchanged exactly when every offered id was already stored |
| OrderStore.SizeIsKeyCount | user/index.js:130 | `ordersMap.size` equals the number of keys in insertion order |
| OrderStore.Values | user/index.js:153 | `Array.from(ordersMap.values())` lists the stored orders in key insertion order |
| OrderStore.ValuesHaveUniqueIds | user/index.js:153 | the values read out have pairwise different, truthy order ids |
| OrderStore.MergeRounds | user/index.js:86-150 | the map accumulated over the first `n` iterations; MergeRoundsValid and MergeRoundsMonotone are its properties |
| OrderStore.MergeRoundsValid | user/index.js:86-150 | the map accumulated over any number of iterations is valid |
| OrderStore.RoundAddsNothingIff | user/captureProduct.js:80-82 | an iteration leaves the size unchanged exactly when its batch offered only ids already stored |
| OrderStore.MergeBatchIsExtension | user/index.js:121-127 | merging into a valid map keeps every stored order unchanged and does not shrink the map |
| OrderStore.MergeRoundsMonotone | user/index.js:86-150 | a later iteration's map keeps the earlier keys first and in their order, keeps every earlier order unchanged, and is at least as large |
| OrderStore.OrdersMap.constructor | user/index.js:73 | `new Map()` is empty |
| OrderStore.OrdersMap.Count | user/captureProduct.js:80 | `ordersMap.size` on the mutable map is the size of its state |
| OrderStore.OrdersMap.Has | user/index.js:123 | `ordersMap.has(id)` holds exactly when the id is a key of the state |
| OrderStore.OrdersMap.Set | user/index.js:124 | `Map.set` appends a new key at the end and stores the value; an existing key keeps its place |
| OrderStore.OrdersMap.Merge | user/index.js:121-127 | the merge loop keeps the map valid, leaves it equal to the first-seen-wins merge of the batch, and returns as `newCount` the number of fresh truthy ids in the batch, by which the size grew |
| PendingOrders.ShouldLogIn | user/index.js:58 | the script logs in again exactly when the URL contains "login" |
| PendingOrders.Scrolled | user/index.js:134-141 | the in-page scroll function's answer: false without a container, otherwise whether `scrollTop` changed |
| PendingOrders.NumberOrder | user/index.js:154-155 | the output record `{ index, ...order }` |
| PendingOrders.Numbered | user/index.js:153-156 | the output records, defined by the shared 1-based numbering; NumberedIndexes states their content |
| PendingOrders.NumberedIndexes | user/index.js:153-156 | there is one output record per stored order, and record `i` is stored order `i` with index `i + 1` |
| PendingOrders.ScrollAndMerge | user/index.js:81-150 | the loop runs 1 to 20 iterations; every iteration but the last moved the container; the last did not move it unless it was the 20th; the map is the merge of the batches of exactly those iterations |
| PendingOrders.HarvestPendingOrders | user/index.js:71-156 | a missing scroll container is an error before any extraction; otherwise the result is the numbered values of the accumulated map, with pairwise different, truthy order ids |
| CaptureProduct.CaptureLoop | user/captureProduct.js:33-88 | the loop runs 1 to 40 attempts; every attempt but the last changed the size; the last left it unchanged unless it was the 40th; the comparison starts from 0; the map is the merge of the batches of exactly those attempts |
| CaptureProduct.StopRuleInIds | user/captureProduct.js:80-87 | under that stop rule, every attempt before the last stored a new id, and the last offered only stored ids |
| CaptureProduct.FirstRoundWithoutIdsStops | user/captureProduct.js:37 | because `previousRowCount` starts at 0, a first attempt with no truthy id stops the loop at size 0 |
| CaptureProduct.CaptureOrders | user/captureProduct.js:33-91 | the attempts end by the loop's stop rule: every attempt but the last changed the size, and the last left it unchanged unless it was the 40th; the final orders are the values of the map after those attempts, in insertion order, with pairwise different, truthy order ids and no index field |
| PendingScrape.Step | user/scrapePandingOrder.js:141-149 | one loop turn: an unchanged height increments `retry`; a new height resets it and is remembered |
| PendingScrape.Track | user/scrapePandingOrder.js:133-149 | the loop variables after a sequence of readings, starting from 0 and 0; TrackRemembersLast and TrackCountsUnchanged state their meaning |
| PendingScrape.TrackRemembersLast | user/scrapePandingOrder.js:141-149 | `previousHeight` always holds the latest reading, or 0 before any reading |
| PendingScrape.TrackCountsUnchanged | user/scrapePandingOrder.js:141-149 | `retry` is at least `r` exactly when the last `r` readings each equalled the height remembered before them |
| PendingScrape.TrackRetryBound | user/scrapePandingOrder.js:137-150 | `retry` never exceeds the number of readings |
| PendingScrape.StopsAt | user/scrapePandingOrder.js:137 | the loop's exit test: after `k` readings, `retry` has reached `sameCountLimit` (5) |
| PendingScrape.AutoScrollUntilEnd | user/scrapePandingOrder.js:125-152 | without a container there is no reading; otherwise the loop stops at the first point where `retry` reaches 5, at which point there were at least five readings and the last five were unchanged |
| PendingScrape.TextOrNull | user/scrapePandingOrder.js:200-206 | a field is null when its cell is missing or its trimmed text is empty; otherwise it is that trimmed text, read from innerHTML for the dispatch date |
| PendingScrape.DebugInfo | user/scrapePandingOrder.js:207 | the trimmed innerText of every cell, in order |
| PendingScrape.PendingRecord | user/scrapePandingOrder.js:197-208 | the record of one row with the given index; PendingRecordsNumbered states which cell each field reads |
| PendingScrape.PendingRecords | user/scrapePandingOrder.js:191-210 | the records of all rows, numbered from 1 in row order |
| PendingScrape.MapPendingRows | user/scrapePandingOrder.js:191-210 | the counter loop builds one record per row, in row order, numbered from 1 by `index++` |
| PendingScrape.PendingRecordsNumbered | user/scrapePandingOrder.js:191-210 | every row is kept; record `i` has index `i + 1`; its fields are TextOrNull of cells 1 to 7 of row `i` (innerHTML for `DispatchDate`), each null or non-empty trimmed text; `debugInfo` has one trimmed entry per cell |

## Left out

- Browser control is not modelled: launching, navigation, the user agent, cookie load and save, the login form, `waitForSelector` timeouts, the sleeps, screenshots and browser shutdown. After login the model starts from the page state.
- The `try`/`catch` of `user/index.js:65-169` is not modelled. It logs the error and takes a screenshot; the model instead returns an error value for the missing scroll container.
- Writing the JSON files is not modelled. JSON serialisation is not modelled either, so a field that is undefined in the model is one the JSON output drops.
- Console logging is not modelled.
- The check for the environment variables is not modelled.
- `puppeteer.js` and `user/getSellerDetail.js` are not part of this model, since they do not harvest orders.
- The commented-out first version of the scraper at `user/scrapePandingOrder.js:1-81` is not modelled.
- In `user/captureProduct.js`, the unused `previousHeight` is not modelled. In `autoScrollUntilEnd`, the unused `rowSelector` argument is not modelled.
- Strings are sequences of Unicode scalar values, not UTF-16 code units. The trim white-space set lists the space separators of current Unicode.
- The DOM is an oracle:
  - a cell is its innerText, its innerHTML, and the innerText of the first descendant matching each selector;
  - the scroll container and scroll heights are the readings passed in.
- ScrollAndMerge, HarvestPendingOrders, CaptureLoop, CaptureOrders: these carry a precondition that the page supplies an answer for every iteration the loop may run (20 or 40). The batches are extracted for all of them up front, while the script extracts only for the iterations it runs. Since extraction is a pure function of the page, the merged result is the same.
- AutoScrollUntilEnd: the loop has no cap, so the model requires the readings to reach five unchanged heights in a row. A page whose height keeps changing would make the script run forever, and that case is not modelled. Because the function's only call is commented out at `user/scrapePandingOrder.js:185`, it is modelled on its own and not wired into the scrape.
- The login check at `user/scrapePandingOrder.js:169` is the same expression as at `user/index.js:58`, and `PendingOrders.ShouldLogIn` models both.
- `PendingScrape.MapPendingRows` models the `$$eval` callback only. The page supplies the rows, and the `console.log` in the callback is not modelled.
