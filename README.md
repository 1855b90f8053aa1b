# Product table view state

A model of the view state of the `ProductTable` React component
(`src/ProductTable.js`). The component shows products from a realtime store as a
sortable table, twenty rows per page. Three pieces of component state are modelled:

- `products`: the sorted list on show;
- `currentPage`: 1-based;
- `sortOrder`: the active column and direction, initially price ascending.

The handlers that overwrite that state are modelled too:

- the store's value callback sorts every non-null snapshot with a direction-aware
  three-way comparator;
- a header click toggles the sort order;
- a page change sets the page without clamping it;
- the Previous and Next buttons are disabled on the first page and at the end of
  the list.

Modules:

- `Products` (products.dfy): the product record, the sortable columns, the value
  a column holds, and the `<` on those values, proved a strict total order.
- `Comparator` (comparator.dfy): the sort order, the header-click toggle rule and
  the comparator, proved antisymmetric and transitive.
- `StableSort` (sorting.dfy): the stable sort the callback applies. It is given as
  insertion sort. Its result is proved to be a permutation of the input, ordered
  by the comparator, and stable.
- `Pagination` (pagination.dfy): JavaScript's `slice` with its negative-index
  rule, the page slice and the two disabled conditions.
- `ProductTableView` (product_table.dfy): the component as a class whose fields
  the handlers overwrite.

The store subscription is abstracted as calls of `OnSnapshot` with the value the
store delivers, or `None` for `null`. Changing the sort order re-runs the effect.
The new subscription then receives the store's current value again. The class
keeps that value in `latestSnapshot`, and `HandleSort` re-sorts it. If the store's
value is `null`, for example after its last product is deleted, the list keeps
what it showed before. It is then not re-sorted when the order changes. The
model keeps this as written.

## Model

| member | source | states |
|---|---|---|
| Products.KeyOf | src/ProductTable.js:76-80 | the comparator reads the clicked column's value; only the title column holds text |
| Products.TextLessAsymmetric | src/ProductTable.js:31 | string `<` never holds both ways |
| Products.TextLessTransitive | src/ProductTable.js:31 | string `<` is transitive |
| Products.TextLessTotal | src/ProductTable.js:31 | two different strings are ordered one way or the other |
| Products.KeyLessTrichotomy | src/ProductTable.js:31 | exactly one of `a < b`, `a == b`, `b < a` holds for two column values |
| Products.KeyLessTransitive | src/ProductTable.js:31 | `<` on column values is transitive |
| Comparator.NextSortOrder | src/ProductTable.js:41-46 | a click always makes the clicked column active; the direction is descending exactly when that column was active and ascending |
| Comparator.ClicksOnNewColumn | src/ProductTable.js:41-46 | repeated clicks on a column that was not active give ascending, then descending, then ascending |
| Comparator.Sign | src/ProductTable.js:30 | the multiplier is 1 for ascending and -1 for descending |
| Comparator.Compare | src/ProductTable.js:28-32 | the result is -1, 0 or 1; it is 0 exactly when both column values are equal; it is negative exactly when `a` has the smaller value (ascending) or the larger one (descending) |
| Comparator.CompareDescNegatesAsc | src/ProductTable.js:30-31 | the descending result is the negated ascending result for the same pair |
| Comparator.CompareAntisymmetric | src/ProductTable.js:31 | swapping the operands negates the result |
| Comparator.CompareTransitive | src/ProductTable.js:28-32 | "not after" is transitive, so the comparator is a consistent order |
| StableSort.InsertSorted | src/ProductTable.js:28 | inserting a product into an ordered list keeps it ordered |
| StableSort.InsertWithKey | src/ProductTable.js:28 | inserting a product puts it first among the products with the same sort value and leaves every equal-value group's order unchanged |
| StableSort.SortByPermutation | src/ProductTable.js:25-28 | the sorted list is a permutation of the snapshot's products |
| StableSort.SortBySorted | src/ProductTable.js:28-32 | the sorted list is non-decreasing under the comparator |
| StableSort.SortByStable | src/ProductTable.js:28 | for every sort value, the products holding it keep their snapshot order |
| Pagination.SliceIndex | src/ProductTable.js:64 | `slice` clamps a position to the list; a non-negative position is read as itself, capped at the length |
| Pagination.JsSlice | src/ProductTable.js:64 | for `0 <= start <= end`, `slice` gives the elements from `start` up to `end`, both capped at the length; two negative bounds give at most `end - start` elements; an end of 0 gives nothing |
| Pagination.PageSlice | src/ProductTable.js:62-64 | a page holds at most 20 products; page `p >= 1` holds the products at `[(p-1)*20, min(p*20, n))`; it is full when `p*20 <= n`; it is empty when `(p-1)*20 >= n` or when `p` is 0 |
| Pagination.NextDisabledIffNextPageEmpty | src/ProductTable.js:113-115 | from page 0 on, Next is disabled exactly when the following page is empty |
| Pagination.NegativePageShowsFromTheEnd | src/ProductTable.js:62-69 | the page is not clamped: page -1 of 40 products shows the first 20, and its enabled Next leads to an empty page 0 |
| Pagination.ProductOnItsPage | src/ProductTable.js:62-64 | product `i` is shown on page `i / 20 + 1` at row `i % 20` |
| Pagination.PagesCoverPrefix | src/ProductTable.js:62-64 | pages 1 to `n` in turn show the first `min(20n, n_products)` products, each once and in order |
| Pagination.PagesUntilNextDisabled | src/ProductTable.js:113-118 | once Next is disabled at page `n`, pages 1 to `n` have shown every product |
| ProductTableView.ProductTable.constructor | src/ProductTable.js:9-15 | the table starts empty, on page 1, sorted by price ascending |
| ProductTableView.ProductTable.OnSnapshot | src/ProductTable.js:22-36 | a non-null snapshot replaces the list with its products sorted by the active order; a null one leaves the list as it was; page and sort order never change |
| ProductTableView.ProductTable.HandleSort | src/ProductTable.js:39-46 | the sort order follows the toggle rule, the page stays, and the store's current products are re-sorted by the new order |
| ProductTableView.ProductTable.HandlePageChange | src/ProductTable.js:67-69 | the page becomes the given number unclamped; nothing else changes |
| ProductTableView.ProductTable.CurrentProducts | src/ProductTable.js:62-64 | the current page's rows: at most 20, the products at `[(p-1)*20, p*20)` of the list |
| ProductTableView.ProductTable.ClickPrevious | src/ProductTable.js:107-111 | Previous goes back one page unless on page 1, so the page stays at least 1 |
| ProductTableView.ProductTable.ClickNext | src/ProductTable.js:113-118 | Next goes forward one page unless the list ends on this page; from page 1 on it keeps the page at least 1 and only leads to a page with products |
| ProductTableView.SnapshotShowsSortedProducts | src/ProductTable.js:22-35 | after a snapshot the list is a permutation of its products, ordered by the active order, with equal-value products in snapshot order |

## Left out

- Store lifecycle (`initializeApp`, `ref`, `on("value")`, `off`, lines 17-22 and 38): I/O and push subscription. It is reduced to calls of `OnSnapshot`. The resubscription after a sort change is reduced to re-sorting `latestSnapshot`.
- `Object.values` (line 25): a snapshot is modelled as the sequence of its products in the order `Object.values` lists them.
- `Array.prototype.sort` is modelled by a stable insertion sort with the same comparator. Its result is proved ordered, a permutation and stable. That every stable sort gives this same order is not proved here.
- `handleDeleteProduct` (lines 48-53): a remote `remove()` with no local state change.
- `formatTimestamp` (lines 56-59): depends on `Date` and locale formatting.
- Rendering, CSS and display fallbacks such as `VideoCount || "N/A"` (lines 71-121).
- Products.KeyOf: every product is given every column as an integer or a string. JavaScript's loose `<`/`>` on missing (`undefined`) or mixed-type values is not modelled. Under it, an absent `VideoCount` compares neither less nor greater than anything, and the comparator is then not a consistent order.
- Products.KeyLess: numbers are integers, not floating point. Strings compare by Unicode scalar value rather than by UTF-16 code unit, which differs only for characters outside the Basic Multilingual Plane. Numbers are placed before text only to make the order total; one column never mixes the two.
- `src/LoginScreen.js` and `src/App.js`: a login gate and a visibility toggle, outside this model.
- The component has no filter toggles, field updates, contact flag or error handling, so none are modelled.
