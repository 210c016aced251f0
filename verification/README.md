# distribution-catalog: inventory and order bookkeeping in Dafny

The modelled program is a catalog and order-taking front end for a
distributor. Brands, categories and products live in one hook
(`useCatalog`), and shopkeepers' orders in another (`useOrders`). Around them,
components derive:

- a stock report that subtracts what open orders reserve;
- the order lifecycle `pending → packed → delivered`, with its stock
  deduction;
- a manual stock adjustment;
- an order draft that merges repeated products;
- the filtered, paginated and grouped product and order lists.

This project restates that bookkeeping as pure Dafny functions over
sequences of immutable records and proves what the code promises about it.

Modules, one per source unit:

| module | file | models |
|---|---|---|
| `Opt`, `Seqs` | opt.dfy, seqs.dfy | `Option`; `filter`, `map`, `find`, `findIndex`, order-preserving subsequences, distinct keys |
| `Text` | text.dfy | `trim`, ASCII `toLowerCase`, `includes`, `parseInt`, integer `toString`, join |
| `Types` | types.dfy | the `Brand`, `Category`, `Product`, `OrderItem` and `Order` records and the status literals |
| `CatalogStore` | catalog_store.dfy | `src/hooks/useCatalog.ts` |
| `Csv`, `OrderStore` | csv.dfy, order_store.dfy | `src/hooks/useOrders.ts`; the CSV export and a reader for its text |
| `StockAnalysis` | stock_analysis.dfy | `src/components/catalog/StockAnalysisSection.tsx` |
| `Lifecycle` | lifecycle.dfy | `OrderCard.tsx` next status; `handleDelivered`, `handleUpdateStock` and `handleUpdateOrderStatus` of `src/pages/Index.tsx` |
| `UpdateStock` | update_stock.dfy | `src/components/catalog/UpdateStockDialog.tsx` |
| `TakeOrder` | take_order.dfy | `src/components/catalog/TakeOrderDialog.tsx` |
| `CatalogView` | catalog_view.dfy | the product filter, pagination and page resets of `src/pages/Index.tsx` |
| `OrdersView` | orders_view.dfy | `src/components/catalog/OrdersSection.tsx` |
| `CategoryTabs` | category_tabs.dfy | `src/components/catalog/CategoryTabs.tsx` |
| `ProductGrid` | product_grid.dfy | `src/components/catalog/ProductGrid.tsx` |

Modelling conventions:

- Each state change is a function from the old state to the new state.
- `crypto.randomUUID()` and `new Date().toISOString()` become the `id` and
  `now` parameters. Freshness is a hypothesis of the lemmas that need it.
- The locale date in the CSV is an opaque function parameter, `date`.
- `price` is carried as a `real` and never computed on.
- `setX(prev => …)` is read as sequential application.
- JavaScript's `sort` is stable, so the stock report's sort is modelled as
  a stable insertion sort.

## Model

| member | source | states |
|---|---|---|
| CatalogStore.AddBrand | src/hooks/useCatalog.ts:48-56 | one brand is appended with the trimmed name, the given id and time; earlier brands keep their order; categories and products are untouched |
| CatalogStore.DeleteBrand | src/hooks/useCatalog.ts:58-62 | a brand or product survives iff its id (resp. brandId) differs, survivors keep their order, categories are untouched |
| CatalogStore.DeleteBrandCascades | src/hooks/useCatalog.ts:58-62 | afterwards no brand has the id and no product refers to it |
| CatalogStore.DeleteBrandUndoesAdd | src/hooks/useCatalog.ts:48-62 | deleting a freshly added, unreferenced brand restores the catalog exactly |
| CatalogStore.AddCategory | src/hooks/useCatalog.ts:65-73 | one category (no brand field) is appended with the trimmed name; everything else is untouched |
| CatalogStore.DeleteCategory | src/hooks/useCatalog.ts:75-79 | a category or product survives iff its id (resp. categoryId) differs, in order; brands are untouched |
| CatalogStore.DeleteCategoryCascades | src/hooks/useCatalog.ts:75-79 | afterwards `getProductsByCategory(id)` is empty and no category has the id |
| CatalogStore.DeleteCategoryUndoesAdd | src/hooks/useCatalog.ts:65-79 | deleting a freshly added, unreferenced category restores the catalog |
| CatalogStore.AddProduct | src/hooks/useCatalog.ts:82-90 | the product list grows by exactly one product carrying the given fields, id and time |
| CatalogStore.DeleteProductUndoesAdd | src/hooks/useCatalog.ts:82-100 | deleting a freshly added product restores the catalog |
| CatalogStore.Apply | src/hooks/useCatalog.ts:94 | each field is the update's value if present and the old value otherwise; id and createdAt are kept |
| CatalogStore.UpdateProducts | src/hooks/useCatalog.ts:92-96 | products with the id are patched, all others are unchanged, the length is kept |
| CatalogStore.UpdateProduct | src/hooks/useCatalog.ts:92-96 | only the product list changes, as `UpdateProducts` |
| CatalogStore.UpdateUnknownIsNoop | src/hooks/useCatalog.ts:92-96 | an unknown id changes nothing |
| CatalogStore.UpdateIdempotent | src/hooks/useCatalog.ts:92-96 | applying an update twice equals applying it once |
| CatalogStore.EmptyPatchIsNoop | src/hooks/useCatalog.ts:92-96 | an update object with no keys changes nothing |
| CatalogStore.DeleteProduct | src/hooks/useCatalog.ts:98-100 | exactly the products with the id are removed, the rest keep their order |
| CatalogStore.DeleteProductIdempotent | src/hooks/useCatalog.ts:98-100 | deleting twice equals deleting once |
| CatalogStore.ProductsByBrand | src/hooks/useCatalog.ts:102-104 | exactly the products with that brandId, as an order-preserving subsequence |
| CatalogStore.ProductsByCategory | src/hooks/useCatalog.ts:106-108 | exactly the products with that categoryId, as an order-preserving subsequence |
| CatalogStore.BrandById | src/hooks/useCatalog.ts:110 | none iff no brand has the id; otherwise the first brand with it |
| CatalogStore.CategoryById | src/hooks/useCatalog.ts:111 | none iff no category has the id; otherwise the first category with it |
| CatalogStore.ProductById | src/pages/Index.tsx:106 | none iff no product has the id; otherwise the first product with it |
| OrderStore.AddOrder | src/hooks/useOrders.ts:39-49 | one `pending` order is appended with the trimmed name and the items verbatim; earlier orders are unchanged |
| OrderStore.UpdateOrderStatus | src/hooks/useOrders.ts:51-55 | orders with the id get the new status, all others are unchanged |
| OrderStore.UpdateStatusKeepsContent | src/hooks/useOrders.ts:51-55 | id, name, items and createdAt never change |
| OrderStore.UpdateStatusUnknownIsNoop | src/hooks/useOrders.ts:51-55 | an unknown id changes nothing |
| OrderStore.UpdateStatusIdempotent | src/hooks/useOrders.ts:51-55 | setting a status twice equals setting it once |
| OrderStore.UpdateStatusAllowsBackward | src/hooks/useOrders.ts:51-55 | no transition check: a delivered order can be set back to pending |
| OrderStore.DeleteOrder | src/hooks/useOrders.ts:57-59 | exactly the orders with the id are removed: every copy of any other order is kept, as many times as it occurs, in order |
| OrderStore.DeleteOrderIdempotent | src/hooks/useOrders.ts:57-59 | deleting twice equals deleting once |
| OrderStore.DeleteOrderUndoesAdd | src/hooks/useOrders.ts:39-59 | deleting a freshly added order restores the list |
| OrderStore.ImportOrders | src/hooks/useOrders.ts:104-105 | imported orders follow the existing ones verbatim |
| OrderStore.ImportKeepsDuplicateIds | src/hooks/useOrders.ts:104-105 | nothing is deduplicated: re-importing a store's own orders leaves two orders per id |
| OrderStore.ItemRow | src/hooks/useOrders.ts:75-84 | an item row has exactly one cell per header column |
| OrderStore.ItemRowReadsBack | src/hooks/useOrders.ts:75-84 | the quantity cell parses back to the item quantity and the status cell reads back as the order status |
| OrderStore.OrderRows | src/hooks/useOrders.ts:75-84 | one row per item of the order, in item order |
| OrderStore.DataRowsShape | src/hooks/useOrders.ts:74-85 | one data row per item over all orders, eight cells each |
| OrderStore.CsvShape | src/hooks/useOrders.ts:73-87 | the table is the header plus `total item count` rows of eight cells |
| OrderStore.DataRowsAppend | src/hooks/useOrders.ts:74-85 | the rows of two order lists concatenate |
| OrderStore.DataRowsIndex | src/hooks/useOrders.ts:74-85 | item `j` of order `i` is the row after all items of earlier orders: order-then-item sequence |
| OrderStore.ExportCsv | src/hooks/useOrders.ts:72-89 | whatever the names hold, the exported text reads back with the header as its first row |
| OrderStore.ExportCsvReadsBack | src/hooks/useOrders.ts:72-89 | reading the exported text back gives exactly the header and item rows whenever no cell holds a double quote; commas and line breaks in names are kept |
| Csv.Quote | src/hooks/useOrders.ts:88 | the cell is wrapped in one pair of double quotes and otherwise verbatim |
| Csv.DecodeEncode | src/hooks/useOrders.ts:87-89 | a quote-aware reader recovers every non-empty table of non-empty rows whose cells hold no double quote, separators inside cells included |
| Csv.FirstRowReadsBack | src/hooks/useOrders.ts:87-89 | a quote-free first row reads back whatever the later rows hold |
| Csv.SeparatorInCellReadsBack | src/hooks/useOrders.ts:88 | a name `Smith, John` survives as one cell |
| Csv.EmptyTablesAmbiguous | src/hooks/useOrders.ts:87-89 | no rows and one empty row are both written as the empty text, which reads back as one empty cell |
| Csv.EmbeddedQuotesAmbiguous | src/hooks/useOrders.ts:88 | quotes are not doubled, so the one-cell row `a","b` and the row `a`,`b` are written identically |
| Text.ParseIntToString | src/hooks/useOrders.ts:81 | `parseInt` reads back every integer's `toString` |
| Text.TrimEmptyIffBlank | src/components/catalog/TakeOrderDialog.tsx:86 | the trimmed name is empty iff the name is all white space |
| StockAnalysis.ReserveTableLookup | src/components/catalog/StockAnalysisSection.tsx:17-25 | the accumulated table holds, for every product, the sum of its quantities over pending and packed orders |
| StockAnalysis.MakeEntry | src/components/catalog/StockAnalysisSection.tsx:27-40 | `available` is `max(0, stock - reserved)`, never negative and at most the stock when both are non-negative; out of stock iff 0; low iff 1..5; never both |
| StockAnalysis.Compare | src/components/catalog/StockAnalysisSection.tsx:41-48 | 0 iff both tiers and the available quantity agree; a negative result ranks an entry before an out-of-stock one only if it is out of stock too, and before a low-stock one only if it is out of stock or low |
| StockAnalysis.Entries | src/components/catalog/StockAnalysisSection.tsx:27-40 | one entry per product, in order, with the reference reserved quantity |
| StockAnalysis.CompareAgreesWithAvailable | src/components/catalog/StockAnalysisSection.tsx:41-48 | on consistent entries the three-tier comparator orders exactly by available quantity |
| StockAnalysis.Sort | src/components/catalog/StockAnalysisSection.tsx:41-48 | the sorted report holds every entry as often as the input does |
| StockAnalysis.SortFacts | src/components/catalog/StockAnalysisSection.tsx:41-48 | the sort is a permutation, non-decreasing in available, and stable: entries with equal available keep their input order |
| StockAnalysis.Analyze | src/components/catalog/StockAnalysisSection.tsx:15-49 | the report is a sorted, stable permutation of the per-product entries |
| StockAnalysis.AnalyzeEntries | src/components/catalog/StockAnalysisSection.tsx:27-40 | every report line carries its product's stock, its reserved quantity and `max(0, stock - reserved)` |
| StockAnalysis.AnalyzeTiers | src/components/catalog/StockAnalysisSection.tsx:41-48 | out-of-stock lines precede low-stock lines, which precede the rest |
| StockAnalysis.Summarize | src/components/catalog/StockAnalysisSection.tsx:51-56 | each count is the number of entries in its tier (out of stock, low, neither); on consistent entries the three add up to the number of entries |
| StockAnalysis.SummaryByAvailable | src/components/catalog/StockAnalysisSection.tsx:29-56 | on consistent entries the counts are those with nothing available, with 1 to 5, and with more than 5 |
| StockAnalysis.SummaryCoversProducts | src/components/catalog/StockAnalysisSection.tsx:51-56 | out of stock + low + healthy = number of products |
| StockAnalysis.ReservationScenario | src/components/catalog/StockAnalysisSection.tsx:19-29 | stock 10 with pending orders of 4 and 3 leaves 3 available; delivering the first releases its 4 |
| StockAnalysis.ItemQuantityBump | src/components/catalog/TakeOrderDialog.tsx:51-56 | raising one draft line's quantity raises only that product's total |
| Lifecycle.Next | src/components/catalog/OrderCard.tsx:23-25 | none exactly for delivered; never pending, never the same status, always one rank forward |
| Lifecycle.StepsReachDelivered | src/components/catalog/OrderCard.tsx:23-25 | following `next` reaches delivered after `2 - rank` steps and stays there |
| Lifecycle.EntersDeliveredAtMostOnce | src/components/catalog/OrderCard.tsx:63-71 | through the offered button an order enters delivered at most once, and exactly once when pressed enough from another status |
| Lifecycle.OfferedActions | src/components/catalog/OrderCard.tsx:63-79 | delete is always offered; a status update is offered for exactly `next(status)` |
| Lifecycle.DeliverFromSpec | src/pages/Index.tsx:104-111 | each product ends as it was, or with `max(0, snapshot stock - q)` for the last item naming it |
| Lifecycle.HandleDelivered | src/pages/Index.tsx:104-111 | the delivery neither adds, drops nor reorders products: ids stay position by position |
| Lifecycle.HandleDeliveredSpec | src/pages/Index.tsx:104-111 | products no item names are unchanged; named ones get the last item's deduction from the snapshot; ids are kept |
| Lifecycle.HandleDeliveredStock | src/pages/Index.tsx:104-111 | with distinct ids the written stock is `max(0, stock - q)`, never negative |
| Lifecycle.DeliveryLastWriteWins | src/pages/Index.tsx:105-109 | items (p,3),(p,4) on stock 10 leave 6, not 3 |
| Lifecycle.HandleUpdateStock | src/pages/Index.tsx:120-122 | the product's stock becomes exactly `n`; nothing else changes |
| Lifecycle.UpdateStatusAsWritten | src/pages/Index.tsx:115-117 | only the order status changes; products are untouched |
| Lifecycle.AsWrittenDeliveryKeepsStock | src/pages/Index.tsx:115-117 | delivering an order of 4 leaves the stock at 10 |
| Lifecycle.UpdateStatusSpec | src/pages/Index.tsx:104-117 | the corrected handler deducts the order's items exactly when it enters delivered, and repeating it is a no-op |
| Lifecycle.UpdateStatus | src/pages/Index.tsx:104-117 | the orders get the store's status update; products keep their ids and order, and are untouched unless the status is delivered |
| Lifecycle.DeliveryDeducts | src/pages/Index.tsx:104-117 | the corrected handler takes stock 10 to 6 for an order of 4 |
| Lifecycle.ClicksDeductOnce | src/components/catalog/OrderCard.tsx:63-71 | pressing the status button any number of times deducts the items once, at the press that reaches delivered |
| Lifecycle.Click | src/components/catalog/OrderCard.tsx:63-71 | an unknown order changes nothing; otherwise no order or product is added, dropped or reordered |
| UpdateStock.Submit | src/components/catalog/UpdateStockDialog.tsx:25-37 | a negative `stock + change` is refused with state unchanged; otherwise exactly that value is sent, the dialog closes and the change resets to 0 |
| UpdateStock.Preview | src/components/catalog/UpdateStockDialog.tsx:39 | a non-negative preview is exactly the stock a submit sends; a negative one means a submit sends nothing |
| UpdateStock.SubmitDisabled | src/components/catalog/UpdateStockDialog.tsx:100 | the button is disabled exactly when `handleSubmit` would refuse, that is when the change takes away more than the product's stock |
| UpdateStock.DisabledIffRejected | src/components/catalog/UpdateStockDialog.tsx:100 | the button is disabled exactly when a submit would be refused; the value sent is the preview |
| UpdateStock.Decrement | src/components/catalog/UpdateStockDialog.tsx:67 | the preview drops by exactly 1 |
| UpdateStock.Increment | src/components/catalog/UpdateStockDialog.tsx:81 | the preview rises by exactly 1 |
| UpdateStock.SetChangeFromText | src/components/catalog/UpdateStockDialog.tsx:74 | text without a digit gives a change of 0 |
| UpdateStock.TypedChangeReadsBack | src/components/catalog/UpdateStockDialog.tsx:74 | typing an integer's decimal form sets the change to it |
| UpdateStock.SubmitUpdatesCatalog | src/components/catalog/UpdateStockDialog.tsx:33 | a submitted change lands in the catalog as `stock + change`, non-negative, touching no other product |
| TakeOrder.PickerProducts | src/components/catalog/TakeOrderDialog.tsx:36-40 | exactly the products matching the brand filter (or all) and the category filter (or all), in order |
| TakeOrder.NameOr | src/components/catalog/TakeOrderDialog.tsx:68-70 | the name if present and non-empty; `Unknown` for a missing record or an empty name |
| TakeOrder.NewLine | src/components/catalog/TakeOrderDialog.tsx:59-72 | a new line records the product's id, name and quantity and the found brand's and category's names, `Unknown` when the lookup fails or the name is empty |
| TakeOrder.AddItem | src/components/catalog/TakeOrderDialog.tsx:42-78 | rejected input leaves the draft unchanged; accepted input merges into or appends one line and resets the selection and quantity text |
| TakeOrder.AddLinesSpec | src/components/catalog/TakeOrderDialog.tsx:48-74 | the product's total grows by the quantity and no other total changes; its first line is bumped in place and every other line stays as and where it was; a new product gets one line at the end |
| TakeOrder.AddItemSpec | src/components/catalog/TakeOrderDialog.tsx:42-78 | per-product totals change only for the accepted product; distinct product ids are preserved |
| TakeOrder.RemoveItem | src/components/catalog/TakeOrderDialog.tsx:80-82 | exactly that product's lines go, the rest keep their order |
| TakeOrder.RemoveItemSpec | src/components/catalog/TakeOrderDialog.tsx:80-82 | that product's total becomes 0, others are unchanged, and distinctness is preserved |
| TakeOrder.SubmitDisabled | src/components/catalog/TakeOrderDialog.tsx:228 | the save button is disabled exactly when the name is all white space or the draft has no lines |
| TakeOrder.Submit | src/components/catalog/TakeOrderDialog.tsx:84-92 | fires iff the trimmed name is non-empty and the draft is non-empty, passes the untrimmed name and lines, then clears |
| TakeOrder.SubmittedOrder | src/components/catalog/TakeOrderDialog.tsx:84-92 | the stored order has a non-blank trimmed name, the draft's non-empty lines and status pending |
| CatalogView.FilterProducts | src/pages/Index.tsx:65-73 | a product is kept iff name or description matches the query and brand and category match or are `all`; order is kept |
| CatalogView.NoFilterListsEverything | src/pages/Index.tsx:65-73 | an empty query with `all`/`all` returns every product |
| CatalogView.TotalPages | src/pages/Index.tsx:76 | the ceiling of length over page size |
| CatalogView.SliceIndex | src/pages/Index.tsx:79 | `slice` keeps an index inside the list, counts a negative one from the end, and clamps both into the list |
| CatalogView.PageIsWindow | src/pages/Index.tsx:77-80 | page `k` is the slice `[(k-1)n, kn)` clipped to the list, at most `n` long |
| CatalogView.FirstPagesPrefix | src/pages/Index.tsx:77-80 | pages `1..k` together are the first `kn` elements |
| CatalogView.PagesCoverList | src/pages/Index.tsx:76-80 | pages `1..totalPages` concatenate to the filtered list |
| CatalogView.SetSearch | src/pages/Index.tsx:83-86 | the query changes, the page becomes 1, nothing else changes |
| CatalogView.SetBrand | src/pages/Index.tsx:88-91 | the brand changes, the page becomes 1, nothing else changes |
| CatalogView.SetCategory | src/pages/Index.tsx:93-96 | the category changes, the page becomes 1, nothing else changes |
| CatalogView.SetPerPage | src/pages/Index.tsx:98-101 | the page size changes, the page becomes 1, nothing else changes |
| CatalogView.ResetShowsFirstPage | src/pages/Index.tsx:77-86 | after a search change `paginatedProducts` is the first `perPage` matches |
| CatalogView.PagerIgnoredAsWritten | src/pages/Index.tsx:236-257 | three products of one selected category at two per page: the pager counts two pages, `paginatedProducts` holds two, the grid is handed all three |
| CatalogView.GridShownSpec | src/pages/Index.tsx:76-80 | with a category selected the intended grid is page `page` of the matches, at most `perPage` long, and the pages cover the matches; with `all` it holds every match |
| OrdersView.FilterOrders | src/components/catalog/OrdersSection.tsx:30-34 | an order is kept iff its status matches (or all) and its name contains the query case-insensitively; every copy of a kept order stays, in order, and no copy of another |
| OrdersView.OnlyShowsThatStatus | src/components/catalog/OrdersSection.tsx:30-34 | a selected status lists only orders in it, and every order in it whose name matches |
| OrdersView.ShownAtMostTotal | src/components/catalog/OrdersSection.tsx:116 | the shown count never exceeds the total |
| OrdersView.NoFilterListsEverything | src/components/catalog/OrdersSection.tsx:30-34 | `all` with an empty query lists every order |
| CategoryTabs.CountIntoSpec | src/components/catalog/CategoryTabs.tsx:26-28 | the fold writes each listed category's count over all products and keeps other keys |
| CategoryTabs.CountsSpec | src/components/catalog/CategoryTabs.tsx:24-30 | each category's count is its number of products; `all` is the filtered length unless a category's id is `all` |
| CategoryTabs.CountsOf | src/components/catalog/CategoryTabs.tsx:24-30 | the counts exist exactly when `filteredProducts` is passed and `allProducts` is passed or there is no category, and are then the counts above |
| CategoryTabs.PageWiringAsWritten | src/pages/Index.tsx:211-216 | mounted as the page does, the counts throw for every catalog, and every click filters instead of scrolling |
| CategoryTabs.PageWiringIntended | src/pages/Index.tsx:211-216 | with the whole catalog and the filtered list passed, the counts exist, each category's tab counts its products and `all` counts the filtered list |
| CategoryTabs.VisibleTabsSpec | src/components/catalog/CategoryTabs.tsx:33-35 | the visible tabs are exactly the categories with a product, in category order |
| CategoryTabs.TabsMatchSections | src/components/catalog/CategoryTabs.tsx:33-35 | given the same products, a tab is visible iff the grid has a section for it |
| CategoryTabs.Click | src/components/catalog/CategoryTabs.tsx:37-45 | scrolls iff the selection is `all`, the target is not `all` and a scroll handler exists; otherwise filters |
| ProductGrid.GroupLookup | src/components/catalog/ProductGrid.tsx:42-48 | each grouped list is exactly that category's products in input order |
| ProductGrid.SingleCategory | src/components/catalog/ProductGrid.tsx:59-64 | empty for `all`; otherwise exactly the products of the selected category, in order |
| ProductGrid.SectionsSpec | src/components/catalog/ProductGrid.tsx:37-56 | no sections unless `all`; sections follow category order, cover exactly the categories with products, and hold their products in order |
| ProductGrid.UnmatchedProductsHidden | src/components/catalog/ProductGrid.tsx:42-55 | a product of an unknown category is in no section |
| ProductGrid.SectionsDisjoint | src/components/catalog/ProductGrid.tsx:42-55 | with distinct category ids no product is in two sections |
| ProductGrid.SectionsTotalAtMostProducts | src/components/catalog/ProductGrid.tsx:42-55 | with distinct category ids the sections hold at most all products |

## Left out

- Persistence is not modelled: localStorage loading and saving, `JSON.parse`/`JSON.stringify`, the Blob downloads and the `FileReader` import. `OrderStore.ImportOrders` starts from already-parsed orders, and a parse failure leaves the orders unchanged in the source.
- Random ids and clock readings are parameters; freshness is a lemma hypothesis, because the model cannot produce them.
- `toLocaleDateString` in the CSV date column is the opaque parameter `date`, because locale formatting is a library concern.
- Prices are opaque `real` values: `parseFloat`, `toFixed` and floating-point rounding are not modelled.
- Text.Lower and Text.Trim: they lower-case ASCII letters and strip ASCII white space only. The source uses Unicode case mapping and Unicode white space.
- Text.ParseInt: it reads base ten only. `parseInt`'s `0x` prefix and digits beyond double precision are not modelled.
- Text.IntToString: it writes plain decimal digits. The exponent form JavaScript uses for very large numbers is not modelled.
- TakeOrder.AddItem: a quantity text with no leading digit (`" "`, `"abc"`) makes the source store `NaN` as the quantity. The model has no `NaN` in an integer field, so it leaves the draft unchanged in that case.
- CatalogView.TotalPages: it requires a positive page size. The page size comes from a fixed selector, and zero would make the source divide by zero.
- Plain JavaScript objects are modelled as Dafny maps: `reservedStock`, `grouped` and `categoryCounts`. Inherited keys such as `__proto__` and `constructor` are not modelled.
- Ordering of React state updates is not modelled: batching, `useMemo` and `useEffect`. Each handler is a sequential state transition.
- `TakeOrderDialog` does no availability check, so none is modelled.
- Csv.Decode: the reader does not undo doubled quotes, because the writer never doubles them. A cell holding `"` is outside the round trip: Csv.EmbeddedQuotesAmbiguous shows two different rows written as the same text.
- Csv.DecodeEncode: it needs at least one row and no empty row. `Encode` writes no rows and one empty row identically, as Csv.EmptyTablesAmbiguous shows.
- Lifecycle.UpdateStatus: its guard against a second delivery of an already delivered order is not in the source. The corrected handler adds it so that repeating `delivered` deducts once.
- The pager's controls (`CatalogPagination`) are rendering only; `currentPage` is a field of `CatalogView.View`.
- The scroll-to-section behaviour of `CategoryTabs` is modelled only through `canScroll`. The catalog page passes no `onScrollToCategory`, so on that page every tab click filters (CategoryTabs.PageWiringAsWritten); no intended scroll handler is modelled, because the page has none to follow.
- Authentication, the edge function and their hashing, network and database clients are not part of this model. Neither are rendering-only components (`CatalogHeader`, `ImageUpload`, `FilterBar`, `ProductCard`, `ManageSection`) or the add/edit dialogs' form plumbing.

## Findings

| source | as written | input that shows it | evidently intended | confidence | as-written member | corrected member |
|---|---|---|---|---|---|---|
| src/pages/Index.tsx:115-117 | `handleUpdateOrderStatus` passes `handleDelivered` as a third argument, but `updateOrderStatus` (src/hooks/useOrders.ts:51) takes two parameters and ignores it, so no stock is ever deducted on delivery | a packed order of 4 units of a product with stock 10, marked delivered: the stock stays 10 | entering `delivered` deducts `max(0, stock - quantity)` for each item, once | not executed | Lifecycle.AsWrittenDeliveryKeepsStock | Lifecycle.UpdateStatusSpec |
| src/pages/Index.tsx:236-257 | the grid is handed `filteredProducts`; `paginatedProducts` (src/pages/Index.tsx:77-80) is computed but never rendered, while the pager below the grid, shown whenever a category is selected, offers pages | three products of a selected category with two per page: the pager shows two pages, and the grid shows all three | with a category selected the grid shows the current page, `paginatedProducts` | not executed | CatalogView.PagerIgnoredAsWritten | CatalogView.GridShownSpec |
| src/pages/Index.tsx:211-216 | the page mounts `CategoryTabs` with a `products` prop, which it does not declare, and passes neither `allProducts` nor `filteredProducts`; `filteredProducts.length` (src/components/catalog/CategoryTabs.tsx:25) then reads a property of `undefined` | any catalog: rendering the tab strip throws a `TypeError` before a count is computed | `allProducts` is the whole catalog and `filteredProducts` the filtered list, so each tab shows its category's count | not executed | CategoryTabs.PageWiringAsWritten | CategoryTabs.PageWiringIntended |
