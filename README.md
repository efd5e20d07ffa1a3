# Product catalog store: a Dafny model

This project models the state logic of a browser product catalog built on a
Redux store. It covers three parts.

- The **derived product view** (`selectFilteredProducts`). It copies the
  catalog and keeps the products whose lower-cased title contains the
  lower-cased search query. It then keeps the products of the selected
  category. Last, it stable-sorts the result by price, ascending or
  descending.
- The selectors beside the view: the field accessors, `selectProductById`
  and `selectIsFavorite`.
- The three store slices. The **filters** slice holds the search text, the
  category and the sort mode. The **products** slice holds the catalog, the
  category names, the selected product, two loading flags and an error
  message. The **favorites** slice holds an id-unique list of product
  snapshots.

The module layout follows the source:

- `catalog.dfy`: the product record, and `some`/`find` by id.
- `seqs.dfy`: `Array.prototype.filter` and the subsequence relation.
- `text.dfy`: lower-casing and `String.prototype.includes`.
- `price_sort.dfy`: the two price comparators and the stable sort. The sort
  has a specification function and an in-place array method.
- `filters_slice.dfy`, `products_slice.dfy`, `favorites_slice.dfy`: one class
  per slice. Each reducer case is a method that updates the fields in place.
  Each class has a `State()` snapshot, with a datatype for the selectors.
- `selectors.dfy`: the root state, the accessors, the view and the look-ups.

`SelectFilteredProducts` is a method. It reassigns a local list after each
filter stage and sorts a fresh array in place. It is proved equal to the
pipeline function `FilteredProducts`, and the view's properties are lemmas
about that function. The method has no `modifies` clause, so it cannot change
any existing object. The catalog it reads is a value, so it is never changed.

The field accessors (`SelectAllProducts`, `SelectSearchQuery`,
`SelectSelectedCategory`, `SelectSortBy`, `SelectFavorites`,
`SelectSelectedProduct`) are plain field reads with no contract. The view
method uses the first four. `SelectProductById` reads the catalog through
`SelectAllProducts`, and `SelectIsFavorite` reads the favorites through
`SelectFavorites`. `SelectSelectedProduct` is exported for the detail page
and has no caller in the model.

In two places the model follows the code:

- `sortBy` is any string. The comment at `src/store/slices/filtersSlice.js:6`
  lists only three values. The view sorts only for `"price-asc"` and
  `"price-desc"` and treats every other value as "no sort".
- The initial state of the products slice has a `categoriesLoading` flag,
  although `src/store/slices/__tests__/productsSlice.test.js:17-23` omits it.

The favorites reducers are specified by the behaviour that
`src/store/slices/__tests__/favoritesSlice.test.js` checks, not by their code:

- add appends, unless the id is already present;
- remove drops that id;
- clear empties the list.

## Model

| member | source | states |
|---|---|---|
| `Catalog.HasId` | src/store/selectors.js:54-55 | true exactly when some entry of the list has the id |
| `Catalog.FindById` | src/store/selectors.js:47-48 | nothing exactly when no entry has the id; otherwise an entry with that id that has no entry with the id before it (the first match) |
| `Seqs.Filter` | src/store/selectors.js:23-32 | the result is no longer than the input and every kept element satisfies the predicate |
| `Seqs.FilterCount` | src/store/selectors.js:23-32 | filtering keeps each element that satisfies the predicate exactly as often as it occurs, and no other element |
| `Seqs.FilterIsSubsequence` | src/store/selectors.js:23-32 | filtering keeps the survivors in their original relative order |
| `Text.Lower` | src/store/selectors.js:22-24 | lower-casing keeps the length and maps each character through ASCII lower-casing |
| `Text.Includes` | src/store/selectors.js:24 | true exactly when the query occurs at some position of the text (the empty query everywhere) |
| `PriceSort.Compare` | src/store/selectors.js:37-39 | the two comparators `a.price - b.price` and `b.price - a.price`: zero exactly for equal prices, and negative (so `a` goes first) exactly for the lower price when ascending and the higher when descending |
| `PriceSort.CompareConsistent` | src/store/selectors.js:37-39 | both comparators are consistent: swapping the arguments negates the result, and the order they allow is total and transitive |
| `PriceSort.SortByPrice` | src/store/selectors.js:36-40 | the stable `Array.prototype.sort` under a price comparator. Its own contract keeps the length; SortByPricePermutes, SortByPriceSorted, SortByPriceStable and SortedGroupsDetermine characterise it completely |
| `PriceSort.SortByPricePermutes` | src/store/selectors.js:36-40 | the price sort returns a permutation of its input |
| `PriceSort.SortByPriceSorted` | src/store/selectors.js:36-40 | the result is in comparator order: prices non-decreasing for `a.price - b.price`, non-increasing for `b.price - a.price` |
| `PriceSort.SortByPriceStable` | src/store/selectors.js:36-40 | stability: for every price, the products at that price appear in the same relative order as in the input |
| `PriceSort.SortedGroupsDetermine` | src/store/selectors.js:36-40 | two sorted sequences with the same per-price subsequences are equal, so a stable sort has exactly one possible result |
| `PriceSort.InsertionSort` | src/store/selectors.js:37-39 | sorting the array in place leaves exactly the stable price sort of its previous contents |
| `ProductsSlice.Reduce` | src/store/slices/productsSlice.js:66-110 | the reducer on snapshots. Its contract says that only category events touch `categories` and `categoriesLoading`, that category events touch nothing else, and that only a products fulfilment replaces the items. Its runs are characterised by ReduceAllPreservesConsistent, CategoryEventsIsolated, LoadingTracksRequests and ItemsFromLastFulfilment |
| `FiltersSlice.Filters.constructor` | src/store/slices/filtersSlice.js:3-7 | the initial configuration is empty query, empty category and sort mode `"none"` |
| `FiltersSlice.Filters.SetSearchQuery` | src/store/slices/filtersSlice.js:13-15 | sets the search query to the payload and leaves category and sort mode unchanged |
| `FiltersSlice.Filters.SetSelectedCategory` | src/store/slices/filtersSlice.js:16-18 | sets the category to the payload and leaves query and sort mode unchanged |
| `FiltersSlice.Filters.SetSortBy` | src/store/slices/filtersSlice.js:19-21 | sets the sort mode to the payload, any string, and leaves query and category unchanged |
| `FiltersSlice.Filters.ResetFilters` | src/store/slices/filtersSlice.js:22-26 | from any prior state the configuration becomes exactly the initial one |
| `FiltersSlice.ResetTwice` | src/store/slices/__tests__/filtersSlice.test.js:40-49 | on a fresh slice set to ("test", "electronics", "price-asc"), one reset gives the initial state and a second reset leaves the same state |
| `ProductsSlice.Products.constructor` | src/store/slices/productsSlice.js:53-60 | empty items and categories, no selected product, both loading flags false, no error |
| `ProductsSlice.Products.ClearSelectedProduct` | src/store/slices/productsSlice.js:66-68 | clears the selected product and changes nothing else |
| `ProductsSlice.Products.FetchProductsPending` | src/store/slices/productsSlice.js:73-76 | sets `loading` and clears `error`; items and everything else unchanged |
| `ProductsSlice.Products.FetchProductsFulfilled` | src/store/slices/productsSlice.js:77-81 | `loading` false, items become the payload, error cleared; nothing else changes |
| `ProductsSlice.Products.FetchProductsRejected` | src/store/slices/productsSlice.js:82-85 | `loading` false and error becomes the payload; items and selected product are kept |
| `ProductsSlice.Products.FetchProductByIdPending` | src/store/slices/productsSlice.js:87-90 | sets `loading` and clears `error`; nothing else changes |
| `ProductsSlice.Products.FetchProductByIdFulfilled` | src/store/slices/productsSlice.js:91-95 | selected product becomes the payload, `loading` false, error cleared; items unchanged |
| `ProductsSlice.Products.FetchProductByIdRejected` | src/store/slices/productsSlice.js:96-99 | `loading` false and error becomes the payload; items and selected product are kept |
| `ProductsSlice.Products.FetchCategoriesPending` | src/store/slices/productsSlice.js:101-103 | sets only `categoriesLoading` |
| `ProductsSlice.Products.FetchCategoriesFulfilled` | src/store/slices/productsSlice.js:104-107 | clears `categoriesLoading` and replaces the categories; `loading` and `error` untouched |
| `ProductsSlice.Products.FetchCategoriesRejected` | src/store/slices/productsSlice.js:108-110 | clears only `categoriesLoading`; the old categories are kept |
| `ProductsSlice.Products.Dispatch` | src/store/slices/productsSlice.js:70-111 | every action updates the fields exactly as the reducer function on snapshots says |
| `ProductsSlice.ReducePreservesConsistent` | src/store/slices/productsSlice.js:71-110 | no single action leaves an error message standing while a product fetch is loading |
| `ProductsSlice.ReduceAllPreservesConsistent` | src/store/slices/productsSlice.js:71-110 | the same holds after any sequence of actions |
| `ProductsSlice.CategoryEventsIsolated` | src/store/slices/productsSlice.js:101-110 | any run of category actions leaves items, selected product, `loading` and `error` as they were |
| `ProductsSlice.LoadingTracksRequests` | src/store/slices/productsSlice.js:73-99 | after any actions, `loading` is true exactly when the last product or product-by-id event that is a request or a settlement was a request. The two fetches share the flag, so a settlement of either clears it even while the other fetch is pending |
| `ProductsSlice.ItemsFromLastFulfilment` | src/store/slices/productsSlice.js:77-81 | after any actions the items are the payload of the latest products fulfilment, or the initial items when there was none |
| `FavoritesSlice.Added` | src/store/slices/__tests__/favoritesSlice.test.js:22-36 | an add either leaves the list as it was or appends the product itself, it leaves the list as it was when the id is already present, and afterwards the product's id is present. AddedMembership, AddedKeepsUnique and AddedIdempotent characterise it |
| `FavoritesSlice.Apply` | src/store/slices/__tests__/favoritesSlice.test.js:22-55 | the favorites reducer: after an add the product's id is present, after a remove the id is absent, and a clear empties the list. MembershipAfterActions and ActionsKeepUnique characterise runs of it |
| `FavoritesSlice.Removed` | src/store/slices/__tests__/favoritesSlice.test.js:38-46 | a remove never lengthens the list, and no entry left has the removed id. RemovedMembership, RemovedInOrder, RemovedKeepsUnique, RemovedAbsent and RemovedIdempotent characterise it |
| `FavoritesSlice.Favorites.constructor` | src/store/slices/__tests__/favoritesSlice.test.js:16-20 | the favorites list starts empty |
| `FavoritesSlice.Favorites.AddToFavorites` | src/store/slices/__tests__/favoritesSlice.test.js:22-36 | appends the product unless its id is already present, and keeps ids unique |
| `FavoritesSlice.Favorites.RemoveFromFavorites` | src/store/slices/__tests__/favoritesSlice.test.js:38-46 | drops the entries with that id, keeps the others in order, and keeps ids unique |
| `FavoritesSlice.Favorites.ClearFavorites` | src/store/slices/__tests__/favoritesSlice.test.js:48-55 | empties the list |
| `FavoritesSlice.AddedMembership` | src/store/slices/__tests__/favoritesSlice.test.js:22-27 | after an add the product's id is a favorite and every other id is as before |
| `FavoritesSlice.AddedKeepsUnique` | src/store/slices/__tests__/favoritesSlice.test.js:29-36 | adding never creates a second entry with the same id |
| `FavoritesSlice.AddedIdempotent` | src/store/slices/__tests__/favoritesSlice.test.js:29-36 | adding the same product twice has the effect of adding it once |
| `FavoritesSlice.RemovedMembership` | src/store/slices/__tests__/favoritesSlice.test.js:38-46 | after a remove that id is no favorite and every other id is as before |
| `FavoritesSlice.RemovedIdempotent` | src/store/slices/__tests__/favoritesSlice.test.js:38-46 | removing the same id twice has the effect of removing it once |
| `FavoritesSlice.RemovedInOrder` | src/store/slices/__tests__/favoritesSlice.test.js:38-46 | the entries left by a remove keep their relative order |
| `FavoritesSlice.RemovedKeepsUnique` | src/store/slices/__tests__/favoritesSlice.test.js:38-46 | removing keeps ids unique |
| `FavoritesSlice.RemovedAbsent` | src/store/slices/__tests__/favoritesSlice.test.js:38-46 | removing an id that is not a favorite changes nothing |
| `FavoritesSlice.MembershipAfterActions` | src/store/slices/__tests__/favoritesSlice.test.js:22-55 | after any run of add, remove and clear, an id is a favorite exactly when the latest action that mentions it (or a clear) says so |
| `FavoritesSlice.ActionsKeepUnique` | src/store/slices/__tests__/favoritesSlice.test.js:29-36 | no run of actions creates two favorites with the same id |
| `Selectors.SelectAllProducts` | src/store/selectors.js:4 | reads the catalog, `state.products.items`; a plain field read with no contract |
| `Selectors.SelectSearchQuery` | src/store/selectors.js:7 | reads `state.filters.searchQuery`; a plain field read with no contract |
| `Selectors.SelectSelectedCategory` | src/store/selectors.js:8 | reads `state.filters.selectedCategory`; a plain field read with no contract |
| `Selectors.SelectSortBy` | src/store/selectors.js:9 | reads `state.filters.sortBy`; a plain field read with no contract |
| `Selectors.SelectFavorites` | src/store/selectors.js:12 | reads `state.favorites.items`; a plain field read with no contract |
| `Selectors.SelectSelectedProduct` | src/store/selectors.js:51 | reads `state.products.selectedProduct`; a plain field read with no contract |
| `Selectors.MatchesQuery` | src/store/selectors.js:22-25 | true exactly when the lower-cased query occurs at some position of the lower-cased title |
| `Selectors.SearchStage` | src/store/selectors.js:21-26 | the search stage never lengthens the list, and every product it keeps has the lower-cased query in its lower-cased title. SearchStageCount says it keeps exactly those products, with their multiplicities |
| `Selectors.CategoryStage` | src/store/selectors.js:29-33 | the category stage never lengthens the list, and every product it keeps has exactly the selected category. CategoryStageCount says it keeps exactly those products, with their multiplicities |
| `Selectors.SortStage` | src/store/selectors.js:36-40 | the sort stage is a permutation of the filtered list. ViewSorted, ViewStable and ViewSortUnique give its order |
| `Selectors.FilterStages` | src/store/selectors.js:18-33 | the `if (searchQuery)` and `if (selectedCategory)` stages: the result is no longer than the catalog, and every product kept comes from the catalog and passes both filters, where an empty query or category passes everything. ViewContents gives the converse with multiplicities, and ViewDefaults the case where both are empty |
| `Selectors.FilteredProducts` | src/store/selectors.js:17-43 | the whole view as a function of the catalog and the filters. Its contract says the sort only permutes the filtered list. ViewContents, ViewOrder, ViewDefaults, ViewSorted, ViewStable, ViewSortUnique and SearchIgnoresCase characterise it |
| `Selectors.SelectFilteredProducts` | src/store/selectors.js:15-44 | the imperative selector (copy, reassign per stage, in-place sort) returns exactly the three-stage view of the state's catalog and filters |
| `Selectors.SelectProductById` | src/store/selectors.js:47-48 | nothing exactly when no catalog entry has the id; otherwise the first catalog entry with that id |
| `Selectors.SelectIsFavorite` | src/store/selectors.js:54-55 | true exactly when some favorite has the id |
| `Selectors.SearchStageCount` | src/store/selectors.js:21-26 | search keeps each product whose lower-cased title contains the lower-cased query, as often as it occurs, and nothing else |
| `Selectors.CategoryStageCount` | src/store/selectors.js:29-33 | the category stage keeps each product whose category equals the selection exactly, as often as it occurs, and nothing else |
| `Selectors.FilterStagesInOrder` | src/store/selectors.js:18-33 | the two filter stages together keep a subsequence of the catalog |
| `Selectors.ViewContents` | src/store/selectors.js:18-42 | for any sort mode, the view holds each product that passes both filters exactly as often as the catalog does, and nothing else |
| `Selectors.ViewOrder` | src/store/selectors.js:18-42 | the view is a permutation of a subsequence of the catalog, and that subsequence itself when the sort mode is not a price order |
| `Selectors.ViewDefaults` | src/store/selectors.js:18-42 | with empty query, empty category and no price order, the view is the catalog in its original order |
| `Selectors.ViewSorted` | src/store/selectors.js:36-40 | with `"price-asc"` prices are non-decreasing; with `"price-desc"` non-increasing |
| `Selectors.ViewStable` | src/store/selectors.js:36-40 | whatever the sort mode, products of equal price keep the order in which they passed the filters |
| `Selectors.ViewSortUnique` | src/store/selectors.js:36-40 | any price-ordered arrangement of the filtered products that keeps equal prices in order is the view |
| `Selectors.SearchIgnoresCase` | src/store/selectors.js:21-26 | two non-empty queries with the same lower-casing give the same view |
| `Selectors.CombinedFiltersExample` | src/store/__tests__/selectors.test.js:72-84 | on the test catalog, query "Phone", category "electronics" and `"price-asc"` leave only the phone |
| `Selectors.CategorySortExample` | src/store/__tests__/selectors.test.js:42-60 | on the test catalog, category "electronics" with `"price-asc"` gives the phone, then the laptop |
| `Selectors.CaseInsensitiveExample` | src/__tests__/integration/search.test.jsx:102-114 | typing "laptop" finds the product titled "Laptop Computer", whatever its other fields |

## Left out

- The fetches `fetchProducts`, `fetchProductById` and `fetchCategories` are network I/O. Only the actions their outcomes dispatch are modelled, as events with their payloads.
- The payload of a rejected fetch is modelled as an optional string, and the store's `error` is set to it as it is. This is exact for `fetchProductById`, which passes a bare `error.message` (`src/store/slices/productsSlice.js:32`). For `fetchProducts` the payload is always a non-empty string (`:16`), so the option is a harmless over-approximation there.
- The memoisation by `createSelector` is left out. It caches results and does not change what the selector returns.
- The React components, pages, routing, store wiring and the 300 ms search debounce are left out. They are presentation, library configuration or timer code.
- Text.Lower: models `toLowerCase` on the ASCII letters only. Unicode case mapping, which can also change a string's length, is not modelled.
- PriceSort.Compare: prices are whole cents (`int`), so the comparator never meets a fraction, `NaN` or a non-numeric price. Price formatting is left out.
- PriceSort.InsertionSort: stands in for the engine's `Array.prototype.sort`. Every stable sort gives the same result with this comparator (SortedGroupsDetermine), but the engine's algorithm and its cost are not modelled.
- The rating inside a product is inert data, read by no operation in the model.
- The favorites reducers are specified by the behaviour that `favoritesSlice.test.js` checks, not by their code. Their initial state, add, remove and clear follow the tested results. The duplicate check is by id. The tests re-add an identical product, so they do not tell id from value. The detail page chooses add or remove through `selectIsFavorite`, which compares ids (`src/pages/ProductDetailPage.jsx:15-16`, `:29-35`).
