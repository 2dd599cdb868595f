# Storefront mock data layer and order widget

A shoe storefront serves its catalog from an in-memory mock data service,
`src/utils/api.js`. The service holds one shared product array, `mockProducts`.
Its accessors filter, sort, page, look up and search that array:

- `fetchProducts` is composed of `filterAndSortProducts` and `paginateResults`;
- `fetchProductById`;
- `fetchFeaturedProducts`;
- `fetchNewArrivals`;
- `fetchRelatedProducts`;
- `searchProducts`.

A separate order page, `src/component/Order.jsx`, keeps three pieces of state
for one line item: quantity, unit price and a one-time coupon flag. It shows
a subtotal and a total from them.

This project models both in Dafny and proves what they promise.

- `wrappers.dfy`, module `Wrappers`: `Option`, `Result`, `Min`, `Max`.
- `seqs.dfy`, module `Seqs`: the JavaScript primitives the service is built from.
  - `Filter` is `Array.prototype.filter`.
  - `JsSlice` is `Array.prototype.slice`, including negative and out-of-range indices.
  - `Contains` is `String.prototype.includes`.
  - Also lemmas about these primitives.
- `sorting.dfy`, module `Sorting`: a stable in-place insertion sort on an `array`, standing for `Array.prototype.sort` with a comparator.
  - Stability is stated without element identities: each class of equal-comparing elements keeps its order.
  - A stable sort is unique and is a permutation.
- `products.dfy`, module `Products`: the product record.
  - Prices are integer cents, so 59.99 is 5999.
  - Ratings are integer half points, so 4.5 is 9.
- `query.dfy`, module `Query`:
  - `filterAndSortProducts`, a method that filters a copy of the caller's array step by step and then sorts it;
  - `paginateResults`;
  - `fetchProducts`.
- `selection.dfy`, module `Selection`: `join(',')`, the comma-separated fields of the joined selection, and the substring test compared with field membership.
- `text.dfy`, module `Text`: `trim` with the ECMAScript whitespace set, and `toLowerCase` for ASCII letters.
- `service.dfy`, module `Service`:
  - the lookup, new-arrivals, related-products and search accessors, as functions over the catalog's contents;
  - the class `Catalog`, which holds the shared array, because `fetchFeaturedProducts` sorts that array in place.
- `order.dfy`, module `OrderPage`: the class `Order`, with the page's state cells and setters, plus the subtotal and total.

The comparator relation `le(a, b)` means "`cmp(a, b) <= 0`", that is, `a` may stay before `b`.
`String.prototype.localeCompare` is a caller-supplied relation `nameLe` on names.
It is required to be a total preorder, because `name_asc`/`name_desc` sort by it.

`totalPages` is `Math.ceil(n / limit)`, so it is 0 for an empty list (src/utils/api.js:106).

The category and brand filters accept either an array of ids or one string.
The products page sends the string: the selected ids joined with commas (src/pages/ProductsPage.jsx:94-95).
On a string, `includes` is a substring test, so selecting `cat10` also keeps `cat1` products.
The model has both forms, and `selection.dfy` compares the string form with field membership.

## Model

| member | source | states |
|---|---|---|
| Seqs.Filter | src/utils/api.js:43-45 | the result is no longer than the input; every element kept is an input element that passes; every input element that passes is kept |
| Seqs.FilterMultiset | src/utils/api.js:43-64 | filtering keeps each passing value exactly as often as it occurs and drops every other value |
| Seqs.FilterIsSubsequence | src/utils/api.js:43-64 | filtering keeps the input's relative order |
| Seqs.JsSlice | src/utils/api.js:99 | `slice` returns at most the input's length; for `0 <= start <= end` it is the window `[start, end)` clipped to the length |
| Seqs.Contains | src/utils/api.js:212-213 | `includes`: the empty needle is always found, a needle longer than the haystack never is, and a needle as long as the haystack only when they are equal |
| Seqs.ContainsIffOccurs | src/utils/api.js:212-213 | `includes` holds exactly when the needle occurs at some index of the haystack |
| Sorting.InsertionSort | src/utils/api.js:70-84 | the stable `sort` behind every sort key here and the featured sort at line 138: sorting in place leaves the array ordered under the comparator, with every class of equal-comparing elements in its original order, and a permutation of the old contents |
| Sorting.StableSortIsUnique | src/utils/api.js:68-89 | two ordered sequences with the same classes are equal, so the stable sort's result is determined by its input |
| Sorting.ClassesGivePermutation | src/utils/api.js:68-89 | a stable rearrangement is a permutation |
| Sorting.PrefixPrecedesRest | src/utils/api.js:137-139 | in an ordered sequence, every element of a prefix may precede every element left out of it |
| Query.SortKeyOf | src/utils/api.js:68-89 | the `switch` on `sortBy`: the order is left alone exactly when `sortBy` is absent or none of `price_asc`, `price_desc`, `name_asc`, `name_desc`, `popular` |
| Query.PrecedesIsComparator | src/utils/api.js:70-84 | for every key, the order relation `Precedes` (lower or equal price up, higher or equal price down, names by `localeCompare` up or down, higher or equal rating for `popular`) holds exactly when the comparator `filterAndSortProducts` passes to `sort` returns at most 0 |
| Query.OrderOfSortBy | src/utils/api.js:68-84 | a list in order for the key `sortBy` selects has prices that never decrease for `price_asc`, never increase for `price_desc`, names in `localeCompare` order up for `name_asc` and down for `name_desc`, and ratings that never increase for `popular` |
| Query.KeyOrderIsTotalPreorder | src/utils/api.js:70-88 | each sort key's comparator is total and transitive, given that `localeCompare` is |
| Query.Selected | src/utils/api.js:41-65 | every product kept is an input product that passes every active filter, every input product that passes is kept, and the result is no longer than the input |
| Query.SelectionIsExact | src/utils/api.js:39-65 | the filtered list holds exactly the products that pass every active filter, each as often as in the input, in input order; an empty category or brand list or string and a missing price bound filter nothing; an array selection is membership and a joined string a substring test; the price range is inclusive; on sale means a positive discount |
| Query.NameFilterSteps | src/utils/api.js:41-53 | the category step then the brand step, each only when its selection is non-empty, keep exactly the products whose category and brand pass |
| Query.FilterPipeline | src/utils/api.js:39-65 | applying the four filters one after another, each only when active, yields the selection |
| Query.ApplyFilters | src/utils/api.js:39-65 | the step-by-step reassignment of the working list ends with the selection |
| Query.OrderedByKey | src/utils/api.js:68-84 | after `price_asc` prices never decrease, after `price_desc` and `popular` prices and ratings never increase, and names follow `localeCompare` up or down |
| Query.SortedCopy | src/utils/api.js:68-89 | sorting the filtered list gives its stable sort under the key, a permutation of it; `newest` and unknown keys leave it as it is |
| Query.FilterAndSortProducts | src/utils/api.js:38-93 | the result is the stable sort of the selection under the requested key, and a permutation of it; with no key, `newest` or an unknown key it is the selection unchanged; the caller's array is not modified |
| Query.CeilDiv | src/utils/api.js:106 | the least page count whose pages cover `n` items; zero exactly for zero items |
| Query.TotalPages | src/utils/api.js:106 | `Math.ceil(n / limit)`: the ceiling for a positive limit, `Infinity` or `NaN` for a zero limit, the ceiling of a negative quotient for a negative limit |
| Query.PageStart | src/utils/api.js:97 | the first index of a page of 1 or more is not negative |
| Query.PaginateResults | src/utils/api.js:96-108 | absent page and limit default to 1 and 12; totals are the list length and its page count; a zero limit gives no items; for page 1 or more the items are the window `[(page-1)*limit, (page-1)*limit + limit)` clipped to the list, so at most `limit` items |
| Query.PageIsSlice | src/utils/api.js:97-99 | a page is the slice from its start index, `limit` items long |
| Query.PageBeyondLastIsEmpty | src/utils/api.js:96-107 | a page past the last one has no items and still reports the totals |
| Query.PagesUpToIsPrefix | src/utils/api.js:97-99 | pages 1 to `k` concatenated are the first `k * limit` items |
| Query.PagesTileTheList | src/utils/api.js:96-107 | for a fixed limit of 1 or more, pages 1 to `totalPages` concatenated are the list exactly |
| Query.FetchProducts | src/utils/api.js:114-119 | the page is `paginateResults` applied to the stable sort of the selection; the totals count the selection; with no sort it pages the selection itself |
| Text.LowerChar | src/utils/api.js:209 | the result is never a capital; a capital becomes the small letter at the same place in the alphabet; every other character is kept; whitespace stays whitespace |
| Text.ToLower | src/utils/api.js:209 | same length; no capital is left; each capital becomes its small letter and every other character is kept |
| Text.LowerIsIdempotent | src/utils/api.js:209 | lower-casing twice is lower-casing once |
| Text.Trim | src/utils/api.js:205 | the result occurs in the input at a position where everything before it and everything after it is whitespace, and it neither starts nor ends with whitespace |
| Text.TrimStart | src/utils/api.js:205 | the result is a suffix, everything dropped is whitespace, and it does not start with whitespace |
| Text.TrimEnd | src/utils/api.js:205 | the result is a prefix, everything dropped is whitespace, and it does not end with whitespace |
| Text.TrimIsEmptyIffBlank | src/utils/api.js:205 | `trim` gives the empty string exactly when every character is whitespace |
| Text.LowerKeepsBlankness | src/utils/api.js:205-209 | a query that is blank before lower-casing is blank after it, and the other way round |
| Service.FindById | src/utils/api.js:125 | `find` returns nothing exactly when no product has the id, and otherwise the first product that has it |
| Service.FetchProductById | src/utils/api.js:122-130 | success exactly when some product has the id, with the first such product; otherwise the error "Product not found" |
| Service.NewArrivals | src/utils/api.js:143-159 | at most four products, each from the catalog |
| Service.NewArrivalsIsPrefix | src/utils/api.js:143-159 | new arrivals are the first `min(4, catalog size)` of the new products followed by the others |
| Service.TopUpIsPrefix | src/utils/api.js:150-155 | topping up fewer than `cap` products with the first others and cutting at `cap` is a prefix of the concatenation |
| Service.NewArrivalsCountAndChoice | src/utils/api.js:147-158 | exactly `min(4, catalog size)` products; the first four new ones when there are four or more; otherwise all new ones followed by the first products that are not new |
| Service.NewArrivalsNewFirst | src/utils/api.js:147-158 | new products come before the others, and every product returned is a catalog product |
| Service.AllNewArrivals | src/utils/api.js:147-158 | a catalog of at most four products, all new, is its own list of new arrivals |
| Service.RelatedProducts | src/utils/api.js:174-199 | every product returned is from the catalog; at most 4 with no limit, and at most `limit` for a limit of 0 or more |
| Service.RelatedForUnknownId | src/utils/api.js:177-180 | for an id not in the catalog, the first `limit` catalog products |
| Service.RelatedIsPrefixOfCandidates | src/utils/api.js:183-198 | for a known id, the first `limit` of the same-category products followed by the same-brand products in other categories |
| Service.RelatedForKnownId | src/utils/api.js:183-198 | for a known id, no product with that id, each product in its category or of its brand in another category, same-category products first |
| Service.RelatedCountAndCompleteness | src/utils/api.js:183-198 | as many products as `limit` allows; a shorter list holds every candidate |
| Service.SearchProducts | src/utils/api.js:205-207 | a missing, empty or all-whitespace query gives no items and a total of 0 |
| Service.MatchesQuery | src/utils/api.js:211-214 | a product matches exactly when the needle occurs in its lower-cased name or in its lower-cased description |
| Service.SearchMatches | src/utils/api.js:211-214 | the matches are catalog products that match, every matching catalog product is among them, and there are at most as many as catalog products |
| Service.SearchTotals | src/utils/api.js:209-219 | a non-blank query gives a non-empty needle; `totalItems` counts every match; `items` is the first `min(20, totalItems)` matches in catalog order |
| Service.SearchMatchesAreExact | src/utils/api.js:211-214 | the matches are the catalog products whose lower-cased name or description contains the needle, each as often as in the catalog |
| Service.SearchItemsContainQuery | src/utils/api.js:211-217 | every product returned is a catalog product whose lower-cased name or description has the needle at some index |
| Service.SearchIsCaseInsensitive | src/utils/api.js:205-219 | two queries that lower-case to the same string give the same search result |
| Service.ByRatingIsTotalPreorder | src/utils/api.js:138 | the rating comparator is total and transitive |
| Service.SortedPrefixIsTopRated | src/utils/api.js:137-139 | the first eight of the stable rating sort are `min(8, catalog size)` catalog products, highest rated first, none rated below a product left out |
| Service.Catalog.constructor | src/utils/api.js:2 | the shared array holds the given products |
| Service.Catalog.FetchFeaturedProducts | src/utils/api.js:133-140 | the shared array becomes its own stable rating sort, a permutation of its old contents; an array already in rating order is left as it is, so a second call changes nothing; the result is its first eight, the top-rated products |
| Service.Catalog.FeaturedProducts | src/utils/api.js:133-140 | the top-rated products, the first eight of a stable rating sort, with the shared array left as it was |
| Service.GenerationOrderSorted | src/utils/api.js:137-138 | the only stable rating sort of the two-product example catalog swaps its products |
| Service.FeaturedSortReordersCatalog | src/utils/api.js:137-158 | after the in-place featured sort of the example catalog, new arrivals and the unfiltered `newest` listing both change order |
| Selection.ListedInSingle | src/pages/ProductsPage.jsx:94-95 | a single comma-free id has itself as its only field |
| Selection.ListedInCons | src/pages/ProductsPage.jsx:94-95 | the fields of `a + "," + rest` are `a` and the fields of `rest` |
| Selection.ListedInJoinIffMember | src/pages/ProductsPage.jsx:94-95 | for comma-free ids, a value is a field of the joined selection exactly when it is one of the selected ids |
| Selection.IncludesNameAgreesWithList | src/utils/api.js:42-53 | the field test on the joined string agrees with array membership, which is what `includes` tests on an array |
| Selection.JoinedSelectionKeepsPrefixIds | src/utils/api.js:42-53 | with only `cat10` selected as a joined string, the category filter keeps a `cat1` product, although `cat1` is not a selected field |
| OrderPage.NextQuantity | src/component/Order.jsx:11 | the next quantity is `prev + change` when that is not negative, and 0 otherwise |
| OrderPage.PlusThenMinus | src/component/Order.jsx:10-12 | "+" then "-" returns to the same quantity, and "-" at zero stays at zero |
| OrderPage.Order.constructor | src/component/Order.jsx:4-8 | one item, the full price of 2950, no coupon |
| OrderPage.Order.UpdateQuantity | src/component/Order.jsx:10-12 | the quantity moves by `change` and stops at zero; price and coupon are unchanged; the invariant holds |
| OrderPage.Order.ApplyCoupon | src/component/Order.jsx:14-22 | the first call sets the price to 90% of the full price (2655) and marks the coupon applied; a second call changes nothing; the alert message says which case happened; the price is always the full or the discounted price, never compounded |
| OrderPage.Order.Subtotal | src/component/Order.jsx:85 | the subtotal is not negative; without the coupon it is the full price times the quantity; with it, nine tenths of that |
| OrderPage.Order.Total | src/component/Order.jsx:93 | the total is the subtotal plus shipping of 175, so never less than 175, and exactly 175 for a quantity of 0 |

## Left out

- The artificial `delay`, its `Promise` and `setTimeout`, at `src/utils/api.js:111`. Every accessor is a synchronous function or method.
- The random generation of `mockProducts` at `src/utils/api.js:2-20`. The catalog is an arbitrary parameter, or the constructor argument of `Catalog`.
- `fetchCategories`, `fetchBrands` and their constant lists. They return static data and hold no logic.
- `localeCompare` is an abstract total preorder on names, not a locale collation.
- `toLowerCase` is modelled for the ASCII letters only. Other letters are left as they are.
- Floating point is not modelled. Prices are integer cents, ratings integer half points, and JavaScript numbers are exact integers.
  - For the order page, `2950 * 0.9` is exactly 2655 in double arithmetic, so this loses nothing there.
- Query.FilterAndSortProducts: the contract states the stable sort under the key. The per-key price, name and rating orderings follow from it by Query.OrderedByKey, and are not repeated in the method's own contract.
- Query.PaginateResults: for a page below 1, or a negative limit, the items are given only by the `slice` model, not by a window statement.
- `page` and `limit` values that are not integers, such as strings or fractions, are not modelled.
- The `alert` calls, `checkout`, and `toLocaleString` formatting in `src/component/Order.jsx` are left out. `ApplyCoupon` returns the alert message instead of showing it, and `checkout` shows only the `Total`.
- The cart store (`src/context/CartContext`) and the page and layout components are not part of this model.

## Findings

| source | as written | input that shows it | evidently intended | confidence | as-written member | corrected member |
|---|---|---|---|---|---|---|
| src/utils/api.js:137-139 | `mockProducts.sort(...)` reorders the shared catalog itself before the first eight are taken. Every later accessor then sees rating order. That includes `fetchNewArrivals`, which the home page starts alongside it with the same delay (src/pages/HomePage.jsx:80-81), and the `newest` listing, which relies on generation order. | catalog `[p1 (new, rating 2.5), p2 (new, rating 5)]`: after the featured call, new arrivals and the unsorted listing are `[p2, p1]` instead of `[p1, p2]` | sort a copy (`[...mockProducts].sort(...)`) so the catalog keeps generation order | medium, not executed | Service.Catalog.FetchFeaturedProducts, Service.FeaturedSortReordersCatalog | Service.Catalog.FeaturedProducts |
| src/utils/api.js:42-53, called from src/pages/ProductsPage.jsx:94-95 | The page joins the selected ids with commas, and the filters test the joined string with `includes`, a substring test. | selection `["cat10"]` joined to `"cat10"`: a product of category `cat1` is kept | keep a product only when its id is one of the selected ids | low, not executed; the catalog's ids `cat1` to `cat4` and `brand1` to `brand5` never make one id a substring of another | Selection.JoinedSelectionKeepsPrefixIds | Selection.IncludesName, Selection.ListedInJoinIffMember |
