# Storefront cart and catalog engine, modelled in Dafny

This project models the pure state logic of a client-side storefront (a React
shop over a public demo product API):

- **Cart aggregate** (`src/App.tsx`, `src/Cart/Cart.tsx`). The cart is a
  sequence of lines in insertion order. Each line is a product record with an
  `amount`. *Add* bumps the line with the clicked product's id or appends a
  one-unit copy. *Remove* rebuilds the cart left to right: a matching
  one-unit line is dropped and any other matching line loses a unit. The
  cart badge shows the item count. The drawer shows the price total, the sum
  of `amount * price`.
- **Catalog engine** (`src/App.tsx`). It computes the distinct categories in
  first-occurrence order. It filters the products, keeping the input order,
  by three tests: lower-cased title contains the lower-cased query, category
  equal or `all`, and price inside the inclusive range. It slices pages of 9
  with JavaScript `slice` semantics and counts pages as `ceil(n / 9)`.
- **Filter panel state** (`src/components/Filters.tsx`, `src/App.tsx`). This
  covers the `hasActiveFilters` predicate, the "clear filters" action, the
  initial state and the state setters.

Files, one module each:

| file | module | models |
|---|---|---|
| `types.dfy` | `Types` | the `CartItemType` record (`Item`), `Option` for the not-yet-loaded product list |
| `text.dfy` | `Text` | `toLowerCase` (ASCII letters) and `includes` |
| `filters.dfy` | `Filters` | the view state, `hasActiveFilters`, clear, setters, slider bounds |
| `catalog.dfy` | `Catalog` | categories, filter, pagination, page count |
| `cart.dfy` | `Cart` | `find`, add, remove, item count, cart invariant |
| `cart_total.dfy` | `CartTotal` | `calculateTotal` and how add and remove move it |

Modelling choices:

- Prices and the price range are `real`: a JavaScript number with no
  rounding. Ids and amounts are `int`.
- The product query's result is an `Option`. While it is `None`, the
  category list and the filtered list are empty, as in the source.
- `reduce` is modelled as a recursion on the last element, which is a left
  fold. This applies to `getTotalItems`, `calculateTotal`, the rebuild in
  `handleRemoveFromCart` and the `Set` insertion behind `categories`.
- There is no clear-cart operation. `src/Cart/Cart.tsx:11` declares an
  `onEmptyCart` callback and wires it to the drawer's button at line 92, but
  `src/App.tsx:262-266` renders the drawer without supplying it.
- Nothing in the code checks that prices are non-negative, so the model
  accepts any price. Only the non-negativity lemmas assume it.
- `handleRemoveFromCart` (`src/App.tsx:118-129`) treats EVERY line with the
  matching id, and so does the model. The per-line characterisation
  (`RemovePresent`) assumes unique ids, which the add action maintains.

## Model

| member | source | states |
|---|---|---|
| `Text.LowerChar` | src/App.tsx:152 | the result is never an ASCII capital; a capital maps to the letter 32 code points above it, anything else is kept |
| `Text.ToLower` | src/App.tsx:152 | lower-casing keeps the length, leaves no ASCII capital, keeps every non-capital character in place and turns each character at every position into its lower-case form |
| `Text.ToLowerFixesLower` | src/App.tsx:152 | a string with no capitals is unchanged by lower-casing |
| `Text.ToLowerIdempotent` | src/App.tsx:152 | lower-casing twice equals lower-casing once |
| `Text.Includes` | src/App.tsx:152 | `includes` holds exactly when the needle occurs at some position of the haystack |
| `Text.ShiftOccurrence` | src/App.tsx:152 | occurrences in the string without its first character are the occurrences after position 0 |
| `Text.EmptyIncluded` | src/App.tsx:152 | the empty query occurs in every title, so it matches every product |
| `Filters.Initial` | src/App.tsx:84-87 | the starting state has an empty query, page 1, filters inactive, and a price range inside the slider bounds |
| `Filters.ClearFilters` | src/App.tsx:143-146 | after clearing, the filters are inactive and the range is inside the slider bounds; the query and the page are unchanged |
| `Filters.SetSearch` | src/App.tsx:131-133 | the new query is stored and every other field is unchanged |
| `Filters.SetCategory` | src/App.tsx:135-137 | the new category is stored and every other field is unchanged, so the page is not reset |
| `Filters.SetPriceRange` | src/App.tsx:139-141 | the new range is stored and every other field is unchanged, so the page is not reset |
| `Filters.SetPage` | src/App.tsx:167-170 | the new page is stored and every other field is unchanged |
| `Filters.HasActiveFilters` | src/components/Filters.tsx:41 | the filters count as inactive exactly when resetting the category to `all` and the range to 0..1000 would leave the state as it is; an inactive state's range lies within the slider bounds |
| `Filters.InactiveIffClearIsIdentity` | src/components/Filters.tsx:41 | `hasActiveFilters` is false exactly when clearing changes nothing, i.e. category `all` and range `(0, 1000)` |
| `Filters.ClearIdempotent` | src/App.tsx:143-146 | clearing twice equals clearing once |
| `Filters.ActiveIgnoresSearchAndPage` | src/components/Filters.tsx:41 | changing the search query or the page never changes `hasActiveFilters` |
| `Catalog.Distinct` | src/App.tsx:97 | the deduplicated list has no repeats and the same members as the input |
| `Catalog.DistinctFirstOccurrenceOrder` | src/App.tsx:97 | the deduplicated list is in first-occurrence order: an earlier category has occurred before any occurrence of a later one |
| `Catalog.Categories` | src/App.tsx:95-98 | no categories before the products load; after that, no duplicates, every product's category is listed and every listed category belongs to some product |
| `Catalog.CategoryColumn` | src/App.tsx:97 | the mapped list has one entry per product, each that product's category |
| `Catalog.CategoriesFirstOccurrenceOrder` | src/App.tsx:95-98 | the category list is in first-occurrence order: a category listed before another belongs to a product placed before any product of the later one |
| `Catalog.MatchesSearch` | src/App.tsx:152 | the empty query admits every product, and a product whose title is shorter than the query is never admitted |
| `Catalog.MatchesCategory` | src/App.tsx:153 | the value `all` admits every product; any other value admits exactly the products of that category |
| `Catalog.MatchesPrice` | src/App.tsx:154 | a reversed range admits nothing; the default range admits exactly the prices within 0..1000 |
| `Catalog.Matches` | src/App.tsx:152-156 | an admitted product has a range in order and a title at least as long as the query; with no query and category `all`, only the price test decides |
| `Catalog.Filter` | src/App.tsx:151-157 | the result is no longer than the input and holds exactly the input products that pass all three tests |
| `Catalog.FilteredProducts` | src/App.tsx:148-158 | empty before the products load; after that, a product is shown exactly when it is loaded and passes all three tests |
| `Catalog.FilterCount` | src/App.tsx:151-157 | each passing product keeps its number of occurrences and every other product is dropped |
| `Catalog.FilterAppend` | src/App.tsx:151 | filtering distributes over concatenation, so passing products keep their relative order |
| `Catalog.FilterCons` | src/App.tsx:151-157 | filtering a list keeps its first product in front exactly when that product passes the tests |
| `Catalog.FilterIsSubsequence` | src/App.tsx:151-157 | the filtered list is a subsequence of the product list |
| `Catalog.UnrestrictedFilterKeepsAll` | src/App.tsx:152-154 | an empty query, category `all` and a range covering every price return the product list unchanged |
| `Catalog.InactiveFiltersOnlySearch` | src/App.tsx:152-154 | with the panel inactive and every price within 0..1000, only the search test restricts the list |
| `Catalog.NoMatchShowsNothing` | src/App.tsx:151-157 | when no product passes the tests the filtered list is empty |
| `Catalog.EmptyRangeShowsNothing` | src/App.tsx:154 | a range with `lo > hi` admits no product |
| `Catalog.ClearWidensFilter` | src/App.tsx:143-157 | clearing the filters never hides a product priced within 0..1000: every product shown before is shown after |
| `Catalog.ListedCategoryHasProducts` | src/App.tsx:151-157 | picking a category offered by the panel, with no query and a range covering every price, shows at least one product |
| `Catalog.SliceIndex` | src/App.tsx:162 | a `slice` index resolves into `[0, len]` and an index already in range is kept |
| `Catalog.Slice` | src/App.tsx:162 | for `0 <= start <= end`, the slice has `max(0, min(end, len) - start)` elements, taken from `start` onwards |
| `Catalog.PaginatedProducts` | src/App.tsx:160-163 | page `p >= 1` holds `min(9, max(0, n - (p-1)*9))` products, the ones starting at index `(p-1)*9` |
| `Catalog.TotalPages` | src/App.tsx:165 | the page count is the least number of 9-product pages that hold `n` products, so 0 for no products |
| `Catalog.PageNonEmptyIff` | src/App.tsx:160-165 | page `p >= 1` is non-empty exactly when `p <= totalPages`; a page past the last is empty because nothing clamps the page number |
| `Catalog.PageIsSlice` | src/App.tsx:160-163 | page `k >= 1` is the part of the list between positions `9(k-1)` and `9k`, clipped to its length |
| `Catalog.PagesArePrefix` | src/App.tsx:160-163 | pages `1..k` laid end to end are the first `min(9k, n)` products |
| `Catalog.AllPagesRebuildList` | src/App.tsx:160-165 | pages `1..totalPages` laid end to end give back the filtered list |
| `Catalog.ShowsPagination` | src/App.tsx:244 | the pagination control is shown exactly when the filtered list holds more than 9 products |
| `Catalog.NarrowingFilterCanStrandPage` | src/App.tsx:244-250 | an illustration on one concrete catalog of the general `PageNonEmptyIff`: narrowing the category while on page 2 leaves page 2 selected but empty, and the pagination control (shown only when `totalPages > 1`) disappears |
| `Cart.Find` | src/App.tsx:105 | `find` yields a line exactly when the id is in the cart; the line it yields carries that id and is the first such line, with no line before it carrying the id |
| `Cart.GetTotalItems` | src/App.tsx:100-101 | the empty cart holds 0 items, and a cart whose lines each hold at least one unit holds at least as many items as lines |
| `Cart.AddToCart` | src/App.tsx:103-116 | a present id: same length, each matching line gains exactly one unit with its stored fields kept, and other lines are untouched; an absent id: the old lines are kept in order and a one-unit copy of the product is appended; the id is in the cart afterwards |
| `Cart.RemoveFromCart` | src/App.tsx:118-129 | the cart never grows, and removing an absent id returns an equal cart |
| `Cart.RemovePresent` | src/App.tsx:118-129 | with unique ids, removing a present id either deletes its one-unit line and closes the gap, or lowers its amount by one; all other lines keep value and order |
| `Cart.TakeOneAppend` | src/App.tsx:120-127 | taking a unit from a line before the last commutes with appending a line |
| `Cart.UniqueInit` | src/App.tsx:120-127 | dropping the last line of a cart with unique ids keeps them unique, and the dropped id occurs nowhere else |
| `Cart.RemovePreservesWellFormed` | src/App.tsx:118-129 | removal keeps ids unique and leaves no line with fewer than one unit |
| `Cart.DeleteKeepsWellFormed` | src/App.tsx:122 | deleting a line keeps ids unique and amounts at least one |
| `Cart.DecrementKeepsWellFormed` | src/App.tsx:123 | lowering a line holding two or more units keeps the cart invariant |
| `Cart.AddPreservesWellFormed` | src/App.tsx:103-116 | adding keeps ids unique and every amount at least one |
| `Cart.TotalItemsAppend` | src/App.tsx:100-101 | the item count of a concatenation is the sum of the counts |
| `Cart.TotalItemsSplit` | src/App.tsx:100-101 | the item count splits around any position |
| `Cart.TotalItemsWithAmount` | src/App.tsx:100-101 | changing one line's amount changes the item count by the difference |
| `Cart.AddPresentAt` | src/App.tsx:105-112 | with unique ids, adding a present product bumps exactly the line at its position |
| `Cart.AddIncrementsTotalItems` | src/App.tsx:100-116 | every add raises the item count by exactly one |
| `Cart.RemoveDecrementsTotalItems` | src/App.tsx:100-129 | removing a present id lowers the item count by exactly one; removing an absent id leaves it unchanged |
| `Cart.RemoveUndoesAdd` | src/App.tsx:103-129 | on a well-formed cart, removing the product just added gives back the original cart |
| `Cart.RemoveUndoesAddPresent` | src/App.tsx:105-125 | removing a present product right after adding it restores the cart |
| `Cart.RemoveUndoesAddAbsent` | src/App.tsx:114-122 | removing a new product right after adding it restores the cart |
| `Cart.RemoveRepeatedlyDeletesLine` | src/App.tsx:118-129 | removing an id as many times as its line holds units deletes exactly that line; any further removals change nothing |
| `Cart.RemoveAbsentForever` | src/App.tsx:118-129 | removing an absent id any number of times changes nothing |
| `Cart.AddTimesMerges` | src/App.tsx:103-116 | adding one product `n >= 1` times to an empty cart yields a single line holding `n` units |
| `CartTotal.CalculateTotal` | src/Cart/Cart.tsx:15-16 | the empty cart's total is 0, and a one-line cart costs that line's amount times its price |
| `CartTotal.TotalNonNegative` | src/Cart/Cart.tsx:15-16 | with non-negative amounts and prices, the total is non-negative; the empty cart's total is 0 |
| `CartTotal.WellFormedTotalNonNegative` | src/Cart/Cart.tsx:15-16 | a well-formed cart of non-negatively priced products has a non-negative total |
| `CartTotal.TotalAppend` | src/Cart/Cart.tsx:15-16 | the total of a concatenation is the sum of the totals |
| `CartTotal.TotalSplit` | src/Cart/Cart.tsx:15-16 | the total splits around any position |
| `CartTotal.TotalWithAmount` | src/Cart/Cart.tsx:15-16 | changing one line's amount swaps that line's share of the total |
| `CartTotal.TotalIncrement` | src/Cart/Cart.tsx:15-16 | one more unit of a line raises the total by that line's price |
| `CartTotal.TotalDecrement` | src/Cart/Cart.tsx:15-16 | one unit less of a line lowers the total by that line's price |
| `CartTotal.FindAt` | src/App.tsx:105 | with unique ids, `find` returns the line at the id's position |
| `CartTotal.AddRaisesTotal` | src/Cart/Cart.tsx:15-16 | an add raises the total by the stored line's price when the id is present, or by the product's price when it is new |
| `CartTotal.TotalWithoutSingleUnit` | src/Cart/Cart.tsx:15-16 | deleting a one-unit line lowers the total by its price |
| `CartTotal.RemoveLowersTotal` | src/Cart/Cart.tsx:15-16 | removing a present id lowers the total by its line's price; removing an absent id leaves the total unchanged |
| `CartTotal.MultisetWithout` | src/Cart/Cart.tsx:15-16 | proof helper for order independence of the total, a generic sequence fact: deleting a position removes exactly that element from the sequence's multiset |
| `CartTotal.TotalWithout` | src/Cart/Cart.tsx:15-16 | deleting a line lowers the total by that line's share |
| `CartTotal.MultisetCancel` | src/Cart/Cart.tsx:15-16 | taking the same line out of two carts with equal contents leaves equal contents |
| `CartTotal.TotalOrderStep` | src/Cart/Cart.tsx:15-16 | matching the last line of one cart with a line of another, equal totals of the rests give equal totals |
| `CartTotal.TotalOrderIndependent` | src/Cart/Cart.tsx:15-16 | two carts holding the same lines in any order have the same total |

## Left out

- Fetching the products and the login/sign-up requests are network I/O. The loaded list is a parameter (`Option<seq<Item>>`).
- Authentication is left out: the token in browser storage, the private route, login and logout. These are browser-storage side effects unrelated to the catalog and cart state.
- Left out as presentation: the theme and its toggle, routing, page layout, and the scroll-to-top in the page-change handler.
- The pagination widget wraps a third-party component whose code is not part of this model. Only the page number it reports (`SetPage`) is modelled.
- The header, landing, login, sign-up and footer pages, the entry point and the build configuration are pure UI and configuration.
- Floating-point rounding and the two-decimal formatting of totals are left out. Prices are exact reals, and formatting happens only at display time.
- Text.ToLower: lower-cases the ASCII letters only, not full Unicode `toLowerCase`, because Unicode case mapping tables are outside the model.
- Filters.WithinSlider: the price slider (src/components/Filters.tsx:110-115) is a third-party widget whose clamping code is not part of this model. The model proves only that the initial and the cleared ranges lie within 0..1000, not that every slider-chosen range does.
- Catalog.PaginatedProducts: `slice` semantics for negative indices are modelled, but the contract describes pages `>= 1` only. The pagination widget never reports a page below 1.
- A "clear cart" operation is not modelled. The cart drawer declares the callback, but the application never supplies it, so the button does nothing.
