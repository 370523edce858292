# ProductPage list pipeline, modelled in Dafny

This project models the product list of the `ProductPage` React component
(`src/ProductPage.tsx`). The component holds four pieces of state:
`products` (the list shown), `searchTerm`, `sortBy` and `filterOptions`
(`{ new, old }`). Three change handlers update that state:

- `handleSearchChange` stores the text, then calls `filterProducts`.
- `handleSortChange` stores the sort key, then calls `sortProducts`.
- `handleFilterChange` sets one flag, then calls `filterProducts`.

`filterProducts` copies the current list. If `new` is set, it keeps the entries
with `creationAt > '2021-01-01'`. Then, if `old` is set, it keeps the entries
with `creationAt < '2021-01-01'`. Both are string comparisons. `sortProducts`
copies the list and sorts it in place by price: ascending for
`'priceLowToHigh'`, descending for `'priceHighToLow'`, unchanged for any other
key. Both write their result back to `products`. So every event works on the
list already shown, not on the fetched one. A handler also sees
`filterOptions` and `sortBy` as they were before the event.

The files are:

- `sequences.dfy` (module `Sequences`): `Filter`, which is `Array.prototype.filter`, plus order-preserving subsequences.
- `catalog.dfy` (module `Catalog`): the `Product` record and `StrLess`, which is JavaScript's string `<`. Also the cutoff day and the two date predicates `IsNew` and `IsOld`.
- `filtering.dfy` (module `Filtering`): the `filterOptions` record and its update. The method `FilterProducts` narrows a local copy step by step. The function `Filtered` specifies it.
- `sorting.dfy` (module `Sorting`): `StableSort` is the specification of a stable sort by price. `SortInPlace` is an in-place insertion sort on an `array`. `SortProducts` copies the list into a fresh array and sorts it.
- `product_page.dfy` (module `ProductPageComponent`): the class `ProductPage`, which has the four state fields and one method per handler. A ghost field `loaded` records the delivered list.

Modelling choices:

- `price` is an `int`. The comparator `a.price - b.price` becomes a comparison of integer ranks: the price when ascending, minus the price when descending.
- The flags are named `showNew` and `showOld`, because `new` and `old` are Dafny keywords.
- The engine's sort algorithm is not visible. It is modelled by an insertion sort. `Sorting.StableSortUnique` proves that a stable sort has exactly one possible result, so every stable sort (ES2019 requires `Array.prototype.sort` to be stable) returns what the model returns.
- The code has no search by title, does not combine the two flags with "either", and does not recompute from the fetched list on each change. The model follows the code: the search text is stored but never read, the two flags narrow one after the other, and every change recomputes from the list already shown. `FilteredBothFlagsEmpty` shows that both flags together leave nothing, and `FilteredTwice` shows that re-filtering compounds. The `ensures` of `ProductPage.HandleSearchChange` shows that the text is not read. On a two-entry catalogue, the scenario method `ProductPageComponent.StaleFilterSession` walks through three things: the stale flags, the compounding and the inert search.

## Model

| member | source | states |
|---|---|---|
| `Sequences.Filter` | src/ProductPage.tsx:59-62 | `.filter(keep)` keeps exactly the elements of the input that satisfy `keep`: an element is in the result if and only if it is in the input and passes |
| `Sequences.FilterIsSubsequence` | src/ProductPage.tsx:57-63 | filtering only deletes: the result is an order-preserving subsequence of the input, and its multiset is contained in the input's |
| `Sequences.FilterConcat` | src/ProductPage.tsx:59-62 | filtering a concatenation is the concatenation of the filtered parts |
| `Sequences.FilterKeepsAll` | src/ProductPage.tsx:59-62 | when every element passes, the filter returns the same list in the same order |
| `Sequences.FilterKeepsNone` | src/ProductPage.tsx:59-62 | when no element passes, the filter returns the empty list |
| `Sequences.FilterCongruent` | src/ProductPage.tsx:59-62 | two predicates that agree on the list's elements filter it identically |
| `Sequences.FilterFuse` | src/ProductPage.tsx:58-63 | filtering by `f` and then by `g` equals one filter by `f && g` |
| `Catalog.StrLessIrreflexive` | src/ProductPage.tsx:59-62 | string `<` is irreflexive: no string is below itself |
| `Catalog.StrLessAsymmetric` | src/ProductPage.tsx:59-62 | string `<` is asymmetric: `a < b` rules out `b < a` |
| `Catalog.StrLessTotal` | src/ProductPage.tsx:59-62 | any two different strings are ordered one way or the other |
| `Catalog.StrLessTransitive` | src/ProductPage.tsx:59-62 | string `<` is transitive |
| `Catalog.StrLessProperPrefix` | src/ProductPage.tsx:59-62 | a string is below each of its proper extensions |
| `Catalog.NeverNewAndOld` | src/ProductPage.tsx:58-63 | no product satisfies both `creationAt > '2021-01-01'` and `creationAt < '2021-01-01'` |
| `Catalog.NewOrOldUnlessCutoff` | src/ProductPage.tsx:59-62 | a product passes one of the two date checks if and only if its `creationAt` is not exactly `'2021-01-01'` |
| `Catalog.CutoffDayIsNew` | src/ProductPage.tsx:59 | a timestamp on the cutoff day itself (the cutoff text plus a time) counts as new and not old |
| `Filtering.SetFlag` | src/ProductPage.tsx:51-52 | `{ ...filterOptions, [name]: checked }` sets only the flag named `name` and leaves the other flag as it was; any other name changes neither flag |
| `Filtering.FilterProducts` | src/ProductPage.tsx:56-65 | the result is an order-preserving subsequence of `products` whose multiset is contained in the input's; an entry is kept if and only if it passes every active date check; with no flag set it is `products` unchanged; with both flags set it is empty |
| `Filtering.FilteredBothFlagsEmpty` | src/ProductPage.tsx:58-63 | with both `new` and `old` set, the two filters in sequence always leave the empty list |
| `Filtering.FilteredIsOnePass` | src/ProductPage.tsx:57-63 | the two sequential filters equal one filter by the conjunction of the active date checks |
| `Filtering.FilteredTwice` | src/ProductPage.tsx:56-65 | re-filtering a filtered list compounds: it equals one filtering of the original with every flag either pass had set, so clearing a flag restores nothing |
| `Filtering.FilteredIdempotent` | src/ProductPage.tsx:56-65 | filtering twice with the same `filterOptions` gives the same list as filtering once |
| `Sorting.DirectionOf` | src/ProductPage.tsx:69-71 | only `'priceLowToHigh'` selects ascending and only `'priceHighToLow'` selects descending; every other key selects no sort |
| `Sorting.InsertPermutes` | src/ProductPage.tsx:70-72 | inserting an entry adds exactly that entry to the list's multiset |
| `Sorting.StableSortPermutes` | src/ProductPage.tsx:70-72 | the sorted list is a permutation of the input |
| `Sorting.InsertSorted` | src/ProductPage.tsx:70-72 | inserting into a list sorted by rank keeps it sorted |
| `Sorting.StableSortSorted` | src/ProductPage.tsx:70-72 | the sorted list's ranks never decrease: prices are non-decreasing ascending and non-increasing descending |
| `Sorting.InsertPricedAt` | src/ProductPage.tsx:70-72 | inserting into a sorted list puts the entry after all entries of its own price and leaves the order of every other price alone |
| `Sorting.StableSortStable` | src/ProductPage.tsx:70-72 | stability: for every price, the entries of that price appear in the sorted list in their input order |
| `Sorting.StableSortUnique` | src/ProductPage.tsx:70-72 | two lists sorted in one direction whose entries of each price come in the same order are equal, so a stable sort has a single possible result |
| `Sorting.StableSortCharacterized` | src/ProductPage.tsx:70-72 | a list is the stable sort of the input if and only if it is sorted and, for every price, its entries of that price come in input order |
| `Sorting.InsertLast` | src/ProductPage.tsx:70-72 | one pass of the in-place sort: given a sorted prefix `a[..i]`, afterwards `a[..i+1]` is `a[i]` inserted into that prefix, and the rest of the array is untouched |
| `Sorting.SortInPlace` | src/ProductPage.tsx:70-72 | the in-place sort leaves in the array the stable sort of its old contents |
| `Sorting.SortProducts` | src/ProductPage.tsx:67-75 | the result is a permutation of the input; its prices are non-decreasing for `'priceLowToHigh'` and non-increasing for `'priceHighToLow'`; entries of equal price keep their relative order; for any other key, `''` included, the list is returned unchanged |
| `ProductPageComponent.ProductPage.constructor` | src/ProductPage.tsx:20-26 | the initial state: empty list, empty search text, empty sort key, both flags cleared |
| `ProductPageComponent.ProductPage.Load` | src/ProductPage.tsx:37 | the delivered data becomes the shown list; the other state is untouched |
| `ProductPageComponent.ProductPage.HandleSearchChange` | src/ProductPage.tsx:40-43 | stores the search text; the new list is the old list filtered with the pre-event `filterOptions` and does not depend on the text; the shown list stays a sub-multiset of the delivered one |
| `ProductPageComponent.ProductPage.HandleSortChange` | src/ProductPage.tsx:45-48 | stores the sort key; the new list is the old list sorted by the pre-event `sortBy`, with the same multiset; other state is untouched |
| `ProductPageComponent.ProductPage.HandleFilterChange` | src/ProductPage.tsx:50-54 | updates only the named flag; the new list is the old list filtered with the pre-event `filterOptions`; the shown list stays a sub-multiset of the delivered one |

## Left out

- The network request, `response.json()` and `console.log` (src/ProductPage.tsx:32-38) are I/O. The delivered list is a parameter of `ProductPage.Load`. The model also does not cover a response that is not an array.
- It leaves out the `useEffect` mount scheduling and the asynchronous completion of the fetch (src/ProductPage.tsx:28-30), because they are React lifecycle and concurrency. A load that completes after some events is still modelled: `Load` then replaces whatever list is shown.
- It leaves out React's batching beyond one rule: a handler computes with the state as it was before the event.
- It leaves out the JSX rendering, the CSS classes, the `$` price display and `images[0]` (src/ProductPage.tsx:77-105), because they are UI.
- `Product` keeps only `id`, `title`, `price` and `creationAt`. `description` and `images` are only rendered; `category` and `updatedAt` are never read.
- Prices are integers here. The source's floating-point subtraction in the comparator is not modelled, so NaN and float rounding do not arise.
- `StrLess` compares Unicode scalar values. JavaScript compares UTF-16 code units, and the two orders differ only for characters outside the Basic Multilingual Plane. Dates are ASCII, so this does not matter for them.
- `[name]: checked` with a `name` other than `"new"` or `"old"` adds a property to `filterOptions` in the source. Nothing reads that property, so the model keeps only the two flags.
- The model has no search by title, no union of the two flags and no recomputation from a preserved fetched list, because the code implements none of them.
