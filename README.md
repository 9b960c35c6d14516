# Battery storefront core, modelled in Dafny

The storefront sells batteries. An Express server reads a catalog of battery
records into memory. It answers list and search requests: filter, stable sort,
page, and an echo of the filters it applied. It serves facet lists (categories,
brands, capacities) and looks a battery up by its slug. A React client sits on
top. It has a cart reducer with totals and promo codes, a products page whose
filter state round-trips through the address bar, two filter panels, a header
with search suggestions, a category page that decodes category slugs, a search
results page, and a product page that flattens technical specifications.

This project models that logic as Dafny functions, methods and one class, and
proves what each piece promises:

- filters keep exactly the matching products, each as often as the input
  holds it, in order;
- the sort is a stable permutation ordered by the chosen key, and a `sortBy`
  naming a property every object inherits keeps the order or fails as the
  server does;
- pages partition the sorted list;
- the reducer changes only what each action names;
- parsing a built filter address restores the filter state;
- a Drive share link is rewritten to its direct link;
- a category survives the slug round trip exactly when it is title-cased.

The modules follow the program's files:

| module | models |
|---|---|
| `Battery` | the product record |
| `CatalogSort`, `Catalog` | `backend/server.js`: the sort table and the handlers |
| `Cart` | `cart.js`: the reducer, the totals and the page's handlers (class `CartPage`) |
| `ProductFilters` | `products1.js` |
| `CheckboxFilters` | `Filters.js` |
| `BatteryFilter` | `filter.js` |
| `Header` | `header.js` |
| `DriveImage` | the image helper shared by `hero1.js` and `SearchResults.js` |
| `CategoryHero` | `hero1.js` |
| `SearchResults` | `SearchResults.js` |
| `ProductPage` | `ProductDescriptionPage.jsx` |

Shared pieces model the JavaScript built-ins the code relies on:

- `Text`: case mapping, `trim`, `split`/`join`, number text;
- `Url`: `URLSearchParams` `get`/`set`, `encodeURIComponent`, form encoding;
- `Seqs`: subsequences, `new Set` de-duplication;
- `Optional`: the `Option` type.

Inputs the code fetches over HTTP are parameters of the model. This covers the
catalog, the API responses and the location's query string.

One observation about the source. `header.js:37-39` and `SearchResults.js:47-52`
send a `search` parameter to the list endpoint. That endpoint never reads
`search`: it destructures only the names at `backend/server.js:22`.
`SearchResults.QueryTextNotRead` states that consequence: what the list endpoint
reads does not depend on the query text. The suggestions are therefore filtered
on the client from the default first page.

## Model

| member | source | states |
|---|---|---|
| `Catalog.LimitOf` | backend/server.js:22 | an absent `limit` is 10, a given one is used as it is; the limit used is at least 1 |
| `Catalog.Keep` | backend/server.js:28-36 | a product is kept exactly when it is in the input and satisfies the criterion |
| `Catalog.KeepAll` | backend/server.js:28-44 | a product is kept exactly when it is in the input and satisfies every criterion |
| `Catalog.KeepAllCount` | backend/server.js:28-44 | each record every criterion accepts is kept as many times as the input holds it; every other record is absent, so the list length is the number of matching records |
| `Catalog.MatchesTerm` | backend/server.js:155-160 | the term occurs, ignoring case, in the name, the description or some tag; `Catalog.SearchFilterExact` states what the search keeps by it |
| `Catalog.KeepAllNone` | backend/server.js:28-44 | with no filter given the list is returned unchanged |
| `Catalog.KeepAfterKeepAll` | backend/server.js:28-44 | refiltering the reassigned list with one more criterion equals one pass with all criteria |
| `Catalog.KeepAllSubsequence` | backend/server.js:28-44 | filtering only removes products and keeps the order of the rest |
| `Catalog.HoldsAllAppend` | backend/server.js:28-44 | passing a sequence of filters then another equals passing both |
| `Catalog.WhenMeaning` | backend/server.js:28-37 | a filter guarded by its parameter constrains only when the parameter is given |
| `Catalog.ListCriteriaMeaning` | backend/server.js:28-44 | the list filters accept a product iff category, brand and capacity equal the given ones and its price is within both inclusive bounds; a missing bound is unbounded |
| `Catalog.ListFilterExact` | backend/server.js:28-44 | the filtered list holds exactly the listed catalog products, each as many times as the catalog holds it, as a subsequence of the catalog |
| `Catalog.SearchFilterExact` | backend/server.js:154-178 | search also requires a case-insensitive term match in the name, the description or a tag, never the brand; each found product appears as many times as in the catalog; the result is a subsequence of the catalog |
| `Catalog.RelativeIndex` | backend/server.js:59 | a `slice` index is clamped into 0..length, counting a negative one from the end |
| `Catalog.JsSlice` | backend/server.js:59 | `slice(start, end)`: the items from the clamped start up to the clamped end, or none when they cross; `Catalog.SliceWindow` pins it for a non-negative start |
| `Catalog.PageItems` | backend/server.js:57-59 | the page is the slice from `(page - 1) * limit` of length `limit`; `Catalog.PageWindow` and `Catalog.PagesPartition` state its window and that the pages tile the list |
| `Catalog.PageCount` | backend/server.js:89 | `pages` is the ceiling of total / limit: enough pages to hold every product, no empty trailing page, 0 exactly for an empty result |
| `Catalog.PageWindow` | backend/server.js:57-59 | page p is the sorted list from (p-1)*limit up to (p-1)*limit+limit, clamped to its length; a page past the end is empty; a page never exceeds the limit |
| `Catalog.SliceWindow` | backend/server.js:59 | `slice(skip, skip + limit)` is that clamped window |
| `Catalog.FirstPagesPrefix` | backend/server.js:57-59 | pages 1..n laid end to end are the prefix of the sorted list of length min(n*limit, total) |
| `Catalog.PagesPartition` | backend/server.js:57-59 | pages 1..pages laid end to end are the whole sorted list: no overlap, nothing missing |
| `Catalog.OrNull` | backend/server.js:63-65 | an absent filter is echoed as null, a given one as itself |
| `Catalog.NumberOrNull` | backend/server.js:66 | a bound of 0 and a missing bound are echoed as null |
| `Catalog.EchoPrice` | backend/server.js:66 | `priceRange` is null unless a bound is given, otherwise the pair of echoed bounds |
| `Catalog.EchoSortBy` | backend/server.js:67 | `sortBy` echoes the raw value, or `newest` when absent |
| `Catalog.UnknownSortEchoedRaw` | backend/server.js:47-67 | a `sortBy` that `sortOptions` neither holds nor inherits sorts by newest yet is echoed unchanged, not as `newest` |
| `Catalog.SortedCopy` | backend/server.js:54 | sorting the loaded list in place yields the stable sort of it |
| `Catalog.SortAndPaginate` | backend/server.js:47-91 | none exactly when the looked-up comparator makes `sort` throw; otherwise the data is the requested page of the stable sort by that comparator, and the pagination record holds the total before slicing, the page, the page count and the limit |
| `Catalog.SortWith` | backend/server.js:54-60 | the same, for a comparator already looked up |
| `Catalog.NaNComparatorKeepsOrder` | backend/server.js:53-54 | with `sortBy` `toString` or `constructor` nothing throws and the list keeps its filtered order |
| `Catalog.InheritedFailures` | backend/server.js:53-54 | `__proto__` always makes the sort throw; a throwing inherited method does so exactly when two or more products are compared; no other `sortBy` throws |
| `Catalog.Narrow` | backend/server.js:28-44 | one guarded reassignment `batteries = batteries.filter(...)` extends the applied criteria by that filter when it is given |
| `Catalog.ListSteps` | backend/server.js:28-44 | the four guarded reassignments apply the list criteria on top of the ones already applied |
| `Catalog.ListFilter` | backend/server.js:28-44 | the filtered list of `getAllBatteries` is the one-pass filter by its criteria |
| `Catalog.SearchFilter` | backend/server.js:154-178 | the filtered list of `searchBatteries` is the one-pass filter: text first, then the list criteria |
| `Catalog.GetAllBatteries` | backend/server.js:20-98 | the 500 answer `Server error` exactly when the sort throws; otherwise the requested page of the sorted matching products, the pagination of all matches, and the echoed filters |
| `Catalog.SearchBatteries` | backend/server.js:146-233 | the same for search, whose echo also carries `searchQuery` |
| `Catalog.Facet` | backend/server.js:239-240 | the sentinel, then each distinct value once, in first-occurrence order; the length is 1 + the number of distinct values |
| `Catalog.GetCategories` | backend/server.js:236-244 | `All Types`, then exactly the categories that occur in the catalog |
| `Catalog.GetBrands` | backend/server.js:247-255 | `All Brands`, then exactly the brands that occur in the catalog |
| `Catalog.GetCapacities` | backend/server.js:258-266 | `All Capacities`, then exactly the capacities that occur in the catalog |
| `Catalog.GetBatteryBySlug` | backend/server.js:101-108 | the first battery with an equal slug, or `Battery not found` exactly when no battery has that slug |
| `CatalogSort.SelectSort` | backend/server.js:47-53 | each key of `sortOptions` picks its comparator; `toString` and `constructor` pick a comparator that orders nothing; the nine inherited methods that need a `this` throw when called; `__proto__` is not callable; every other value, the absent one included, picks newest |
| `CatalogSort.UnorderedKeepsOrder` | backend/server.js:54 | a comparator that calls every pair equal leaves the list as it was |
| `CatalogSort.Compare` | backend/server.js:48-51 | each comparator is a difference of integer keys (negated for the descending keys) |
| `CatalogSort.SortedAppend` | backend/server.js:54 | a sorted list stays sorted when a product with the greatest key is appended |
| `CatalogSort.SortedMeaning` | backend/server.js:48-51 | in a sorted list prices ascend, prices descend, ratings descend or creation times descend, as the key says |
| `CatalogSort.InsertPermutation` | backend/server.js:54 | inserting a product adds exactly that product to the multiset |
| `CatalogSort.InsertSorted` | backend/server.js:54 | inserting into a sorted list keeps it sorted |
| `CatalogSort.StableSortSorted` | backend/server.js:47-54 | the result is ordered by the chosen key |
| `CatalogSort.StableSortPermutation` | backend/server.js:54 | the result is a permutation of the input |
| `CatalogSort.InsertGroups` | backend/server.js:54 | insertion places the new product after every earlier product with the same key |
| `CatalogSort.StableSortStable` | backend/server.js:54 | products with equal keys keep their input order |
| `CatalogSort.GroupMembers` | backend/server.js:54 | a key's group holds exactly the products with that key |
| `CatalogSort.StableOrderIsUnique` | backend/server.js:54 | two sorted lists with the same equal-key groups are the same list |
| `CatalogSort.StableSortCharacterised` | backend/server.js:54 | any sorted arrangement that keeps equal keys in input order is the stable sort, so the result of a stable `Array.prototype.sort` is determined |
| `CatalogSort.InsertPosition` | backend/server.js:54 | insertion puts the product after the last one not greater than it |
| `CatalogSort.InsertInPlace` | backend/server.js:54 | shifting greater elements right and storing the product inserts it into the sorted prefix |
| `CatalogSort.SortInPlace` | backend/server.js:54 | `batteries.sort(sort)` leaves the array holding the stable sort of its old contents |
| `Cart.Merge` | src/components/battery/cart.js:30-33 | each field of the patch overrides the item's; fields missing from the patch are kept |
| `Cart.MergeTwice` | src/components/battery/cart.js:30-33 | two successive patches equal one merged patch |
| `Cart.Reduce` | src/components/battery/cart.js:21-46 | SET_CART replaces the items and keeps the promo; UPDATE_ITEM patches only the target, creating it when absent; REMOVE_ITEM drops only that key; CLEAR_CART empties the items and keeps the promo; SET_PROMO changes only the promo; any other action returns the state |
| `Cart.RemoveAbsent` | src/components/battery/cart.js:36-38 | removing an absent id is a no-op |
| `Cart.UpdateThenRemove` | src/components/battery/cart.js:25-38 | removing an item just updated leaves what removing it would have |
| `Cart.UpdateIdempotent` | src/components/battery/cart.js:25-35 | applying the same update twice equals applying it once |
| `Cart.FindProduct` | src/components/battery/cart.js:98 | the first catalog product with that id, or none exactly when no product has it |
| `Cart.LineAmount` | src/components/battery/cart.js:98-100 | what one line adds to the subtotal; `Cart.LineAmountMeaning` and `Cart.AbsentLineAmount` state it |
| `Cart.WrapAmount` | src/components/battery/cart.js:98-101 | what one line adds for gift wrap; `Cart.LineAmountMeaning` and `Cart.AbsentLineAmount` state it |
| `Cart.LineAmountMeaning` | src/components/battery/cart.js:98-101 | a line whose id the first catalog product k has adds k's price times the quantity, and 3 per unit more when wrapped |
| `Cart.AbsentLineAmount` | src/components/battery/cart.js:98-99 | a line whose id no catalog product has adds nothing to either total |
| `Cart.LineAmounts` | src/components/battery/cart.js:100 | one amount per cart line |
| `Cart.WrapAmounts` | src/components/battery/cart.js:101 | one gift-wrap amount per cart line |
| `Cart.SumRemove` | src/components/battery/cart.js:97-103 | the total over the lines is one line's amount plus the total over the rest, in any order |
| `Cart.SumSameTerms` | src/components/battery/cart.js:97-103 | totals over the same lines with the same amounts are equal |
| `Cart.UnknownProductSkipped` | src/components/battery/cart.js:98-99 | a line whose id is not in the catalog adds nothing to the subtotal or the gift wrap |
| `Cart.Finish` | src/components/battery/cart.js:104-113 | shipping is 0 from a subtotal of 100, else 5; tax is 8%; SAVE10 takes 10% of the subtotal, FREESHIP the shipping, anything else nothing; total = subtotal + tax + gift wrap + shipping - discount |
| `Cart.FreeShippingTotal` | src/components/battery/cart.js:104-112 | with FREESHIP the total is the subtotal with tax plus gift wrap, whatever the shipping |
| `Cart.PromoNeverRaisesTotal` | src/components/battery/cart.js:106-112 | no promo code makes the total larger than no promo; the total without a promo is at least subtotal with tax plus gift wrap |
| `Cart.CartPage.constructor` | src/components/battery/cart.js:50-55 | an empty cart, no promo, an empty promo input and no error |
| `Cart.CartPage.Dispatch` | src/components/battery/cart.js:50 | the cart state becomes the reducer's result; the promo input and error are untouched |
| `Cart.CartPage.HandleQuantityChange` | src/components/battery/cart.js:119-131 | the new quantity is the old one (0 when missing) plus the change; below 1 the item is removed, otherwise only its quantity is set; nothing else changes |
| `Cart.CartPage.HandleGiftWrapToggle` | src/components/battery/cart.js:134-140 | only the item's gift-wrap flag flips |
| `Cart.CartPage.HandleNotesChange` | src/components/battery/cart.js:143-149 | only the item's notes are set, creating the item when absent |
| `Cart.CartPage.Remove` | src/components/battery/cart.js:152-154 | only that item is dropped |
| `Cart.CartPage.Clear` | src/components/battery/cart.js:157-159 | the items are emptied; the promo stays |
| `Cart.CartPage.ApplyPromo` | src/components/battery/cart.js:162-171 | an input whose upper-cased form is SAVE10 or FREESHIP is stored upper-cased, clearing the input and the error; any other input sets `Invalid promo code` and leaves promo and input unchanged; the items never change |
| `Cart.CartPage.CalculateTotals` | src/components/battery/cart.js:94-114 | the loop's subtotal is the sum of price × quantity over the lines whose product is known, the gift wrap 3 per unit on wrapped lines, and the rest follows the totals rule |
| `ProductFilters.ToNumber` | src/components/battery/products1.js:76-77 | `Number(text)` is a number exactly when the text is an integer numeral, and then its value |
| `ProductFilters.PriceTextRoundTrip` | src/components/battery/products1.js:76-77 | a price written into the address reads back as the same price |
| `ProductFilters.TextOr` | src/components/battery/products1.js:78-80 | the parameter when present and non-empty, else the fallback |
| `ProductFilters.PriceOr` | src/components/battery/products1.js:76-77 | the number of the parameter when present and non-empty, else the default bound |
| `ProductFilters.ParseQuery` | src/components/battery/products1.js:74-86 | an absent parameter gives its default (2000, 10000, All Brands, All Types, All Capacities); the text fields are never empty |
| `ProductFilters.EmptyQueryIsDefault` | src/components/battery/products1.js:75-80 | the bare address parses to the default filter state |
| `ProductFilters.GetPairWhen` | src/components/battery/products1.js:152-157 | a conditional `params.set` of one name leaves every other name's value alone |
| `ProductFilters.UrlParamsDescribe` | src/components/battery/products1.js:152-157 | the built parameters hold each field exactly when it differs from its default, with its value, and nothing else |
| `ProductFilters.SetWhen` | src/components/battery/products1.js:153-157 | a guarded `params.set` on a fresh name appends it when the guard holds and changes nothing otherwise |
| `ProductFilters.BuildUrl` | src/components/battery/products1.js:151-158 | the address is `/Product?` and the serialised parameters that omit defaults |
| `ProductFilters.PriceFieldRoundTrip` | src/components/battery/products1.js:76-77 | a price field written only when off its default reads back as itself |
| `ProductFilters.TextFieldRoundTrip` | src/components/battery/products1.js:78-80 | a non-empty text field written only when off its default reads back as itself |
| `ProductFilters.ParseBuildRoundTrip` | src/components/battery/products1.js:75-157 | parsing the built address restores the filter state, for non-empty text fields |
| `ProductFilters.EmptyBrandIsLost` | src/components/battery/products1.js:78 | an empty brand is written to the address but reads back as All Brands |
| `ProductFilters.Reset` | src/components/battery/products1.js:172-179 | reset writes no parameter and is what the bare address parses to: every default |
| `ProductFilters.RequestParamsFor` | src/components/battery/products1.js:116-125 | the request carries both bounds when a range is given and each facet only when non-empty and not its sentinel |
| `ProductFilters.RequestsAreSentinelFree` | src/components/battery/products1.js:123-125 | no request carries All Brands, All Types, All Capacities or an empty facet |
| `ProductFilters.PageStateSendsBounds` | src/components/battery/products1.js:119-122 | a request from the page state always sends both price bounds |
| `ProductFilters.ResetRequest` | src/components/battery/products1.js:116-125 | after a reset the request sends only the default bounds |
| `CheckboxFilters.RemoveAll` | src/components/battery/Filters.js:43 | filtering out a value never lengthens the list |
| `CheckboxFilters.RemoveAllMeaning` | src/components/battery/Filters.js:43 | every occurrence of the value goes, every other value keeps its count and the order is kept |
| `CheckboxFilters.RemoveAllCount` | src/components/battery/Filters.js:43 | the count of each value after the filter: 0 for the removed one, the old count for the others |
| `CheckboxFilters.RemoveAllSubsequence` | src/components/battery/Filters.js:43 | the filtered list is a subsequence of the selection |
| `CheckboxFilters.RemoveAbsent` | src/components/battery/Filters.js:42-43 | filtering out an absent value changes nothing |
| `CheckboxFilters.Toggle` | src/components/battery/Filters.js:41-46 | an absent value is appended at the end; a present one is no longer present |
| `CheckboxFilters.ToggleFlips` | src/components/battery/Filters.js:41-46 | the toggle flips membership of that value and of no other |
| `CheckboxFilters.UntoggleKeepsOthers` | src/components/battery/Filters.js:42-43 | untoggling keeps the other values, their counts and their order |
| `CheckboxFilters.ToggleTwice` | src/components/battery/Filters.js:41-46 | toggling an absent value twice restores the selection |
| `CheckboxFilters.ToggleIn` | src/components/battery/Filters.js:122-164 | a checkbox toggles its value in its own group only; the price range is untouched |
| `CheckboxFilters.Apply` | src/components/battery/Filters.js:49-58 | the price range and the three selections are passed on unchanged |
| `CheckboxFilters.Reset` | src/components/battery/Filters.js:61-68 | the range becomes [2000, 10000] and the three selections become empty |
| `CheckboxFilters.ToggleAfterReset` | src/components/battery/Filters.js:61-65 | the first checkbox ticked after a reset is the only value of its group |
| `BatteryFilter.Unless` | src/components/battery/filter.js:27-29 | null exactly for the sentinel, otherwise the value itself |
| `BatteryFilter.Apply` | src/components/battery/filter.js:24-31 | the price range passes through; each field is null exactly when it holds its sentinel, otherwise its value |
| `BatteryFilter.RealOptionsPassThrough` | src/components/battery/filter.js:24-31 | choosing real options emits them all unchanged |
| `BatteryFilter.Reset` | src/components/battery/filter.js:34-45 | the state returns to [2000, 5000] and the sentinels, and nulls are emitted for brand, type and capacity |
| `BatteryFilter.ApplyAfterReset` | src/components/battery/filter.js:24-45 | applying right after a reset emits what the reset emitted |
| `Header.Matching` | src/components/battery/header.js:43-46 | a product is kept exactly when its name, brand or description contains the query ignoring case; a missing brand or description never matches |
| `Header.MatchingCount` | src/components/battery/header.js:43-46 | each matching entry is kept as many times as the response holds it; no other entry is kept |
| `Header.MatchingSubsequence` | src/components/battery/header.js:43-46 | the matches keep the server's order |
| `Header.Suggestions` | src/components/battery/header.js:35-58 | an empty query clears them; otherwise they are the first five matches, or all matches when there are fewer: at most 5, each matching, a subsequence of the response |
| `Header.SuggestionsComplete` | src/components/battery/header.js:43-47 | fewer than 5 suggestions means every match is among them: they are the first matches |
| `Header.SearchLink` | src/components/battery/header.js:67 | `/search?query=` and the encoded text, which never contains `&` or `#` |
| `Header.HandleSearch` | src/components/battery/header.js:64-71 | Enter with a non-empty query navigates to its search link and clears the query and the suggestions; any other key changes nothing |
| `Header.HandleSuggestionClick` | src/components/battery/header.js:73-77 | a click puts the suggestion's name in the box, clears the suggestions and navigates to its search link |
| `DriveImage.GroupEnd` | src/components/battery/hero1.js:23 | the lazy group `(.+?)` ends at the first place where `/view` follows |
| `DriveImage.FirstMatch` | src/components/battery/hero1.js:23 | the leftmost match of `/file/d/(.+?)/view`, with its shortest group |
| `DriveImage.DriveId` | src/components/battery/hero1.js:23-24 | the captured group exactly when the expression matches; it is never empty |
| `DriveImage.ImageUrl` | src/components/battery/hero1.js:21-28 | a missing, non-text or empty image is the placeholder; a match becomes the direct `uc?export=view&id=` link; any other Drive address is the placeholder; everything else is kept |
| `DriveImage.OtherAddressKept` | src/components/battery/hero1.js:27 | an address off Drive without `/file/d/` reaches the page unchanged |
| `DriveImage.ShareLinkBecomesDirect` | src/components/battery/hero1.js:23-25 | a sharing link `.../file/d/<id>/view...` becomes the direct link for that id |
| `CategoryHero.Capitalize` | src/components/battery/hero1.js:49 | only the first character is upper-cased; the rest is left as is |
| `CategoryHero.CapitalizeAll` | src/components/battery/hero1.js:49 | every word is capitalised, in order |
| `CategoryHero.SelectedSlug` | src/components/battery/hero1.js:43-44 | the `category` parameter, or empty when absent |
| `CategoryHero.Formatted` | src/components/battery/hero1.js:46-52 | the as-written decode: empty for an empty slug, otherwise the capitalised words trimmed; `CategoryHero.FormattedHasNoHyphen`, `CategoryHero.FormattedTitleCased`, `CategoryHero.RoundTripExactly` and `CategoryHero.UpsBatteriesDecodedAsUps` state what it does |
| `CategoryHero.CollapseSpaces` | src/components/battery/hero1.js:150 | `replace(/\s+/g, '-')`; `CategoryHero.CollapseSpacesMeaning` and `CategoryHero.CollapseJoin` state it |
| `CategoryHero.Slug` | src/components/battery/hero1.js:150 | a button's slug, the lower-cased name with white space runs as hyphens; `CategoryHero.SlugShape`, `CategoryHero.SlugOfTitleWords` and `CategoryHero.SlugNonEmpty` state it |
| `CategoryHero.CollapseSpacesMeaning` | src/components/battery/hero1.js:150 | `replace(/\s+/g, '-')` leaves no white space and no longer text |
| `CategoryHero.CollapseJoin` | src/components/battery/hero1.js:150 | words joined by single spaces come out joined by single hyphens |
| `CategoryHero.CapitalizeLower` | src/components/battery/hero1.js:46-52 | a title-cased word survives lower-casing and capitalising |
| `CategoryHero.SlugOfTitleWords` | src/components/battery/hero1.js:150 | the slug of title-cased words is their lower-cased forms joined by hyphens |
| `CategoryHero.FormattedOfLoweredWords` | src/components/battery/hero1.js:46-52 | decoding lower-cased words joined by hyphens gives back the title-cased words joined by spaces |
| `CategoryHero.TitleWordsRoundTrip` | src/components/battery/hero1.js:46-52 | title-cased words joined by single spaces survive the slug round trip |
| `CategoryHero.TitleCasedRoundTrip` | src/components/battery/hero1.js:46-52 | every title-cased category survives the slug round trip |
| `CategoryHero.FormattedHasNoHyphen` | src/components/battery/hero1.js:46-52 | a decoded category never contains a hyphen |
| `CategoryHero.HyphenNeverRoundTrips` | src/components/battery/hero1.js:46-52 | a category with a hyphen never survives the round trip |
| `CategoryHero.FormattedTitleCased` | src/components/battery/hero1.js:46-52 | the decoding of any slug-shaped text is title-cased |
| `CategoryHero.SlugShape` | src/components/battery/hero1.js:150 | a slug has no white space, no capital and no doubled hyphen |
| `CategoryHero.RoundTripIsTitleCased` | src/components/battery/hero1.js:46-52 | a category that survives the round trip is title-cased |
| `CategoryHero.RoundTripExactly` | src/components/battery/hero1.js:46-52 | a category comes back from its slug exactly when it is title-cased: each word a capital then small letters, single-spaced |
| `CategoryHero.UpsBatteriesDecodedAsUps` | src/components/battery/hero1.js:45-52 | "UPS Batteries" and "Ups Batteries" share a slug, which decodes to "Ups Batteries" |
| `CategoryHero.Slugs` | src/components/battery/hero1.js:150 | each category's button slug, in order |
| `CategoryHero.Resolve` | src/components/battery/hero1.js:45-52 | the first category whose slug is the selected one; the capitalised slug when none has it |
| `CategoryHero.ResolveRestores` | src/components/battery/hero1.js:45-52 | with distinct slugs every category comes back from its slug |
| `CategoryHero.FallbackSlugsDistinct` | src/components/battery/hero1.js:64 | the fallback categories have distinct slugs |
| `CategoryHero.KeepCategory` | src/components/battery/hero1.js:87-93 | every kept product's trimmed category equals the selected one |
| `CategoryHero.InCategory` | src/components/battery/hero1.js:89-91 | a product is in the category when it has one and its trimmed form is the selected text; `CategoryHero.KeepCategory` and `CategoryHero.KeepCategoryComplete` keep exactly those |
| `CategoryHero.KeepCategoryComplete` | src/components/battery/hero1.js:87-93 | every product whose trimmed category equals the selected one is kept |
| `CategoryHero.KeepCategoryCount` | src/components/battery/hero1.js:87-93 | each product of the category is kept as many times as the response holds it; no other product is kept |
| `CategoryHero.KeepCategorySubsequence` | src/components/battery/hero1.js:87-93 | the kept products are in server order |
| `CategoryHero.ClientFilter` | src/components/battery/hero1.js:87-93 | with no category all products are kept; with one, exactly those whose trimmed category equals it |
| `CategoryHero.ClientFilterCount` | src/components/battery/hero1.js:87-93 | with a category, each of its products is shown as many times as the response holds it, and no other product is shown |
| `CategoryHero.ClientFilterSubsequence` | src/components/battery/hero1.js:87-93 | the client filter keeps the fetched order |
| `CategoryHero.RequestParams` | src/components/battery/hero1.js:80 | the request has no parameter exactly when no category is selected; otherwise `category` is the decoded one |
| `CategoryHero.Buttons` | src/components/battery/hero1.js:145-146 | the buttons are the categories without any `All Types`, with counts and order kept |
| `CategoryHero.CardTitle` | src/components/battery/hero1.js:195-197 | a name over 30 characters is cut to 30 and `...`; a missing or empty one is `Unnamed Product`; at most 33 characters |
| `CategoryHero.ImageUrlNonEmpty` | src/components/battery/hero1.js:187 | the image address is never empty, so the placeholder fallback at that line never applies |
| `CategoryHero.Page` | src/components/battery/hero1.js:43-197 | the page's category, request, buttons with their highlight, the first 30 filtered cards with their titles and images, and the empty-list message |
| `CategoryHero.SlugNonEmpty` | src/components/battery/hero1.js:150 | a non-empty category has a non-empty slug |
| `CategoryHero.ClickHighlights` | src/components/battery/hero1.js:150-152 | clicking a category's button selects that category, so its button highlights |
| `SearchResults.CriteriaOf` | src/components/battery/SearchResults.js:37-40 | each criterion is its parameter, or empty when absent |
| `SearchResults.RequestPairs` | src/components/battery/SearchResults.js:47-50 | the request parameters; `SearchResults.RequestPairsMeaning` states which are sent |
| `SearchResults.RequestPairsMeaning` | src/components/battery/SearchResults.js:47-50 | the request holds `search`, `category` and `brand` only for non-empty criteria, and nothing else |
| `SearchResults.RequestParams` | src/components/battery/SearchResults.js:47-50 | the conditional assignments build those parameters |
| `SearchResults.QueryTextNotRead` | backend/server.js:22 | no parameter the list endpoint reads depends on the query text |
| `SearchResults.HandleFilter` | src/components/battery/SearchResults.js:69-79 | a fresh parameter list with at most the control's key, then `/search?` and its serialisation |
| `SearchResults.FilterKeepsOneKey` | src/components/battery/SearchResults.js:69-78 | a known control gives exactly one key (`category`, `brand`, or `query` for search) with its value; every other criterion is dropped |
| `SearchResults.UnknownFilterClears` | src/components/battery/SearchResults.js:70-78 | an unknown control leads to the bare `/search?` |
| `SearchResults.FilterThenRead` | src/components/battery/SearchResults.js:69-78 | the address a control leads to reads back as its own criterion and no other |
| `SearchResults.FirstNonEmpty` | src/components/battery/SearchResults.js:133 | the first non-empty text of the list, or empty when all are |
| `SearchResults.Subject` | src/components/battery/SearchResults.js:117 | the first non-empty of the query text, the category, the brand and the fallback; `SearchResults.SubjectChoice` states which one it is |
| `SearchResults.SubjectChoice` | src/components/battery/SearchResults.js:117 | the query text when given, else the category, else the brand, else the fallback |
| `SearchResults.Heading` | src/components/battery/SearchResults.js:131-134 | the heading text; `SearchResults.HeadingChoice` states it |
| `SearchResults.HeadingChoice` | src/components/battery/SearchResults.js:133 | the heading names the query, else the category, else the brand, else All Products |
| `SearchResults.NoResultsMessage` | src/components/battery/SearchResults.js:117 | the empty-result text; `SearchResults.NoResultsChoice` states it |
| `SearchResults.NoResultsChoice` | src/components/battery/SearchResults.js:117 | the empty-result message names the query, else the category, else the brand, else "your search" |
| `SearchResults.CardImages` | src/components/battery/SearchResults.js:179-180 | each card shows its product's rewritten image address |
| `ProductPage.Entries` | src/components/battery/ProductDescriptionPage.jsx:130 | `Object.entries` of an object is its entries; of an array or a string its elements under their indices; of anything else nothing |
| `ProductPage.FlattenSpecifications` | src/components/battery/ProductDescriptionPage.jsx:125-139 | the nested loops push exactly the flattened rows |
| `ProductPage.AddSpec` | src/components/battery/ProductDescriptionPage.jsx:128-136 | the inner loop pushes exactly the entry's contribution after the rows already there |
| `ProductPage.Contribution` | src/components/battery/ProductDescriptionPage.jsx:128-136 | the rows one entry pushes; `ProductPage.ContributionMeaning` states them |
| `ProductPage.Rows` | src/components/battery/ProductDescriptionPage.jsx:137 | each entry's contribution in turn; `ProductPage.RowsAppend`, `ProductPage.RowsAround`, `ProductPage.RowCount` and `ProductPage.EntryRows` state its structure |
| `ProductPage.Flattened` | src/components/battery/ProductDescriptionPage.jsx:125-139 | what `flattenSpecifications` returns; `ProductPage.FlattenSpecifications`, `ProductPage.EmptyTables`, `ProductPage.FlatFields` and `ProductPage.OneLevelOnly` state it |
| `ProductPage.EmptyTables` | src/components/battery/ProductDescriptionPage.jsx:126 | falsy specifications flatten to no rows |
| `ProductPage.ContributionMeaning` | src/components/battery/ProductDescriptionPage.jsx:128-136 | a scalar or null value gives one row with its key; an object value gives one row per sub-entry, captioned "key subKey" |
| `ProductPage.RowsAppend` | src/components/battery/ProductDescriptionPage.jsx:137 | the rows of concatenated entries are the rows of each part in order |
| `ProductPage.RowsAround` | src/components/battery/ProductDescriptionPage.jsx:137 | an entry's rows sit between the rows of the entries before it and after it |
| `ProductPage.RowCount` | src/components/battery/ProductDescriptionPage.jsx:137 | the row count is the sum of the entries' contributions |
| `ProductPage.EntryRows` | src/components/battery/ProductDescriptionPage.jsx:137 | entry k's rows start after the rows of the entries before it |
| `ProductPage.FlatFields` | src/components/battery/ProductDescriptionPage.jsx:133-135 | with only scalar values there is one row per entry, in order |
| `ProductPage.StringSpecs` | src/components/battery/ProductDescriptionPage.jsx:126-137 | a non-empty string flattens to one row per character, captioned by its index |
| `ProductPage.OneLevelOnly` | src/components/battery/ProductDescriptionPage.jsx:129-132 | a nested object is flattened one level only; the deeper object stays a value |
| `ProductPage.NextQuantity` | src/components/battery/ProductDescriptionPage.jsx:116-118 | the new quantity is prev + change, raised to 1 when lower |
| `ProductPage.QuantityAfter` | src/components/battery/ProductDescriptionPage.jsx:116-118 | the quantity after a run of presses; `ProductPage.QuantityBounds`, `ProductPage.NoClampUpward` and `ProductPage.StepperButtons` state it |
| `ProductPage.QuantityBounds` | src/components/battery/ProductDescriptionPage.jsx:116-118 | any run of changes keeps the quantity at least 1 and at least the start plus their sum |
| `ProductPage.NoClampUpward` | src/components/battery/ProductDescriptionPage.jsx:117 | with only non-negative changes the quantity is the start plus their sum |
| `ProductPage.StepperButtons` | src/components/battery/ProductDescriptionPage.jsx:116-118 | minus at 1 stays at 1; plus then minus restores any quantity; minus then plus restores any quantity above 1 |
| `ProductPage.ToggleFaq` | src/components/battery/ProductDescriptionPage.jsx:120-122 | toggling the open question closes it; toggling any other opens that one |
| `ProductPage.ToggleShows` | src/components/battery/ProductDescriptionPage.jsx:120-122 | after a toggle the question is shown exactly when it was not, and no other question is shown |
| `ProductPage.ToggleTwice` | src/components/battery/ProductDescriptionPage.jsx:120-122 | toggling a question twice leaves it shown exactly when it was shown before |
| `ProductPage.Recommended` | src/components/battery/ProductDescriptionPage.jsx:77-86 | on success at most 4 recommendations, the response's prefix; on failure the list is unchanged |
| `Text.Lower` | src/components/battery/header.js:44 | `toLowerCase` maps every character and keeps the length |
| `Text.Upper` | src/components/battery/cart.js:164 | `toUpperCase` maps every character and keeps the length |
| `Text.UpperIdempotent` | src/components/battery/cart.js:164-165 | upper-casing twice equals upper-casing once, so a stored promo is its own upper-cased form |
| `Text.Trim` | src/components/battery/hero1.js:51 | `trim` leaves a slice of the text with white space only cut from both ends, and no white space at either end |
| `Text.TrimNoSpace` | src/components/battery/hero1.js:51 | text without white space is trimmed to itself |
| `Text.Split` | src/components/battery/hero1.js:48 | `split` gives one more part than there are separators, none containing the separator |
| `Text.SplitJoin` | src/components/battery/hero1.js:48-50 | splitting parts joined by a separator they lack gives back the parts |
| `Text.JoinSplit` | src/components/battery/hero1.js:48-50 | joining the parts of a split by its separator gives back the text |
| `Text.ParseIntToString` | src/components/battery/products1.js:76-77 | an integer's decimal text reads back as that integer |
| `Url.GetMeaning` | src/components/battery/products1.js:75-80 | `URLSearchParams.get` is the value of the first pair with that name, and null exactly when there is none |
| `Url.Set` | src/components/battery/products1.js:152-157 | `params.set` makes the name's value the given one and leaves other names alone; a new name is appended |
| `Url.EncodeUriComponent` | src/components/battery/header.js:67 | the encoded text is unreserved characters and percent escapes only |
| `Url.FormEncode` | src/components/battery/SearchResults.js:78 | the form-encoded text is safe characters, `+` and percent escapes only |
| `Url.EncodedHasNoSeparators` | src/components/battery/header.js:67 | an encoded value never contains `&`, `=` or `#` |
| `Seqs.Distinct` | backend/server.js:239 | `[...new Set(values)]` holds each value once, and exactly the values present |
| `Seqs.DistinctFirstOccurrenceOrder` | backend/server.js:239 | the de-duplicated values keep first-occurrence order |
| `Seqs.DistinctLength` | backend/server.js:239 | the de-duplicated list is as long as the set of values |

## Left out

- HTTP and server plumbing is not part of this model: routing, CORS, static files, the listener, and loading `battery.json` with its `process.exit`. The handlers take the catalog as an input sequence.
- The SEO metadata objects are string templates over the request's protocol and host that nothing downstream reads.
- Client effects are not modelled: axios calls, `localStorage`, the 300 ms debounce, `window.location`, `navigate`, `console`, React hooks and re-rendering. Handlers are functions or class methods from old state to new state. Fetched responses are inputs.
- Markup, styling, animation and routing components are not modelled. This includes star ratings, the quick-view modal, the mobile layout flag and the cart's progress bar.
- `createdAt` is an integer timestamp; date parsing is not modelled.
- Money in the cart is `real`. IEEE rounding, `toFixed` and the product page's price × quantity display are not modelled.
- Address text is taken as already decoded name/value pairs; percent-decoding is not modelled.
- Catalog.SearchFilter: the search term is matched as a literal case-insensitive substring. `new RegExp(q, 'i')` metacharacters and invalid patterns are not modelled.
- Catalog.GetAllBatteries: requires a `limit` of at least 1. In the source a limit of 0 gives an empty page and `pages` of `Infinity` (or `NaN` with no matches), which serialises as null. A negative limit gives a window that `slice` reads from the end. A non-numeric one makes `(page - 1) * limit`, `skip + Number(limit)` and `total / limit` all `NaN`, so the page is empty and `pages` and `limit` serialise as null. `page` is any integer, and a page of 0 or below follows `slice`'s negative-index rule.
- Catalog.SearchBatteries: requires a `limit` of at least 1, for the same reason.
- Catalog.GetAllBatteries: like `Catalog.SearchBatteries`, a failed sort answers `ServerError("Server error")`; the engine's own `error.message` text, which the source adds to the 500 body, is not modelled.
- Catalog.LimitOf: requires a `limit` of at least 1, for the same reason.
- Catalog.Query: price bounds are integers. `Number()` of a non-numeric bound (NaN, which rejects every product) is not modelled.
- ProductFilters.ToNumber: only decimal integer numerals are numbers. Decimals, exponents, surrounding white space and hexadecimal, which `Number()` accepts, read as not-a-number.
- Text.Lower: case mapping covers ASCII letters only; other scripts are left unchanged.
- Text.Upper: case mapping covers ASCII letters only, so the promo comparison is exact only for ASCII input.
- Cart.LineAmounts: cart keys are the integers that `parseInt(productId)` yields. Non-canonical keys are not modelled: two keys such as "1" and "01" both count as product 1 in the source, and a non-numeric key matches no product.
- CategoryHero.CardTitle: the length test and the cut at 30 count characters (code points). `length` and `slice` count UTF-16 code units, so in the source a name with characters outside the Basic Multilingual Plane, such as emoji, is cut earlier and can be split inside a surrogate pair.
- Cart.CartPage.CalculateTotals: requires every cart line to carry a quantity. A line without one makes the source's total NaN.
- Cart.CartPage.HandleQuantityChange: requires the item to be in the cart, where the source would throw on a missing one.
- Cart.CartPage.HandleGiftWrapToggle: requires the item to be in the cart, where the source would throw on a missing one.
- ProductPage.Entries: entries are taken in stored order. JavaScript's ordering of integer-like keys first and the merging of duplicate keys are not modelled, and JSON numbers are integers. A string's entries are one per character (code point); `Object.entries` gives one per UTF-16 code unit, so a character outside the Basic Multilingual Plane gives two entries, each half a surrogate pair, in the source.
- ProductPage.StringSpecs: one row per character (code point), where the source gives one per UTF-16 code unit, as for `ProductPage.Entries`.
- CategoryHero.Page: decodes the selected slug with the corrected `Resolve`. The code as written uses `Formatted`, whose behaviour is proved separately (see Findings).
- The category list fetch is not modelled beyond its fallback list, `CategoryHero.FallbackCategories`.
- The search box's text input and its `onChange` are not modelled; `Header.SearchBox` starts from the query typed.

## Findings

| source | as written | input that shows it | evidently intended | confidence | as-written member | corrected member |
|---|---|---|---|---|---|---|
| src/components/battery/hero1.js:45-52 | the slug is decoded by capitalising the first letter of each '-'-separated word | `?category=ups-batteries`, the slug of the fallback category "UPS Batteries", decodes to "Ups Batteries"; it matches no category, no product and no button | the comment at line 45 says `ups-batteries` becomes "UPS Batteries": a slug should decode to the category it came from | high; not executed | `CategoryHero.UpsBatteriesDecodedAsUps` | `CategoryHero.ResolveRestores` |
| src/components/battery/hero1.js:46-52 | the same decoding turns every hyphen into a space | `?category=e-rickshaw-batteries`, the slug of "E-Rickshaw Batteries", decodes to "E Rickshaw Batteries" | the button for "E-Rickshaw Batteries" should select and highlight that category | high; not executed | `CategoryHero.HyphenNeverRoundTrips` | `CategoryHero.ClickHighlights` |
