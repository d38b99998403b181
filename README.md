# Pokémon storefront: cart store and catalog queries

A Dafny model of the logic in `js/script.js` of a browser storefront. The page
loads a catalog of Pokémon as products, filters and searches that list, and
keeps a shopping cart in local storage. The model covers:

- **Catalog** (`catalog.dfy`). The product record and the price rule of the
  loader: `floor((base_experience || 100) / 10) * 10`. It also covers the
  type filter, the sorted list of distinct types for the dropdown, and the
  search by name substring or exact id string.
- **Cart** (`cart.dfy`). The cart lines and the two aggregates: item count
  (sum of quantities) and total (sum of price × quantity). The class
  `CartStore` holds the module-level `cart` array as a `seq` field `lines`.
  Its field `stored` stands for the value under the local-storage key. Its
  methods model add (merge by id), remove, clear, checkout and save. The
  user's answer to each confirmation dialog is a `bool` parameter.
- **Built-ins** (`lists.dfy`, `text.dfy`). The JavaScript built-ins the code
  leans on, written as recursive functions with their properties proved:
  `filter`, `find`, `[...new Set(xs)]`, `toLowerCase`, `trim`, `includes`,
  `toString` of an integer and the default `sort` order. `FindIndex` gives the
  position of the line that `cart.find` returns, so the in-place
  `quantity += 1` at js/script.js:159 can be written as a sequence update.
  `wrappers.dfy` holds `Option`, which stands for `undefined`/`null`.

The pure pieces are functions with lemmas. The cart, which the code updates in
place, is a class whose methods state the new `lines` and `stored` in terms of
the old ones. Pure functions specify those updates (`Added`, `Removed`,
`AddStep`, `Step`), and the lemmas about the cart are proved against them.

In these places the code's behaviour is easy to misread:

- Clearing an empty cart shows a message and returns. It does not write to
  storage.
- Checkout on an empty cart is guarded: nothing is summarised or saved.
- On a non-empty cart, checkout empties the cart and saves after the summary
  dialog, whatever the dialog returns. No confirmation flag is checked.
- The id match in the search compares strings. A query such as `"025"` never
  matches id 25 by id.

## Model

| member | source | states |
|---|---|---|
| Catalog.DerivePrice | js/script.js:48-49 | the price is a multiple of 10 with `base - 10 < price <= base` for a present non-zero base, and exactly 100 when `base_experience` is absent or 0 |
| Catalog.ToProduct | js/script.js:51-60 | a product keeps the record's id, name, sprite, type names, height and weight; its abilities are the ability names joined by `", "`; its price is `DerivePrice` of `base_experience`, so 100 when that is absent or 0 |
| Catalog.Join | js/script.js:59 | joining no names gives the empty string; joining one name gives that name; joining several starts with the first name followed by the separator |
| Catalog.JoinAppend | js/script.js:59 | joining a list with one more name appends the separator and that name to the join of the list |
| Catalog.FilterProducts | js/script.js:319-322 | the category `'all'` gives the catalog; the result is no longer than the catalog, and each product in it is in the catalog and, for any other category, carries that type |
| Catalog.HasType | js/script.js:322 | a product has the category iff the category is one of its type names, at some index of `types` |
| Catalog.FilterAllIsIdentity | js/script.js:320-321 | the category `'all'` returns the catalog unchanged |
| Catalog.FilterProductsSpec | js/script.js:322 | any other category returns an in-order subsequence of the catalog; a product is in it iff it is in the catalog and its types include the category; each such product appears as often as in the catalog and no other does |
| Catalog.AllTypes | js/script.js:346 | the flat-mapped list starts with the first product's types, and each tag in it is carried by some product |
| Catalog.AllTypesMembers | js/script.js:346 | a tag is in the flat-mapped type list iff some product's types include it |
| Catalog.TypeList | js/script.js:346-349 | the dropdown list holds the de-duplicated tags, each exactly once, in some order |
| Catalog.TypeListSpec | js/script.js:346-349 | the dropdown list is strictly ascending, has no duplicates, and holds exactly the tags that some product carries |
| Catalog.TypeListIsTheOnlyOrder | js/script.js:349 | any strictly ascending list of exactly those tags equals the modelled list, so the choice of sort algorithm does not matter |
| Catalog.SearchTerm | js/script.js:371 | the term is one slice of the lowercased query with only whitespace cut around it, has no whitespace at either end, and is empty exactly when the trimmed query is |
| Catalog.NameMatches | js/script.js:374 | a name matches only a term no longer than itself, and every name matches the empty term |
| Catalog.IdMatches | js/script.js:377 | an id matches only a non-empty numeral: an optional minus sign followed by digits |
| Catalog.SearchMatches | js/script.js:379 | the name test or the id test: every product matches the empty term, and a term longer than the product's name can match only by id |
| Catalog.Search | js/script.js:364-380 | an all-whitespace query returns the catalog; any result is no longer than the catalog and holds only catalog products |
| Catalog.SearchBlank | js/script.js:365-369 | an empty or whitespace-only query returns the whole catalog |
| Catalog.SearchSpec | js/script.js:371-380 | for a non-blank query the term is non-empty; the result is an in-order subsequence; a product is in it iff it is in the catalog and its lowercased name contains the term or its id prints as the term; multiplicities are those of the catalog |
| Catalog.SearchSubsequence | js/script.js:364-380 | every search result is an in-order subsequence of the catalog |
| Catalog.SearchFindsId | js/script.js:377 | searching for the decimal string of a catalog product's id returns that product, whatever its name |
| Catalog.SearchLeadingZero | js/script.js:377 | for a term with a leading zero such as "025", a product is returned iff its name contains the term, never by id |
| Lists.Filter | js/script.js:215 | `filter` returns no more elements than its input, and only elements of the input that pass the test |
| Lists.FilterMembers | js/script.js:215 | a value is kept iff it occurs in the input and passes the test |
| Lists.FilterCount | js/script.js:215 | a kept value occurs as often as in the input; a dropped value does not occur |
| Lists.FilterSubsequence | js/script.js:215 | the result of `filter` is an in-order subsequence of the input |
| Lists.FilterKeepsAll | js/script.js:215 | a filter that every element passes returns the input unchanged |
| Lists.FindIndex | js/script.js:156 | the index found holds an element that passes the test, and no earlier element passes it; no index is found only when no element passes |
| Lists.Find | js/script.js:133 | `find` returns the first element of the input that passes the test (one at some index before which no element passes), and returns nothing iff no element passes |
| Lists.Distinct | js/script.js:346 | `[...new Set(s)]` has no duplicates and holds exactly the values of `s` |
| Text.IsSpace | js/script.js:365-371 | the eight characters `trim` removes, a subset of JavaScript's whitespace: space, tab and newline are among them, and no letter, digit or minus sign is |
| Text.LowerChar | js/script.js:371 | an ASCII capital letter maps to the lowercase letter at the same alphabet position, and every other character is unchanged |
| Text.Lower | js/script.js:371 | `toLowerCase` keeps the length and maps each character by `LowerChar`: a capital letter becomes the lowercase letter at the same alphabet position, and every other character is unchanged |
| Text.Trim | js/script.js:365-371 | `trim` returns one slice of the input with only whitespace cut before and after it, leaves no whitespace at either end, and empties an all-whitespace string |
| Text.CutBothEnds | js/script.js:365 | cutting only leading whitespace and then only trailing whitespace leaves one slice of the input with only whitespace outside it |
| Text.TrimStart | js/script.js:365 | the result is a suffix of the input; everything cut off is whitespace; the result does not start with whitespace |
| Text.TrimEnd | js/script.js:365 | the result is a prefix of the input; everything cut off is whitespace; the result does not end with whitespace |
| Text.TrimBlank | js/script.js:365 | `trim` yields the empty string iff every character is whitespace |
| Text.TrimUnchanged | js/script.js:371 | a string with no whitespace at either end is unchanged by `trim` |
| Text.Contains | js/script.js:374 | every string includes the empty needle, and a string includes only needles no longer than itself |
| Text.LowerTrimBlank | js/script.js:365-371 | a query is blank after `toLowerCase().trim()` iff it is blank after `trim()`, so the blank check and the term agree |
| Text.ContainsAt | js/script.js:374 | `includes` holds iff the needle occurs as a contiguous slice at some position |
| Text.NatToString | js/script.js:377 | the decimal string of a natural number is non-empty and made of digits |
| Text.IntToString | js/script.js:377 | `toString` of an integer is non-empty, starts with `-` iff the integer is negative, and is otherwise made of digits |
| Text.ParseNatToString | js/script.js:377 | reading the printed digits recovers the number |
| Text.NatToStringNoLeadingZero | js/script.js:377 | a printed number starts with '0' only when it is zero |
| Text.IntToStringInjective | js/script.js:377 | two integers with the same `toString()` are equal, so at most one id matches a term |
| Text.LeadingZeroIsNoId | js/script.js:377 | no integer prints as a numeral of length above one that starts with '0' |
| Text.IntToStringIsTerm | js/script.js:371-377 | lowercasing and trimming an id's decimal string leaves it unchanged |
| Text.Less | js/script.js:349 | a string never sorts before itself |
| Text.LessTransitive | js/script.js:349 | the default sort order is transitive |
| Text.LessTotal | js/script.js:349 | two different strings are ordered one way or the other |
| Text.LessAsymmetric | js/script.js:349 | if one string sorts before another, the second does not sort before the first |
| Text.Insert | js/script.js:349 | one insertion step of the sort adds exactly the inserted string to the list's elements |
| Text.Sort | js/script.js:349 | the sorted list is a permutation of the input |
| Text.InsertSorted | js/script.js:349 | inserting a new string into a strictly ascending list keeps it strictly ascending and adds exactly that string |
| Text.SortSorted | js/script.js:349 | sorting distinct strings yields a strictly ascending permutation of them |
| Text.StrictlySortedUnique | js/script.js:349 | two strictly ascending lists with the same elements are equal |
| Cart.ItemCount | js/script.js:176 | when every quantity is at least one, the item count is at least the number of lines |
| Cart.LineTotal | js/script.js:207 | a line of quantity 1 costs its unit price, and a line with non-negative price and quantity costs a non-negative amount |
| Cart.TotalPrice | js/script.js:285 | with non-negative prices and quantities the cart total is non-negative |
| Cart.ItemCountAppend | js/script.js:176 | the item count of a concatenation is the sum of the counts |
| Cart.TotalPriceAppend | js/script.js:285 | the total of a concatenation is the sum of the totals |
| Cart.TotalsUpdate | js/script.js:159 | replacing one line changes count and total by the difference of the two lines |
| Cart.BumpTotal | js/script.js:159 | raising a line's quantity by one raises its cost by its unit price |
| Cart.FindProduct | js/script.js:133 | the product found is the first catalog product with that id; nothing is found iff no catalog product has the id |
| Cart.LineIndex | js/script.js:156 | the index found holds the first line with that id; no index is found iff no line has the id |
| Cart.Added | js/script.js:156-165 | after adding a product the cart has a line with its id, and at most one more line than before |
| Cart.AddStep | js/script.js:133-165 | an unconfirmed add, or an id absent from the catalog, leaves the cart unchanged; a confirmed add of a catalog id leaves a line with that id |
| Cart.AddedExisting | js/script.js:156-159 | adding an id already in the cart bumps the quantity of its first line by one; the length and every other line stay the same |
| Cart.AddedNew | js/script.js:160-165 | adding an id not in the cart appends exactly one line at the end, with the product's fields and quantity 1 |
| Cart.AddStepAdds | js/script.js:133-165 | a confirmed add of a catalog id adds the first catalog product with that id |
| Cart.AddedWellFormed | js/script.js:156-165 | adding keeps ids distinct and every quantity at least one |
| Cart.AddedTotals | js/script.js:156-165 | every add raises the item count by one; the total rises by the unit price of the line bumped or created |
| Cart.AddTwice | js/script.js:156-165 | adding the same new product twice gives one line with quantity 2, not two lines |
| Cart.Removed | js/script.js:215 | remove never lengthens the cart and leaves no line with the id |
| Cart.RemovedSpec | js/script.js:215 | remove keeps exactly the lines whose id differs, in their order and multiplicity; no line with the id is left |
| Cart.RemovedAbsent | js/script.js:215 | removing an id that is not in the cart changes nothing |
| Cart.RemovedWellFormed | js/script.js:215 | removing keeps ids distinct and every quantity at least one |
| Cart.Step | js/script.js:155-311 | one cart action adds at most one line; a remove leaves no line with its id; a checkout leaves the cart empty |
| Cart.Run | js/script.js:155-311 | a sequence of actions adds at most one line per action |
| Cart.RunWellFormed | js/script.js:155-311 | from a cart with distinct ids and positive quantities, any sequence of adds, removes, clears and checkouts keeps both properties |
| Cart.TotalsExample | js/script.js:285-286 | lines priced 50 × 2 and 30 × 1 give an item count of 3 and a total of 130 |
| Cart.SessionAdds | js/script.js:155-165 | from an empty cart, adding A, A and then B gives A with quantity 1, then A with quantity 2, then A with quantity 2 followed by B with quantity 1 |
| Cart.SessionRemove | js/script.js:215 | removing B from the cart of A and B leaves only A's line |
| Cart.SessionExample | js/script.js:155-215 | add A, add A, add B, remove B leaves one line of A with quantity 2, count 2 and total 140 |
| Cart.CartStore.constructor | js/script.js:10 | start-up reads the saved snapshot, or an empty cart when the key is absent; the new store is one that reload reproduces |
| Cart.CartStore.Save | js/script.js:314-316 | after saving, the stored snapshot equals the cart |
| Cart.CartStore.Add | js/script.js:132-171 | the new cart is `AddStep` of the old one; a confirmed add of a catalog id saves; otherwise cart and storage are unchanged; the cart invariant is preserved; a store that reload would reproduce stays so |
| Cart.CartStore.Remove | js/script.js:214-218 | the new cart is the old one without lines of that id; it is saved; the cart invariant is preserved; afterwards reload reproduces the store |
| Cart.CartStore.Clear | js/script.js:221-267 | on an empty cart, or when not confirmed, cart and storage are unchanged; a confirmed clear of a non-empty cart empties it and saves; a store that reload would reproduce stays so |
| Cart.CartStore.Checkout | js/script.js:270-311 | on an empty cart nothing is returned and nothing changes; otherwise it returns the item count and total of the old cart, empties the cart and saves; a store that reload would reproduce stays so |
| Cart.Reload | js/script.js:10 | from any state the store's operations reach (the snapshot holds the cart, or the key is absent and the cart is empty), start-up gives a cart with the same lines in the same order; after a save the reloaded store is saved too |
| Cart.CartStore.Totals | js/script.js:174-211 | the panel's count is the sum of quantities, and the loop's total is the sum of price × quantity |

## Left out

- Network loading: the `fetch` of the list and detail endpoints, the
  `Promise.all` fan-out and the load error path (js/script.js:36-73) are I/O and
  concurrency. Only the per-record mapping `ToProduct` is modelled. The loaded
  catalog is a parameter, not a global.
- The `stats` field of a product is dropped. No modelled operation reads it.
- DOM rendering is presentation: `displayProducts`, the HTML in `updateCart`,
  `openCart`/`closeCart` (including the `closeCart` call in checkout),
  `scrollToProducts`, and the loading and error messages. So is the
  event-listener wiring, including the input handler's two-character threshold
  and the reset of the type filter after a search.
- SweetAlert and Toastify are external UI libraries. Each confirmation is a
  `bool` parameter. The informational and success dialogs and the toast are
  not modelled.
- Float display arithmetic is not modelled: `toFixed(2)` and the height and
  weight divided by 10. Ids, prices and totals are unbounded integers.
  JavaScript's doubles are exact for these values only up to 2^53, and an id's
  `toString` gives plain decimal digits only below 10^21. Ids are taken to lie
  in the safe-integer range.
- JSON text is not modelled. Storage holds the line sequence itself, so
  rehydrating a saved snapshot gives back the same cart. A stored value that
  does not parse as an array of lines is not modelled.
- Case and whitespace: `toLowerCase` is ASCII-only, and `trim` removes a fixed
  set of eight whitespace characters rather than the full Unicode set.
- String order: `Less` compares characters by code point. JavaScript's `sort`
  compares UTF-16 code units. The two orders differ only for characters outside
  the Basic Multilingual Plane.
- Catalog.IdMatches: does not test `!isNaN(searchTerm)`, because every
  `toString()` of an integer id is numeric. The equality therefore already
  implies that test.
- Ids are integers. Looking up a `NaN` id produced by `parseInt` is not
  modelled. It matches nothing, as an id absent from the catalog does.
- Interleaving: each cart operation is one atomic step. In the code, `addToCart`
  awaits its dialog between the catalog lookup (js/script.js:133) and the
  update of the cart (js/script.js:156). `checkout` computes its summary
  (js/script.js:285-286) before awaiting its dialog and empties the cart
  (js/script.js:307) afterwards. Another event handler running in those gaps is
  not modelled.
- Storage failure: `localStorage.setItem` can throw, for example when the quota
  is exceeded. Every save is assumed to succeed.
