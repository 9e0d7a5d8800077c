# TrendAura storefront core, in Dafny

A model of the decision and collection logic of the TrendAura Social storefront, with proofs
of what that logic promises. It covers:

- the **cart** kept under the `cart` storage key;
- the **wishlist** kept under `wishlist`, with its move-to-cart transfer;
- the **catalog page**:
  - HTML escaping;
  - category normalisation and matching;
  - the `SORTERS` table applied to a copy of the filtered list;
  - the query-string rewrite;
  - the category menu;
  - slug and id normalisation;
- the **PayPal button callbacks** of the browser:
  - the amounts `createOrder` builds;
  - the empty-cart check;
  - the clear-and-redirect decisions of `onApprove`, `onCancel` and `onError`;
- the **order-creation function** of the server:
  - the method check;
  - the item and total loop;
  - the `purchase_units` fallback;
  - the pass-through of PayPal's status;
- the **featured-product wishlist button** of the React app:
  - `exponentialBackoff`;
  - the `db` / `userId` / `isWished` / `isLoading` / `error` state;
  - the snapshot listener and the toggle that can only ever set the flag.

How the outside world is represented:

- **Storage** is a `LocalStorage` object with a `cart` slot, a `wishlist` slot and a log of its writes. Each slot is absent, holds a list, or holds text that does not parse.
- **Network and provider replies** are parameters: token outcomes, order replies, capture replies, snapshot deliveries, write outcomes.
- **Money** is integer cents. `toFixed(2)` is the exact decimal rendering of a whole number of cents, and it is proved to read back losslessly.

Module layout:

| module (file) | source |
|---|---|
| `Storage` (storage.dfy), `Cart` (cart.dfy) | js/cart.js |
| `Wishlist` (wishlist.dfy) | js/wishlist.js |
| `Text` (text.dfy), `CatalogText`, `CatalogProducts`, `CatalogSort`, `CatalogUrl`, `CatalogMenu`, `Catalog` | js/catalog.js |
| `Orders`, `UriComponent`, `Checkout` | js/paypal-client.js |
| `CreatePayPalOrder` (create_order.dfy) | netlify/functions/create-paypal-order.js |
| `OrderFlow` (order_flow.dfy) | where the two sides meet |
| `Backoff`, `WishlistButton` | App.jsx |

Three points where the code does less, or otherwise, than a reader might expect; the model
does what the code does:

- `exponentialBackoff(call, retries = 5)` (App.jsx:21-35) makes up to six calls: the first and five retries. The base delay before a retry with `r` retries left is `2^(5-r)` seconds.
- `toggleWishlist` sets `isWished` only after the backoff write has succeeded (App.jsx:125-133). The comment at App.jsx:131-132 calls this immediate feedback, but it comes after the write, not before it.
- The order-creation function (netlify/functions/create-paypal-order.js:32-112) checks neither that the total is positive nor that `purchase_units` is non-empty.

## Model

| member | source | states |
|---|---|---|
| Storage.FirstIndex | js/cart.js:20 | `find` by id: the index found holds the id and no earlier entry does; none is found exactly when no entry has the id |
| Storage.Find | js/wishlist.js:28 | the linear search stops at exactly the index `FirstIndex` describes |
| Storage.LocalStorage.SetCart | js/cart.js:14 | writing the cart replaces it, leaves the wishlist alone and logs one `setItem('cart')` |
| Storage.LocalStorage.SetWishlist | js/wishlist.js:9 | writing the wishlist replaces it, leaves the cart alone and logs one `setItem('wishlist')` |
| Storage.LocalStorage.RemoveCart | js/paypal-client.js:95 | `removeItem('cart')` leaves the cart absent, the wishlist alone, and logs one removal |
| Cart.GetCart | js/cart.js:4-10 | the stored list is returned; an absent key or unparsable text reads as the empty cart |
| Cart.SaveCart | js/cart.js:13-15 | the whole cart is replaced and nothing else changes, one write logged |
| Cart.AddToCart | js/cart.js:18-27 | the stored cart becomes the merge-or-append of the item into the loaded cart, one write logged, wishlist untouched |
| Cart.AddMergesIntoExisting | js/cart.js:20-22 | with an entry for the id: same length, that entry gains `item.quantity`, every other entry is unchanged |
| Cart.AddAppendsNew | js/cart.js:23-24 | without an entry for the id: the item is appended after the unchanged old entries |
| Cart.AddKeepsUniqueIds | js/cart.js:20-25 | at most one entry per id before an add implies the same after it |
| Cart.AddAllKeepsUniqueIds | js/cart.js:18-26 | any run of adds keeps at most one entry per id |
| Cart.AddQuantity | js/cart.js:20-24 | the quantity summed under the added id grows by exactly `item.quantity`; every other id keeps its quantity |
| Cart.AddAllQuantity | js/cart.js:18-26 | after any run of adds each id holds its old quantity plus all quantity added under it |
| Cart.AddTotal | js/cart.js:18-26 | an add raises the cart total by the added quantity times the price of the entry it lands in |
| Cart.TotalAppend | js/cart.js:47 | the price × quantity total of a concatenation is the sum of the parts' totals |
| Cart.TotalNonNegative | js/cart.js:47 | a cart with non-negative prices and positive quantities has a non-negative total |
| Cart.RenderCart | js/cart.js:32-48 | the empty message is shown exactly for an empty cart; otherwise every entry is listed with the price × quantity total, which is never negative for well-formed entries |
| Wishlist.GetWishlist | js/wishlist.js:4-7 | the stored list, or the empty wishlist for an absent key or unparsable text |
| Wishlist.SaveWishlist | js/wishlist.js:8-10 | the whole wishlist is replaced, the cart untouched, one write logged |
| Wishlist.AddToWishlist | js/wishlist.js:11-17 | saves the list `WishAdd` gives (the product appended) only when no entry has the id; when one does, nothing is written at all |
| Wishlist.WishAddIdempotent | js/wishlist.js:11-17 | after an add the id is present, and adding the same product again changes nothing |
| Wishlist.WishAddKeepsUniqueIds | js/wishlist.js:13-14 | adding keeps at most one entry per id |
| Wishlist.Without | js/wishlist.js:20 | the filter leaves no entry with the id and is no longer than the list |
| Wishlist.WithoutMembership | js/wishlist.js:20 | an entry survives exactly when it was there and has another id |
| Wishlist.WithoutAppend | js/wishlist.js:20 | filtering keeps the surviving entries in their original order |
| Wishlist.WithoutAbsentId | js/wishlist.js:20 | removing an id that is not there leaves the list as it was |
| Wishlist.RemoveFromWishlist | js/wishlist.js:18-22 | the stored wishlist becomes the filtered list (saved even when nothing matched), cart untouched |
| Wishlist.MoveIntoExisting | js/wishlist.js:33-35 | with the id in the cart: same length, that entry's quantity becomes `(quantity or 1) + 1`, nothing appended |
| Wishlist.MoveIntoNew | js/wishlist.js:36-37 | without it: a copy of the wishlist item with quantity 1 is appended |
| Wishlist.MoveIntoKeepsCartSound | js/wishlist.js:32-39 | moving keeps one entry per id and a well-formed cart, the id ends up in the cart, and its quantity grows by one |
| Wishlist.IncrementKeepsCartSound | js/wishlist.js:33-35 | the increment keeps ids unique and entries well-formed and adds exactly one to that id's quantity |
| Wishlist.AppendKeepsCartSound | js/wishlist.js:36-37 | appending a fresh id keeps ids unique and entries well-formed and adds its quantity |
| Wishlist.MoveToCart | js/wishlist.js:26-42 | an id not in the wishlist, or an unparsable cart, changes nothing; otherwise the cart is written first, then the wishlist without the id |
| Text.LowerChar | js/catalog.js:55 | lower-casing a character leaves no upper-case letter, changes only upper-case letters and keeps whitespace as whitespace |
| Text.ToLower | js/catalog.js:55 | `toLowerCase` keeps the length and lower-cases each character |
| Text.ToLowerIdempotent | js/catalog.js:55 | text without upper-case letters is its own lower-case |
| Text.Trim | js/catalog.js:55 | `trim` leaves neither end whitespace |
| Text.TrimIsSlice | js/catalog.js:55 | `trim` removes whitespace at the two ends and nothing else |
| Text.TrimOfTrimmed | js/catalog.js:55 | trimmed text is its own trim |
| Text.ToLowerKeepsTrimmed | js/catalog.js:55 | lower-casing keeps text trimmed |
| Text.StrLessIrreflexive | js/catalog.js:211 | the default sort order never puts a string before itself |
| Text.StrLessTransitive | js/catalog.js:211 | the default sort order is transitive |
| Text.StrLessTotal | js/catalog.js:211 | any two distinct strings are ordered one way or the other |
| Text.StrLessAsymmetric | js/catalog.js:211 | no two strings are each before the other |
| Text.NatString | netlify/functions/create-paypal-order.js:57 | `String(n)` is a non-empty digit string without a leading zero |
| Text.IntStringRoundTrip | netlify/functions/create-paypal-order.js:57 | `String(qty)` reads back as the same integer |
| CatalogText.EscapeHtmlHasNoMarkup | js/catalog.js:28-36 | null and undefined escape to ""; escaped text holds no raw `<`, `>`, `"` or `'` |
| CatalogText.ReplaceChainIsEscapeEach | js/catalog.js:30-35 | because `&` goes first, the five global replacements escape each character exactly once |
| CatalogText.UnescapeEscape | js/catalog.js:28-36 | decoding the five entities after escaping gives the original text back |
| CatalogText.NormalizeCategory | js/catalog.js:54-56 | a normalised category is trimmed and has no upper-case letter |
| CatalogText.NormalizeCategoryIdempotent | js/catalog.js:54-56 | normalising twice is normalising once |
| CatalogText.NormalizeCategoryIgnoresCase | js/catalog.js:54-56 | categories that differ only in letter case normalise alike |
| CatalogText.NormalizeCategoryIgnoresPadding | js/catalog.js:54-56 | whitespace padding on either side does not change the normalised category |
| CatalogText.JoinSplit | js/catalog.js:218 | joining the hyphen-split pieces with hyphens gives the category back |
| CatalogText.LabelCharacters | js/catalog.js:218 | a menu label is as long as its category; hyphens become spaces and each word starts upper-cased |
| CatalogText.CollapseSpace | js/catalog.js:261 | `replace(/\s+/g, '-')` leaves no whitespace, is empty only for empty text, and adds no upper-case letter |
| CatalogText.Slugify | js/catalog.js:261 | a derived slug has no whitespace and no upper-case letter, and is empty only for an empty title |
| CatalogText.SlugifyIdempotent | js/catalog.js:261 | a slug is its own slug |
| CatalogProducts.NormalizeAll | js/catalog.js:66 | `map(normalizeCategory)` normalises each entry in place |
| CatalogProducts.MatchCases | js/catalog.js:59-69 | an empty or `all` selection matches every product; no category never matches; a list matches iff a normalised entry equals the normalised selection; a string iff the normalised values agree |
| CatalogProducts.MatchIgnoresCaseAndPadding | js/catalog.js:59-69 | padding or re-casing the selection selects the same products |
| CatalogProducts.Filter | js/catalog.js:179 | the filtered list is no longer than the products and holds only matching products |
| CatalogProducts.FilterMembership | js/catalog.js:179 | a product is kept iff it is in the list and matches |
| CatalogProducts.FilterAppend | js/catalog.js:179 | filtering keeps the products in their catalog order |
| CatalogProducts.FilterSelectsAll | js/catalog.js:179 | an empty or `all` selection keeps the whole list in order |
| CatalogProducts.FilterIdempotent | js/catalog.js:179 | filtering twice is filtering once |
| CatalogProducts.NormalizeProduct | js/catalog.js:260-263 | normalising a product never changes its title, price or category |
| CatalogProducts.NormalizeProductSound | js/catalog.js:260-263 | present slug and id are kept; a derived slug is whitespace-free lower case; a product with a slug or title gets a non-empty id; normalising again changes nothing |
| CatalogProducts.InitProducts | js/catalog.js:260-263 | the loop normalises every product in place, each with its own random fallback id |
| CatalogSort.SorterFor | js/catalog.js:72-78 | only the five table names select a comparator |
| CatalogSort.Compare | js/catalog.js:73-77 | each comparator is negative, zero or positive as the first key is below, equal to or above the second |
| CatalogSort.InsertSorted | js/catalog.js:184 | the insertion step keeps keys non-decreasing and adds only the inserted element |
| CatalogSort.SortBySorted | js/catalog.js:184 | the sort yields non-decreasing keys |
| CatalogSort.SortByPermutes | js/catalog.js:184 | the sort is a permutation of its input |
| CatalogSort.InsertStable | js/catalog.js:184 | the insertion step keeps elements with equal keys in order |
| CatalogSort.SortByStable | js/catalog.js:184 | the sort keeps elements with equal keys in their input order |
| CatalogSort.SortByConstantKey | js/catalog.js:73 | the `featured` comparator, constantly 0, leaves the order as it is |
| CatalogSort.ArrangeSound | js/catalog.js:182-185 | the rendered list is a permutation of the filtered one; `featured` or an unknown sort keeps it as is; `price-asc` and `price-desc` order prices, a missing price as 0 |
| CatalogSort.InsertLast | js/catalog.js:184 | the in-place inner loop leaves `a[..i+1]` as the insertion of `a[i]` into `a[..i]` and `a[i+1..]` untouched |
| CatalogSort.SortInPlace | js/catalog.js:183-184 | the in-place sort of the copy leaves exactly the stable sort of its old contents |
| CatalogUrl.Get | js/catalog.js:40 | `get` is null exactly when no pair has the name |
| CatalogUrl.Delete | js/catalog.js:47 | `delete` removes every pair with the name and keeps all others |
| CatalogUrl.GetSet | js/catalog.js:48 | after `set`, `get` returns the new value and every other name reads as before |
| CatalogUrl.KeepSetDelete | js/catalog.js:46-49 | `set` and `delete` leave the pairs with other names, and their order, alone |
| CatalogUrl.Effective | js/catalog.js:47 | a parameter reads back as absent exactly when its value is null, undefined or `all` |
| CatalogUrl.UpdateUrlParams | js/catalog.js:44-51 | each key reads back as its value, or absent for a dropped value; other names read as before and the other pairs keep their order |
| CatalogUrl.RenderParams | js/catalog.js:191 | the render passes two distinct keys, `category` and `sort` |
| CatalogUrl.RenderParamsEffect | js/catalog.js:191 | category `all` and sort `featured` (and a sort value `all`) are dropped from the URL; other values are written |
| CatalogMenu.AddToSet | js/catalog.js:205-207 | `set.add` keeps the set duplicate-free and adds exactly the new category |
| CatalogMenu.InsertSorted | js/catalog.js:211 | inserting into the sorted list adds exactly the new string |
| CatalogMenu.InsertSortedSorted | js/catalog.js:211 | inserting keeps the list strictly sorted |
| CatalogMenu.SortStrings | js/catalog.js:211 | `Array.from(set).sort()` holds exactly the set's elements |
| CatalogMenu.SortStringsSorted | js/catalog.js:211 | the sorted categories are strictly increasing |
| CatalogMenu.StrictlySortedDistinct | js/catalog.js:211 | a strictly sorted list has no duplicates |
| CatalogMenu.StrictlySortedUnique | js/catalog.js:211 | a strictly sorted list is determined by its elements |
| CatalogMenu.GatherCategories | js/catalog.js:200-211 | the gathering loop yields a strictly sorted, duplicate-free list of exactly the products' categories |
| CatalogMenu.MenuCategoriesSound | js/catalog.js:200-211 | the menu categories are sorted, distinct, exactly the products' categories, and each is normalised |
| CatalogMenu.CatalogCategoriesNormalized | js/catalog.js:205-207 | every gathered category is already normalised |
| CatalogMenu.GatheredCategoriesUnique | js/catalog.js:211 | sortedness and the element set fix the category list completely |
| CatalogMenu.MenuOptions | js/catalog.js:215-223 | the options are `All` first, then one option per category with its label, in order |
| CatalogMenu.OptionValues | js/catalog.js:215-223 | the option values are exactly `all` and the categories |
| CatalogMenu.SelectValue | js/catalog.js:230 | assigning a select's value gives that value or, when no option has it, "" |
| CatalogMenu.NormalizedAllSelection | js/catalog.js:229 | `all` is its own normalised form |
| CatalogMenu.MenuValueSound | js/catalog.js:225-236 | a URL category is selected, normalised, iff it matches an option, else `all`; without one the previous value (or `all`) is kept only if it is still an option |
| Catalog.ParamOr | js/catalog.js:175-176 | `readQueryParam(name) \|\| fallback`: a present non-empty value, else the fallback, so never empty with a non-empty fallback |
| Catalog.SortedCopy | js/catalog.js:182-185 | the sorted copy is exactly the arranged list; the input is not touched |
| Catalog.CatalogPage.constructor | js/catalog.js:24-25 | products and filtered list start unloaded |
| Catalog.CatalogPage.ApplyFiltersAndRender | js/catalog.js:170-192 | before loading nothing changes; after, the filtered list is the arranged matches, the URL carries the effective category and sort, other parameters are kept, products unchanged |
| Catalog.CatalogPage.PopulateMenuOptions | js/catalog.js:195-237 | with a menu and products, the options are `All` plus the gathered categories and the value is chosen from the URL or the previous value; otherwise nothing changes |
| Catalog.CatalogPage.Init | js/catalog.js:248-289 | a failed load changes nothing; otherwise every product is normalised and the first render shows the arranged matches of the category and sort the page then selects |
| Catalog.RenderedUrlReselects | js/catalog.js:187-191 | after a render rewrites `category` and `sort`, the page selects the same category and a sort that arranges the matches identically |
| Catalog.RenderedListSound | js/catalog.js:179-185 | what is shown is a permutation of exactly the matching products; `featured` keeps catalog order |
| Orders.Fixed2Nat | js/paypal-client.js:41 | a non-negative amount renders with at least four characters and no sign |
| Orders.Fixed2NatRoundTrip | js/paypal-client.js:41-49 | a non-negative amount's `toFixed(2)` reads back as the same cents |
| Orders.ToFixed2RoundTrip | js/paypal-client.js:41-49 | every amount's `toFixed(2)` reads back as the same cents, sign included |
| UriComponent.Utf8 | js/paypal-client.js:101 | a character encodes to 1 to 4 bytes, one exactly for ASCII, with continuation bytes after the first |
| UriComponent.HexValueDigit | js/paypal-client.js:101 | each upper-case hex digit written reads back as its value |
| UriComponent.PercentBytes | js/paypal-client.js:101 | `%XY` per byte: three characters per byte, each unreserved or `%` |
| UriComponent.EncodeURIComponent | js/paypal-client.js:101 | the encoding holds only unreserved characters and `%` and is at least as long as the input |
| UriComponent.SafeInQuery | js/paypal-client.js:102 | no encoded character is `&`, `#`, `=`, space or `+` |
| UriComponent.DecodeEncode | js/paypal-client.js:101 | percent-decoding the encoding gives exactly the UTF-8 bytes of the order id |
| UriComponent.EncodeUnreserved | js/paypal-client.js:101 | a string of unreserved characters is its own encoding |
| Checkout.Shipping | js/paypal-client.js:34 | shipping is 0 exactly above 100.00 and 10.00 otherwise, 100.00 included |
| Checkout.UnitForSound | js/paypal-client.js:37-54 | every code is USD; item total, shipping and value read back as subtotal, shipping and their sum |
| Checkout.CartUnitsSound | js/paypal-client.js:33-54 | one unit; the item total reads back as the cart's price × quantity sum, shipping as its fee, and the value as item total plus shipping |
| Checkout.ThresholdDrop | js/paypal-client.js:34-35 | crossing the threshold by one cent lowers the charged total from 110.00 to 100.01 |
| Checkout.CreateOrder | js/paypal-client.js:24-74 | no request for an unparsable or empty cart; otherwise the cart's units are posted; the id is returned iff the reply is ok JSON; every failure alerts the generic message last |
| Checkout.SuccessPageCarriesId | js/paypal-client.js:101-102 | the success URL's query value contains no `&`, `#`, `=`, space or `+` and decodes to the order id's bytes |
| Checkout.SuccessIsNotCancel | js/paypal-client.js:89-102 | the success page is never the cancel page |
| Checkout.OnApprove | js/paypal-client.js:77-107 | only an ok capture clears the cart (when `removeItem` succeeds) and goes to the success page with the encoded id; every other outcome goes to the cancel page with the cart untouched |
| Checkout.Finish | js/paypal-client.js:77-120 | success is reached iff an approval's capture is ok; only that path may change the cart; cancel and error go to `/cancel.html`, error after its alert |
| CreatePayPalOrder.OrElse | netlify/functions/create-paypal-order.js:40-41 | `value \|\| fallback` for strings: the value when non-empty, else the fallback |
| CreatePayPalOrder.Quantity | netlify/functions/create-paypal-order.js:49 | a missing or zero quantity counts as 1; any other is kept |
| CreatePayPalOrder.ItemName | netlify/functions/create-paypal-order.js:55 | title, else name, else `Item`, cut to a non-empty prefix of at most 127 characters, uncut when it fits |
| CreatePayPalOrder.PayPalItems | netlify/functions/create-paypal-order.js:47-59 | one PayPal item per input item |
| CreatePayPalOrder.PayPalItemsAt | netlify/functions/create-paypal-order.js:47-59 | the i-th PayPal item is built from the i-th input item |
| CreatePayPalOrder.ItemsTotalAppend | netlify/functions/create-paypal-order.js:48-51 | the total over a concatenation is the sum of the parts' totals |
| CreatePayPalOrder.ItemContribution | netlify/functions/create-paypal-order.js:48-51 | an item adds price × quantity; a missing or zero quantity adds the price once; a missing price adds nothing |
| CreatePayPalOrder.ToPayPalItemSound | netlify/functions/create-paypal-order.js:54-58 | each item's amount and quantity strings read back as its price and quantity; its currency is its own or USD |
| CreatePayPalOrder.BuildItems | netlify/functions/create-paypal-order.js:44-60 | the loop accumulates exactly the items' total and their PayPal items in order |
| CreatePayPalOrder.Fields | netlify/functions/create-paypal-order.js:38 | an absent body reads as an empty object |
| CreatePayPalOrder.SuppliedUnitsVerbatim | netlify/functions/create-paypal-order.js:63 | a supplied `purchase_units` is sent as it is |
| CreatePayPalOrder.BuiltUnitSound | netlify/functions/create-paypal-order.js:63-75 | otherwise one USD unit whose value and item total both read back as the items' total, with one PayPal item per input item, in order; missing items give 0 |
| CreatePayPalOrder.DefaultPages | netlify/functions/create-paypal-order.js:40-41 | return and cancel URLs default to the site's success and cancel pages; non-empty supplied ones are kept |
| CreatePayPalOrder.Handle | netlify/functions/create-paypal-order.js:32-112 | non-POST answers 405 with no call; a malformed body or failed token answers 500; otherwise the payload is posted with the token and PayPal's status and JSON pass through, 200 for any ok status |
| OrderFlow.BrowserRequestForwarded | js/paypal-client.js:56-60 | the function forwards the browser's unit unchanged: the order charges the cart total plus shipping, returning to the site's own pages |
| Backoff.Schedule | App.jsx:26 | one base delay per retry |
| Backoff.ExponentialBackoff | App.jsx:21-35 | a run makes between 1 and `retries + 1` calls, waits once between calls, and returns the last call's outcome |
| Backoff.DelaysFollowSchedule | App.jsx:25-29 | the waits are `2^(5-r)` seconds for `r` retries left, from `retries` down |
| Backoff.EarlierAttemptsFailed | App.jsx:22-29 | every call before the last one failed |
| Backoff.FirstSuccessReturned | App.jsx:22-23 | the first success within the budget is returned, with no further calls |
| Backoff.AllFailuresRethrown | App.jsx:25-33 | when every call fails, `retries + 1` calls are made, all delays are waited and the last error is rethrown |
| Backoff.RunSucceedsIff | App.jsx:21-35 | the run succeeds exactly when one of the first `retries + 1` calls does |
| Backoff.DefaultSchedule | App.jsx:26 | with the default the waits are 1, 2, 4, 8 and 16 seconds |
| Backoff.DefaultAlwaysFailing | App.jsx:21-33 | with the default an always-failing call is made six times and its last error rethrown |
| WishlistButton.Button.constructor | App.jsx:38-43 | no `db`, no user, not wished, loading, no error, no writes |
| WishlistButton.Button.Initialize | App.jsx:46-77 | missing configuration sets its error and leaves `db` as it was; a throw before `setDb` sets the initialisation error with `db` unchanged, a throw after it sets that error with `db` set; otherwise `db` is set |
| WishlistButton.Button.OnAuthStateChanged | App.jsx:61-70 | a signed-in user's uid becomes `userId`; without a user nothing changes yet |
| WishlistButton.Button.OnSnapshot | App.jsx:87-96 | once listening, the flag becomes `!!data.wished` for an existing document and false otherwise, and loading ends |
| WishlistButton.Button.OnSnapshotError | App.jsx:97-101 | once listening, a listener error sets the load error and ends loading |
| WishlistButton.Button.Toggle | App.jsx:108-139 | nothing happens without `db` and user or when already wished; otherwise every write sets the flag, which is set only after a write succeeded, the save error on failure; the flag is never cleared |
| WishlistButton.Button.Click | App.jsx:165-167 | a disabled button does nothing; an enabled click runs the toggle: not listening or already wished changes nothing, otherwise one wished write per backoff attempt, then the flag on success or the save error on failure; a click never clears the flag |
| WishlistButton.Button.Icon | App.jsx:174-183 | the spinner shows exactly while loading, the filled heart exactly when loaded and wished |
| WishlistButton.ClickMany | App.jsx:108-119 | any run of clicks with any write outcomes keeps a wished product wished |
| WishlistButton.ToggleWrites | App.jsx:125-129 | a toggle writes one to six times and succeeds exactly when one of those writes does |

## Left out

- Rendering and the DOM are not modelled: product cards, `renderProducts`, the wishlist table, the cart markup, the PayPal button rendering with its polling timer, and toasts. `RenderCart` keeps only what the cart view shows: the empty message, or the entries and their total.
- JSON parsing and serialisation are not modelled. A storage slot is absent, a list, or unparsable. A request body is absent, malformed, or its parsed fields.
- Floating-point arithmetic is not modelled. Prices are whole cents, so `toFixed(2)` needs no rounding, and `Number(...)` on non-numeric text (`NaN`) is not represented. A `String(qty)` of a fractional quantity is not covered.
- Network calls are parameters, not modelled: `fetch`, the access-token exchange, the capture call and PayPal's replies. The capture function itself (netlify/functions/capture-paypal-order.js) is not part of this model.
- Randomness and time are inputs or left out: the jitter added to each backoff delay, the random fallback product id, the `timestamp` in the wished document, and the waiting itself.
- The Firebase SDK is left out: `initializeApp`, the document path built from `appId`, and anonymous or custom-token sign-in. A sign-in that succeeds arrives as a later auth event.
- Concurrency is left out. The React callbacks and the asynchronous button clicks are taken one at a time.
- Strings are sequences of Unicode scalar values, not UTF-16 code units. This affects three things:
  - the 127-character cut counts code points;
  - the default string sort compares code points;
  - `encodeURIComponent`'s error on a lone surrogate cannot arise.
- `toLowerCase` and `toUpperCase` are modelled on ASCII letters only.
- CatalogSort.Key: `localeCompare` in the name sorts is an abstract rank supplied by the caller, not the locale's collation.
- Catalog.CatalogPage.Init: the sort select is assumed to offer the five table names, so a valid URL sort is copied into it as it is. Its ensures does not restate the menu and URL effects that `PopulateMenuOptions` and `ApplyFiltersAndRender` state.
- `SORTERS[sort]` on an inherited property name such as `constructor` or `toString` is not represented: only the five table names select a comparator.
- A product that is `null` in `products.json` is not represented.
- `data.orderID` missing in `onApprove` (encoded as the text `undefined`) is not represented: the order id is always a string.
- Checkout.CreateOrder: an unparsable stored cart makes `JSON.parse` throw inside the `try`. It is modelled as a failure with the generic alert and no request.
