# Rewear storage and listing model

This project models the data core of Rewear, a marketplace for second-hand clothes, in Dafny:

- **`MemStorage`** is the server's in-memory store. It keeps users, products, seeded categories, orders, messages, favourites and reviews. Each kind lives in a `Map` keyed by an id that a counter hands out.
- **The product query `getProducts`** filters products by up to six optional criteria, sorts them newest first and returns one window of the result.
- **The navigation bar's `isActive`** decides which header link is highlighted.
- **The product listing page** has a filter form, size and condition check lists, and the query parameters it sends.
- **The "add product" form** manages the list of image URLs and submits it with the product.

Files:

| file | module | contents |
|---|---|---|
| `wrappers.dfy` | `Wrappers` | `Option` and map lookup |
| `js_text.dfy` | `JsText` | the string built-ins the core uses: `toLowerCase`, `startsWith`, `includes` and `trim` |
| `js_array.dfy` | `JsArray` | the array built-ins: `filter`, `map`, `filter(Boolean)`, `find`, `some` and `slice` |
| `schema.dfy` | `Schema` | the row, insert and partial-update records; how each `create…` and `update…` builds its row |
| `tables.dfy` | `Tables` | an id-keyed table and its iteration order |
| `catalog.dfy` | `Catalog` | what `getProducts` returns, stated as pure functions |
| `storage.dfy` | `Storage` | the class `MemStorage` |
| `navigation.dfy` | `Navigation` | `isActive` |
| `product_listing.dfy` | `ProductListing` | the listing page's state helpers |
| `add_product.dfy` | `AddProduct` | the image list of the add-product form |

Modelling choices:

- **Table order.** A JavaScript `Map` iterates in insertion order. In `MemStorage` keys come only from the counters, so insertion order is ascending id. `Map.set` on an existing key keeps that key's place, and `delete` removes it. `Tables.Rows(m, 1, counter)` is therefore exactly `Array.from(map.values())`. The class invariant `Valid()` keeps every key below its counter and stores every row under its own id.
- **Dates.** `new Date()` is a `now` parameter in milliseconds.
- **Money.** Decimal columns are whole cents (`parseFloat(price)` becomes the integer `price`).
- **Truthiness.** JavaScript truthiness is explicit: `TextGiven` means present and non-empty; `NumberGiven` means present and non-zero.

## Model

| member | source | states |
|---|---|---|
| Storage.MemStorage.constructor | server/storage.ts:91-98 | every table starts empty; categories hold exactly the five seed categories, under ids 1 to 5; every counter starts at 1 |
| Storage.SeedRows | server/storage.ts:93-97 | iterating the seeded category table yields the five categories in seed order |
| Storage.MemStorage.GetUser | server/storage.ts:101-103 | a user comes back exactly when the id is a key, and the user carries that id |
| Storage.MemStorage.GetUserByEmail | server/storage.ts:105-107 | no user comes back iff no stored user has the email; otherwise the user with that email and the lowest id (the first in insertion order) |
| Storage.MemStorage.GetUserByUsername | server/storage.ts:109-111 | the same as by email, for the username |
| Storage.MemStorage.CreateUser | server/storage.ts:113-129 | the new user takes the counter's id, which is above every stored id; the table gains exactly that row, at the end of iteration order; the counter moves on by one |
| Schema.NewUser | server/storage.ts:115-126 | the created user keeps the payload's credentials; first name, last name and image URL become null when empty and are kept as given otherwise; rating "0.0", zero reviews, not admin; both timestamps are now |
| Storage.MemStorage.UpdateUser | server/storage.ts:131-138 | an unknown id gives undefined and changes nothing; otherwise the stored user is replaced by the spread update, which is also returned |
| Schema.UpdatedUser | server/storage.ts:135 | the spread keeps id and creation time and stamps `updatedAt`; for every other column an absent key keeps the old value and a present key's value replaces it; an empty patch changes only `updatedAt` |
| Storage.MemStorage.GetProduct | server/storage.ts:141-143 | a product comes back exactly when the id is a key, and it carries that id |
| Storage.MemStorage.GetProducts | server/storage.ts:145-187 | the loop of filters, the sort and the slice together return `Catalog.Query` of the stored rows |
| Storage.QueryReturnsStoredRows | server/storage.ts:145-187 | every product returned is stored under its id and matches every given filter; the result is newest first; it holds at most `limit` products (20 by default) |
| Catalog.NarrowedMatches | server/storage.ts:156-178 | the six conditional filters applied in turn equal one filter by the conjunction of the given criteria |
| Catalog.NarrowStep | server/storage.ts:156-178 | each conditional filter narrows the products matching the earlier criteria to those matching one more |
| Catalog.CandidatesExact | server/storage.ts:154-181 | before windowing, a product is a candidate iff it is stored and matches; the candidates are newest first |
| Catalog.QuerySound | server/storage.ts:156-186 | each returned product is stored and satisfies each given criterion: category, condition, price bounds, seller and lower-cased search in title, description or brand |
| Catalog.FalsyFiltersAndStatusIgnored | server/storage.ts:156-178 | falsy criteria (0 and "") filter nothing, no criteria match every product, and `status` plays no part (inactive products are listed too) |
| Catalog.SortNewestSorts | server/storage.ts:182 | the sort is a permutation that leaves the products newest first |
| Catalog.SortNewestStable | server/storage.ts:182 | the sort is stable: products created at the same time keep their relative order |
| Catalog.SortNewestTiesById | server/storage.ts:154-181 | on rows in id order (the table's order), products with equal creation times come out by ascending id |
| Catalog.InsertNewestOrdered | server/storage.ts:182 | inserting one product into a newest-first list keeps it newest first |
| Catalog.InsertNewestKeepsTies | server/storage.ts:182 | insertion places a product before the products created at the same time, so the ones already sorted keep their place after it |
| Catalog.InsertNewestTiesById | server/storage.ts:182 | inserting a product with a lower id than all others keeps ties in ascending id order |
| Catalog.HeadTiesFirst | server/storage.ts:182 | in a list tied by ascending id, the head precedes every later product created at the same time |
| Catalog.InsertNewestAdds | server/storage.ts:182 | one insertion step of the sort adds exactly that product and nothing else |
| Catalog.LimitOf | server/storage.ts:185 | `filters.limit \|\| 20`: a truthy limit is used as given, no limit or 0 gives 20; never 0 |
| Catalog.OffsetOf | server/storage.ts:184 | `filters.offset \|\| 0`: a truthy offset is used as given, otherwise 0 |
| Catalog.Query | server/storage.ts:155-186 | the whole result of `getProducts`: the window `[offset, offset + limit)` of the matching products sorted newest first; its properties are the lemmas CandidatesExact, QuerySound and QueryOrderedAndBounded |
| Catalog.SortNewest | server/storage.ts:182 | `products.sort` by descending creation time, as a stable insertion sort; its properties are the lemmas SortNewestSorts, SortNewestStable and SortNewestTiesById |
| Catalog.QueryOrderedAndBounded | server/storage.ts:182-186 | the window is newest first and holds at most `limit` products (20 by default) |
| Catalog.SliceKeepsOrder | server/storage.ts:186 | any slice of a newest-first list is newest first |
| Catalog.SliceWithin | server/storage.ts:186 | a slice holds only elements of the list |
| Catalog.CandidatesIgnoreWindow | server/storage.ts:183-186 | limit and offset do not change which products are candidates |
| Catalog.WindowsArePrefix | server/storage.ts:183-186 | the first n windows of a fixed size, joined, are the first n·size elements: paging leaves no gap and no overlap |
| Catalog.PageIsSlice | server/storage.ts:183-186 | page k is the slice of the candidates from k·size to (k+1)·size |
| Catalog.PageStartIsProduct | server/storage.ts:185-186 | page k starts at offset k·size |
| Catalog.StagesBracket | server/storage.ts:154-178 | no criteria applied keeps every product; all six applied keep exactly the matching ones |
| Catalog.FacetTestsDecide | server/storage.ts:156-178 | each criterion's test is the condition written in the corresponding `if` |
| Storage.MemStorage.CreateProduct | server/storage.ts:189-208 | the new product takes the counter's id, which is above every stored id; the table gains exactly that row, at the end; the counter moves on |
| Schema.NewProduct | server/storage.ts:191-205 | the product carries the payload's columns; brand, colour and material become null when empty and are kept as given otherwise, and likewise category for 0; status "active", zero views, not featured; timestamps now |
| Storage.MemStorage.UpdateProduct | server/storage.ts:210-217 | an unknown id gives undefined and changes nothing; otherwise that product is replaced in place, so iteration order is unchanged |
| Schema.UpdatedProduct | server/storage.ts:214 | the spread keeps id, views and creation time and stamps `updatedAt`; for each of the fourteen patchable columns an absent key keeps the old value and a present key's value replaces it; an empty patch changes only `updatedAt` |
| Schema.UpdatesCompose | server/storage.ts:210-217 | two updates in a row equal one update with the merged patch, where later keys win |
| Schema.Then | server/storage.ts:214 | in a spread, a present later key wins over an earlier one |
| Schema.Overlay | server/storage.ts:135 | a present patch key replaces the column; an absent one keeps it |
| Schema.TextOrNull | server/storage.ts:117-119 | `s \|\| null` keeps a string exactly when it is present and non-empty |
| Schema.NumberOrNull | server/storage.ts:195 | `n \|\| null` keeps a number exactly when it is present and non-zero |
| Storage.MemStorage.DeleteProduct | server/storage.ts:219-221 | the result says whether the id was a key; the product is gone and every other product stays in its order |
| Storage.MemStorage.IncrementProductViews | server/storage.ts:223-229 | an existing product's view count grows by one (a missing count counts as 0); nothing else changes; an unknown id changes nothing |
| Storage.Viewed | server/storage.ts:223-229 | same keys; only the viewed product changes, and only in `viewCount`, which becomes a number: the old count (null counting as 0) plus one |
| Storage.ViewsAccumulate | server/storage.ts:223-229 | n views raise the count by exactly n and touch no other product |
| Storage.MemStorage.GetCategories | server/storage.ts:232-234 | the five seeded categories, in seed order |
| Storage.MemStorage.GetOrder | server/storage.ts:237-239 | an order comes back exactly when the id is a key, and it carries that id |
| Storage.MemStorage.GetUserOrders | server/storage.ts:241-245 | exactly the stored orders in which the user buys or sells, in ascending id order |
| Storage.MemStorage.CreateOrder | server/storage.ts:247-258 | the new order takes the counter's id, which is above every stored id; it is stored under it; the counter moves on |
| Schema.NewOrder | server/storage.ts:249-255 | the order carries the payload's parties, product and amount; status "pending" whatever the payload says |
| Storage.MemStorage.UpdateOrderStatus | server/storage.ts:260-269 | an unknown id gives undefined and changes nothing; otherwise only that order's status and `updatedAt` change |
| Storage.MemStorage.GetUserMessages | server/storage.ts:271-275 | exactly the stored messages the user sent or received, in table order |
| Storage.MemStorage.GetConversation | server/storage.ts:277-288 | exactly the stored messages between the two users in either direction, restricted to the product when a non-zero product id is given |
| Storage.ConversationSymmetric | server/storage.ts:277-288 | a conversation between a and b is the same list as between b and a |
| Storage.ConversationWithinInboxes | server/storage.ts:271-288 | a conversation is a sub-list of both participants' inboxes |
| Storage.MemStorage.CreateMessage | server/storage.ts:290-301 | the new message takes the counter's id, which is above every stored id; it is stored under it; the counter moves on |
| Schema.NewMessage | server/storage.ts:292-298 | the message carries sender, receiver and content; a product id of 0 becomes null; it is unread |
| Storage.MemStorage.MarkMessageAsRead | server/storage.ts:303-309 | only that message's read flag changes, to true; an unknown id changes nothing |
| Storage.MemStorage.GetUserFavorites | server/storage.ts:312-316 | exactly the products the user favourited that still exist: each one returned is stored under its id and named by one of the user's favourites, and each such product is returned; the list is FavoriteProducts over the favourites in table order, so order and repeats follow FavoriteProductsAppend |
| Storage.FavoriteProducts | server/storage.ts:312-316 | the favourites, mapped to products, with deleted products dropped: each product returned is stored and favoured by the user, every product the user favourited that exists is returned, and there are no more entries than favourites |
| Storage.FavoriteProductsAppend | server/storage.ts:313-315 | one more favourite of the user, for a product that exists, appends that product at the end; any other favourite adds nothing: products come in favourite order, with repeats |
| Storage.LookedUpCovers | server/storage.ts:313-315 | each of the user's favourites is looked up, and there are no more look-ups than favourites |
| Storage.LookedUpSound | server/storage.ts:313-315 | every product found by the look-ups is stored and favoured by the user |
| Storage.MemStorage.AddToFavorites | server/storage.ts:318-327 | the new favourite takes the counter's id and is stored under it; afterwards the pair counts as favourited |
| Schema.NewFavorite | server/storage.ts:320-324 | the favourite carries the payload's user and product |
| Storage.MemStorage.RemoveFromFavorites | server/storage.ts:329-337 | the result is whether the pair was favourited; if it was, only the first matching favourite (lowest id) is deleted; otherwise nothing changes |
| Storage.MemStorage.IsFavorited | server/storage.ts:339-344 | true iff some stored favourite links that user and product |
| Storage.MemStorage.GetUserReviews | server/storage.ts:346-348 | exactly the stored reviews about the user, in ascending id order |
| Storage.MemStorage.CreateReview | server/storage.ts:350-360 | the new review takes the counter's id, which is above every stored id; it is stored under it; the counter moves on |
| Schema.NewReview | server/storage.ts:352-357 | the review carries the payload's parties, order and rating; an empty comment becomes null |
| Tables.Rows | server/storage.ts:155 | `Array.from(map.values())`: the rows stored under keys `lo, lo + 1, …, hi - 1`, in ascending key order; its properties are the lemmas RowsStored, RowsAreValues and RowsAscending |
| Tables.RowsStored | server/storage.ts:155 | iteration yields only values stored under keys in the range, and every value stored in the range |
| Tables.RowsAreValues | server/storage.ts:155 | with all keys in the range, iteration yields exactly the map's values |
| Tables.KeyedSet | server/storage.ts:215 | `set` of a row carrying its own id under that id keeps every row stored under its id |
| Tables.KeyedAdd | server/storage.ts:127 | `set` under the counter followed by the counter's increment keeps every row stored under its id, below the counter |
| Tables.RowsAscending | server/storage.ts:241-245 | rows stored under their own ids iterate in strictly ascending id order |
| Tables.RowsAppend | server/storage.ts:127 | `set` under a fresh key above all others appends the value to iteration order |
| Tables.RowsReplace | server/storage.ts:215 | `set` under an existing key replaces the value where it stands |
| Tables.RowsRemove | server/storage.ts:220 | `delete` removes exactly that row and keeps the others' order |
| Tables.FirstMatchIsLowest | server/storage.ts:105-111 | the first row `find` meets is stored under its id and no matching row has a lower id |
| Tables.FindLowest | server/storage.ts:105-111 | `find` over the table misses iff no row matches; otherwise it returns the matching row with the lowest id |
| Tables.Numbered | server/storage.ts:93-97 | the seeding `set(k, …)` for k = 1 to 5 stores the k-th category under k |
| Tables.RowsOfNumbered | server/storage.ts:93-97 | the numbered table iterates in seed order |
| JsArray.Filter | server/storage.ts:156-178 | `filter` keeps exactly the elements satisfying the predicate and never lengthens the list |
| JsArray.FilterFilter | server/storage.ts:156-178 | filtering twice is filtering once by the conjunction |
| JsArray.FilterKeepsOrder | server/storage.ts:241-245 | filtering keeps the relative order of the kept elements |
| JsArray.FilterConcat | client/src/pages/ProductListing.tsx:51-57 | filtering a concatenation is concatenating the filtered parts |
| JsArray.FilterAll | client/src/pages/ProductListing.tsx:51-57 | filtering with a predicate every element satisfies keeps the list |
| JsArray.FilterAgree | server/storage.ts:277-288 | predicates that agree on the list give the same filter |
| JsArray.Map | server/storage.ts:313-315 | `map` applies the function to each element, keeping length |
| JsArray.Present | server/storage.ts:315 | `filter(Boolean)` over looked-up products keeps exactly the products found |
| JsArray.MapConcat | server/storage.ts:314-315 | `map` distributes over concatenation |
| JsArray.PresentConcat | server/storage.ts:315 | `filter(Boolean)` distributes over concatenation, so found values keep their order and repeats |
| JsArray.Find | server/storage.ts:106 | `find` misses iff no element matches, else returns the first match |
| JsArray.Any | server/storage.ts:340-343 | `some` is true iff some element matches |
| JsArray.Slice | server/storage.ts:186 | `slice` within bounds is the sub-sequence, and never longer than end − start |
| JsArray.RelativeIndex | server/storage.ts:186 | a slice bound within the list is kept; one past the end becomes the length; a negative one counts from the end (`len + k`), floored at 0 |
| JsArray.NegativeEndCountsFromTheBack | server/storage.ts:185-186 | a negative end counts from the back: `slice(0, -1)` is the list without its last element |
| JsArray.SliceFromOffset | server/storage.ts:186 | a window from an offset is the sub-sequence starting there, cut to the list |
| JsArray.AdjacentSlices | server/storage.ts:186 | two adjacent windows join into one |
| JsArray.JoinSlices | server/storage.ts:186 | a prefix and the next window join into a longer prefix |
| Wrappers.Lookup | server/storage.ts:102 | `get` finds a value exactly when the key is present, and then the stored one |
| JsText.ToLowerCase | server/storage.ts:171-176 | lowering keeps the length and lowers each character |
| JsText.ToLowerCaseIdempotent | server/storage.ts:171-176 | lowering twice is lowering once |
| JsText.StartsWith | client/src/components/Navigation.tsx:21 | `startsWith` is true iff the prefix fits and the string's first characters are the prefix |
| JsText.Includes | server/storage.ts:174-176 | `includes` is true iff the needle occurs at some index |
| JsText.IncludesEmpty | server/storage.ts:171-176 | every string includes the empty string |
| JsText.SkipSpaces | client/src/pages/AddProduct.tsx:109 | finds the first non-space at or after an index: only white space lies before it |
| JsText.SkipSpacesBack | client/src/pages/AddProduct.tsx:109 | finds the end of the last non-space before an index: only white space lies after it |
| JsText.Trim | client/src/pages/AddProduct.tsx:109 | the result has no white space at either end, and it is what remains of the input between white-space runs |
| JsText.TrimOfTrimmed | client/src/pages/AddProduct.tsx:109 | trimming a trimmed string changes nothing |
| JsText.TrimIdempotent | client/src/pages/AddProduct.tsx:109-110 | trimming twice is trimming once |
| Navigation.IsActive | client/src/components/Navigation.tsx:19-23 | the home link is active exactly on "/"; any other link exactly when the location starts with its path |
| Navigation.NotSegmentAware | client/src/components/Navigation.tsx:21 | the prefix test ignores path segments: "/browse" is active under "/browsefoo" |
| Navigation.PrefixesComparable | client/src/components/Navigation.tsx:21 | two prefixes of one location are prefixes of each other |
| Navigation.Unordered | client/src/components/Navigation.tsx:13-16 | paths differing in their second character are not prefixes of one another |
| Navigation.AtMostOneActive | client/src/components/Navigation.tsx:12-23 | at any location at most one of the four header links is active |
| ProductListing.FilterChange | client/src/pages/ProductListing.tsx:47-49 | the changed key gets the value; every other key keeps its value |
| ProductListing.FieldsDetermineFilters | client/src/pages/ProductListing.tsx:15-22 | two filter states with the same six fields are equal |
| ProductListing.FilterChangesCompose | client/src/pages/ProductListing.tsx:47-49 | the last change to a key wins; changes to different keys commute |
| ProductListing.Toggle | client/src/pages/ProductListing.tsx:51-65 | after a toggle the value is in the list iff it was not before; other values keep their membership |
| ProductListing.TogglePresent | client/src/pages/ProductListing.tsx:53-55 | toggling a listed value removes every occurrence and keeps the rest in order |
| ProductListing.ToggleAbsent | client/src/pages/ProductListing.tsx:53-56 | toggling an unlisted value appends it at the end |
| ProductListing.ToggleTwiceRestores | client/src/pages/ProductListing.tsx:51-65 | toggling an unlisted value twice gives back the list |
| ProductListing.ToggleKeepsDistinct | client/src/pages/ProductListing.tsx:51-65 | a list without duplicates keeps that property under any toggle |
| ProductListing.WithoutCounts | client/src/pages/ProductListing.tsx:55 | the filter removes every occurrence of the value and keeps every other occurrence |
| ProductListing.WithoutDistinct | client/src/pages/ProductListing.tsx:55 | the filter keeps a list free of duplicates |
| ProductListing.SentParams | client/src/pages/ProductListing.tsx:30-35 | the pairs sent are among the five candidate fields, each with a non-empty value, and there are at most five |
| ProductListing.SentParamsFilterCandidates | client/src/pages/ProductListing.tsx:30-35 | the parameters sent are the five candidates, in the order search, categoryId, condition, minPrice, maxPrice, filtered to those with a non-empty value |
| ProductListing.QueryParams | client/src/pages/ProductListing.tsx:30-35 | the parameters appended are exactly the non-empty fields among search, category, condition and price bounds, in that order |
| ProductListing.SentAreNonEmptyCandidates | client/src/pages/ProductListing.tsx:30-35 | a (name, value) pair is sent iff it is one of the five candidate fields and its value is non-empty; at most five pairs are sent |
| ProductListing.SentExactlyWhenNonEmpty | client/src/pages/ProductListing.tsx:30-35 | a field is sent iff non-empty, under its own name and with its own value |
| ProductListing.SortByNeverSent | client/src/pages/ProductListing.tsx:30-35 | the sort choice is never sent: changing it leaves the parameters as they were |
| AddProduct.AddImage | client/src/pages/AddProduct.tsx:108-113 | an empty trimmed input, or one already listed, changes nothing; otherwise the trimmed URL is appended and the input cleared |
| AddProduct.AddKeepsWellFormed | client/src/pages/AddProduct.tsx:108-113 | a list without duplicates, of non-empty trimmed URLs, stays so after any add |
| AddProduct.AppendFresh | client/src/pages/AddProduct.tsx:109-110 | appending an unlisted URL keeps the list free of duplicates |
| AddProduct.RemoveImage | client/src/pages/AddProduct.tsx:115-117 | removing keeps the input text, never lengthens the list and keeps only URLs that were listed |
| AddProduct.ExceptAt | client/src/pages/AddProduct.tsx:116 | the index filter never lengthens the list and keeps only its elements |
| AddProduct.RemoveImageCuts | client/src/pages/AddProduct.tsx:115-117 | removing index i drops exactly the i-th URL and keeps the order; an out-of-range index changes nothing; the input is untouched |
| AddProduct.ExceptAtCuts | client/src/pages/AddProduct.tsx:116 | the index filter cuts out exactly the element at the index when it is in range |
| AddProduct.RemoveKeepsWellFormed | client/src/pages/AddProduct.tsx:115-117 | removing keeps the list well formed |
| AddProduct.RemoveUndoesAdd | client/src/pages/AddProduct.tsx:108-117 | removing the URL just added gives back the previous list |
| AddProduct.SubmittedImageUrls | client/src/pages/AddProduct.tsx:83 | null exactly when the list is empty, otherwise the list itself |

## Left out

- Asynchrony: every `async` member is modelled as a synchronous call. There is no concurrency in the store.
- `new Date()` is a `now` parameter. The two `new Date()` calls in one create are taken to give the same instant.
- Aliasing: `incrementProductViews`, `updateOrderStatus` and `markMessageAsRead` mutate the stored object in place. A caller holding that object would see the change. The model stores values, so it does not capture that a previously returned object changes.
- Catalog.SortNewest: `Array.prototype.sort` sorts the array in place. It is modelled by its result, a stable insertion sort on a sequence. The exact comparison order of the engine is not modelled; the language requires stability, which is proved.
- Prices are whole cents, so `parseFloat` is exact here. Floating-point rounding and `NaN` prices are not modelled.
- Schema.NewProduct: an `originalPrice` of `""` is not modelled. The insert schema accepts any string for a decimal column, and `"" || null` gives null. Whole cents have no empty value, so the model keeps every present `originalPrice`.
- Schema.UpdatedUser and Schema.UpdatedProduct: a patch key that is present with the value `undefined` is not modelled. `Partial<…>` allows it, and the spread then writes `undefined` into the column. In the model `None` means only an absent key.
- JsText.ToLowerCase: lowers only ASCII letters. Unicode case mapping is not modelled.
- JsText.IsWhiteSpace lists the code points that `trim` removes, one UTF-16 unit at a time. Surrogate pairs are not modelled.
- Storage.MemStorage.GetProducts: its ensures gives the result as `Catalog.Query` of the stored rows. That the rows are stored, matching and newest first, and that there are at most `limit` of them, is stated by the lemma Storage.QueryReturnsStoredRows.
- A negative `limit` or `offset` follows `slice`'s negative-index rule (JsArray.Slice). Nothing stops a caller from passing one.
- The `IStorage` interface, the Mongo-backed storage, the route handlers in server/routes.ts and the database setup are not part of this model.
- ProductListing.FilterChange: the key is one of the six filter fields. The page itself passes five of them (search, category, sort and the two price bounds) and never changes `condition`, so that parameter stays empty and is never sent. An arbitrary string key, which would add a new property, is not modelled.
- ProductListing.QueryParams: the `URLSearchParams` object is the ordered list of (name, value) pairs. Percent-encoding, the `fetch` and the response are not modelled.
- The listing page's size and condition selections are not sent with the query. The model reflects this, but does not model the rendering that shows them.
- The rest of the add-product form is not modelled: its schema validation, number parsing, the request, the toasts and the navigation after success. Only the image list and the submitted `imageUrls` value are modelled.
- Rendering and UI components of all pages are not modelled.
