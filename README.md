# Aurora Jewelry storefront — a Dafny model

Aurora Jewelry is a small jewellery shop. It has two parts. An Express server (`server.js`) answers read-only queries over a fixed product list and validates two form submissions. A browser script (`public/script.js`) keeps a shopping cart in local storage and renders the catalogue. This project models the logic of both parts and proves what it promises.

Modules, one per concern:

- `Wrappers` (wrappers.dfy): `Option`, for `undefined`, `null` and a failed `find`.
- `Sequences` (sequences.dfy): `Filter` and `FirstIndex`, the array methods `filter` and `find`/`findIndex`, with their meaning stated once.
- `Text` (text.dfy): `toLowerCase` over ASCII letters, `includes` (`Contains`), `slice(0, -1)` (`DropLast`) and the `\s` class of JavaScript regular expressions.
- `Catalog` (catalog.dfy): the product record, the look-up by id, and the featured window. The server (`server.js:206`) and the client (`public/script.js:96`) both use the same `slice(0, 3)`. Prices are whole cents.
- `Server` (server.dfy): each handler is a function of the catalogue and the request's inputs. Errors are `Err(status, message)` values with the source's exact status codes and messages. `/api/env` is a method with the source's loop over the whitelist.
- `Cart` (cart.dfy): the cart as a value. It defines what `addToCart`, `removeFromCart` and `updateQuantity` do to it, the badge count, and the order summary. Lemmas prove:
  - the invariant: ids are unique and every quantity is at least 1;
  - the frame conditions;
  - the exact arithmetic.
- `Client` (client.dfy): the application object `AuroraJewelry`. It is a class whose methods update `cart`, `badge` (the number in the cart-count badge) and a ghost snapshot of local storage in place. Each method's postcondition ties the new cart to the `Cart` functions. The module also holds the pure helpers `getProductIcon` and `applyFilter` and the "In Cart" card state.

The cart operations are specified for any cart, not only valid ones. Local storage can hold anything. The source's `find` takes the first match, and `removeFromCart` drops every entry with the id, so the model does the same. Separate lemmas prove that the operations keep a valid cart valid.

Two facts about the code shape the model:

- At start-up (`public/script.js:4`) the cart falls back to `[]` when the key is absent or holds a falsy JSON value. Malformed JSON throws. A truthy value that is not an array is kept as the cart and makes `updateCartCount` (`public/script.js:341`) throw at start-up. An array is kept whatever its elements: a `null` element makes `public/script.js:341` throw at start-up, and an element without a numeric `quantity` gives a `NaN` or garbled badge.
- The badge does not always equal the sum of the quantities: `updateQuantity` leaves it stale when the entry survives (see Findings).

## Model

| member | source | states |
|---|---|---|
| Catalog.FindProduct | server.js:115 | the record found has the requested id and is the first with it; none is found iff no record has that id |
| Catalog.Featured | server.js:205-207 | the result is a prefix of the catalogue of length min(3, n) |
| Server.GetProduct | server.js:113-121 | success returns a catalogue record with the requested id; the 404 "Product not found" reply happens iff no record has that id |
| Server.GetProductByOwnId | server.js:113-121 | in a catalogue with unique ids, every record is returned for its own id |
| Server.ByCategory | server.js:125-128 | the result is the order-preserving subsequence of records whose category equals the lower-cased input, each kept as often as it occurs; no match gives an empty list |
| Server.ByCategoryIgnoresCase | server.js:126 | inputs that differ only in letter case give identical results |
| Server.CapitalisedCategoryNeverSelected | server.js:126-127 | a record whose category has a capital letter is never returned, because only the input is lower-cased |
| Server.CategoryExample | server.js:125-128 | "Rings" and "rings" both return exactly the one ring of the fixture |
| Server.Search | server.js:132-146 | an absent or empty `q` returns the catalogue unchanged; otherwise the order-preserving subsequence of records whose lower-cased name, description or category contains the lower-cased query, each kept as often as it occurs |
| Server.SearchWithoutHitsIsEmpty | server.js:139-146 | a query found in no field of any record yields the empty list |
| Server.SearchHit | server.js:140-143 | no contract of its own; the membership clause of Server.Search and Server.SearchWithoutHitsIsEmpty state it |
| Server.IsEmail | server.js:161-162 | the test of both handlers (also lines 188-189); no contract of its own; Server.IsEmailIffPattern proves it equivalent to the regular expression |
| Server.IsEmailIffPattern | server.js:161 | the address test holds iff the string matches `^[^\s@]+@[^\s@]+\.[^\s@]+$`, the regular expression read as three non-empty runs without white space or `@` |
| Server.WellFormedAddressExample | server.js:161 | "a@b.co" matches the address pattern |
| Server.Contact | server.js:150-175 | a missing or empty field gives 400 "All fields are required", whatever the address; the field check comes first; otherwise a non-matching address gives 400 "Invalid email address"; success iff all four fields are filled and the address matches |
| Server.Newsletter | server.js:179-201 | a missing or empty address gives 400 "Email is required"; a non-matching one gives 400 "Invalid email address"; success iff it is filled and matches |
| Server.ContactExamples | server.js:150-201 | "a@b.co" succeeds; "not-an-email" fails with "Invalid email address" at both endpoints; an empty address fails with "All fields are required" |
| Server.SafeEnv | server.js:211-218 | the result has only whitelisted keys; each whitelisted key appears iff the environment gives it a non-empty value, and then with that value |
| Cart.Locate | public/script.js:222 | the `find` of `addToCart` and of `updateQuantity` (line 247): the index found carries the id and no earlier entry does; none is found iff no entry carries it |
| Cart.Added | public/script.js:218-231 | no contract of its own; pinned down by Cart.AddedUnknown, Cart.AddedExisting, Cart.AddedNew, Cart.AddedFindsProduct, Cart.AddedKeepsValid and Cart.AddedSums |
| Cart.Removed | public/script.js:240 | no contract of its own; pinned down by Cart.RemovedSpec, Cart.RemovedKeepsValid and Cart.RemovedSum |
| Cart.QuantityUpdated | public/script.js:246-256 | no contract of its own; pinned down by Cart.QuantityUpdatedAbsent, Cart.QuantityUpdatedRemoves, Cart.QuantityUpdatedAdjusts, Cart.QuantityUpdatedKeepsValid and Cart.QuantityUpdatedCount |
| Cart.Count | public/script.js:341 | no contract of its own; stated by Cart.CountPositiveIffNonEmpty, Cart.AddedSums, Cart.RemovedSum and Cart.QuantityUpdatedCount |
| Cart.Subtotal | public/script.js:313-316 | no contract of its own; stated by Cart.SubtotalNonNegative, Cart.AddedSums, Cart.RemovedSum and Cart.OrderSummary |
| Cart.InCart | public/script.js:103 | an id is in the cart iff some entry carries that id |
| Cart.SummaryOf | public/script.js:317-318 | shipping is 0 iff the subtotal is strictly above 100.00, and 10.00 otherwise; the total is the subtotal plus shipping |
| Cart.OrderSummary | public/script.js:265-318 | an empty cart shows no summary; otherwise the subtotal is the sum of price × quantity over all entries, shipping is 0 iff that subtotal is strictly above 100.00 and 10.00 otherwise, and the total is their sum |
| Cart.SummaryExamples | public/script.js:313-318 | 85.00 gives 10.00 shipping and 95.00 total; 120.00 ships free; exactly 100.00 still pays 10.00; 100.01 costs less in total than 100.00 |
| Cart.CountPositiveIffNonEmpty | public/script.js:340-345 | for a valid cart the badge count is positive (the badge is shown) iff the cart has an entry, and it is at least the number of entries |
| Cart.SubtotalNonNegative | public/script.js:313-316 | a valid cart's subtotal is never negative |
| Cart.AddedUnknown | public/script.js:218-220 | adding an id the catalogue lacks leaves the cart unchanged |
| Cart.AddedExisting | public/script.js:222-225 | adding a product already in a valid cart raises that entry's quantity by exactly 1; the length and every other entry stay the same |
| Cart.AddedNew | public/script.js:226-231 | adding a catalogue product not yet in the cart appends one copy of the record with quantity 1 at the end |
| Cart.AddedFindsProduct | public/script.js:218-231 | after adding a catalogue product, some cart entry carries its id |
| Cart.AddedKeepsValid | public/script.js:218-231 | adding keeps the ids distinct and the quantities at least 1 |
| Cart.AddedTwice | public/script.js:218-231 | adding the same product twice gives one entry with quantity 2, not two entries |
| Cart.AddedSums | public/script.js:218-234 | adding a catalogue product raises the count by 1 and the subtotal by the price of the copy held; an unknown id changes neither |
| Cart.RemovedSpec | public/script.js:239-240 | after removal no entry has the id; the remaining entries are exactly those with other ids, each as often as before, in their original order; removing an absent id changes nothing |
| Cart.RemovedKeepsValid | public/script.js:240 | removal keeps a valid cart valid |
| Cart.RemovedSum | public/script.js:240-242 | removing an entry of a valid cart lowers the count and the subtotal by exactly that entry's share |
| Cart.RemovedIgnoresBump | public/script.js:250-253 | removing the id after its quantity was changed gives the same cart as removing it from the unchanged cart |
| Cart.QuantityUpdatedAbsent | public/script.js:246-248 | updating an id the cart lacks is a no-op |
| Cart.QuantityUpdatedRemoves | public/script.js:250-253 | when the old quantity plus the change is at most 0, the result is exactly removal of the id |
| Cart.QuantityUpdatedAdjusts | public/script.js:250-256 | otherwise only that entry changes, and its quantity changes by exactly the change |
| Cart.QuantityUpdatedKeepsValid | public/script.js:246-258 | updating keeps every quantity at least 1 and the ids distinct |
| Cart.QuantityUpdatedCount | public/script.js:246-258 | the count rises by the change, or falls by the removed entry's old quantity |
| Client.IconFrom | public/script.js:141-145 | the icon of the first table entry whose key occurs in the lower-cased name; the gem when none does |
| Client.ProductIcon | public/script.js:132-146 | the gem is returned iff no key occurs in the lower-cased name; otherwise the icon of the first entry, in table order, whose key occurs |
| Client.EarringsContainRing | public/script.js:141-143 | every text containing "earrings" contains "ring", so the earlier "ring" key matches first |
| Client.EarringsEntryNeverChosen | public/script.js:132-146 | the "earrings" entry is never the one selected, for any name |
| Client.EarringsShowRingIcon | public/script.js:132-146 | every name containing "earrings" but not "pendant" gets the ring icon |
| Client.CelestialEarringsShowRingIcon | public/script.js:132-146 | "Celestial Earrings" gets the ring icon although the table lists the circle for earrings |
| Client.IntendedProductIcon | public/script.js:132-146 | with "earrings" checked before "ring", the gem is returned iff no key occurs in the name; otherwise the icon of the first entry whose key occurs |
| Client.IntendedEarringsEntryChosen | public/script.js:132-146 | with the corrected order, an earrings name without "pendant" selects the earrings entry and its circle icon |
| Client.IntendedRingEntryChosen | public/script.js:132-146 | with the corrected order, a ring name that is neither a pendant nor an earrings name keeps the ring icon |
| Client.ApplyFilter | public/script.js:375-384 | "all" returns every product; any other token returns the order-preserving subsequence of products whose lower-cased name contains the token without its last character, each kept as often as it occurs |
| Client.ApplyFilterShows | public/script.js:378-381 | a product whose lower-cased name contains the token without its last character is shown under that filter |
| Client.ApplyFilterCapitalSelectsNothing | public/script.js:380 | a token with a capital letter before its last character selects nothing, because the token is not lower-cased |
| Client.RingsFilterIncludesEarrings | public/script.js:375-384 | the "rings" filter shows "Celestial Earrings", whose category is earrings |
| Client.AuroraJewelry.constructor | public/script.js:3-17 | the cart is the stored one, or empty when the key is absent; the catalogue is empty; the badge shows the count |
| Client.AuroraJewelry.ProductsLoaded | public/script.js:25-30 | a successful fetch replaces the catalogue |
| Client.AuroraJewelry.UpdateCartCount | public/script.js:340-347 | the badge is set to the sum of the quantities |
| Client.AuroraJewelry.SaveCart | public/script.js:349-351 | the stored snapshot becomes the current cart |
| Client.AuroraJewelry.BadgeShown | public/script.js:340-346 | with a current badge and a valid cart, the badge is displayed iff the cart is not empty |
| Client.AuroraJewelry.CardButtonFor | public/script.js:102-105 | when a card is rendered, it gets the disabled "In Cart" button iff some cart entry has the product's id |
| Client.AuroraJewelry.AddToCart | public/script.js:218-237 | the new cart is the added cart. An unknown id changes neither badge nor storage. Otherwise the cart is saved, the badge is current and the product is in the cart. Validity is kept |
| Client.AuroraJewelry.RemoveFromCart | public/script.js:239-244 | the new cart is the old one without the id; it is saved; the badge is current; the id is no longer in the cart; validity is kept |
| Client.AuroraJewelry.UpdateQuantity | public/script.js:246-258 | the new cart is the updated cart. An absent id changes nothing. Otherwise the cart is saved, but the badge is refreshed only when the entry is removed. Validity is kept |
| Client.AuroraJewelry.UpdateQuantityAndCount | public/script.js:246-258 | as UpdateQuantity, with the badge current after every update that finds the entry |
| Client.StaleBadgeWitness | public/script.js:246-258 | a stored cart with one entry of quantity 1, then one "+" click: the badge shows 1 while the cart holds 2 |
| Client.RefreshedBadgeWitness | public/script.js:246-258 | the same clicks with the corrected update: the badge shows 2 and the cart holds 2 |

## Left out

- Rendering is left out: `innerHTML` templates, `style.display`, event listeners, `showPage`, the product modal, `showNotification` and its timers, `updateYear`, the injected CSS and `checkout`'s alert. The badge is modelled as its number (`badge`), and whether it is displayed as `BadgeShown`. `CardButtonFor` is the check made when a card is rendered. Rendered cards are not modelled. The source re-renders the grid only after loading, `addToCart` and `applyFilter`, and the featured cards only after loading. So after `removeFromCart` or `updateQuantity` a grid card can keep a stale "In Cart" button; the model does not capture this.
- `escapeHtml` is not modelled. It relies on the browser's `textContent`/`innerHTML` serialisation, which is not part of this model.
- Local storage and JSON are not modelled. The stored cart is a ghost snapshot (`stored`), and the constructor receives the already-parsed value: `None` stands for an absent key or a falsy JSON value, both of which give `[]`. Malformed JSON, which throws at start-up, is not modelled. Nor are other truthy stored values. A non-array is kept and makes `public/script.js:341` throw at start-up. An array is kept whatever its elements: a `null` element makes `public/script.js:341` throw at start-up, and an element without a numeric `quantity` gives a `NaN` or garbled badge. Neither is modelled.
- The network fetch in `loadProducts` and its error display are not modelled. Only the assignment after a successful fetch is modelled (`ProductsLoaded`).
- `submitContactForm` in the browser script only shows a notification and resets the form, so it is not modelled. The server-side validation is modelled.
- Prices are exact whole cents. JavaScript's floating-point sums and `toFixed(2)` formatting are not modelled.
- `GetProduct` takes the id already parsed to an integer. `parseInt` of the path, and the `NaN` id (which always yields 404), are not modelled.
- `Lower` lower-cases ASCII letters only. JavaScript's `toLowerCase` also maps non-ASCII letters. `IsSpace` is the full `\s` class.
- `Search` takes `q` as an absent or a string value. A repeated `q` (an array, on which `toLowerCase` throws and the error middleware answers 500) is not modelled. `Contact` and `Newsletter` take each body field as absent or a string. Non-string JSON values and their truthiness are not modelled.
- Express setup, CORS, static files, the SPA fallback, the `/api/*` 404 handler, the error middleware, `/api/health` (clock and uptime), `/api` (a constant document), `app.listen` and all logging are left out.
- Cart entries are values. The source updates the entry object found by `find` in place. Cart entries are fresh copies never shared with the catalogue, so a value model loses no aliasing.
- `updateQuantity` is modelled for any integer change. The page only calls it with +1 and −1.
- The `enhancedProducts` literal is unused by the script and is not modelled. `Fixture`, used only in the example lemmas, holds four of the eight records of the server's catalogue (`server.js:16-105`). Their ids, names, prices (in cents) and categories match the source. Their text fields are shortened.

## Findings

| source | as written | input that shows it | evidently intended | confidence | as-written member | corrected member |
|---|---|---|---|---|---|---|
| public/script.js:246-258 | when the quantity stays positive, `updateQuantity` saves the cart but never calls `updateCartCount`, so the badge keeps the old count | a stored cart with one entry of quantity 1, then `updateQuantity(id, 1)`: the badge shows 1, the cart holds 2 | the badge equals the sum of the quantities after every change, as after `addToCart` and `removeFromCart` | high; not executed | Client.StaleBadgeWitness | Client.AuroraJewelry.UpdateQuantityAndCount |
| public/script.js:132-146 | "ring" is tested before "earrings" and occurs in it, so the "earrings" entry can never be chosen and earrings names get the ring icon | "Celestial Earrings" gets `fa-ring` | earrings names get the icon their own entry lists (`fa-circle`) | medium; not executed | Client.CelestialEarringsShowRingIcon | Client.IntendedEarringsEntryChosen |
