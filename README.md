# Candy storefront: a verified model of its shop pages

This project models, in Dafny, the logic of a Next.js storefront's shop pages.
The pages are the following:

- **cart**: totals, quantity changes, removal and the `welcome10` promo code;
- **checkout**: order summary with standard or express shipping and 8% tax;
- **product listing**: category, colour, size and price filters, the sort menu and the active-filter badge;
- **admin product table**: search, category and status filters, column sorting;
- **admin new-product form**: slug generation, the image slots, and the submission that inserts the product, uploads the images and records them;
- **account addresses**: the address list, the add, edit, update and delete dialogs, "Set as Default", and the shipping and billing sections;
- **account orders**: search, status filter and the status label;
- **account wishlist**: add to cart, remove, and the add button's enablement;
- **limited-drops banner**: the countdown, the carousel and two-digit formatting.

Each page's state becomes a class. Its fields are the React state variables, and its methods are the event handlers, with `modifies this`. What the pages compute becomes functions. The properties of those functions are proved as lemmas.

The store is the hosted database and file storage the pages call. Its answers and failures are parameters: the inserted row, a fault flag for each call, the id a new row receives. The clock is also a parameter: the banner receives the launch time minus the current time. Money is `real`. JavaScript's `reduce`, `filter` and the stable `sort` are modelled by `Pricing.Reduce`, `Seqs.Filter` and `Seqs.SortBy`. Case mapping covers ASCII letters.

Modules:

| module | file | models |
|---|---|---|
| `Wrappers` | wrappers.dfy | `Option` for nullable fields and store answers |
| `Text` | text.dfy | `toLowerCase`, `toUpperCase`, `includes`, `startsWith` and decimal rendering of naturals |
| `Seqs` | seqs.dfy | `filter` and a stable comparator sort |
| `Pricing` | pricing.dfy | line items and the subtotal fold |
| `CartPage` | cart.dfy | the cart page |
| `CheckoutPage` | checkout.dfy | the checkout summary |
| `ProductsPage` | products.dfy | the product listing |
| `AdminProducts` | admin_products.dfy | the admin product table |
| `NewProduct` | new_product.dfy | the new-product form and its submission |
| `Addresses` | addresses.dfy | the address book |
| `Orders` | orders.dfy | the order history |
| `Wishlist` | wishlist.dfy | the wishlist |
| `LimitedDrops` | limited_drops.dfy | the limited-drops banner |

Where a reading of the pages could go two ways, the model does what the code does:

- The product-listing badge counts the price filter only when the range is narrowed at either end. A range widened beyond 0–200 is not counted (`app/products/page.tsx:238-242`).
- The checkout charges standard shipping for any method other than `"express"`.
- `Math.floor` in the countdown is Dafny's `/`. For the positive differences it is applied to, the two agree.

## Model

| member | source | states |
|---|---|---|
| Pricing.ReduceIsSum | app/cart/page.tsx:42 | the left fold from any start value adds exactly the sum of price × quantity over the lines |
| Pricing.Subtotal | app/cart/page.tsx:42 | the subtotal is the sum of price × quantity over the lines |
| Pricing.SubtotalOrderIndependent | app/cart/page.tsx:42 | two carts holding the same lines in any order have the same subtotal |
| Pricing.SubtotalNonNegative | app/cart/page.tsx:42 | non-negative prices and positive quantities give a non-negative subtotal |
| CartPage.Shipping | app/cart/page.tsx:43 | shipping is either free or the flat 10, and free exactly when the subtotal is over 100 |
| CartPage.Discount | app/cart/page.tsx:44 | no promo gives no discount; an active promo gives a tenth of the subtotal; for a non-negative subtotal the discount lies between 0 and the subtotal |
| CartPage.Total | app/cart/page.tsx:45 | for a non-negative subtotal the total lies between 0 and the subtotal plus the flat shipping; without a promo it is at least the subtotal |
| CartPage.CartTotals | app/cart/page.tsx:42-45 | the summary's subtotal is the sum of the lines, its shipping and discount follow the subtotal and the promo, and its total is subtotal + shipping − discount |
| CartPage.ShippingThreshold | app/cart/page.tsx:43 | shipping is free exactly when the subtotal is over 100, and 10 otherwise; exactly 100 still pays 10 |
| CartPage.TotalsWellBehaved | app/cart/page.tsx:42-45 | total = subtotal + shipping − discount and is non-negative; the discount lies between 0 and a tenth of the subtotal, is 0 exactly when no promo is active or the cart is empty, and an active promo lowers the total by a tenth of the subtotal |
| CartPage.SetQuantity | app/cart/page.tsx:50 | same length; lines with the id get the new quantity and keep everything else; other lines are unchanged |
| CartPage.SetQuantityKeepsIds | app/cart/page.tsx:50 | the ids are kept position by position, so distinct ids stay distinct |
| CartPage.RemoveId | app/cart/page.tsx:54 | a line remains iff it was in the cart and has another id |
| CartPage.RemoveIdSpec | app/cart/page.tsx:54 | removal keeps the other lines in order, and a line survives iff it was there and has another id |
| CartPage.RemoveIdHasId | app/cart/page.tsx:54 | after removal an id is present iff it was present and differs from the removed one |
| CartPage.RemoveIdCount | app/cart/page.tsx:54 | with distinct ids, removal shortens the cart by one iff the id was present |
| CartPage.PromoAccepted | app/cart/page.tsx:63 | a code is accepted iff it has nine characters that lower-case to "welcome10" one by one |
| CartPage.PromoExamples | app/cart/page.tsx:63 | "welcome10", "WELCOME10" and "Welcome10" are accepted; "welcome", "welcome10 " and "" are not |
| CartPage.SampleCartTotals | app/cart/page.tsx:14-45 | the sample cart (85 × 1, 95 × 2) gives subtotal 275, free shipping and total 275; with the promo the discount is 27.5 and the total 247.5 |
| CartPage.Cart.constructor | app/cart/page.tsx:36-38 | the cart starts with the sample lines, an empty promo field and no promo |
| CartPage.Cart.UpdateQuantity | app/cart/page.tsx:47-51 | a quantity below 1 changes nothing; otherwise the lines become SetQuantity of the old lines; the promo state is unchanged and the cart invariant (well-formed lines, distinct ids) is kept |
| CartPage.Cart.RemoveItem | app/cart/page.tsx:53-54 | the lines become RemoveId of the old lines, one line shorter iff the id was present; the invariant is kept |
| CartPage.Cart.EditPromoCode | app/cart/page.tsx:202 | the promo field changes only while no promo is active |
| CartPage.Cart.ApplyPromoCode | app/cart/page.tsx:62-76 | disabled while a promo is active or the field is empty; otherwise accepted iff the lower-cased code is "welcome10", and only then does the promo become active; an active promo never switches off |
| CheckoutPage.Shipping | app/checkout/page.tsx:62 | express costs 15; otherwise shipping is 0 or 10, and 0 exactly when the subtotal is over 100 |
| CheckoutPage.Tax | app/checkout/page.tsx:63 | the tax is 8% of the subtotal, and for a non-negative subtotal lies between 0 and the subtotal |
| CheckoutPage.OrderSummary | app/checkout/page.tsx:61-64 | the summary's subtotal is the sum of the lines, its shipping follows the method and the subtotal, its tax is 8% of the subtotal, and its total is their sum |
| CheckoutPage.OrderSummaryFigures | app/checkout/page.tsx:61-64 | subtotal is the sum; shipping is 15 for express and otherwise 0 over 100 or 10; tax is 8% of the subtotal; the total is their sum and non-negative for well-formed lines |
| CheckoutPage.StandardLabelFree | app/checkout/page.tsx:190 | the standard option reads "Free" exactly when standard shipping costs 0 |
| CheckoutPage.CheckoutVersusCart | app/checkout/page.tsx:62-64 | standard checkout shipping equals the cart page's shipping for the same lines, and the standard checkout total is the undiscounted cart total plus tax |
| CheckoutPage.SampleOrderSummary | app/checkout/page.tsx:17-64 | the sample order: standard 275/0/22/297, express 275/15/22/312 |
| CheckoutPage.ExpressExample | app/checkout/page.tsx:61-64 | a 180 subtotal with express shipping gives 15 shipping, 14.4 tax, 209.4 total |
| ProductsPage.Toggle | app/products/page.tsx:158-165 | a value is in the result iff it was not in the list; every other value is kept, and no value but the toggled one is added |
| ProductsPage.ToggleSpec | app/products/page.tsx:158-165 | toggling removes every copy of a present value and appends an absent one; other values keep their order |
| ProductsPage.ToggleTwice | app/products/page.tsx:158-174 | toggling the same value twice restores a list that did not contain it |
| ProductsPage.FilteredProducts | app/products/page.tsx:193-220 | a product is shown iff it is listed and passes the category, colour, size and price filters |
| ProductsPage.FilteredProductsSpec | app/products/page.tsx:193-220 | the shown products keep their order, and a product is shown iff it is listed and passes all four filters |
| ProductsPage.DefaultFiltersKeep | app/products/page.tsx:183-220 | with the cleared filters every product priced within 0–200 is shown |
| ProductsPage.ProductComparator | app/products/page.tsx:223-235 | "price-asc" ranks a before b exactly when a is not dearer; "price-desc" when a is not cheaper; "featured" and unknown options rank everything equal |
| ProductsPage.SortedProducts | app/products/page.tsx:223-235 | the sorted list holds the filtered products, each as often as before |
| ProductsPage.SortedProductsSpec | app/products/page.tsx:223-235 | the sorted list is a permutation of the filtered one; it is ascending in price for "price-asc", descending for "price-desc", and in filtered order for "featured" and any unknown option |
| ProductsPage.ActiveFilterCount | app/products/page.tsx:238-242 | the badge counts every colour and size plus at most two more (category, narrowed range), and shows 0 iff the category is "All", no colour or size is chosen and the range reaches 0 and 200; a range widened beyond them is not counted |
| ProductsPage.ActiveFilterCountExamples | app/products/page.tsx:238-242 | the cleared filters and a widened range give 0; lowering the upper bound gives 1; one colour and one size give 2; a category together with a lowered upper bound gives 2 |
| ProductsPage.ActiveFilterCountTerms | app/products/page.tsx:238-242 | with no category and the full [0, 200] range the count is exactly the number of colours plus sizes; a category other than "All" adds exactly one over the same filters without it; a range narrowed at either end adds exactly one over the same filters with [0, 200] |
| ProductsPage.Catalogue.constructor | app/products/page.tsx:137-145 | the page starts with the cleared filters and "featured" order |
| ProductsPage.Catalogue.HandleCategoryChange | app/products/page.tsx:151-156 | only the category filter changes |
| ProductsPage.Catalogue.HandleColorToggle | app/products/page.tsx:158-165 | only the colour list changes, to its toggle |
| ProductsPage.Catalogue.HandleSizeToggle | app/products/page.tsx:167-174 | only the size list changes, to its toggle |
| ProductsPage.Catalogue.HandlePriceChange | app/products/page.tsx:176-181 | only the price range changes |
| ProductsPage.Catalogue.ClearFilters | app/products/page.tsx:183-190 | all four filters return to their defaults; the sort order stays |
| ProductsPage.Catalogue.SetSortBy | app/products/page.tsx:145 | only the sort order changes |
| AdminProducts.NextSortSpec | app/admin/products/page.tsx:133-140 | clicking the sorted column twice restores the sort state; clicking another column sorts it ascending |
| AdminProducts.NextSort | app/admin/products/page.tsx:133-140 | the clicked column becomes the sort column; its direction flips if it was already sorted, and is ascending otherwise |
| AdminProducts.MatchesSearch | app/admin/products/page.tsx:146 | a product matches iff the lower-cased query occurs at some position of the lower-cased name; an empty query matches every product |
| AdminProducts.MatchesCategory | app/admin/products/page.tsx:149 | "all" matches every product; any other filter matches exactly that category |
| AdminProducts.MatchesStatus | app/admin/products/page.tsx:152 | "all" matches every product; any other filter matches iff it occurs, ignoring case, at some position of the status |
| AdminProducts.AdminComparator | app/admin/products/page.tsx:156-166 | price and stock compare by that field, ascending or descending; name compares by the given `localeCompare`, either way round; an unknown column ranks everything equal |
| AdminProducts.AdminView | app/admin/products/page.tsx:143-166 | the rows are the kept products, each as often as in the filtered list |
| AdminProducts.AdminViewRows | app/admin/products/page.tsx:143-166 | the table is a permutation of the kept products, and a product is kept iff it matches the search, category and status filters |
| AdminProducts.AdminViewNumericOrder | app/admin/products/page.tsx:156-166 | sorting by price or inventory orders the rows by that field in the chosen direction |
| AdminProducts.AdminViewOtherOrder | app/admin/products/page.tsx:156-166 | sorting by name in either direction orders the rows by the given `localeCompare` whenever that is a consistent comparison; an unknown column keeps the filtered order |
| AdminProducts.FilterExamples | app/admin/products/page.tsx:146-152 | an empty search matches every name; the status filter matches inside the status ignoring case, so "low" finds "Low Stock" and "out" finds "Out of Stock", while "low" does not find "Active" |
| AdminProducts.ProductTable.constructor | app/admin/products/page.tsx:101-102 | the table starts sorted by name ascending |
| AdminProducts.ProductTable.HandleSort | app/admin/products/page.tsx:133-140 | the sort state becomes NextSort of the old one |
| NewProduct.ReplaceRuns | app/admin/products/new/page.tsx:91-92 | the result is empty iff the input is; it starts with a hyphen when the input starts in a run and otherwise with the input's first character; it is never longer than the input |
| NewProduct.ReplaceRunsSplit | app/admin/products/new/page.tsx:91-92 | a character outside the runs splits the replacement: the parts on either side are replaced independently and the character is copied between them |
| NewProduct.ReplaceRunsAllRun | app/admin/products/new/page.tsx:91-92 | a non-empty run, however long, becomes a single hyphen |
| NewProduct.ReplaceRunsPrefixNone | app/admin/products/new/page.tsx:91-92 | characters outside the runs at the front are copied unchanged |
| NewProduct.ReplaceRunsRunPrefix | app/admin/products/new/page.tsx:91-92 | a whole run at the front becomes one hyphen before the replacement of the rest |
| NewProduct.StripDisallowed | app/admin/products/new/page.tsx:89 | the result is a subsequence of the input; each word character, whitespace character and hyphen occurs in it as often as in the input, and no other character occurs |
| NewProduct.Trim | app/admin/products/new/page.tsx:93 | the result is a contiguous piece of the input, everything before and after it is whitespace, and it neither starts nor ends with whitespace |
| NewProduct.GenerateSlug | app/admin/products/new/page.tsx:86-94 | the slug is never longer than the name |
| NewProduct.SlugWordChars | app/admin/products/new/page.tsx:86-94 | the slug holds exactly the letters, digits and underscores of the lower-cased name, in their order |
| NewProduct.SlugTwoWords | app/admin/products/new/page.tsx:86-94 | two words separated by any run of whitespace give the lower-cased words joined by one hyphen |
| NewProduct.ReplaceRunsNoDoubleHyphen | app/admin/products/new/page.tsx:91-92 | after collapsing runs of hyphens no two hyphens are adjacent |
| NewProduct.ReplaceRunsSingleHyphens | app/admin/products/new/page.tsx:92 | collapsing hyphen runs leaves a string without double hyphens unchanged |
| NewProduct.SlugShape | app/admin/products/new/page.tsx:87-94 | a slug holds only lower-case letters, digits, `_` and `-`, never two hyphens in a row |
| NewProduct.SlugIdempotent | app/admin/products/new/page.tsx:87-94 | the slug of a slug is the slug |
| NewProduct.SlugKeepsEdgeHyphens | app/admin/products/new/page.tsx:90-93 | trimming runs before the spaces become hyphens, so " A " gives "-a-" |
| NewProduct.ProductEditor.constructor | app/admin/products/new/page.tsx:27-48 | the form starts with its default values and one empty image slot |
| NewProduct.ProductEditor.HandleNameChange | app/admin/products/new/page.tsx:96-103 | the name and the slug of the name are set together; nothing else changes |
| NewProduct.ProductEditor.HandleImageChange | app/admin/products/new/page.tsx:120-131 | only the chosen slot's file and preview change, and only when a file is given |
| NewProduct.ProductEditor.HandleImageAltChange | app/admin/products/new/page.tsx:133-140 | only the chosen slot's alt text changes |
| NewProduct.ProductEditor.AddImageField | app/admin/products/new/page.tsx:142-144 | one empty slot is appended |
| NewProduct.ProductEditor.RemoveImageField | app/admin/products/new/page.tsx:146-155 | the last remaining slot is never removed; otherwise the slot at the index is removed |
| NewProduct.Ext | app/admin/products/new/page.tsx:204 | the extension has no dot |
| NewProduct.ExtIsLastPart | app/admin/products/new/page.tsx:204 | the extension is the text after the last dot, or the whole name when there is none |
| NewProduct.ImagePath | app/admin/products/new/page.tsx:204-206 | the path starts with "product-images/" and ends with a dot and the file's extension |
| NewProduct.HasRequired | app/admin/products/new/page.tsx:165 | the form fails the check iff its name or its price is empty |
| NewProduct.RecordFor | app/admin/products/new/page.tsx:227-232 | the record carries the product id, the image's path and its position; its alt text is the image's when there is one, and is empty only when both the alt text and the product name are |
| NewProduct.ImagePathsDistinct | app/admin/products/new/page.tsx:205-206 | two images of one product at different positions get different storage paths |
| NewProduct.PlannedAt | app/admin/products/new/page.tsx:199-236 | the i-th chosen image has a file; its planned upload path is built from the product id, i and the file's extension, and its record carries that path, the alt text or else the product name, and position i |
| NewProduct.PlanConsistent | app/admin/products/new/page.tsx:202-236 | the planned paths are pairwise distinct, and each record names its own upload's path and position |
| NewProduct.UploadImages | app/admin/products/new/page.tsx:199-236 | uploads and records are prefixes of the planned ones, in order, with no record before its upload; all of them go through exactly when no upload or record call fails, and otherwise the loop stops at the failing image |
| NewProduct.Submit | app/admin/products/new/page.tsx:157-237 | missing required fields stop it before any write; a failed insert writes nothing; otherwise uploads and records are prefixes of the plan, all of it when nothing fails, and stop at the first failure, with the product row left in place |
| Orders.FilteredOrdersSpec | app/account/orders/page.tsx:72-80 | the shown orders keep their order, and an order is shown iff it matches the search and the status filter |
| Orders.NoFilterShowsAll | app/account/orders/page.tsx:72-80 | an empty search with status "all" shows every order |
| Orders.SearchIgnoresCase | app/account/orders/page.tsx:73-75 | the search is insensitive to the case of the query |
| Orders.StatusFilterExact | app/account/orders/page.tsx:77 | a non-"all" filter keeps exactly the orders whose status equals it up to case |
| Orders.MatchesSearch | app/account/orders/page.tsx:73-75 | an order matches iff the lower-cased query occurs at some position of its lower-cased number or of the lower-cased name of one of its items; an empty query matches every order |
| Orders.MatchesStatus | app/account/orders/page.tsx:77 | "all" matches every order, as does a status equal to the filter up to case; any other match has the filter's length |
| Orders.FilteredOrders | app/account/orders/page.tsx:72-80 | an order is shown iff it is in the list and matches the search and the status filter |
| Orders.StatusLabel | app/account/orders/page.tsx:177 | the label has the status's length; its first character is the status's first character upper-cased, and the rest is unchanged |
| Orders.StatusLabelSameLetters | app/account/orders/page.tsx:177 | label and status are equal once lower-cased |
| Orders.StatusLabelIdempotent | app/account/orders/page.tsx:177 | labelling a label changes nothing |
| Orders.StatusLabelExamples | app/account/orders/page.tsx:177 | "delivered" reads "Delivered", "processing" reads "Processing" |
| Wishlist.MatchingIds | app/account/wishlist/page.tsx:111-116 | the ids are exactly the rows of that customer and product |
| Wishlist.AddToCart | app/account/wishlist/page.tsx:106-146 | a failed or ambiguous lookup changes nothing; one row gets one more unit; no row gets a new row of quantity 1; a failed update or insert changes nothing; one row per product is preserved |
| Wishlist.AddedRaisesQuantity | app/account/wishlist/page.tsx:122-146 | a successful add leaves exactly one row for the product, holding one more unit than before |
| Wishlist.CanAddIffActiveInStock | app/account/wishlist/page.tsx:222-234 | the add button is enabled iff the product is active and shows "In Stock" |
| Wishlist.CanAddToCart | app/account/wishlist/page.tsx:234 | an enabled add button means the product is in stock, and an inactive product never enables it |
| Wishlist.WithoutItemSpec | app/account/wishlist/page.tsx:90 | removal keeps the other items in order and drops exactly those with the id; every other item occurs as often as before and no item with the id remains (multiset counts) |
| Wishlist.WithoutAbsentItem | app/account/wishlist/page.tsx:90 | removing an id that is not listed changes nothing |
| Wishlist.WithoutItem | app/account/wishlist/page.tsx:90 | an item remains iff it was listed and has another id |
| Wishlist.WishlistPage.constructor | app/account/wishlist/page.tsx:19 | the page starts with no items |
| Wishlist.WishlistPage.LoadWishlist | app/account/wishlist/page.tsx:29-61 | a failed load keeps the list; otherwise the list is the answer, or empty when it is null |
| Wishlist.WishlistPage.RemoveFromWishlist | app/account/wishlist/page.tsx:79-90 | the list changes, to WithoutItem, only when the store's delete succeeded |
| Addresses.TypeOrShipping | app/account/addresses/page.tsx:189 | a missing or empty type reads "shipping", any other type is kept |
| Addresses.Prefill | app/account/addresses/page.tsx:179-190 | each field is the address's value or "" when it is null; default is true only for a stored true |
| Addresses.PrefillBlank | app/account/addresses/page.tsx:179-190 | an address with every field null fills the empty form |
| Addresses.PrefillComplete | app/account/addresses/page.tsx:179-190 | an address built from a form with a non-empty type fills that same form |
| Addresses.ReplaceById | app/account/addresses/page.tsx:226 | the address with the id is replaced by the updated row; others stay in place |
| Addresses.ReplaceKeepsIds | app/account/addresses/page.tsx:226 | ids are kept position by position when the update carries the same id, so distinct ids stay distinct |
| Addresses.RemoveByIdSpec | app/account/addresses/page.tsx:262 | deletion keeps the others in order and drops exactly the rows with that id; every other row occurs as often as before and no row with the id remains (multiset counts) |
| Addresses.RemoveKeepsDistinct | app/account/addresses/page.tsx:262 | deletion keeps the ids distinct |
| Addresses.RemoveById | app/account/addresses/page.tsx:262 | an address remains iff it was listed and has another id |
| Addresses.LocalSetDefault | app/account/addresses/page.tsx:303-308 | every address's default flag becomes "is the chosen id with the chosen type" |
| Addresses.LocalSetDefaultSingle | app/account/addresses/page.tsx:303-308 | with distinct ids the local list then has at most one default, and it is the chosen one |
| Addresses.Section | app/account/addresses/page.tsx:531 | a section holds exactly the listed addresses of its type |
| Addresses.SectionsDisjoint | app/account/addresses/page.tsx:531 | no address is in both the shipping and the billing sections; an address of another type is in neither |
| Addresses.SectionsCover | app/account/addresses/page.tsx:584 | when every type is shipping or billing, the two sections together hold exactly the list |
| Addresses.ClearDefaultsScope | app/account/addresses/page.tsx:289-293 | the store clears the default flag of the customer's rows of that type only, and touches no other field |
| Addresses.ClearDefaults | app/account/addresses/page.tsx:289-293 | the customer's rows of that type lose their default flag; other rows are unchanged, and no other field changes |
| Addresses.MarkDefault | app/account/addresses/page.tsx:296 | the rows with the id become default; other rows are unchanged, and no other field changes |
| Addresses.MarkDefaultScope | app/account/addresses/page.tsx:296 | the marking touches only the rows with the id, and only their default flag |
| Addresses.StoreSetDefault | app/account/addresses/page.tsx:288-296 | the chosen row becomes default, the customer's other rows of that type stop being default, and nothing else changes |
| Addresses.LocalSetDefaultDiverges | app/account/addresses/page.tsx:288-308 | the page and the store disagree after a shipping default is set beside a billing default |
| Addresses.ScopedSetDefaultMatchesStore | app/account/addresses/page.tsx:288-296 | updating only the chosen type locally gives exactly the store's rows |
| Addresses.ScopedSetDefaultSpec | app/account/addresses/page.tsx:288-296 | the scoped update leaves the other type alone and gives the chosen type exactly the chosen default |
| Addresses.ScopedSetDefault | app/account/addresses/page.tsx:303-308 | addresses of the other types are unchanged; among the chosen type, an address becomes default iff it has the chosen id; no other field changes |
| Addresses.AddressBook.constructor | app/account/addresses/page.tsx:31-51 | the book starts with no addresses, the empty form and nothing being edited |
| Addresses.AddressBook.LoadAddresses | app/account/addresses/page.tsx:67-78 | a failed load changes nothing and keeps the invariant as it was; otherwise the list is the answer, or empty when it is null, and an answer with distinct ids gives a valid book |
| Addresses.AddressBook.ResetAddressForm | app/account/addresses/page.tsx:96-109 | only the form changes, to the empty form |
| Addresses.AddressBook.HandleEditAddress | app/account/addresses/page.tsx:177-192 | the address becomes the one being edited and the form is filled from it |
| Addresses.AddressBook.HandleAddAddress | app/account/addresses/page.tsx:124-175 | a successful insert puts the new row first and resets the form; a failed one changes nothing; distinct ids are kept for a new id |
| Addresses.AddressBook.HandleUpdateAddress | app/account/addresses/page.tsx:194-247 | with an address being edited and a successful update, the row is replaced, the form reset and editing cleared; otherwise nothing changes |
| Addresses.AddressBook.HandleDeleteAddress | app/account/addresses/page.tsx:249-280 | a successful delete removes the edited address and clears editing; otherwise nothing changes |
| Addresses.AddressBook.HandleSetDefault | app/account/addresses/page.tsx:284-308 | after a successful update the list is LocalSetDefault of the old one, as the page does it; ids stay distinct |
| LimitedDrops.Countdown | components/limited-drops.tsx:51-60 | a past launch shows all zeros; otherwise days are non-negative and hours, minutes, seconds within their ranges |
| LimitedDrops.CountdownReconstructs | components/limited-drops.tsx:57-60 | the four components add back up to the difference less its milliseconds |
| LimitedDrops.NextIndex | components/limited-drops.tsx:71 | the next index is in range: the following drop, or the first after the last |
| LimitedDrops.AdvanceIsModular | components/limited-drops.tsx:71 | n carousel steps from a valid index land on (start + n) mod the number of drops |
| LimitedDrops.AdvanceFullCycle | components/limited-drops.tsx:71 | after as many steps as there are drops the carousel is back where it started |
| LimitedDrops.Advance | components/limited-drops.tsx:70-72 | no steps stay at the start; after at least one step, or from a valid start, the index is valid |
| LimitedDrops.FormatNumber | components/limited-drops.tsx:77-79 | a single digit gets a leading "0"; other numbers are shown in decimal |
| LimitedDrops.FormatNumberTwoDigits | components/limited-drops.tsx:77-79 | numbers below 100 are shown as exactly two digits |
| LimitedDrops.Banner.constructor | components/limited-drops.tsx:35-42 | the banner starts at zeros on the first drop |
| LimitedDrops.Banner.Tick | components/limited-drops.tsx:46-62 | the countdown becomes Countdown of the difference; the drop shown stays |
| LimitedDrops.Banner.Rotate | components/limited-drops.tsx:70-72 | the index becomes NextIndex of the old one and stays valid |
| LimitedDrops.Banner.Select | components/limited-drops.tsx:184 | clicking a dot shows that drop |
| Text.ToLowerIdempotent | app/cart/page.tsx:63 | lower-casing twice is lower-casing once |
| Text.ContainsIff | app/admin/products/page.tsx:146 | `includes` holds iff the text occurs at some position |
| Text.NatToStringInjective | app/admin/products/new/page.tsx:206 | different numbers render differently |
| Seqs.Filter | app/cart/page.tsx:54 | the result is no longer than the input, holds only passing elements of it, and holds every passing element |
| Seqs.FilterIsSubseq | app/products/page.tsx:193 | the result keeps the input's order |
| Seqs.SortByPermutation | app/products/page.tsx:223 | sorting rearranges without adding or dropping |
| Seqs.SortByOrdered | app/products/page.tsx:223 | with a consistent comparator the result is ordered |
| Seqs.SortByNeutral | app/products/page.tsx:231 | a comparator that ranks everything equal keeps the order, as a stable sort does |

## Left out

- Store calls, authentication, redirects, toasts, dialog visibility and the `isSubmitting`/`isLoading` flags are not modelled. Each store call's answer and failure is a parameter.
- React's asynchronous updates are not modelled. Each handler runs to completion against the state it reads, with no interleaving and no stale closures.
- Floating point is not modelled. Money is exact `real`, so rounding in sums, `toFixed` and display formatting are not captured.
- The form-to-row conversion is not modelled: `parseFloat` and `parseInt` in the new-product submission (app/admin/products/new/page.tsx:176-185). The model takes the form as given.
- Generic field handlers are not modelled: `handleInputChange`, `handleSwitchChange`, `handleCheckboxChange`, `handleAddressTypeChange` and the checkout form fields. Each sets one field and computes nothing.
- Non-ASCII case mapping is not modelled: `Text.ToLower` and `Text.UpperChar` map ASCII letters only. JavaScript also maps other scripts and special cases such as the Kelvin sign.
- AdminProducts.AdminViewOtherOrder assumes `localeCompare`, which is a parameter, is a consistent comparison. The collation it implements is not modelled.
- ProductsPage.SortedProductsSpec states no order for "newest". That comparator returns -1 whenever the first product is new, even when both are, so it is not a consistent order, and the resulting arrangement depends on the sort algorithm. The model uses a stable insertion sort, not the engine's sort.
- Image previews are not modelled: object URLs are inputs, and the public URL of an uploaded image stands as its storage path. The category list fetch and the `updated_at` timestamps are not modelled either.
- NewProduct.Submit takes the inserted product's id as an input rather than reading it from the store. It models a fault as the first call that fails, and it does not model retries.
- LimitedDrops.Banner.Tick takes the millisecond difference as an input rather than reading `Date`. Timers and their clean-up are not modelled.
- CartPage.Cart.Summary has no contract of its own; its figures are stated by CartPage.TotalsWellBehaved.

## Findings

| source | as written | input that shows it | evidently intended | confidence | as-written member | corrected member |
|---|---|---|---|---|---|---|
| app/account/addresses/page.tsx:303-308 | after "Set as Default" the page marks every address that is not the chosen one as not default, billing and shipping alike, while the store (lines 289-296) clears only addresses of the chosen type | shipping address 1 (not default) and billing address 2 (default); set address 1 as the shipping default: the page shows no billing default, the store still has address 2 as default | only addresses of the chosen type change on the page, matching the store | medium, not executed | Addresses.LocalSetDefaultDiverges | Addresses.ScopedSetDefaultMatchesStore |

`Addresses.AddressBook.HandleSetDefault` keeps the page's behaviour as written. `Addresses.ScopedSetDefault` is the corrected update. `Addresses.ScopedSetDefaultMatchesStore` proves it agrees with the store, and `Addresses.ScopedSetDefaultSpec` states its effect.
