# electrokomponents storefront core in Dafny

This project models the decision rules and state updates of an Express/Sequelize
electronic-components storefront, and proves properties about them. The model holds the
database tables as in-memory sequences, maps and sets, and the session as fields of a
class. Prices are integer kuruş.

What is modelled:

- **Cart** (`Cart`, `Store`):
  - The guest cart is a list kept in the session. The logged-in cart is rows of the
    `sepet` table keyed by user and product.
  - Both support add or increment, set quantity, and remove.
  - The subtotal is a loop over the lines. The favourite toggle is a set flip.
  - At login the guest cart is merged into the user's rows. `Store.Shop` holds all of
    this state and changes it in place with methods.
- **Login, registration and password reset** (`Auth`), as pure decisions.
  - The bcrypt comparison is a function parameter `passwordMatches`.
  - The `isEmail` / `isMobilePhone` validators are boolean parameters.
- **Order number** (`OrderNumber`): `EK` + YY + MM + DD + a 4-digit random part, and its
  decoding by fixed slicing. **Order record** (`Orders`): the two status ENUMs, the
  creation defaults, and the admin status update.
- **Catalog** (`Catalog`):
  - the `whereConditions` of the category listing, the product API, search and
    autocomplete, as predicates over a product;
  - the `order` choices as comparators, and the database's ORDER BY as an insertion sort;
  - pagination (`Pagination`);
  - the product page's view counter and the similar-products rule.
- **Access guards** (`Guards`): `isAuthenticated`, `isGuest`, `isAdmin` and `loadUser`, as
  `Next | Redirect(path)` decisions.
- **Uploads** (`Upload`):
  - the destination directory chosen from URL keywords;
  - `path.extname`, the stored file names, the image and PDF filters, and the size and
    count limits.
- **Settings** (`Settings`):
  - `Setting.getValue`'s typed decoding;
  - `Setting.setValue`'s find-or-create, with the class `SettingsTable` doing the upsert
    in place.
- **Admin back office** (`AdminForms`, `Admin`):
  - the form-to-record defaults for products, categories, brands and sliders;
  - the image `sira_no` numbering on create and on edit;
  - the attribute and price-tier row loops, including how they throw;
  - the admin product and order lists. The class `Admin.Backoffice` holds the product,
    image, attribute and tier tables.

Clocks and randomness are parameters: `Date.now()`, `Math.random()`, the order date and
the database-assigned ids. So are JSON parse and stringify.

## Model

| member | source | states |
|---|---|---|
| Cart.GuestAddEffect | routes/api.js:238-255 | Guest add raises the quantity of the added product by the amount and leaves every other product's quantity unchanged. Lines of other products stay where they were. A new product appends exactly one line at the end; an existing one keeps the length. One line per product is preserved. |
| Cart.AddTwiceOneLine | routes/api.js:238-255 | Adding the same product twice to an empty guest cart gives one line with the summed quantity and the first price snapshot. |
| Cart.GuestSetQtyEffect | routes/api.js:280-283 | Setting a quantity keeps the length, the products and the snapshots. It changes only the matching line, which then holds the new quantity. With no matching line the cart is unchanged. |
| Cart.QtyOfFilter | routes/api.js:303-305 | After removal the removed product has quantity 0, and every other product keeps its quantity. |
| Cart.FilterKeepsOneLinePerProduct | routes/api.js:303-305 | Removal preserves one line per product. |
| Cart.GuestRemoveEffect | routes/api.js:298-308 | With integer ids, the remaining lines are exactly the old lines of other products. Quantities agree with QtyOfFilter. Removal is idempotent, distributes over concatenation (so order is kept), and keeps one line per product. |
| Cart.SubtotalDefined | routes/api.js:176-180 | The subtotal is defined iff every line has a price. A row whose product no longer exists makes it NaN. |
| Cart.GuestItems | routes/api.js:172-179 | Each guest line is priced by the snapshot taken when it was added, one item per line. |
| Cart.GuestSubtotal | routes/api.js:176-180 | The guest subtotal is the sum of snapshot price × quantity over the lines. |
| Cart.UserSetQty | routes/api.js:275-278 | `Cart.update` sets the quantity of every row matching (user, product) and leaves all other rows as they were. |
| Cart.UserAddEffect | routes/api.js:218-231 | A logged-in add raises (user, product)'s quantity by the amount and leaves every other pair unchanged. One row per pair is preserved. |
| Cart.MergeEffect | routes/auth.js:90-107 | After the merge, each product's quantity for the user is their old quantity (0 if absent) plus the guest quantity. Other users are untouched, and one row per pair is preserved. |
| Cart.UserSetQtyEffect | routes/api.js:275-278 | Only the (user, product) quantity changes: it becomes the new quantity if a row existed and stays 0 otherwise. One row per pair is preserved. |
| Cart.SetQtySum | routes/api.js:275-278 | Setting a quantity does not change the summed quantity of any other (user, product) pair. |
| Cart.UserRemoveEffect | routes/api.js:299-301 | Destroy sets (user, product)'s quantity to 0 and leaves every other pair unchanged. |
| Cart.UserRemoveKeepsOneRow | routes/api.js:299-301 | Destroy preserves one row per (user, product). |
| Cart.UserItemsAreRows | routes/api.js:162-179 | The user's cart has one item per `sepet` row of that user, in table order. Each item holds that row's quantity and the live price of its product, or no price if the product is gone. |
| Cart.UserSubtotal | routes/api.js:176-180 | When every product of the user's rows exists, the subtotal is Σ live price × quantity over that user's rows. Other users' rows add nothing. |
| Cart.Toggle | routes/api.js:324-332 | `isFavorite` is true iff the pair was absent before. The pair is then present iff `isFavorite`, and no other pair changes. |
| Cart.ToggleTwice | routes/api.js:324-332 | Toggling twice restores the original favourites. |
| Cart.RemoveAsWrittenKeepsStringIds | routes/api.js:303-305 | As written, `!==` against `parseInt(param)` keeps every line whose stored id is a string. |
| Cart.RemoveAsWrittenExample | routes/api.js:303-305 | A line added by the UI with id "5" survives removal of "5" as written. The corrected removal empties the cart. |
| Cart.SetQtyAsWrittenKeepsStringIds | routes/api.js:280-283 | As written, `===` between a stored string id and the number the quantity buttons send matches no line, so the cart is unchanged. |
| Cart.SetQtyAsWrittenExample | routes/api.js:280-283 | "+" on a line added by the UI as "5" sends `urun_id: 5`, and the quantity stays 1 as written. The corrected update sets it to 2. |
| Store.FindLine | routes/api.js:238 | The `findIndex` loop returns the first guest line of the product, or -1. |
| Store.FindRow | routes/api.js:218-220 | The lookup loop returns the first row of (user, product), or -1. |
| Store.FindActiveProduct | routes/api.js:202-209 | The lookup loop returns the first product with that id and `durum = 1`, or -1. |
| Store.RemoveLines | routes/api.js:303-305 | The filter loop computes the guest removal. |
| Store.DestroyRows | routes/api.js:299-301 | The loop computes the user-row removal. |
| Store.UpdateRows | routes/api.js:275-278 | The loop computes the user-row quantity update. |
| Store.SumSubtotal | routes/api.js:176-180 | The accumulator loop computes the subtotal. It becomes undefined once an unpriced line is met. |
| Store.MergeRows | routes/auth.js:91-106 | The upsert loop computes the guest-to-user merge. |
| Store.Shop.constructor | routes/api.js:234-236 | A fresh session has no user, no guest cart, no `returnTo` and no cookie age, over empty cart rows and favourites. |
| Store.Shop.Add | routes/api.js:197-263 | The quantity defaults to 1. A missing or inactive product gives 404, and stock below the requested amount (not the cart total) gives 400; both leave the carts unchanged. Otherwise, for a user, the rows become UserAdd, and for a guest, the session cart becomes GuestAdd with the product's snapshot. It is created empty first if absent. Nothing else changes. |
| Store.Shop.Update | routes/api.js:266-291 | A quantity below 1 is refused with no change. Otherwise the user's rows become UserSetQty, or the guest cart becomes GuestSetQty (an absent cart stays absent). Success is reported even if nothing matched. |
| Store.Shop.Remove | routes/api.js:294-313 | Remove always reports success. User rows become UserRemove; the guest cart becomes GuestRemove, or stays absent. |
| Store.Shop.GetCart | routes/api.js:156-194 | The items are the user's rows priced by the live product, or the guest lines priced by snapshot. The subtotal is their Subtotal. `adet` is the number of lines, not the summed quantity. A guest subtotal is always defined. |
| Store.Shop.ToggleFavorite | routes/api.js:319-337 | Without a user nothing changes. With a user the favourites become Toggle's set and the answer is Toggle's flag. |
| Store.Shop.Login | routes/auth.js:24-125 | A logged-in session is turned away. A refused login changes nothing and shows DecideLogin's outcome. A successful one sets the session user and the 30-day cookie when asked, merges a non-empty guest cart into the rows and deletes it, redirects to RedirectAfterLogin and clears `returnTo`. |
| Store.Shop.Logout | routes/auth.js:212-219 | Without a user it redirects to the login page with no change. Otherwise the session is destroyed (user, guest cart, `returnTo`, cookie cleared) and it redirects to `/`. Cart rows and favourites stay. |
| Auth.LoginRules | routes/auth.js:44-83 | Login succeeds iff the email is valid, a password was given, the account exists, is active, and the password matches. Then the session user is that account. Disabled is reported iff the account exists but is inactive. An unknown email and a wrong password give the same generic error. |
| Auth.RedirectAfterLogin | routes/auth.js:113-116 | Redirect to the stored `returnTo` when it is non-empty, else to `/`. |
| Auth.ValidationErrors | routes/auth.js:139-150 | An error is listed iff its rule is violated. The errors come in the order the validators are declared, so none is listed twice. |
| Auth.NoErrorsIff | routes/auth.js:139-150 | No errors iff ad and soyad are 2-100 characters after trimming, the email is valid, a given phone is valid, the password has at least 6 characters, the confirmation matches and kvkk is "on". |
| Auth.RegisterAcceptance | routes/auth.js:138-206 | Registration succeeds iff every field rule holds, the email is not taken and the membership is "bireysel" or "kurumsal" in any letter case. A valid form with a free email and any other membership fails at `User.create` (the catch branch). "Email taken" implies some account has that email. |
| Auth.MembershipEnum | models/User.js:43-46 | The stored membership is the ENUM value the given one matches, ignoring case. `None` (the insert fails) iff it matches neither value. |
| Auth.RegisteredRecord | routes/auth.js:180-191 | The new account stores the trimmed names, the email and the password. Membership is one of the two ENUM values and defaults to "bireysel". Company fields are kept only for "kurumsal", else null. The role is "musteri" and the account is active. |
| Auth.ForgotPasswordRules | routes/auth.js:232-269 | The response does not depend on the accounts table. With a valid email it is always the "link sent" redirect. A known email gets a reset code expiring at now + 3600000 ms. No other account changes, and an unknown email changes nothing. |
| Guards.IsAuthenticated | middleware/auth.js:7-14 | Proceed iff there is a session user, else redirect to `/auth/giris`. |
| Guards.IsGuest | middleware/auth.js:17-22 | Proceed iff there is no session user, else redirect to `/hesabim`. |
| Guards.IsAdmin | middleware/auth.js:25-32 | Proceed iff the user exists with rol exactly "admin", else redirect to `/`. |
| Guards.LoadUser | middleware/auth.js:35-40 | Always proceeds. It exposes the user, with isAuthenticated iff a user is present and isAdmin iff rol is "admin". |
| Guards.GuestIsComplement | middleware/auth.js:7-22 | isGuest proceeds exactly when isAuthenticated does not. |
| Guards.AdminImpliesAuthenticated | middleware/auth.js:7-40 | Passing isAdmin implies passing isAuthenticated. loadUser's isAdmin implies its isAuthenticated and agrees with isAdmin. |
| Guards.AdminRoleIsExact | middleware/auth.js:26 | The role comparison is case-sensitive: "Admin" is refused. |
| OrderNumber.RandomPart | models/Order.js:90 | `floor(random × 10000)` lies in 0..9999. |
| OrderNumber.EncodeFormat | models/Order.js:86-91 | The number is 12 characters, fits the 20-character column, starts with "EK", and is digits after that. |
| OrderNumber.DecodeEncode | models/Order.js:87-91 | Slicing the number recovers year mod 100, month (getMonth()+1), day and the random part. |
| OrderNumber.MonthAndDayInRange | models/Order.js:88-90 | The decoded month lies in 1..12, the day in 1..31, and the random part in 0..9999. |
| OrderNumber.EncodeCollidesIff | models/Order.js:87-91 | Two numbers are equal iff year mod 100, month, day and random part all agree. |
| OrderNumber.EncodeInjective | models/Order.js:87-91 | Equal numbers imply equal year mod 100, month, day and random part. |
| OrderNumber.SameFieldsSameNumber | models/Order.js:87-90 | Years a century apart, on the same day with the same random part, give the same number. |
| Orders.ParseOrderStatus | models/Order.js:51-54 | A string parses iff it is one of the six `siparis_durumu` ENUM labels, and the label round-trips. |
| Orders.StatusLabelsRoundTrip | models/Order.js:47-54 | Every payment and order status label parses back to itself. |
| Orders.CreateDefaults | models/Order.js:10-91 | A create is refused iff no `siparis_no` was given (the not-null check runs before the hook) or the hook's number is already stored (the unique index). Otherwise the payment and order status default to "beklemede", omitted fee and discount are 0, there is no tracking number or carrier, and the number is the hook's: fresh, well-formed and 12 characters long. |
| Orders.CreateNumbered | models/Order.js:10-91 | With the hook's number in place, the insert fails iff that number is already stored; otherwise the order carries that number. |
| Orders.HookAloneNeverNumbers | models/Order.js:10-91 | A draft that leaves `siparis_no` to the hook is always refused, though the hook's number is free and would be accepted had the hook run before validation. |
| Orders.UpdateStatus | routes/admin.js:513-530 | A sent status label that names no ENUM value in any letter case makes the update throw, and no order changes. Otherwise the update touches only the target order and only the fields actually sent, storing the ENUM value the label names. A missing id changes nothing. |
| Orders.AnyTransitionAccepted | routes/admin.js:515-521 | Any status can be written over any other. The payment status and totals are unaffected. |
| Orders.UnknownLabelRefused | routes/admin.js:517-525 | A label outside the ENUM, such as "kayip", is refused whatever the tracking fields say. |
| Pagination.TotalPages | routes/web.js:161 | The page count is `ceil(count / size)`: the pages cover the count, and removing one page would not. |
| Pagination.PageOf | routes/web.js:95-96 | For a positive page size, a page exists iff its number is at least 1. It holds the rows from offset (page − 1) × size on, in order: exactly `size` of them, or fewer at the end, and none past the end. |
| Pagination.EveryRowOnItsPage | routes/admin.js:114-115 | Row k lies on page k / size + 1, which is between 1 and the page count, within that page's offset window. |
| Pagination.RowOnItsPage | routes/admin.js:114-115 | Row k is shown on page k / size + 1, at position k mod size. |
| Pagination.PagesPastTheEndAreEmpty | routes/admin.js:150 | A page past the last one is empty. |
| Catalog.ListingSort | routes/web.js:138-141 | "fiyat-artan" → price ascending, "fiyat-azalan" → price descending, "ad" → name ascending (each iff); anything else → newest first. |
| Catalog.SearchSort | routes/web.js:262-265 | Search orders by views by default. "yeni" → newest first; the two price orders as in the listing. |
| Catalog.PrecedesTotalPreorder | routes/web.js:138-141 | Every `order` choice is total and transitive, so the sort is well defined. |
| Catalog.NameOrderIgnoresCase | routes/web.js:140 | ORDER BY ad folds case: "arduino" sorts before "LED", though a code-point comparison puts it after. |
| Catalog.SortBy | routes/web.js:150 | ORDER BY gives a sorted permutation of the selected rows. |
| Catalog.CategoryListingRules | routes/web.js:113-135 | The listing always keeps to the category and active products. The stock filter applies only for stok "1", and then demands stock > 0. The price bounds are inclusive. A package filter keeps a product iff its `paket_tipi` equals one of the sent values, letter case ignored. |
| Catalog.LowerCasePackageSelects | routes/web.js:129-131 | `paket_tipi=smd` keeps a product whose package is "SMD", as the case-insensitive `IN` does. |
| Catalog.ListPage | routes/web.js:143-161 | A page exists iff its number is ≥ 1. The total is the number of matching rows and the page count is its ceiling. The rows are PageOf of the sorted matches, so page k holds the matches from (k − 1) × size on. They are sorted and drawn from matching products. |
| Catalog.ListPageRow | routes/web.js:95-96 | The k-th sorted match is row k mod size of page k / size + 1, and that page is within the page count. |
| Catalog.CategoryPageRules | routes/web.js:91-177 | Page k of a category shows the sorted matches from (k − 1) × 12 on: 12 of them, or the rest at the end. The total counts every match. Every row is an active product of the category, in ListingSort's order. The package filter ignores letter case. |
| Catalog.ApiListRules | routes/api.js:17-72 | A negative limit is an error. A zero limit lists no rows, with the total counted and a null page count. Otherwise a page exists iff page ≥ 1. It shows the sorted matches from (page − 1) × limit on, in ListingSort's order, and each row passes all of the API's filters. |
| Catalog.Search | routes/web.js:236-294 | A missing query, or one under 2 characters once trimmed, gives no rows, page 1 and 0 pages, without querying. Otherwise a page below 1 is an error. The total counts products whose name, part number or description contains the query, and page k shows the SearchSort-ordered matches from (k − 1) × 12 on. |
| Catalog.Autocomplete | routes/api.js:99-125 | A missing query, or one under 2 characters (untrimmed), gives nothing. Otherwise the result is the first min(8, n) of the n active products whose name or part number contains the query, in table order. Fewer than 8 results means every such product is listed. |
| Catalog.GuardsDisagreeOnBlankQuery | routes/api.js:103 | Autocomplete checks the untrimmed length, so a query of two spaces passes it while search turns it away. |
| Catalog.FindBySlug | routes/web.js:198-205 | Returns the first active product with the slug, or -1 iff there is none. |
| Catalog.Similar | routes/web.js:208-219 | At most 4 products. Each is active, in the viewed product's category, and not the viewed product. Fewer than 4 means all such products are listed. |
| Catalog.ShowProduct | routes/web.js:183-230 | Not found iff no active product has the slug, and then nothing changes. Otherwise that product's views grow by exactly 1, nothing else changes, and the similar products shown are exactly `Similar` over the updated table, so Similar's bound, soundness and completeness apply to the page. |
| Upload.DestinationRules | middleware/upload.js:25-39 | The destination is always one of the five directories created at startup. It is the root iff no keyword is mentioned, products when "urun" is mentioned, and the slider directory only when "slider" is the first keyword mentioned. |
| Upload.AdminUploadsLandWhereTheyAreLinked | middleware/upload.js:25-39 | The admin product, category, brand and slider routes store files in the directory whose public URL the handlers record. |
| Upload.LastIndexOf | middleware/upload.js:42 | Returns the last position of the character, or -1 when absent. |
| Upload.Extname | middleware/upload.js:42 | The extension is non-empty iff the last dot is not the first character and the name is not "..". It then runs from the last dot to the end, with no further dot. |
| Upload.StoredFilename | middleware/upload.js:40-44 | The stored name is `Date.now()`, a dash and `Math.round(Math.random() * 1E9)` in decimal, followed by the original name's extension. |
| Upload.StoredPdfFilename | middleware/upload.js:78-81 | The stored datasheet name ends in ".pdf". |
| Upload.RoundHalfUp | middleware/upload.js:41 | `Math.round` gives the nearest integer, with halves rounded up. |
| Upload.UpperCaseExtensionAccepted | middleware/upload.js:50 | The extension is lowercased, so "photo.PNG" with "image/png" is accepted. |
| Upload.UpperCaseMimetypeRefused | middleware/upload.js:51 | The mimetype is not lowercased, so "image/PNG" is refused. |
| Upload.UnanchoredExtensionAccepted | middleware/upload.js:49-57 | The test is an unanchored substring match, so "photo.pngx" is accepted. |
| Upload.NoExtensionRefused | middleware/upload.js:49-57 | A name without a dot has an empty extension and is refused whatever its mimetype. |
| Upload.Limits | middleware/upload.js:69-91 | Images are limited to 5 MiB and datasheets to 10 MiB. A batch of 11 images is refused. |
| Settings.KeyIndex | models/Setting.js:39 | The lookup finds a row with the key, or -1 iff there is none. |
| Settings.Lookup | models/Setting.js:39 | The found setting is in the table with that key. None iff no row has it. |
| Settings.LookupUnique | models/Setting.js:13 | With unique keys, looking up a row's key finds that row. |
| Settings.Decode | models/Setting.js:42-55 | Boolean is true iff the stored value is "1" or "true". Number is left unevaluated. JSON gives the parsed value, or the default if parsing fails. Text and textarea are returned verbatim, null stays null. |
| Settings.GetValue | models/Setting.js:38-56 | An absent key gives the supplied default. |
| Settings.SetValueSpec | models/Setting.js:59-71 | The call fails iff the key is new and the value is an object. Otherwise the returned record has the key: an existing key is updated in its own row, and a new key is appended. |
| Settings.SetValueOneRowPerKey | models/Setting.js:13 | Keys stay unique after setValue, and the one row with the key is the returned record. |
| Settings.SetValueKeepsOtherKeys | models/Setting.js:59-71 | Every other key reads as before. |
| Settings.SetValueExistingChangesOnlyValue | models/Setting.js:65-68 | On an existing key only `deger` changes: grup, tip and aciklama stay. |
| Settings.SetValueCreates | models/Setting.js:60-63 | A new key given null or a string gets that value as given, the group ("genel" by default), tip "text" and no description. Given an object, nothing is created. |
| Settings.ObjectStringifiedOnlyOnUpdate | models/Setting.js:62-66 | An object value is JSON-stringified on update. On creation it reaches the TEXT column unchanged, the create fails, and setValue rejects. |
| Settings.TextRoundTrip | models/Setting.js:55-71 | Setting a string on a text key (or a new one) reads it back verbatim. |
| Settings.BooleanRoundTrip | models/Setting.js:42-44 | Setting "true"/"false" on a boolean key reads back that boolean. |
| Settings.JsonRoundTrip | models/Setting.js:48-66 | When parse inverts stringify, an object set on a JSON key reads back as that object. |
| Settings.NewKeyReadsAsText | models/Setting.js:25 | New keys are typed "text", so JSON text stored under a new key reads back as that text, never parsed. |
| Settings.NullOverwriteReadsAsText | models/Setting.js:66 | `typeof null` is "object", so null overwrites a text value with the string "null". |
| Settings.ReadBack | models/Setting.js:59-71 | After a setValue that succeeds, looking up the key gives the returned record. |
| Settings.SettingsTable.Find | models/Setting.js:39 | The loop computes KeyIndex. |
| Settings.SettingsTable.SetValue | models/Setting.js:59-71 | The table and the record become SetValueSpec's, and keys stay unique. A rejected creation leaves the table unchanged and returns no record. |
| Settings.SettingsTable.GetValueOf | models/Setting.js:38-56 | Computes GetValue over the table. |
| AdminForms.ProductDefaults | routes/admin.js:190-205 | Empty fields give kdv 20, stok 0, min_siparis 1 and paket_tipi "Diger", and marka_id null. durum and one_cikan are 1 iff truthy, else 0. Other fields are copied. |
| AdminForms.UntouchedEditKeepsValues | routes/admin.js:302-317 | Resubmitting the edit form with a product's stored values keeps them. Applying the edit rules twice changes nothing. |
| AdminForms.EditValuesOf | routes/admin.js:302-317 | On update, a pass-through field the form did not send keeps its stored value; a sent one is written. The defaulted fields, the brand and the checkboxes always take the form's values. |
| AdminForms.FullEditIgnoresStored | routes/admin.js:302-317 | A form that sends every text field stores exactly what create would store. |
| AdminForms.ImageRows | routes/admin.js:208-215 | One image row per uploaded file. |
| AdminForms.MaxOrder | routes/admin.js:321 | None iff the product has no images. Otherwise the maximum `sira_no` among that product's images. |
| AdminForms.CreatedImageOrders | routes/admin.js:208-215 | Images on create get `sira_no` 0..n-1 in upload order, with URL "/uploads/products/" + filename. |
| AdminForms.AddedImageOrdersAreFresh | routes/admin.js:320-328 | Images added on edit are numbered max+1 … max+n (max or 0). They are strictly increasing and above every existing `sira_no` of the product. |
| AdminForms.EditNumberingFollowsCreate | routes/admin.js:208-215 | After a create with n > 0 images, an edit numbers from n. After a create with none, it numbers from 1. |
| AdminForms.CollectStops | routes/admin.js:219-243 | After the first exception the loop collects nothing more. |
| AdminForms.CollectRows | routes/admin.js:219-243 | The loop fails iff some step throws. Without failure it creates exactly the rows the steps emit. |
| AdminForms.CollectAllEmit | routes/admin.js:219-243 | When every step emits, the rows are the emitted ones in index order. |
| AdminForms.AttributeRowsRules | routes/admin.js:219-228 | Without an array of names nothing is created. A missing value array with a non-empty name throws. Otherwise exactly the indices with a non-empty name and a truthy value become rows. |
| AdminForms.TiersAreNotChecked | routes/admin.js:232-242 | With full arrays every tier with min and price is stored as given, an empty max as null. There is no ordering or overlap check. |
| AdminForms.TierRowsRules | routes/admin.js:232-242 | A single tier field (not an array) creates nothing. Otherwise, when the loop does not throw, a tier exists iff some form row has a non-empty min and a truthy price; its max is `kademe_max[i]`, or null when that is empty. The tiers of the first k form rows come first, so tiers are in form order. |
| AdminForms.CollectPrefix | routes/admin.js:219-243 | Without an exception, the rows of the first k iterations are a prefix of all the rows. |
| AdminForms.BlankNameRefused | models/Product.js:27-33 | A name made only of spaces breaks `notEmpty`, like an empty one. |
| AdminForms.TierRowsFail | routes/admin.js:232-242 | The tier loop throws iff some non-empty min meets a missing price array, or a truthy price meets a missing max array. |
| AdminForms.CategoryBrandSliderDefaults | routes/admin.js:392-400 | Category: parent_id is null when empty, sira_no defaults to "0", durum is 1 iff truthy. Brand: a logo only with a file. Slider: buton_text defaults to "Keşfet", sira_no to "0". An image only with a file. |
| AdminForms.CategoryImageUrlMatchesUpload | routes/admin.js:397 | The recorded category image URL is the public URL of the directory the upload was stored in. |
| AdminForms.BrandLogoUrlMatchesUpload | routes/admin.js:436 | The same for brand logos. |
| AdminForms.SliderImageUrlMatchesUpload | routes/admin.js:601 | The same for slider images. |
| AdminForms.ProductImageUrlsMatchUpload | routes/admin.js:325 | The same for product images. |
| Admin.CreatedRows | routes/admin.js:207-243 | Create makes images first, then attributes, then tiers. The attribute rows made before an exception are kept. An attribute exception skips the tiers; otherwise the tier rows made, up to a tier exception, are kept. |
| Admin.NewImages | routes/admin.js:209-215 | The `for` loop creates ImageRows. |
| Admin.RunRowLoop | routes/admin.js:220-228 | The indexed row loop that stops at the first exception computes Collect. |
| Admin.FindProduct | routes/admin.js:289 | The lookup loop returns the first product with the id, or -1. |
| Admin.Backoffice.CreateProduct | routes/admin.js:180-252 | If `Product.create` would fail (missing `ad`/`parca_no`, or one made only of white space, missing `kategori_id`, or a `parca_no` already taken), nothing changes and it redirects to the form. Otherwise the product is stored with ProductValuesOf and the rows of CreatedRows are appended. It then redirects to the list, or to the form after an exception. |
| Admin.Backoffice.EditProduct | routes/admin.js:287-338 | An unknown id changes nothing. Otherwise the values are the stored ones with the sent fields written over them. The update is rejected, changing nothing, when those values break a column rule or take another product's `parca_no`. On success the product is replaced and the new files are appended as images numbered from the product's max `sira_no` (or 0) + 1. Attributes and tiers never change. |
| Admin.AdminProductPageRules | routes/admin.js:111-158 | 20 per page, newest first: page k shows the matches from (k − 1) × 20 on. Every row passes the filters, and inactive products are included. |
| Admin.UnfilteredProductListCountsAll | routes/admin.js:117-137 | With no filter, the total counts every product, including inactive ones. |
| Admin.AdminOrderPage | routes/admin.js:453-484 | A page exists iff page ≥ 1. The total counts the matching orders and the page count is ceil(total / 20). Page k holds the matches from (k − 1) × 20 on: 20 of them, or the rest at the end. |
| Admin.AdminOrderPageRules | routes/admin.js:459-461 | Every listed order passes the status and number filters. A status filter that names no ENUM status in any letter case matches no orders. |
| Admin.UpperCaseStatusMatches | routes/admin.js:460 | `durum=KARGODA` lists shipped orders: the ENUM comparison ignores case. |

## Left out

- Persistence and I/O: the ORM and SQL layer, session storage, flash messages, view
  rendering and HTTP plumbing. Requests are handled one at a time, so the lost-update
  races between `findOne` and `save` in cart add and merge are not modelled.
- LIKE: modelled as containment after ASCII lowercasing. `%`/`_` wildcards inside the
  query and Turkish case folding are not modelled.
- Database collation: Catalog.Precedes, Catalog.InCategoryListing (the `paket_tipi` filter),
  Admin.InAdminOrderList and Orders.UpdateStatus fold ASCII letters only. This covers
  ORDER BY ad, the package filter, the order status filter and the stored status. The registration ENUM
  (Auth.MembershipEnum) matches the same way. Accent folding, Turkish letter weights and
  trailing-space padding are not modelled.
- Auth.FindByEmail: compares emails exactly. Under the column's case-insensitive
  collation, `findOne({ where: { email } })` also matches an email in another letter case.
- Settings.KeyIndex: compares keys exactly, where the database ignores letter case.
- Admin.PartNoTaken: compares part numbers exactly, where the unique index ignores letter
  case.
- `parseFloat` of price filters and of number-typed settings: the price bounds are
  integers, and `Settings.Decode` returns the stored text unevaluated (`NumberOf`).
- Quantities (`adet`): modelled as integers already parsed. String concatenation on
  `adet +=` and `parseInt` of non-numeric input are not modelled.
- The guest cart's raw JSON: only the fields the handlers read are kept.
- Cart rows: held as a sequence of (user, product, quantity) rows rather than a map.
  `sepet` has no unique index (models/Cart.js), so the model keeps duplicates possible
  and proves that one row per pair is preserved.
- bcrypt hashing and comparison (models/User.js): a `passwordMatches` parameter.
  `isEmail` and `isMobilePhone`: boolean parameters.
- Email sending and the payment provider (services/EmailService.js,
  services/PaymentService.js) are not part of this model. Nor are order totals: no code
  computes them among the modelled files.
- JSON.parse / JSON.stringify: function parameters. setValue inputs that are numbers or booleans are not modelled, only null,
  strings and objects.
- Sequelize `update` with undefined fields: `Orders.UpdateStatus` and
  `AdminForms.EditValuesOf` take `None` for a field not sent and leave it unchanged. A
  field sent as an empty string is written.
- Admin.Backoffice.CreateProduct: the modelled database failures are the null, `notEmpty`
  (empty or white space only, AdminForms.NotBlank) and unique rules on `ad`, `parca_no`
  and `kategori_id` (Admin.Storable). A `paket_tipi`
  outside its ENUM, a numeric field whose text the column cannot convert, a slug
  collision and a missing category are not modelled as failures.
- Admin.Backoffice.EditProduct: the same failures are modelled and the same ones are left
  out. An image insert that throws after the update is not modelled either.
- Auth.RegisterAcceptance: the only database failure modelled is the membership ENUM. A field
  longer than its column, and an email taken between the lookup and the insert, are not
  modelled.
- Catalog.ApiList: `limit` is taken as an already-parsed integer. A non-numeric limit,
  which makes the query fail, is not modelled.
- Admin.AdminOrderPage: the orders are taken in the order given. The query sorts by
  `created_at DESC` (routes/admin.js:466), and `Order` has no creation time, so the
  caller is trusted to pass the orders newest first.
- Orders.UpdateStatus: the refusal of a label outside the ENUM is modelled whether or not
  the id exists, and the label is read only by ENUM membership. Where MySQL reports
  success for an update that matches no row, the model reports the refusal, with the
  same unchanged orders.
- Catalog.Autocomplete: the query has no ORDER BY, so the model takes the rows in table
  order.
- Admin list queries: query values are taken as already-typed options. MySQL's coercion
  of an empty `durum=` in the admin product list is not modelled.
- Node's `path.extname` for names in directories and for names starting with a dot: the
  model takes the last dot of a bare file name.
- Directory creation at startup (middleware/upload.js:17-21) is I/O. The clock and
  `Math.random` are parameters, and so are database-assigned ids.
- OrderNumber.EncodeFormat: requires `year >= 10`. For a one-digit year, `slice(-2)` of
  the year yields one digit and the number has 11 characters. Years before 10 are not
  modelled here or in the lemmas below.
- OrderNumber.DecodeEncode: requires `year >= 10`, as for EncodeFormat.
- OrderNumber.MonthAndDayInRange: requires `year >= 10`, as for EncodeFormat.
- OrderNumber.EncodeCollidesIff: requires both years `>= 10`, as for EncodeFormat.
- OrderNumber.EncodeInjective: requires both years `>= 10`, as for EncodeFormat.
- OrderNumber.SameFieldsSameNumber: requires both years `>= 10`, as for EncodeFormat.
- Orders.CreateDefaults: requires `year >= 10`, as for EncodeFormat. Other refusals of
  `Order.create` (a missing required column, a foreign key without its row) are not
  modelled.
- Strings.IsSpace: covers the ASCII white space only. JavaScript's `trim` and
  express-validator's `trim` also strip U+00A0, U+FEFF, U+2028 and the other Unicode
  spaces. The name-length rules and the search guard are therefore modelled for ASCII
  padding only.
- Multer's enforcement of the size limits and the file count: modelled as predicates over
  the uploaded files' sizes and count.
- The category lookup by slug before the category listing (routes/web.js:99-111): the
  listing takes the found category's id.
- The HTML form shapes of the admin product form: the view templates are not part of this
  model. Each repeated field is modelled as absent, a single string, or an array (`FormList`).
- Not modelled: the dashboard aggregates (routes/admin.js:31-104), the customer
  list (routes/admin.js:536-572), the delete, show and form-rendering routes, server.js,
  the seeders, and the browser script public/js/main.js (except the id type it sends).
- Product.js derived values: the `kdvliFiyat` float arithmetic and slugify
  (models/Product.js:91-106).

## Findings

| source | as written | input that shows it | evidently intended | confidence | as-written member | corrected member |
|---|---|---|---|---|---|---|
| models/Order.js:10-91 | `siparis_no` is `allowNull: false` and is set only in the `beforeCreate` hook. Sequelize runs validation, the not-null check included, before `beforeCreate`, so a create that leaves the number to the hook is refused before the hook runs. The other models set their required `slug` in `beforeValidate` (models/Product.js:89). | `Order.create({ user_id: 1, … })` without `siparis_no` rejects with a not-null violation on `siparis_no`. | The hook generates the number: the order is stored as `EK` + date + random digits unless that number is taken. | not executed | Orders.HookAloneNeverNumbers | Orders.CreateNumbered |
| routes/api.js:280-283 | Guest update looks the line up with `item.urun_id === urun_id`. The stored `urun_id` is the string the add button sent (public/js/main.js:138,150). The quantity buttons call `updateCartItem(${urun.id}, …)` with a number literal (main.js:111,113), so the JSON body carries a number (main.js:353). A string is never strictly equal to a number: the index is -1, nothing changes, and success is still reported. | A guest adds product "5" from the UI and presses "+": PUT /api/sepet/guncelle with `urun_id: 5, adet: 2` leaves the quantity at 1. | Set the quantity of product 5 to 2. | not executed | Cart.SetQtyAsWrittenExample | Cart.GuestSetQtyEffect |
| routes/api.js:303-305 | Guest remove keeps lines where `item.urun_id !== parseInt(urun_id)`. The stored `urun_id` is the string the browser sent (public/js/main.js:138,150, `dataset.productId`), and strict inequality between a string and a number is always true. | A guest adds product "5" from the UI, then calls DELETE /api/sepet/sil/5: the line stays in the cart. | Remove every line of product 5. | not executed | Cart.RemoveAsWrittenExample | Cart.GuestRemoveEffect |
