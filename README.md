# moontech-ecommerce-api in Dafny

A Dafny model of the service layer of the moontech e-commerce backend (NestJS over Prisma):
authentication and refresh-token sessions, user lookup, the product catalog, the shopping cart,
checkout, and the wishlist, plus the small helpers they rely on (page clamping, slugs, the
product-query transforms and the role guard).

The relational store is one `Store.Database` class with a `seq` field per table and an id
counter per table. `Database.Valid()` holds the schema constraints the services rely on:
- ids below the counter and increasing in every table;
- unique e-mails and phones on users;
- unique (provider, providerUserId) on accounts;
- unique digests on sessions;
- unique slugs on products;
- unique (userId, productId) on the wishlist;
- one OPEN cart per user, with well-formed lines and totals that agree with them.

Every service that writes is a method on that `Database`. It has a field-level `modifies`
frame and `ensures` clauses that give the whole new state, and it keeps `Valid()`.

Each service method is specified against pure functions. Lemmas then prove what the service
promises about those functions. Examples:
- `CartService.Upsert`: `addItem` adding a then b equals adding a+b once.
- `OrdersService.Reserve`: stock decreases by exactly the quantity asked for and never goes
  below zero.
- `AuthService.Rotate`: after rotation the old refresh token matches no session.
- `WishlistService.Toggled`: toggling is a set flip, and toggling twice restores the set.

Modules, one per file:
- `Wrappers`: `Option`, `Result`, and the HTTP error kinds.
- `Seqs`: first index, filter, reverse.
- `Text`: ASCII case mapping, JS whitespace, trim, substring.
- `JsNumbers`: `parseInt`.
- `Sorting`: insertion sort over a total preorder.
- `Store`: the tables and `Database`.
- `Slug`: slugify.
- `Pagination`: parsePage.
- `QueryProduct`: the product-query transforms.
- `RolesGuard`: the role check.
- `UsersService`, `AuthService`, `ProductsService`, `CartService`, `OrdersService`,
  `WishlistService`: the services.

These parts of the system become parameters:
- bcrypt becomes a `hash: string -> string` parameter, and `compare(p, d)` is `hash(p) == d`.
- `normalizePhone` becomes a `string -> Option<string>` parameter; `None` is its 'Invalid phone'
  failure.
- Random tokens, the clock, `Math.random` text and environment variables are parameters.
- Money is in integer cents.
- Row ids are counters instead of cuids. Rows are appended in creation order, so `createdAt`
  order is table order.
- Prisma's own failures (record not found, unique constraint, foreign key, negative `skip`)
  are `Err(Internal(..))`.

Behaviour of the code worth noting:
- `registerEmail` checks only the user table for the e-mail. An EMAIL account that already
  holds it makes the account insert fail on the unique index, and the transaction is rolled
  back (`AccountTaken`).
- Conflicts and 'Product not found' in checkout are `BadRequest`, not distinct conflict or
  not-found kinds.
- An expired session is still rotated when its id is sent with the token
  (`AuthService.IdHintIgnoresExpiry`).
- `addItem` accepts any qty and replaces a non-positive one with 1.
- `update` replaces a product's images before it writes the product row. A slug the unique
  index then refuses fails after the images have changed.

## Model

| member | source | states |
|---|---|---|
| Store.Database.constructor | src/app.module.ts:18 | an empty database, with every id counter at 0, satisfies every table constraint |
| Store.Database.Valid | src/app.module.ts:18 | the schema's constraints the services rely on: ids below each counter and increasing, unique e-mails, phones, account keys, session digests, slugs and wishlist pairs, and one well-formed OPEN cart per user |
| Store.ProductIndex | src/products/products.service.ts:107-109 | `findUnique` by id: the first row with that id, or none exactly when no row has it |
| Store.UserIndex | src/users/users.service.ts:22-23 | `findUnique` by user id: the row with that id, or none exactly when no row has it |
| Store.RemoveAt | src/products/products.service.ts:103 | `delete` leaves every row before the deleted one in place and shifts the rest down by one |
| Store.IdsBelowAppend | src/products/products.service.ts:53 | `create` with the counter's id keeps every id below the bumped counter |
| Store.IdsBelowRemoveAt | src/products/products.service.ts:103 | a `delete` keeps ids below the counter |
| Store.IdsBelowFilter | src/products/products.service.ts:87 | a `deleteMany` keeps ids below the counter |
| Seqs.FirstIndex | src/users/users.service.ts:10-17 | `findFirst`: the first row satisfying the test, none exactly when no row does |
| Seqs.Filter | src/wishlist/wishlist.service.ts:9-13 | `findMany where`: only rows of the input that pass the test, and every row that passes |
| Seqs.FilterAppend | src/products/products.service.ts:86-91 | filtering a concatenation filters each part |
| Seqs.Reverse | src/wishlist/wishlist.service.ts:12 | `createdAt: 'desc'` over rows in creation order: the same rows, last first |
| Text.ToLower | src/common/utils/slug.util.ts:3 | `toLowerCase` on ASCII letters: same length, every ASCII capital becomes its small letter; non-ASCII characters are left as they are (see Left out) |
| Text.ToLowerAppend | src/common/utils/slug.util.ts:3 | lower-casing distributes over concatenation |
| Text.ToUpper | src/orders/orders.service.ts:8 | `toUpperCase` on ASCII letters: same length, every ASCII small letter becomes its capital; non-ASCII characters are left as they are |
| Text.TrimIgnoresOuterSpace | src/common/utils/slug.util.ts:6 | `trim` ignores any whitespace added at either end |
| Text.TrimKeepsFirst | src/common/utils/slug.util.ts:6 | `trim` keeps a non-space first character |
| Text.TrimKeepsLast | src/common/utils/slug.util.ts:6 | `trim` keeps a non-space last character |
| JsNumbers.ParseIntOfDecimal | src/common/utils/pagination.ts:3-4 | `parseInt(String(n), 10)` gives back `n` for every integer |
| JsNumbers.ParseIntReadsDigitPrefix | src/common/utils/pagination.ts:3-4 | `parseInt` reads the leading digits and ignores the text after them |
| JsNumbers.ParseIntSkipsLeadingSpace | src/common/utils/pagination.ts:3-4 | `parseInt` skips leading whitespace |
| JsNumbers.OrDefault | src/common/utils/pagination.ts:3-4 | `x \|\| d`: NaN and 0 give the default, every other number is kept |
| JsNumbers.ParseInt | src/common/utils/pagination.ts:3-4 | `parseInt(s, 10)` is NaN exactly when, after leading whitespace and one optional sign, no digit follows; a negative result needs a '-' sign |
| Sorting.SortBy | src/products/products.service.ts:138 | `orderBy` returns the same rows as its input: a permutation |
| Sorting.SortBySorted | src/products/products.service.ts:138 | under a total preorder the result is ordered |
| Sorting.SortByKeepsElements | src/products/products.service.ts:138 | every input row is in the result and every result row comes from the input |
| Pagination.ParsePage | src/common/utils/pagination.ts:2-6 | page is at least 1, pageSize lies in [1, 100], take equals pageSize and skip equals (page-1)*pageSize |
| Pagination.Clamp | src/common/utils/pagination.ts:3-5 | the clamps give page at least 1 and pageSize in [1, 100] |
| Pagination.ParsePageOfNumbers | src/common/utils/pagination.ts:3-4 | a numeric page below 1 becomes 1, otherwise it is kept; pageSize 0 becomes 20, below 1 becomes 1, above 100 becomes 100, otherwise it is kept |
| Pagination.ParsePageFallbacks | src/common/utils/pagination.ts:2-4 | an absent, unparseable or zero page and pageSize give page 1, size 20, skip 0 |
| QueryProduct.SortValue | src/products/dto/query-product.dto.ts:5-10 | every sort option has one of the four wire values |
| QueryProduct.ParseSort | src/products/dto/query-product.dto.ts:19-20 | `IsEnum` accepts exactly the four wire values, each naming its own option |
| QueryProduct.ParseSortValue | src/products/dto/query-product.dto.ts:5-10 | parsing an option's wire value gives back that option |
| QueryProduct.PageTransform | src/products/dto/query-product.dto.ts:22 | NaN and 0 become 1; any other number, negative included, is kept |
| QueryProduct.PageSizeTransform | src/products/dto/query-product.dto.ts:25 | NaN and 0 become 20; any other number is kept |
| QueryProduct.ActiveOnlyTransform | src/products/dto/query-product.dto.ts:29 | false exactly for the string 'false' |
| RolesGuard.Roles | src/common/guards/roles.guard.ts:5-9 | the metadata holds exactly the listed roles |
| RolesGuard.CanActivate | src/common/guards/roles.guard.ts:14-22 | the handler's list when there is one, else the class's; no list or an empty one allows, otherwise allowed exactly when a user is present and its role is listed |
| RolesGuard.RolesGuardHandler | src/common/guards/roles.guard.ts:5-21 | a handler decorated with `@Roles(...rs)` admits exactly the users whose role is among `rs`, or everyone when `rs` is empty, whatever the class says |
| RolesGuard.RolesGuardClass | src/common/guards/roles.guard.ts:5-21 | a class decorated with `@Roles(...rs)`, on a handler without metadata, admits exactly the users whose role is among `rs`, or everyone when `rs` is empty |
| RolesGuard.GetAllAndOverride | src/common/guards/roles.guard.ts:15-18 | handler metadata, when present, overrides class metadata |
| RolesGuard.NoRolesAllows | src/common/guards/roles.guard.ts:19 | no roles metadata, or an empty list, allows the request |
| RolesGuard.RolesDecide | src/common/guards/roles.guard.ts:20-21 | with a non-empty list the request is allowed iff the user's role is in it; a missing user is denied |
| RolesGuard.HandlerOverridesClass | src/common/guards/roles.guard.ts:15-18 | with handler roles, the class roles do not affect the decision |
| Slug.RemoveUnkept | src/common/utils/slug.util.ts:5 | the result is no longer than the input; every character left is a word character, whitespace or '-' from the input, and every such character of the input is left |
| Slug.CollapseRuns | src/common/utils/slug.util.ts:7-8 | empty exactly when the input is; the first and last characters are the input's or, when those begin or end a run, the separator; every character is the separator or a non-run character of the input |
| Slug.CollapseRunsAppend | src/common/utils/slug.util.ts:7-8 | collapsing distributes over a concatenation whose left part does not end inside a run |
| Slug.CollapseRunsSplit | src/common/utils/slug.util.ts:7-8 | a maximal run between two parts becomes exactly one separator, and each part is collapsed on its own |
| Slug.Slugify | src/common/utils/slug.util.ts:1-9 | the result is a slug: only a-z, 0-9, '_' and '-', never two hyphens in a row |
| Slug.StepsMakeSlug | src/common/utils/slug.util.ts:5-8 | removing, trimming and collapsing text with no capitals leaves only slug characters and no two hyphens in a row |
| Slug.SlugifyIdempotent | src/common/utils/slug.util.ts:1-9 | slugify(slugify(x)) == slugify(x) |
| Slug.SlugOfWordText | src/common/utils/slug.util.ts:1-9 | text of word characters and single hyphens slugs to its lower-case form |
| Slug.SlugJoinsWords | src/common/utils/slug.util.ts:1-9 | two non-empty texts of word characters and single hyphens, with no hyphen at the join, separated by a run of white space, slug to their lower-case forms joined by one hyphen |
| Slug.SlugIgnoresOuterInert | src/common/utils/slug.util.ts:5-7 | whitespace and removed characters at either end add no hyphen |
| Slug.SlugKeepsLeadingDash | src/common/utils/slug.util.ts:5-8 | a leading hyphen is kept, not trimmed |
| Slug.SlugKeepsTrailingDash | src/common/utils/slug.util.ts:5-8 | a trailing hyphen is kept, not trimmed |
| UsersService.AccountsOf | src/users/users.service.ts:18 | `include: { accounts: true }`: all of the user's accounts and no others |
| UsersService.MatchesIdentifier | src/users/users.service.ts:12-16 | the three-way `OR`: the lower-cased identifier as e-mail, the identifier verbatim as phone, or verbatim as the provider id of one of the user's accounts |
| UsersService.FindByIdentifier | src/users/users.service.ts:8-20 | a found user matches the lower-cased e-mail, the verbatim phone or a verbatim account name, and carries all its accounts; none exactly when no user matches |
| UsersService.FindById | src/users/users.service.ts:22-24 | the user with exactly that id with its accounts, none exactly when there is no such user (`me` at src/auth/auth.service.ts:204-206 is this lookup) |
| UsersService.FindByEmail | src/users/users.service.ts:13 | a user whose e-mail is the lower-cased identifier is found, with its accounts, when no earlier user matches the identifier |
| UsersService.FindByIdUnique | src/users/users.service.ts:22-24 | every row is found by its own id |
| AuthService.UserByEmail | src/auth/auth.service.ts:33 | `findUnique` by e-mail: a row with it, or none exactly when no row has it |
| AuthService.UserByPhone | src/auth/auth.service.ts:64 | `findUnique` by phone: a row with it, or none exactly when no row has it |
| AuthService.AccountByKey | src/auth/auth.service.ts:57-59 | `findUnique` by (provider, providerUserId): a row with that pair, or none exactly when no row has it |
| AuthService.UsersOkAppend | src/auth/auth.service.ts:36-38 | a new user with a fresh id, e-mail and phone keeps the user table's unique indexes |
| AuthService.RegisterEmail | src/auth/auth.service.ts:28-51 | lower-cases the e-mail; 'Email already registered' when a user holds it; the account index refusal when an EMAIL account holds it; otherwise exactly one USER-role user and one EMAIL account named by the lower-cased e-mail with `hash(password)`; every failure leaves both tables unchanged |
| AuthService.PhoneOwner | src/auth/auth.service.ts:63-65 | the user holding the number is reused, else one new user with it is appended |
| AuthService.MirrorPhone | src/auth/auth.service.ts:77-80 | the mirror write never changes the user table, because the chosen user already carries the number |
| AuthService.RegisterPhone | src/auth/auth.service.ts:53-83 | 'Invalid phone' when normalisation fails; 'Phone already registered' when a PHONE account has the number; otherwise reuses or creates the user, adds one PHONE account, and the user's phone is the number; failures change nothing |
| AuthService.IsEmail | src/auth/auth.service.ts:200 | an e-mail-shaped identifier has at least five characters, among them '@' and '.' |
| AuthService.IsMaybePhone | src/auth/auth.service.ts:201 | a phone-shaped identifier has at least six characters |
| AuthService.LoginId | src/auth/auth.service.ts:87-89 | e-mail shaped: lower-cased; else phone shaped: normalised, failing with 'Invalid phone' exactly when normalisation fails; else verbatim |
| AuthService.LoginIdOfEmailIsStable | src/auth/auth.service.ts:86-88 | an e-mail-shaped identifier is lower-cased, stays e-mail-shaped, and its lower-case form gives the same login id |
| AuthService.ValidateUser | src/auth/auth.service.ts:86-100 | fails only with the single 'Invalid credentials' (or the phone normaliser's failure); no user, or no account of the user named by the login id, gives 'Invalid credentials'; otherwise it succeeds, returning the found user, exactly when the first such account holds a non-empty digest equal to `hash(password)` |
| AuthService.ValidateSoleAccount | src/auth/auth.service.ts:86-100 | a user found by the login id whose only account is that id's password account validates exactly the passwords whose digest it holds |
| AuthService.RegisteredEmailValidates | src/auth/auth.service.ts:28-100 | after `registerEmail`, validating with the same e-mail (any case) and password returns the new user, and any password with another digest is refused |
| AuthService.NewUserIsFound | src/users/users.service.ts:8-20 | a newly appended user is the one found by its lower-case e-mail |
| AuthService.SignAccess | src/auth/auth.service.ts:103-106 | the claims are the user's id and role, with the TTL from the environment or '15m' when unset or empty |
| AuthService.ParseSeven | src/auth/auth.service.ts:112 | the default TTL text '7' reads as 7 days |
| AuthService.RefreshExpiry | src/auth/auth.service.ts:112-122 | expiry is now + ttlDays days (7 by default); an unparseable TTL has no expiry |
| AuthService.SessionsOkAppend | src/auth/auth.service.ts:115-130 | a session with the next id and a fresh digest keeps ids increasing and digests unique |
| AuthService.CreateSession | src/auth/auth.service.ts:108-133 | stores one session with `hash(raw)`, never `raw`, and returns `raw`, the new id and the expiry; an unparseable TTL fails and stores nothing |
| AuthService.Login | src/auth/auth.service.ts:136-140 | an unparseable TTL fails and stores nothing; otherwise the access claims of the user, the returned token, the next session id and the expiry, with exactly one new session for that user holding the token's digest and the counter bumped by one |
| AuthService.Unexpired | src/auth/auth.service.ts:153 | exactly the sessions whose expiry lies after now |
| AuthService.RefreshMatch | src/auth/auth.service.ts:147-163 | with a found id, that session alone decides; otherwise the first unexpired session whose digest matches, and none only when no unexpired session matches |
| AuthService.TargetsMatch | src/auth/auth.service.ts:151-162 | scanning the target list finds a digest match exactly when `RefreshMatch` names a row, and that row is the match |
| AuthService.FirstMatch | src/auth/auth.service.ts:157-162 | the loop returns the first target whose digest matches, or none when no target matches |
| AuthService.SessionIndexOfRow | src/auth/auth.service.ts:148 | every session is found by its own id |
| AuthService.IdHintIgnoresExpiry | src/auth/auth.service.ts:147-153 | an id hint finds the session whatever its expiry; without the hint an expired session is never matched |
| AuthService.Rotate | src/auth/auth.service.ts:166-177 | rotation keeps the table size: one row out, one row in |
| AuthService.RotationRevokes | src/auth/auth.service.ts:166-177 | after rotation the table constraints hold, the old digest matches no session, and the old id is gone |
| AuthService.Refresh | src/auth/auth.service.ts:143-179 | 'Missing token' for an empty token; 'Invalid refresh token' when nothing matches; a session whose user is gone is 'Unauthorized'; otherwise the matched session is replaced by a new one for the same user, and the old token matches no session afterwards; every failure changes nothing |
| AuthService.TokenIndex | src/auth/auth.service.ts:188-193 | the first session whose digest matches; none means the digest is held by no session |
| AuthService.LoggedOut | src/auth/auth.service.ts:181-197 | logout deletes at most one session |
| AuthService.SessionsOkRemoveAt | src/auth/auth.service.ts:183 | deleting a session keeps the table constraints and removes its id and digest |
| AuthService.LogoutRevokes | src/auth/auth.service.ts:181-197 | after logout the id given is gone, or else the token's digest matches no session; logout is idempotent |
| AuthService.Logout | src/auth/auth.service.ts:181-197 | always succeeds, and the table becomes the logged-out table |
| ProductsService.ProductOrder | src/products/products.service.ts:16-24 | `orderBy`: price ascending, price descending, rating then review count descending, and newest first for NEW and when no sort is given |
| ProductsService.ProductOrderIsTotal | src/products/products.service.ts:16-24 | each of price ascending, price descending, rating-then-review-count descending and newest first is a total preorder |
| ProductsService.ImagesOf | src/products/products.service.ts:110 | exactly the image rows of that product: each from the image table, and every row of the product is there |
| ProductsService.NewImages | src/products/products.service.ts:48-50 | one image row per input with the next ids, the product's id and `pos` defaulting to 0 |
| ProductsService.ImagesOkAppendNew | src/products/products.service.ts:48-50 | appending the new image rows keeps image ids below the bumped counter |
| ProductsService.ReplaceImagesOk | src/products/products.service.ts:85-92 | an image replace keeps the image table's constraints |
| ProductsService.ReplaceImagesSetsList | src/products/products.service.ts:85-92 | after a replace the product's images are exactly the given list, in order |
| ProductsService.ReplaceImagesKeepsOthers | src/products/products.service.ts:87 | a replace leaves every other product's images unchanged |
| ProductsService.View | src/products/products.service.ts:110 | a product with exactly its images, ordered by position |
| ProductsService.FindOne | src/products/products.service.ts:107-114 | the product with that id and its view: exactly its image rows (same multiset), ordered by position; 'Product not found' exactly when there is none |
| ProductsService.Matches | src/products/products.service.ts:122-130 | the `where`: active unless activeOnly is false; q, when truthy, in the name, brand or sku ignoring case; the category when truthy; the price bounds when given |
| ProductsService.Matching | src/products/products.service.ts:122-130 | only products of the table that pass every filter, and every one that does |
| ProductsService.Window | src/products/products.service.ts:132-142 | a negative skip fails; otherwise at most `take` rows, and for a non-negative take the rows from `skip` on, `take` of them when enough remain, all that remain otherwise |
| ProductsService.WindowKeepsRows | src/products/products.service.ts:139-140 | every row of a window comes from the list it was cut from |
| ProductsService.Views | src/products/products.service.ts:141 | one view per row, in order, each the row with its images |
| ProductsService.EveryRowOnItsPage | src/products/products.service.ts:132-142 | with a positive page size, row j of the ordered matches is at position j mod size of page j div size + 1 |
| ProductsService.Ordered | src/products/products.service.ts:136-138 | exactly the matches, as a permutation (same multiset), each a product of the table that matches, in `orderBy` order |
| ProductsService.WindowOfSorted | src/products/products.service.ts:139-140 | a forward `skip`/`take` window of an ordered list stays ordered |
| ProductsService.FindAll | src/products/products.service.ts:116-146 | the page of the ordered matches at page and pageSize (defaults page 1, size 20, newest first, active only); every row is a matching product of the table, and for a non-negative size the rows are in `orderBy` order |
| ProductsService.PageOf | src/products/products.service.ts:132-145 | a negative skip fails; otherwise total, page and pageSize as given and, for a non-negative size, exactly the rows from (page-1)·size on, min(size, what remains) of them, each with its images by position |
| ProductsService.FindAllPage | src/products/products.service.ts:116-146 | fails exactly on a negative skip; total counts every match; for a non-negative size data has min(size, total − skip) rows and row i is ordered match skip + i with its images |
| ProductsService.PageRowsMatch | src/products/products.service.ts:122-141 | every row on the page is a product of the table that passes the filter |
| ProductsService.PageOfSorted | src/products/products.service.ts:138-141 | a page of an ordered list is in the same order |
| ProductsService.SlugIndex | src/products/products.service.ts:29 | `findUnique` by slug: a row with it, or none exactly when no row has it |
| ProductsService.CreateSlug | src/products/products.service.ts:28 | a generated slug is a valid slug; a given one is used as it is |
| ProductsService.NewProduct | src/products/products.service.ts:32-51 | the new row takes the request's fields with currency '$', stock 0, isActive true and badges [] when absent, a category only when the id is non-empty, and zero rating and review count |
| ProductsService.Create | src/products/products.service.ts:27-54 | 'Slug already in use' when a product holds the slug, and nothing changes; otherwise one product row and one image row per given image; slugs stay unique |
| ProductsService.PatchProperties | src/products/products.service.ts:66-82 | an empty request changes nothing; every absent field (name, slug, sku, brand, description, price, compareAtPrice, currency, unit, unitLabel, badges, stock, isActive) keeps its value; an omitted category or an empty category id keeps the category, a null one disconnects it; the id and review figures never change; applying a request twice equals applying it once |
| ProductsService.PatchSetsGivenFields | src/products/products.service.ts:66-82 | every field the request gives replaces the stored value (the slug with the one the service computed), and a non-empty category id connects that category |
| ProductsService.UpdateSlug | src/products/products.service.ts:60 | the given slug as it is; else, for a truthy name, its slug; else none |
| ProductsService.SlugCheckFails | src/products/products.service.ts:61-64 | the service refuses a slug only when the unique index would also refuse it |
| ProductsService.ApplyPatch | src/products/products.service.ts:66-82 | the id, rating and review count never change |
| ProductsService.ReplaceImages | src/products/products.service.ts:85-92 | the other products' images all stay from the old table |
| ProductsService.OnlyEmptySlugReachesIndex | src/products/products.service.ts:60-98 | with unique slugs the only slug that passes the service's check yet clashes at the write is "" |
| ProductsService.ProductsOkUpdate | src/products/products.service.ts:94-98 | writing a row whose slug no other row holds keeps slugs unique |
| ProductsService.PatchedSlugIsFree | src/products/products.service.ts:94-98 | when the write is accepted, no other row holds the new slug |
| ProductsService.Update | src/products/products.service.ts:56-99 | 'Product not found' for an unknown id; 'Slug already in use' only for a non-empty slug that differs from the current one and is taken; a given image list replaces the images; the patched row `ApplyPatch(old row, dto, slug)` is written unless the unique index refuses the slug, so absent fields keep their values, given ones replace them and a non-empty category id connects (PatchProperties, PatchSetsGivenFields) |
| ProductsService.Remove | src/products/products.service.ts:101-105 | deletes the row, and no row with the id remains; an unknown id is the record-not-found error |
| ProductsService.RemoveProductKeepsOk | src/products/products.service.ts:103 | a delete keeps slugs unique and leaves no row with the deleted id |
| ProductsService.SetStock | src/products/products.service.ts:149-151 | only that row's stock changes; an unknown id is the record-not-found error |
| ProductsService.Activate | src/products/products.service.ts:163-165 | only that row's isActive changes; an unknown id is the record-not-found error |
| ProductsService.AddImage | src/products/products.service.ts:153-156 | 'Product not found' first; otherwise one image row for the product |
| ProductsService.ImageIndex | src/products/products.service.ts:159 | `delete` by image id finds the row with that id, or none exactly when there is none |
| ProductsService.RemoveImage | src/products/products.service.ts:158-161 | deletes the image by its id alone, then reads the product; a missing image is the record-not-found error and changes nothing |
| CartService.OpenCartIndex | src/cart/cart.service.ts:11-13 | the first OPEN cart of the user, none exactly when the user has none |
| CartService.EmptyCart | src/cart/cart.service.ts:14 | a new cart is OPEN, empty and has all totals zero |
| CartService.Ensured | src/cart/cart.service.ts:10-16 | the table is unchanged when the user has an OPEN cart; otherwise exactly one empty cart is appended; afterwards the user has an OPEN cart |
| CartService.EnsuredNext | src/cart/cart.service.ts:10-16 | the cart counter is bumped exactly when the user had no OPEN cart |
| CartService.EnsuredHasOpenCart | src/cart/cart.service.ts:10-16 | ensuring a cart keeps one OPEN cart per user and finds the existing cart or the appended one |
| CartService.EnsureOpenCart | src/cart/cart.service.ts:10-16 | returns the user's OPEN cart, created only when there was none |
| CartService.Get | src/cart/cart.service.ts:18-28 | the user's OPEN cart as it was, or a new empty one; either way the row now stored as the user's OPEN cart, with the counter bumped only when one was created |
| CartService.LineIndex | src/cart/cart.service.ts:38 | the line of that product, none exactly when the cart has none |
| CartService.Upsert | src/cart/cart.service.ts:37-48 | an existing line gains qty and keeps its unit price and currency; otherwise one line with the product's current price and currency is appended; other lines are unchanged |
| CartService.UpsertTwice | src/cart/cart.service.ts:37-48 | adding a then b of a product gives the same lines as adding a+b once |
| CartService.UpsertKeepsLinesOk | src/cart/cart.service.ts:37-48 | with positive qty, lines stay one per product with qty at least 1 |
| CartService.SubtotalUpsert | src/cart/cart.service.ts:37-48 | the subtotal grows by the line's price times the added qty |
| CartService.AddQty | src/cart/cart.service.ts:31 | a non-positive qty becomes 1; a positive one is kept |
| CartService.UpsertLine | src/cart/cart.service.ts:37-50 | the cart's lines become the upserted lines with totals recomputed; its owner and status and every other cart stay as they were |
| CartService.AddItem | src/cart/cart.service.ts:30-52 | 'Product not found' after the cart is ensured and with no line changed; otherwise the upserted lines with recomputed totals in the same cart row; the cart counter moves only as ensuring the cart moves it |
| CartService.SetQty | src/cart/cart.service.ts:60-63 | sets the line's qty exactly; fails when the cart has no such line |
| CartService.SetQtyKeepsLinesOk | src/cart/cart.service.ts:60-63 | a positive qty keeps lines well-formed |
| CartService.DeleteLines | src/cart/cart.service.ts:72 | no line of the product remains |
| CartService.DeleteLinesRemovesLine | src/cart/cart.service.ts:72 | with one line per product, deleting removes exactly that line, or nothing when it is absent |
| CartService.DeleteLinesKeepsLinesOk | src/cart/cart.service.ts:72 | deleting keeps lines well-formed |
| CartService.SubtotalDeleteLines | src/cart/cart.service.ts:72-73 | the subtotal drops by the deleted line's price times qty |
| CartService.UpdateItem | src/cart/cart.service.ts:54-68 | qty at most 0 deletes the line (a no-op when absent); a positive qty sets it exactly and fails on an absent line; totals recomputed; the cart keeps its id and the counter moves only as ensuring the cart moves it |
| CartService.SetLineQty | src/cart/cart.service.ts:57-66 | on cart `k`: qty at most 0 deletes the product's lines; otherwise the line's qty is set exactly, and a missing line fails with nothing written; the cart keeps its id and its totals are recomputed |
| CartService.RemoveItem | src/cart/cart.service.ts:70-75 | deletes only that product's line of the OPEN cart, which keeps its id; other carts untouched; the counter moves only as ensuring the cart moves it |
| CartService.Clear | src/cart/cart.service.ts:77-82 | empties the OPEN cart, which keeps its id, with all totals zero; other carts untouched; the counter moves only as ensuring the cart moves it |
| CartService.Recompute | src/cart/cart.service.ts:96-118 | subtotal is the sum of price times qty, discount and delivery fee are 0, and total equals subtotal |
| CartService.EmptyCartTotals | src/cart/cart.service.ts:96-118 | an empty cart has every total zero |
| CartService.SubtotalAppend | src/cart/cart.service.ts:99-102 | the sum over a concatenation is the sum of the parts |
| CartService.CartsOkUpdate | src/cart/cart.service.ts:109-117 | rewriting a cart's lines and totals keeps the table constraints and which cart is OPEN |
| OrdersService.PadStart | src/orders/orders.service.ts:7 | `padStart`: at least the width, the input at the end, fill before it |
| OrdersService.Slice | src/orders/orders.service.ts:8 | `slice(2, 8)`: the characters from start up to end, with end clamped to the length; empty when start is at or past end or the length |
| OrdersService.GenCode | src/orders/orders.service.ts:5-10 | the code starts with 'ORD-' |
| OrdersService.ParseCode | src/orders/orders.service.ts:9 | a parsed code has the 'ORD-' prefix, a '-' after the date, and the suffix after it |
| OrdersService.ParseGenCode | src/orders/orders.service.ts:5-10 | for a 4-digit year, the code reads back as its date and its suffix; the suffix is the random text's characters 2 to 8, at most 6 of them, with no lower-case letter |
| OrdersService.Step | src/orders/orders.service.ts:42-45 | a line fails exactly when its product is missing or its stock is below the line's qty; otherwise the table keeps its size and ids |
| OrdersService.Reserve | src/orders/orders.service.ts:40-54 | fails only with 'Product not found' or 'Insufficient stock'; keeps the table size |
| OrdersService.ReserveStock | src/orders/orders.service.ts:44-45 | each product's stock drops by exactly the quantity the lines ask of it, and a product asked for is never left negative |
| OrdersService.ReserveSucceeds | src/orders/orders.service.ts:42-44 | with one line per product, checkout reserves exactly when every line's product exists with enough stock |
| OrdersService.ReserveLines | src/orders/orders.service.ts:40-54 | the loop reserves as `Reserve` does and snapshots the lines on success |
| OrdersService.Snapshot | src/orders/orders.service.ts:47-52 | each order item copies productId, qty, unitPrice and currency from its cart line |
| OrdersService.SnapshotTotal | src/orders/orders.service.ts:47-56 | the order items add up to the cart's subtotal |
| OrdersService.OrderTotalIsItemsTotal | src/orders/orders.service.ts:56 | the order's total equals its items' total |
| OrdersService.CheckoutCart | src/orders/orders.service.ts:32-36 | the OPEN cart of the user when it has items; none otherwise ('Cart empty') |
| OrdersService.ClosedCartIsGone | src/orders/orders.service.ts:32-70 | after checkout the user has no OPEN cart, so a second checkout fails with 'Cart empty' |
| OrdersService.Checkout | src/orders/orders.service.ts:31-73 | 'Cart empty', or the first line's error with nothing changed; otherwise stock reserved, one PAID order of the user with the cart's total and the snapshot, and the cart CHECKED_OUT |
| OrdersService.ReserveKeepsProductsOk | src/orders/orders.service.ts:45 | stock decrements keep the product table's constraints |
| OrdersService.CloseCartKeepsCartsOk | src/orders/orders.service.ts:70 | closing the cart keeps the cart table's constraints |
| OrdersService.List | src/orders/orders.service.ts:16-22 | only the user's orders and all of them |
| OrdersService.ListNewestFirst | src/orders/orders.service.ts:19 | the list is newest first |
| OrdersService.Detail | src/orders/orders.service.ts:24-29 | the order with that id when it belongs to the user; none exactly when there is no such order |
| WishlistService.EntryIndex | src/wishlist/wishlist.service.ts:17-18 | `findUnique` by (userId, productId): the row with that pair, none exactly when absent |
| WishlistService.RemoveEntry | src/wishlist/wishlist.service.ts:19-20 | deleting a pair keeps pairs unique, removes it, and keeps every other pair |
| WishlistService.Toggled | src/wishlist/wishlist.service.ts:16-26 | a toggle removes one row when the pair is present and adds one otherwise |
| WishlistService.ToggleFlips | src/wishlist/wishlist.service.ts:16-26 | toggling keeps pairs unique, makes the pair present exactly when it was absent, and changes no other pair |
| WishlistService.ToggleTwice | src/wishlist/wishlist.service.ts:16-26 | toggling twice restores the set of pairs, and restores the table exactly from an absent pair |
| WishlistService.Toggle | src/wishlist/wishlist.service.ts:16-26 | returns liked=false after deleting a present pair and liked=true after adding an absent one; liked is true exactly when the pair is present afterwards; adding an unknown user or product fails on the foreign key |
| WishlistService.Remove | src/wishlist/wishlist.service.ts:28-30 | deletes the pair and no other; an absent pair is the record-not-found error |
| WishlistService.Entry | src/wishlist/wishlist.service.ts:11 | the pair with its product when the product exists, together with exactly that product's image rows; no product and no images otherwise |
| WishlistService.Mine | src/wishlist/wishlist.service.ts:9-13 | the user's pairs only, all of them, newest first |
| WishlistService.List | src/wishlist/wishlist.service.ts:8-14 | the user's entries only, all of them, newest first, each joined with its product and images as `Entry` gives |
| WishlistService.ReversedFilterRows | src/wishlist/wishlist.service.ts:9-12 | the rows listed are exactly the table's rows that pass the filter |
| WishlistService.ReversedFilterNewestFirst | src/wishlist/wishlist.service.ts:12 | of two rows listed, the earlier one was created later |
| Seqs.FilterOrderAt | src/wishlist/wishlist.service.ts:9-10 | two kept rows sit in the table in the order the filter keeps them |
| Seqs.ReversedFilterPair | src/wishlist/wishlist.service.ts:12 | two rows in the reversed filter sit in the table in the opposite order |

## Left out

- HTTP: controllers, routing, guards' wiring, DTO validation decorators, the response interceptor and the exception filter. The `x-session-id` header reaches `refresh` and `logout` as `sessionId`; an empty header is an absent one.
- Passport strategies (local, Google, Facebook). The local strategy only calls `validateUser`.
- bcrypt, `crypto.randomBytes`, `crypto.randomUUID` and `jwt.sign` are foreign code: a hash function parameter, the random token as a parameter, and the signed payload as a value.
- AuthService.SignAccess: always returns claims; the exception `jwt.sign` throws when `ACCESS_TOKEN_TTL` is malformed (such as "abc") is not modelled, because the parsing of time spans is foreign code.
- `normalizePhone` (libphonenumber) is a parameter. src/common/utils/phone.util.ts is not part of this model.
- `Prisma.Decimal`, `toFixed(2)` and JS floating-point money: prices and totals are integer cents, and rounding is not modelled.
- JS number widths. All integers are unbounded.
- Product rating is an integer.
- Concurrency: `Promise.all` inside checkout, races around `ensureOpenCart`, isolation levels. Requests run one at a time and each `$transaction` is all-or-nothing.
- `createSession` inside `refresh` writes through the outer client, not the transaction. That difference matters only under failures or concurrency, which are left out.
- The clock and `Math.random` are parameters. `addDays` is now + days × 86400000 ms, without daylight-saving shifts.
- Order code uniqueness is not checked by the code and is not modelled.
- The session row's `refreshToken` uuid column and the intermediate `randomUUID` token (overwritten by the digest) are left out.
- Product `attributes` (free-form JSON) and the category relation: the `include: { category: true }` join and the category foreign key on create/update are left out.
- The schema's referential actions on delete are left out. The schema file is not part of this model, so deleting a product or user does not cascade to carts, images or wishlist rows.
- `minPrice`/`maxPrice` arrive as numeric strings. The conversion to cents is left out, so the filter takes cents.
- Rows that tie under `orderBy` keep table order here; the database does not promise any order for ties.
- The category service and the seed script are not part of this model.
- src/products/dto/update-product.dto.ts is not part of this model. The update request is the create request with every field optional and a nullable category.
- AuthService.CreateSession: requires that no session already holds `hash(raw)`. The source relies on a 32-byte random token for this.
- AuthService.Login: requires the same freshness of the new token's digest.
- AuthService.Refresh: requires the same freshness of the new token's digest.
- ProductsService.FindAll: the order of `data` is stated only for a non-negative page size. A negative `take` pages back from the end of the ordered matches, and for it only the bound on the count is stated.
- ProductsService.Matching: case-insensitive matching folds ASCII letters only.
- Slug.Slugify: `normalize('NFKD')` is the identity here, as on ASCII input; non-ASCII letters are not decomposed.
- AuthService.MirrorPhone: the mirror write in `registerPhone` can never fire, because the reused user was found by that phone and a new user is created with it. The write is modelled as the identity, and a lemma states this.
- Text.ToLower: folds ASCII letters only; JS `toLowerCase` also folds non-ASCII letters. The same function lower-cases e-mails in `registerEmail` (src/auth/auth.service.ts:29), in `validateUser` (src/auth/auth.service.ts:87) and in `findByIdentifier` (src/users/users.service.ts:13), so e-mails that differ only in non-ASCII case are distinct here.
- QueryProduct.PageTransform: `Number(value)` is an integer or NaN here. A fractional number such as 2.5 cannot be represented, so `skip` for a fractional page is not modelled.
- QueryProduct.PageSizeTransform: the same restriction to integers and NaN applies to the page size.
- CartService.Get: the `include` of the lines' products and their images (src/cart/cart.service.ts:22-24) is not modelled; the result is the bare cart row with its lines. `addItem`, `updateItem`, `removeItem` and `clear` return through `get`, so the same holds for CartService.AddItem, UpdateItem, RemoveItem and Clear.
- OrdersService.List: the `include` of each order item's product (src/orders/orders.service.ts:20) is not modelled; the orders are bare rows with their items.
- OrdersService.Detail: the same product join (src/orders/orders.service.ts:27) is not modelled.
