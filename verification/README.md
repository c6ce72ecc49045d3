# GauShala Fresh admin: a Dafny model of the API and the editor logic

This project models the core of the GauShala Fresh dairy site, which has two parts.

**The Express API server (`backend/server.js`).** It keeps every collection in its own JSON document: users, categories, products, testimonials, banners, FAQs, inquiries and the settings object. Every handler reads a whole document, changes it and writes it back whole. The model covers:

- start-up seeding, where each document is written only when it is absent;
- the bearer-token gate in front of the admin routes, and the login and current-user handlers;
- the public reads, with their publish and active filters, category enrichment and `sortOrder` sorting;
- the public inquiry form;
- the admin create, update and delete handlers;
- the dashboard counts, the newest-first inquiry list and the wholesale settings replace.

**The admin client's editor logic (`src/pages`).** The model covers:

- the product editor's slug derivation and save decision;
- its variant and image list edits, the image upload gate and the name search;
- the dashboard's relative-time labels, "recent five" slice and stat cards;
- the settings editor's field edits and save.

Everything is pure. The store is an immutable value (`Store.Store`) and every handler is a function from the store and the request to a `Store.Reply`. A reply holds the store after the handler's writes, the HTTP status and the JSON body.

Some things the server gets from outside are passed in as parameters instead:

- bcrypt's password check, JWT signing and verification;
- fresh uuids and the clock;
- the browser's upload request and `Date` parsing.

JSON values are `Json.Value`, and a JavaScript `undefined` property is `Json.None`. Two JavaScript operators are modelled explicitly:

- `===` is `Json.StrictEq`. Objects and arrays are never strictly equal, because each one the handlers compare was parsed separately.
- Object spread is Dafny's right-biased map union. That makes the order of a spread something the model can state: in `{ id: uuidv4(), ...req.body, createdAt }` a body `id` replaces the generated one, but the time stamp cannot be overridden.

`Array.prototype.sort` is stable, so it is modelled as a stable insertion sort on an integer key (`Sorting.SortBy`).

Modules, in dependency order:

- `Json`: values and operators.
- `Text`: whitespace, trimming and the number a value coerces to under arithmetic.
- `Seqs`: filter, find, splice and slice.
- `Sorting`: stable sort.
- `Store`: documents, `readData` and `writeData`.
- `Seed`: `initializeData`.
- `Auth`: gate, login and me.
- `Resources`: admin create, update and delete.
- `Reads`: public reads, inquiry form, stats, admin lists, settings.
- `Api`: routes and the gate in front of them.
- `ProductsPage`, `DashboardPage`, `SettingsPage`: the client.

## Model

| member | source | states |
|---|---|---|
| Seqs.Filter | backend/server.js:314 | `Array.prototype.filter`: every kept element satisfies the predicate and the result is no longer than the input |
| Seqs.FilterMember | backend/server.js:314 | a value is in the filtered list exactly when it is in the list and satisfies the predicate |
| Seqs.FilterCount | backend/server.js:415 | filtering keeps every occurrence of a satisfying value and none of the others |
| Seqs.FilterIdempotent | backend/server.js:415 | filtering twice by the same predicate is filtering once |
| Seqs.KeptIndicesSound | backend/server.js:344 | the positions a filter keeps hold accepted elements and strictly increase |
| Seqs.KeptIndicesComplete | backend/server.js:344 | every position holding an accepted element is among the kept positions |
| Seqs.FilterSubsequence | backend/server.js:344 | the filtered list is the subsequence of the kept positions, in their order |
| Seqs.FindIndex | backend/server.js:406 | `findIndex`: the position of the first element satisfying the predicate, and `None` (the source's -1) exactly when none does |
| Seqs.Find | backend/server.js:293 | `find`: some element satisfies the predicate exactly when a result is returned, and the result is the first such element |
| Seqs.RemoveAt | src/pages/ProductsPage.tsx:188 | `splice(i, 1)`: the element at `i` is gone, earlier ones stay in place and later ones move down one; no change past the end |
| Seqs.InsertAt | src/pages/ProductsPage.tsx:252 | `splice(i, 0, x)`: `x` lands at `i`, or at the end when `i` is past it, and the rest keep their order |
| Seqs.Take | src/pages/DashboardPage.tsx:85 | `slice(0, n)`: the first `min(n, length)` elements, unchanged |
| Text.TrimPadding | backend/server.js:340 | whitespace around a word is exactly what `Number`'s trimming removes |
| Text.ShowIntRoundTrip | backend/server.js:340 | the text of an integer, with or without surrounding whitespace, converts back to that integer |
| Text.NumberOf | backend/server.js:340 | `null` and `false` convert to 0, `true` to 1, a number to itself, a string as `Number` reads it, an object to NaN; an empty array to 0, an array of two or more elements to NaN, an array holding one boolean to NaN, and an array of one other element as that element |
| Text.ReadInteger | backend/server.js:340 | trimmed text is a number exactly when it is empty (0), all decimal digits (their value), or a sign followed by at least one digit (the signed value); anything else, such as `12abc`, `1 2` or `3.5`, is NaN |
| Text.StringToNumber | backend/server.js:340 | after trimming, blank text converts to 0, decimal digits to their value and a sign with digits to the signed value; the result is a number exactly in those cases, so text such as `12abc` is NaN |
| Text.ToNumber | backend/server.js:340 | `undefined` and objects convert to NaN, `null` to 0, `true` to 1 and `false` to 0, a number to itself, a string as `Text.StringToNumber` reads it, and an array as `Text.NumberOf` converts it |
| Sorting.SortBy | backend/server.js:340 | the sort returns a permutation of its input, ordered by ascending key |
| Sorting.SortStable | backend/server.js:340 | the sort is stable: records with equal keys keep their relative order |
| Sorting.SortSorted | backend/server.js:348 | an already ordered list comes back unchanged |
| Store.Read | backend/server.js:30-34 | `readData` of an array document returns the stored array, and `[]` when the document does not exist |
| Store.ReadSettings | backend/server.js:30-34 | `readData('settings')` returns the settings object, and `[]` when the document does not exist |
| Store.Write | backend/server.js:36-38 | `writeData` replaces one document whole; every other document and the settings are untouched |
| Store.WriteSettings | backend/server.js:36-38 | writing the settings makes the next settings read return exactly the written object; the arrays are untouched |
| Seed.SeedCollection | backend/server.js:43-54 | a seeding block writes its default only when the document is absent, and never changes an existing document |
| Seed.SeedStep | backend/server.js:56-64 | one seeding block writes at most its own document, and that document exists afterwards |
| Seed.SeedAll | backend/server.js:41-259 | running the blocks in order keeps every existing document as it was and leaves every planned document present |
| Seed.Initialize | backend/server.js:41-259 | start-up never alters an existing document; missing settings get the default settings |
| Seed.InitializeComplete | backend/server.js:41-259 | after start-up all seven array documents and the settings exist |
| Seed.SeedAllWritesDefault | backend/server.js:43-258 | a document absent before the plan holds its default afterwards |
| Seed.InitializeWritesDefaults | backend/server.js:43-258 | every absent array document other than products holds its default after start-up; inquiries start empty |
| Seed.SeedAllLinks | backend/server.js:66-163 | products seeded after the categories exist are linked against the categories as they stand at the end |
| Seed.InitializeLinksProducts | backend/server.js:66-163 | seeded products link to the categories present after start-up, whether those were stored or just seeded |
| Seed.SeedAllPresent | backend/server.js:41-259 | when every planned document exists, seeding writes nothing |
| Seed.InitializeIdempotent | backend/server.js:41-259 | a second start-up changes nothing, whatever defaults it would use |
| Seed.AdminSeed | backend/server.js:43-54 | the seeded user is the single administrator with the default e-mail, the hashed password and role `admin` |
| Seed.FreshStoreSeeds | backend/server.js:41-259 | on an empty store start-up writes the administrator, an empty inquiry list and the default settings |
| Auth.Split | backend/server.js:275 | `split(' ')` returns at least one piece and no piece contains a space |
| Auth.SplitJoin | backend/server.js:275 | splitting loses nothing: joining the pieces with the separator gives the header back |
| Auth.BearerToken | backend/server.js:275 | the token is the second space-separated piece of the header, absent when there is no second piece |
| Auth.BearerRoundTrip | backend/server.js:275 | the header `Bearer <token>` yields exactly the token |
| Auth.Gate | backend/server.js:274-285 | the gate refuses with "No token provided" exactly when the token is missing or empty, and with "Invalid token" exactly when verification fails; otherwise it admits with the verified claims |
| Auth.NoHeaderRefused | backend/server.js:274-276 | a request without an Authorization header is refused with "No token provided" |
| Auth.BearerGate | backend/server.js:274-285 | a well-formed bearer header passes exactly when its token verifies |
| Auth.ViewHidesPassword | backend/server.js:300 | the user view carries only id, e-mail, name and role, never the password |
| Auth.Login | backend/server.js:290-301 | login never writes; with no user of that exact e-mail it answers 401 "Invalid credentials"; otherwise the first such user decides: a matching password gives 200 with a token signed over id, e-mail and role and the password-free view, a wrong one 401 "Invalid credentials", and a throwing check 500 |
| Auth.LoginFirstMatchDecides | backend/server.js:292-296 | users stored after the first one with the e-mail never change the login's answer |
| Auth.Me | backend/server.js:303-308 | `/me` answers 200 exactly when some user's id is strictly equal to the token's, with the view of the first such user, else 404 "User not found"; the body never holds the password |
| Auth.LoginThenMe | backend/server.js:290-308 | when verification returns every signed claim (it may add its own), tokens are non-empty and have no space, and user ids are distinct (otherwise `/me`'s `find` may return an earlier user with the same id), the token a login returns passes the gate with the user's id, e-mail and role, and `/me` answers with the same user view the login returned |
| Resources.NewRecord | backend/server.js:391-402 | a created record has the generated id unless the body carries one, the body's fields, and time stamps that the body cannot override |
| Resources.Create | backend/server.js:391-402 | create answers 201 with the new record, appends exactly it at the end, and leaves other documents and the settings untouched |
| Resources.Merge | backend/server.js:404-412 | an update is a shallow right-biased merge: stamps over body over the old record, keys from all three |
| Resources.Update | backend/server.js:404-412 | update answers 404 with the collection's message and writes nothing exactly when no record has the id; otherwise only the first match is replaced by the merge, and other documents are untouched |
| Resources.UpdateKeepsLength | backend/server.js:404-412 | an update never changes the length of the collection |
| Resources.MergeIdempotent | backend/server.js:434-442 | merging the same body twice at the same time equals merging once |
| Resources.Without | backend/server.js:416 | `filter(p => p.id !== id)`: a record stays exactly when it was in the collection and does not carry the id, and nothing is added |
| Resources.Delete | backend/server.js:414-419 | delete always answers `{ success: true }` and writes back the records without that id, in order |
| Resources.DeleteRemovesExactly | backend/server.js:414-419 | after a delete no record has the id, and every other record occurs as often as before |
| Resources.DeleteAbsentId | backend/server.js:444-449 | deleting an id no record carries changes nothing |
| Resources.DeleteIdempotent | backend/server.js:474-479 | deleting twice is deleting once |
| Resources.CreateThenDelete | backend/server.js:486-509 | deleting the record a create just appended restores the collection, when the id was fresh and the body had none |
| Reads.Enrich | backend/server.js:315-320 | an enriched product differs from the stored one only in `category`, which is present exactly when some category's id matches, and is then the first such category |
| Reads.EnrichAll | backend/server.js:316-319 | `products.map(...)`: one entry per product, the i-th being that product enriched with its category |
| Reads.PublicProducts | backend/server.js:313-321 | the public list has one entry per published product, in stored order: entry `i` is the `i`-th published product, enriched |
| Reads.PublicProductsVisibility | backend/server.js:313-321 | a stored product appears publicly exactly when it is published |
| Reads.AdminProducts | backend/server.js:385-389 | the admin list has every product, in order, each enriched with its first matching category |
| Reads.ProductBySlug | backend/server.js:323-330 | lookup by slug answers 404 "Product not found" exactly when no published product has that slug, else the first one, enriched; it never writes |
| Reads.SortOrder | backend/server.js:340 | the key the comparator subtracts: a numeric `sortOrder` is itself, a numeric string is its value, a missing or `null` one is 0 |
| Reads.SortOrderStrings | backend/server.js:340 | a sort order stored as the text of an integer sorts as that integer, and the empty string as 0 |
| Reads.PublicBanners | backend/server.js:336-341 | public banners are a permutation of the active ones on the requested page, sorted by `sortOrder`, stably |
| Reads.SelectBanners | backend/server.js:338-339 | a banner is selected exactly when it is stored, active and, when a non-empty page is asked for, on that page; no banner is added |
| Reads.SelectedBannersQualify | backend/server.js:336-341 | every selected banner is active, and on the requested page when a non-empty page is given |
| Reads.BannerSortScenario | backend/server.js:340 | banners with sort orders 3, 1, 2 come out in the order 1, 2, 3 |
| Reads.PublicTestimonials | backend/server.js:343-345 | public testimonials are the published ones in stored order, taken from exactly the published positions, each as often as stored |
| Reads.PublicFaqs | backend/server.js:347-349 | public FAQs are a permutation of the published ones, sorted by `sortOrder`, stably |
| Reads.NewInquiry | backend/server.js:355-367 | an inquiry holds only the six form fields the body supplied, a fresh id, status `new` and the creation time |
| Reads.SubmitInquiry | backend/server.js:355-367 | the inquiry form answers 201, appends exactly the new inquiry and touches nothing else |
| Reads.Stats | backend/server.js:374-382 | each count is its collection's length; `newInquiries` counts the inquiries with status `new` and never exceeds `inquiries` |
| Reads.NewCountZero | backend/server.js:380 | the new-inquiry count is zero exactly when no inquiry is new |
| Reads.AdminInquiries | backend/server.js:512-514 | the admin inquiry list is a permutation of the inquiries, newest first, and inquiries with the same creation time keep their stored order |
| Reads.SettingsReplaceRoundTrip | backend/server.js:538-541 | the settings write replaces the document: the next read returns the body, repeating it changes nothing, and the arrays are untouched |
| Api.Serve | backend/server.js:290-541 | only the inquiry form and the admin create, update, delete and settings routes can write; every other route, login included, returns the store unchanged |
| Api.Handle | backend/server.js:274-285 | guarded routes run their handler only when the gate admits, and a refusal answers 401 with the gate's message and writes nothing |
| Api.WritesNeedGate | backend/server.js:290-541 | the store changes only through the public inquiry form or a request the gate admitted |
| Api.AnonymousRefused | backend/server.js:274-276 | without an Authorization header every guarded route answers 401 "No token provided" |
| Api.SettingsPutThenGet | backend/server.js:538-541 | an admitted settings PUT echoes the body, and the public settings route then returns it |
| Api.SoleUserLogin | backend/server.js:290-301 | a store whose only user has the body's e-mail admits a login whose password checks, answering the signed token and the user view |
| Api.FreshAdminLogin | backend/server.js:290-301 | on a freshly seeded store the default administrator's login succeeds when the password matches the seeded hash |
| ProductsPage.ReplaceRuns | src/pages/ProductsPage.tsx:136 | replacing whitespace runs leaves no whitespace and never lengthens the text |
| ProductsPage.ReplaceRunsRun | src/pages/ProductsPage.tsx:136 | each maximal whitespace run becomes exactly one hyphen, and the text on either side is replaced on its own |
| ProductsPage.ReplaceRunsKeepsText | src/pages/ProductsPage.tsx:136 | every character other than whitespace and hyphens survives the replacement, in order |
| ProductsPage.ReplaceRunsNoSpace | src/pages/ProductsPage.tsx:136 | text without whitespace is left unchanged |
| ProductsPage.ReplaceRunsFrom | src/pages/ProductsPage.tsx:136 | the replacement introduces no character except the hyphen |
| ProductsPage.DeriveSlug | src/pages/ProductsPage.tsx:136 | a derived slug contains no whitespace and no upper-case letter, is no longer than the name, and keeps the lower-cased name's other characters in order |
| ProductsPage.DeriveSlugRuns | src/pages/ProductsPage.tsx:136 | the slug of a name is the lower-cased name with each maximal whitespace run turned into one hyphen |
| ProductsPage.DeriveSlugWord | src/pages/ProductsPage.tsx:136 | a name without whitespace gives its lower-cased self |
| ProductsPage.DeriveSlugIdempotent | src/pages/ProductsPage.tsx:136 | deriving a slug from a derived slug changes nothing |
| ProductsPage.Slug | src/pages/ProductsPage.tsx:136 | a truthy slug is kept unchanged; otherwise the slug is derived from a string name, and none can be made when the name is not a string |
| ProductsPage.Save | src/pages/ProductsPage.tsx:128-154 | save sends nothing exactly when there is no product, its name is falsy, or no slug can be made; otherwise it calls update exactly when the product has an id, sending the product with its slug and nothing else changed |
| ProductsPage.SaveExisting | src/pages/ProductsPage.tsx:128-142 | editing a saved product that has a slug sends exactly the edited product to the update route |
| ProductsPage.SaveNamedProduct | src/pages/ProductsPage.tsx:128-145 | a product with a non-empty string name is always sent, with a whitespace-free derived slug |
| ProductsPage.UpdateVariant | src/pages/ProductsPage.tsx:167-172 | a variant edit changes only the chosen field of the chosen variant; the length and every other variant and product field stay |
| ProductsPage.AddVariant | src/pages/ProductsPage.tsx:174-183 | adding appends exactly one blank in-stock variant with price 0 and keeps the others |
| ProductsPage.RemoveVariant | src/pages/ProductsPage.tsx:185-190 | removing a variant splices out the one at the index and changes no other product field |
| ProductsPage.RemoveAtExactly | src/pages/ProductsPage.tsx:185-190 | removing at an in-range index takes out exactly that element and keeps the others in order |
| ProductsPage.AddThenRemoveVariant | src/pages/ProductsPage.tsx:174-190 | removing the variant just added restores the product |
| ProductsPage.RemoveKeepsOneVariant | src/pages/ProductsPage.tsx:754 | while the remove button is enabled, a removal leaves at least one variant |
| ProductsPage.RemoveImage | src/pages/ProductsPage.tsx:241-246 | removing an image splices out the one at the index and changes no other product field |
| ProductsPage.Move | src/pages/ProductsPage.tsx:248-254 | a move keeps the length and the multiset of images, and puts the moved image at the target, or last when the target is past the end |
| ProductsPage.MoveImage | src/pages/ProductsPage.tsx:248-254 | moving an image changes only the image list, as `Move` describes |
| ProductsPage.MoveLeft | src/pages/ProductsPage.tsx:628 | the left arrow swaps an image with its left neighbour |
| ProductsPage.MoveRight | src/pages/ProductsPage.tsx:669 | the right arrow swaps an image with its right neighbour |
| ProductsPage.MoveAdjacentUndo | src/pages/ProductsPage.tsx:626-685 | the opposite arrow undoes a move |
| ProductsPage.Accepted | src/pages/ProductsPage.tsx:203-212 | a file passes the upload gate exactly when its MIME type starts with `image/` and its size is at most 10 MiB (10485760 bytes) |
| ProductsPage.FullUrl | src/pages/ProductsPage.tsx:216-218 | a URL not rooted at `/` is kept as is, and a rooted one grows by exactly the API origin's length |
| ProductsPage.FullUrlKeepsPath | src/pages/ProductsPage.tsx:216-218 | the server's URL is always the tail of the full URL, and a rooted one has exactly the API origin in front of it |
| ProductsPage.UploadLimitBoundary | src/pages/ProductsPage.tsx:203-212 | a file of exactly 10 MiB is accepted, one byte more is rejected, and a non-image type is rejected |
| ProductsPage.UploadAll | src/pages/ProductsPage.tsx:201-221 | the upload loop fails exactly when an accepted file's upload fails; otherwise it yields one URL per accepted file, in order, prefixed with the API origin when rooted at `/` |
| ProductsPage.UploadImages | src/pages/ProductsPage.tsx:193-239 | after uploads the URLs follow the existing images and nothing else changes; a failure or no accepted file leaves the editor as it was |
| ProductsPage.RejectedFilesIgnored | src/pages/ProductsPage.tsx:201-212 | files that fail the type or size gate never change the editor |
| ProductsPage.Search | src/pages/ProductsPage.tsx:256-258 | the search throws exactly when some product's name is not a string; otherwise it keeps, in their order, exactly the products whose lower-cased name contains the lower-cased query |
| ProductsPage.EmptySearch | src/pages/ProductsPage.tsx:256-258 | an empty query lists every product, in order, when every name is a string |
| ProductsPage.SearchIgnoresCase | src/pages/ProductsPage.tsx:256-258 | the search result does not depend on the case of the query |
| DashboardPage.FormatDate | src/pages/DashboardPage.tsx:93-104 | an unparsable date shows the date; "Just now" only below one hour; "Nh ago" only with N from 1 to 23 and an age of N to N+1 hours; "Nd ago" only with N from 1 to 6 and an age of N to N+1 days |
| DashboardPage.JustNowWindow | src/pages/DashboardPage.tsx:93-104 | "Just now" is shown exactly for dates less than an hour old, future dates included |
| DashboardPage.HoursWindow | src/pages/DashboardPage.tsx:93-104 | "Nh ago" is shown exactly for ages of one to 23 full hours, with N the whole hours |
| DashboardPage.DaysWindow | src/pages/DashboardPage.tsx:93-104 | "Nd ago" is shown exactly for ages of one to six full days, with N from 1 to 6 |
| DashboardPage.DateWindow | src/pages/DashboardPage.tsx:93-104 | the date itself is shown exactly for dates a week old or older and for unparsable dates |
| DashboardPage.Recent | src/pages/DashboardPage.tsx:85 | the recent list is the first five inquiries, or all when fewer, in order |
| DashboardPage.RecentAreNewest | src/pages/DashboardPage.tsx:85 | taken from the newest-first admin list, the recent five are at least as new as every inquiry left out |
| DashboardPage.StatDisplay | src/pages/DashboardPage.tsx:190 | a card shows its count, or 0 while the stats are not loaded or the key is missing or null |
| DashboardPage.Badge | src/pages/DashboardPage.tsx:193-206 | the "N new" badge appears only on the inquiries card and only when `newInquiries` is truthy |
| DashboardPage.CardsShowServerCounts | src/pages/DashboardPage.tsx:190-206 | with the server's stats each card shows its collection's size, and the badge appears exactly when some inquiry is new |
| SettingsPage.UpdateField | src/pages/SettingsPage.tsx:59-62 | a field edit sets exactly that top-level field and keeps every other field; it does nothing before the settings load |
| SettingsPage.UpdateSocialLink | src/pages/SettingsPage.tsx:64-70 | a social link edit sets exactly that platform and keeps the other platforms and every top-level field; it does nothing before the settings load |
| SettingsPage.UpdateFieldUndo | src/pages/SettingsPage.tsx:59-62 | setting a field back to its old value restores the settings |
| SettingsPage.FieldEditsCommute | src/pages/SettingsPage.tsx:59-62 | edits of two different fields commute |
| SettingsPage.SaveSettings | src/pages/SettingsPage.tsx:45-57 | nothing is sent before the settings load; a sent save succeeds exactly when the session passes the gate, and then replaces the settings and nothing else |
| SettingsPage.SaveThenLoad | src/pages/SettingsPage.tsx:45-57 | save sends the whole object, and the server's replace makes the next load, admin or public, return exactly it |

## Left out

- File system and HTTP plumbing. `fs`, paths, CORS, static files, `app.listen` and Express's path matching are not modelled. Routes are taken as already matched (`Api.Route`). The admin operations a collection does not register (creating an inquiry, updating or deleting a category) are `Api.Route` values that `Api.Registered` excludes; Express would answer them with its default 404.
- Express's own responses. These are the default 404 page, the 500 page for a thrown error, and its handling of bodies that are not JSON objects. The only thrown error modelled is the password check's; it answers 500 with the body `null`.
- Foreign calls are parameters:
  - bcrypt comparison is `Auth.Check`, and bcrypt hashing is a given hash;
  - JWT signing, verification and the 7-day expiry are functions;
  - `uuidv4` is an id supply;
  - `new Date().toISOString()` is one given time stamp per request, although create calls it twice;
  - `new Date(createdAt)` is a `timeOf` function to milliseconds.
- File upload: `POST /api/admin/upload`, multer's disk storage, its filename generator and its server-side size limit. This is library file I/O. On the client the upload request is a function returning the URL, or failure.
- Concurrency between requests. Each handler is one atomic step.
- Fractional numbers. JSON numbers are integers, so the fractional seeded product ratings are left out of `Seed.ProductSeed`.
- Reads.SortOrder: the comparator's `-` converts a `sortOrder` as `Text.ToNumber` does, so numeric strings sort by their value. A `sortOrder` that converts to NaN (missing, an object, a non-numeric string) makes the comparator return NaN, which leaves the order to the engine; the model orders such records as if their key were 0.
- Text.StringToNumber: reads the empty string, whitespace and optionally signed decimal integers. Fractions, exponents, hexadecimal, octal and binary prefixes and `Infinity` are also numbers in JavaScript; here they read as NaN, because JSON numbers are integers in this model.
- Reads.AdminInquiries: `timeOf` returns an integer for every `createdAt`. A `createdAt` that `Date` cannot parse gives NaN in the source, which makes the newest-first order engine-dependent; that case is not modelled.
- ProductsPage.ReplaceRuns: its own contract states only that no whitespace is left and the text never grows. The full replacement, one hyphen per maximal run, is stated by `ProductsPage.ReplaceRunsRun` together with `ProductsPage.ReplaceRunsNoSpace`.
- ProductsPage.Lower: lower-cases ASCII letters only. JavaScript's `toLowerCase` also lower-cases other scripts.
- Json.Spread: `{...x}` of a non-empty string or an array copies its indices as keys (to the characters or the elements); the model gives `{}` for both. Only objects are spread in the stored data.
- Json.ListOr: `[...(x || [])]` of a truthy value that is not an array behaves differently in the source: a non-empty string spreads into its characters, and a number, `true` or an object throws a TypeError. The model gives `[]` for all of these. An array is copied exactly. The stored data keeps `variants` and `images` as arrays.
- ProductsPage.UpdateVariant and ProductsPage.MoveImage require an existing index. The form only passes indices of rendered elements; an index past the end would create holes or move `undefined`.
- SettingsPage: the editor state is an object or `null`. The `[]` the server returns before any settings exist is not modelled, because start-up always seeds the settings.
- Locale date formatting: `toLocaleDateString` is the single label `DashboardPage.DateString`.
- React rendering, toasts, animation, navigation, the API client and the auth context are UI plumbing without logic to state. So are the banner, testimonial, FAQ, inquiry and login pages.
