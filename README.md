# Wiredan marketplace core in Dafny

This project models the core of the Wiredan agricultural marketplace. Farmers list produce, buyers place orders with a 2.5% fee, and every user has a role and a KYC status. Its parts:

- **The worker's API handlers.** Registration, login sessions, `me` and logout; profile updates; role changes and admin promotion; KYC submission; listing creation with its open-order guard; order placement; and the find-or-create step of Google sign-in. Each handler is a method over the entity stores it reads and writes, and over the session namespace.
- **The entity stores.** A state blob per id plus an index of ids in creation order, one store per kind (user, listing, order, chat). Also the chat board's message append.
- **Password storage.** The lowercase base-16 encoding of byte buffers (section 8 of RFC 4648). Hashing and verification run over an abstract deterministic key derivation that stands for PBKDF2 (section 5.2 of RFC 8018).
- **The client's currency store.** A table of display currencies and the selected one, changed by selecting a code and re-resolved when the persisted state is loaded.
- **Business rules from the client pages:**
  - the listing form schema and its payload;
  - the order attempt, quantity clamp, order button and initials on the listing page;
  - the dispute dialog's evidence checks and submit guard;
  - the marketplace's filter, sort and category list;
  - the order progress steps and the offered status change;
  - the orders table's participant filter, newest-first sort, listing map and role label.

### Layout

| File | What it holds |
|---|---|
| `wrappers.dfy` | `Option` and `Result` |
| `js_strings.dfy` | JavaScript string operations used by the source: `length` in UTF-16 code units, `toLowerCase`, `trim`, `split`, `includes`, `startsWith`, `parseInt` |
| `seqs.dfy` | `filter`, first-occurrence `Set` order, and a stable comparator sort |
| `shared_types.dfy` | the shared records and enumerations |
| `entity_store.dfy` | the indexed entity store, as a class |
| `entities.dfy` | the four entity kinds |
| `auth_utils.dfy` | the hex codec and password hashing |
| `user_routes.dfy` | the route handlers |
| `currency_store.dfy` | the currency store |
| the remaining files | one client page or component each |

### Modelling choices

- Fresh ids, session tokens and salts are parameters. So are clock readings, and so is the browser's object URL for a chosen file.
- Timestamps are integers: milliseconds since the epoch.
- Prices, quantities and money are `real`, not IEEE doubles.
- A request field that `isStr` rejects is `None`. `isStr` lives in `worker/core-utils`, which is not part of this model, so whether it accepts the empty string is not modelled: the model lets `""` through as `Some("")`. A missing listing name or farmer id is the empty string.
- The generic store base class (`worker/core-utils`) is not part of this model. Its semantics here are a choice, not something derived from the call sites. Every `create` call already follows an `exists` or `getState` check, or uses a fresh UUID, so no handler depends on the first choice:
  - `create` refuses an existing id;
  - `getState`, `patch` and `mutate` on a missing id fail with `NotFound` and change nothing;
  - `list` returns the blobs in index order.
- A `patch` is the read-modify-write `Mutate` with the merge as its update function.
- Handlers run one at a time.
- `POST /api/users/promote` is registered after `POST /api/users/:id`. Under first-match routing, the profile handler receives those requests with id `promote`. Routing itself is not modelled; `Promote` models the promote handler's own body.
- The order guard only rejects a quantity that is absent or 0. A negative quantity therefore passes, and the listing's quantity then grows (`UserRoutes.NegativeQuantityAccepted`).
- The mock password `social_login_mock_password` is accepted for every existing account, not only for accounts created through Google sign-in (worker/user-routes.ts:54-58; `UserRoutes.LoginAccepted`).
- The currency store's rehydration comment intends fresh rates from the bundled table. Under the persist middleware's default merge, the persisted table replaces the bundled one before `onRehydrateStorage` runs. The lookup then searches the persisted, possibly stale, table (src/lib/currencyStore.ts:35-41; `CurrencyStore.CurrencyState.Rehydrate`). The merge behaviour is that of the middleware's defaults and is stated as the model's assumption.
- String lengths in the listing schema are UTF-16 code units, as zod counts them (`JsStrings.Utf16Length`). So the name "a😀", two characters and three code units, passes the three-unit minimum.
- `getInitials(" Bob")` gives `"undefinedB"`: the empty first word's missing first character is rendered as the text `undefined` (`ListingDetail.InitialsOfLeadingSpace`).

## Model

| member | source | states |
|---|---|---|
| SharedTypes.EnumerationsComplete | shared/types.ts:6-8 | UserRole has exactly five values, KycStatus four and OrderStatus seven, each listed once |
| AuthUtils.BufferToHex | worker/auth-utils.ts:8-10 | the encoding has two characters per byte and only lowercase hex digits |
| AuthUtils.ByteToHexDigits | worker/auth-utils.ts:9 | a byte becomes its high and low nibble digits, zero-padded to two |
| AuthUtils.BufferToHexAt | worker/auth-utils.ts:8-10 | characters 2k and 2k+1 of the encoding are the two digits of byte k, so bytes come out in order |
| AuthUtils.RoundTrip | worker/auth-utils.ts:8-18 | decoding an encoding gives back every byte sequence |
| AuthUtils.EncodeDecode | worker/auth-utils.ts:8-18 | encoding the decoding of an even-length lowercase hex string gives the string back |
| AuthUtils.DecodeHex | worker/auth-utils.ts:12-18 | half as many bytes as characters, rounded down; byte k is the `Uint8` conversion of `parseInt` of characters 2k and 2k+1 in base 16 |
| AuthUtils.DecodeHexDigits | worker/auth-utils.ts:12-18 | on hex digits, byte k of the decoding is 16 times the value of character 2k plus that of character 2k+1 |
| AuthUtils.HexToBuffer | worker/auth-utils.ts:12-18 | the loop writing two characters at a time into a zeroed buffer of `|hex|/2` bytes yields the decoding, including odd lengths and non-digits |
| AuthUtils.HashPassword | worker/auth-utils.ts:24-36 | the hash has 128 lowercase hex digits and the salt 32, and the salt decodes to the salt bytes used |
| AuthUtils.VerifyPassword | worker/auth-utils.ts:44-54 | true exactly when the key re-derived with the decoded salt encodes to the stored hash |
| AuthUtils.PasswordMatchesIff | worker/auth-utils.ts:44-54 | a hash matches exactly when it is the 128-digit lowercase encoding of the re-derived key |
| AuthUtils.HashThenVerify | worker/auth-utils.ts:24-54 | with a deterministic derivation, a password verifies against the hash and salt that hashing it produced |
| EntityStore.IndexedEntity.GetState | worker/user-routes.ts:332 | the stored blob exactly when the id exists, else `NotFound` |
| EntityStore.IndexedEntity.Exists | worker/user-routes.ts:29 | a blob is stored under the id, which under the store invariant is the same as the id being in the index |
| EntityStore.IndexedEntity.Items | worker/user-routes.ts:177 | one blob per indexed id, in index (creation) order: item k is the blob stored under the k-th indexed id |
| EntityStore.IndexedEntity.Create | worker/user-routes.ts:41 | a taken id fails with nothing changed; otherwise the blob is stored, the id appended to the index, and the listing grows by the blob |
| EntityStore.IndexedEntity.Mutate | worker/user-routes.ts:116 | a missing id fails with nothing changed; otherwise the blob becomes `f` of it, while the index and every other blob are untouched |
| Entities.NamesDistinct | worker/entities.ts:5-54 | the kinds' entity and index names are pairwise distinct, and no entity name is an index name |
| Entities.NewStore | worker/entities.ts:5-54 | a new store for a kind carries the kind's entity and index names and is empty |
| Entities.InitialStates | worker/entities.ts:8-55 | the default user is a Farmer with an unsubmitted KYC and empty id, name and location; the default listing is grade A with price and quantity 0 and empty strings; the default order is Placed with no history, no money and no dispute; a new board has no messages |
| Entities.ListMessages | worker/entities.ts:56-59 | the board's stored messages unchanged, or `NotFound` |
| Entities.SendMessage | worker/entities.ts:60-64 | one message with the board's id, the user id, the text and the clock reading is appended; nothing else in the store changes, and listing the board gives the old messages plus it |
| Entities.AppendMessageKeepsHistory | worker/entities.ts:62 | the update keeps the board's id, title and earlier messages and puts the new message last |
| UserRoutes.WithoutCredentials | worker/user-routes.ts:42 | the returned user has no hash or salt and is otherwise the stored user |
| UserRoutes.SessionStore.Get | worker/user-routes.ts:78 | the user id stored under `session:<token>`, if any |
| UserRoutes.SessionStore.Put | worker/user-routes.ts:61 | the token now maps to the user id, and no other token's session changes |
| UserRoutes.SessionStore.Delete | worker/user-routes.ts:69 | the token no longer has a session, and no other token's session changes |
| UserRoutes.SessionKeyInjective | worker/user-routes.ts:61 | distinct tokens get distinct session keys |
| UserRoutes.BearerToken | worker/user-routes.ts:67-69 | a token taken from the header is non-empty and has no space |
| UserRoutes.BearerTokenOfHeader | worker/user-routes.ts:74-75 | the header `Bearer <token>` yields the token |
| UserRoutes.NoTokenWithoutSpace | worker/user-routes.ts:75-76 | a header without a space yields no token |
| UserRoutes.RegisteredUser | worker/user-routes.ts:32-40 | the new user's id is the lowercased e-mail; a Farmer with KYC not submitted, no location and no avatar, carrying the given hash and salt |
| UserRoutes.Register | worker/user-routes.ts:24-44 | missing fields or an existing lowercased e-mail give the source's errors and change nothing; otherwise the user is stored under the lowercased e-mail as a Farmer with unsubmitted KYC, no location and the hashed password, and returned without credentials |
| UserRoutes.LoginAccepted | worker/user-routes.ts:54-58 | any password other than the mock one is accepted only for a user whose stored hash is a 128-digit lowercase hex string |
| UserRoutes.RegisterThenLogin | worker/user-routes.ts:31-57 | a registered user passes the login check with the password they registered with |
| UserRoutes.NoCredentialsOnlyMock | worker/user-routes.ts:54-58 | a user with an absent or empty hash logs in with the mock password and with nothing else |
| UserRoutes.Login | worker/user-routes.ts:46-64 | missing fields, an unknown lowercased e-mail or a failed check give the source's errors and no session; otherwise the fresh token maps to the user's id and the user is returned without credentials |
| UserRoutes.Logout | worker/user-routes.ts:66-71 | always "Logged out"; the header's token, if any, loses its session and nothing else changes |
| UserRoutes.Me | worker/user-routes.ts:73-87 | a user is returned only for a token whose session names an existing user, and that user is returned without credentials; otherwise Unauthorized |
| UserRoutes.SessionIdentifiesUser | worker/user-routes.ts:73-87 | a session mapping a token to a stored user makes `me` with `Bearer <token>` answer with that user |
| UserRoutes.GetUser | worker/user-routes.ts:96-103 | the stored user without credentials exactly when the id exists, else "user not found" |
| UserRoutes.UpdatedProfile | worker/user-routes.ts:111-116 | the location changes when given; the name changes when given and KYC is not Verified; every other field is the same |
| UserRoutes.UpdatedProfileKeepsIdentity | worker/user-routes.ts:111-116 | id, role, KYC status and credentials are never touched |
| UserRoutes.UpdateProfile | worker/user-routes.ts:105-120 | an unknown id gives "user not found" and changes nothing; otherwise only that user's record changes, to the updated profile |
| UserRoutes.SetRole | worker/user-routes.ts:122-133 | a missing role or an unknown id gives the source's errors and changes nothing; otherwise only the user's role changes |
| UserRoutes.Promote | worker/user-routes.ts:135-150 | a missing e-mail, an unknown id (the e-mail as given) or an existing Admin give the source's errors and change nothing; otherwise only the role changes, to Admin |
| UserRoutes.SubmitKyc | worker/user-routes.ts:152-164 | an unknown id gives "User not found"; otherwise, after the two patches, only the KYC status changes, to Verified |
| UserRoutes.ConflictingOpenOrderIff | worker/user-routes.ts:177-190 | the guard rejects exactly when an order that is neither Delivered nor Cancelled is on a listing of the same farmer with a case-insensitively equal name |
| UserRoutes.ClosedOrdersNeverConflict | worker/user-routes.ts:183-187 | delivered and cancelled orders never block a listing |
| UserRoutes.FromDraft | worker/user-routes.ts:192 | the stored listing is the draft's every field under the fresh id |
| UserRoutes.CreateListing | worker/user-routes.ts:173-195 | a missing name or farmer id, or a conflicting open order, gives the source's error with nothing stored; otherwise exactly one listing, the draft under the fresh id, is added and returned |
| UserRoutes.OrderRejected | worker/user-routes.ts:205-212 | the first failing guard, in the source's order; no rejection exactly when the ids are non-empty, the quantity present and non-zero, the listing exists and has at least the quantity |
| UserRoutes.NewOrder | worker/user-routes.ts:214-233 | the order carries the request's ids and quantity and the listing's farmer as seller; it is Paid; fees are 2.5% of the subtotal and total less fees is the subtotal; its history is Placed at creation and Paid one second after the second clock reading |
| UserRoutes.NewOrderConsistent | worker/user-routes.ts:214-233 | the history is ordered in time and ends in the current status, and the total is 41 times the fees |
| UserRoutes.OrderExample | worker/user-routes.ts:204-236 | 4 units at 2.00 of a listing of 10 are accepted, with fees 0.20, total 8.20 and 6 units left |
| UserRoutes.NegativeQuantityAccepted | worker/user-routes.ts:206-212 | a quantity of -1 passes every guard, and writing the stock back would increase it |
| UserRoutes.AcceptedOrderKeepsStockNonNegative | worker/user-routes.ts:212-236 | an accepted order never leaves the listing's quantity below zero |
| UserRoutes.PlaceOrder | worker/user-routes.ts:204-238 | each rejection gives its own error and writes nothing; otherwise the new order is stored under the fresh id, and only the listing's quantity changes, to the old quantity less the order's |
| UserRoutes.GoogleDisplayName | worker/user-routes.ts:328-329 | the Google name when non-empty; otherwise the prefix of the e-mail before its first `@` |
| UserRoutes.GoogleUser | worker/user-routes.ts:335-343 | the created user's id is the e-mail; a Farmer with KYC not submitted, no location and no avatar, with empty hash and salt strings |
| UserRoutes.GoogleUserOnlyMock | worker/user-routes.ts:335-343 | a user created by Google sign-in, with empty credential strings, logs in with the mock password only |
| UserRoutes.GoogleFindOrCreate | worker/user-routes.ts:328-353 | the lowercased e-mail's stored user is returned, else a new Farmer with the display name is added; either way the fresh token maps to the e-mail |
| CurrencyStore.FindByCode | src/lib/currencyStore.ts:27 | an entry is found exactly when one has the code, and it is the first such entry |
| CurrencyStore.AvailableCodesDistinct | src/lib/currencyStore.ts:14-20 | every code appears in the table exactly once |
| CurrencyStore.FoundEntryUnique | src/lib/currencyStore.ts:14-27 | with distinct codes, the entry found is the only one with its code |
| CurrencyStore.CurrencyState.constructor | src/lib/currencyStore.ts:24-25 | the whole table, with its first entry selected: USD at rate 1, a table entry |
| CurrencyStore.CurrencyState.SetCurrency | src/lib/currencyStore.ts:26-31 | a known code selects that table entry; an unknown one changes nothing; the table is never changed and the selection stays an entry |
| CurrencyStore.CurrencyState.OnRehydrate | src/lib/currencyStore.ts:35-44 | the selection becomes the table's entry with the same code, making it an entry, or is kept when there is none |
| CurrencyStore.CurrencyState.Rehydrate | src/lib/currencyStore.ts:21-47 | the persisted table and selection replace the state, then the selection is re-resolved against the persisted table |
| OrderTracking.CurrentStepIndex | src/pages/OrderTrackingPage.tsx:17-22 | the index is -1 or one of the four steps |
| OrderTracking.StepIndexBijective | src/pages/OrderTrackingPage.tsx:11-22 | Placed, Paid, Shipped and Delivered map one-to-one onto steps 0 to 3; exactly LogisticsPickedUp, Disputed and Cancelled get -1 |
| OrderTracking.CompletedStepsArePrefix | src/pages/OrderTrackingPage.tsx:109-114 | the completed steps are exactly those up to the index, a prefix; a status without a step shows none |
| OrderTracking.ActionFor | src/pages/OrderTrackingPage.tsx:88-97 | no logged-in user exactly when nothing is offered |
| OrderTracking.RequestOfferedIff | src/pages/OrderTrackingPage.tsx:88-97 | a status request is offered exactly to the seller of a Paid order (checked first) and the buyer of a Shipped one, always for the next step; everyone else logged in sees only the dispute button |
| OrderTracking.Subtotal | src/pages/OrderTrackingPage.tsx:136 | the displayed subtotal is not negative for a non-negative quantity and price |
| OrderTracking.SubtotalOfPlacedOrder | src/pages/OrderTrackingPage.tsx:136 | for an order as placed, the displayed quantity times price is the total less the fees |
| JsStrings.Utf16Length | src/pages/CreateListingPage.tsx:18-22 | a string's length in UTF-16 code units: between one and two per character, and 0 only for the empty string |
| JsStrings.Utf16LengthOfBmp | src/pages/CreateListingPage.tsx:18-22 | for characters of the Basic Multilingual Plane the code-unit length is the number of characters |
| CreateListing.SchemaIssues | src/pages/CreateListingPage.tsx:17-26 | at most nine issues, one per rule; which ones: `FormValidIff` and `IssueReportedIff` |
| CreateListing.FormValidIff | src/pages/CreateListingPage.tsx:17-26 | a form validates exactly when: the name has at least 3 UTF-16 code units and the description at least 10; category and unit are non-empty; the price is positive; the quantity is a positive integer; the grade is A, B or C; the image is a URL |
| CreateListing.IssueReportedIff | src/pages/CreateListingPage.tsx:17-26 | each of the nine issues is reported exactly when its rule fails: name under 3 code units, description under 10, empty category, price not positive, empty unit, quantity not an integer, quantity not positive, grade not A, B or C, image not a URL |
| CreateListing.NameLengthInCodeUnits | src/pages/CreateListingPage.tsx:18 | the two-character name "a😀" passes the name rule; any name of at least three characters of the Basic Multilingual Plane passes it |
| CreateListing.DefaultFormInvalid | src/pages/CreateListingPage.tsx:34-43 | the default values fail, on name, description, category and price |
| CreateListing.Submit | src/pages/CreateListingPage.tsx:48-58 | a payload is sent exactly for a valid form with a user; it is the form's fields plus the user id as farmer and the given harvest date |
| CreateListing.SentPayloadHasRequiredFields | src/pages/CreateListingPage.tsx:48-58 | a sent payload has a name and farmer id, a positive price and a positive integer quantity |
| ListingDetail.PlaceOrderAttempt | src/pages/ListingDetailPage.tsx:44-56 | nothing is sent without a user or listing; a quantity not above 0 or above the listing's is refused; otherwise the listing id, user id and quantity are sent |
| ListingDetail.SentOrderAccepted | src/pages/ListingDetailPage.tsx:44-56 | a sent order passes the server's guards while the listing still has that quantity |
| ListingDetail.ClampQuantity | src/pages/ListingDetailPage.tsx:155 | the quantity is at least 1: the parsed value when it is at least 1, else 1 |
| ListingDetail.ClampedQuantityOnlyTooLarge | src/pages/ListingDetailPage.tsx:46 | a clamped quantity is refused only when it exceeds the listing's |
| ListingDetail.OrderButtonDisabled | src/pages/ListingDetailPage.tsx:160 | with no order in flight and both ids known, the button is disabled exactly when the viewer is the seller |
| ListingDetail.OwnListingDisabled | src/pages/ListingDetailPage.tsx:160 | the button is disabled for the listing's own farmer; it is enabled for another user when no order is in flight; and it is disabled when neither user is known |
| ListingDetail.FirstCharText | src/pages/ListingDetailPage.tsx:75 | the first character of a non-empty word |
| ListingDetail.GetInitials | src/pages/ListingDetailPage.tsx:73-77 | a name without spaces gives its first two characters; names with spaces: `InitialsOfWords` |
| ListingDetail.InitialsOfWords | src/pages/ListingDetailPage.tsx:73-77 | any join of two or more space-free words, empty ones included, gives the first-character texts of the first two words; every name that contains a space is such a join |
| ListingDetail.InitialsOfThreeWords | src/pages/ListingDetailPage.tsx:73-77 | "Ann Bea Cox" gives "AB" |
| ListingDetail.InitialsOfDoubledSpace | src/pages/ListingDetailPage.tsx:73-77 | "A  B" gives "Aundefined": the empty second word's initial is the text "undefined" |
| ListingDetail.InitialsOfTwoWords | src/pages/ListingDetailPage.tsx:73-77 | two words joined by a space give their first letters |
| ListingDetail.InitialsOfLeadingSpace | src/pages/ListingDetailPage.tsx:73-77 | a leading space gives the text "undefined" followed by the second word's initial |
| DisputeModal.FileCheck | src/components/DisputeModal.tsx:20-49 | a non-image type is refused for its type whatever its size; an image over 301·1024 bytes is refused for its size; anything else passes |
| DisputeModal.SizeLimitBoundary | src/components/DisputeModal.tsx:20-49 | an image of exactly 308224 bytes passes, one of 308225 is too large, and a text file is refused for its type |
| DisputeModal.CanSubmit | src/components/DisputeModal.tsx:56 | submitting needs a non-empty reason and no file error; exactly when: `CanSubmitIff` |
| DisputeModal.CanSubmitIff | src/components/DisputeModal.tsx:56 | submitting is allowed exactly when the reason has a non-white-space character and no file was refused |
| DisputeModal.EvidenceUrl | src/components/DisputeModal.tsx:59 | the preview when present and non-empty, else the fixed fallback URL |
| DisputeModal.DisputeForm.constructor | src/components/DisputeModal.tsx:23-26 | empty reason, no file, no preview, no error |
| DisputeModal.DisputeForm.SetReason | src/components/DisputeModal.tsx:77 | only the reason changes |
| DisputeModal.DisputeForm.HandleFileChange | src/components/DisputeModal.tsx:35-54 | no file changes nothing; a refused file records its error and clears file and preview; an accepted one clears the error and is kept with its preview; the reason never changes, and a kept file always has a preview and passed the check |
| DisputeModal.DisputeForm.HandleSubmit | src/components/DisputeModal.tsx:55-61 | a submission exactly when the guard holds, carrying the reason and the evidence URL |
| DisputeModal.DisputeForm.OnOpenChange | src/components/DisputeModal.tsx:27-34 | closing clears reason, file, preview and error; opening changes nothing |
| DisputeModal.RefusedFileBlocksSubmit | src/components/DisputeModal.tsx:35-61 | after a refused file, submitting is not allowed, whatever the reason |
| Marketplace.FilteredListings | src/pages/MarketplacePage.tsx:38-48 | never more listings than it is given; which ones and in what order: the lemmas below |
| Marketplace.FiltersCompose | src/pages/MarketplacePage.tsx:38-40 | the two filters in a row equal one filter by both rules |
| Marketplace.FilteredExactlyMatching | src/pages/MarketplacePage.tsx:38-48 | each listing occurs in the result as often as in the input when it matches both rules, and not at all otherwise |
| Marketplace.FilteredListingsMatch | src/pages/MarketplacePage.tsx:39-40 | every shown listing's lowercased name contains the lowercased term, and its category is the selected one unless "all" is selected |
| Marketplace.PriceAscSorted | src/pages/MarketplacePage.tsx:41-43 | under "price-asc" the prices never decrease |
| Marketplace.SamePriceStable | src/pages/MarketplacePage.tsx:41-43 | the sort is stable: under "price-asc" the matching listings of any one price keep their order |
| Marketplace.SamePriceDescStable | src/pages/MarketplacePage.tsx:41-44 | the sort is stable: under "price-desc" the matching listings of any one price keep their order |
| Marketplace.SameNameStable | src/pages/MarketplacePage.tsx:45 | the sort is stable: under "name-asc" the matching listings of any one name keep their order, given that the name collates equal to itself |
| Marketplace.PriceDescSorted | src/pages/MarketplacePage.tsx:41-44 | under "price-desc" the prices never increase |
| Marketplace.NameAscSorted | src/pages/MarketplacePage.tsx:45 | under "name-asc", with a total collation, each name collates at or before the next |
| Marketplace.UnknownSortKeepsOrder | src/pages/MarketplacePage.tsx:46 | any other key keeps the matching listings in their source order |
| Marketplace.Categories | src/pages/MarketplacePage.tsx:49 | "all" first, then each category of some listing exactly once and no other |
| Marketplace.CategoriesInFirstAppearanceOrder | src/pages/MarketplacePage.tsx:49 | the categories after "all" come in the order of their first appearance |
| OrdersPage.UserOrders | src/pages/OrdersPage.tsx:32 | exactly the orders where the user is buyer or seller, each as often as fetched |
| OrdersPage.SortedOrders | src/pages/OrdersPage.tsx:44-46 | the same orders, newest first by creation time |
| OrdersPage.SameTimeStable | src/pages/OrdersPage.tsx:44-46 | the sort is stable: for every time t, the orders created at t keep their fetched order, whatever orders of other times surround them |
| OrdersPage.SameTimeKeepsOrder | src/pages/OrdersPage.tsx:45 | a list whose orders all share one creation time is left unchanged |
| OrdersPage.DisplayedOrders | src/pages/OrdersPage.tsx:32-46 | the table lists exactly the user's orders, each as often as fetched, newest first |
| OrdersPage.ListingsById | src/pages/OrdersPage.tsx:34 | the keys are exactly the listings' ids; each id maps to a listing with that id, the last one in the fetched list |
| OrdersPage.ListingLookup | src/pages/OrdersPage.tsx:83 | an order's listing is found exactly when some listing has its id, and what is found is a fetched listing with that id |
| OrdersPage.DistinctIdsLookup | src/pages/OrdersPage.tsx:34 | with distinct ids, each listing is what its id maps to |
| OrdersPage.RoleOf | src/pages/OrdersPage.tsx:84 | buyer exactly when a user is loaded and is the order's buyer, else seller |
| OrdersPage.RoleLabelTruthful | src/pages/OrdersPage.tsx:84 | on the user's own orders, "buyer" means the user bought and "seller" that the user sold and did not buy |

## Left out

- Hono routing, JSON bodies and status codes: handlers are methods returning a `Response`. The promote route's shadowing described above is therefore not modelled.
- Seeding the stores from mock data and the GET list routes: they only return store contents. The mock data module is not part of this model, so the marketplace page takes its listings as a parameter.
- The seven-day expiry of sessions: time-to-live is a property of the key-value service.
- The AI crop-health route: it picks a result at random.
- The Google redirect and token exchange: network calls and JWT decoding. Only the find-or-create step after them is modelled.
- PBKDF2, `getRandomValues` and `randomUUID`. The derivation is a given deterministic function; salts, ids and tokens are parameters.
- The three-second pause in KYC submission, and the intermediate Pending state other requests could see during it: time and concurrency.
- Interleaving of concurrent requests, including between the order's create and the listing's patch: handlers run one at a time.
- IEEE floating point, `toFixed` and `toLocaleString` display, and the currency-rate multiplication when formatting: amounts are exact reals.
- The server-side order status change: its handler is not part of this model. Only the client's offer rule is modelled. Fetching and toasts on the pages are out too.
- Translated texts, React state plumbing and rendering, including the orders table's `listing?.name || '...'` fallback.
- The orders page sorts a copy: in the model every sequence is an immutable value, so the fetched list can never be reordered. No separate lemma states this.
- The URL check of the listing schema and `localeCompare`: both given functions, `isUrl` and `collate`.
- The schema's number coercion: the form's price and quantity arrive as numbers.
- A listing body that carries its own `id`: in the source's spread the body's `id` would replace the fresh one. The draft type has no `id` field, so the model always uses the fresh id.
- UserRoutes.SetRole: the source stores any truthy role the body carries. The model accepts only the five `UserRole` values.
- ListingDetail.FirstCharText, ListingDetail.GetInitials: `s[0]` and `substring(0, 2)` index UTF-16 code units. The model indexes characters (code points), because a Dafny character cannot be a lone surrogate. The two agree on names within the Basic Multilingual Plane; for "😀 Bob" the source renders a lone surrogate followed by "B", the model "😀B".
- AuthUtils.DecodeHex, AuthUtils.HexToBuffer: lengths and positions count characters, not UTF-16 code units. The two agree on every string the source stores, all of them ASCII hex.
- The browser-storage key under which the currency store persists, and the storage itself: rehydration takes the persisted fields as a parameter.
- JsStrings.ToLower: lowercases only A–Z. JavaScript's `toLowerCase` also maps non-ASCII letters.
- JsStrings.ParseInt: only radices 10 and 16, the two the source uses. Digits are read exactly, with no loss of precision past 2^53.
- DisputeModal.DisputeForm.HandleFileChange: only the first chosen file is considered, as in the source. The error texts are replaced by the two error kinds.
