# Abundance user service: the account lifecycle in Dafny

This project models the account-lifecycle core of the Abundance user service,
a Go/Fiber HTTP service over a MySQL `users` table. It covers:

- registration with e-mail verification, re-sending the verification mail,
  verifying an account, log-in and log-out;
- creating or promoting a super user, deleting a user, the paged user listing,
  fetching one user, and the session-status endpoint;
- the store layer underneath those handlers and the generated SQL statements
  the store calls.

The service is modelled as a pure state machine. Each handler is a function
`(table, request, primitive results) -> (response, table', mail)`. It follows
the handler's guards in the order the Go code checks them, with the same status codes and messages,
and makes at most one store write. The primitives are the password hash and
compare, the verification-token and JWT issue and check, and the e-mail format
check. They come in as an `Oracles` value, so every property holds whatever
they answer.

Modules, one per source component:

| module | models |
|---|---|
| `Wrappers` | `Option` and `Result` |
| `Decimal` | `strconv.Atoi` on 64-bit `int`, a reference decimal printer that it inverts, and the `int32(x)` conversion (two's-complement wrap) |
| `Table` | the `users` table and the effect of each statement of `cmd/pkg/database/users.sql.go`; `TableFacts` holds the multi-statement facts |
| `Store` | `service/user/store.go`: error mapping, record conversion, the listing offset, the mutators |
| `Payloads` | the request payloads of `types/user.go` and their `validate` tags |
| `Utils` | `utils/utils.go`: the invalid-fields map, `IsSuperUser`, and the role and subscription conversions |
| `Paging` | the `page` / `page_size` normalisation of the listing handler |
| `Handlers` | the handlers of `service/user/routes.go` and the dispatch `Step` |
| `Invariants` | the table invariant `Valid` is kept by every write and every request |
| `Guards` | the guard order of each handler as lemmas |
| `Lifecycle` | one account's life (Unregistered, Pending, Verified) across requests and request sequences |

Modelling choices:

- **Table.**
  - The table is a sequence of rows in insertion order. The model assumes
    that `user_id` and `created_at` both come from one counter, so that
    `ORDER BY created_at DESC` is the reverse of the sequence. In the service
    `created_at` is a timestamp default of the database, which can tie (see
    Left out).
  - The reads use inner joins, so they see only rows whose role and
    subscription ids resolve in the reference tables.
  - `Valid` means the catalog holds ids 1..4, ids and creation times increase
    along the table, e-mails are unique, and every row resolves.
- **Schema facts the generated code does not show.** Three are assumed:
  `email` is UNIQUE, `is_verified` defaults to false on insert, and `email`
  compares by a binary collation (byte for byte), both in `WHERE email = ?`
  and in the UNIQUE key.
- **Role ids and role names are kept apart.** The privilege check compares the
  role *name* with `"super_user"`, while promotion writes role *id* 4. They are
  linked only by the stated assumption `Utils.AdminIsSuperUser` (role 4 is
  named `"super_user"`), and only where a lemma needs it.
- **Integer width.**
  - Ids parsed from the path or from the JWT claim go through `ToInt32`
    exactly as the handlers' `int32(...)` does.
  - The handlers use the listing offset computed over unbounded integers. The
    int32 version is kept beside it (see Findings).
- **Invalid-payload response.** `InvalidPayload(fields)` stands for the 400
  body `{"error": "Invalid payload", "invalid_fields": fields}`.

## Model

| member | source | states |
|---|---|---|
| Decimal.Atoi | service/user/routes.go:332-335 | digits are read left to right after one optional sign: invalid syntax exactly when the magnitude is empty or a non-digit comes before the value read passes 2^64-1; for an all-digit magnitude, success exactly when the signed value fits 64 bits, and then it is that value; otherwise out of range |
| Decimal.ScanDigits | service/user/routes.go:332 | the digit loop of `strconv.ParseUint` behind every `strconv.Atoi` call of the handlers (routes.go:332, 384, 391, 419, 466); no contract (see Decimal.ScanSpec) |
| Decimal.ScanSpec | service/user/routes.go:419-421 | the digit scan completes exactly on an all-digit magnitude worth at most 2^64-1, yielding its value, and stops with a syntax error exactly when a non-digit precedes the overflow |
| Decimal.DigitsPrefixMonotone | service/user/routes.go:419-421 | a longer digit prefix never has a smaller value, so once the value read passes 2^64-1 it stays past it |
| Decimal.OverflowFirst | service/user/routes.go:332-335 | once the unsigned digits read pass 2^64-1, the answer is a range error whatever follows |
| Decimal.RangeBeforeSyntax | service/user/routes.go:419-421 | an id such as "99999999999999999999x" is answered with "value out of range", not "invalid syntax" |
| Decimal.Itoa | service/user/routes.go:384 | a reference decimal printer (the service itself never prints numbers with strconv), the form Decimal.AtoiItoa parses back: a digit run, with one leading `-` for a negative value |
| Decimal.AtoiMessage | service/user/routes.go:334 | the "Invalid id" detail: `strconv.Atoi: parsing "<id>": ` followed by "invalid syntax" or "value out of range"; no contract |
| Decimal.AtoiItoa | service/user/routes.go:384 | parsing the decimal form of any 64-bit value gives that value back |
| Decimal.ToInt32 | service/user/routes.go:337 | `int32(x)` lies in the int32 range, is congruent to x modulo 2^32, and is x itself when x already fits |
| Paging.PageParam | service/user/routes.go:378-387 | the page is always at least 1; it is the parsed value when that is positive and 1 otherwise |
| Paging.PageSizeParam | service/user/routes.go:371-394 | the size always lies in 1..100; it is the parsed value when that is in 1..100 and 10 otherwise |
| Paging.PageParamOfDecimal | service/user/routes.go:383-386 | a positive page number written in decimal selects that page |
| Paging.NonPositivePageIsFirst | service/user/routes.go:383-386 | zero or a negative page number falls back to page 1 |
| Paging.PageSizeParamOfDecimal | service/user/routes.go:389-394 | a size in 1..100 is kept; a size above 100 or not positive falls back to 10, not to 100; absent parameters give page 1 and size 10 |
| Table.CreateUser | cmd/pkg/database/users.sql.go:35-63 | fails exactly on a duplicate email; otherwise appends one row holding exactly the given role id, username, email, hash and subscription id, unverified, with a fresh id, and nothing else changes |
| Table.CreateAdmin | cmd/pkg/database/users.sql.go:13-33 | fails with the duplicate error exactly when the email is taken; otherwise appends one row with role 4 and subscription 1 whatever the caller supplies, the given username, email and hash, unverified, with a fresh id, and nothing else changes |
| Table.DeleteUserByID | cmd/pkg/database/users.sql.go:65-73 | a row survives exactly when it was there and its id differs; the reference tables and counter are unchanged |
| Table.UpdateUserToAdmin | cmd/pkg/database/users.sql.go:269-278 | only `role_id` of the matching rows changes, to 4; all other rows and columns are unchanged |
| Table.UpdateUserToFreeUser | cmd/pkg/database/users.sql.go:280-289 | only `role_id` of the matching rows changes, to 1 |
| Table.UpdateUserVerificationStatus | cmd/pkg/database/users.sql.go:291-305 | only `is_verified` of the matching rows changes, to the given flag |
| Table.UpdateUserPassword | cmd/pkg/database/users.sql.go:237-251 | only `password_hash` of the matching rows changes, to the given hash |
| Table.UpdateUserSubscriptionStatus | cmd/pkg/database/users.sql.go:253-267 | only `subscription_id` of the matching rows changes, to the given id |
| Table.GetUserByEmail | cmd/pkg/database/users.sql.go:139-179 | no rows exactly when no joined row has that email; otherwise the join of such a row |
| Table.GetUserByID | cmd/pkg/database/users.sql.go:181-221 | no rows exactly when no joined row has that id; otherwise the join of such a row |
| Table.GetUserRoleByUserID | cmd/pkg/database/users.sql.go:223-235 | no rows exactly when no row with that id has a catalogued role; otherwise that role's name |
| Table.JoinRow | cmd/pkg/database/users.sql.go:139-221 | the SELECT projection of the two lookups, role and subscription names resolved through the joins; no contract (see Store.ListAndLookupAgree) |
| Table.ToListRow | cmd/pkg/database/users.sql.go:75-89 | the SELECT projection of the listing, without the password hash; no contract (see Store.ListAndLookupAgree) |
| Table.NewestFirst | cmd/pkg/database/users.sql.go:84-87 | the inner joins and `ORDER BY created_at DESC` over a prefix of the table: at most one entry per row |
| Table.NewestFirstSound | cmd/pkg/database/users.sql.go:84-86 | every entry of the listing projects a row that survives both joins |
| Table.Listing | cmd/pkg/database/users.sql.go:75-89 | the listing has at most one entry per row, each the projection of a row that survives both joins |
| Table.Without | cmd/pkg/database/users.sql.go:65-73 | a row survives exactly when it was there and its id differs from the deleted one |
| Table.NewestFirstFromTable | cmd/pkg/database/users.sql.go:75-89 | every listed entry is the join of some visible row of the table |
| Table.GetAllUsersPaginated | cmd/pkg/database/users.sql.go:75-137 | refused exactly for a negative LIMIT or OFFSET; otherwise at most LIMIT entries, entry k being the listing entry at OFFSET+k, with exactly LIMIT of them, or all that remain, when the listing is long enough |
| TableFacts.NewestFirstDescending | cmd/pkg/database/users.sql.go:87 | when creation times increase along the table (the counter assumption), the listing's creation times strictly decrease |
| TableFacts.NewestFirstComplete | cmd/pkg/database/users.sql.go:84-86 | every visible row appears in the listing |
| TableFacts.NewestFirstLength | cmd/pkg/database/users.sql.go:84-86 | when every row is visible, the listing has one entry per row |
| TableFacts.ListingOfValid | cmd/pkg/database/users.sql.go:75-89 | in a valid table (creation times distinct and increasing) the listing has one entry per row, is strictly newest first, and contains every row |
| TableFacts.ConsecutivePages | cmd/pkg/database/users.sql.go:88 | two consecutive LIMIT/OFFSET windows of one fixed listing concatenate to the window of twice the size: with a deterministic order, paging neither skips nor repeats |
| TableFacts.WithoutKeepsOrder | cmd/pkg/database/users.sql.go:65-73 | deleting rows keeps the remaining rows pairwise ordered with distinct emails |
| Store.ErrorMessage | service/user/store.go:55-59 | the text of a store error: "user not found", or the query error's own text; no contract (the mapping is stated by Store.LookupError) |
| Store.FromUserRow | service/user/store.go:62-72 | the lookups' record conversion, field by field; no contract (see Store.ListAndLookupAgree) |
| Store.FromListRow | service/user/store.go:36-47 | the listing's record conversion, which sets no password hash; no contract (see Store.ListAndLookupAgree) |
| Store.UserOf | service/user/store.go:85-95 | the record a lookup builds from a table row; no contract (see Store.ListAndLookupAgree) |
| Store.ListAndLookupAgree | service/user/store.go:36-95 | from the same row the listing and the lookups build the same record except for the password hash, which only the lookups carry; the record keeps the row's id, email, flag and hash |
| Store.LookupError | service/user/store.go:55-59 | "no rows" becomes the error "user not found"; every other error passes through unchanged |
| Store.GetUserByEmail | service/user/store.go:53-73 | fails with "user not found" exactly when no joined row has the email; otherwise the user built from such a row |
| Store.GetUserByID | service/user/store.go:76-96 | fails with "user not found" exactly when no joined row has the id; otherwise the user built from such a row |
| Store.GetUserRoleByID | service/user/store.go:99-108 | the role name of a row with that id, or the query's own "no rows" error, unmapped |
| Store.Offset | service/user/store.go:24 | page 1 gives offset 0; for page ≥ 1 the offset is non-negative and is (page-1) times the page size exactly |
| Store.GetUsersPaginated | service/user/store.go:23-50 | the corrected listing: never fails for page ≥ 1 and a non-negative size; user k is the listing entry at offset+k; a full page while the listing lasts, its remainder on the page where it ends, nothing past it |
| Store.CreateUser | service/user/store.go:111-124 | fails with the insert's duplicate-email error exactly when the email is taken; otherwise it is the insert itself |
| Store.CreateSuperUser | service/user/store.go:127-138 | appends one row with role 4, subscription 1 and the given username, email and hash, or returns the insert's error |
| Store.CreateSuperUserIgnoresRole | service/user/store.go:127-138 | two users that agree on username, email and hash give the same result: role, subscription and the other fields are ignored |
| Store.UpdateUserToSuperUser | service/user/store.go:141-148 | writes only the role column of that id, setting role 4 |
| Store.UpdateUserToNormalUser | service/user/store.go:151-158 | writes only the role column of that id, setting role 1 |
| Store.UpdateUserVerification | service/user/store.go:161-171 | writes only the verification flag; afterwards a row is verified exactly when it already was or has that id, so it never un-verifies |
| Store.DeleteUserByID | service/user/store.go:174-181 | removes exactly the rows with that id |
| Store.UpdateUserPassword | service/user/store.go:184-194 | writes only the password-hash column of that id |
| Store.OffsetInt32 | service/user/store.go:24 | the offset as written (int32 page, size and product) lies in the int32 range and is congruent to the true product modulo 2^32 |
| Store.GetUsersPaginatedInt32 | service/user/store.go:23-50 | the listing as written fails exactly when the int32 size or the int32 offset is negative; otherwise user k is the listing entry at the wrapped offset plus k, a full page while the listing lasts |
| Store.OffsetOverflow | service/user/store.go:24 | page 214748366 of size 10 wraps to offset -2147483646 and the listing as written fails, while the unbounded offset is 2147483650 and the listing succeeds |
| Store.OffsetWrapsPositive | service/user/store.go:24 | page 429496731 of size 10 wraps to offset 4: the listing as written succeeds with the entries from the fifth on (ten of them once the listing has 14), while the intended offset 4294967300 gives an empty page for any shorter listing |
| Payloads.Run | utils/utils.go:13-16 | the validator's outcome for a set of field errors: it passes exactly when there are none and otherwise reports exactly those errors |
| Payloads.Required | types/user.go:36 | one error for the field exactly when the value is empty |
| Payloads.RequiredEmail | types/user.go:37 | one error for the field exactly when the email is empty or fails the format check |
| Payloads.RequiredBounded | types/user.go:38 | one error for the field exactly when the length is outside 3..20 (an empty value included) |
| Payloads.RegisterErrors | types/user.go:35-41 | no errors exactly when username, role and subscription are non-empty, the email passes, and the password length is in 3..20 |
| Payloads.RegisterErrorsDistinct | types/user.go:35-41 | no register field is reported twice |
| Payloads.RegisterErrorsReport | types/user.go:35-41 | a field is reported exactly when its own constraint fails |
| Payloads.RegisterErrorsPerField | types/user.go:35-41 | one error per failing field: distinct fields, each reported exactly when its constraint fails |
| Payloads.LoginErrors | types/user.go:43-46 | the email must pass the format check and the password must be non-empty, with no length bound; one error per failing field |
| Payloads.ResendErrors | types/user.go:53-55 | no errors exactly when the email passes the format check |
| Utils.TagMessage | utils/utils.go:19 | the message recorded for a failing field, "Validation failed on the '<tag>' tag"; no contract |
| Utils.InvalidFields | utils/utils.go:17-20 | the map the loop builds, one assignment per error in order; no contract (see Utils.InvalidFieldsKeys, Utils.InvalidFieldsLastWins and Utils.InvalidFieldsSize) |
| Utils.InvalidFieldsKeys | utils/utils.go:17-20 | the invalid-fields map has an entry exactly for each field some error names |
| Utils.InvalidFieldsLastWins | utils/utils.go:18-19 | a field's entry holds the message of the last error naming it |
| Utils.InvalidFieldsSize | utils/utils.go:17-20 | with distinct fields, the map has one entry per error |
| Utils.ValidationFailure | utils/utils.go:13-24 | a field map exactly when the validator reported field errors, keyed by the failing fields |
| Utils.ValidatePayload | utils/utils.go:13-25 | a non-nil error ("invalid payload") and the field map exactly on field-validation failure; `(nil, nil)` on every other path, including a validator error of another kind |
| Utils.IsSuperUser | utils/utils.go:27-40 | privileged exactly when the role lookup yields "super_user"; a lookup failure gives an error and never privilege |
| Utils.IsSuperUserOfValid | utils/utils.go:27-40 | in a valid table: privileged exactly when the caller's row has the role named "super_user"; an error exactly when no row has the caller's id |
| Utils.RoleIdOf | utils/utils.go:42-55 | the id is always in 1..4; an unknown role gives 1; a known role is the word of its id |
| Utils.RoleWordsRoundTrip | utils/utils.go:42-55 | free_user, premium_user, nutritionist and admin map to 1, 2, 3 and 4; "admin" maps to the role id promotion writes |
| Utils.RoleIdOfInjective | utils/utils.go:43-51 | no two known role words share an id |
| Utils.SubscriptionIdOf | utils/utils.go:57-70 | the id is always in 1..4; an unknown subscription gives 1; a known one is the word of its id |
| Utils.SubscriptionWordsRoundTrip | utils/utils.go:57-70 | Active, Inactive, Pending and Cancelled map to 1, 2, 3 and 4 |
| Handlers.HandleRegister | service/user/routes.go:45-106 | a 4xx writes nothing and sends no mail; the table changes only for a body whose email the lookup does not find |
| Handlers.HandleResendVerificationEmail | service/user/routes.go:109-153 | never writes; a mail only goes out with a 200 |
| Handlers.HandleVerifyAccount | service/user/routes.go:157-185 | never mails; the table changes only with the 303 redirect; a 4xx writes nothing |
| Handlers.HandleLogin | service/user/routes.go:188-236 | never writes and never mails |
| Handlers.HandleLogout | service/user/routes.go:239-252 | always 200 and never writes |
| Handlers.HandleCreateSuperUser | service/user/routes.go:255-314 | a 4xx writes nothing; never mails |
| Handlers.Gate | service/user/routes.go:319-328 | passes exactly a caller the privilege check admits; a plain user gets 403 "Access denied"; a rejection writes nothing |
| Handlers.HandleDeleteUser | service/user/routes.go:317-356 | never mails; the table changes only with a 200 |
| Handlers.HandleGetUsersPaginated | service/user/routes.go:359-402 | never writes and never mails |
| Handlers.HandleGetUserByID | service/user/routes.go:405-433 | never writes and never mails |
| Handlers.SessionToken | service/user/routes.go:437-442 | a non-empty cookie wins; otherwise the Authorization header; empty exactly when both are |
| Handlers.HandleIsAuthenticated | service/user/routes.go:436-482 | never writes; a 200 needs a token from the cookie or the header |
| Handlers.Step | service/user/routes.go:29-42 | no 4xx response of any route writes, and mail only goes out with a 200 or 201 |
| Invariants.InsertKeepsValid | cmd/pkg/database/users.sql.go:35-63 | an insert with role and subscription ids in 1..4 keeps the table valid |
| Invariants.PromoteKeepsValid | cmd/pkg/database/users.sql.go:269-278 | promotion keeps the table valid |
| Invariants.DemoteKeepsValid | cmd/pkg/database/users.sql.go:280-289 | demotion keeps the table valid |
| Invariants.VerificationKeepsValid | cmd/pkg/database/users.sql.go:291-305 | verification keeps the table valid |
| Invariants.DeleteKeepsValid | cmd/pkg/database/users.sql.go:65-73 | deletion keeps the table valid |
| Invariants.LookupByEmailUnique | cmd/pkg/database/users.sql.go:139-152 | in a valid table the email lookup returns exactly the one row holding that email |
| Invariants.RegisterWrites | service/user/routes.go:74-84 | registration's only possible write is the insert with the converted role and subscription ids |
| Invariants.RegisterKeepsValid | service/user/routes.go:45-106 | registration keeps the table valid |
| Invariants.VerifyAccountKeepsValid | service/user/routes.go:157-185 | verification keeps the table valid |
| Invariants.CreateSuperUserKeepsValid | service/user/routes.go:255-314 | super-user creation or promotion keeps the table valid |
| Invariants.DeleteUserKeepsValid | service/user/routes.go:317-356 | deletion keeps the table valid |
| Invariants.StepKeepsValid | service/user/routes.go:29-42 | every request keeps the table valid |
| Guards.RegisterRejectsExisting | service/user/routes.go:62-66 | an email the lookup finds gives 400 "User with email … already exists", with nothing written or mailed |
| Guards.RegisterCreatesOne | service/user/routes.go:62-105 | in a valid table, an email the lookup misses gets exactly one new unverified row with the converted ids and the hash; 201 and the mail exactly when the token is issued, otherwise 500 |
| Guards.VerifyWritesOnlyPending | service/user/routes.go:157-185 | 303 exactly for a non-empty token that validates to the email of an existing unverified user, whose own id is then verified; everything else is a 400 that writes nothing |
| Guards.VerifiedReadsBack | service/user/routes.go:169-182 | in a valid table, after a successful verification the token's user reads back as verified |
| Guards.VerificationReadsBack | service/user/store.go:161-171 | verifying the id the email lookup returns makes that lookup read back verified |
| Guards.ResendMailsOnlyPending | service/user/routes.go:126-153 | a mail goes out exactly to an existing unverified user with a valid email and an issued token; unknown and already-verified emails get their own 400 |
| Guards.LoginDecision | service/user/routes.go:204-235 | a session token exactly for an existing, password-matching, verified user with an issued JWT; a wrong password is reported before a missing verification; an unknown email gets "You don't have an account" |
| Guards.SuperUserWrongPassword | service/user/routes.go:280-285 | an existing account with a wrong password gives 400 and nothing changes |
| Guards.SuperUserAlreadySuper | service/user/routes.go:287-294 | an existing super user gives 400 "User is already a super user" and nothing changes |
| Guards.SuperUserPromotes | service/user/routes.go:295-300 | an existing non-super account with the right password is promoted by its own id, with 200 |
| Guards.PromotedPassesCheck | service/user/routes.go:295-300 | in a valid table where role 4 is "super_user", the promoted account's role column alone changes and the privilege check then admits it |
| Guards.PromotedIsSuperUser | utils/utils.go:27-40 | in a valid table where role 4 is "super_user", promoting an existing id makes the privilege check admit it |
| Guards.AppendedIdUnique | cmd/pkg/database/users.sql.go:35-43 | in a valid table the row appended with the next id is the only one holding that id |
| Guards.AppendedAdminIsSuperUser | utils/utils.go:27-40 | where role 4 is "super_user", an admin row appended with the next id passes the privilege check |
| Guards.SuperUserCreates | service/user/routes.go:303-313 | in a valid table where role 4 is "super_user", an unknown email gets one new unverified admin row (role 4, subscription 1) with 201, and the privilege check admits its id |
| Guards.NonSuperUserForbidden | service/user/routes.go:319-328 | a caller the check reads as a plain user gets 403 from delete, get-by-id and listing for every id and page text, and nothing changes |
| Guards.SelfDeleteRejected | service/user/routes.go:338-348 | in a valid table a super user naming their own id gets 400 "You cannot delete yourself" and their record persists |
| Guards.DeleteUserDecision | service/user/routes.go:330-355 | for a super user: 400 with Atoi's error for an id that does not parse; 400 "user not found" when no joined row holds the int32 id; 400 "You cannot delete yourself" for the caller's own id; otherwise 200 "User deleted successfully" with exactly that id's rows removed; only the last writes, and none mails |
| Guards.DeleteRemovesOnlyTarget | service/user/routes.go:329-355 | a successful delete names a parsable id other than the caller's, removes exactly that id's rows, and keeps the caller's |
| Guards.ListingForSuperUser | service/user/routes.go:371-401 | with the corrected offset, a super user's listing is always 200 with exactly the store's page: the listing entries from the offset on, a full page while the listing lasts, its remainder where it ends, none past it |
| Guards.GetUserByIDDecision | service/user/routes.go:416-432 | for a super user: 400 with Atoi's error for an id that does not parse; otherwise 200 with exactly the user of a joined row holding the int32 id, or 500 "Error getting user by id: user not found" when none does; never writes or mails |
| Guards.StatusTokenPrecedence | service/user/routes.go:437-446 | a non-empty cookie decides the outcome whatever the header holds; without a cookie the header acts as the cookie would; with neither, 401 "Token is missing" |
| Lifecycle.AccountOf | service/user/routes.go:74 | an email has no account exactly when no row holds it; otherwise the account's state is a holding row's verification state |
| Lifecycle.AccountOfRow | cmd/pkg/database/users.sql.go:139-152 | in a valid table a row's email has that row's state |
| Lifecycle.AppendAccount | cmd/pkg/database/users.sql.go:35-63 | an insert opens a pending account for its email and leaves every other account alone |
| Lifecycle.UpdateAccount | cmd/pkg/database/users.sql.go:291-305 | an update that keeps emails and never clears a flag only moves pending to verified; one that keeps every flag moves nothing |
| Lifecycle.ShrinkAccount | cmd/pkg/database/users.sql.go:65-73 | a deletion only closes accounts |
| Lifecycle.CreateSuperUserWrites | service/user/routes.go:278-310 | the super-user handler's only writes are the promotion of the found account or the admin insert for an unknown email |
| Lifecycle.PromotionKeepsAccounts | service/user/store.go:141-148 | a promotion moves no account |
| Lifecycle.RegisterLifecycle | service/user/routes.go:45-106 | registration only opens a pending account |
| Lifecycle.CreateSuperUserLifecycle | service/user/routes.go:255-314 | super-user creation only opens a pending account; promotion moves none |
| Lifecycle.VerifyAccountLifecycle | service/user/routes.go:157-185 | verification only moves a pending account to verified |
| Lifecycle.DeleteUserLifecycle | service/user/routes.go:317-356 | deletion only closes accounts |
| Lifecycle.StepFollowsLifecycle | service/user/routes.go:29-42 | every request moves each account along Unregistered → Pending → Verified or closes it; only verification verifies, only registration and super-user creation open, only deletion closes |
| Lifecycle.Replay | service/user/routes.go:29-42 | the table after the requests of a sequence, each handled by `Step` in turn; no contract (see Lifecycle.ReplayKeepsValid) |
| Lifecycle.ReplayKeepsValid | service/user/routes.go:29-42 | any sequence of requests keeps the table valid |
| Lifecycle.VerifiedStaysVerified | service/user/store.go:161-171 | a verified account stays verified through any sequence of requests without a delete |

## Left out

- The authentication package (`service/auth`) is not part of this model. Password hashing and comparison, verification-token and JWT issue and validation, and the JWT middleware are inputs (`Handlers.Oracles`). The middleware's caller id is a parameter of the privileged requests.
- The rate limiter on the resend route, and the `BlockIfAuthenticated` wrapper on login, are left out; both live in the authentication package.
- Sending the verification mail is fire-and-forget in a goroutine. The model returns the mail as part of the outcome and does not model delivery or its failure.
- HTTP plumbing is left out: body parsing (a body that fails to parse is `None`), cookie attributes, the log-in cookie, the `expires_in` field, and the redirect target of verification.
- `handleUpdateUserPassword` is not registered as a route, so `Step` has no request for it. The store and table writes it would use are modelled.
- Timestamps are left out: `created_at` is a logical counter and `updated_at` is not modelled. In the service `created_at` is a database default timestamp, so two inserts in the same second tie, and `ORDER BY created_at DESC LIMIT ? OFFSET ?` leaves tied rows in an unspecified order that may differ between queries. The service's listing order, and so its paging, is then not deterministic. TableFacts.NewestFirstDescending, TableFacts.ListingOfValid and TableFacts.ConsecutivePages hold only under the counter assumption.
- E-mail comparison is byte for byte. MySQL's default collations compare case-insensitively, both in `WHERE email = ?` and in the UNIQUE key. Under such a collation, registering `Ann@x.io` after `ann@x.io` is a 400 "already exists", whereas the model creates a second account. The model states the binary-collation behaviour only.
- Store.FromUserRow: the `int32(user.UserID)` conversion is not applied; ids are taken to stay in the int32 range.
- Database connection failures are left out: updates and deletes always succeed. The handlers' 500 branches for a failed verification update and a failed delete are therefore unreachable in the model, as is the promotion error the handler ignores.
- The validator's e-mail rule is the input predicate `isEmail`. The `min`/`max` tags count characters of the string.
- The error texts of the database driver are placeholders (`Table.SqlMessage`).
- Handlers.HandleGetUsersPaginated: an empty page is `UserList([])`. In Go the store's result is then a nil slice (store.go:34), which `JSON(users)` sends as `null`, not `[]`.
- Decimal.AtoiMessage: quotes the input without Go's `%q` escaping of special characters.
- Decimal.Atoi: reads characters, where Go reads bytes. A non-ASCII character is a non-digit in both, so the outcome is the same.
- Handlers.HandleGetUsersPaginated: calls the corrected listing `Store.GetUsersPaginated`, with the page kept unbounded, not the `int32(page)` and int32 offset of the Go code. Guards.ListingForSuperUser therefore describes the corrected listing. The Go code answers 400 for page 214748366 and the wrong page for page 429496731 (see Findings).
- Handlers.HandleIsAuthenticated: a `userID` claim that is not a string makes the service panic. The model only has string claims (`SessionCheck.Claims`).

## Findings

| source | as written | input that shows it | evidently intended | confidence | as-written member | corrected member |
|---|---|---|---|---|---|---|
| service/user/store.go:24 | `offset := (page - 1) * pageSize` is computed in int32 and wraps. A negative wrapped offset is refused by the database, and the handler answers 400 "Error getting users by page and page size". A positive wrapped offset silently lists the wrong page | `page=214748366&page_size=10`: int32 offset -2147483646, a 400. `page=429496731&page_size=10`: int32 offset 4, a 200 with listing entries 5 to 14 | a page beyond the end lists no users (offsets 2147483650 and 4294967300) | medium, not executed | Store.GetUsersPaginatedInt32 | Store.GetUsersPaginated |

The as-written listing is `Store.GetUsersPaginatedInt32`, built on
`Store.OffsetInt32`. `Store.OffsetOverflow` exhibits the failing input and
`Store.OffsetWrapsPositive` the input that returns the wrong page. The
corrected listing is `Store.GetUsersPaginated`, built on `Store.Offset`; it is
proved never to fail for page ≥ 1 and is the one the handlers call. The page
count itself also passes through `int32(page)` in the handler (line 396). The
corrected model keeps the parsed page unbounded.
