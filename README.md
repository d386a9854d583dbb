# Marketplace backend: ads, users, sessions and bearer authentication in Dafny

This project models the core of a small REST marketplace backend written in Go:

- **Ad service** (`AdService`): validates ad content and creates ads. Update
  and delete are allowed for the owner only. It serves single lookups and a
  listing annotated for the viewer.
- **Ad store and listing engine** (`AdsRepo`): the ads table. Its listing
  query has optional price bounds, sorts by price or creation time with a
  case-insensitive direction, and pages with LIMIT/OFFSET. It is joined with
  the users table for the author's login.
- **User service** (`UsersService`): sign-up, sign-in, refresh-token
  rotation, and the creation of the single refresh session each user holds.
- **User directory** (`UsersRepo`): the users table with its one session
  slot per user.
- **Authentication middlewares** (`JWTAuth`, `JWTOptionalAuth`): classify
  the Authorization header.

The two stores are classes over in-memory maps. They have a next-id counter
and an `online` flag; an offline store fails every operation with a storage
error. The services are classes holding references to the stores. Their
methods follow the Go code step by step: guard, load, check, write, re-read.
The middlewares are pure functions of the header.

The listing query is modelled twice:
- `AdQuery.BuildQuery` builds the query plan imperatively, as the Go code
  does: filters and arguments are appended and a placeholder counter runs.
- `AdQuery.Listing` states what a listing means: keep the rows in the price
  range, sort by the key, skip `offset` rows, take `limit`.

`BuildQuery` proves that the plan it builds selects exactly `Listing` from
every table.

Conventions:
- A `string` stands for the bytes of a Go string, so `|s|` is Go's `len`.
- Prices are `real`; they are only compared.
- Instants and durations are `int` seconds.
- The current time is a parameter `now`.
- External services are parameters:
  - the password hasher is a pair of functions with a soundness predicate;
  - each generated token is an `Option<string>` (None: generation failed);
  - JWT verification is a partial function from token to user id;
  - the request-URI check on image URLs is a predicate.

Modules: `Entity` (entity.dfy), `AdQuery` (adquery.dfy), `UsersRepository`
(userrepo.dfy), `AdsRepository` (adrepo.dfy), `AdsServices` (adservice.dfy),
`UsersServices` (userservice.dfy), `Middleware` (middleware.dfy).

Where the Go code does not compile as written, the model follows its evident
intent:
- `ErrInvalidInput` and `ErrForbidden` are used but never declared. They are
  variants of the one `Error` datatype here.
- The ads store interface says `GetByID` but the implementation is named
  `GetById`. The store method here is `GetById`.
- The update input field is declared `ImageURL` but read as `ImageURl`. It is
  `imageUrl` here.

Two behaviours are modelled as the code has them, although a stricter contract
might be expected:
- The directory's `GetByID` reports a miss as a plain "user not found" error,
  not as the `ErrUserNotFound` sentinel.
- Listings have no tie-breaker for equal sort keys. Sortedness is stated by
  key only, and the order of tied rows is left open.

## Model

| member | source | states |
|---|---|---|
| AdsServices.ValidateInput | internal/service/ad.go:164-180 | The result is None exactly when the title is 1–100 bytes, the description at most 1000 bytes, the image URL empty or a request URI, and the price not negative. Otherwise it is the first failed check, in the order title, description, URL, price. |
| AdsServices.AdService.Create | internal/service/ad.go:25-47 | Invalid content returns `InvalidInput` with the first failed check, and the store is unchanged. Success iff the content is valid and the store online. On success the new ad has a fresh id, the caller as owner, the input's fields and the store's creation time. It is returned as re-read, and it is the only change to the store. |
| AdsServices.AdService.Update | internal/service/ad.go:49-93 | A missing ad gives `AdNotFound` and a non-owner gives `Forbidden`. Otherwise the result is `InvalidInput` when the merged ad fails validation, else the merged ad. The store changes only on success, and only at that id, to the merged ad. |
| AdsServices.Merged | internal/service/ad.go:65-78 | The merge keeps id, owner and creation time. A field differs from the stored one only when the input supplies that value. |
| AdsServices.MergeReplacesOnlyPresentFields | internal/service/ad.go:65-78 | A merge keeps id, owner and creation time. Each present field comes from the input and each absent field keeps its stored value. |
| AdsServices.EmptyUpdateIsIdentity | internal/service/ad.go:65-78 | An update with no field present leaves the ad as it was. |
| AdsServices.FullUpdateValidatedLikeCreate | internal/service/ad.go:80-82 | An update that supplies every field is validated exactly as a new ad with that content. |
| AdsServices.AdService.GetByID | internal/service/ad.go:95-108 | Returns the stored ad for a present id and `AdNotFound` for an absent one. |
| AdsServices.ResponseFor | internal/service/ad.go:122-131 | The response wraps the row unchanged. `isOwner` is present iff a viewer is known, and then it is true iff the viewer owns the ad. |
| AdsServices.AdService.GetAll | internal/service/ad.go:110-136 | There is one response per listed row, in the store's order. Each response is the row annotated for the viewer. |
| AdsServices.AdService.Delete | internal/service/ad.go:138-162 | A missing ad gives `AdNotFound` and a non-owner gives `Forbidden`, leaving the store unchanged. Success iff the caller owns a present ad, and then exactly that ad is removed. |
| AdsServices.OwnerOnlyDelete | internal/service/ad.go:141-161 | A delete by another user is `Forbidden`, the owner's delete succeeds, and a repeated delete is `AdNotFound`. Only that ad is gone. |
| AdsRepository.AdsRepo.Create | internal/repository/ad.go:19-31 | Succeeds iff online. The stored ad takes the next id, the caller's owner and content, and `now` as creation time; the caller's id and time are ignored. No other row changes. |
| AdsRepository.AdsRepo.Update | internal/repository/ad.go:33-52 | For a present id only title, description, image URL and price change. An absent id is `AdNotFound` and changes nothing. |
| AdsRepository.AdsRepo.GetById | internal/repository/ad.go:54-70 | Returns the row with that id, or `AdNotFound`. |
| AdsRepository.AdsRepo.Delete | internal/repository/ad.go:158-178 | `AdNotFound` iff the id is absent. The table afterwards lacks exactly that id. |
| AdsRepository.CreateThenGetById | internal/repository/ad.go:19-70 | `GetById` of the id `Create` returned yields the caller's owner, title, description, image URL and price. |
| AdsRepository.DeleteTwice | internal/repository/ad.go:158-178 | The second delete of the same id returns `AdNotFound` and changes nothing. |
| AdsRepository.AdsRepo.ScanJoin | internal/repository/ad.go:75-79 | The scan lists every ad whose owner exists exactly once, joined with that owner's login. |
| AdsRepository.AdsRepo.GetAll | internal/repository/ad.go:72-156 | Offline gives a storage error. Otherwise the result is `Listing` of the query over a scan of the join. |
| AdsRepository.ListedRowsAreJoinedAds | internal/repository/ad.go:75-79 | Every listed row is a stored ad whose owner exists, carries that owner's login, and meets the price bounds. |
| AdsRepository.OrphanAdsAreNotListed | internal/repository/ad.go:78 | An ad whose owner is missing is never listed. |
| AdQuery.BuildQuery | internal/repository/ad.go:81-129 | The price filters appear only for positive bounds, min before max, each bound to its price. Placeholders are $1..$n in order, with args being the filters, then limit, then offset. A row passes iff it is in the price range. The sort is by price iff `sortBy == "price"`, ascending iff the upper-cased direction is "ASC". The limit is the query's if positive, else 10, and the offset is `(page-1)*limit` for page > 1, else 0. The plan selects exactly `Listing` from every table. |
| AdQuery.PriceFiltersMatchBounds | internal/repository/ad.go:85-98 | A WHERE clause with a lower-bound filter for a positive minimum, then an upper-bound filter for a positive maximum, each bound to its price, passes exactly the rows in the query's price range. |
| AdQuery.PlanSelectsListing | internal/repository/ad.go:96-129 | A plan whose filter, order and window agree with the query selects exactly the query's listing from every table. |
| AdQuery.FilterRows | internal/repository/ad.go:96-98 | The kept rows all satisfy the filter, form a sub-multiset of the input, and include every input row that satisfies it. |
| AdQuery.FilterRowsCounts | internal/repository/ad.go:96-98 | A row the filter accepts appears in the result exactly as often as in the input; a rejected row does not appear. |
| AdQuery.FilterRowsAppend | internal/repository/ad.go:96-98 | Filtering keeps the input order: filtering a concatenation is the concatenation of the filtered parts. |
| AdQuery.FilterRowsExtensional | internal/repository/ad.go:96-98 | Filters that agree on every row keep the same rows. |
| AdQuery.Insert | internal/repository/ad.go:113 | Inserting adds one row. |
| AdQuery.InsertAddsOne | internal/repository/ad.go:113 | Inserting adds exactly that row to the multiset. |
| AdQuery.InsertSorted | internal/repository/ad.go:113 | Inserting into a sorted sequence keeps it sorted by the key. |
| AdQuery.SortRows | internal/repository/ad.go:113 | Sorting keeps the number of rows. |
| AdQuery.SortRowsSortedPermutation | internal/repository/ad.go:100-113 | The sorted rows are ordered by the key in the requested direction and are a permutation of the input. |
| AdQuery.WindowSlice | internal/repository/ad.go:115-129 | The window has `min(limit, max(0, n - offset))` rows. Row i is input row `offset + i`. |
| AdQuery.ListingContents | internal/repository/ad.go:72-156 | The page is sorted by the requested key and direction. It draws its rows from the table without duplication, and each row meets the price bounds. |
| AdQuery.ListingWindow | internal/repository/ad.go:115-129 | The page has `min(limit, max(0, matching - offset))` rows, and row i is ordered matching row `offset + i`. |
| AdQuery.ColumnFor | internal/repository/ad.go:100-106 | "price" sorts by price and "date" by creation time; any other value also sorts by creation time. |
| AdQuery.DirectionFor | internal/repository/ad.go:108-111 | The order is ascending iff the direction is "asc" in any mix of letter cases; anything else is descending. |
| AdQuery.UpperIsAsc | internal/repository/ad.go:109 | Upper-casing a string gives "ASC" iff it has three letters a, s, c, each in either case. |
| AdQuery.LimitFor | internal/repository/ad.go:115-118 | The page size is at least 1, and it is the requested size whenever that is positive. |
| AdQuery.OffsetFor | internal/repository/ad.go:124-127 | The offset is never negative. It is 0 for page 1 or below, and at least one full page for any later page. |
| AdQuery.PriceInRange | internal/repository/ad.go:85-94 | With no positive bound every price is in range. A positive minimum above a positive maximum admits no price. |
| AdQuery.Listing | internal/repository/ad.go:72-156 | A page holds at most the query's page size of rows. |
| AdQuery.Select | internal/repository/ad.go:96-129 | The database returns at most the plan's bound limit of rows. |
| AdQuery.SecondPageOfTen | internal/repository/ad.go:115-129 | Page 2 of size 10 holds ordered rows 11 to 20, or none when there are at most 10. |
| AdQuery.EqualBoundsSelectExactPrice | internal/repository/ad.go:85-94 | Equal positive bounds list only ads at exactly that price. |
| AdQuery.PageAtMostOneIsFirstPage | internal/repository/ad.go:124-127 | A page of 1 or less has offset 0 and lists the same rows as page 1. |
| UsersServices.UsersService.SignUp | internal/service/user.go:36-73 | A bad login length, then a short password, gives `InvalidInput` before any hashing or storage. A hash failure and a taken login (`UserExists`) fail without change. Success iff all checks pass and the directory is online. The result is the new user re-read, without its hash, and the directory gains exactly that row with the hash. |
| UsersServices.UsersService.SignIn | internal/service/user.go:75-92 | When online, `InvalidCreds` iff no user has that login with a matching password, so an unknown login and a wrong password fail alike. Failures leave sessions unchanged. Success iff the credentials match and both tokens are produced. The session of the user with that login is then replaced by the new refresh token expiring at `now + refreshTTL`. |
| UsersServices.UsersService.RefreshTokens | internal/service/user.go:94-110 | An empty token is `InvalidInput` whatever the store's state, so no lookup happens. When online, `UserNotFound` iff no user's live session holds the token, with no change. On success the session of the user the token resolved to is replaced. |
| UsersServices.UsersService.CreateSession | internal/service/user.go:112-143 | An access-token failure gives empty tokens. A refresh-token failure returns the access token alone, and a storage failure gives empty tokens. None of these stores anything. Otherwise both tokens are returned, and the stored session is the returned refresh token expiring at `now + refreshTTL`. |
| UsersServices.SignUpThenSignIn | internal/service/user.go:36-92 | A fresh sign-up returns the login without the hash. Signing in with the same password then succeeds, and the refresh token handed out resolves to the new user. |
| UsersServices.RefreshRotates | internal/service/user.go:94-143 | After a successful refresh the token just used no longer resolves, so a second refresh with it is `UserNotFound`. |
| UsersServices.SignInStepAsWritten | internal/service/user.go:78-89 | As written, the nil dereference happens iff the lookup reports no user and no error. Sign-in proceeds iff a user was found whose hash matches the password, and then with that user's id. |
| UsersServices.UnknownLoginDereferencesNil | internal/service/user.go:78-89 | As written, an unknown login reaches a nil dereference. The only error mapped to `InvalidCreds` is one the login lookup never returns. |
| UsersRepository.UsersRepo.Create | internal/repository/user.go:19-27 | Only login and hash are stored, with the next id and `now`; the caller's id and creation time are ignored. A taken login is `UserExists` and changes nothing. Login uniqueness is kept. |
| UsersRepository.UsersRepo.GetByLogin | internal/repository/user.go:29-40 | When online the lookup never errs. A miss is no user. A hit is the row with that login, hash included. |
| UsersRepository.UsersRepo.GetByID | internal/repository/user.go:42-53 | A hit returns the user with an empty hash. A miss is the plain "user not found" error, not `UserNotFound`. |
| UsersRepository.UsersRepo.GetByRefreshToken | internal/repository/user.go:55-69 | Succeeds iff some user's stored token equals the argument and its expiry is strictly after `now`, returning such a user. Otherwise `UserNotFound`. |
| UsersRepository.UsersRepo.SetSession | internal/repository/user.go:71-75 | When online there is no error, even for an absent id. The table becomes `WithSession` with the last visit stamped `now`: the user's session slot and last-visit time are overwritten, nothing else. |
| UsersRepository.WithSession | internal/repository/user.go:71-75 | For a present user the row afterwards holds the new session and the new last-visit time. For an absent id the table is unchanged. |
| UsersRepository.WithSessionFrame | internal/repository/user.go:72 | Setting a session keeps the set of users, every other row, and that user's id, login, hash and creation time. |
| UsersRepository.PreviousTokenRotatesOut | internal/repository/user.go:55-75 | After the slot takes a different token, the previous token no longer resolves to that user. |
| UsersRepository.OnlyNewestTokenResolves | internal/repository/user.go:55-75 | After a session is set, a token resolves to that user iff it is the new token and `now` is before its expiry. |
| UsersRepository.CreateAsWritten | internal/repository/user.go:19-26 | As written, the insert succeeds iff the store is online and the login is free, and no failure is ever `UserExists`. |
| UsersRepository.TakenLoginNotReportedAsUserExists | internal/repository/user.go:19-26 | As written, a second insert of "alice" fails with an error that is not `UserExists`. |
| Middleware.Split | internal/middleware/auth.go:28 | Splitting gives at least one piece and no piece contains a space. |
| Middleware.JoinSplit | internal/middleware/auth.go:28 | Joining the pieces with single spaces gives the header back. |
| Middleware.SplitAfterWord | internal/middleware/auth.go:28 | A space-free prefix becomes the start of the first piece. |
| Middleware.SplitWordSpace | internal/middleware/auth.go:28 | A space-free word, a space and a rest split into the word followed by the rest's pieces. |
| Middleware.SplitJoin | internal/middleware/auth.go:28 | Splitting undoes joining when no piece holds a space. |
| Middleware.BearerToken | internal/middleware/auth.go:28-31 | A token found in a header has no space, and the header is exactly "Bearer", one space and that token. |
| Middleware.BearerTokenExactly | internal/middleware/auth.go:28-31 | A header yields token t iff it is exactly "Bearer", one space and t, with t free of spaces. |
| Middleware.BearerTokenIsSuffix | internal/middleware/auth.go:28-31 | A header yields a token iff it starts with "Bearer " and the rest has no space. The token is that rest. |
| Middleware.JWTAuth | internal/middleware/auth.go:20-40 | A request let through always carries a user id. Every refusal carries one of the three messages. |
| Middleware.JWTOptionalAuth | internal/middleware/auth.go:43-64 | Optional authentication always calls the next handler, and stores a user id only for a well-formed bearer header. |
| Middleware.JWTAuthAccepts | internal/middleware/auth.go:20-40 | The request passes iff the header is "Bearer " plus a space-free token that verifies, and then the context holds that token's user id. |
| Middleware.OptionalAuthAgreesWithRequired | internal/middleware/auth.go:43-64 | Optional authentication sets a user id iff required authentication would accept, and then with the same id. |
| Middleware.DoubleSpaceIsMalformed | internal/middleware/auth.go:28-31 | "Bearer", two spaces and anything is "invalid auth header format". |
| Middleware.LowerCaseSchemeIsMalformed | internal/middleware/auth.go:28-31 | "bearer " plus anything is "invalid auth header format": the scheme word is case-sensitive. |

## Left out

- HTTP transport is not modelled: Echo routing, request binding and validation tags, JSON encoding, status mapping, and the handlers' page/limit clamping. The middlewares' 401 answer is the `Unauthorized` outcome with its message.
- SQL text and the database driver are not modelled. The statement is represented by its structure (filters, order, placeholders, arguments), not by the string that `Sprintf`/`strings.Join` produce. The copy loop over result rows and its scan errors are folded into `AdsRepo.GetAll` returning the selected rows.
- The database is a map. Storage faults are one `online` flag, so a fault that strikes between two statements of one service call is not modelled. Foreign keys and the database's own uniqueness index are not modelled; login uniqueness is an invariant of `UsersRepo`.
- Password hashing (bcrypt cost and salt), JWT signing and parsing, and random refresh tokens are parameters, not algorithms. The access-token lifetime only reaches the token signer, so it is a field with no effect in the model.
- Logging and error wrapping with operation names are not modelled. Errors are modelled by kind only; wrapped storage errors become one `Unclassified` value.
- Configuration loading is not modelled beyond the default lifetimes (one hour, thirty days). Entry points and bootstrap are not modelled.
- The table schema is not part of the source files modelled here. A new user's session and last-visit columns start as NULL, which is what an INSERT that names neither column gives when the columns have no default.
- Concurrency is not modelled. That includes the last-writer-wins race on a session slot and an ad deleted between an update's read and its write.
- `GetByIDWithAuthor` is declared in the service and store interfaces but has no implementation; it is not part of this model.
- AdQuery.DirectionFor: upper-cases ASCII letters only. Go's `strings.ToUpper` also maps some non-ASCII runes to ASCII capitals (for example U+017F to "S"), so a direction such as "aſc" that Go treats as ascending is descending here.
- AdQuery.OffsetFor: uses unbounded integers, so the 64-bit overflow of `(page-1)*limit` for huge pages is not modelled; neither is the overflow of the ids.
- AdQuery.PriceInRange: compares reals, so NaN prices and bounds are not modelled.
- AdsRepository.AdsRepo.ScanJoin: scans by ascending id. The database may scan in any order; the listing depends on that order only among rows with equal sort keys, and `GetAll`'s contract holds for the scan it is given.
- UsersServices.UsersService.SignIn: models the corrected behaviour for an unknown login, `InvalidCreds`, not the nil dereference of the code as written (see Findings).
- UsersRepository.UsersRepo.Create: models the corrected behaviour for a taken login, `UserExists`, not the wrapped driver error of the code as written (see Findings).

## Findings

| source | as written | input that shows it | evidently intended | confidence | as-written member | corrected member |
|---|---|---|---|---|---|---|
| internal/service/user.go:78-89 | `GetByLogin` reports an unknown login as no user and no error (internal/repository/user.go:34-36). `SignIn` only maps a `UserNotFound` error to `InvalidCreds`, then reads `user.PasswordHash` through the nil user. | `SignIn` with any login that is not registered | An unknown login fails with `InvalidCreds`, like a wrong password | high; not executed | UsersServices.UnknownLoginDereferencesNil | UsersServices.UsersService.SignIn |
| internal/repository/user.go:19-26 | `Create` wraps any INSERT failure as "failed to create new user", so `ErrUserExists` is never returned and `SignUp`'s `UserExists` branch (internal/service/user.go:60-61) cannot run. | A second `SignUp` with the login "alice" | A taken login fails with `UserExists` | medium (assumes a unique index on login, not shown); not executed | UsersRepository.TakenLoginNotReportedAsUserExists | UsersRepository.UsersRepo.Create |
