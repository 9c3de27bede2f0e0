# Shop app core: sessions, users, products, uploads and orders

A Dafny model of the service layer of a Spring e-commerce back end.

It covers:

- **Tokens** — the login-session store. Each user holds at most three sessions. When a new session would overflow, the oldest non-mobile session is evicted first, and the oldest session when every session is mobile. The refresh flow renews a session in place, or destroys it when its refresh window has passed.
- **Users** — registration, login, lookups by access or refresh token, partial update, password reset (which deletes every session of the user) and blocking.
- **UserController** — the HTTP layer in front of the user service. This covers the status codes and messages, the `Bearer ` header handling and the mobile-device detection.
- **Products** — creating, reading, updating and deleting products, plus the per-product image cap and the stored-file naming.
- **ProductController** — the image-upload loop, with its checks in order and its early exits, and the parsing of a comma-separated id list.
- **Orders** — placing an order (the user check, the shipping-date rule and one detail line per cart item), reading, overwriting and soft-deleting orders, and listing a user's orders.

Each repository table is a `seq` field of the service class that owns it, kept in insertion order. Queries without an ORDER BY, such as `findByUser`, are assumed to return rows in that order; the choice of the session to evict depends on it. Database ids are counters on that class. Methods that change tables are proved against pure reference functions, and the properties are lemmas about those functions:

- `Tokens.Admit` models the admission;
- `Tokens.Refresh` models the refresh;
- `Users.WithoutUser` models the mass deletion;
- `ProductController.Plan` models the upload loop;
- `Orders.Lines` models the detail loop.

Collaborators outside the core are passed in as parameters:

- the JWT utility and the password encoder are records of functions, in `Security`;
- the clock is an integer `now` (an instant) and `today` (a day number);
- UUIDs are strings;
- `StringUtils.cleanPath` is a function.

Some behaviours of the source that a reader might not expect, all modelled as written:

- Blocking an account only sets its active flag and leaves its sessions in place (`UserService.java:195-200`).
- A successful refresh writes the presented refresh value back, so the value itself never changes (`TokenService.java:91`).
- The cap of three sessions per user is a fixed constant (`TokenService.java:22`).
- The access and refresh lifetimes are two independent configuration values (`TokenService.java:23-27`). Nothing checks that the refresh lifetime exceeds the access lifetime, so the window-ordering lemmas take that as a hypothesis.

## Model

| member | source | states |
|---|---|---|
| `Text.Lower` | src/main/java/com/example/shopapp/controllers/UserController.java:130 | `toLowerCase` keeps the length and lower-cases each character on its own |
| `Text.LowerIdempotent` | src/main/java/com/example/shopapp/controllers/UserController.java:130 | lower-casing twice is lower-casing once |
| `Text.LowerSlice` | src/main/java/com/example/shopapp/controllers/UserController.java:130 | lower-casing commutes with taking a slice |
| `Text.Contains` | src/main/java/com/example/shopapp/controllers/UserController.java:130 | `contains` holds exactly when the pattern occurs at some position |
| `Text.DropTrailingEmpty` | src/main/java/com/example/shopapp/controllers/ProductController.java:182 | `String.split` drops exactly the trailing empty pieces and keeps a prefix of the raw split |
| `Text.SplitJoin` | src/main/java/com/example/shopapp/controllers/ProductController.java:182 | splitting pieces joined with a separator they do not contain gives back the pieces |
| `Text.JoinHasSeparator` | src/main/java/com/example/shopapp/controllers/ProductController.java:182 | two or more joined pieces always contain the separator |
| `Text.JavaSplit` | src/main/java/com/example/shopapp/controllers/ProductController.java:182 | `String.split` with a one-character separator: the raw pieces minus the trailing empty ones (proved in `DropTrailingEmpty` and `JavaSplitJoin`) |
| `Text.JavaSplitJoin` | src/main/java/com/example/shopapp/controllers/ProductController.java:182 | Java's split inverts a join of non-empty pieces |
| `Text.ParseLong` | src/main/java/com/example/shopapp/controllers/ProductController.java:183 | `Long.parseLong` only yields values within the 64-bit range |
| `Text.Decimal` | src/main/java/com/example/shopapp/services/OrderService.java:39 | a number printed in a message is a non-empty digit string |
| `Text.DecimalValue` | src/main/java/com/example/shopapp/services/OrderService.java:39 | the printed digits denote the number |
| `Text.ParseDecimal` | src/main/java/com/example/shopapp/controllers/ProductController.java:183 | parsing a printed id in range gives the id back |
| `Text.ParseNegativeDecimal` | src/main/java/com/example/shopapp/controllers/ProductController.java:183 | a minus sign followed by digits parses down to the long minimum |
| `Text.ParseLongOverflow` | src/main/java/com/example/shopapp/controllers/ProductController.java:183 | every value above the long maximum, signed or not, and every value below the long minimum is refused |
| `Tokens.OfUser` | src/main/java/com/example/shopapp/repositories/TokenRepository.java:11 | `findByUser`: the records whose owner is the user, in table order. The query has no ORDER BY, so insertion order is an assumption, and which session is "first non-mobile" rests on it (proved in `OfUserMembers`) |
| `Tokens.OfUserMembers` | src/main/java/com/example/shopapp/repositories/TokenRepository.java:11 | `findByUser` returns exactly that user's records |
| `Tokens.OfUserUnique` | src/main/java/com/example/shopapp/repositories/TokenRepository.java:11 | a user's records keep unique ids |
| `Tokens.Without` | src/main/java/com/example/shopapp/services/TokenService.java:53 | `delete`: the records whose id differs, in table order (proved in `WithoutMembers`, `WithoutAt`) |
| `Tokens.WithoutMembers` | src/main/java/com/example/shopapp/services/TokenService.java:53 | a delete removes the records with that id and keeps all others |
| `Tokens.WithoutUnique` | src/main/java/com/example/shopapp/services/TokenService.java:53 | a delete keeps ids and refresh values unique |
| `Tokens.WithoutAt` | src/main/java/com/example/shopapp/services/TokenService.java:53 | with unique ids, deleting a record's id removes exactly that record |
| `Tokens.FirstNonMobile` | src/main/java/com/example/shopapp/services/TokenService.java:44-47 | `filter(!isMobile).findFirst()` returns the first non-mobile position, with every earlier record mobile |
| `Tokens.VictimIndex` | src/main/java/com/example/shopapp/services/TokenService.java:41-51 | the evicted session is the first non-mobile one if any, otherwise the first one |
| `Tokens.OfUserWithout` | src/main/java/com/example/shopapp/services/TokenService.java:35-53 | filtering by user commutes with deleting by id |
| `Tokens.OfUserAppend` | src/main/java/com/example/shopapp/services/TokenService.java:70 | a saved record joins its own user's list at the end |
| `Tokens.Admit` | src/main/java/com/example/shopapp/services/TokenService.java:34-72 | the table after a login: below three sessions the token is appended; at three, the first non-mobile session (else the oldest) is deleted first (proved in the `Admit…` lemmas) |
| `Tokens.AdmitOwnTokens` | src/main/java/com/example/shopapp/services/TokenService.java:34-72 | after admission, the user holds their old list minus the evicted record (when at the cap), followed by the new token |
| `Tokens.AdmitCount` | src/main/java/com/example/shopapp/services/TokenService.java:38-53 | the user's count grows by one below the cap and stays put at it |
| `Tokens.AdmitKeepsCap` | src/main/java/com/example/shopapp/services/TokenService.java:22 | the capacity invariant: a user with at most three sessions still has at most three |
| `Tokens.AdmitEvictsFirstNonMobile` | src/main/java/com/example/shopapp/services/TokenService.java:41-47 | at the cap, with a non-mobile session present, the first non-mobile session is evicted |
| `Tokens.AdmitEvictsOldestMobile` | src/main/java/com/example/shopapp/services/TokenService.java:49-51 | at the cap with all sessions mobile, the oldest is evicted |
| `Tokens.AdmitBelowCap` | src/main/java/com/example/shopapp/services/TokenService.java:38 | below the cap, nothing is deleted and the token is appended |
| `Tokens.AdmitOthers` | src/main/java/com/example/shopapp/services/TokenService.java:35-53 | other users' sessions are untouched |
| `Tokens.AdmitDeletesOne` | src/main/java/com/example/shopapp/services/TokenService.java:53 | at the cap, exactly one record of the whole store goes, and it is the victim |
| `Tokens.FindByRefresh` | src/main/java/com/example/shopapp/repositories/TokenRepository.java:13 | `findByRefreshToken` finds the first record with that value, or reports that none has it |
| `Tokens.RefreshUnknown` | src/main/java/com/example/shopapp/services/TokenService.java:77-80 | an unknown refresh value fails with "Refresh token does not exist" and changes nothing |
| `Tokens.RefreshExpiredForgets` | src/main/java/com/example/shopapp/services/TokenService.java:81-84 | an expired refresh value fails, its record is deleted, and the value is not found afterwards |
| `Tokens.OfUserUpdate` | src/main/java/com/example/shopapp/services/TokenService.java:86-92 | rewriting a record in place keeps every user's count |
| `Tokens.Renewed` | src/main/java/com/example/shopapp/services/TokenService.java:86-92 | the record after a refresh: new access token, both expiries from `now`, everything else kept (proved in `RefreshSuccess`) |
| `Tokens.Refresh` | src/main/java/com/example/shopapp/services/TokenService.java:76-95 | the refresh outcome: unknown value fails, expired value is deleted and fails, otherwise the record is renewed in place (proved in `RefreshUnknown`, `RefreshExpiredForgets`, `RefreshSuccess`) |
| `Tokens.RefreshSuccess` | src/main/java/com/example/shopapp/services/TokenService.java:85-94 | a live refresh rewrites one record in place: new access token, both expiries from `now`, the same refresh value, id, owner, class and counts |
| `Tokens.AdmitKeepsWindows` | src/main/java/com/example/shopapp/services/TokenService.java:56-69 | when the refresh lifetime exceeds the access lifetime, every stored refresh window outlives its access window after a login |
| `Tokens.RefreshKeepsWindows` | src/main/java/com/example/shopapp/services/TokenService.java:89-92 | the same window ordering holds after a refresh |
| `Tokens.TokenRepository.FindByUser` | src/main/java/com/example/shopapp/repositories/TokenRepository.java:11 | returns `OfUser` of the table |
| `Tokens.TokenRepository.FindByRefreshToken` | src/main/java/com/example/shopapp/repositories/TokenRepository.java:13 | returns `FindByRefresh` of the table |
| `Tokens.TokenRepository.Delete` | src/main/java/com/example/shopapp/services/TokenService.java:53 | the table becomes `Without(old table, id)` and stays valid |
| `Tokens.TokenRepository.Save` | src/main/java/com/example/shopapp/services/TokenService.java:70 | appends the record under the next id |
| `Tokens.TokenRepository.Put` | src/main/java/com/example/shopapp/services/TokenService.java:86-92 | a managed record's setters write it back at its position |
| `Tokens.NewToken` | src/main/java/com/example/shopapp/services/TokenService.java:56-69 | the record built at login: type "Bearer", both expiries from `now`, the UUID as refresh value, not revoked or expired (stated in `AddToToken`) |
| `Tokens.TokenService.AddToToken` | src/main/java/com/example/shopapp/services/TokenService.java:34-72 | builds `NewToken` (type "Bearer", both expiries from `now`, refresh value = the UUID) and leaves the table equal to `Admit(old table, token)` |
| `Tokens.TokenService.RefreshToken` | src/main/java/com/example/shopapp/services/TokenService.java:76-95 | the table and the result are those of `Refresh` on the old table |
| `Users.IndexById` | src/main/java/com/example/shopapp/services/UserService.java:140-141 | `findById` finds a row with that id, or reports that none has it |
| `Users.IndexByPhone` | src/main/java/com/example/shopapp/services/UserService.java:60-62 | `existsByPhoneNumber`/`findByPhoneNumber` find a row with that phone, or report that none has it |
| `Users.Patched` | src/main/java/com/example/shopapp/services/UserService.java:139-176 | the row after `updateUser`'s setters (proved in `PatchedFields`) |
| `Users.PatchedFields` | src/main/java/com/example/shopapp/services/UserService.java:147-173 | an update keeps id, role and active flag; each field takes the request's value when given (a positive social id, the encoded password) and is left alone otherwise |
| `Users.WithoutUser` | src/main/java/com/example/shopapp/services/UserService.java:186-190 | the records left after deleting all of a user's sessions |
| `Users.WithoutIds` | src/main/java/com/example/shopapp/services/UserService.java:187-190 | the records whose id is outside the deleted set |
| `Users.WithoutMore` | src/main/java/com/example/shopapp/services/UserService.java:189 | one more delete enlarges the deleted set by one id |
| `Users.DeleteNext` | src/main/java/com/example/shopapp/services/UserService.java:187-190 | one loop turn deletes the next listed id |
| `Users.WithoutIdsIsWithoutUser` | src/main/java/com/example/shopapp/services/UserService.java:186-190 | deleting exactly the ids that belong to a user is deleting that user's records |
| `Users.DeletingOwnIds` | src/main/java/com/example/shopapp/services/UserService.java:186-190 | with unique ids, deleting the ids `findByUser` listed removes exactly that user's records |
| `Users.OfUserWithoutUser` | src/main/java/com/example/shopapp/services/UserService.java:186-190 | afterwards the user has no sessions and every other user keeps theirs |
| `Users.LogoutEverywhere` | src/main/java/com/example/shopapp/services/UserService.java:180-191 | after a reset, the user has no sessions, others are untouched, and none of the user's old refresh values is found |
| `Users.UserService.CreateUser` | src/main/java/com/example/shopapp/services/UserService.java:57-87 | refuses a known phone, then an unknown role; otherwise appends the row with the next id and the password encoded only when no social id is set |
| `Users.UserService.Login` | src/main/java/com/example/shopapp/services/UserService.java:90-108 | succeeds exactly when the phone is known and the account is active (for password accounts, also when the password matches); returns `generate(phone)`; otherwise reports the error in the source's order |
| `Users.UserService.LoginIgnoresPasswordOfSocialAccount` | src/main/java/com/example/shopapp/services/UserService.java:98-102 | the password given does not affect a social account's login |
| `Users.UserService.GetUserDetailsFromToken` | src/main/java/com/example/shopapp/services/UserService.java:111-122 | an expired token fails; otherwise it succeeds exactly when a user holds the token's phone, and returns that user |
| `Users.UserService.GetUserDetailsFromRefreshToken` | src/main/java/com/example/shopapp/services/UserService.java:125-128 | succeeds exactly when the refresh value is stored, its access token is live and its phone names a user, and returns that user; otherwise fails with an unknown value, then an expired token, then a missing user |
| `Users.UserService.UpdateUser` | src/main/java/com/example/shopapp/services/UserService.java:139-176 | refuses a missing user, a phone held by anyone, and passwords that are equal (as written); otherwise writes `Patched` back in place |
| `Users.UserService.ResetPassword` | src/main/java/com/example/shopapp/services/UserService.java:180-191 | stores the encoded password and leaves the token table equal to `WithoutUser(old, userId)` |
| `Users.UserService.BlockOrEnable` | src/main/java/com/example/shopapp/services/UserService.java:195-200 | sets only the active flag; sessions are left alone |
| `UserController.ListText` | src/main/java/com/example/shopapp/controllers/UserController.java:50-54 | the message of a list of field errors: the messages between brackets, a single one as `[message]` |
| `UserController.IsMobileDevice` | src/main/java/com/example/shopapp/controllers/UserController.java:128-131 | "mobile" occurs in the lower-cased User-Agent (proved in `MobileInAnyCase`, `MobileIgnoresCase`) |
| `UserController.MobileInAnyCase` | src/main/java/com/example/shopapp/controllers/UserController.java:128-131 | a device is mobile exactly when "mobile" occurs in the User-Agent, in any mix of cases |
| `UserController.MobileIgnoresCase` | src/main/java/com/example/shopapp/controllers/UserController.java:128-131 | User-Agents that differ only in case are classified alike |
| `UserController.ExtractBearer` | src/main/java/com/example/shopapp/controllers/UserController.java:167 | `substring(7)` succeeds exactly on headers of at least seven characters and yields the rest |
| `UserController.ExtractAfterAnyPrefix` | src/main/java/com/example/shopapp/controllers/UserController.java:167 | any seven characters are dropped, not only "Bearer " |
| `UserController.ResetPasswordOf` | src/main/java/com/example/shopapp/controllers/UserController.java:204-205 | the new password is the first five characters of the UUID |
| `UserController.UserController.CreateUser` | src/main/java/com/example/shopapp/controllers/UserController.java:43-71 | field errors from the request's validation give 400 with the bracketed list of their messages, then mismatched passwords give 400, both changing nothing; with neither, a known phone gives 500 with its message, then an unknown role gives 500 with its message, and otherwise registration succeeds with the stored user: next id, the requested role, name, address, birth date and social ids, and the password encoded only when no social id is set |
| `UserController.UserController.Login` | src/main/java/com/example/shopapp/controllers/UserController.java:74-103 | a failed login, then a token that names no user, then a missing User-Agent each give 401 with its own message and store nothing; when all three pass the login succeeds, the table becomes `Admit` of the new session classified by the User-Agent, and the reply carries its tokens |
| `UserController.UserController.RefreshToken` | src/main/java/com/example/shopapp/controllers/UserController.java:106-126 | an unknown refresh value, or one whose stored access token has expired, gives 401 and changes nothing; otherwise the table and the reply follow `Refresh`, all failures as 401 |
| `UserController.UserController.GetUserDetails` | src/main/java/com/example/shopapp/controllers/UserController.java:163-174 | fails with 400 exactly when the header is too short, or the token does not resolve to a user |
| `UserController.UserController.UpdateUserDetails` | src/main/java/com/example/shopapp/controllers/UserController.java:177-194 | a header that does not resolve gives its 400; a caller updating someone else gets 403; the caller's own update is a phone already taken (400), then an equal password and retype (400), and otherwise succeeds with `Patched` written back in place |
| `UserController.UserController.ResetPassword` | src/main/java/com/example/shopapp/controllers/UserController.java:197-209 | succeeds exactly when the user exists: it then resets to the UUID prefix: the user's row changes only in its password, now the encoded prefix, and the token table becomes `WithoutUser` of the old one, so other users' sessions are left alone; a missing user gives 400 and changes nothing |
| `UserController.UserController.BlockOrEnable` | src/main/java/com/example/shopapp/controllers/UserController.java:212-225 | succeeds exactly when the user exists: a positive `active` enables and anything else blocks, changing only that flag; a missing user gives 400; sessions are kept |
| `Products.ProductIndex` | src/main/java/com/example/shopapp/services/ProductService.java:67 | `findById` finds a row with that id |
| `Products.ProductIndexMisses` | src/main/java/com/example/shopapp/services/ProductService.java:67-68 | the lookup misses exactly when no row has the id |
| `Products.WithIds` | src/main/java/com/example/shopapp/repositories/ProductRepository.java:24-25 | `findProductsByIds` returns exactly the rows whose id is listed |
| `Products.WithoutProduct` | src/main/java/com/example/shopapp/services/ProductService.java:121 | a delete removes exactly the row with that id and keeps ids unique |
| `Products.WithoutAbsentProduct` | src/main/java/com/example/shopapp/services/ProductService.java:120-121 | deleting an absent id changes nothing |
| `Products.UpdateIdempotent` | src/main/java/com/example/shopapp/services/ProductService.java:100-113 | applying an update twice is applying it once |
| `Products.EmptyUpdateOnlyRecategorises` | src/main/java/com/example/shopapp/services/ProductService.java:100-113 | an update with no fields and a negative price only changes the category |
| `Products.Updated` | src/main/java/com/example/shopapp/services/ProductService.java:93-116 | the row after `updateProduct`'s setters (proved in `UpdatedFields`, `UpdateIdempotent`) |
| `Products.UpdatedFields` | src/main/java/com/example/shopapp/services/ProductService.java:100-113 | the category is always set; name, description and thumbnail are set when given; the price is set when not negative |
| `Products.ImagesOfAppend` | src/main/java/com/example/shopapp/services/ProductService.java:140-144 | saving an image adds it to that product's list only |
| `Products.ImagesOfExtend` | src/main/java/com/example/shopapp/services/ProductService.java:140-144 | saving a run of one product's images extends that product's list by the run |
| `Products.ImagesOf` | src/main/java/com/example/shopapp/services/ProductService.java:140 | `findByProductId`: the images of that product, in table order (proved in `ImagesOfMembers`) |
| `Products.ImagesOfMembers` | src/main/java/com/example/shopapp/services/ProductService.java:140 | `findByProductId` returns exactly that product's images |
| `Products.IsImageFile` | src/main/java/com/example/shopapp/services/ProductService.java:160-163 | a content type is present and its first six characters are "image/" |
| `Products.ImageSubtypesAccepted` | src/main/java/com/example/shopapp/services/ProductService.java:162 | every "image/…" type is accepted |
| `Products.ImageCheckIsCaseSensitive` | src/main/java/com/example/shopapp/services/ProductService.java:162 | "IMAGE/png" and a missing type are refused |
| `Products.StoreFile` | src/main/java/com/example/shopapp/services/ProductService.java:165-184 | fails with "Invalid image format" exactly when the file is not an image or has no name; otherwise the name is the UUID, then "_", then `cleanPath` of the original name |
| `Products.StoredNamesDiffer` | src/main/java/com/example/shopapp/services/ProductService.java:172 | different UUIDs of the same length never give the same stored name |
| `Products.ProductService.CreateProduct` | src/main/java/com/example/shopapp/services/ProductService.java:50-63 | an unknown category fails and changes nothing; otherwise the row is appended with the next id |
| `Products.ProductService.GetProductById` | src/main/java/com/example/shopapp/services/ProductService.java:66-69 | succeeds exactly when a row has the id, and fails with the lookup message otherwise |
| `Products.ProductService.FindProductsByIds` | src/main/java/com/example/shopapp/services/ProductService.java:72-74 | exactly the stored products whose id is listed |
| `Products.ProductService.UpdateProduct` | src/main/java/com/example/shopapp/services/ProductService.java:93-116 | a missing product, then an unknown category, fails and changes nothing; otherwise it succeeds and the row becomes `Updated` in place |
| `Products.ProductService.DeleteProduct` | src/main/java/com/example/shopapp/services/ProductService.java:119-123 | the row is gone, and a missing id is a silent no-op |
| `Products.ProductService.CreateProductImage` | src/main/java/com/example/shopapp/services/ProductService.java:131-145 | a missing product fails, then more than five images fails; otherwise the image is appended with the next id. The cap of five is assumed from the message at `ProductController.java:75`; the constant's definition is not part of this model |
| `Products.KeepsCap` | src/main/java/com/example/shopapp/services/ProductService.java:140-143 | the invariant the check keeps is at most six images per product |
| `Products.CapAdmitsOneExtra` | src/main/java/com/example/shopapp/services/ProductService.java:141 | a product holding exactly five images is admitted a sixth |
| `ProductController.Classify` | src/main/java/com/example/shopapp/controllers/ProductController.java:80-93 | empty files are skipped; then files over 10 MiB are rejected, then non-images; otherwise the file is stored |
| `ProductController.OutcomeOf` | src/main/java/com/example/shopapp/controllers/ProductController.java:80-95 | a file's fate: skipped exactly when empty; named exactly when it passes every check and has a name, and then named the UUID, "_" and the cleaned original name |
| `ProductController.OutcomeAt` | src/main/java/com/example/shopapp/controllers/ProductController.java:78 | a file's outcome depends only on that file and its position |
| `ProductController.OutcomesOf` | src/main/java/com/example/shopapp/controllers/ProductController.java:78-95 | each file's fate, file by file (proved in `OutcomeAt`, `OutcomeOf`) |
| `ProductController.Plan` | src/main/java/com/example/shopapp/controllers/ProductController.java:78-105 | the reference result of the upload loop: images recorded and the failure that stopped it (proved in the `Plan…` lemmas) |
| `ProductController.Drive` | src/main/java/com/example/shopapp/controllers/ProductController.java:78-105 | the upload loop with its accumulator, as `StoreEach` runs it (proved equal to `Plan` in `DriveIsPlan`) |
| `ProductController.DriveIsPlan` | src/main/java/com/example/shopapp/controllers/ProductController.java:78-105 | the accumulating loop computes the same result as the reference `Plan` |
| `ProductController.NamedIn` | src/main/java/com/example/shopapp/controllers/ProductController.java:95-104 | the names produced by a stretch of files |
| `ProductController.PlanStopsAtHalt` | src/main/java/com/example/shopapp/controllers/ProductController.java:84-93 | the first failing file ends the request with its reason, and everything before it is recorded |
| `ProductController.PlanSucceeds` | src/main/java/com/example/shopapp/controllers/ProductController.java:78-106 | a request succeeds exactly when no file fails and the cap is not exceeded, and it then records every name |
| `ProductController.PlanRecordsPrefix` | src/main/java/com/example/shopapp/controllers/ProductController.java:78-105 | the names recorded are a prefix of those produced |
| `ProductController.EmptyFilesRecordNothing` | src/main/java/com/example/shopapp/controllers/ProductController.java:80-82 | a request of empty files records nothing and succeeds |
| `ProductController.CapAdmitsOneMore` | src/main/java/com/example/shopapp/controllers/ProductController.java:97-103 | a product at five images accepts one more upload |
| `ProductController.UrlsAppend` | src/main/java/com/example/shopapp/controllers/ProductController.java:104 | adding an image adds its URL at the end |
| `ProductController.ParseAll` | src/main/java/com/example/shopapp/controllers/ProductController.java:182-184 | succeeds exactly when every piece parses, and then holds each piece's value |
| `ProductController.DecimalsOf` | src/main/java/com/example/shopapp/controllers/ProductController.java:179 | writes each id in decimal, as a client does |
| `ProductController.ParseAllDecimals` | src/main/java/com/example/shopapp/controllers/ProductController.java:182-184 | parsing printed ids gives them back |
| `ProductController.IdListRoundTrip` | src/main/java/com/example/shopapp/controllers/ProductController.java:179-184 | any non-empty comma-separated list of ids is read back exactly |
| `ProductController.EmptyPieceRejected` | src/main/java/com/example/shopapp/controllers/ProductController.java:183 | two commas in a row make the request fail |
| `ProductController.ProductController.GetProductsByIds` | src/main/java/com/example/shopapp/controllers/ProductController.java:178-191 | succeeds exactly when every piece parses, then returns the products with those ids; otherwise 400 |
| `ProductController.ProductController.UploadImages` | src/main/java/com/example/shopapp/controllers/ProductController.java:64-110 | a missing product or more than five files fails and stores nothing; otherwise the stored images, the reply and the failure are those of `Plan`, and only images of this product are added |
| `ProductController.ProductController.StoreEach` | src/main/java/com/example/shopapp/controllers/ProductController.java:78-105 | the loop adds exactly the images `Plan` records and stops with its failure |
| `ProductController.ProductController.StoreOne` | src/main/java/com/example/shopapp/controllers/ProductController.java:79-104 | one loop turn: the next step of `Drive`, recording at most one image |
| `Orders.ShippingDate` | src/main/java/com/example/shopapp/services/OrderService.java:56 | the date given, or today when none is (proved in `ShippingDateRule`) |
| `Orders.ShippingDateRule` | src/main/java/com/example/shopapp/services/OrderService.java:56-59 | a missing date becomes today and passes; a given date passes exactly when it is not before today |
| `Orders.NewOrder` | src/main/java/com/example/shopapp/services/OrderService.java:41-61 | the order `createOrder` saves (proved in `NewOrderIsPending`) |
| `Orders.NewOrderIsPending` | src/main/java/com/example/shopapp/services/OrderService.java:41-61 | a new order is pending and active, dated `now`, with the next id; it carries the request's user, contact, note, money, shipping and payment fields; its shipping date is the given one, or today when none is given, and an accepted date is not before today |
| `Orders.Lines` | src/main/java/com/example/shopapp/services/OrderService.java:65-79 | the order lines built from the cart, or the first missing product (proved in `LinesSucceed`, `LinesFailAt`) |
| `Orders.LinesSucceed` | src/main/java/com/example/shopapp/services/OrderService.java:65-79 | when every product exists, there is one line per item, in order, with consecutive ids, the product's price and the item's quantity |
| `Orders.LinesFailAt` | src/main/java/com/example/shopapp/services/OrderService.java:67-68 | the first missing product fails with its id |
| `Orders.LinesNeedAll` | src/main/java/com/example/shopapp/services/OrderService.java:65-79 | a successful loop found every product |
| `Orders.SavedLines` | src/main/java/com/example/shopapp/services/OrderService.java:65-81 | the saved lines from the start: one per item, each pointing at the order and its product |
| `Orders.OrderIndex` | src/main/java/com/example/shopapp/services/OrderService.java:88 | `findById` finds an order with that id |
| `Orders.OrderIndexMisses` | src/main/java/com/example/shopapp/services/OrderService.java:88-89 | the lookup misses exactly when no order has the id |
| `Orders.OrderIndexUpdate` | src/main/java/com/example/shopapp/services/OrderService.java:110 | a save in place keeps the order findable at its position |
| `Orders.Overwritten` | src/main/java/com/example/shopapp/services/OrderService.java:99-109 | the order after `updateOrder`'s setters (proved in `OverwriteForgetsOld`, `UpdateKeepsAnyDate`) |
| `Orders.OverwriteForgetsOld` | src/main/java/com/example/shopapp/services/OrderService.java:99-109 | an update overwrites every editable field, so its result ignores the old values, and it is idempotent |
| `Orders.UpdateKeepsAnyDate` | src/main/java/com/example/shopapp/services/OrderService.java:108 | an update stores even a past shipping date, one that creation would refuse |
| `Orders.OrdersOf` | src/main/java/com/example/shopapp/services/OrderService.java:125 | `findByUserId`: the user's orders, in table order (proved in `OrdersOfMembers`) |
| `Orders.OrdersOfMembers` | src/main/java/com/example/shopapp/services/OrderService.java:125 | `findByUserId` returns exactly the user's orders |
| `Orders.OrdersOfDeactivate` | src/main/java/com/example/shopapp/services/OrderService.java:118-119 | a soft delete keeps every user's order count |
| `Orders.OrderService.GetOrder` | src/main/java/com/example/shopapp/services/OrderService.java:87-90 | succeeds exactly when an order has the id, and fails with "Cannot find with order id: …" otherwise |
| `Orders.OrderService.FindByUserId` | src/main/java/com/example/shopapp/services/OrderService.java:124-131 | fails exactly when the user has no orders; otherwise returns exactly the user's orders |
| `Orders.OrderService.CollectLines` | src/main/java/com/example/shopapp/services/OrderService.java:65-79 | the loop computes `Lines` |
| `Orders.OrderService.CreateOrder` | src/main/java/com/example/shopapp/services/OrderService.java:36-84 | a missing user, then a past date, fails with nothing saved; otherwise the order is saved first; a missing product then fails with no lines saved, and otherwise every line is saved |
| `Orders.OrderService.UpdateOrder` | src/main/java/com/example/shopapp/services/OrderService.java:93-111 | a missing order, then a missing user (the message names the order id), fails; otherwise the order is overwritten in place |
| `Orders.OrderService.DeleteOrder` | src/main/java/com/example/shopapp/services/OrderService.java:114-121 | a missing order fails; otherwise only its active flag is cleared |

## Left out

- Spring wiring, JPA, HTTP transport and JSON are not modelled. Controllers return a `Reply` with a status and a message.
- Endpoints that only pass calls through, listing with paging and search (`getAllProducts`, `searchProducts`), and `existsByName` are not modelled: they hold no logic of their own.
- JWT signing and parsing, and BCrypt, are not modelled. They are the uninterpreted functions of `Security.JwtUtils` and `Security.PasswordEncoder`.
- The clock, `UUID.randomUUID` and `StringUtils.cleanPath` are parameters. `UploadImages` takes the UUID for each file position as a function of that position.
- File-system effects are not modelled: writing uploads, `viewImage` and `deleteFile`. A stored file is represented only by its returned name.
- Prices and order totals are integers rather than floating point.
- Orders' text fields are plain strings, so a Java `null` is indistinguishable from a value.
- `Orders.OrderStatus` has only `Pending` and `LaterStatus`, because the other status names are not needed by the core.
- Transactions are not modelled. Each operation runs in statement order, and a thrown exception does not undo earlier writes. So:
  - `createOrder` keeps the saved order when a product is missing;
  - `refreshToken` keeps the deletion of an expired record.

  The exception classes are not part of this model, so whether Spring rolls these writes back cannot be decided from it.
- Concurrency and atomicity across requests are not modelled: each call runs alone.
- Deleting a product does not cascade to its images or order lines, because the mappings that would do it are not part of this model.
- `ProductController.ProductController.StoreEach` and `StoreOne` are one loop of `uploadImages`, split into two methods to keep each proof small.
- `Tokens.TokenService.AddToToken`: requires the new UUID to be unlike every stored refresh value. Random UUIDs are taken never to collide.
- `Tokens.TokenService.AddToToken`: reads the clock once for both expiry dates, where the source reads it twice (`TokenService.java:56`, `:69`).
- `Tokens.TokenService.RefreshToken` and `Tokens.Refresh`: use one `now` for the expiry check and both new expiry dates, where the source reads the clock three times (`TokenService.java:81`, `:88`, `:92`).
- `Orders.OrderService.CreateOrder`: uses one `now` for the order date and one `today` for the default shipping date and the check, where the source reads the clock three times (`OrderService.java:48`, `:56`, `:57`).
- `UserController.UserController.GetUserDetails`, `UserController.UserController.Login`: the messages for a header shorter than seven characters and for a missing User-Agent are fixed strings that stand for the JDK's exception messages. They do not reproduce those messages exactly.
- `Users.UserService.GetUserDetailsFromRefreshToken`: a refresh value with no record is a Java `NullPointerException`. It is modelled as an error result.
- `UserController.UserController.Login`: a missing User-Agent is a `NullPointerException` inside `isMobileDevice`. It is modelled as a 401 failure, after the user lookup and before any session is stored.
- `UserController.UserController.CreateUser`: the `@Valid` constraints of `UserDTO` are not evaluated. The field-error messages they produce are a parameter, in the order Spring reports them.
- The image cap: `ProductImage.MAXIMUM_IMAGES_PER_PRODUCT` is not part of this model. Its value 5 is assumed from the message "You can only upload maximum 5 images".
- `Text.ParseLong`: accepts ASCII digits with an optional leading sign only. `Long.parseLong` also accepts other Unicode digits.
- `Users.UserService.UpdateUser`: a refused password leaves the row as it was. Whether the setters already applied to the loaded entity reach the database depends on transaction rollback, which is not part of this model.
- `Text.Lower`: lower-cases ASCII letters only. Java's `toLowerCase` also folds other scripts.
- `Tokens.RefreshKeepsWindows`, `Tokens.AdmitKeepsWindows`: hold only when the configured refresh lifetime exceeds the access lifetime. The source never checks this, so it is a hypothesis.
