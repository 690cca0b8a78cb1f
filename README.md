# go-gin-sqlc user-account API, modelled in Dafny

This project models the request-handling core of go-gin-sqlc. go-gin-sqlc is a small Go web API built on gin and sqlc that keeps user accounts in MySQL. The model covers:

- login with a bcrypt-checked password and a JWT session token
- the bearer-token middleware that guards routes
- the user create, read, update, delete, list and search endpoints
- the two-step password reset: mail a random token, then exchange it for a new password
- the nullable status column's `Scan`/`Value` encoding
- the reset mail and its SMTP framing
- the request validation tags
- the environment-driven configuration

All modules live in the files directly under this directory:

| file | models |
|---|---|
| `Wrappers.dfy` | `Option`, `Result` |
| `Text.dfy` | the Go standard library behaviour the core relies on: `strings.Split`/`Join`/`Contains`, `strings.ToLower` for the capitals of ASCII, Latin-1, basic Greek and basic Cyrillic, `fmt` `%d`, `strconv.ParseUint`/`ParseInt`/`Atoi` in base 10 on a 64-bit platform, `int32(...)`, `encoding/hex` |
| `Bcrypt.dfy` | bcrypt as an ideal salted one-way function |
| `Models.dfy` | `db/sqlc/models.go`: status constants, `UsersStatus.Scan`, `NullUsersStatus.Scan`/`Value`, the row types |
| `Store.dfy` | the `users` and `password_resets` tables behind `db.Querier`, as maps: `Db` (contents plus the meaning of each query) and `Tables` (the mutable store) |
| `Binding.dfy` | gin/validator `binding:"..."` rules and their error text |
| `Dto.dfy` | `internal/handler/dto/user.go` |
| `Config.dfy` | `internal/config/config.go` |
| `Mail.dfy` | `internal/util/mail.go` |
| `Jwt.dfy` | `internal/util/jwt.go` |
| `Http.dfy` | status codes and JSON bodies |
| `Middleware.dfy` | `internal/middleware/auth.go` |
| `AuthHandler.dfy` | `internal/handler/auth_handler.go` |
| `UserHandler.dfy` | `internal/handler/user_handler.go` |
| `PasswordHandler.dfy` | `internal/handler/password_handler.go` |

**How handlers are modelled.** Each handler that writes to the store has two parts:

- a function of the store's contents, named `...On`, that gives the new contents and the response;
- a method on a handler class that performs the same steps against a `Store.Tables` object, proved equal to that function.

The properties are lemmas about the `...On` functions. Pure handlers (`Login`, `GetUserOn`) and the middleware are functions only.

**Inputs instead of effects.** Everything the source gets from outside the process is an input of the model:

- the current time, in seconds;
- the random token bytes;
- the bcrypt salt;
- the failure of each external step: a database call's error text, a random-source failure, a hashing failure, a signing failure, a LastInsertId failure, a mail failure;
- for the middleware, the decoding of the token text.

**Where the code and the repository's configuration disagree.** `config.Config` (internal/config/config.go:10-13) has no `BaseURL` or `Mail` field. Yet the password handler reads both. The model follows the handler: `PasswordHandler.ResetSettings` carries the base URL and the mail settings.

## Model

| member | source | states |
|---|---|---|
| Text.JoinSplit | internal/middleware/auth.go:23 | joining the pieces of `strings.Split` with the separator gives the header back |
| Text.SplitPiecesHaveNoSeparator | internal/middleware/auth.go:23 | no piece of a split contains the separator |
| Text.SplitAtFirstSeparator | internal/middleware/auth.go:23 | the first separator closes the first piece |
| Text.Split | internal/middleware/auth.go:23 | a split has at least one piece; an empty string gives one empty piece |
| Text.Contains | internal/handler/user_handler.go:236-238 | `strings.Contains`: `sub` occurs in `s` at some position |
| Text.ContainsIffOccurs | internal/handler/user_handler.go:236-238 | `Contains(s, sub)` holds exactly when `sub` occurs at some position of `s` |
| Text.ToLowerIdempotent | internal/handler/user_handler.go:234-238 | lower-casing twice is lower-casing once |
| Text.RunEnd | internal/handler/user_handler.go:87-88 | the end of the run of digits starting at a position: every character before it is a digit, the one at it is not |
| Text.ScanFrom | internal/handler/user_handler.go:87-88 | `strconv.ParseUint`'s digit loop, started after a valid prefix, is a range error when the leading digit run is worth more than 2^64 - 1, else a syntax error when a non-digit follows the run, else the value of all the digits |
| Text.DigitsValuePrefix | internal/handler/user_handler.go:87-88 | a prefix of a digit string is worth at most the whole |
| Text.ParseUint64 | internal/handler/user_handler.go:87-88 | `strconv.ParseUint(u, 10, 64)`: empty text is a syntax error; a leading digit run past 2^64 - 1 is a range error whatever follows; otherwise all-digit text gives its value and anything else is a syntax error |
| Text.ParseInt64 | internal/handler/user_handler.go:113 | the id parses exactly when it is an optionally signed decimal that fits in int64, and the value is that number; a range error exactly when the digits after the sign overflow uint64 before any non-digit or the number does not fit in int64; a syntax error exactly when the text is not a signed decimal and its leading digits do not overflow |
| Text.AtoiValue | internal/handler/user_handler.go:87-88 | the value Atoi returns when its error is ignored: the parsed number, 0 after a syntax error, MinInt64 or MaxInt64 by the sign after a range error, including leading digits that overflow before a non-digit |
| Text.OverflowBeforeSyntax | internal/handler/user_handler.go:87-88 | a sign, more than 2^64 - 1 worth of digits and then anything give a range error, and Atoi gives the bound on the sign's side |
| Text.Int32 | internal/handler/user_handler.go:91-92 | `int32(x)` is the value in the int32 range congruent to x modulo 2^32 |
| Text.Int32OfMaxInt64 | internal/handler/user_handler.go:91-92 | `int32` of the largest int64 is -1 |
| Text.DecimalRoundTrip | internal/util/mail.go:22 | parsing the `%d` text of a number gives the number back |
| Text.HexEncode | internal/handler/password_handler.go:76 | the encoding has two characters per byte |
| Text.HexEncodeIsLowerHex | internal/handler/password_handler.go:76 | every character of the encoding is a lower-case hex digit |
| Text.HexRoundTrip | internal/handler/password_handler.go:76 | decoding the encoding gives the bytes back |
| Bcrypt.HashMatchesItsPassword | internal/handler/auth_handler.go:67 | a hash made from a password accepts that password |
| Bcrypt.HashRejectsOtherPasswords | internal/handler/auth_handler.go:67 | a hash accepts no other password |
| Models.ScanUsersStatus | db/sqlc/models.go:22-32 | a string or byte slice replaces the status with no error; any other value, nil included, leaves it and fails, naming the Go type |
| Models.ScanErrorNamesType | db/sqlc/models.go:28-29 | a refused value's error reads "unsupported scan type for UsersStatus: " followed by its Go type, `<nil>` for nil |
| Models.ScanNullUsersStatus | db/sqlc/models.go:40-47 | nil clears to ("", false) with no error; any other value sets Valid first, so an unsupported type fails with Valid already true |
| Models.Value | db/sqlc/models.go:50-55 | NULL exactly when not Valid, otherwise the status text |
| Models.ScanValueRoundTrip | db/sqlc/models.go:40-55 | scanning a written value back, into a receiver in any state, restores a valid status and gives ("", false) for a NULL one |
| Models.NullUsersStatusCell.ScanStatus | db/sqlc/models.go:22-32 | the in-place scan leaves the field and error as `ScanUsersStatus` gives them |
| Models.NullUsersStatusCell.Scan | db/sqlc/models.go:40-47 | the in-place scan leaves the receiver and error as `ScanNullUsersStatus` gives them |
| Store.FindEmailFinds | internal/handler/auth_handler.go:56 | the email lookup returns a user under an id in the range that holds that email, and returns none exactly when no such user exists |
| Store.GetUserByEmailIsExact | internal/handler/auth_handler.go:56 | in a valid store, GetUserByEmail finds a row exactly when the email is in use, and that row is the stored user |
| Store.Tables.GetUserByEmail | internal/handler/password_handler.go:59 | scanning ids in order answers as the query's meaning `Db.GetUserByEmail` |
| Store.WritesKeepValid | db/sqlc/models.go:57-74 | every write of the store keeps rows under their own ids and tokens, ids below the counter and emails unique |
| Store.Tables.CreateUser | internal/handler/user_handler.go:56-62 | the insert changes the tables exactly as `Db.CreateUser`, and keeps the store valid |
| Store.Tables.UpdateUser | internal/handler/user_handler.go:178 | the update changes the tables exactly as `Db.UpdateUser`, and keeps the store valid |
| Store.Tables.UpdateUserPassword | internal/handler/password_handler.go:131-134 | the password update changes the tables exactly as `Db.UpdateUserPassword`, and keeps the store valid |
| Store.Tables.DeleteUser | internal/handler/user_handler.go:202 | the delete changes the tables exactly as `Db.DeleteUser`, and keeps the store valid |
| Store.Tables.CreatePasswordReset | internal/handler/password_handler.go:80-84 | the insert changes the tables exactly as `Db.CreatePasswordReset`, and keeps the store valid |
| Store.Tables.DeletePasswordReset | internal/handler/password_handler.go:141 | the delete changes the tables exactly as `Db.DeletePasswordReset`, and keeps the store valid |
| Binding.FirstBroken | internal/handler/dto/user.go:6-19 | no rule is broken exactly when the value keeps them all; a reported rule is the first broken one of the tag: it is broken and every rule before it holds |
| Binding.FieldCheck | internal/handler/dto/user.go:6-19 | a field reports no error exactly when it is empty under omitempty or keeps all its rules; an error is named `Struct.Field` and `Field` and carries the tag of the first rule broken |
| Binding.Validate | internal/handler/dto/user.go:6-19 | no errors exactly when every field is fine; at most one error per field; the errors are exactly the failing fields' errors |
| Binding.ValidateConcat | internal/handler/dto/user.go:6-19 | the errors of a field list are those of its first part followed by those of the rest, so they come in field order |
| Binding.ValidateOne | internal/handler/dto/user.go:6-19 | a single field gives no error when fine and its own error otherwise |
| Binding.IsEmail | internal/handler/auth_handler.go:25 | the `email` rule: one '@', a non-empty local part, a host of two or more non-empty dot-separated labels, no white space |
| Dto.ValidateCreateUser | internal/handler/dto/user.go:6-11 | a create body binds exactly when the email is present and well formed, the password has at least 8 characters and both names are present |
| Dto.ValidateUpdateUser | internal/handler/dto/user.go:14-19 | an update body binds exactly when a given email is well formed and a given status is active, inactive or suspended |
| Config.GetEnv | internal/config/config.go:37-42 | `os.LookupEnv` with a fallback: a set variable's value, else the default (see the two lemmas below) |
| Config.New | internal/config/config.go:21-34 | the six settings, each read from its own variable with its own default (see `NewDefaults` and `NewFieldsAreIndependent`) |
| Config.GetEnvPrefersSetValue | internal/config/config.go:37-40 | a set variable's value is returned, even when it is empty |
| Config.GetEnvFallsBack | internal/config/config.go:41 | an unset variable gives the default |
| Config.NewDefaults | internal/config/config.go:21-34 | an empty environment gives localhost, 3306, user, password, go_gin_db and server port 8080 |
| Config.NewFieldsAreIndependent | internal/config/config.go:23-32 | each setting depends only on its own variable |
| Mail.GeneratePasswordResetEmail | internal/util/mail.go:35-43 | the body is the fixed prefix, the URL verbatim, then the fixed suffix |
| Mail.ResetEmailRoundTrip | internal/util/mail.go:35-43 | the URL can be read back from the body |
| Mail.ServerAddress | internal/util/mail.go:22 | the address is the host, a colon, and text that parses back to the port |
| Mail.SendMailCall | internal/util/mail.go:20-32 | one recipient, `to`; the envelope sender is `From`; the PLAIN auth uses the configured username, password and host |
| Mail.MessageRoundTrip | internal/util/mail.go:24-29 | a message whose From, To and Subject hold no CR reads back as exactly the four headers, in order, and the body |
| Jwt.GenerateToken | internal/util/jwt.go:23-34 | claims carry the user id, IssuedAt now and ExpiresAt now + 24h; the method is HS256 |
| Jwt.CheckTimes | internal/util/jwt.go:37-50 | the time claims pass exactly when an expiry, if any, is later than now and a not-before, if any, is not later; the error is "expired" exactly when the expiry has passed |
| Jwt.ValidateToken | internal/util/jwt.go:37-54 | claims come back exactly when the token decoded, its method is HMAC, its signature is the MAC under the key, and it is unexpired and not before nbf; they are the token's own claims |
| Jwt.GeneratedTokenValidates | internal/util/jwt_test.go:10-53 | a fresh token validates to the same user id, for every id, until it expires |
| Jwt.GeneratedTokenExpiresLater | internal/util/jwt_test.go:52 | a fresh token's expiry is after the moment it was issued |
| Jwt.GeneratedTokenExpires | internal/util/jwt.go:12 | from issue + 24h on, the token is refused as expired |
| Jwt.NonHmacRefused | internal/util/jwt.go:38-41 | a non-HMAC method is refused whatever the token carries |
| Jwt.TamperedClaimsRefused | internal/util/jwt.go:45-47 | a token whose claims changed after signing is refused for its signature |
| Jwt.OtherKeyRefused | internal/util/jwt.go:42-47 | a token signed under another key is refused for its signature |
| Middleware.BearerToken | internal/middleware/auth.go:23-24 | the token of a header split on spaces into exactly "Bearer" and one more piece (see the two lemmas below) |
| Middleware.BearerTokenShape | internal/middleware/auth.go:23-24 | the header yields a token exactly when it is "Bearer " followed by a token without spaces |
| Middleware.BearerTokenPrefix | internal/middleware/auth.go:23-24 | a header that yields a token starts with "Bearer " and continues without spaces |
| Middleware.AuthRequired | internal/middleware/auth.go:13-42 | every abort is a 401 with an error body; continuing adds "userID" and keeps every other context value |
| Middleware.MissingHeaderRefused | internal/middleware/auth.go:15-20 | an empty header gives 401 "認証ヘッダーがありません" and aborts |
| Middleware.BadSchemeRefused | internal/middleware/auth.go:23-28 | a non-empty header not of the form "Bearer <token without spaces>" gives 401 "無効な認証形式です" whatever the token function says |
| Middleware.BearerHeaderJudgedByToken | internal/middleware/auth.go:31-40 | a well-formed header aborts with "無効なトークンです" when its token does not validate, and otherwise continues with userID set to the claims' user id |
| Middleware.IssuedTokenAdmitted | internal/middleware/auth_test.go:25-32 | a token this server issued, presented before expiry, lets its user through |
| AuthHandler.ValidateLogin | internal/handler/auth_handler.go:24-27 | a login body binds exactly when the email is present and well formed and the password is present |
| AuthHandler.Decide | internal/handler/auth_handler.go:55-88 | 200 exactly when the user was found, the password matches and signing worked, and then the body is the user's token and profile; 401 exactly for an unknown email or wrong password, always with the one shared message; otherwise 500 |
| AuthHandler.Login | internal/handler/auth_handler.go:48-53 | a body that does not bind gives 400 with the validator's text, and only then |
| AuthHandler.BadRequestIgnoresStore | internal/handler/auth_handler.go:49-53 | a body that does not bind is answered the same whatever the store holds and whatever the store or signer would do |
| AuthHandler.InvalidEmailMessage | internal/handler/auth_handler_test.go:114-123 | a non-empty address without '@' and a password are refused with 400 and exactly "Key: 'LoginRequest.Email' Error:Field validation for 'Email' failed on the 'email' tag", whatever the store holds |
| AuthHandler.MissingPasswordMessage | internal/handler/auth_handler_test.go:124-132 | a well-formed address with no password is refused with 400 and exactly "Key: 'LoginRequest.Password' Error:Field validation for 'Password' failed on the 'required' tag" |
| AuthHandler.UnknownEmailRefused | internal/handler/auth_handler.go:57-60 | an email that nobody holds gives 401 with the shared message |
| AuthHandler.WrongPasswordRefused | internal/handler/auth_handler.go:67-69 | a wrong password for a known email gives the same 401 and message |
| AuthHandler.RightPasswordAdmitted | internal/handler/auth_handler.go:73-88 | the right password gives 200 with a token for that user's id and its id, email and names, and the token validates to that id |
| AuthHandler.LookupFailureIsServerError | internal/handler/auth_handler.go:61-63 | a failed lookup gives 500 with the error text, not 401 |
| AuthHandler.StatusIgnored | internal/handler/auth_handler.go:48-89 | changing the user's status changes nothing in the answer |
| UserHandler.ToUserResponse | internal/handler/user_handler.go:257-266 | the public projection of a row: id, email, names, status text and timestamps, without the hash (see `ResponseOmitsPasswordHash`) |
| UserHandler.ResponseOmitsPasswordHash | internal/handler/user_handler.go:257-266 | the response projection does not depend on the password hash |
| UserHandler.BuildUsersResponse | internal/handler/user_handler.go:99-106 | one response per row, slot i being row i's projection, and Total the number of rows |
| UserHandler.Matching | internal/handler/user_handler.go:235-241 | the rows the search keeps, in order (see `MatchingConcat` and `MatchingMembers`) |
| UserHandler.MatchingConcat | internal/handler/user_handler.go:235-241 | the search filter keeps the original order: filtering a concatenation is concatenating the filtered parts |
| UserHandler.MatchingMembers | internal/handler/user_handler.go:235-241 | a row is kept exactly when it is one of the rows and its lower-cased email, first or last name contains the lower-cased query |
| UserHandler.MatchingEmptyQuery | internal/handler/user_handler.go:231-232 | the filter with an empty query keeps every row |
| UserHandler.FilterUsers | internal/handler/user_handler.go:231-242 | the loop's result is the filter's for a non-empty query and the rows themselves for an empty one |
| UserHandler.CreateUserOn | internal/handler/user_handler.go:41-83 | the answer is 201, 400 or 500, and 400 exactly when the body does not bind; the reset records stay, at most the next id is added, and in a valid store every existing row stays as it was |
| UserHandler.GetUserOn | internal/handler/user_handler.go:112-130 | 200 with the row's projection exactly when the id parses and the row exists; 400 exactly for an id that does not parse; 404 "ユーザーが見つかりません" exactly for a missing row |
| UserHandler.ListUsersOn | internal/handler/user_handler.go:86-109 | the answer is 200 or 500; a 200 carries a list whose Total is its length |
| UserHandler.SearchUsersOn | internal/handler/user_handler.go:216-254 | the answer is 200 or 500, 200 exactly when the list would be; a 200 carries a list whose Total is its length |
| UserHandler.DefaultListWindow | internal/handler/user_handler.go:87-93 | without limit and offset parameters the query asks for LIMIT 10 OFFSET 0 |
| UserHandler.OverflowingParameter | internal/handler/user_handler.go:87-92 | a parameter whose leading digits pass 2^64 - 1 is read by Atoi as MaxInt64 and cut by `int32(...)` to -1 |
| UserHandler.OverflowingWindowFails | internal/handler/user_handler.go:87-96 | a limit or offset whose leading digits pass 2^64 - 1, whatever follows, is sent as -1 (MaxInt64 cut to int32), so listing and searching answer 500 |
| UserHandler.ListedRows | internal/handler/user_handler.go:90-108 | the list answers 200 exactly when the query worked, with every row's projection and their count, and 500 with the error text otherwise |
| UserHandler.SearchWithoutQueryIsList | internal/handler/user_handler.go:231-232 | a search without `q` answers exactly as the list does |
| UserHandler.SearchFindsMatches | internal/handler/user_handler.go:232-251 | the answer is the projection of exactly the page's matching rows, in page order, and Total counts them; a row is kept exactly when it is on the page and matches, and then its projection is in the answer |
| UserHandler.UpdateUserOn | internal/handler/user_handler.go:133-192 | the answer is 200, 400, 404 or 500; no row is added or removed and no row but the addressed one changes; a 400 or 404 changes nothing |
| UserHandler.DeleteUserOn | internal/handler/user_handler.go:195-213 | the answer is 200, 400 or 500; 200 exactly when the id parses and the call works, and then only that row is gone; otherwise nothing changes |
| UserHandler.MergedParams | internal/handler/user_handler.go:158-175 | the UPDATE parameters built from the body and the current row (see `MergeKeepsOrReplaces`) |
| UserHandler.MergeKeepsOrReplaces | internal/handler/user_handler.go:158-175 | a non-empty email or name replaces the current one, an empty one keeps it; the status is NULL exactly when omitted |
| UserHandler.CreatedUserIsStored | internal/handler/user_handler.go:49-82 | a 201 adds exactly one row, under the next id, holding the password's hash, which accepts the password, and status active; the answer is that row |
| UserHandler.CreateFailureChangesNothing | internal/handler/user_handler.go:43-66 | a refused body, a hashing failure or a failed insert leaves the store unchanged and gives 400 or 500 |
| UserHandler.UpdateRefusalChangesNothing | internal/handler/user_handler.go:134-155 | a bad id (400 "無効なユーザーID"), a refused body or a missing row (404) leaves the store unchanged |
| UserHandler.UpdatedUserIsStored | internal/handler/user_handler.go:157-191 | a 200 rewrites only that row, with the merged fields and the same hash, and answers with it |
| UserHandler.DeletedUserIsGone | internal/handler/user_handler.go:195-213 | after a successful delete the row is gone and reading it answers 404 |
| UserHandler.UserHandler.CreateUser | internal/handler/user_handler.go:41-83 | the method's new store and answer are those of `CreateUserOn` |
| UserHandler.UserHandler.ListUsers | internal/handler/user_handler.go:86-109 | the method's answer is `ListUsersOn`'s |
| UserHandler.UserHandler.UpdateUser | internal/handler/user_handler.go:133-192 | the method, which reassigns the parameters in place, gives `UpdateUserOn`'s new store and answer |
| UserHandler.UserHandler.DeleteUser | internal/handler/user_handler.go:195-213 | the method gives `DeleteUserOn`'s new store and answer |
| UserHandler.UserHandler.SearchUsers | internal/handler/user_handler.go:216-254 | the method's answer is `SearchUsersOn`'s |
| PasswordHandler.ValidateResetRequest | internal/handler/password_handler.go:32-34 | a reset request binds exactly when the email is present and well formed |
| PasswordHandler.ValidateReset | internal/handler/password_handler.go:36-39 | a reset binds exactly when the token is present and the password has at least 8 characters |
| PasswordHandler.RequestPasswordResetOn | internal/handler/password_handler.go:51-102 | the answer is 200, 400 or 500, and 400 exactly when the body does not bind; the users stay, the existing records stay, at most the new token's record is added, and a mail is handed over only after that record was added |
| PasswordHandler.ResetPasswordOn | internal/handler/password_handler.go:105-148 | the answer is 200, 400 or 500; no user row is added or removed; the only record that can go is the presented token's; a 400 changes nothing; a 200 means the token was recorded and is now gone |
| PasswordHandler.InvalidEmailMessage | internal/handler/password_handler_test.go:84-92 | a non-empty address without '@' is refused with 400 and exactly "Key: 'RequestPasswordResetRequest.Email' Error:Field validation for 'Email' failed on the 'email' tag", and nothing is stored or mailed |
| PasswordHandler.UnknownEmailLooksSent | internal/handler/password_handler.go:59-65 | an unknown email gets 200 "パスワードリセットメールを送信しました", the success message, and nothing is stored or mailed |
| PasswordHandler.KnownEmailRecordsToken | internal/handler/password_handler.go:70-88 | for a known user one record is added: the user's id, the hex of the 32 random bytes (64 lower-case hex digits that decode back to them), and expiry now + 24h; the other records and the users are untouched |
| PasswordHandler.KnownEmailMailsLink | internal/handler/password_handler.go:90-101 | for a known user the mail of the reset link is handed to the mailer for the user's address; a mail failure gives 500 "メールの送信に失敗しました" and the record stays, success gives 200 |
| PasswordHandler.ResetMailCarriesLink | internal/handler/password_handler.go:91-95 | the reset mail goes to that address alone, from the configured sender, and its body carries exactly base URL + "/reset-password?token=" + token |
| PasswordHandler.BadResetRequestTouchesNothing | internal/handler/password_handler.go:52-56 | a request body that does not bind reaches neither the store nor the mailer |
| PasswordHandler.UnknownTokenRefused | internal/handler/password_handler.go:113-118 | an unknown token gives 400 "無効なトークンです" and changes nothing |
| PasswordHandler.ShortPasswordRefused | internal/handler/password_handler.go:36-39 | a new password under 8 characters gives 400 before the store is read |
| PasswordHandler.ShortPasswordMessage | internal/handler/password_handler_test.go:204-213 | a token and a password of one to seven characters are refused with 400 and exactly "Key: 'ResetPasswordRequest.Password' Error:Field validation for 'Password' failed on the 'min' tag", and nothing changes |
| PasswordHandler.FailedUpdateKeepsToken | internal/handler/password_handler.go:131-138 | when the password update fails the token is not deleted |
| PasswordHandler.ResetReplacesHash | internal/handler/password_handler.go:124-147 | success replaces only the token's user's hash, with the hash of the new password, and deletes the token |
| PasswordHandler.TokenIsSingleUse | internal/handler/password_handler.go:113-147 | reusing a token after a successful reset gives 400 "無効なトークンです" |
| PasswordHandler.LoginAfterReset | internal/handler/password_handler.go:124-147 | after a reset, login for that account succeeds with exactly the new password |
| PasswordHandler.PasswordHandler.RequestPasswordReset | internal/handler/password_handler.go:51-102 | the method gives `RequestPasswordResetOn`'s new store and answer, and appends the mail it hands over, if any, to the outbox |
| PasswordHandler.PasswordHandler.ResetPassword | internal/handler/password_handler.go:105-148 | the method gives `ResetPasswordOn`'s new store and answer |

## Left out

- HTTP routing (`RegisterRoutes`), JSON decoding and encoding, and gin's context plumbing are framework I/O. Each handler takes the decoded body and its parameters. It answers with a status and a body (`Http.Response`). A body that is not JSON at all is not modelled.
- Time is a whole number of seconds, not `time.Time`. `GenerateToken` reads the clock twice; the model uses one `now` for both.
- JWT encoding, HMAC and segment parsing are not part of this model. A token is (method, claims, signature), and a signature is good when it is the ideal MAC of its method and claims under the key. Decoding the header's text is the middleware's `parse` input, so a malformed text is whatever `parse` maps to `Malformed`.
- Jwt.ValidateToken: the library's leeway options, `aud`/`iss` checks and required-claim options are not modelled. None of them is configured in the source.
- bcrypt is an ideal one-way function of the password and a salt that is an input. Its cost factor, the 72-byte password limit and the hash text are not part of this model. A hashing failure is an input.
- `crypto/rand` is an input of 32 bytes plus a failure flag.
- The SQL text behind `db.Querier` is not part of this model. `Store` assumes the following:
  - ids come from a counter;
  - emails and reset tokens are unique keys, and a duplicate fails with a duplicate-entry error;
  - the list is ordered by id with LIMIT/OFFSET, and a negative limit or offset is a database error;
  - an UPDATE sets `updated_at` to now;
  - `GetPasswordResetByToken` does not filter on `expires_at`;
  - deleting a user keeps that user's password reset records (no foreign key, no ON DELETE CASCADE), and `Store.Db.Valid` does not tie a record's user id to an existing row; so a reset with such a token answers 200 and updates no row, where a cascading schema would answer 400 "無効なトークンです" and a restricting one would fail the delete with 500;
  - an UPDATE of a missing id succeeds and changes nothing (`Store.Db.UpdateUser`, `Store.Db.UpdateUserPassword`);
  - email lookup and the uniqueness of emails compare texts exactly, case included (`Store.FindEmail`, `Store.EmailInUse`), whereas a database whose collation ignores case would treat two emails differing only in case as the same;
  - any call may fail with an error text that is an input.
- The handler never compares `ExpiresAt` itself. Because of the `GetPasswordResetByToken` assumption above, no expiry enforcement is claimed.
- The not-found branch of `DeleteUser` (internal/handler/user_handler.go:204-206) is left out. An Exec-style delete reports no `sql.ErrNoRows`, so the model's delete answers 200 or 500 only.
- The check-update-delete sequence of `ResetPassword` is three separate calls. Concurrency between them is not modelled.
- Text.ToLower: lowers only the capitals of ASCII, Latin-1, basic Greek (U+0391-U+03A9) and basic Cyrillic (U+0400-U+042F); Go's `strings.ToLower` follows the whole Unicode case table, so letters of other scripts and special cases are left unlowered in the model. Models.BytesText likewise reads each byte as one character (Latin-1) instead of decoding UTF-8, so it is exact only for ASCII text.
- Binding.IsEmail approximates the validator's e-mail regular expression. It needs one '@', a non-empty local part, a host of at least two non-empty dot-separated labels, and no white space.
- Binding: only the first broken rule of each field is reported, as the validator does. Struct-level and nested validation do not occur in the core.
- `util.Mailer` and `NewSMTPMailer` are not part of this model. The handler's mailer is assumed to pass its arguments to `SendMail` with the configured mail settings. The model records that call and takes its failure as an input. `smtp.SendMail`, `smtp.PlainAuth` and the replaceable `SendMail` variable are network I/O.
- `config.Config` has no BaseURL or Mail field. `PasswordHandler.ResetSettings` stands in for the two settings the password handler reads.
- Wiring (`cmd/api/main.go`), connection setup (`internal/infrastructure/database`) and request logging (`internal/middleware/logger.go`) are outside the core.
- The `*strconv.NumError` value itself (its `Func`, `Num` and message) is not modelled: the handlers only test whether there was an error, and `Text.NumError` keeps just its kind, syntax or range.
- Integers are unbounded. `int32` conversion of limit and offset is modelled explicitly (`Text.Int32`), and ids are parsed within int64. Counters and timestamps are not bounded.
- Config.New and Config.GetEnv: their lemmas (set value wins even when empty, unset gives the default, defaults of `New`, each setting depends only on its own variable) hold by unfolding the definitions.
- Jwt.ValidateToken: which error the library reports for a malformed text depends on `parse`. So the test expectation for "invalid.token.string" (a signature error rather than a decoding error) is not reproduced.
