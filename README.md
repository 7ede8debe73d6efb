# Greenlight core, modelled in Dafny

Greenlight is a JSON API for a movie catalogue, written in Go. This project
models its core and proves properties of the model:

- the validation accumulator (`Validator`: field → first error message) and
  the domain validators for filters, movies, users and tokens;
- the e-mail pattern of the WHATWG HTML Living Standard ("valid e-mail
  address", section 4.10.5.1.5) as predicates over the address's parts;
- the `Runtime` JSON codec (`"<n> mins"`), with a round-trip proof;
- the in-memory meaning of the movie store's `Get`, `Update` (optimistic
  locking on `version`) and `Delete`;
- tokens: scopes, the making of a plaintext from 16 random bytes in base 32
  (RFC 4648, section 6, no padding) with a decoder proving the encoding
  lossless, and the plaintext validation every generated token passes;
- permissions (`Include`) and the request helpers (`readIDParam`,
  `readString`, `readCSV`, `readInt`);
- the middleware: the rate limiter's client table and idle sweep, the
  `authenticate` bearer-header resolver, and the `requireAuthenticatedUser`
  / `requireActivatedUser` / `requirePermission` gates;
- the route table and middleware chain of `routes()`;
- the `createAuthenticationTokenHandler` decision chain.

Go strings are byte strings; the model writes them as `string`, one
character per byte, so `len` is `|s|`. Go's `int32`/`int64` are the subset
types `Decimal.Int32`/`Decimal.Int64`. Calls into the database, bcrypt,
SHA-256, `crypto/rand`, the clock and `golang.org/x/time/rate` become
parameters of the operations that make them: a lookup function, a
comparison outcome, a byte string, a `now` reading, an `allow` decision.

Files: `wrappers.dfy` (Option, Result), `text.dfy` (`strings.Split`/`Join`),
`decimal.dfy` (`strconv.ParseInt`/`FormatInt`), `validator.dfy`,
`runtime.dfy`, `filters.dfy`, `movies.dfy`, `users.dfy`, `base32.dfy`,
`tokens.dfy`, `permissions.dfy`, `helpers.dfy`, `middleware.dfy`,
`routes.dfy`, `tokenhandler.dfy`.

## Model

| member | source | states |
|---|---|---|
| Text.Split | internal/data/runtime.go:48 | `strings.Split` on one separator: count of separators plus one pieces, none containing the separator |
| Text.JoinSplit | cmd/api/helpers.go:166 | joining the pieces of a split with the separator restores the input |
| Text.SplitJoin | cmd/api/helpers.go:166 | splitting the join of separator-free pieces gives the pieces back |
| Text.SplitNoSeparator | cmd/api/middleware.go:116 | a string without the separator splits into itself alone |
| Text.SplitTwo | cmd/api/middleware.go:116-117 | `a`, separator, `b` (both separator-free) splits into exactly `[a, b]` |
| Text.SplitPrefix | internal/data/runtime.go:48 | a separator-free prefix is glued to the first piece of the rest |
| Decimal.ParseInt | internal/data/runtime.go:56 | `strconv.ParseInt(s, 10, bitSize)`: accepts exactly the text of an optional sign and one or more digits whose value fits the width; a result fits the width |
| Decimal.FormatInt | internal/data/runtime.go:23 | `%d`: a leading `-` exactly for negative numbers, digits after it |
| Decimal.DigitsOfFormat | internal/data/runtime.go:23 | the digits written for `n` read back as `n` |
| Decimal.ParseFormat | internal/data/runtime.go:56 | round trip: parsing the formatted number gives it back for every value of the width |
| Decimal.DigitsLeadingZero | internal/data/runtime.go:56 | a leading zero digit does not change a digit string's value |
| Decimal.ParsePlusSign | internal/data/runtime.go:56 | a `+` before the digits parses as the digits alone |
| Decimal.ParseLeadingZero | internal/data/runtime.go:56 | a leading zero, after a `-` or without a sign, changes nothing |
| Decimal.ParseNegativeZero | internal/data/runtime.go:56 | `-0` parses as zero |
| Decimal.FormatDigits | internal/data/runtime.go:23 | a digit string without leading zeros is what formatting its value writes |
| Decimal.FormatParse | internal/data/runtime.go:56 | a parsed numeral written without `+`, leading zeros or `-0` is given back by formatting its value |
| Validator.Added | internal/validator/validator.go:28-32 | adding keeps every existing message and sets the message only for a new key |
| Validator.Checked | internal/validator/validator.go:35-39 | a passing check changes nothing; a failing one guarantees the key is present, keeps earlier messages and sets it only if new |
| Validator.Validator.New | internal/validator/validator.go:18-20 | a new validator has no errors |
| Validator.Validator.Valid | internal/validator/validator.go:23-25 | valid exactly when no error is recorded |
| Validator.Validator.AddError | internal/validator/validator.go:28-32 | the errors become `Added(old errors, key, message)` |
| Validator.Validator.Check | internal/validator/validator.go:35-39 | the errors become `Checked(old errors, ok, key, message)` |
| Validator.Entry | internal/validator/validator.go:28-32 | the one-field error map of a field's first failure: present exactly when there is a failure |
| Validator.FirstFailure | internal/validator/validator.go:28-32 | an earlier failure is kept; otherwise a failure appears exactly when the check fails |
| Validator.CheckedEntry | internal/validator/validator.go:35-39 | a further check on a field only ever adds that field's first failure |
| Validator.PermittedValue | internal/validator/validator.go:42-44 | true exactly when the value occurs in the permitted list |
| Validator.Elements | internal/validator/validator.go:53-57 | the set filled by the loop holds exactly the list's values |
| Validator.ElementsCardinality | internal/validator/validator.go:59 | the set is never larger than the list, and is as large exactly when no value repeats |
| Validator.Unique | internal/validator/validator.go:52-60 | the set-filling loop returns true exactly when the values have no duplicates |
| Validator.EmailCompose | internal/validator/validator.go:10 | a local part, `@` and one or more dot-joined valid labels match the pattern |
| Validator.EmailDecompose | internal/validator/validator.go:10 | every matching address is a local part, `@` and dot-joined valid labels |
| Validator.LocalPartHasNoAt | internal/validator/validator.go:10 | the local-part character class excludes `@` |
| Validator.LabelHasNoSeparator | internal/validator/validator.go:10 | labels contain neither `.` nor `@` |
| Validator.NotInJoin | internal/validator/validator.go:10 | joining pieces free of a character with another separator adds no such character |
| Validator.RejectsNoAt | internal/data/mocks/users.go:31 | the invalid-user address `j.chan` does not match |
| Validator.AcceptsFixture | internal/data/mocks/users.go:22 | the active-user address `a.wong@mail.com` matches |
| Runtime.Quote | internal/data/runtime.go:27 | `strconv.Quote` wraps a plain string in one pair of double quotes |
| Runtime.Unquote | internal/data/runtime.go:42-45 | succeeds exactly on text wrapped in double quotes and inverts `Quote` |
| Runtime.MarshalJSON | internal/data/runtime.go:21-31 | never fails, and the unquoted output is the number, one space and `mins` |
| Runtime.UnmarshalJSON | internal/data/runtime.go:38-66 | any error leaves the receiver unchanged |
| Runtime.RoundTrip | internal/data/runtime.go:21-66 | unmarshalling the marshalled text restores every int32 runtime, negatives included, with no error |
| Runtime.SuccessShape | internal/data/runtime.go:48-63 | a successful unmarshal read a quoted in-range numeral, exactly one space and `mins`, and stored the numeral's value |
| Runtime.RejectsUnquoted | internal/data/runtime.go:42-45 | input not wrapped in double quotes is `ErrInvalidRuntimeFormat`, receiver kept |
| Runtime.RejectsMissingSpace | internal/data/runtime.go:51-53 | a numeral and unit with no space between are rejected |
| Runtime.RejectsDoubleSpace | internal/data/runtime.go:51-53 | two spaces make three parts and are rejected |
| Runtime.RejectsOtherUnit | internal/data/runtime.go:51-53 | a unit other than `mins` is rejected |
| Runtime.RejectsBadNumeral | internal/data/runtime.go:56-59 | a numeral that is not decimal or overflows int32 is rejected |
| Runtime.FixtureRuntime | internal/data/mocks/movies.go:16 | the fixture runtime 228 is sent as `"228 mins"` |
| Filters.PageError | internal/data/filters.go:15-16 | no page error exactly when 1 ≤ page ≤ 10 000 000 |
| Filters.PageSizeError | internal/data/filters.go:17-18 | no page-size error exactly when 1 ≤ page size ≤ 100 |
| Filters.SortError | internal/data/filters.go:19 | no sort error exactly when the key is in the safe list |
| Filters.FiltersErrors | internal/data/filters.go:14-20 | errors only under `page`, `page_size`, `sort` |
| Filters.ValidateFilters | internal/data/filters.go:14-20 | the five checks add exactly each field's first failure to the validator, existing messages kept |
| Filters.FiltersValid | internal/data/filters.go:14-20 | no error exactly when page, page size and sort key are all acceptable |
| Filters.FiltersTable | internal/data/filters_test.go:47-52 | each row of the table test yields exactly the expected message under the expected field |
| Movies.GenreList | internal/data/movies.go:21 | a nil genre slice reads as empty |
| Movies.TitleError | internal/data/movies.go:228-229 | no title error exactly when the title is non-empty and at most 500 bytes |
| Movies.YearError | internal/data/movies.go:232-234 | no year error exactly when 1888 ≤ year ≤ the current year |
| Movies.RuntimeError | internal/data/movies.go:237-238 | no runtime error exactly when the runtime is positive |
| Movies.GenresError | internal/data/movies.go:241-244 | no genres error exactly when the slice is non-nil, has 1 to 5 entries, and no duplicates |
| Movies.MovieErrors | internal/data/movies.go:226-245 | errors only under title, year, runtime, genres |
| Movies.TitleChecks | internal/data/movies.go:228-229 | the two title checks add the title's first failure |
| Movies.YearChecks | internal/data/movies.go:232-234 | the three year checks add the year's first failure |
| Movies.RuntimeChecks | internal/data/movies.go:237-238 | the two runtime checks add the runtime's first failure |
| Movies.GenresChecks | internal/data/movies.go:241-244 | the four genre checks add the genres' first failure |
| Movies.MovieEntries | internal/data/movies.go:226-245 | the four fields' entries added in order make up the movie's errors |
| Movies.ValidateMovie | internal/data/movies.go:226-245 | the validator gains exactly the movie's errors, existing messages kept |
| Movies.MovieValid | internal/data/movies.go:226-245 | no error exactly when every field is acceptable |
| Movies.YearZeroIsMissing | internal/data/movies.go:232 | a zero year is reported as missing, not as too early |
| Movies.GenresReported | internal/data/movies.go:241-244 | nil, empty, overlong or repetitive genres are reported |
| Movies.MovieFixtures | internal/data/mocks/movies.go:11-29 | the valid fixture passes; the untitled one fails on its title alone |
| Movies.MovieRecord.constructor | internal/data/movies.go:15-23 | the record holds the given movie |
| Movies.MovieStore.constructor | internal/data/movies.go:35-37 | an empty table satisfies the store invariant |
| Movies.MovieStore.Get | internal/data/movies.go:59-99 | an id below 1 is not found without looking; otherwise found exactly when stored, returning that record |
| Movies.MovieStore.Update | internal/data/movies.go:154-187 | succeeds exactly when the stored version equals the sent one: then fields replaced, version incremented in the table and in the caller's record; otherwise `ErrEditConflict` and nothing changes |
| Movies.MovieStore.Delete | internal/data/movies.go:190-223 | an id below 1 or absent is `ErrRecordNotFound` with nothing changed; otherwise exactly that record is removed |
| Movies.UpdateTwice | internal/data/movies.go:154-159 | two edits sent with the same version: the first wins, the second conflicts |
| Users.Deref | internal/data/users.go:19 | a reference to a stored user reads as that user |
| Users.AnonymousIsIdentity | internal/data/users.go:19-40 | the anonymous user is not activated, and a zero user has its fields yet is not anonymous |
| Users.SetAsWritten | internal/data/users.go:165-175 | as written: never reports an error, and on a bcrypt failure leaves the password as it was |
| Users.SetAsWrittenHidesFailure | internal/data/users.go:165-175 | as written, a failed hash reports success yet leaves no hash |
| Users.Set | internal/data/users.go:163-175 | corrected: success exactly when bcrypt hashed, storing plaintext and hash; a failure is returned and nothing changes |
| Users.SetReadiesValidation | internal/data/users.go:224-226 | after a successful corrected `Set`, `ValidateUser`'s hash requirement holds |
| Users.Matches | internal/data/users.go:180-191 | true exactly on a match, false exactly on a mismatch, an error exactly on any other bcrypt error |
| Users.EmailError | internal/data/users.go:195-198 | empty address is "must be provided"; no error exactly when the pattern matches |
| Users.EmailErrors | internal/data/users.go:195-198 | errors only under `email` |
| Users.EmailRejected | internal/data/users.go:197 | a non-empty address is reported exactly when it does not match, with "must be a valid email address" |
| Users.EmailChecks | internal/data/users.go:196-197 | the two checks add the address's first failure |
| Users.ValidateEmail | internal/data/users.go:195-198 | the validator gains exactly the address's errors |
| Users.PasswordError | internal/data/users.go:202-206 | empty is "must be provided"; no error exactly when 8 ≤ length ≤ 72 bytes |
| Users.PasswordErrors | internal/data/users.go:202-206 | errors only under `password` |
| Users.PasswordChecks | internal/data/users.go:203-205 | the three checks add the password's first failure |
| Users.ValidatePasswordPlaintext | internal/data/users.go:202-206 | the validator gains exactly the password's errors |
| Users.NameError | internal/data/users.go:210-211 | no name error exactly when non-empty and at most 500 bytes |
| Users.PlaintextErrors | internal/data/users.go:218-220 | the password is checked only when a plaintext is present |
| Users.UserErrors | internal/data/users.go:209-227 | errors only under name, email, password; a password error needs a plaintext |
| Users.NameChecks | internal/data/users.go:210-211 | the two name checks add the name's first failure |
| Users.ValidateUser | internal/data/users.go:209-227 | with a hash present, the validator gains exactly the user's errors |
| Users.UserValid | internal/data/users.go:209-227 | no error exactly when name, address and (if present) password plaintext are acceptable |
| Users.InvalidUserFixture | cmd/api/users_test.go:32 | the invalid-user fixture fails on its e-mail alone |
| Base32.Symbol | internal/data/tokens.go:54 | every 5-bit value maps to a symbol of table 3 of RFC 4648, section 6 (`A`–`Z`, `2`–`7`) |
| Base32.SymbolValue | internal/data/tokens.go:54 | decoding one character: defined exactly on `A`–`Z` and `2`–`7`, a value below 32 whose symbol is the character |
| Base32.SymbolOfValue | internal/data/tokens.go:54 | every 5-bit value's symbol decodes to that value |
| Base32.BitsValue | internal/data/tokens.go:54 | the value of `n` bits is below 2^n |
| Base32.ValueOfNatBits | internal/data/tokens.go:54 | writing a number in `w` bits and reading it back gives the number |
| Base32.NatBitsOfValue | internal/data/tokens.go:54 | reading bits as a number and writing it back gives the bits |
| Base32.Bits | internal/data/tokens.go:54 | the bit stream of `k` bytes has `8k` bits |
| Base32.BytesOf | internal/data/tokens.go:54 | `k` bytes from the first `8k` bits |
| Base32.BytesOfBits | internal/data/tokens.go:54 | regrouping a byte string's bits into bytes gives the byte string |
| Base32.BytesOfPrefix | internal/data/tokens.go:54 | bits after the first `8k` do not change the first `k` bytes |
| Base32.Whole | internal/data/tokens.go:54 | the number of whole bytes in `n` bits |
| Base32.EncodeBits | internal/data/tokens.go:54 | one symbol per started 5-bit group: `n` bits give ⌈n/5⌉ symbols |
| Base32.EncodedSymbols | internal/data/tokens.go:54 | every symbol written is in `A`–`Z` or `2`–`7` |
| Base32.Encode | internal/data/tokens.go:54 | unpadded encoding: ⌈8k/5⌉ characters, all in the alphabet |
| Base32.EncodeVector | internal/data/tokens.go:54 | the byte "f" encodes as `MY`, the test vector of RFC 4648, section 10, without padding |
| Base32.DecodeBits | internal/data/tokens.go:54 | five bits per symbol; any non-symbol fails |
| Base32.Decode | internal/data/tokens.go:54 | as many bytes as the symbols' bits hold whole; trailing fill bits dropped |
| Base32.Fill | internal/data/tokens.go:54 | the fill is below 5 bits and completes the last group |
| Base32.DecodeEncodeBits | internal/data/tokens.go:54 | decoding the symbols of a bit stream gives the stream followed by zero fill bits |
| Base32.DecodeEncode | internal/data/tokens.go:54 | round trip: decoding the encoding of any byte string gives it back |
| Tokens.ScopesDistinct | internal/data/tokens.go:15-21 | the three scopes are pairwise different |
| Tokens.GenerateToken | internal/data/tokens.go:35-61 | fails exactly when the random source fails; otherwise copies user id and scope, expires at now + ttl, plaintext is the base 32 of the random bytes, hash is SHA-256 of the plaintext |
| Tokens.GeneratedPlaintext | internal/data/tokens.go:44-54 | 16 random bytes give 26 alphabet characters that decode back to the bytes |
| Tokens.TokenError | internal/data/tokens.go:64-67 | empty is "must be provided"; no error exactly when 26 bytes long |
| Tokens.TokenErrors | internal/data/tokens.go:64-67 | errors only under `token` |
| Tokens.TokenChecks | internal/data/tokens.go:65-66 | the two checks add the plaintext's first failure |
| Tokens.ValidateTokenPlaintext | internal/data/tokens.go:64-67 | the validator gains exactly the plaintext's errors |
| Tokens.GeneratedTokenValid | internal/data/tokens.go:44-66 | every generated token passes `ValidateTokenPlaintext` |
| Permissions.Include | internal/data/permissions.go:18-20 | true exactly when the code occurs in the list |
| Permissions.NoRowsNoCode | internal/data/permissions.go:48 | a user with no rows (nil slice) has no code |
| Permissions.IncludeBySet | internal/data/permissions.go:18-20 | lists with the same codes, in any order and repetition, include the same codes |
| Permissions.IncludeReversed | internal/data/permissions.go:50-59 | row order does not matter: a list and its reverse include the same codes |
| Permissions.AppendKeeps | internal/data/permissions.go:58 | appending a row keeps every code and adds the new one |
| Permissions.DuplicateIrrelevant | internal/data/permissions.go:58 | a repeated row changes nothing |
| Permissions.FixturePermissions | internal/data/mocks/permissions.go:12-21 | the test store knows users 1 and 2 only |
| Permissions.FixtureGrants | internal/data/mocks/permissions.go:7-8 | user 1 may read but not write; user 2 may read and write |
| Helpers.Get | cmd/api/helpers.go:145 | `url.Values.Get`: the first value of the key, or empty |
| Helpers.ReadIDParam | cmd/api/helpers.go:128-139 | success exactly when the parameter parses as an int64 of at least 1, returning it; otherwise `(0, "invalid id parameter")` |
| Helpers.ReadIDFormatted | cmd/api/helpers.go:133 | every positive id written in decimal is read back |
| Helpers.ReadIDRejects | cmd/api/helpers.go:133-135 | ids below 1 and every text the 64-bit parse refuses are invalid |
| Helpers.ReadIDOverflow | cmd/api/helpers.go:133-135 | every number beyond the int64 range, in decimal, is an invalid id |
| Helpers.ReadIDMalformed | cmd/api/helpers.go:133-135 | `12a` and a lone `+` are invalid ids |
| Helpers.ReadIDFixture | cmd/api/movies_test.go:95 | `/v1/movies/foo` carries an invalid id |
| Helpers.ReadString | cmd/api/helpers.go:143-153 | the default exactly when the value is empty or missing, the value otherwise |
| Helpers.ReadCSV | cmd/api/helpers.go:157-167 | the default for an empty value; otherwise comma-free pieces, one more than the commas, that join back to the value |
| Helpers.ReadCSVJoined | cmd/api/helpers.go:166 | comma-free values joined by commas into a non-empty value are read back as they were |
| Helpers.ReadInt | cmd/api/helpers.go:169-187 | empty: the default and no error; unparsable: the default and "must be an integer value" added; otherwise the number and no change |
| Middleware.Touched | cmd/api/middleware.go:78-84 | a new address gets a fresh bucket, a known one keeps its bucket; the address is marked seen now; others unchanged |
| Middleware.BucketAfterSweep | cmd/api/middleware.go:54-84 | after a sweep, a kept client's next request uses its own bucket, an evicted client's a bucket made at that request |
| Middleware.Recent | cmd/api/middleware.go:55-59 | the sweep keeps exactly the entries seen within three minutes, unchanged |
| Middleware.TouchedSize | cmd/api/middleware.go:78-82 | only a first request from an address grows the table, by one |
| Middleware.TouchedSurvivesSweep | cmd/api/middleware.go:56-84 | a just-seen client survives a sweep at that time |
| Middleware.SweepIdempotent | cmd/api/middleware.go:55-59 | a second sweep at the same time removes nothing more |
| Middleware.RateLimiter.constructor | cmd/api/middleware.go:46-47 | configuration recorded, client table empty |
| Middleware.RateLimiter.Admit | cmd/api/middleware.go:64-96 | disabled: proceed, table untouched; no host: server error, table untouched; otherwise the table is touched, a new address getting a bucket made now, and the verdict is that of the client's own bucket |
| Middleware.RateLimiter.Sweep | cmd/api/middleware.go:54-60 | the table becomes exactly its recent entries |
| Middleware.Authenticate | cmd/api/middleware.go:100-150 | the anonymous user is attached exactly when the header is empty |
| Middleware.TokenAccepted | cmd/api/middleware.go:125-130 | a fresh validator stays valid exactly when the token is 26 bytes long |
| Middleware.MalformedRejected | cmd/api/middleware.go:116-130 | a non-empty header that is not `Bearer` and a 26-byte token is rejected as an invalid token |
| Middleware.WellFormedLooksUp | cmd/api/middleware.go:133-145 | a well-formed header is looked up under the authentication scope and the store's answer decides |
| Middleware.BearerWellFormed | cmd/api/middleware.go:116-127 | `Bearer` and a space-free 26-byte token form a well-formed header carrying that token |
| Middleware.UniformRejection | cmd/api/middleware.go:116-137 | a malformed header and an unknown token get the same invalid-token answer |
| Middleware.FaultIsServerError | cmd/api/middleware.go:138-139 | a store fault is a server error |
| Middleware.AttachedUserFromStore | cmd/api/middleware.go:133-145 | a non-anonymous attached user is the store's user for the header's token |
| Middleware.RequireAuthenticatedUser | cmd/api/middleware.go:156-168 | passes exactly the non-anonymous users; others need authentication |
| Middleware.RequireActivatedUser | cmd/api/middleware.go:174-188 | passes exactly the authenticated, activated users; the authentication refusal comes first |
| Middleware.RequirePermission | cmd/api/middleware.go:191-215 | passes exactly activated users whose looked-up permissions include the code |
| Middleware.AnonymousTurnedAway | cmd/api/middleware.go:161-162 | the anonymous user is asked to authenticate by every gate |
| Middleware.InactiveTurnedAway | cmd/api/middleware.go:179-180 | an inactive user is refused as inactive whatever its permissions |
| Middleware.PermissionDecision | cmd/api/middleware.go:197-207 | a lookup error is a server error; a missing code is a refusal |
| Middleware.GatesNested | cmd/api/middleware.go:174-215 | passing the permission gate implies passing the activation gate, which implies the authentication gate |
| Routes.Find | cmd/api/routes.go:23-43 | a found route has the method and pattern asked for; none found means none registered |
| Routes.RequiredPermission | cmd/api/routes.go:23-43 | defined exactly for the registered method and pattern pairs |
| Routes.ListMoviesRoute | cmd/api/routes.go:26 | `GET /v1/movies` needs `movies:read` |
| Routes.ShowMovieRoute | cmd/api/routes.go:28 | `GET /v1/movies/:id` needs `movies:read` |
| Routes.CreateMovieRoute | cmd/api/routes.go:27 | `POST /v1/movies` needs `movies:write` |
| Routes.UpdateMovieRoute | cmd/api/routes.go:29 | `PATCH /v1/movies/:id` needs `movies:write` |
| Routes.DeleteMovieRoute | cmd/api/routes.go:30 | `DELETE /v1/movies/:id` needs `movies:write` |
| Routes.OpenRoutes | cmd/api/routes.go:23-43 | every route outside `/v1/movies` carries no gate |
| Routes.Dispatch | cmd/api/routes.go:23-43 | a handled request's route carries the permission registered for it |
| Routes.ServeUnfolded | cmd/api/routes.go:46-48 | the chain is rate limit, then authentication, then the router |
| Routes.LimitedBeforeLookup | cmd/api/routes.go:46-48 | a rate-limited request ends there, whatever the stores would say |
| Routes.NoPanic | cmd/api/context.go:23-27 | the router always finds a user in the context, so `contextGetUser` never panics |
| Routes.GatedHandlerNeedsPermission | cmd/api/routes.go:26-30 | a gated handler runs only for a token-authenticated, activated user holding the route's code |
| Routes.MoviesRefuseAnonymous | cmd/api/routes.go:26-30 | a request without `Authorization` to a gated route is asked to authenticate |
| TokenHandler.CredentialErrors | cmd/api/tokens.go:27-30 | errors only under email and password, none exactly when the address matches and the password is 8 to 72 bytes |
| TokenHandler.ValidateCredentials | cmd/api/tokens.go:27-32 | a fresh validator after both checks holds exactly the credentials' errors |
| TokenHandler.CreateAuthenticationToken | cmd/api/tokens.go:13-74 | bad request exactly when the body does not decode; validation failure exactly when the credentials are invalid |
| TokenHandler.ValidationBeforeLookup | cmd/api/tokens.go:32-35 | invalid credentials get the validator's errors whatever the stores and bcrypt would say |
| TokenHandler.UnknownEmailLikeWrongPassword | cmd/api/tokens.go:38-59 | an unknown address and a wrong password give the same answer |
| TokenHandler.InvalidCredentialsCases | cmd/api/tokens.go:38-59 | 401 exactly for an unknown address or a mismatching password |
| TokenHandler.ServerErrorCases | cmd/api/tokens.go:38-66 | before the response is written, 500 exactly for a store fault, a bcrypt error or a failed token creation |
| TokenHandler.IssuedForMatchedUser | cmd/api/tokens.go:62 | an issued token is the store's new authentication token, 24-hour TTL, for the matched user |
| TokenHandler.IssuedTokenUsable | cmd/api/tokens.go:62 | with `generateToken` behind the store, the issued token is the user's, authentication-scoped, expires in 24 hours and passes plaintext validation |
| TokenHandler.FixtureGetByEmail | internal/data/mocks/users.go:56-62 | the test store knows `a.wong@mail.com` only |
| TokenHandler.FixtureInvalidEmail | cmd/api/tokens_test.go:30 | the `mail` row fails validation on its address |
| TokenHandler.FixtureAddressValid | cmd/api/tokens_test.go:31 | `invalid@mail.com` matches the e-mail pattern |
| TokenHandler.FixtureUnknownEmail | cmd/api/tokens_test.go:31 | the `invalid@mail.com` row is answered as invalid credentials |

## Left out

- Database access: the SQL of every store method, `Insert`, `GetAll` (with its
  full-text search and `calculateMetadata`), `Users.Insert`/`Update`,
  `Tokens.Insert`/`DeleteAllForUser`, `Permissions.AddForUser`. The movie
  store is a map; `GetForToken`, `GetByEmail`, `GetAllForUser` and
  `Tokens.New` are lookup functions passed in. Database faults other than
  "no rows" appear only where a caller tells them apart (lookup `Fault`).
- Movies.MovieStore.Get, Movies.MovieStore.Update, Movies.MovieStore.Delete:
  do not model driver errors or the three-second query timeout.
- Movies.MovieStore.Update: `version` is an unbounded integer; the int32
  column's overflow after 2^31 − 1 updates is not modelled.
- `CreatedAt` fields and JSON field tags are not modelled.
- bcrypt, SHA-256 and `crypto/rand` are parameters (a comparison outcome, a
  hash function, a byte string or its failure); their algorithms are not
  modelled. The bcrypt cost of 12 is not modelled.
- Users.Set, Users.SetAsWritten: `Set` updates the password in place
  through its receiver; the model returns the new password value instead.
- Runtime.Unquote: models only removing one pair of double quotes; escape
  sequences, back-quoted and single-quoted Go literals are not modelled.
- Helpers.ReadInt: `strconv.Atoi` is modelled as a 64-bit `ParseInt`, the
  width it has on 64-bit platforms.
- `readJSON`, `writeJSON`, the error-response helpers and their JSON bodies;
  outcomes are named values (`BadRequest`, `ServerError`, …) instead. A
  `writeJSON` failure (its `MarshalIndent` error) turns an issued token into
  a 500 in the source; `CreateAuthenticationToken` stops at `Issued`, so
  that 500 is not among the cases of `TokenHandler.ServerErrorCases`.
- The rate limiter's mutex, its janitor goroutine's one-minute sleep, and
  concurrency in general: `Sweep` is one pass of the janitor, `Admit` one
  request. The token bucket's fill level is not modelled: `rate.Limiter.Allow`
  is the parameter `allow`, a function of the client's own bucket;
  `net.SplitHostPort` is the parameter `host` (`None` on error); the clock
  is the parameter `now`.
- `metrics` (expvar counters) and `recoverPanic` pass requests on
  unchanged in the chain; the panic `recoverPanic` would catch is the
  `RecoveredPanic` response, and it is proved never to occur.
- `httprouter` path matching: a request carries the route pattern its path
  matched; 404 and 405 answers are both `NoRoute`. The router's own
  answers to OPTIONS requests and its redirects for trailing slashes and
  cleaned paths are not modelled either. The handlers behind the
  routes, other than the authentication-token handler, are not modelled.
- The `Vary: Authorization` header and `Connection: close` are not modelled.
- The mailer, server start-up and shutdown, configuration flags and the
  password-reset and activation handlers are not part of this model.
- Strings are byte strings; UTF-8 decoding is not modelled, which matches
  the source's use of `len` in bytes.

## Findings

| source | as written | input that shows it | evidently intended | confidence | as-written member | corrected member |
|---|---|---|---|---|---|---|
| internal/data/users.go:167-168 | when bcrypt fails, `Set` returns `nil` and leaves the password unset | any password bcrypt refuses to hash, e.g. one bcrypt rejects as too long | return bcrypt's error so the caller can answer with a server error; as written, the caller carries on and `ValidateUser` panics on the missing hash (users.go:224-226) | medium, not executed | Users.SetAsWritten (shown by Users.SetAsWrittenHidesFailure) | Users.Set (with Users.SetReadiesValidation) |
