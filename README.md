# flick-info core, modelled in Dafny

This project models the deterministic core of the flick-info movie API (a Go
JSON API server) and proves properties of the model:

- the per-client rate-limit registry of the `rateLimit` middleware, with its
  periodic sweep of idle clients;
- the `authenticate`, `requireAuthenticatedUser`, `requireActivatedUser`,
  `requirePermission` and `enableCORS` middleware decisions;
- the form validator (`internal/validator`) and the field validators built
  on it: filters and pagination, users, tokens;
- the JSON codec of the `Runtime` type (`"<n> mins"`);
- the query-string readers `readIDParam`, `readString`, `readCSV`, `readInt`;
- `Permissions.Include`;
- the level filter and trace rule of the JSON logger.

Go strings are sequences of characters with one character per byte, so a
string's length is Go's `len`. The Go library calls the core relies on are
modelled in small modules of their own: `Strings` (`strings.Split` on a
one-character separator, `Join`, `HasPrefix`, `TrimPrefix`), `Strconv`
(`ParseInt`, `FormatInt`, `Quote`, `Unquote`), `Base32` (the standard
alphabet of section 6 of RFC 4648, without padding) and `Http` (header maps
and a response writer). State the source changes in place is a class:
`Validator.Validator`, `JsonLog.Logger`, `Http.ResponseWriter`,
`RateLimit.RateLimiter`. Each method on these is proved against a pure function
(`WithError`, `Emitted`, `HeaderSet`, `Admit`, `Evict`, ...). The properties
are proved as lemmas about those functions.

Inputs from outside the program appear as parameters: the clock (`now`,
`time`), the stack trace, the random bytes, SHA-256, the e-mail regular
expression, and the database lookups `GetForToken` and `GetAllForUser`.

Where the code and its documentation disagree, the model follows the code:

- `ValidateTokenPlaintext` is documented as checking for 52 bytes but checks
  26, which is the length of 16 random bytes in unpadded base 32.
- `serverErrorResponse` (cmd/api/errors.go:28-33) sends status 404, although
  its comment says 500. The middleware model records which error response is
  chosen (`ServerError`, `InvalidAuthenticationToken`, ...), not its status code.

## Model

| member | source | states |
|---|---|---|
| Validator.WithError | internal/validator/validator.go:26-30 | the first message for a key wins: the result has exactly the old keys plus `key`, every old entry is unchanged, and `message` is stored only for a new key |
| Validator.WithProblem | internal/validator/validator.go:33-37 | a passing check leaves the errors unchanged; a failing one records its message as `AddError` does |
| Validator.FirstFailure | internal/validator/validator.go:33-37 | a run of `Check` calls on one key records nothing exactly when every check passes; otherwise it records the message of the first failing check |
| Validator.StaysInvalid | internal/validator/validator.go:11-37 | once a validator holds an error, no further check empties it |
| Validator.Validator.constructor | internal/validator/validator.go:16-18 | `New()` starts with no errors |
| Validator.Validator.Valid | internal/validator/validator.go:21-23 | valid exactly when the error map is empty |
| Validator.Validator.AddError | internal/validator/validator.go:26-30 | the new error map is `WithError` of the old one |
| Validator.Validator.Check | internal/validator/validator.go:33-37 | `Check(true, …)` changes nothing; `Check(false, k, m)` is `AddError(k, m)` |
| Validator.In | internal/validator/validator.go:40-48 | true exactly when some list element equals the value |
| Validator.ElementsAre | internal/validator/validator.go:57-61 | the set the loop builds holds exactly the list's values |
| Validator.ElementsCount | internal/validator/validator.go:56-64 | that set is no larger than the list, and equally large exactly when no value occurs twice |
| Validator.Unique | internal/validator/validator.go:56-64 | true exactly when no value occurs twice in the list |
| Filters.PageProblem | internal/data/filters.go:18-19 | no page error exactly when 1 ≤ page ≤ 10,000,000; a non-positive page gets "must be greater than zero", not the maximum message |
| Filters.PageSizeProblem | internal/data/filters.go:20-21 | no page_size error exactly when 1 ≤ page size ≤ 100; a non-positive size gets "must be greater than zero" |
| Filters.SortProblem | internal/data/filters.go:23 | no sort error exactly when the sort value is in the safelist; otherwise "invalid sort value" |
| Filters.ValidateFiltersValid | internal/data/filters.go:17-24 | a fresh validator stays valid exactly when page, page size and sort are all within their limits |
| Filters.ValidateFilters | internal/data/filters.go:17-24 | the five checks add exactly the page, page_size and sort errors described above to the existing errors |
| Filters.SortColumn | internal/data/filters.go:28-36 | a safelisted sort value with one leading `-` loses it; one without `-` is returned unchanged (the panic for an unsafe value is a precondition) |
| Filters.SortDirection | internal/data/filters.go:39-45 | "DESC" exactly when the sort value starts with `-`, and "ASC" exactly when it does not |
| Filters.SortRoundTrip | internal/data/filters.go:28-45 | the direction's `-` in front of the column gives back the sort value |
| Filters.Limit | internal/data/filters.go:48-50 | the limit is the page size |
| Filters.Offset | internal/data/filters.go:53-55 | the offset is (page − 1) × page size, so offset plus limit is page × page size |
| Filters.OffsetBounds | internal/data/filters.go:48-55 | for valid filters the offset is non-negative and fits in 64 bits, and offset plus limit is page × page size |
| Filters.NextPageOffset | internal/data/filters.go:48-55 | the next page starts where the current page ends |
| Filters.CalculateMetadata | internal/data/filters.go:68-81 | no records gives the all-zero metadata; otherwise the page, page size and total are copied, the first page is 1 and the last page is the ceiling of total / page size, for a page size of either sign |
| Filters.CeilDiv | internal/data/filters.go:78 | the ceiling `q` of the real quotient `a / b` satisfies `(q-1)·b < a ≤ q·b` for a positive divisor and `q·b ≤ a < (q-1)·b` for a negative one |
| Runtime.MarshalJSON | internal/data/runtime.go:19-28 | the output is `"` + the decimal number + ` mins` + `"`, and there is no error path |
| Runtime.UnmarshalJSON | internal/data/runtime.go:32-52 | any error is ErrInvalidRuntimeFormat and leaves the receiver unchanged; input that does not unquote is rejected; success means the input was `"<n> mins"` with `n` a base-10 int32 equal to the new value |
| Runtime.ShapeFromParts | internal/data/runtime.go:33-42 | unquoted text that splits on spaces into a number and "mins" came from the JSON string `"<number> mins"` |
| Runtime.AcceptsLiteral | internal/data/runtime.go:32-52 | every `"<n> mins"` whose count is a base-10 int32 literal, including "+5", "007" and "-0", is accepted with that value |
| Runtime.RejectsBadShape | internal/data/runtime.go:38-42 | unquoted text that does not split on spaces into two parts ending in "mins" is rejected |
| Runtime.RejectsBadNumber | internal/data/runtime.go:44-47 | a count that is not a base-10 int32 is rejected |
| Runtime.RoundTrip | internal/data/runtime.go:19-52 | unmarshalling what `MarshalJSON` produced succeeds and restores the value, for every int32 |
| Helpers.ReadIDParam | cmd/api/helpers.go:22-34 | either an id ≥ 1 that parses as a base-10 int64, with no error, or 0 with "invalid ID parameter" |
| Helpers.ReadIDParamRoundTrip | cmd/api/helpers.go:28-33 | every positive int64 id written in decimal is read back unchanged |
| Helpers.ReadString | cmd/api/helpers.go:132-141 | the default exactly when the query value is empty, otherwise the value |
| Helpers.ReadCSV | cmd/api/helpers.go:145-153 | the default for an empty value; otherwise comma-free parts, one more than the commas, which join with "," back to the value |
| Helpers.ReadInt | cmd/api/helpers.go:157-171 | an empty value gives the default and no error; a non-integer gives the default and "must be an integer value" under the key unless it already has an error; an integer is returned and no error is added |
| Users.EmailProblem | internal/data/users.go:67-70 | no email error exactly when the address is non-empty and matches the regular expression; an empty one gets "must be provided" |
| Users.PasswordProblem | internal/data/users.go:72-76 | no password error exactly when 8 ≤ length ≤ 72; an empty password gets "must be provided", not a length message |
| Users.NameProblem | internal/data/users.go:79-80 | no name error exactly when 1 ≤ length ≤ 500 |
| Users.ValidateEmail | internal/data/users.go:67-70 | the email checks add exactly `EmailProblem`'s message under "email" |
| Users.ValidatePasswordPlaintext | internal/data/users.go:72-76 | the password checks add exactly `PasswordProblem`'s message under "password" |
| Users.ValidateUser | internal/data/users.go:78-92 | name, then email, then the password only when its plaintext is set; a missing hash (a panic) is a precondition |
| Users.ValidateUserKeys | internal/data/users.go:78-92 | on a fresh validator "name" is reported exactly for an empty or over-long name, "email" exactly for an empty or non-matching address, "password" exactly for a set plaintext out of bounds, and no other key ever |
| Tokens.TokenProblem | internal/data/tokens.go:61-64 | no token error exactly when the plaintext is 26 bytes; an empty one gets "must be provided" |
| Tokens.ValidateTokenPlaintext | internal/data/tokens.go:61-64 | the token checks add exactly `TokenProblem`'s message under "token" |
| Tokens.GenerateToken | internal/data/tokens.go:30-58 | fails exactly when the random read fails; otherwise the token carries the user, scope and now + ttl, its plaintext is the unpadded base-32 form of the 16 random bytes, 26 characters long and accepted by `ValidateTokenPlaintext`, and its hash is the SHA-256 of the plaintext |
| Base32.Encode | internal/data/tokens.go:51 | the unpadded encoding has ⌈8n/5⌉ characters, all from the base-32 alphabet |
| Base32.SixteenBytes | internal/data/tokens.go:39-51 | 16 bytes encode to 26 characters |
| Permissions.Include | internal/data/permissions.go:15-23 | true exactly when the code is in the list |
| Permissions.IncludeAgreesWithIn | internal/data/permissions.go:15-23 | `Include` and `validator.In` agree on every list |
| Permissions.IncludeAfterAppend | internal/data/permissions.go:50-60 | appending codes, as `GetAllForUser` does row by row, never loses an included code |
| JsonLog.Level.String | internal/jsonlog/jsonlog.go:23-34 | Info is named "INFO", Error "ERROR" and Fatal "FATAL"; every other level, Off included, is "" |
| JsonLog.NamesIdentifyLevels | internal/jsonlog/jsonlog.go:23-34 | two levels with the same non-empty name are the same level |
| JsonLog.MakeEntry | internal/jsonlog/jsonlog.go:75-91 | the entry carries the level's name, the time, the message and the properties, and a stack trace exactly at Error level and above |
| JsonLog.Emitted | internal/jsonlog/jsonlog.go:70-72 | nothing is written exactly when the level is below the minimum; otherwise the one entry |
| JsonLog.OffIsSilent | internal/jsonlog/jsonlog.go:15-20 | a logger at Off writes nothing at any named level |
| JsonLog.Logger.constructor | internal/jsonlog/jsonlog.go:47-52 | a logger with the given minimum level and nothing written |
| JsonLog.Logger.PrintEntry | internal/jsonlog/jsonlog.go:68-108 | reports whether the level reaches the minimum, and appends `MakeEntry`'s line exactly then |
| JsonLog.Logger.PrintInfo | internal/jsonlog/jsonlog.go:54-56 | logs at Info level |
| JsonLog.Logger.PrintError | internal/jsonlog/jsonlog.go:58-60 | logs the error's text at Error level |
| JsonLog.Logger.PrintFatal | internal/jsonlog/jsonlog.go:62-65 | logs the error's text at Fatal level |
| JsonLog.Logger.Write | internal/jsonlog/jsonlog.go:112-114 | logs the bytes as a message at Error level without properties |
| Http.HeaderGet | cmd/api/middleware.go:114 | the first value of a key, "" when it has none; the same rule serves `url.Values.Get` in the query readers (cmd/api/helpers.go:134) |
| Http.HeaderSet | cmd/api/middleware.go:221-224 | replaces the key's values with the one value; other keys are unchanged |
| Http.HeaderAdd | cmd/api/middleware.go:111 | appends the value after the key's values; other keys are unchanged |
| Http.SetOverwrites | cmd/api/middleware.go:221-224 | a second Set of a key discards the first value |
| Http.AddKeepsBoth | cmd/api/middleware.go:111 | two Adds keep both values in order, after any the key already had |
| Http.ResponseWriter.Set | cmd/api/middleware.go:221 | `w.Header().Set` on the writer's header |
| Http.ResponseWriter.Add | cmd/api/middleware.go:111 | `w.Header().Add` on the writer's header |
| Http.ResponseWriter.WriteHeader | cmd/api/middleware.go:246 | only the first status written takes effect |
| RateLimit.NewBucket | cmd/api/middleware.go:81 | a client's limiter starts with a full burst |
| RateLimit.Refill | cmd/api/middleware.go:90 | the stand-in bucket gains one token per whole period since it was last credited, never growing past the burst and never shrinking, and is unchanged for a rate of zero |
| RateLimit.Allow | cmd/api/middleware.go:90 | a request is allowed exactly when a token is available after refilling, and then takes one; a refusal takes none; no bucket exceeds the burst |
| RateLimit.OneTokenPerPeriod | cmd/api/middleware.go:81-90 | an empty limiter lets exactly one more request through after one refill period |
| RateLimit.Admit | cmd/api/middleware.go:67-105 | when disabled, the map is untouched and the request forwarded; when enabled, the IP is added with a fresh limiter if unseen, its last-seen time becomes now, no other entry changes, and the request is forwarded exactly when its limiter allows it |
| RateLimit.Evict | cmd/api/middleware.go:56-60 | the sweep keeps, unchanged, exactly the entries seen no more than 3 minutes ago |
| RateLimit.ClientsAreIndependent | cmd/api/middleware.go:79-94 | a request's outcome and its new entry depend only on that IP's own entry |
| RateLimit.SweepBoundary | cmd/api/middleware.go:57 | an entry exactly 3 minutes old survives; one a nanosecond older is removed |
| RateLimit.EvictedStartsFull | cmd/api/middleware.go:56-83 | an IP removed by the sweep is first-seen again: its next request is allowed from a full burst |
| RateLimit.BurstState | cmd/api/middleware.go:79-94 | after n same-instant requests from a new IP, its limiter holds burst − n tokens, and never fewer than 0 |
| RateLimit.BurstAdmitsExactlyBurst | cmd/api/middleware.go:79-94 | of the same-instant requests from a new IP, exactly the first `burst` are forwarded and the rest refused with 429 |
| RateLimit.RateLimiter.constructor | cmd/api/middleware.go:42-45 | the registry starts empty |
| RateLimit.RateLimiter.Handle | cmd/api/middleware.go:67-105 | the new map and the outcome are those of `Admit` |
| RateLimit.RateLimiter.Sweep | cmd/api/middleware.go:56-60 | the map after the loop is `Evict` of the map before it |
| Auth.BearerToken | cmd/api/middleware.go:126-133 | a token is extracted only from a header `Bearer <token>` whose token has no space |
| Auth.BearerTokenOf | cmd/api/middleware.go:126-133 | every space-free token after `Bearer ` is extracted |
| Auth.BearerTokenRejects | cmd/api/middleware.go:126-130 | a header with other than one space is rejected |
| Auth.AuthDecide | cmd/api/middleware.go:107-161 | an empty header proceeds as the anonymous user; otherwise the request proceeds exactly when the header is `Bearer <t>` with a 26-byte `t` that the lookup finds, with that user; a lookup failure other than not-found is a server error; everything else is a 401 |
| Auth.RejectedBeforeLookup | cmd/api/middleware.go:126-141 | a malformed header or a token that is not 26 bytes is refused whatever the lookup would answer |
| Auth.WellFormedHeaderLooksUp | cmd/api/middleware.go:133-156 | a well-formed bearer header passes its own token to the lookup and proceeds with the user found, or is refused when none is |
| Auth.Authenticate | cmd/api/middleware.go:107-161 | adds `Vary: Authorization`, then decides as `AuthDecide`; the writer's status is left alone because the 401 and 500 responses, which write one, are not modelled |
| Auth.RequireAuthenticatedUser | cmd/api/middleware.go:163-175 | the anonymous user gets "authentication required"; a known user gets what the wrapped handler decides |
| Auth.RequireActivatedUser | cmd/api/middleware.go:177-192 | anonymous first, then inactive, and only then the wrapped handler |
| Auth.RequirePermission | cmd/api/middleware.go:194-216 | anonymous, then inactive, then a permission lookup failure (server error) or a missing code (not permitted), in that order |
| Auth.PermissionGate | cmd/api/middleware.go:163-216 | the wrapped handler runs exactly when the user is known, activated and holds the code |
| Cors.AnswerPreflight | cmd/api/middleware.go:241-247 | a preflight answer sets the allowed methods and headers and writes 200 |
| Cors.CorsAsWritten | cmd/api/middleware.go:218-256 | Vary ends up holding only Access-Control-Request-Method; Access-Control-Allow-Origin is only ever the request's own origin and only when it is trusted, and a request that is not a preflight from a trusted origin always gets it; a preflight with an origin and a non-empty trusted list is answered with 200 (unless a status was already written), Access-Control-Allow-Methods "OPTIONS, PUT, PATCH, DELETE" and Access-Control-Allow-Headers "Authorization, Content-Type", without calling next; otherwise the status is untouched and no Allow-Methods or Allow-Headers key is added; every other header key keeps its values |
| Cors.EnableCORS | cmd/api/middleware.go:218-256 | the header, status and outcome after the loop are those of `CorsAsWritten` |
| Cors.VaryOriginLost | cmd/api/middleware.go:221-224 | the `Vary: Origin` value never reaches the response |
| Cors.PreflightFromSecondOrigin | cmd/api/middleware.go:230-248 | a preflight from the second trusted origin is answered 200 without Access-Control-Allow-Origin |
| Cors.CorsIntended | cmd/api/middleware.go:218-256 | both Vary values are kept; a trusted origin is granted; the grant is only ever the request's own trusted origin; a preflight is answered (200, with the grant and the same Allow-Methods and Allow-Headers values) exactly when its origin is trusted; when next is called no Allow-Methods or Allow-Headers key is added; every other header key keeps its values |
| Cors.AgreeOnFirstOrigin | cmd/api/middleware.go:230-248 | for the first trusted origin the code as written and the corrected behaviour agree on outcome, status and grant |
| Strings.Split | cmd/api/helpers.go:152 | the parts are one more than the separators and contain none |
| Strings.Join | cmd/api/helpers.go:152 | the inverse of Split: the result starts with the first part, followed by the separator when there are more parts |
| Strings.JoinSplit | cmd/api/helpers.go:152 | joining the parts of a split gives back the string |
| Strings.SplitJoin | internal/data/runtime.go:38 | splitting a join of separator-free parts gives back the parts |
| Strings.HasPrefix | internal/data/filters.go:40 | true exactly when the prefix is a prefix of the string |
| Strings.TrimPrefix | internal/data/filters.go:31 | with the prefix present, prefix + result is the input; otherwise the input is unchanged |
| Strconv.FormatInt | internal/data/runtime.go:21 | the `%d` form: a base-10 literal denoting the number, with `-` exactly for negatives, never `+`, no space, and no leading zero except for 0 itself |
| Strconv.ParseIntIn | internal/data/runtime.go:44 | succeeds exactly on an optional sign followed by one or more digits whose value is in range, and then returns that value (leading zeros and "-0" allowed) |
| Strconv.ParseInt32 | internal/data/runtime.go:44 | succeeds exactly on a base-10 literal with a value in the int32 range, and returns that value |
| Strconv.ParseInt64 | cmd/api/helpers.go:28 | succeeds exactly on a base-10 literal with a value in the int64 range, and returns that value |
| Strconv.LiteralForms | cmd/api/helpers.go:28 | "+5", "007" and "-0" parse to 5, 7 and 0; a trailing space, a lone sign and the empty string do not parse |
| Strconv.FormatParse | cmd/api/helpers.go:28 | parsing the decimal form of an in-range number gives it back |
| Strconv.Quote | internal/data/runtime.go:25 | a plain string is wrapped in double quotes |
| Strconv.Unquote | internal/data/runtime.go:33 | a success returns the text between the quotes |
| Strconv.UnquoteQuote | internal/data/runtime.go:25-33 | unquoting a quoted plain string gives it back |
| Strconv.NatToDecimal | internal/data/runtime.go:21 | one or more digits, starting with 0 exactly when the number is 0, and then just "0" |
| Strconv.DecimalValue | internal/data/runtime.go:21 | the digits of a natural number's decimal form denote that number |

## Left out

- The mutex and the sweeping goroutine of `rateLimit` are left out: each call of `Handle` and `Sweep` is atomic, and the one-minute sleep between sweeps is not modelled.
- `realip.FromRequest` is not modelled: the client IP is an input.
- RateLimit.Allow: `rate.Limiter` (golang.org/x/time/rate) is not part of this model. It stands in as an integer token bucket: capacity `burst`, starting full, one token per `period` nanoseconds. Fractional tokens and the "infinite rate" setting are not modelled.
- Auth.Authenticate: the status and body written by the 401 and 500 responses (`errorResponse` → `writeJSON`, cmd/api/errors.go:15-22 and cmd/api/helpers.go:56-57) are not modelled, so the writer's status is unchanged on every path of the model.
- The responses themselves (`rateLimitExceedResponse`, `invalidAuthenticationTokenResponse`, `serverErrorResponse` and the others in cmd/api/errors.go) are not modelled. The model records which of them is chosen, because their JSON bodies go through `writeJSON`.
- The request context (`contextSetUser`, `contextGetUser`) is not modelled: the user is passed along directly. `data.AnonymousUser` and `User.IsAnonymous` are not part of this model; the anonymous user is the `Anonymous` case, which is not activated and has id 0.
- `GetForToken` and `GetAllForUser` (SQL queries) are functions passed in, with a not-found and a failure outcome.
- Http.HeaderGet: header keys are taken as already canonical; Go's canonicalisation of key case is not modelled.
- Strconv.Unquote: only double-quoted strings without escapes are accepted. Escape sequences, backquoted and single-quoted literals are not modelled; the runtime codec never produces them for its own output.
- Strconv.Quote: defined only for printable ASCII without `"` or `\`, which covers everything `MarshalJSON` quotes.
- Strings.Split: only a one-character separator is modelled, which is all the core uses (" " and ",").
- Helpers.ReadInt: `strconv.Atoi` is taken as 64-bit `ParseInt`.
- Filters.CalculateMetadata: `math.Ceil` on float64 is modelled as exact integer ceiling division, so float rounding of very large counts is not modelled. A page size of exactly 0 with records present is excluded by the precondition, because the float quotient is then infinite and its conversion to `int` has no defined value; positive and negative page sizes are both covered.
- Filters.OffsetBounds: the int64 wrap of `(Page-1)*PageSize` for filters that failed validation is not modelled; the bound is proved for valid filters only.
- Users.ValidateEmail: the e-mail regular expression (`validator.Matches`, `EmailRX`) is a predicate passed in.
- Tokens.GenerateToken: `crypto/rand` is an input (the 16 bytes, or a failure), and SHA-256 is a function passed in. The clock is the input `now`, and time arithmetic on `time.Time` is integer addition.
- The password `Set` and `Matches` (bcrypt) are not modelled.
- JsonLog.Logger.PrintEntry: the JSON encoding of an entry, the byte count and write error returned by the writer, and the fallback line for a marshalling failure are not modelled. The output is the sequence of entries.
- JsonLog.Logger.PrintFatal: the `os.Exit(1)` after logging is not modelled.
- `readJSON`, `writeJSON`, the movie handlers, routing, `recoverPanic`, `metrics`, the mailer and server start-up and shutdown are not modelled; they are I/O plumbing around the core.

## Findings

| source | as written | input that shows it | evidently intended | confidence | as-written member | corrected member |
|---|---|---|---|---|---|---|
| cmd/api/middleware.go:221-224 | `Vary` is written twice with `Set`, so the second call discards "Origin" | any request | `Add`, so the response varies on both Origin and Access-Control-Request-Method, as the comment on line 220 says | high, not executed | Cors.VaryOriginLost | Cors.CorsIntended |
| cmd/api/middleware.go:230-248 | the preflight test is outside the origin comparison, so it returns on the first iteration, after comparing with the first trusted origin only | trusted origins ["https://a.example", "https://b.example"], OPTIONS with Origin "https://b.example" and Access-Control-Request-Method "PUT": answered 200 without Access-Control-Allow-Origin | a preflight is answered, with the grant, when its origin matches any trusted origin | medium, not executed | Cors.PreflightFromSecondOrigin | Cors.CorsIntended |
