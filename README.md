# Request dispatch, response coercion and session tokens of awesome-python3-webapp

This project is a Dafny model of the small web framework that the blog
application `awesome-python3-webapp` layers over aiohttp. It also models the
pieces of the application that the framework's middleware relies on.

- `webframe.dfy` (module `WebFrame`) covers the `@get`/`@post` route tags and
  the five helpers that classify a handler's declared parameters. It covers
  `RequestHandler.__init__` and `RequestHandler.__call__`, which builds the
  keyword arguments of one call from a request. It also covers `add_route`,
  and the attribute scan of `add_routes` over a router that is a class with a
  route list.
  `__call__` is written twice. `Dispatch` is the specification, as a function.
  `Call` is a method with the source's loops: the query dict, the keyword-only
  copy loop, the `match_info` overwrite loop and the required-name loop.
  `Call` is proved equal to `Dispatch`.
- `app.dfy` (module `App`) covers the four middleware stages and the order
  `init` installs them in. It covers the coercion of a handler's return value
  into a response, the `/manage/` auth gate and `datetime_filter`.
- `handlers.dfy` (module `Handlers`) covers `get_page_index`, the session token
  (`user2cookie` and `cookie2user`) and the two input patterns. It covers the
  validation prefixes of `api_register_user` and `authenticate`, and the
  cookie value written by `signout`.
- `models.dfy` (module `Models`) covers the `User` row and `next_id`.
- `text.dfy` (module `Text`) holds the Python string operations the core uses.
  These are `str.startswith`, `str(int)`, `int(str)`, `strip`, `split`/`join`
  on one character, ASCII `lower`, `%015d` padding, UTF-8 encoding and
  `hexdigest()`. `prelude.dfy` holds `Option`, `Result`, bytes and the SHA-1
  digest type. `values.dfy` holds the Python values, the request and the
  responses.

The clock is a parameter: whole seconds for the cookie and the time filter,
milliseconds for `next_id`. SHA-1 (FIPS 180-4) is an uninterpreted parameter
returning 20 bytes; the hex encoding of the digest is modelled. The user lookups
(`User.find`, `User.findAll`), the template engine, `json.dumps`, `str()` of an
arbitrary object and the calendar conversion of `datetime.fromtimestamp` are
parameters too.

The model follows the source where a cleaner design would differ:
- `add_route` and `add_routes` make no duplicate-route check.
- A GET with an empty query string, and any method other than GET or POST, is
  bound to the bare `match_info` with no filtering by keyword names.
- An int status in [100, 600) is coerced to the class `web.Response` itself,
  not to an instance (`PResponseClass`).
- The token signature hashes `id-passwd-expires-secret` joined by `-`.
- A form body that repeats a field name makes `dict(**params)` raise
  `TypeError` ("got multiple values for keyword argument"). This exception is
  not an APIError, so it propagates out of `__call__`. The form is therefore
  modelled as the ordered list of (name, value) pairs that `request.post()`
  returns, not as a map.
- A `User` row is a `dict` subclass with no `__template__` key, so the
  response stage sends a returned user as JSON.
- `int()` skips only the ASCII whitespace below U+007F (space and '\t' to
  '\r'). The information separators U+001C to U+001F are whitespace to
  `str.strip` but not to `int()`, so `get_page_index("\x1c5")` is page 1.
- `apis.py` is not part of this model. `APIValueError(field)` is read as the
  APIError with error 'value:invalid', the field name as its data, and an
  empty message.

## Model

| member | source | states |
|---|---|---|
| `WebFrame.Get` | www/webframe.py:29-39 | the wrapper carries method 'GET' and the path, keeps the name and signature, and forwards every call unchanged |
| `WebFrame.Post` | www/webframe.py:43-51 | as `Get`, with method 'POST' |
| `WebFrame.GetRequiredKwArgs` | www/webframe.py:65-72 | the loop returns the KEYWORD_ONLY names without a default, in declaration order |
| `WebFrame.GetNamedKwArgs` | www/webframe.py:75-81 | the loop returns every KEYWORD_ONLY name, in declaration order |
| `WebFrame.HasNamedKwArgs` | www/webframe.py:84-88 | true iff some parameter is KEYWORD_ONLY |
| `WebFrame.HasVarKwArg` | www/webframe.py:91-95 | true iff some parameter is VAR_KEYWORD |
| `WebFrame.HasRequestArg` | www/webframe.py:101-115 | fails iff a parameter after `request` is not *args, keyword-only or **kw; otherwise says whether `request` is declared |
| `WebFrame.NamedKwArgsMembers` | www/webframe.py:75-81 | a name is in the named list iff a KEYWORD_ONLY parameter carries it |
| `WebFrame.RequiredKwArgsMembers` | www/webframe.py:65-72 | a name is in the required list iff a KEYWORD_ONLY parameter without a default carries it |
| `WebFrame.RequiredSubsequenceOfNamed` | www/webframe.py:65-81 | the required names are a subsequence of the named ones |
| `WebFrame.HasNamedIffNamedNonEmpty` | www/webframe.py:75-88 | `has_named_kw_args` holds iff the named list is non-empty |
| `WebFrame.NoNamedNoRequired` | www/webframe.py:65-72 | without KEYWORD_ONLY parameters the required list is empty |
| `WebFrame.NewRequestHandler` | www/webframe.py:123-130 | fails exactly when `has_request_arg` raises; otherwise stores the five classifications of the signature |
| `WebFrame.FormDictCases` | www/webframe.py:165-167 | `dict(**params)` succeeds iff no name repeats; it then maps exactly the posted names, each to its value |
| `WebFrame.FormBinding` | www/webframe.py:165-167 | a form POST with a repeated name raises TypeError out of `__call__`; otherwise the gathered arguments are the posted pairs |
| `WebFrame.Gather` | www/webframe.py:152-184 | no data without keyword parameters or for a method other than GET/POST; refusals and the TypeError only for a POST, the TypeError exactly for a repeated form name |
| `WebFrame.BindArgs` | www/webframe.py:186-220 | bound arguments hold every required name, and `request` when the handler declares it; binding throws exactly when gathering does |
| `WebFrame.Catch` | www/webframe.py:222-225 | a return passes unchanged; only a non-APIError exception escapes |
| `WebFrame.Dispatch` | www/webframe.py:146-225 | a refused binding answers BadRequest with its message; the TypeError of a repeated form name propagates; an APIError never leaves `__call__` |
| `WebFrame.FirstMissing` | www/webframe.py:217-220 | the first required name, in order, absent from the arguments; None iff all are present |
| `WebFrame.QueryDict` | www/webframe.py:175-184 | the dict built from `parse_qs` equals the first-value map of the query pairs |
| `WebFrame.ReadRequestData` | www/webframe.py:152-184 | the body or query branch of `__call__` gives exactly the gathered data of the specification |
| `WebFrame.KeepNamed` | www/webframe.py:199-204 | the copy loop keeps exactly the request entries whose key is a keyword-only name |
| `WebFrame.ApplyCaptures` | www/webframe.py:206-209 | after the loop every `match_info` entry is present and overrides the request value of the same name |
| `WebFrame.CheckRequired` | www/webframe.py:217-220 | the loop returns the first missing required name, if any |
| `WebFrame.Call` | www/webframe.py:146-225 | the step-by-step `__call__` returns exactly what the specification `Dispatch` does |
| `WebFrame.QueryArgsFirstValue` | www/webframe.py:175-184 | a query key is bound iff some pair has it, and to the value of its first pair, blank or not |
| `WebFrame.PostRefusals` | www/webframe.py:155-169 | a POST is refused with BadRequest in exactly the three content-type cases, with the source's messages |
| `WebFrame.RejectedNeverCalls` | www/webframe.py:155-169 | a refused binding answers BadRequest, and the result does not depend on the handler function |
| `WebFrame.GetBindsFirstQueryValue` | www/webframe.py:171-184 | a GET with a query string binds each key to its first value, blank values kept |
| `WebFrame.FallbackBindsMatchInfo` | www/webframe.py:187-195 | with no gathered data the arguments are `match_info` alone (plus `request`), unfiltered; with no keyword parameters binding always succeeds |
| `WebFrame.NamedOnlyBinding` | www/webframe.py:199-215 | without **kw, a key is bound iff it is a capture, a supplied keyword-only name or `request`; captures beat request data |
| `WebFrame.VarKwBinding` | www/webframe.py:199-209 | with **kw every supplied key is kept, captures written over it |
| `WebFrame.CapturesWin` | www/webframe.py:206-215 | a path capture always overrides request data of the same name; only `request` overrides it |
| `WebFrame.MissingArgumentRule` | www/webframe.py:214-220 | binding succeeds iff every required name is present after `request` is injected; otherwise it names the first missing one |
| `WebFrame.ApiErrorBecomesDict` | www/webframe.py:222-225 | an APIError becomes `{error, data, message}`; any other outcome passes through unchanged |
| `WebFrame.ScanIsRegistration` | www/webframe.py:274-283 | scanning attribute by attribute is registering the candidates in order |
| `WebFrame.CandidatesExactly` | www/webframe.py:274-283 | the candidates are exactly the public, callable attributes with truthy method and path |
| `WebFrame.CandidatesAreTagged` | www/webframe.py:241-244 | a candidate never meets the '@get or @post not defined' error |
| `WebFrame.DecoratedIsRegistered` | www/webframe.py:29-39 | a public `@get(path)` function with a non-empty path is registered with method 'GET', its path and its own plan |
| `WebFrame.UnderscoreNeverCandidate` | www/webframe.py:275-276 | an attribute whose name starts with '_' is never registered |
| `WebFrame.RegistrationComplete` | www/webframe.py:254-283 | a scan without error registers one route per candidate, in order |
| `WebFrame.Router.AddRoute` | www/webframe.py:239-251 | raises when a tag is missing or the signature is misplaced; otherwise appends one route and nothing else |
| `WebFrame.Router.ScanAttr` | www/webframe.py:275-283 | one attribute of the scan: skipped unless a candidate, else `add_route` |
| `WebFrame.Router.AddRoutes` | www/webframe.py:274-283 | the route list grows by the registered candidates, in order, and the scan stops at the first error |
| `App.Coerce` | www/app.py:139-191 | the result is always a response or the class `web.Response`, and the class exactly for an int status in [100, 600) |
| `App.CoerceCases` | www/app.py:145-191 | each shape, in source order, and the response it becomes: a template-less dict and a `User` row (a dict) as JSON; other shapes fall through to plain text |
| `App.CoerceIdempotent` | www/app.py:145-146 | coercing a response again is the identity |
| `App.CoercedStatus` | www/app.py:153-191 | a redirect has status 302, a status tuple its own status, every other body 200 |
| `App.ApiErrorSentAsJson` | www/app.py:161-167 | the APIError dict has no template key, so it is sent as JSON |
| `App.TemplateSeesUser` | www/app.py:168-175 | a template is rendered with `__user__` set to the request's user and every other binding unchanged |
| `App.LoggerFactory` | www/app.py:96-100 | the logging stage returns exactly what the inner handler returns |
| `App.WithData` | www/app.py:103-114 | `parse_data` changes only `__data__`, and only for a POST with a JSON or form content type; the JSON body or the posted pairs become `__data__` |
| `App.FormValue` | www/app.py:110-111 | the posted multi-dict as `__data__`: one (name, value) pair per field, in order |
| `App.DataFactory` | www/app.py:103-114 | the inner handler sees the request with `__data__` set as `parse_data` sets it; other methods pass through untouched |
| `App.ResponseFactory` | www/app.py:138-192 | an exception from the inner handler propagates unchanged; any return becomes a response or the response class, for the same request |
| `App.SessionUser` | www/app.py:122-128 | `__user__` is None without a non-empty session cookie, and otherwise is exactly what `cookie2user` returns for it |
| `App.SignedInUserSeen` | www/app.py:122-131 | a request carrying an unexpired token issued for a stored user is served as that user, masked; an admin so signed in passes the gate |
| `App.AuthFactory` | www/app.py:119-133 | a gated request is answered with a redirect to /signin; any other request reaches the inner handler with `__user__` resolved from the cookie |
| `App.AuthGate` | www/app.py:119-133 | a `/manage/` request without an admin is redirected to /signin and the inner handler is not called; any other request gets the inner result unchanged |
| `App.AdminPasses` | www/app.py:130-131 | an admin passes the gate; an anonymous request on `/manage/` never does |
| `App.AuthResetsUser` | www/app.py:122 | any earlier `__user__` is discarded |
| `App.ChainOfFour` | www/app.py:215-217 | four stages compose with the first listed outermost |
| `App.ChainConcat` | www/app.py:215-217 | wrapping with a list of stages is wrapping with its first part around its second |
| `App.ServeNesting` | www/app.py:215-217 | the installed list nests logger, response, data and auth around the handler, in that order |
| `App.ServeOneRequest` | www/app.py:96-217 | end to end: data decoded, then the auth gate, then dispatch, then coercion with the resolved user; exceptions propagate |
| `App.ServeAlwaysResponds` | www/app.py:138-192 | a request that ends without an exception ends with a response |
| `App.Bucket` | www/app.py:197-208 | under 60 s is "just now"; then whole minutes, hours and days by floor division; a week or more gives the calendar date of `t` |
| `App.DatetimeFilter` | www/app.py:197-208 | the text for each age range: "1分钟前", minutes, hours, days by floor division, else year, month and day of `t` |
| `App.UnderAMinute` | www/app.py:199-202 | ages under two minutes, future times included, all read "1分钟前" |
| `App.BucketIgnoresCalendar` | www/app.py:197-206 | under a week the text depends on the age alone |
| `Handlers.GetPageIndex` | www/handlers.py:29-38 | the page index is always at least 1 |
| `Handlers.PageIndexCases` | www/handlers.py:29-38 | the parsed number when it parses and is at least 1, otherwise 1 |
| `Handlers.PageIndexOfNumber` | www/handlers.py:29-38 | a rendered integer reads back clamped at 1 |
| `Handlers.PageIndexOfNonNumeric` | www/handlers.py:32-35 | input without a digit, such as "abc", is page 1 |
| `Handlers.PageIndexWithSeparator` | www/handlers.py:31-38 | a page string holding U+001C to U+001F is page 1, because `int()` raises on it |
| `Text.SeparatorFailsInt` | www/handlers.py:32-35 | a string holding U+001C to U+001F fails `int()`, though `strip` counts those as whitespace |
| `Handlers.Signature` | www/handlers.py:45-47 | the signature is 40 lower-case hex characters |
| `Handlers.User2Cookie` | www/handlers.py:41-47 | the token is the id, '-', `str(now + max_age)`, '-', and the signature of exactly those fields |
| `Handlers.Cookie2User` | www/handlers.py:50-80 | a user iff the token is non-empty, splits into 3, has an integer expiry not before now, a known id and a matching signature; the user comes back with its password masked |
| `Handlers.CookieFields` | www/handlers.py:41-59 | a token for an id without '-' splits back into its three fields |
| `Handlers.TokenAccepted` | www/handlers.py:56-77 | three well-formed fields with a matching signature and unexpired expiry are accepted |
| `Handlers.TokenExpired` | www/handlers.py:63-65 | an expiry strictly before now is refused |
| `Handlers.CookieRoundTrip` | www/handlers.py:41-77 | a token issued for a '-'-free id is accepted up to and including its expiry and yields that user masked |
| `Handlers.IssuedFieldsAccepted` | www/handlers.py:56-77 | a token carrying an id, an integer expiry and that user's signature is accepted up to the expiry |
| `Handlers.CookieExpires` | www/handlers.py:63-65 | the same token is refused after its expiry |
| `Handlers.IssuedFieldsExpired` | www/handlers.py:63-65 | a token with an integer expiry is refused once the clock is past it |
| `Handlers.NextIdCookieRoundTrip` | www/handlers.py:41-77 | every id `next_id` makes can carry a session |
| `Handlers.CookieNeedsIntegerExpiry` | www/handlers.py:63 | a non-integer expiry is refused |
| `Handlers.DeletedCookieRejected` | www/handlers.py:217 | the signout value splits into three parts and never names a user |
| `Handlers.HexDigestMatchesSha1` | www/handlers.py:26 | a hex SHA-1 digest matches `_RE_SHA1` |
| `Handlers.Sha1MatchLength` | www/handlers.py:26 | a match of `_RE_SHA1` is 40 characters, or 41 with a final newline |
| `Handlers.EmailMatchShape` | www/handlers.py:25 | a match of `_RE_EMAIL` is non-empty with exactly one '@', not first |
| `Handlers.ValidateRegistration` | www/handlers.py:128-135 | registration passes validation iff the stripped name is non-empty, the email matches and the password matches |
| `Handlers.RegistrationCheckOrder` | www/handlers.py:128-135 | a blank name is blamed first, then the email, then the password |
| `Handlers.RegisterUser` | www/handlers.py:126-153 | validation errors first, then a duplicate email; it succeeds iff validation passes and the email is new; every failure is an APIError; the new row has the given id and creation time, the email, the stripped name, the stored digest, no admin flag and the placeholder image |
| `Handlers.StoredPasswd` | www/handlers.py:145-153 | the stored password is 40 lower-case hex characters, so it matches `_RE_SHA1` |
| `Handlers.RegistrationFailureAnswered` | www/handlers.py:126-140 | a refused registration reaches the client as the `{error, data, message}` dict, blaming one of the three fields |
| `Handlers.EchoedUser` | www/handlers.py:165 | the echoed user differs from the saved one only by a masked password |
| `Handlers.Authenticate` | www/handlers.py:174-198 | rejects an empty email, an empty password, an unknown email and a digest mismatch, in that order; signs in, with the first row found, exactly when none of these applies |
| `Handlers.RegisterThenAuthenticate` | www/handlers.py:143-198 | a user just registered signs in with the same password |
| `Handlers.StoredPasswdBytes` | www/handlers.py:145-195 | registration and sign-in hash the same bytes |
| `Handlers.WrongPasswordRejected` | www/handlers.py:197-198 | any other password fails on the password field |
| `Handlers.SignoutLocation` | www/handlers.py:213-215 | redirects to the Referer when present and non-empty, else "/" |
| `Models.NextId` | www/models.py:18-20 | the id ends with the UUID and then "000" |
| `Models.NextIdClockReadsBack` | www/models.py:20 | whatever the clock, the characters before the UUID are digits reading back as the clock |
| `Models.NextIdPrefixIsClock` | www/models.py:20 | the first 15 characters are digits and depend on the clock alone |
| `Models.NextIdLayout` | www/models.py:19-30 | for a clock below 10^15 and a 32-character UUID the id is 50 characters: clock, UUID, "000" |
| `Models.NextIdInjective` | www/models.py:20 | two such ids are equal only for equal clocks and UUIDs |
| `Models.NextIdAlphabet` | www/models.py:20 | every character is a decimal or hex digit, so the id never contains '-' |

## Left out

- The aiohttp plumbing: `add_static`, the router's own matching and its 404, `init`, the event loop and the server. `WebFrame.Router` only records the routes added.
- async/await and the `asyncio.coroutine` conversion in `add_route`: every stage is a sequential call.
- `inspect.signature` and `__import__`/`dir`: a handler is given with its parameter list, a module as its attribute sequence. `dir()` lists names sorted; the model takes the order as given.
- `parse_qs`, `request.json()` and `request.post()`: the request carries their decoded results. An absent Content-Type is the empty string. A body that fails to decode, on which `request.json()` raises in `__call__` and in `parse_data`, is not modelled.
- `json.dumps`, Jinja2 rendering and `str()` of arbitrary objects are opaque parameters. The JSON branch is modelled by its content type and branch choice only.
- The ORM and `Page`, which are not part of this model; user lookups are parameters. The `apis` error classes are the `Exc` datatype, with the fields the source reads.
- SHA-1, `uuid4` and `time.time()` are parameters.
- Float clocks: `time.time()` and `created_at` are floats in the source; the model uses whole seconds, so `int()` truncation of the difference is not modelled.
- Logging is purely observational and left out.
- The configuration files are static dictionaries; the cookie secret is a parameter.
- The `index` placeholder list, `api_get_users`, and the response objects (`set_cookie`, `r.body`) built after validation.
- Handler arguments of other types than strings, as a JSON body can supply them: the validation functions take strings.
- An exception raised by the user lookup inside `cookie2user`, which the source's `try` also turns into None.
- `Handlers.EmailMatch`: `\w` is read as ASCII letters, digits and '_'; Python's Unicode word characters outside ASCII are not accepted.
- `Text.ParseInt`: Python's `int()` also accepts non-ASCII decimal digits; the model accepts ASCII digits only.
- `Text.Lower`: lower-cases ASCII letters only.
