# listky core in Dafny

listky is a minimal list-sharing web application: an account is a username and a
six-digit PIN, each account owns lists addressed as `/{username}/{slug}`, public lists
count unique visitors per day by a salted hash of their address, and the most-viewed
public lists are shown as "trending". This project models the application's core and
proves its rules:

- input validation (username, PIN, slug) and PIN hashing;
- the progressive lockout after failed logins;
- the in-memory session table with 24-hour sessions;
- the privacy-preserving view log and the trending query;
- the list and account operations of `core/api`;
- the plugin hook registry;
- the request handlers of the earlier single-file application `main_old.py`.

Modules, one per file:

| file | module | models |
|---|---|---|
| `wrappers.dfy` | `Wrappers` | `Option` and `Result` |
| `strings.dfy` | `Strings` | Python's `str.lower`, `str.strip` and `split(',')[0]` on `seq<char>` |
| `ranking.dfy` | `Ranking` | `ORDER BY … DESC LIMIT n` as a top-k selection with a relational specification |
| `database.dfy` | `Database` | the three tables of `core/database.py` and the `Store` class holding them |
| `auth.dfy` | `Auth` | `core/auth.py` |
| `privacy.dfy` | `Privacy` | `core/privacy.py` |
| `api.dfy` | `Api` | `core/api/__init__.py` |
| `plugins.dfy` | `Plugins` | `core/plugins.py` |
| `legacy.dfy` | `LegacyApp` | the handlers of `main_old.py` |

Modelling choices:

- **The database.** It is one object, `Database.Store`, whose fields are the tables.
  - `users` is a map from username to row.
  - `lists` is a map keyed by `(username, slug)`. The DDL has no such constraint. Every insert path checks for the pair first, so the key is unique in every reachable state.
  - `views` is a set, because the whole row is its primary key.
  - `nextId` is the AUTOINCREMENT counter.
  - `Store.Valid()` states the invariants every operation keeps: stored usernames are lower-case, list ids are unique, and list ids are below `nextId`.
- **Time.** A clock reading is an integer number of seconds. A view date is an integer day number. Both are parameters of the operations that read the clock.
- **Hashes.** bcrypt and SHA-256 are foreign code. A digest is modelled by the value it was computed from, so equal inputs give equal digests and different inputs give different ones.
  - `Sha256Hex(ip + PIN_SALT)` stands for the IP hash.
  - `Bcrypt(pin + PIN_SALT, gensalt)` stands for the PIN hash, where `gensalt` is bcrypt's random salt, passed in as a parameter.
  - `bcrypt.checkpw` is modelled as comparing the salted PIN with the hashed one.
- **Session tokens.** `secrets.token_urlsafe` is a parameter.
- **Exceptions.** Each raised exception is an `Err` value, and every `Err` path is stated to leave the tables unchanged.
- **`get_client_ip` without an address.** When a request has no `X-Forwarded-For` header and no peer address, `get_client_ip` raises `AttributeError`. The model returns `None`:
  - `track_list_view` catches it and answers `False`;
  - the legacy handlers let it through, which is a 500 (`NoClientAddress`).
- **Queries with `ORDER BY`.** These are ghost functions. Their results are specified by `Ranking.IsTopK`:
  - the rows are the right length;
  - every row is drawn from the query's rows, with no row twice;
  - the rows are sorted;
  - no omitted row outranks a returned one.

  Ties may come in any order, as in SQLite. A negative `LIMIT` means no limit, as in SQLite.

Where the written description of the system and the code differ, the model follows the
code:

- **Lockout.** There is no `lockout_until` column. The lockout is recomputed on every attempt from `failed_attempts` and `last_fail`. The lockout lasts 5 minutes from 4 failures, 15 minutes from 6 and 60 minutes from 8.
  - The counter is not reset when a lockout ends, so after 4 failures every further failure locks the account again.
  - An attempt made during a lockout does not count as a failure.
- **Trending.** There is no per-list opt-in for trending.
- **Username claims.** A username is claimed by check-then-insert, and the primary key is the only guard. Concurrency is not modelled.

## Model

| member | source | states |
|---|---|---|
| Strings.Lower | core/api/__init__.py:45 | the model's ASCII `lower()` keeps the length, maps each character by its lower-case mapping (ASCII letters) and leaves no upper-case ASCII letter |
| Strings.LowerIdempotent | core/api/__init__.py:45 | lower-casing an already lower-cased name changes nothing, so names stored lower-cased are found again by the lower-cased lookups |
| Strings.Strip | main_old.py:332 | `strip()` returns the infix of the input after the leading whitespace, everything removed is whitespace, and the result neither starts nor ends with whitespace |
| Strings.StripClean | main_old.py:332 | stripping a string that neither starts nor ends with whitespace returns it unchanged |
| Strings.StripIdempotent | main_old.py:332 | stripping twice is stripping once |
| Strings.BeforeFirst | core/privacy.py:16-17 | `split(',')[0]` is the longest prefix without a comma; when shorter than the input, a comma follows it |
| Strings.BeforeFirstOf | core/privacy.py:16-17 | the first field of `head + "," + tail` is `head` whenever `head` holds no comma |
| Ranking.LimitOf | core/privacy.py:56 | the number of rows `LIMIT` lets through: all of them when negative, otherwise the smaller of the limit and the row count |
| Ranking.TopK | core/privacy.py:55-56 | `ORDER BY … DESC LIMIT n` returns `LimitOf(n)` distinct rows of the query, sorted, with no omitted row ranked above a returned one |
| Ranking.AllReturned | core/privacy.py:55-56 | when the limit is negative or at least the number of rows, every row of the query is returned, and nothing else |
| Database.Store.constructor | core/database.py:9-34 | a freshly initialised database has empty tables, AUTOINCREMENT at 1 and satisfies the store invariant |
| Auth.FullMatchIff | core/auth.py:35-45 | a greedy anchored class repetition `[c]{lo,hi}` matches the whole string exactly when its length is within bounds and every character is in the class |
| Auth.DollarMatchIff | core/auth.py:35-45 | Python's `^[c]{lo,hi}$` matches exactly the strings that match in full, or that match in full once a single final newline is removed |
| Auth.IsValidUsername | core/auth.py:35-37 | a valid username is 3 to 20 ASCII letters and digits, and nothing else (intended behaviour) |
| Auth.IsValidPin | core/auth.py:39-41 | a valid PIN is exactly six digits (intended behaviour) |
| Auth.IsValidSlug | core/auth.py:43-45 | a valid slug is 1 to 50 ASCII letters, digits and hyphens (intended behaviour) |
| Auth.IsValidUsernameAsWritten | core/auth.py:35-37 | the validator as written accepts a valid username, and also a valid username followed by one newline |
| Auth.IsValidPinAsWritten | core/auth.py:39-41 | the PIN validator as written also accepts six digits followed by one newline |
| Auth.IsValidSlugAsWritten | core/auth.py:43-45 | the slug validator as written also accepts a valid slug followed by one newline |
| Auth.TrailingNewlineAccepted | core/auth.py:35-45 | `"alice\n"`, `"123456\n"` and `"groceries\n"` pass the validators as written and fail the intended ones |
| Auth.LowerKeepsUsernameValidity | main_old.py:254-276 | a name is valid before `lower()` exactly when it is valid after, so validating the typed name and storing the lowered one stores a valid name |
| Auth.HashPin | core/auth.py:16-22 | a PIN hash is made under the fresh salt it was given, `verify_pin` accepts the PIN it was made from, and accepts no other PIN |
| Auth.VerifyPin | core/auth.py:20-22 | `checkpw` compares the salted PIN with the hashed secret; what it accepts is stated by `Auth.HashPin` |
| Auth.LockoutMinutes | core/auth.py:96-102 | the lockout is 5 minutes below 6 failures, 15 minutes for 6-7 failures and 60 minutes from 8 failures |
| Auth.CheckRateLimit | core/auth.py:76-104 | unknown users, users under four failures and users without a failure time may try; otherwise an attempt is allowed exactly when more than the lockout length has passed since the last failure |
| Auth.LockoutMonotone | core/auth.py:96-102 | the lockout length is between 5 and 60 minutes and never shrinks as failures grow |
| Auth.LockoutBoundary | core/auth.py:104 | an attempt at exactly the end of a lockout is refused and one a second later is allowed (the comparison is strict) |
| Auth.RecordFailure | core/api/__init__.py:89-97 | a failed attempt adds one to that user's counter and stamps the failure time; other users and the other columns are unchanged, and an unknown user changes nothing |
| Auth.RecordSuccess | core/api/__init__.py:99-106 | a successful attempt clears the counter and failure time and stores the address hash; the PIN hash, creation time and other users are unchanged |
| Auth.Login | core/api/__init__.py:80-111 | one login attempt: rate-limited exactly when the rate limit refuses, and then nothing changes; authenticated exactly when allowed, known and the PIN verifies, and then the counter and failure time are cleared and the address hash stored; otherwise one more failure stamped now; an unknown user's attempt changes nothing; no other user changes; only success lowers the counter |
| Auth.ThreeFailuresThenSuccess | core/api/__init__.py:80-111 | three wrong PINs then the right one logs in with the counter back at 0 |
| Auth.FourFailuresLockOut | core/auth.py:76-104 | after four wrong PINs even the right PIN is refused, changing nothing, for 300 seconds after the fourth failure, and accepted afterwards |
| Auth.SessionUser | core/auth.py:57-69 | the session cookie names a user exactly when it is present, non-empty, known and not yet expired, and then it names the session's user |
| Auth.AfterLookup | core/auth.py:57-69 | a lookup deletes at most the looked-up token, and only when it has expired; every other session is kept unchanged |
| Auth.SessionLifetime | core/auth.py:47-69 | a new session answers for its user up to and including 24 hours after creation and is evicted by the first lookup after that |
| Auth.LookupNoneIsStable | core/auth.py:57-69 | a lookup that found no user finds none when repeated |
| Auth.SessionTable.constructor | main_old.py:24 | the session table starts empty |
| Auth.SessionTable.CreateSession | core/auth.py:47-55 | the token is returned and mapped to the user with an expiry 24 hours from now, other sessions unchanged |
| Auth.SessionTable.GetSessionUser | core/auth.py:57-69 | answers `SessionUser` and leaves the table as `AfterLookup` |
| Auth.SessionTable.ClearSession | core/auth.py:71-74 | removes the token and nothing else; an unknown token leaves the table unchanged |
| Privacy.HashIp | core/privacy.py:9-11 | the address hash is SHA-256 of the address followed by PIN_SALT; its property is stated by `Privacy.HashIpDeterministic` |
| Privacy.HashIpDeterministic | core/privacy.py:9-11 | two addresses hash alike exactly when they are equal, so the same visitor is recognised and different visitors are not merged |
| Privacy.GetClientIp | core/privacy.py:13-18 | with a non-empty `X-Forwarded-For` the client is its first comma-separated field, stripped, so it holds no comma and has no whitespace at either end; otherwise the peer address (none when there is no peer) |
| Privacy.ClientIpIsFirstHop | core/privacy.py:13-18 | for a forwarded chain `" client , proxies…"` the client address found is exactly `client` |
| Privacy.StripPadded | core/privacy.py:17 | stripping whitespace padding on both sides gives back the padded address |
| Privacy.InsertOrIgnore | core/privacy.py:32-35 | after `INSERT OR IGNORE` the row is present, nothing was removed and nothing but that row was added |
| Privacy.InsertOrIgnoreIdempotent | core/privacy.py:32-35 | recording the same view twice is recording it once |
| Privacy.TrackListView | core/privacy.py:20-40 | answers True exactly when there is a client address and storage succeeds, and then the view (list, day, address hash) is recorded; otherwise the view log is unchanged |
| Privacy.ViewCount | core/privacy.py:49-53 | a list's count is the number of distinct address hashes among its views in the window; how it changes is stated by the three lemmas below |
| Privacy.RevisitNotCounted | core/privacy.py:49-53 | another view by a visitor already counted in the window leaves the list's view count unchanged |
| Privacy.NewVisitorCounted | core/privacy.py:49-53 | a view by a visitor not yet counted in the window raises the list's count by exactly one |
| Privacy.OtherViewsNotCounted | core/privacy.py:49-53 | views of other lists, or before the window, do not change a list's count |
| Privacy.GetTrendingLists | core/privacy.py:42-58 | the rows are the top `limit` (username, slug, title, distinct visitors) of public lists viewed in the window, by count descending |
| Privacy.TrendingRowsAreViewedPublicLists | core/privacy.py:42-58 | every trending row is a public list with at least one view in the window and carries that list's title and count, in non-increasing count order, at most `limit` rows |
| Privacy.TrendingExcludes | core/privacy.py:49-53 | a private list, or a list with no view in the window, never appears |
| Privacy.TrendingComplete | core/privacy.py:42-58 | with no limit or enough room, every public list viewed in the window appears |
| Api.CreateUser | core/api/__init__.py:39-72 | lower-cases the name, refuses an invalid name, then an invalid PIN, then a taken name, each changing nothing; otherwise stores exactly one new user with the PIN hash, the address hash and no failures |
| Api.AuthenticateUser | core/api/__init__.py:74-111 | the answer and the new users table are one step of `Auth.Login` on the lower-cased name: success, `RateLimitError` or `InvalidCredentialsError` |
| Api.GetUserInfo | core/api/__init__.py:113-129 | the lower-cased name and creation time of the user exactly when the user exists |
| Api.CreateList | core/api/__init__.py:133-168 | refuses an invalid slug, then a title outside 1-200 characters, then content outside 1-10000, then a duplicate (username, slug), each changing nothing; otherwise adds exactly that list under the next id and returns it |
| Api.GetList | core/api/__init__.py:170-192 | the list stored under the lower-cased name and the slug exactly when there is one, echoing the arguments as given |
| Api.UpdateList | core/api/__init__.py:194-219 | refuses a bad title or content, then a missing list, changing nothing; otherwise rewrites title, content, visibility and update time of that list alone |
| Api.DeleteList | core/api/__init__.py:221-234 | removes exactly that list when it exists, otherwise `ListNotFoundError` with nothing changed; its views are kept |
| Api.GetUserLists | core/api/__init__.py:236-263 | that user's lists (public ones only unless asked), all of them, most recently updated first |
| Api.UserListsExact | core/api/__init__.py:236-263 | every summary is a list of that user passing the visibility filter, with its title, ordered by update time, and every such list is present |
| Api.RecordListView | core/api/__init__.py:277-291 | answers True exactly when the list exists, is public, there is a client address and storage succeeds, and then exactly that view is recorded; otherwise nothing is |
| Plugins.Step | core/plugins.py:55-63 | one callback keeps every key; a dict result overwrites or adds exactly its keys and leaves every other key with its value (`dict.update`); a raised exception or a non-dict result changes nothing |
| Plugins.Emit | core/plugins.py:50-65 | the data after the event's callbacks have run in registration order; its properties are stated by the lemmas below |
| Plugins.EmitAppend | core/plugins.py:54-63 | a hook registered last runs exactly once, on the data all earlier hooks produced |
| Plugins.EmitConcat | core/plugins.py:39-65 | running two batches of hooks one after the other is running them as one batch |
| Plugins.EmitKeepsKeys | core/plugins.py:58-59 | hooks can add or overwrite keys of the event data but never remove one |
| Plugins.EmitUntouchedKey | core/plugins.py:54-63 | a key that no callback's dict carries keeps its original value through the whole emission |
| Plugins.SkippedHook | core/plugins.py:55-63 | a hook that raises or returns a non-dict or empty result has no effect |
| Plugins.LastHookWins | core/plugins.py:58-59 | a key returned by the last hook ends up with that hook's value |
| Plugins.EnabledIn | core/plugins.py:76-81 | a plugin with no or an empty configuration is disabled; otherwise its `enabled` entry, defaulting to False |
| Plugins.ConfigureDecidesEnabled | core/plugins.py:67-81 | configuring one plugin decides its own enablement and no other plugin's |
| Plugins.EventData | core/plugins.py:85-135 | the event dictionary holds the named arguments and the keyword arguments, each with its value |
| Plugins.BuilderData | core/plugins.py:85-135 | with no hook registered an event returns its own data, and in every case keeps all of its keys |
| Plugins.PluginRegistry.constructor | core/plugins.py:23-24 | the registry starts with no hooks and no configuration |
| Plugins.PluginRegistry.RegisterHook | core/plugins.py:26-37 | appends the callback to that event's hooks, so the new callback runs after all earlier ones |
| Plugins.PluginRegistry.EmitEvent | core/plugins.py:39-65 | returns the data after every hook of the event has run in registration order; with no hooks, the data itself |
| Plugins.PluginRegistry.ConfigurePlugin | core/plugins.py:67-70 | replaces that plugin's configuration |
| Plugins.PluginRegistry.GetPluginConfig | core/plugins.py:72-74 | the configuration exactly when the plugin was configured |
| Plugins.PluginRegistry.IsPluginEnabled | core/plugins.py:76-81 | answers `EnabledIn` on the current configuration |
| Plugins.PluginRegistry.OnUserCreated | core/plugins.py:85-91 | emits `user_created` with username, client address and the extra arguments |
| Plugins.PluginRegistry.OnUserLogin | core/plugins.py:93-99 | emits `user_login` with username, client address and the extra arguments |
| Plugins.PluginRegistry.OnListCreated | core/plugins.py:101-109 | emits `list_created` with username, slug, title, visibility and the extra arguments |
| Plugins.PluginRegistry.OnListViewed | core/plugins.py:111-118 | emits `list_viewed` with username, slug, viewer address and the extra arguments |
| Plugins.PluginRegistry.OnListUpdated | core/plugins.py:120-127 | emits `list_updated` with username, slug, title and the extra arguments |
| Plugins.PluginRegistry.OnListDeleted | core/plugins.py:129-135 | emits `list_deleted` with username and slug and the extra arguments |
| Plugins.PluginRegistry.EnhanceWebResponse | core/plugins.py:138-149 | emits `enhance_web_response` with the response type and the data |
| LegacyApp.Signup | main_old.py:251-280 | refuses an invalid typed name, then a bad PIN, then a mismatched confirmation, then a taken lower-cased name, each changing nothing; otherwise stores the lower-cased, valid, new name with the PIN hash and address hash, or fails without a client address having stored nothing |
| LegacyApp.Login | main_old.py:330-378 | on the lower-cased, stripped name: refuses an invalid name or PIN changing nothing; then one step of `Auth.Login`; success opens a 24-hour session under the returned token, and every failure leaves the sessions unchanged |
| LegacyApp.Logout | main_old.py:380-388 | clears the cookie's session when there is a non-empty cookie, and nothing else |
| LegacyApp.ViewList | main_old.py:642-694 | an invalid or unknown address is 404; a private list gives the notice and records nothing; a public one records the visitor's view for today (or nothing when storage fails) and shows the list; no client address is a 500 |
| LegacyApp.RequireOwner | main_old.py:552-554 | the owner check passes exactly when the cookie's live session belongs to that user; the lookup evicts at most an expired token |
| LegacyApp.CreateList | main_old.py:542-571 | invalid name or slug is 400 before any lookup; then not the owner is 401; then a taken slug is 400, each changing no list; otherwise adds exactly that list with stripped title and content under the next id |
| LegacyApp.UpdateList | main_old.py:818-845 | invalid input 400, not the owner 401, missing list 404, each changing no list; otherwise rewrites that list's stripped title and content, visibility and update time |
| LegacyApp.DeleteList | main_old.py:893-913 | invalid input 400, not the owner 401, missing list 404; otherwise removes that list only, keeping its views |
| LegacyApp.HomeTrendingKeys | main_old.py:124-134 | the home page's lists are the top ten public lists by distinct visitors in the last seven days, then by creation time |
| LegacyApp.HomeTrending | main_old.py:124-134 | one row per selected list |
| LegacyApp.HomeTrendingShape | main_old.py:124-134 | at most ten rows, each a public list with its title and count, ordered by count then newest first, and with ten or fewer public lists every one of them is shown |
| LegacyApp.UnviewedListOnlyOnHome | main_old.py:124-134 | a public list without views appears on the home page when there are at most ten public lists, but never in `get_trending_lists` |

## Findings

| source | as written | input that shows it | evidently intended | confidence | as-written member | corrected member |
|---|---|---|---|---|---|---|
| core/auth.py:35-45 | `re.match(r'^…$', s)`: in Python `$` also matches just before a final newline, so the validators accept one trailing `"\n"` | `"alice\n"` is a valid username, `"123456\n"` a valid PIN, `"groceries\n"` a valid slug | the whole string is 3-20 letters and digits, six digits, 1-50 slug characters (`\Z` or `re.fullmatch`) | high; not executed | Auth.IsValidUsernameAsWritten, Auth.IsValidPinAsWritten, Auth.IsValidSlugAsWritten, Auth.TrailingNewlineAccepted | Auth.IsValidUsername, Auth.IsValidPin, Auth.IsValidSlug |

The rest of the model uses the corrected validators.

## Left out

- Auth.HashPin, Auth.VerifyPin, Privacy.HashIp: bcrypt and SHA-256 are foreign code. A digest is represented by its input, so collisions and bcrypt's 72-byte input limit are not modelled.
- `PIN_SALT`: the model fixes the default value. Overriding it from the environment is configuration, not logic.
- Strings.Lower: only ASCII letters are lower-cased. Python's `lower()` also maps non-ASCII letters; the Kelvin sign K (U+212A), for example, becomes an ASCII `k`.
- Auth.IsValidPin: `\d` in a Python `str` pattern also accepts non-ASCII decimal digits. The model accepts only `0`-`9`.
- The `re` engine: only the anchored single-class repetitions the validators use are modelled.
- Clock precision and time zones. The model uses whole seconds, while the source compares microsecond timestamps. The SQL window uses `date('now')` in UTC, while views are stamped with the local `date.today()`; the model uses one day number for both.
- `get_trending_lists` with a negative `days`: the query text would then read `'--n days'`. `days` is a `nat` in the model.
- Concurrency: each handler is one atomic step. The check-then-insert races on usernames and slugs, and on double-counted failures, are not modelled.
- Cascading deletes: `delete_list` claims the views are cascade-deleted, but the schema declares no cascade and foreign keys are not enabled. The model keeps the views, as the code does.
- `get_trending_public_lists` (core/api/__init__.py:267-275): it only renames the columns of `get_trending_lists`, which is modelled as Privacy.GetTrendingLists.
- `anonymize_user_data` (core/privacy.py:60-68): its body is empty.
- Plugin hooks called from core/api: their result is discarded and `emit_event` never raises, so they cannot change an operation's outcome. The api operations do not call them in the model.
- Plugins: a callback is a function from the event data to a result (a value or an exception). Callbacks that mutate the shared `data` dictionary in place, and the key order of Python dictionaries, are not modelled. Logging is left out.
- `UnauthorizedError`: it is declared in core/api and never raised.
- main_old.py HTML: forms, page rendering, `make_links`, redirects, cookie attributes and the read-only pages (`user_profile`, `manage_lists`, the edit and delete forms, `status`) are left out. Their queries are the ones modelled by Api.GetUserLists.
- LegacyApp.HomeTrending: the home page's session lookup, which can evict an expired token, is left out; it is the same lookup as Auth.SessionTable.GetSessionUser.
- Database: the `created_at` default and `CURRENT_TIMESTAMP` are the `now` parameter.
- `hash_ip` and `get_client_ip` in core/auth.py:24-33, and the helpers in main_old.py:29-117, are copies of the functions modelled once in `Privacy` and `Auth`. The copies are identical, so each is modelled only once.
- Api.CreateUser: uses the corrected validators, so it refuses a name or PIN with one trailing newline (`"alice\n"`, `"123456\n"`) that core/auth.py:37,41 accepts (see "## Findings").
- Api.CreateList: uses the corrected slug validator, so it refuses a slug with one trailing newline (`"groceries\n"`) that core/auth.py:45 accepts.
- LegacyApp.Signup: uses the corrected validators, so it refuses a typed name or PIN with one trailing newline that main_old.py:48-54 accepts.
- LegacyApp.Login: uses the corrected PIN validator, so it refuses a PIN with one trailing newline that main_old.py:52-54 accepts. The name is stripped before validation, so there the newline cannot reach the validator.
- LegacyApp.ViewList: uses the corrected validators, so a slug with one trailing newline is a 404 here. main_old.py:646-647 lets it reach the lookup, and such a slug can have been stored by the as-written `create_list`.
- LegacyApp.CreateList: uses the corrected validators, so it refuses a slug with one trailing newline that main_old.py:56-58 accepts.
- LegacyApp.UpdateList: uses the corrected validators, so a slug with one trailing newline is a 400 here rather than passing validation.
- LegacyApp.DeleteList: uses the corrected validators, so a slug with one trailing newline is a 400 here rather than passing validation.
