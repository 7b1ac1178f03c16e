# SEVDO services in Dafny

SEVDO turns short token strings into web applications. This project models its Python services as pure Dafny functions over immutable data, and proves what they promise. The clock, the hash verifier, the random bytes and the database tables are passed in as parameters.

- **Backend translator** (`sevdo_backend/backend_compiler.py`). A list of one-letter tokens (`r`, `l`, `o`, `u`, `m`, `t`, `a`, `s`, `k`) becomes FastAPI endpoint source text. A reverse index of `@app.<verb>("<path>")` decorators reads the tokens back.
  - Modules `RouteTexts`, `BackendCompiler`, `BackendRoundTrip`.
  - The central result is the round trip `CodeToTokens(TokensToCode(ts)) == Dedup(Filter(IsKnown, ts))`.
  - It is proved for any texts of the right shape (`Texts.WellFormed`), and the nine real snippets are proved to have that shape.
  - Module `BackendService` adds the service around the translator: the token validator, the TTL cache and the batch endpoints.
- **Generated session helpers** (`sevdo_backend/output.py`, module `SessionAuth`). `Authorization` header parsing, which takes the Bearer form of section 2.1 of RFC 6750 and also a bare token, plus the session store effects of login, refresh, logout and revoke.
- **User-backend security.**
  - `CoreSecurity`, for `user_backend/app/core/security.py`: password strength, database tokens with delete-on-expiry, the brute-force lockout, role checks and the websocket token check.
  - `AppSecurity`, for `user_backend/app/security.py`: the keep-on-expiry variant and the "Admin" check.
  - `Base64Url`: the token text, the base64url encoding of section 5 of RFC 4648 with padding stripped, with a decoder proving it injective.
- **Request validators and endpoint rules.**
  - `Schemas`: the Pydantic validators.
  - `TokenEndpoints`: token combination check and suggestions.
  - `AuthEndpoints`: client IP, register, profile update, password change, logout, sessions and revoke.
  - `Files`: upload validation, collision-free naming, ownership, health status.
  - `Templates`: directory templates, preview, archive filters.
  - `TemplateEndpoints`: database templates.
- **Bookkeeping and string builders.**
  - `Websockets`: the connection manager.
  - `Ai`: the keyword assistant.
  - `Playground`: component naming, client pruning, rebuild count.
  - `ButtonPrefab`: the button JSX.
- **Generic helpers.** `Wrappers`, `Seqs`, `Sorting` (a stable insertion sort, standing in for Python's `sorted`), `Text` (ASCII versions of `lower`, `strip`, `split`, `title`, `capitalize`, `find`) and `UserModels`.

Observations the proofs make precise:

- **Expiry checks disagree at the boundary.** `core/security.py` deletes a token whose expiry has been reached (`expire_date <= now`). Its websocket check expires a token only when the expiry is strictly past. `CoreSecurity.ExpiryBoundary` shows the two differ exactly at `expire_date == now`.
- **Expired tokens: delete versus keep.** `app/security.py` refuses an expired token but keeps it, while the core variant deletes it (`AppSecurity.KeepVersusDelete`).
- **Admin type names differ.** The core admin check looks up the user type "admin"; the app check looks up "Admin".
- **`is_current` is never true.** The session listing marks a session current only when it equals `_current_token`, which nothing sets (`AuthEndpoints.NoCurrentSession`).
- **Redundant strength check.** After the registration schema has accepted a password, the endpoint's own strength check always passes (`AuthEndpoints.RegisterAfterSchema`).
- **Unreachable name message.** The name validator's message "Name must be at least 1 character after trimming" cannot be produced, because an empty stripped name has already been rejected.
- **Admin names are looser.** The admin name rule accepts names the user name rule refuses, e.g. "R2" (`Schemas.AdminNamesLooser`).
- **Exclusion checks every path part.** `should_exclude` tests every part of the path. Its glob-like patterns (`*.pyc`, `*.log`) are compared literally, so only the explicit `.log`, `.cache` and `.tmp` suffix checks catch log files.
- **A trailing slash keeps the suffix.** pathlib drops a trailing '/' before it takes the suffix, so an upload named `report.py/` passes the extension check as a `.py` file (`Files.DottedWithSeparator`).
- **No ownership check in the assistant chat.** `ai_chat` looks a conversation up by id alone, without checking its owner.

## Model

| member | source | states |
|---|---|---|
| RouteTexts.Token | sevdo_backend/backend_compiler.py:108-168 | every endpoint snippet is named by a single-character token |
| RouteTexts.RouteOf | sevdo_backend/backend_compiler.py:108-168 | looking a token up in `mapping` finds the route that token names, and nothing for any other string: the inverse of `Token` |
| RouteTexts.MappingWellFormed | sevdo_backend/backend_compiler.py:12-168 | the real `auth_imports` and nine snippets have the shape the reverse lookup relies on |
| RouteTexts.MappingDecoratorsShaped | sevdo_backend/backend_compiler.py:108-168 | the decorator verbs are lower-case words, paths use path characters only, and no two endpoints share a path |
| RouteTexts.MappingSnippetsShaped | sevdo_backend/backend_compiler.py:108-168 | no snippet holds an '@' outside its decorator line, and each body starts on a new line |
| RouteTexts.MappingPreambleShaped | sevdo_backend/backend_compiler.py:12-107 | the preamble's only '@' is the one in the database URL, directly before `{DB_HOST}` |
| RouteTexts.PathInjective | sevdo_backend/backend_compiler.py:108-168 | two endpoints with the same path are the same endpoint |
| BackendCompiler.KnownRoutes | sevdo_backend/backend_compiler.py:209-211 | the routes named by the known tokens, in input order with repeats: their tokens are exactly the input filtered to mapping keys |
| BackendCompiler.EmitBlocksKnown | sevdo_backend/backend_compiler.py:209-212 | the emitting loop writes `mapping[t] + "\n\n"` once per known token, in input order, repeating duplicates and skipping unknown tokens |
| BackendCompiler.AuthEndpointsAreKeys | sevdo_backend/backend_compiler.py:176 | `auth_endpoints` lists exactly the keys of `mapping` |
| BackendCompiler.NeedsAuthIffKnown | sevdo_backend/backend_compiler.py:207-208 | the token list meets `auth_endpoints` exactly when it holds a known token |
| BackendCompiler.TokensToCodeShape | sevdo_backend/backend_compiler.py:204-212 | the preamble is prepended iff imports are requested and some token is known; the rest is the known tokens' blocks |
| BackendCompiler.PyFind | sevdo_backend/backend_compiler.py:185-188 | `str.find` gives -1 or a position at or after the start where the pattern occurs |
| BackendCompiler.Upsert | sevdo_backend/backend_compiler.py:198 | dictionary assignment appends a new key and keeps the length for an existing one |
| BackendCompiler.ParseDecorator | sevdo_backend/backend_compiler.py:183-198 | from a snippet whose first '@' starts its decorator line, the index reads the key (upper-cased verb, path) |
| BackendCompiler.ParseLine | sevdo_backend/backend_compiler.py:191-198 | parsing a decorator line gives back its upper-cased verb and its path |
| BackendCompiler.SnippetKey | sevdo_backend/backend_compiler.py:183-198 | every well-formed snippet is indexed under its own (METHOD, path) key |
| BackendCompiler.KeyInjective | sevdo_backend/backend_compiler.py:181-202 | distinct endpoints have distinct index keys |
| BackendCompiler.BuildRouteIndexShape | sevdo_backend/backend_compiler.py:181-202 | the index has exactly nine entries, one per snippet in mapping order, with pairwise distinct keys, each leading back to its own endpoint |
| BackendCompiler.SigInjective | sevdo_backend/backend_compiler.py:222-226 | two endpoints with the same decorator line are the same endpoint |
| BackendCompiler.SigsAtSamePlace | sevdo_backend/backend_compiler.py:222-226 | no two distinct decorator lines can start at the same position of a text |
| BackendCompiler.PosInApart | sevdo_backend/backend_compiler.py:222-226 | the first-occurrence positions of different endpoints' decorators never coincide |
| BackendCompiler.CodeToRoutesSpec | sevdo_backend/backend_compiler.py:222-230 | `code_to_tokens` lists each endpoint whose decorator occurs, listed once, and no others, ordered by the decorator's first occurrence |
| BackendCompiler.SortedFoundSpec | sevdo_backend/backend_compiler.py:227-230 | sorting the found entries by position lists every found endpoint once, in strictly increasing position |
| BackendCompiler.FoundRoutes | sevdo_backend/backend_compiler.py:222-226 | the found list holds exactly the endpoints whose decorator occurs, each with its first position |
| BackendCompiler.ListsFoundListed | sevdo_backend/backend_compiler.py:222-230 | listing the found endpoints is the same as listing them by their decorator positions |
| BackendRoundTrip.FindInGenerated | sevdo_backend/backend_compiler.py:204-226 | in generated code an endpoint's decorator first occurs inside its first block, and is absent when the endpoint was not emitted |
| BackendRoundTrip.DedupListsFound | sevdo_backend/backend_compiler.py:204-230 | decoding generated code finds the emitted endpoints at first occurrence, in emission order |
| BackendRoundTrip.ListedUnique | sevdo_backend/backend_compiler.py:227-230 | there is only one list of the found endpoints ordered by position |
| BackendRoundTrip.TokensOfDedup | sevdo_backend/backend_compiler.py:229-230 | dropping repeated endpoints and dropping repeated tokens agree |
| BackendRoundTrip.RoundTrip | sevdo_backend/backend_compiler.py:204-230 | decoding the generated code gives the known input tokens, each once at its first occurrence, in order |
| BackendRoundTrip.RoundTripIdentity | sevdo_backend/backend_compiler.py:204-230 | on a list of distinct known tokens, the round trip is the identity |
| BackendRoundTrip.MappingRoundTrip | sevdo_backend/backend_compiler.py:108-230 | the round trip holds for the translator's actual texts |
| BackendService.ValidateTokens | sevdo_backend/backend_compiler.py:312-325 | accepted iff every token is a mapping key, and then passed on unchanged; otherwise 400 `unknown_tokens` listing the unknown tokens in input order, repeats included |
| BackendService.UnknownInInputOrder | sevdo_backend/backend_compiler.py:321 | the unknown tokens of two refused lists put together are the first list's followed by the second's |
| BackendService.ValidatePartitions | sevdo_backend/backend_compiler.py:312-325 | the listed unknown tokens and the known ones make up the input exactly |
| BackendService.ValidatedRoundTrip | sevdo_backend/backend_compiler.py:312-325 | once validation passes on a list without repeats, compiling and decompiling gives the list back |
| BackendService.NewCache | sevdo_backend/backend_compiler.py:328-332 | a new cache is empty and satisfies the cache invariant |
| BackendService.Get | sevdo_backend/backend_compiler.py:335-344 | a value comes back iff the key is present with expiry at or after now; an expired entry is dropped; otherwise the cache is unchanged |
| BackendService.Set | sevdo_backend/backend_compiler.py:346-351 | the key maps to the value with expiry now + ttl; when full, the oldest entry is evicted first; a key already present keeps its place in the insertion order, a new key goes last; the invariant holds after |
| BackendService.Evict | sevdo_backend/backend_compiler.py:348-350 | eviction removes exactly the oldest entry, the first of the insertion order, and the rest keep their order |
| BackendService.Drop | sevdo_backend/backend_compiler.py:341-342 | deleting an entry removes exactly that key, from the entries and from the insertion order, and keeps the invariant |
| BackendService.SetBounded | sevdo_backend/backend_compiler.py:346-351 | the cache never holds more than maxsize entries after a set |
| BackendService.SetThenGet | sevdo_backend/backend_compiler.py:335-351 | a value set is returned by a get within ttl, and that get changes nothing |
| BackendService.SetThenGetExpired | sevdo_backend/backend_compiler.py:335-351 | after ttl a get returns nothing and the entry is gone |
| BackendService.CountSucceededAppend | sevdo_backend/backend_compiler.py:548-557 | one more result adds one to the success count exactly when it succeeded |
| BackendService.RunBatch | sevdo_backend/backend_compiler.py:548-557 | result i describes job i, and ok + failed equals the number of jobs |
| BackendService.CompileBatch | sevdo_backend/backend_compiler.py:503-557 | job i gets its own id or `str(i)`, and succeeds iff its input reads, its tokens are known and its output directory exists |
| BackendService.DecompileBatch | sevdo_backend/backend_compiler.py:570-630 | job i gets its own id or `str(i)`, and succeeds iff its code reads and yields at least one token, which are returned |
| BackendService.DefaultIdsDistinct | sevdo_backend/backend_compiler.py:509 | default job ids of different jobs differ |
| SessionAuth.ExtractToken | sevdo_backend/output.py:70-78 | a missing or empty header is refused as missing; any token returned is non-empty and contains no whitespace |
| SessionAuth.ExtractBearer | sevdo_backend/output.py:73-75 | "bearer" in any case, a space and a token yields the token |
| SessionAuth.ExtractBare | sevdo_backend/output.py:76-77 | a single token is returned as it is |
| SessionAuth.ExtractRejects | sevdo_backend/output.py:73-78 | no parts, three or more parts, or two parts with another scheme are refused as invalid |
| SessionAuth.CurrentSession | sevdo_backend/output.py:80-86 | a session is accepted iff its id is stored and its expiry is not before now (expiry == now is accepted) |
| SessionAuth.FindUser | sevdo_backend/output.py:106 | the lookup returns a matching user, or nothing when none matches |
| SessionAuth.CurrentUser | sevdo_backend/output.py:88-93 | the user returned is the owner of the accepted session; a session failure is passed on |
| SessionAuth.Login | sevdo_backend/output.py:104-113 | succeeds iff the user exists and the password verifies, then adds exactly one session for that user expiring one hour later; failure is 401 and adds nothing |
| SessionAuth.Refresh | sevdo_backend/output.py:119-125 | the presented session is replaced by one with a new id, the same user and a fresh one-hour expiry |
| SessionAuth.Logout | sevdo_backend/output.py:127-131 | exactly the presented session is removed |
| SessionAuth.SessionsOf | sevdo_backend/output.py:133-136 | a pair (id, expiry) is listed iff a session with that id belongs to the user and has that expiry |
| SessionAuth.Revoke | sevdo_backend/output.py:138-145 | removes the session iff it is in the user's session listing; otherwise 404 and nothing changes |
| SessionAuth.RevokeKeepsOthers | sevdo_backend/output.py:138-145 | other users' sessions survive a revoke |
| SessionAuth.LoginThenSession | sevdo_backend/output.py:80-113 | a fresh login session is accepted exactly until one hour after login |
| CoreSecurity.AnyChar | user_backend/app/core/security.py:87-89 | `any(...)` is true iff some character is in the class |
| CoreSecurity.ValidatePasswordStrength | user_backend/app/core/security.py:76-98 | the checks run in order (empty, too short, too long, missing class); accepted iff 8 <= length <= 128 with an upper, a lower and a digit |
| CoreSecurity.GenerateSecureToken | user_backend/app/core/security.py:101-108 | the token uses only the base64url alphabet and has ceil(4n/3) characters, 43 for 32 bytes |
| CoreSecurity.TokenLifetime | user_backend/app/core/security.py:119-124 | a given minute count wins; otherwise the configured `ACCESS_TOKEN_EXPIRE_MINUTES` for access tokens and 30 days for the rest |
| CoreSecurity.CreateDatabaseToken | user_backend/app/core/security.py:110-153 | stores a new row for the user under the fresh token with expiry now + lifetime; a token already stored is a database error |
| CoreSecurity.VerifyTokenAccess | user_backend/app/core/security.py:155-202 | empty or unknown tokens are invalid; expiry at or before now is expired and deletes the token; otherwise the row is returned and the store kept |
| CoreSecurity.CreatedTokenLifetime | user_backend/app/core/security.py:110-202 | a created token verifies for its user exactly until its lifetime runs out, and is deleted once refused |
| CoreSecurity.CleanupExpiredTokens | user_backend/app/core/security.py:302-317 | exactly the unexpired tokens remain, unchanged |
| CoreSecurity.CleanupPreservesVerification | user_backend/app/core/security.py:155-202 | cleanup never changes whether a token verifies now or later |
| CoreSecurity.CurrentUser | user_backend/app/core/security.py:331-347 | the user is the verified token's owner; verification errors pass through; a missing owner is reported |
| CoreSecurity.After | user_backend/app/core/security.py:262-267 | the window keeps exactly the attempts newer than the cutoff |
| CoreSecurity.RecordFailedAttempt | user_backend/app/core/security.py:249-278 | the attempts are those in the window plus the new one; five or more lock until now + 15 minutes; other emails are untouched |
| CoreSecurity.IsAccountLocked | user_backend/app/core/security.py:280-294 | locked iff a lock exists and now <= its end; a lock that has run out is cleared; otherwise nothing changes |
| CoreSecurity.ClearFailedAttempts | user_backend/app/core/security.py:296-299 | the email's entry is removed and no other |
| CoreSecurity.AuthenticateUser | user_backend/app/core/security.py:205-247 | a locked account is refused with nothing recorded; otherwise success iff the user exists and the password verifies, clearing the entry, and failure records one attempt |
| CoreSecurity.FailedLoginRecordsOne | user_backend/app/core/security.py:205-278 | a failed login adds exactly one attempt for that email and changes no other email |
| CoreSecurity.RecordAllKeeps | user_backend/app/core/security.py:249-278 | failures that all fall in one window accumulate in order |
| CoreSecurity.FiveFailuresLock | user_backend/app/core/security.py:249-278 | five failures within 15 minutes lock the account for 15 minutes from the fifth |
| CoreSecurity.FifthLocks | user_backend/app/core/security.py:257-273 | with four recent attempts, one more failure locks the account |
| CoreSecurity.LockLasts | user_backend/app/core/security.py:249-294 | a lock holds exactly until its end, and is cleared when checked after it |
| CoreSecurity.CountRestartsAfterLock | user_backend/app/core/security.py:249-294 | after a lock has run out, the next failure starts a fresh count of one |
| CoreSecurity.LockCoversAttempts | user_backend/app/core/security.py:262-273 | a lock lasts at least until every attempt in it has left the window |
| CoreSecurity.RequireAdmin | user_backend/app/core/security.py:357-384 | a missing "admin" type is an authorization error; the user passes iff its type is the first "admin" type; otherwise insufficient permissions |
| CoreSecurity.RequireRole | user_backend/app/core/security.py:387-417 | the user passes iff its type exists and has the required name |
| CoreSecurity.WebsocketUser | user_backend/app/core/security.py:430-454 | unknown tokens are invalid; expiry strictly before now is expired and deletes the token; otherwise the owner is returned |
| CoreSecurity.ExpiryBoundary | user_backend/app/core/security.py:441-444 | the websocket check accepts everything the general check accepts, and more exactly when expiry == now |
| AppSecurity.TokenUrlsafe | user_backend/app/security.py:50-61 | the unpadded base64url text of the bytes, 43 characters for 32 bytes |
| AppSecurity.TokenUrlsafeInjective | user_backend/app/security.py:50-61 | different byte strings give different tokens |
| AppSecurity.VerifyTokenAccess | user_backend/app/security.py:77-105 | unknown is "Token not found", expiry at or before now "Token has expired", otherwise the row; nothing is deleted |
| AppSecurity.KeepVersusDelete | user_backend/app/security.py:77-105 | both variants accept the same tokens; an expired token stays here, while the core variant then reports it not found |
| AppSecurity.GetCurrentUser | user_backend/app/security.py:108-123 | the user is the verified token's owner; a missing owner is 401 "User not found" |
| AppSecurity.GetCurrentAdmin | user_backend/app/security.py:138-162 | no "Admin" type is 500; the user passes iff its type is the first "Admin" type; otherwise 403 |
| Base64Url.Sextet | user_backend/app/security.py:50-61 | every 6-bit value maps to a base64url alphabet character (Table 2 of RFC 4648) |
| Base64Url.SextetValue | user_backend/app/security.py:50-61 | each alphabet character decodes to the value that encodes to it |
| Base64Url.Padded | user_backend/app/core/security.py:105 | the padded encoding has four characters per started three-byte group |
| Base64Url.StripPadding | user_backend/app/core/security.py:105 | `rstrip('=')` removes exactly the trailing '=' characters |
| Base64Url.Unpadded | user_backend/app/security.py:50-61 | the unpadded encoding uses only the URL-safe alphabet |
| Base64Url.TokenTextUnpadded | user_backend/app/core/security.py:101-108 | stripping the padding from the padded encoding gives the unpadded encoding |
| Base64Url.UnpaddedLength | user_backend/app/core/security.py:101-108 | n bytes give ceil(4n/3) characters |
| Base64Url.DecodeUnpadded | user_backend/app/security.py:50-61 | decoding the unpadded text gives the bytes back |
| Base64Url.TokenTextInjective | user_backend/app/core/security.py:101-108 | different byte strings give different token texts |
| Base64Url.DefaultTokenLength | user_backend/app/core/security.py:101-108 | the default 32 bytes give 43 characters |
| Schemas.ValidateName | user_backend/app/api/v1/core/schemas.py:76-93 | accepted iff the stripped value is non-empty with only letters, whitespace, '-' and "'"; returns it stripped; each refusal has its message |
| Schemas.ValidateNameIdempotent | user_backend/app/api/v1/core/schemas.py:76-93 | validating an accepted name again gives the same result |
| Schemas.ValidateAdminName | user_backend/app/api/v1/core/schemas.py:445-452 | admin names are only stripped and must be non-empty; None passes |
| Schemas.AdminNamesLooser | user_backend/app/api/v1/core/schemas.py:445-452 | every accepted user name is an accepted admin name, but not the reverse ("R2") |
| Schemas.NormaliseEmail | user_backend/app/api/v1/core/schemas.py:95-104 | the stored email has no upper-case letter and no surrounding whitespace |
| Schemas.NormaliseEmailIdempotent | user_backend/app/api/v1/core/schemas.py:95-104 | normalising twice equals normalising once |
| Schemas.ValidateEmail | user_backend/app/api/v1/core/schemas.py:95-104 | accepted iff the normalised email has at most 254 characters |
| Schemas.ValidateEmailIdempotent | user_backend/app/api/v1/core/schemas.py:95-104 | an accepted email validates to itself |
| Schemas.ValidateOptional | user_backend/app/api/v1/core/schemas.py:186-213 | a None field passes untouched; a given field follows the registration rule |
| Schemas.ValidateRegisterPassword | user_backend/app/api/v1/core/schemas.py:121-149 | accepted iff 8 to 128 characters, all three classes, and not a weak password in lower case |
| Schemas.ValidateNewPassword | user_backend/app/api/v1/core/schemas.py:280-300 | accepted iff 8 to 128 characters with all three classes; messages carry the field's subject |
| Schemas.PasswordRulesCompared | user_backend/app/api/v1/core/schemas.py:121-149 | registration = new-password rule plus the weak list; the new-password rule equals the service's strength check |
| Schemas.ConfirmMatches | user_backend/app/api/v1/core/schemas.py:151-156 | the confirmation fails iff the password validated and differs from it |
| Schemas.ValidateUserType | user_backend/app/api/v1/core/schemas.py:158-163 | accepted iff absent or 1, 2 or 3 |
| Schemas.Constrained | user_backend/app/api/v1/core/schemas.py:66-71 | a string field is refused with pydantic's "at least" / "at most" message when its raw length is outside the bounds, and otherwise gets its validator's answer |
| Schemas.NameField | user_backend/app/api/v1/core/schemas.py:66-93 | a name is accepted iff its raw length is at most 100 and its stripped form is non-empty and matches the name pattern; a longer one is refused with "at most 100 characters" |
| Schemas.EmailField | user_backend/app/api/v1/core/schemas.py:72-104 | an email is accepted iff it is an address and its normalised form has at most 254 characters; a non-address gets the EmailStr message |
| Schemas.RegisterPasswordField | user_backend/app/api/v1/core/schemas.py:110-115 | the 8..128 field bounds refuse nothing the password validator accepts; out-of-range lengths get pydantic's messages |
| Schemas.ValidateRegistration | user_backend/app/api/v1/core/schemas.py:66-163 | the form is accepted iff each name is at most 100 characters and valid after stripping, the email is an address of at most 254 characters once normalised, and the password and type rules hold; it then carries the stripped names and normalised email; an over-long first name or a non-address is refused with its message |
| Schemas.Message | user_backend/app/api/v1/core/schemas.py:76-163 | a rule contributes a message iff it fails |
| TokenEndpoints.Pairs | user_backend/app/api/v1/core/endpoints/tokens.py:133-144 | pairs a token with each listed dependency or conflict, in order |
| TokenEndpoints.Unknown | user_backend/app/api/v1/core/endpoints/tokens.py:124-126 | exactly the input tokens without a definition |
| TokenEndpoints.MissingPairs | user_backend/app/api/v1/core/endpoints/tokens.py:133-139 | exactly the (token, dependency) pairs whose dependency is absent from the input |
| TokenEndpoints.ConflictPairs | user_backend/app/api/v1/core/endpoints/tokens.py:141-144 | exactly the (token, conflict) pairs whose conflict is in the input |
| TokenEndpoints.ValidateTokens | user_backend/app/api/v1/core/endpoints/tokens.py:102-155 | one error per unknown token in order; the missing dependencies as a set; one suggestion for every occurrence of a token that requires a missing dependency, per missing dependency; one message per conflict; no warnings; valid iff all known and conflict-free |
| TokenEndpoints.DependenciesNeverInvalidate | user_backend/app/api/v1/core/endpoints/tokens.py:146 | validity does not depend on the dependency lists |
| TokenEndpoints.KeywordTokensFrom | user_backend/app/api/v1/core/endpoints/tokens.py:184-187 | the union of the tokens of every keyword occurring in the text |
| TokenEndpoints.KeywordTokens | user_backend/app/api/v1/core/endpoints/tokens.py:172-187 | the union of the mapped tokens for keywords in the lower-cased description; none without a description |
| TokenEndpoints.KeywordTokensBounded | user_backend/app/api/v1/core/endpoints/tokens.py:172-187 | keyword suggestions are always among l, r, o, m, u, s, t |
| TokenEndpoints.SuggestTokens | user_backend/app/api/v1/core/endpoints/tokens.py:159-214 | at most ten, no duplicates, none already present, each from a keyword or a popular combination; with ten candidates or fewer, all of them |
| AuthEndpoints.ClientIp | user_backend/app/api/v1/core/endpoints/auth.py:38-48 | a forwarded header gives exactly its text before the first comma, stripped; otherwise the real IP, then the client host, then "unknown" |
| AuthEndpoints.ClientIpSingleHop | user_backend/app/api/v1/core/endpoints/auth.py:40-42 | a header with a single hop gives that hop, stripped |
| AuthEndpoints.ClientIpFirstHop | user_backend/app/api/v1/core/endpoints/auth.py:40-42 | the first comma-separated entry, stripped, is the answer |
| AuthEndpoints.Login | user_backend/app/api/v1/core/endpoints/auth.py:52-108 | the lockout outcome is kept; success issues a fresh 43-character bearer token stored for the user; `expires_in` is the configured access minutes times 60, and the row expires that many seconds after now |
| AuthEndpoints.LoginTokenLasts | user_backend/app/api/v1/core/endpoints/auth.py:52-108 | the issued token verifies for that user for exactly `expires_in` seconds |
| AuthEndpoints.TypeOrDefault | user_backend/app/api/v1/core/endpoints/auth.py:159 | the user type defaults to 1 |
| AuthEndpoints.Register | user_backend/app/api/v1/core/endpoints/auth.py:133-186 | an existing email is refused first; a password the strength check refuses ends as DatabaseError("User registration failed"); the new user gets stripped names, the normalised email, the hashed password and the type or 1 |
| AuthEndpoints.RegisterAfterSchema | user_backend/app/api/v1/core/endpoints/auth.py:133-160 | a form the schema accepted, with a fresh email, always registers |
| AuthEndpoints.UpdateProfile | user_backend/app/api/v1/core/endpoints/auth.py:239-260 | fails only for a new, different email another user holds; only given fields change, and nothing else about the user |
| AuthEndpoints.UpdateNothing | user_backend/app/api/v1/core/endpoints/auth.py:239-260 | an empty update leaves the user as it was |
| AuthEndpoints.UpdateProfileIdempotent | user_backend/app/api/v1/core/endpoints/auth.py:239-260 | applying the same update twice equals applying it once |
| AuthEndpoints.ChangePassword | user_backend/app/api/v1/core/endpoints/auth.py:289-330 | a wrong current password is refused; success iff it verifies and the new one is strong, replacing only the hash |
| AuthEndpoints.Logout | user_backend/app/api/v1/core/endpoints/auth.py:359-380 | exactly the presented token is removed once it verifies |
| AuthEndpoints.LoggedOutTokenRefused | user_backend/app/api/v1/core/endpoints/auth.py:359-380 | after logout the token is not found |
| AuthEndpoints.TokensOf | user_backend/app/api/v1/core/endpoints/auth.py:426 | exactly the user's tokens |
| AuthEndpoints.LogoutAll | user_backend/app/api/v1/core/endpoints/auth.py:405-441 | every token of the user goes, all others stay unchanged, and the message counts the removed ones |
| AuthEndpoints.RemovedCount | user_backend/app/api/v1/core/endpoints/auth.py:426-441 | the reported count is the number of tokens removed |
| AuthEndpoints.LogoutAllScoped | user_backend/app/api/v1/core/endpoints/auth.py:426-441 | afterwards the user has no tokens, and other users' tokens verify as before |
| AuthEndpoints.TokenPreview | user_backend/app/api/v1/core/endpoints/auth.py:481 | the first eight characters of the token (or all of a shorter one) followed by "..." |
| AuthEndpoints.Sessions | user_backend/app/api/v1/core/endpoints/auth.py:456-490 | every entry comes from a token of the user, and every token of the user gives its entry: its id, preview, expiry and whether it is the current token |
| AuthEndpoints.NoCurrentSession | user_backend/app/api/v1/core/endpoints/auth.py:484-485 | with no current token known, no session is marked current |
| AuthEndpoints.Owned | user_backend/app/api/v1/core/endpoints/auth.py:525-533 | exactly the tokens with that id belonging to the user |
| AuthEndpoints.RevokeSession | user_backend/app/api/v1/core/endpoints/auth.py:503-541 | succeeds iff a token with that id belongs to the user, and deletes exactly those; otherwise a validation error and nothing changes |
| AuthEndpoints.RevokeRemovesOne | user_backend/app/api/v1/core/endpoints/auth.py:525-541 | with unique row ids, a revoke removes exactly one of the user's tokens |
| Files.LastIndex | user_backend/app/api/v1/core/endpoints/files.py:105-106 | the last position of a character, or none when it does not occur |
| Files.BaseName | user_backend/app/api/v1/core/endpoints/files.py:105-106 | the name is the last part of the path that is neither empty nor "."; it holds no '/', is never ".", and a path without '/' is its own name |
| Files.TrailingSeparator | user_backend/app/api/v1/core/endpoints/files.py:59 | a '/' at the end of a path changes neither its name, nor its stem, nor its suffix |
| Files.TrailingCurrentDir | user_backend/app/api/v1/core/endpoints/files.py:105-106 | a "/." at the end of a path does not change its name |
| Files.NameUnder | user_backend/app/api/v1/core/endpoints/files.py:105-106 | a plain name under a directory is the name of the joined path |
| Files.DottedWithSeparator | user_backend/app/api/v1/core/endpoints/files.py:59-64 | `stem.ext/` has suffix `.ext`, and passes the extension check when `.ext` is allowed |
| Files.Suffix | user_backend/app/api/v1/core/endpoints/files.py:59 | `Path.suffix` is empty or a dot followed by a non-empty dot-free tail |
| Files.Stem | user_backend/app/api/v1/core/endpoints/files.py:105 | `Path.stem` holds no '/' |
| Files.StemSuffix | user_backend/app/api/v1/core/endpoints/files.py:105-106 | stem and suffix together are the base name |
| Files.NameSplits | user_backend/app/api/v1/core/endpoints/files.py:105-106 | a name is its stem followed by its suffix |
| Files.SplitName | user_backend/app/api/v1/core/endpoints/files.py:105-106 | a base name of the form stem + ".ext" splits back into that stem and suffix |
| Files.ValidateFile | user_backend/app/api/v1/core/endpoints/files.py:51-72 | no filename is 400; a lower-cased suffix outside the allowed set is 400 with the allowed extensions listed once each; a known size over 50 MB is 413; an unknown size passes |
| Files.SuffixOfDotted | user_backend/app/api/v1/core/endpoints/files.py:59 | `name.ext` has suffix `.ext` and stem `name` |
| Files.DotFileRefused | user_backend/app/api/v1/core/endpoints/files.py:59-64 | a dot file has no suffix and is refused |
| Files.CandidateInjective | user_backend/app/api/v1/core/endpoints/files.py:111 | different counters give different candidate names |
| Files.FreeName | user_backend/app/api/v1/core/endpoints/files.py:105-113 | keeps the name pathlib gives `user_dir / filename` when it is free, else `stem_k.ext` with the smallest k >= 1 not taken; never a taken name |
| Files.FirstFreeCandidate | user_backend/app/api/v1/core/endpoints/files.py:107-113 | the first free candidate, with every smaller counter taken |
| Files.NotTried | user_backend/app/api/v1/core/endpoints/files.py:107-113 | a candidate is not among those tried before it |
| Files.OwnedProject | user_backend/app/api/v1/core/endpoints/files.py:85-94 | found iff the project exists and belongs to the user; otherwise 404 |
| Files.OwnedFile | user_backend/app/api/v1/core/endpoints/files.py:181-190 | found iff the file exists in a project of the user; otherwise 404 |
| Files.DeleteFile | user_backend/app/api/v1/core/endpoints/files.py:206-233 | only the user's own file is removed; otherwise 404 |
| Files.DeleteSparesOthers | user_backend/app/api/v1/core/endpoints/files.py:206-233 | files of other users are never deleted |
| Files.UploadName | user_backend/app/api/v1/core/endpoints/files.py:76-113 | project ownership, then file validation, then a name not already taken: the pathlib name of the upload, which is what gets stored, or a numbered candidate |
| Files.MemoryStatus | user_backend/app/api/v1/core/endpoints/files.py:326-329 | below 80% healthy, 80 to 95% degraded, above 95% down |
| Files.Overall | user_backend/app/api/v1/core/endpoints/files.py:339-344 | the overall status is the worst service status, or healthy when there is none |
| Files.OverallMonotone | user_backend/app/api/v1/core/endpoints/files.py:339-344 | adding services never improves the overall status, which is the worse of the two parts |
| Files.SystemStatus | user_backend/app/api/v1/core/endpoints/files.py:286-352 | down iff the database is down or memory is above 95%; healthy iff everything is |
| Templates.DisplayNameTitled | user_backend/app/api/v1/templates.py:59 | a display name is already title-cased: `title()` leaves it unchanged |
| Templates.DisplayName | user_backend/app/api/v1/templates.py:59 | the directory name with '_' read as a space, then `title()`: a letter after a letter is lower-cased, every other character upper-cased |
| Templates.Fallback | user_backend/app/api/v1/templates.py:56-70 | id = directory name, display name, description = name + " template", and the default fields |
| Templates.Metadata | user_backend/app/api/v1/templates.py:44-70 | a metadata file is used, its absence gives the fallback, an unreadable one gives none |
| Templates.Scan | user_backend/app/api/v1/templates.py:92-109 | every directory not starting with '.' with usable metadata passing the filters is kept, and every listed template is the metadata of such an entry |
| Templates.ScanOne | user_backend/app/api/v1/templates.py:92-109 | one entry gives its metadata exactly when the scan keeps it, else nothing |
| Templates.ScanAppend | user_backend/app/api/v1/templates.py:91-92 | the scan follows the directory order: scanning two runs of entries gives the two scans in turn |
| Templates.ScanSkips | user_backend/app/api/v1/templates.py:92-97 | a plain file, a directory starting with '.' or unreadable metadata adds nothing, wherever it stands |
| Sorting.SortBy | user_backend/app/api/v1/templates.py:121 | `list.sort` gives a key-ordered permutation of its input |
| Sorting.SortByStable | user_backend/app/api/v1/templates.py:121 | the sort is stable: elements with equal keys keep their input order |
| Sorting.SortedPage | user_backend/app/api/v1/templates.py:121-126 | the page is `sorted[offset:offset + limit]`, of length min(limit, n - offset) or 0, key-ordered, drawn from the input; the first page holds keys no larger than any element it leaves out, and all of the input when it fits |
| Sorting.DescendingPage | user_backend/app/api/v1/templates.py:121-126 | the same window of the `reverse=True` order: values descend, and the first page leaves out no value above one it lists |
| Sorting.FirstPageLeads | user_backend/app/api/v1/templates.py:121-126 | the first non-empty page opens with a smallest key of the whole input |
| Sorting.PagesTile | user_backend/app/api/v1/templates.py:123-126 | the page at `offset` of `limit` followed by the page at `offset + limit` of `more` is the page at `offset` of `limit + more` |
| Templates.ListTemplates | user_backend/app/api/v1/templates.py:74-126 | exactly `sorted(scanned, usage, reverse)[offset:offset + limit]`, of length min(limit, n - offset) or 0, all passing the filters; on the first page no template left out is used more than one listed; nothing when the directory is missing |
| Templates.MostUsedFirst | user_backend/app/api/v1/templates.py:121-126 | a non-empty first page opens with a template used at least as often as any scanned one |
| Templates.NoFiltersListAll | user_backend/app/api/v1/templates.py:74-126 | without filters and with room enough, every visible template is listed |
| Templates.FirstSlot | user_backend/app/api/v1/templates.py:152-200 | the first matching text file fills the slot; none leaves it empty |
| Templates.PreviewSlots | user_backend/app/api/v1/templates.py:173-200 | the frontend slot takes the first frontend file; the backend slot the first backend file not classed as frontend |
| Templates.Preview | user_backend/app/api/v1/templates.py:210-236 | a slot left empty by the first pass is filled by the fallback rule |
| Templates.FrontendNotBackend | user_backend/app/api/v1/templates.py:178-200 | the backend slot never holds a file classed as frontend |
| Templates.ShouldExclude | user_backend/app/api/v1/templates.py:413-439 | excluded iff some path part is a pattern or ends in .log, .cache or .tmp, or the size exceeds 10 MB |
| Templates.ExclusionInherited | user_backend/app/api/v1/templates.py:413-439 | everything under an excluded directory is excluded |
| Templates.Included | user_backend/app/api/v1/templates.py:516-530 | only docs (when not wanted) and config files (when not wanted) are dropped |
| Templates.IncludeEverything | user_backend/app/api/v1/templates.py:516-530 | with both options on, nothing is dropped |
| TemplateEndpoints.ListTemplates | user_backend/app/api/v1/core/endpoints/templates.py:29-50 | exactly the `offset`/`limit` window of the public templates matching the filters in descending usage, of length min(limit, n - offset) or 0; on the first page no matching template left out is used more than one listed |
| TemplateEndpoints.MostUsedFirst | user_backend/app/api/v1/core/endpoints/templates.py:45-47 | a non-empty first page opens with a matching template used at least as often as any other matching one |
| TemplateEndpoints.CategoryIgnored | user_backend/app/api/v1/core/endpoints/templates.py:29-50 | the category parameter changes nothing |
| TemplateEndpoints.PrivateNeverListed | user_backend/app/api/v1/core/endpoints/templates.py:38-43 | a private template is never listed |
| TemplateEndpoints.DescriptionOr | user_backend/app/api/v1/core/endpoints/templates.py:94 | a given non-empty description wins, otherwise the template's |
| TemplateEndpoints.MergedConfig | user_backend/app/api/v1/core/endpoints/templates.py:88-90 | the custom values override key by key, the other template keys stay |
| TemplateEndpoints.UseTemplate | user_backend/app/api/v1/core/endpoints/templates.py:71-109 | 404 iff no template has the id; the project copies the template's fields for the user; only that row's usage grows by one |
| TemplateEndpoints.Bump | user_backend/app/api/v1/core/endpoints/templates.py:104 | exactly the rows with the id gain one use; the id being the primary key, that is the one row found |
| TemplateEndpoints.UsesCounted | user_backend/app/api/v1/core/endpoints/templates.py:71-109 | two uses add two, and the template's config and tokens never change |
| Websockets.Connect | user_backend/app/api/v1/core/endpoints/websockets.py:33-42 | the socket joins the end of the user's list, created if absent; everything else unchanged |
| Websockets.Disconnect | user_backend/app/api/v1/core/endpoints/websockets.py:44-58 | one occurrence leaves the user's list and every project list, and each project list holding the socket loses exactly its first occurrence, the others keeping their order; emptied project lists stay |
| Websockets.DropUserSocket | user_backend/app/api/v1/core/endpoints/websockets.py:46-51 | an absent user is untouched; an emptied list removes the user |
| Websockets.ConnectToProject | user_backend/app/api/v1/core/endpoints/websockets.py:60-65 | the socket joins the end of the project's list, duplicates allowed |
| Websockets.EmptyValid | user_backend/app/api/v1/core/endpoints/websockets.py:29-31 | the empty manager maps no user to an empty list |
| Websockets.ConnectValid | user_backend/app/api/v1/core/endpoints/websockets.py:33-42 | connect keeps every user list non-empty |
| Websockets.DisconnectValid | user_backend/app/api/v1/core/endpoints/websockets.py:44-58 | disconnect keeps every user list non-empty |
| Websockets.ConnectToProjectValid | user_backend/app/api/v1/core/endpoints/websockets.py:60-65 | joining a project keeps every user list non-empty |
| Websockets.ConnectDisconnect | user_backend/app/api/v1/core/endpoints/websockets.py:33-58 | disconnecting a socket just connected gives the manager back |
| Seqs.RemoveFirstCuts | user_backend/app/api/v1/core/endpoints/websockets.py:54-56 | `list.remove(x)` cuts out exactly the first occurrence of x and keeps the rest in order |
| Websockets.RemoveFirstAppended | user_backend/app/api/v1/core/endpoints/websockets.py:47-48 | removing a fresh appended socket restores the list |
| Websockets.DisconnectKeepsOthers | user_backend/app/api/v1/core/endpoints/websockets.py:46-51 | a user with another socket stays registered |
| Ai.SuggestedTokens | user_backend/app/api/v1/core/endpoints/ai.py:36-47 | each keyword group is included iff its keyword occurs; always within {l,r,o,m,u,s,t,a} |
| Ai.LeadingWords | user_backend/app/api/v1/core/endpoints/ai.py:50 | the first at most three words of the description |
| Ai.CapitalizeAll | user_backend/app/api/v1/core/endpoints/ai.py:51 | each word capitalised |
| Ai.SuggestedName | user_backend/app/api/v1/core/endpoints/ai.py:50-51 | ends in " App", and its words are the first three words capitalised |
| Ai.FromDescription | user_backend/app/api/v1/core/endpoints/ai.py:27-60 | keeps the description, suggests exactly the keyword-selected tokens, names it from the first three words plus " App", defaults the type to web app |
| Ai.BlankName | user_backend/app/api/v1/core/endpoints/ai.py:50-51 | a blank description gives the name " App" |
| Ai.ChatTokens | user_backend/app/api/v1/core/endpoints/ai.py:106-109 | ["l", "r"] iff the message mentions login, else none |
| Ai.AdviceDiffers | user_backend/app/api/v1/core/endpoints/ai.py:109-111 | no reply ends with both the login advice and the request for more details |
| Ai.ChatReply | user_backend/app/api/v1/core/endpoints/ai.py:102-111 | the reply echoes the lower-cased request, and closes with the login advice exactly when the lower-cased request mentions "login", otherwise with the request for more details; between them stands the fixed sentence proposing tokens, and nothing else |
| Ai.Chat | user_backend/app/api/v1/core/endpoints/ai.py:64-133 | an unknown nonzero id is 404; otherwise the user message and then `ChatReply` of the message, which is also the response, are appended, other conversations unchanged |
| Ai.ChatLogin | user_backend/app/api/v1/core/endpoints/ai.py:93-121 | a login chat always suggests login and register, in order, and its reply closes with the login advice |
| Playground.Underscored | playground/playground_server.py:74 | every space and hyphen becomes an underscore, nothing else changes |
| Playground.Concat | playground/playground_server.py:74 | joining separator-free words gives a separator-free name |
| Playground.StemWords | playground/playground_server.py:74 | the pieces are non-empty and separator-free, and run together they are the stem without its separators |
| Playground.TitleAll | playground/playground_server.py:74 | every word title-cased, still separator-free |
| Playground.ConcatSplit | playground/playground_server.py:74 | the pieces of a split on '_' run together are the text without its underscores |
| Playground.LowerComponent | playground/playground_server.py:74 | title-casing the words changes the joined name only in case |
| Playground.ComponentOfStem | playground/playground_server.py:74 | the stem's words, each title-cased, run together and followed by "Component"; it holds no space, '-' or '_', and up to case is the stem without its separators followed by "Component" |
| Playground.WordsCapitalised | playground/playground_server.py:74 | joining title-cased words puts each word's upper-cased first letter where that word begins |
| Playground.ComponentWordsUpper | playground/playground_server.py:74 | in the component name every word of the stem starts with its first letter upper-cased |
| Playground.ComponentName | playground/playground_server.py:74 | the file stem's words, each title-cased, run together and followed by "Component"; it holds no separator, and up to case is the file stem without its separators followed by "Component" |
| Playground.SeparatorsInterchangeable | playground/playground_server.py:74 | stems differing only in which separator they use give the same component |
| Playground.OutputPath | playground/playground_server.py:84 | the output file is named stem + ".jsx" |
| Playground.OutputNaming | playground/playground_server.py:84 | the output keeps the input's stem and has the ".jsx" suffix |
| Playground.CompileAll | playground/playground_server.py:94-101 | the number of inputs whose compile succeeded |
| Playground.RemoveFailed | playground/playground_server.py:103-117 | removing each failed connection once leaves exactly the others, in order |
| Playground.NotifyClients | playground/playground_server.py:103-117 | exactly the connections whose send failed are removed, the rest kept in order |
| ButtonPrefab.Label | sevdo_frontend/prefabs/button_component.py:5 | `text`, else `label`, else "Click" |
| ButtonPrefab.SizeClasses | sevdo_frontend/prefabs/button_component.py:39-44 | sm and lg have their own classes; any other size gets the md classes |
| ButtonPrefab.Palette | sevdo_frontend/prefabs/button_component.py:46-51 | secondary is gray, danger red, anything else blue |
| ButtonPrefab.ClassName | sevdo_frontend/prefabs/button_component.py:53-56 | palette, the fixed classes and the size classes, then the extra classes only when non-empty |
| ButtonPrefab.Handler | sevdo_frontend/prefabs/button_component.py:58 | the onClick attribute appears iff `onClick` is truthy |
| ButtonPrefab.Element | sevdo_frontend/prefabs/button_component.py:60-62 | a link element iff asked for, otherwise a button: exactly the opening tag with the class list (and href), then the handler, the label and the closing tag, nothing between |
| ButtonPrefab.Render | sevdo_frontend/prefabs/button_component.py:5-62 | an `<a>` with the href iff `href` is truthy, otherwise a `<button>`: exactly the opening tag, the handler, the label and the closing tag |

## Left out

- Framework plumbing is not modelled: FastAPI routing, dependency injection, SQLAlchemy sessions and Pydantic machinery. Tables are sequences or maps, and lookups are functions over them.
- SQL leaves the order of rows with equal usage counts open; the model uses table order, which is one order the database may choose.
- `.limit(n).offset(k)` is taken as SQL evaluates it: skip k rows, then keep at most n.
- bcrypt hashing and verification are function parameters (`hash`, `verify`).
- Randomness is a parameter: token entropy bytes, new session and row ids, and conversation ids.
- The clock is a parameter `now`, in whole seconds.
- File reads and writes, output-directory creation and `_read_text_with_limits` are parameters or left out. The batch endpoints take the read result as a function.
- The sha256 cache keys and `MAPPING_VERSION` are left out, and so are the cache wiring of the compile and decompile endpoints and `_write_if_changed`.
- BackendService.CompileBatch: the cache, the thread pool and the file write are not modelled; jobs run in order, which gives the same per-index results the collecting loop produces.
- Templates.ListTemplates: directory reads and JSON parsing are replaced by entries that carry parsed, missing or unreadable metadata.
- Archive creation, streaming, temp files and `Path.resolve()` containment are left out; only the `should_exclude` and include rules are modelled.
- WebSocket accept, send, receive and logging are left out, as are the other websocket endpoints and the send and broadcast helpers.
- The playground's file watcher and the DSL compiler are left out. Whether a compile or a send succeeds is a parameter.
- The button prefab is modelled with empty `args`; nested arguments need `parse_dsl`, which is not part of this model. The other prefabs are fixed text around `parse_dsl` and are left out.
- psutil metrics and the database and storage probes of `system_status` are parameters (up or down, memory percent).
- The `ProjectType` enum in models.py is not part of this model; only its default, web app, is named.
- Python's Unicode behaviour of `isupper`, `title`, `capitalize`, `lower` and `\s` is restricted to ASCII.
- TokenEndpoints.SuggestTokens: the order of Python's `list(set(...))` is given as the parameter `listing`; with more than ten candidates the contract says which tokens may appear, not which ten do.
- TokenEndpoints.ValidateTokens: `missing_dependencies` comes from a Python set, so it is modelled as a set and its list order is not stated.
- Ai.SuggestedTokens: `list(set(...))` is modelled as a set; its list order is not stated.
- CoreSecurity.TokenLifetime: `ACCESS_TOKEN_EXPIRE_MINUTES` is a required setting, so it is the parameter `accessMinutes`; the fallback of 30 minutes in security.py never applies and is not modelled, and neither is reading the setting from the environment.
- Ai.Chat: timestamps, the confidence value and the fixed reasoning texts are left out, and conversation ownership is not checked, as in the source.
- AuthEndpoints.Register: the database insert is reduced to appending the new user; a failure of the insert itself, which also ends in "User registration failed", is not modelled.
- The core exceptions module (`user_backend/app/core/exceptions.py`) is not part of this model. The `ValidationError` that `register` re-raises is that module's own exception, imported at auth.py:30, not pydantic's. `InvalidCredentialsError` is taken as not being a subclass of it, so `register` turns a refused password into "User registration failed".
- Schemas.EmailField: the address syntax of `EmailStr` is the parameter `isEmail`; the `email-validator` package's normalisation of the address and its reason texts are not modelled, and every refusal carries the one message "value is not a valid email address".
- SessionAuth.SessionsOf: expiries are whole seconds; their `isoformat()` text is not modelled.
- AuthEndpoints.Sessions: `created_at` is not carried, and the list follows the table order, which the query does not fix.
- TemplateEndpoints.ListTemplates: `limit` and `offset` are taken as non-negative; a negative value, which the endpoint passes to the database unchecked and which makes the query fail there, is not modelled.
- Files.UploadName: `taken` is the set of names already in the user's project directory; a filename with a directory part or an absolute path, which `user_dir / filename` resolves to a different directory, is not modelled beyond taking its last part.
- Concurrency is not modelled: every operation runs to completion on its own. The awaits inside `notify_clients`' loop over the shared subscriber list, the `/ws` handler removing from that list meanwhile, the watcher thread's `asyncio.run`, and the await of `accept` in the connection manager's `connect` could interleave in the source; the model takes one order.
- Other endpoints are not part of this model: token listing, search and analytics; popular templates; template files and template health; system health, logs, error reports, feedback and metrics; the admin user-creation password rule.
