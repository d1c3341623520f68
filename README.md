# resty-gatekeeper: login and trusted-identity model

This project models the two pieces of logic in resty-gatekeeper's services.

- **Login service** (`auth_service`): a fixed credential table of three users. `POST /login` checks a username and password against the table. Every failure gets one identical 401 reply `{error: "invalid_credentials"}`. On success the service signs a claim set into an RS256 token: `roles = [role]`, `sub = username`, `iat`, `nbf = iat + 1`, `exp = iat + 3600` and a fresh `jti`. The reply is `{token, user: {id, username, roles}, expires_at}`.
- **Protected service** (`protected_service`): handlers that trust the `X-User-ID` and `X-User-Roles` headers. A gateway in front of the service sets these headers after it has verified a token. An absent or empty header is reported as the sentinel `"not-provided"`. The roles header is JSON and is decoded.

Everything is modelled as pure functions, because the handlers only compute a reply. The credential table is a value that no function changes. A session of many logins (`AuthService.ServeLogins`) reads the same table for every attempt.

Modules:

- `Wrappers`: `Option`.
- `RolesJson`: JSON text of an array of strings. The decoder `DecodeRoles` models `JSON.parse`; the encoder `EncodeRoles` models `JSON.stringify`. The round trip between them is proved.
- `RolesGrammar`: an independent, declarative description of the same texts, following RFC 8259. It allows whitespace around every token and any escaping of each character. `DecodeRoles` is proved to accept exactly these texts, and to return the strings they stand for.
- `AuthService`: the table, the credential check, the claim set, `Login`, sessions of logins, and the lookup as the source writes it (see Findings).
- `ProtectedService`: `GET /`, `GET /items/:id`, `GET /items` and `POST /items`.
- `TrustPropagation`: how the token's identity reaches the protected service through the gateway's header contract.

Parameters and assumptions:

- **Signing** is the parameter `sign: Claims -> string`, and the model never looks inside a token. Key import, the RS256 signature and JWT serialisation happen in the `jose` library, which is not part of this model.
- **Clocks**: `Login` takes two readings in milliseconds. `jwtNowMs` is the reading `jose` uses for `iat` (line 62). `responseNowMs` is the separate `Date.now()` at line 77 that gives `expires_at`. Neither is assumed equal to the other. `AuthService.ExpiresAtAgainstExp` relates the two results when the readings are equal, and when they are less than a second apart.
- **Token times**: `jose` turns `"1 seconds"` and `'1h'` into `nbf` and `exp` by adding 1 and 3600 seconds to its own clock reading. The model assumes that this reading falls in the same second as the one for `iat`. So `nbf = iat + 1` and `exp = iat + 3600`.
- **Random identifiers** (`uuidv4`) are parameters. These are the three uids of the table, `jti`, the `data` field of `GET /` and `assignedId`. In a session, `ids` is the sequence of fresh identifiers. Only a successful login draws one, because line 65 is reached only on success.
- **Integers**: `Math.floor(ms / 1000)` is Dafny's `/` by 1000. With a positive divisor, Dafny's division rounds down for every integer, as `Math.floor` does.

Two facts about the token matter downstream:

- `nbf = iat + 1` (auth_service/app/src/index.ts:64), so a token becomes valid one second after `iat`, never at `iat` itself.
- The token carries `sub = username` and no uid (auth_service/app/src/index.ts:55-65). A gateway that forwards the token's subject therefore puts the username in `X-User-ID`, not the uid from the login reply. `TrustPropagation.LoginIdentityReachesResource` is stated with the subject the token actually carries.

`Login`, and every member built on it, uses the corrected credential check `Authenticate`. The check as written is modelled separately; see Findings and Left out.

## Model

| member | source | states |
|---|---|---|
| AuthService.Users | auth_service/app/src/index.ts:33-37 | the table has exactly the keys user1, user2, user3; every row has role "user"; userK has password "passwordK"; the uids are the three drawn identifiers |
| AuthService.Authenticate | auth_service/app/src/index.ts:49-53 | succeeds if and only if the username is a key of the table and the request carries a password exactly (case-sensitively) equal to the stored one; the result is then that row |
| AuthService.EpochSeconds | auth_service/app/src/index.ts:77 | the result is the floor of ms / 1000: `s*1000 <= ms < s*1000 + 1000` |
| AuthService.IssueClaims | auth_service/app/src/index.ts:55-67 | roles is the one-element [role], sub is the username, jti is the drawn identifier, iat is the second of the clock reading, `iat < nbf < exp`, `nbf - iat == 1`, `exp - iat == 3600` |
| AuthService.Login | auth_service/app/src/index.ts:43-78 | status is 200 if and only if the credentials match, otherwise the reply is exactly the invalid-credentials 401; on success user mirrors the stored row (id = uid, username, roles = [role]), the token is the signature of the claim set, the token's roles equal the reply's roles, and expires_at is floor(responseNowMs/1000) + 3600 |
| AuthService.UnknownUserRejected | auth_service/app/src/index.ts:49-52 | with the corrected credential check, an unknown username gets exactly the 401 `invalid_credentials` reply, whatever the password |
| AuthService.FailuresIndistinguishable | auth_service/app/src/index.ts:51-52 | an unknown username and a known username with a wrong or missing password get equal replies, whatever the clocks and identifiers (no username enumeration) |
| AuthService.ExpiresAtAgainstExp | auth_service/app/src/index.ts:62-77 | expires_at equals the token's exp when both clock readings are equal; if the reply's reading is not earlier, expires_at >= exp, and if it is less than a second later, expires_at <= exp + 1 |
| AuthService.User1Login | auth_service/app/src/index.ts:43-78 | user1/password1 gets 200, user {uid1, "user1", ["user"]}, and expires_at*1000 within (now + 3599000, now + 3600000] |
| AuthService.User1WrongPassword | auth_service/app/src/index.ts:51-52 | user1 with password "wrong" gets the 401 reply |
| AuthService.ServeLogins | auth_service/app/src/index.ts:43-78 | a session of logins against the same unchanged table gives one reply per attempt |
| AuthService.ServeLoginsReplies | auth_service/app/src/index.ts:43-78 | in a session, an identifier is drawn exactly when the credentials match; a drawn identifier comes from the fresh-id source, and the reply is Login with that jti; every other reply is the 401 |
| AuthService.JtisFromSource | auth_service/app/src/index.ts:65 | every jti drawn in a session is taken from the fresh-id source |
| AuthService.IssuedJtisDistinct | auth_service/app/src/index.ts:65 | if the fresh-id source never repeats, no two tokens issued in a session carry the same jti |
| AuthService.LookupAsWritten | auth_service/app/src/index.ts:49 | `users[username]` finds the own row `store[username]` for a key of the table, an inherited Object.prototype member for exactly the inherited names that are not keys, and undefined otherwise |
| AuthService.PassesCheckAsWritten | auth_service/app/src/index.ts:49-52 | the guard as written passes where the credential check fails exactly when the name is an inherited member and the password is missing; with a password present the two agree |
| AuthService.ProtoPassesCheckAsWritten | auth_service/app/src/index.ts:49-52 | the body `{"username": "__proto__"}` passes the guard as written, although `__proto__` is not in the table and the credential check rejects it |
| RolesJson.DecodeEncode | protected_service/app/src/index.ts:22 | decoding the JSON text of an array of strings gives back the same strings in the same order |
| RolesJson.DecodeRoles | protected_service/app/src/index.ts:22 | a successful decode starts, after whitespace, with `[`; the full characterisation is RolesGrammar.DecodeRolesExactly |
| RolesGrammar.DecodeSound | protected_service/app/src/index.ts:22 | every text the decoder accepts is a well-formed JSON array of strings (whitespace, brackets, commas, string tokens with valid escapes), and the decoded list is the one that text stands for |
| RolesGrammar.DecodeComplete | protected_service/app/src/index.ts:22 | every well-formed JSON array of strings, with any whitespace and any valid escapes (surrogate pairs included), is decoded to the strings it stands for |
| RolesGrammar.DecodeRolesExactly | protected_service/app/src/index.ts:22 | the decoder returns `xs` if and only if the text is a well-formed JSON array of strings that stands for `xs` |
| RolesGrammar.DecodeRolesRejects | protected_service/app/src/index.ts:22 | the decoder rejects a text if and only if it is not a well-formed JSON array of strings |
| RolesJson.MalformedRolesRejected | protected_service/app/src/index.ts:22 | examples of text that is not JSON: a bare word, an unterminated array and a trailing comma are rejected |
| RolesJson.OtherJsonValuesRejected | protected_service/app/src/index.ts:22 | examples of the restriction to arrays of strings: a quoted string and an array holding a number are rejected |
| ProtectedService.RootRolesExactly | protected_service/app/src/index.ts:14-23 | with a roles header, GET / throws if and only if the header is non-empty and not a well-formed JSON array of strings; it replies with roles `xs` if and only if the header is such an array standing for `xs` |
| ProtectedService.MalformedRolesThrow | protected_service/app/src/index.ts:22 | GET / with a non-empty malformed roles header throws instead of reporting the "not-provided" sentinel |
| ProtectedService.IdOrSentinel | protected_service/app/src/index.ts:21 | a non-empty header is reported verbatim; an absent or empty one is reported as "not-provided" |
| ProtectedService.IdSentinelExactly | protected_service/app/src/index.ts:21 | the id is "not-provided" if and only if the header is absent, empty, or itself the text "not-provided"; any other id is the header unchanged |
| ProtectedService.GetRoot | protected_service/app/src/index.ts:12-25 | throws if and only if a non-empty roles header is not a JSON array of strings; otherwise 200 with the fixed message and "Random data: " followed by the drawn id, id as IdOrSentinel, roles is the sentinel exactly when the header is absent or empty, and is the decoded array otherwise |
| ProtectedService.NoHeadersNotProvided | protected_service/app/src/index.ts:14-23 | with no identity headers, both id and roles are "not-provided" and the handler does not throw |
| ProtectedService.TrustedHeadersReportedBack | protected_service/app/src/index.ts:14-23 | a non-empty id and roles written as JSON are reported back unchanged |
| ProtectedService.Abc123Example | protected_service/app/src/index.ts:14-23 | `X-User-ID: abc-123`, `X-User-Roles: ["user"]` gives id abc-123 and roles ["user"] |
| ProtectedService.GetItem | protected_service/app/src/index.ts:31-40 | 200; retrievedBy is the raw header with no sentinel (absent stays absent, empty stays empty); the message is "Data for item #" followed by the path id, so the id is recovered from it |
| ProtectedService.ItemMessageInjective | protected_service/app/src/index.ts:36 | different item ids give different messages |
| ProtectedService.ListItems | protected_service/app/src/index.ts:44-64 | 200 with the raw header; the fixed two-item listing with "Listing all items" if and only if status is absent or empty; otherwise filtersApplied echoes status and the message is "Searching for items with status: " followed by it |
| ProtectedService.ListItemsDistinguishesStatus | protected_service/app/src/index.ts:48-63 | two requests get equal replies if and only if both lack a non-empty status or both carry the same non-empty status |
| ProtectedService.PostItem | protected_service/app/src/index.ts:67-77 | 201 if and only if the body parsed; the message is "New item created successfully!", the parsed body is echoed unchanged, createdBy is the raw header and assignedId is the drawn identifier |
| TrustPropagation.ForwardedHeaders | protected_service/app/src/index.ts:13-15 | the headers the gateway forwards decode back to the token's subject and exactly its role list |
| TrustPropagation.LoginIdentityReachesResource | protected_service/app/src/index.ts:12-23 | after a successful login, the signed claims forwarded through the gateway make GET / report the reply's username and roles |

## Left out

- The public service is not modelled. It returns a constant string with a random UUID.
- Key loading (reading and resolving the PEM path, `importPKCS8`), RS256 signing and JWT serialisation are not modelled. They are file I/O and cryptography in the `jose` library; signing is the opaque parameter `sign`.
- AuthService.Login: decides with the corrected check `Authenticate` (own keys of the table only, password present), not with the guard as written. `AuthService.PassesCheckAsWritten` is the guard as written: it also lets an inherited Object.prototype name (`__proto__`, `toString`, ...) through when the body has no password, and the source then replies 200 with a signed token. `UnknownUserRejected`, `FailuresIndistinguishable`, `User1Login`, `User1WrongPassword`, `ServeLogins`, `ServeLoginsReplies` and `TrustPropagation.LoginIdentityReachesResource` are built on `Login`, so they describe the corrected check too.
- The empty `console.log()` at the start of the login handler (auth_service/app/src/index.ts:45) is not modelled. It writes a blank line to standard output and does not affect the reply.
- HTTP serving, routing, the logger, port parsing, the start-up try/catch and graceful shutdown are not modelled. They are process and I/O plumbing.
- Parsing the login body (`c.req.json`) is not modelled. A body that is not JSON makes the handler throw. A username that is not a string is used as the property key it converts to, which callers of `AuthService.Login` pass as a string. A password that is not a string behaves like a wrong string password, because it is never strictly equal to a stored string and is not undefined.
- AuthService.IssueClaims: `nbf` and `exp` are taken from the same second as `iat`. `jose` reads the clock again for each of them, so in the source they could each be one second later if a second boundary falls inside the builder chain.
- RolesJson.DecodeRoles: recognises only JSON arrays of strings. `JSON.parse` also accepts other JSON values (numbers, objects, a quoted string), and the handler would then report that value as the roles. The model treats such text like malformed JSON; `RolesJson.OtherJsonValuesRejected` shows two such texts, and `RolesGrammar` describes only arrays of strings. An escaped lone surrogate (`"\uD800"`) is also rejected, because a Dafny character cannot hold half of a surrogate pair.
- ProtectedService.GetRoot: inherits the restriction above. A non-empty roles header that is valid JSON but not an array of strings is modelled as a throw.
- What a thrown handler exception turns into (Hono's 500 reply) is outside the source and is modelled as `Throws`.
- ProtectedService.PostItem: the body is a parsed value of any type `J`; general JSON parsing is not modelled.
- The gateway that verifies tokens and sets the identity headers is not part of this code. It enters only through `TrustPropagation.ForwardedHeaders`, its header contract.

## Findings

| source | as written | input that shows it | evidently intended | confidence | as-written member | corrected member |
|---|---|---|---|---|---|---|
| auth_service/app/src/index.ts:49-52 | `users[username]` on a plain object also finds members inherited from Object.prototype (`__proto__`, `toString`, `constructor`, ...). Their `password` is undefined, so `user.password !== password` is false when the body has no password. | body `{"username": "__proto__"}` with no password field: the guard passes and a token is signed with `sub = "__proto__"` | only the three users in the table, each with its own password, can log in | not executed | AuthService.PassesCheckAsWritten | AuthService.Authenticate |
