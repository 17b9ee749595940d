# Tutorial HTTP backends: token diary, URL shortener, session authentication

This project models, in Dafny, the decision logic of three small Node/Express backends. It proves properties of that model.

- **Token diary** (`Authentication/auth-01/server.js`). A global object `DIARY` maps a token to the sign-up details. A global set `EMAILs` records every email that signed up. `/signup` refuses a known email; otherwise it stores the entry under the token `${Date.now()}`. `/me` and `/private-data` refuse a missing token, then an unknown one. Otherwise `/me` returns the stored entry and `/private-data` answers "Access Granted". The model is the class `AuthDiary.Registry`, with a map field and a set field.
- **URL shortener** (`url-shortner-project/routes/url.route.js`, `url-shortner-project/services/url.service.js`). The `urls` table is a sequence of rows `{id, shortCode, targetURL, userId}` in table order, held by the class `UrlService.UrlTable`.
  - `POST /shorten` validates the body. It uses the caller's `code`, or else a generated 6-character code, appends one row owned by the caller and answers 201 with the row's id, code and target.
  - `GET /codes` lists the caller's rows.
  - `DELETE /:id` removes the caller's row with that id and always answers `{deleted: true}`.
  - `GET /:shortCode` redirects to the target of a row with that code, or answers 404.
- **Session authentication** (`Authentication/Authentication-Session/routes/user.routes.js`). The tables `users` and `user_sessions` are sequences held by the class `SessionAuth.SessionStore`.
  - `POST /signup` refuses a taken email. Otherwise it stores a salt and `HMAC(salt, password)`.
  - `POST /login` answers 404 for an unknown email and 400 for a hash mismatch. Otherwise it inserts a session and returns its id.
  - `GET /` resolves the `session-id` header through the session-to-user join.

The ORM `where` clauses are equality filters. They become recursive functions over sequences: `Codes`, `DeleteOwned`, `Resolve`, `FindBy` and `SessionJoin`. Each has a contract that characterises its result without restating its body.

Everything the handlers get from outside is a parameter:
- the clock reading behind the diary token (`now`);
- the salt from `randomBytes`;
- the keyed hash (`hmac`, standing for HMAC-SHA256 keyed by the salt);
- the code `nanoid(6)` returns (`generated`, with `IsGeneratedCode`);
- the body-schema check (`accepts`);
- the caller's id, which the authentication middleware supplies;
- the ids the database assigns to new rows.

Each new row id comes with a precondition that no row already has it. This is the primary-key guarantee of the database, not a demand on the callers of the handlers.

`url.route.js` has no update route and no "code taken" error. The model puts no uniqueness constraint on short codes, since the `urls` schema is not part of it. A delete that matches nothing still answers `{deleted: true}`, as `url.route.js` does.

## Model

| member | source | states |
|---|---|---|
| AuthDiary.Decimal | Authentication/auth-01/server.js:19 | The token `${Date.now()}` is a non-empty string of decimal digits, with no leading zero unless it is "0", that reads back as the clock value. So it is truthy and never a name inherited from Object.prototype. |
| AuthDiary.Registry.constructor | Authentication/auth-01/server.js:8-9 | `DIARY` and `EMAILs` start empty and satisfy the invariant. |
| AuthDiary.Registry.Signup | Authentication/auth-01/server.js:11-26 | A known email gives "Email already taken" and leaves `DIARY` and `EMAILs` unchanged. Otherwise `DIARY[token]` becomes `{name, email, password}` and the email joins `EMAILs`. The reply carries the clock token. The invariant is kept: every stored entry's email is in `EMAILs` and every key is a clock token. `EMAILs` only grows. |
| AuthDiary.Registry.Me | Authentication/auth-01/server.js:28-41 | A missing or empty token gives "Missing token". A token that is not a key gives "Invalid token". A key gives exactly `DIARY[token]`. The method modifies nothing. |
| AuthDiary.Registry.PrivateData | Authentication/auth-01/server.js:43-57 | Access is granted if and only if the token is present and is a key of `DIARY`. The errors are those of `Me`. The method modifies nothing. |
| AuthDiary.SameMillisecondSignups | Authentication/auth-01/server.js:19-23 | On any valid registry, two sign-ups with different fresh emails and the same clock reading both succeed. The second entry replaces the first under the shared token, and both emails are recorded, so the first email has no entry in `DIARY`. Only the one-directional invariant holds. |
| AuthDiary.PrivateDataAsWritten | Authentication/auth-01/server.js:43-57 | With the guard exactly as written, access is granted if and only if the token is present and is an own key of `DIARY` or a name inherited from Object.prototype. A missing token gives "Missing token"; any other token gives "Invalid token". |
| AuthDiary.PrivateDataAsWrittenAdmitsInheritedName | Authentication/auth-01/server.js:50-55 | Whatever has signed up, the guard as written grants access to the token "toString". No sign-up produces that token and it is not a key of `DIARY`. |
| UrlService.UrlTable.constructor | url-shortner-project/services/url.service.js:1-2 | The `urls` table starts empty, and the primary-key invariant holds. |
| UrlService.UrlTable.CreateShortUrl | url-shortner-project/services/url.service.js:4-18 | Exactly one row is appended, with the given code, `targetURL = url`, the given owner and a fresh id. Earlier rows are unchanged. The result is the new row's `{id, shortCode, targetURL}`. |
| UrlRoutes.ChooseCode | url-shortner-project/routes/url.route.js:25-26 | The caller's code is used verbatim whenever it is given, the empty string included. Otherwise the code is the generated one, 6 characters from nanoid's alphabet. |
| UrlRoutes.Shorten | url-shortner-project/routes/url.route.js:13-42 | A body the schema rejects gives 400 and the table is unchanged. Otherwise one row with the chosen code, the body's url and the caller as owner is appended. The reply is 201 with that row's id, code and target, and the code then resolves. |
| UrlRoutes.Codes | url-shortner-project/routes/url.route.js:44-51 | The listing holds exactly the rows whose `userId` is the caller's id, and no others. |
| UrlRoutes.CodesAppend | url-shortner-project/routes/url.route.js:45-48 | Listing keeps table order: the listing of `a + b` is the listing of `a` followed by that of `b`. |
| UrlRoutes.ShortenExtendsCodes | url-shortner-project/routes/url.route.js:44-50 | After the caller shortens a URL, their listing is the old listing followed by the new row. |
| UrlRoutes.DeleteOwned | url-shortner-project/routes/url.route.js:55-57 | The table after the delete holds exactly the rows that do not have both this id and the caller as owner. If no row matches, the table is unchanged. |
| UrlRoutes.DeleteUrl | url-shortner-project/routes/url.route.js:53-60 | The table becomes `DeleteOwned` of the old table. The primary-key invariant is kept, and the reply is always `deleted: true`. |
| UrlRoutes.DeleteByNonOwnerKeepsResolve | url-shortner-project/routes/url.route.js:53-59 | A delete by a non-owner, or of an absent id, leaves the table unchanged, and every code resolves as before. |
| UrlRoutes.Resolve | url-shortner-project/routes/url.route.js:62-77 | The reply is 404 if and only if no row has the code. Otherwise it redirects to the `targetURL` of a row with that code. |
| UrlRoutes.ResolveUnique | url-shortner-project/routes/url.route.js:65-76 | When exactly one row has the code, resolving it redirects to that row's target. |
| UrlRoutes.ResolveAfterInsert | url-shortner-project/routes/url.route.js:62-76 | After a row is appended, its code resolves. It resolves to the row's own URL when no earlier row had that code. |
| SessionAuth.FindBy | Authentication/Authentication-Session/routes/user.routes.js:35-44 | The first-row lookup on one column: on email for sign-up and login, on id for the session join. Nothing is found if and only if no user has that value in the column. Otherwise the result is a stored user that has it. |
| SessionAuth.FindByEmailUnique | Authentication/Authentication-Session/db/schema.js:8 | Because email is unique, the lookup finds the one user with that email. |
| SessionAuth.SessionJoin | Authentication/Authentication-Session/routes/user.routes.js:15-24 | The join is empty if and only if no session with that id refers to a stored user. Otherwise it yields the session id, user id, name and email of such a pair. |
| SessionAuth.CheckCredentials | Authentication/Authentication-Session/routes/user.routes.js:62-83 | The verdict is unknown email if and only if no user has the email. A wrong password means a user with that email whose `hmac(salt, password)` differs from the stored hash. Verified means a stored user with that email whose hash matches. |
| SessionAuth.CheckCredentialsOfUser | Authentication/Authentication-Session/routes/user.routes.js:76-83 | With unique emails, login for a given user is verified if and only if the recomputed hash equals the stored one, and otherwise is a wrong password. |
| SessionAuth.SignupThenLogin | Authentication/Authentication-Session/routes/user.routes.js:46-81 | A user signed up into a table where the email was free is verified by login with the same email and password. The same salt and hash are used at both ends. |
| SessionAuth.SessionJoinAfterLogin | Authentication/Authentication-Session/routes/user.routes.js:85-89 | The session a login inserts under a fresh id resolves, through the join, to the user who logged in. |
| SessionAuth.SessionStore.constructor | Authentication/Authentication-Session/db/schema.js:5-18 | Both tables start empty, and the key, unique-email and foreign-key constraints hold. |
| SessionAuth.SessionStore.Profile | Authentication/Authentication-Session/routes/user.routes.js:9-30 | No `session-id` header, or an empty one, gives 401. Otherwise the reply is that session's row from the join, or 401 when the join is empty. The method modifies nothing. |
| SessionAuth.SessionStore.Signup | Authentication/Authentication-Session/routes/user.routes.js:32-57 | A taken email gives 400 and nothing is inserted. Otherwise one user with the salt and `password = hmac(salt, password)` is appended and its id returned. Existing users and all sessions are unchanged. Unique ids and unique emails are kept. |
| SessionAuth.SessionStore.Login | Authentication/Authentication-Session/routes/user.routes.js:59-90 | An unknown email gives 404 and a hash mismatch gives 400, both creating no session. Otherwise exactly one session with the user's id is appended and its id returned. The users table is unchanged, and the table constraints hold. |
| SessionAuth.SignupLoginProfile | Authentication/Authentication-Session/routes/user.routes.js:9-90 | Sign-up, login with the same password, then `GET /` with the new session id succeed in turn. They yield the new user's id, the session id, and the view of that user. |

## Left out

- Express wiring, `app.listen`, and the authentication middleware `ensureAuthenticated`. The caller's id is a parameter. The middleware itself is not part of this model, so nothing is claimed about how it answers an unauthenticated request.
- Clock, randomness, hashing and id generation. `Date.now()`, `randomBytes`, HMAC-SHA256, `nanoid` and the ids the database generates are parameters. The model does not claim the salt is 256 random bytes or that generated codes differ.
- Body validation. The zod schema is the abstract predicate `accepts`; its URL and optional-string checks are not modelled. A parsed body always has a `url` and an optional `code`.
- Request fields of other types. Tokens and headers are absent-or-string values. A JSON number sent as the diary token, which JavaScript would turn into a string key, is not modelled. Neither are missing name, email or password fields at sign-up.
- Database errors. Some database calls would throw, and no handler catches the error: a `session-id` header that is not a UUID (the `user_sessions.id` column is a UUID, `Authentication/Authentication-Session/db/schema.js:15`), a unique-constraint violation on an email inserted by a racing sign-up, and any `:id` the `urls` id column rejects. None is modelled, and neither is what the server then answers. The `varchar(255)` limits on `name` and `email` (`Authentication/Authentication-Session/db/schema.js:7-8`) are left out for the same reason: an over-long name or email makes the insert throw where the model's `Signup` succeeds.
- Concurrency. Each handler is one atomic step, so check-then-insert races are not modelled.
- Columns that no modelled code reads: `role` and `createdAt`, and any `urls` columns beyond the four the routes use. The `urls` schema is not part of this model, so any constraint it declares is not modelled.
- Result order. SQL without `ORDER BY` gives no order. The model keeps the table in insertion order, and `Resolve` and the lookups take the first match. Their contracts promise only "a row with that key", plus the lemmas for the unique case.
- AuthDiary.Registry.Me: implements the corrected own-key guard, not the guard as written. The code uses the same `token in DIARY` guard as `/private-data`, so an inherited name such as "toString" passes it. `res.json({ data: entry })` then drops the function value, and the client gets a 200 with `{}` (`{"data":{}}` for "__proto__"). The fault is exhibited on `/private-data` (see Findings).
- UrlRoutes.Shorten: the shorten-then-resolve round trip is proved for the `GET /:shortCode` handler, not for Express's route matching. That matching shadows some stored codes. An empty code (kept verbatim by `ChooseCode`) can never match `/:shortCode`. A code spelled "codes" in any letter case is taken by `GET /codes`: that route is registered first (`url-shortner-project/routes/url.route.js:44`), and Express paths are case-insensitive by default.
- `book-store/` and `url-shortner-project/services/user.service.js` are not part of this model. The first is routing to a controller that is not shown; the second is a single select wrapper.

## Findings

| source | as written | input that shows it | evidently intended | confidence | as-written member | corrected member |
|---|---|---|---|---|---|---|
| Authentication/auth-01/server.js:50-55 | The guard `token in DIARY` uses JavaScript's `in`, which also holds for names that the object literal inherits from Object.prototype. | `POST /private-data` with body `{"token": "toString"}` (or "constructor", "valueOf", ...) answers "Access Granted" with no sign-up at all. | Access only for tokens that are own keys of `DIARY`, that is, tokens some sign-up returned. | high; not executed | AuthDiary.PrivateDataAsWritten, AuthDiary.PrivateDataAsWrittenAdmitsInheritedName | AuthDiary.Registry.PrivateData |
