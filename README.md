# Todo backend: owner-scoped todo table, credential list and token gate

A Dafny model of the Express backend of a small multi-user todo application
(`fullstack-todo-app/backend/index.js`). The process holds two in-memory
arrays: `users` holds credentials `{id, username, password}` and `todos`
holds records `{id, userId, text, completed}`. Six routes operate on them:

- `POST /api/register` appends a user with a bcrypt digest of the password.
- `POST /api/login` looks the name up and signs a JSON Web Token
  (RFC 7519) holding `{id, username}`.
- Four todo routes sit behind the `authenticateToken` middleware. The
  middleware takes the second space-separated piece of the `authorization`
  header as the token. A missing token gives 401, a token that fails
  verification gives 403, and otherwise the decoded claims become the
  caller's identity. List, add, update and delete then act only on the
  caller's records.

Modules, one per concern:

- `wrappers.dfy`, module `Wrappers`: `Option`.
- `crypto.dfy`, module `Crypto`: the claims and the two foreign libraries.
  bcryptjs and jsonwebtoken are values holding uninterpreted functions.
  `HasherSound`, `JwtSound` and `RejectsEmpty` state the library behaviour
  that some lemmas rely on.
- `auth.dfy`, module `Auth`: JavaScript `split`/`join` for a one-character
  separator, the header-to-token expression, and the middleware's decision.
- `todos.dfy`, module `Todos`: records, the update body as a patch of
  optional fields, the object spread, and the `filter`/`findIndex` queries.
- `users.dfy`, module `Users`: credential records and the `find` lookup.
- `server.dfy`, module `Server`: class `Backend`, whose `users` and `todos`
  fields are the two arrays. It has one method per route, and each method
  states the exact new state and reply. `RegisterThenLogin` proves, for any
  backend and any fresh name, that logging in after registering yields a
  token that authenticates as the new account. The client method `Session`
  then runs add, list, complete and delete with that token and proves each
  reply.

Behaviour that follows the code rather than a reading of its intent:

- An empty `authorization` value (`""`) is falsy in JavaScript. So
  `authHeader && …` yields the empty string, not `undefined`, and the
  request gets 403 rather than 401 (`Auth.EmptyHeaderForbidden`). Only an
  absent header, or a non-empty header with no space, gives 401.
- The first word of the header is never checked (`Auth.SchemeIgnored`).
- An update body may carry `id` and `userId`, and they overwrite the stored
  values. A caller can therefore hand a todo to another user
  (`Todos.MergeReassigns`).
- Registration never rejects a taken name. Login always resolves to the
  first record with the name, so a later duplicate can never log in
  (`Users.DuplicateShadowed`).
- Ids come from the clock and are not assumed unique. Update changes only
  the first match, while delete removes every match.

## Model

| member | source | states |
|---|---|---|
| `Auth.Split` | fullstack-todo-app/backend/index.js:19 | `split(' ')` yields at least one piece, no piece holds the separator, and there is a second piece exactly when the string holds the separator |
| `Auth.JoinSplit` | fullstack-todo-app/backend/index.js:19 | joining the pieces of a split gives back the original header |
| `Auth.SplitJoin` | fullstack-todo-app/backend/index.js:19 | splitting a join of separator-free pieces gives back the pieces (inverse of `JoinSplit`) |
| `Auth.SplitAfterPiece` | fullstack-todo-app/backend/index.js:19 | a separator-free word followed by the separator splits off as the first piece and the rest splits on its own |
| `Auth.BearerToken` | fullstack-todo-app/backend/index.js:18-21 | the token is missing (401) exactly when the header is absent or is non-empty without a space; a present token never holds a space |
| `Auth.TokenAfterFirstWord` | fullstack-todo-app/backend/index.js:19 | the token is the first space-free piece after the first space |
| `Auth.SchemeIgnored` | fullstack-todo-app/backend/index.js:19 | any two first words give the same token: the scheme is never checked |
| `Auth.BearerTokenOf` | fullstack-todo-app/backend/index.js:18-19 | `<scheme> <token>`, with or without further space-separated text, yields exactly `<token>` |
| `Auth.Authenticate` | fullstack-todo-app/backend/index.js:17-28 | 401 exactly when the header is absent or non-empty without a space; 403 exactly when a token is present and verification fails; otherwise the identity is the verified claims |
| `Auth.SignedTokenAuthenticates` | fullstack-todo-app/backend/index.js:17-28 | with a sound signer, `Bearer <sign(c)>` lets the request through with identity `c` |
| `Auth.EmptyTokenForbidden` | fullstack-todo-app/backend/index.js:19-24 | a header whose first space is followed by a second space (`Bearer  x`), or by nothing in an untrimmed value, carries a present but empty token and is refused with 403, not 401 |
| `Auth.EmptyHeaderForbidden` | fullstack-todo-app/backend/index.js:18-24 | an empty header value is not treated as absent: 403, not 401 |
| `Todos.Merge` | fullstack-todo-app/backend/index.js:78 | the updated record is the spread of the stored record, as a body carrying every field, followed by the request body: a field the body carries wins, including `id` and `userId` |
| `Todos.Matches` | fullstack-todo-app/backend/index.js:76 | only a record owned by the caller can match, and an unparsable (`NaN`) id matches nothing |
| `Todos.MergeEmpty` | fullstack-todo-app/backend/index.js:78 | an empty body leaves the record unchanged |
| `Todos.MergeIdempotent` | fullstack-todo-app/backend/index.js:78 | applying the same body twice equals applying it once |
| `Todos.MergeThen` | fullstack-todo-app/backend/index.js:78 | two successive bodies act as their spread, with later fields winning |
| `Todos.MergeCompletedOnly` | fullstack-todo-app/backend/index.js:78 | a `{completed: b}` body changes the flag and no other field |
| `Todos.MergeReassigns` | fullstack-todo-app/backend/index.js:78 | a body carrying `userId` overwrites the owner |
| `Todos.ListOwned` | fullstack-todo-app/backend/index.js:59 | the list holds exactly the records whose `userId` is the caller's, and is no longer than the table |
| `Todos.ListOwnedAppend` | fullstack-todo-app/backend/index.js:59 | listing distributes over concatenation, so storage order is kept |
| `Todos.ListOwnedAll` | fullstack-todo-app/backend/index.js:59 | a table holding only the caller's records is listed whole, in order |
| `Todos.ListOwnedAfterAppend` | fullstack-todo-app/backend/index.js:58-70 | after an add, the new record is last in its owner's list and every other user's list is unchanged |
| `Todos.FindIndex` | fullstack-todo-app/backend/index.js:76 | -1 exactly when no record matches both id and owner; otherwise the index of a match with no match before it |
| `Todos.Without` | fullstack-todo-app/backend/index.js:87 | delete never grows the table |
| `Todos.WithoutContents` | fullstack-todo-app/backend/index.js:87 | the result holds exactly the records that do not match both id and owner: every match is removed |
| `Todos.WithoutAppend` | fullstack-todo-app/backend/index.js:87 | delete distributes over concatenation, so the survivors keep their relative order |
| `Todos.WithoutNoMatch` | fullstack-todo-app/backend/index.js:87 | deleting an id the caller does not hold leaves the table as it was |
| `Todos.WithoutUnparsable` | fullstack-todo-app/backend/index.js:86-87 | an unparsable path id deletes nothing |
| `Todos.WithoutIdempotent` | fullstack-todo-app/backend/index.js:87 | deleting twice equals deleting once |
| `Todos.WithoutIsolation` | fullstack-todo-app/backend/index.js:87 | a delete by one owner leaves every other user's list exactly as it was |
| `Todos.WithoutOwnList` | fullstack-todo-app/backend/index.js:87 | after a delete, the caller's list is their old list with the id removed |
| `Users.FindUser` | fullstack-todo-app/backend/index.js:42 | no user is found exactly when no record has the name; a found user is in the list and has the name |
| `Users.FindUserAppend` | fullstack-todo-app/backend/index.js:42 | the lookup answers from the earlier part of the list whenever it can |
| `Users.FindUserFirst` | fullstack-todo-app/backend/index.js:42 | the lookup gives the first record with the name |
| `Users.DuplicateShadowed` | fullstack-todo-app/backend/index.js:34-42 | registering a taken name succeeds, but login still finds the earlier record |
| `Users.NewUserFound` | fullstack-todo-app/backend/index.js:34-42 | a name registered for the first time is found as the new record |
| `Server.Refusal` | fullstack-todo-app/backend/index.js:21-24 | a missing token gives 401 and a failed verification gives 403 |
| `Server.Backend.constructor` | fullstack-todo-app/backend/index.js:13-14 | both arrays start empty |
| `Server.Backend.Register` | fullstack-todo-app/backend/index.js:30-39 | on a digest, appends `{now, username, digest}` and replies 201; on a hashing failure, replies 500 and changes nothing; todos untouched |
| `Server.Backend.Login` | fullstack-todo-app/backend/index.js:41-56 | 400 exactly when no user has the name; a token exactly when bcrypt accepts the password for the first such user, and it signs that user's id and name; otherwise 500 on a compare failure, or "Not Allowed" |
| `Server.Backend.ListTodos` | fullstack-todo-app/backend/index.js:58-61 | for an authenticated caller, 200 with exactly their records in storage order; 401 when there is no token, 403 when verification fails; the store is not modified |
| `Server.Backend.AddTodo` | fullstack-todo-app/backend/index.js:63-72 | appends `{now, caller, text, false}` at the end and replies 201 with it; earlier records unchanged; 401 without a token and 403 on a failed verification, changing nothing |
| `Server.Backend.UpdateTodo` | fullstack-todo-app/backend/index.js:74-83 | 404 with the store unchanged when no record matches (an unparsable id never matches); otherwise only the first match changes, replaced by its spread with the body, and the reply is the new record; no other user's record changes; 401 without a token and 403 on a failed verification, changing nothing |
| `Server.RegisterThenLogin` | fullstack-todo-app/backend/index.js:30-56 | on any backend where the name is fresh, registering then logging in with the same password appends the new account, replies 200 with a token signing its id and name, and `Bearer <token>` authenticates as exactly that account |
| `Server.Backend.DeleteTodo` | fullstack-todo-app/backend/index.js:85-89 | the store becomes the old one without the caller's records with that id, and the reply is 204; 401 without a token and 403 on a failed verification, changing nothing |

## Left out

- Express routing, CORS, JSON body parsing, `app.listen` and the wire format of replies are framework plumbing. Each route is a method and each reply is a status code with a body value.
- bcryptjs and jsonwebtoken internals are uninterpreted functions. Their randomness (the salt) is a parameter.
- The token payload's `iat` claim, added by `jwt.sign`, is not modelled. Claims are `{id, username}`.
- `Server.Backend.Login` treats `jwt.sign` as total. A signing exception, which the code would turn into a 500, is not modelled.
- `Date.now()` is a parameter (`now`). No assumption is made that ids are unique.
- `parseInt` of the path id is not modelled. It is taken already parsed, as `Option<int>`, with `None` standing for `NaN`. Prefix parsing (`"12abc"`), hexadecimal and rounding of huge values are not captured.
- An update body holds only the four record fields, each optional and of its stored type. Extra fields that the spread would add to the record, and values of another JSON type (an `id` sent as a string, which then matches no later numeric lookup), are not modelled.
- A request body without `text`, `username` or `password` (`undefined` in the code) is not modelled. Those fields are strings.
- Numbers are unbounded integers, and clock-derived ids are exact. An update body can set `id` or `userId` to any JSON number.
  - A fractional value (`1.5`) is not modelled. The code leaves such a record unreachable by update or delete, because `parseInt` gives an integer.
  - Integers beyond 2^53 are rounded to a double by JSON parsing and by `parseInt`, so distinct ids may collide there. The model keeps them exact.
- The header value is taken as the handler sees it. Node trims surrounding whitespace before that point, and repeated `authorization` headers are not modelled.
- Suspension at `await` (hashing, comparing) is left out. Every handler runs to completion on its own, so interleavings between requests are not captured.
- The React frontend (`App.jsx`, `TodoList.jsx`) is UI and HTTP-client code and is not part of this model.
