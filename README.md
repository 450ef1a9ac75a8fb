# Whiteboard REST server: boards, memberships and credentials

This project models the route handlers of the whiteboard application's REST
server (`api/src/server.ts`). The handlers work on three relational tables:

- **users**: unique id, unique email, a name and an optional password record
  (the derived key and the salt it was derived with);
- **boards**: unique id, name, secret link token and the last-opened instant;
- **board roles**: one row per (board, user) pair, with role Owner or Editor,
  its own id and the instant it was added.

The model keeps the tables as sequences of rows inside the class
`Server.Store`. Its unique constraints are the class invariant
`Store.Valid()`. The handlers that write are methods of the store:

- create a board and its Owner role;
- upsert an Editor role;
- add a member by email;
- rename a board;
- record that a board was opened;
- delete a board;
- register a user.

Each method states its whole new state and the reply it sends. The read-only
handlers are functions over the tables in module `Queries`:

- fetch a user, a board or a role row;
- the collaboration-session lookup;
- the secret check;
- the owner check and the edit check;
- the email-exists check;
- login;
- the user's board list;
- the board's member list ordered by the instant each member was added.

Module `Tables` holds the generic table operations the handlers use:

- a unique-key lookup (`findUnique`);
- a filtered scan (`findMany` with `where`);
- an update by key and a delete by key;
- an ordered scan (`orderBy`).

Module `Scenarios` strings the operations together the way a client does.

A handler's outcome is a `Reply`:

- `Ok(body)` is status 200 with that body;
- `NotFound` is 404;
- `Unauthorized` is 401;
- `ServerError` is 500.

The database client throws on a write that breaks a unique key and on an
update or delete of a missing row. No handler catches that exception except
user registration, and the web framework answers it with 500. The model
therefore replies `ServerError` in these cases and leaves the tables as they
were.

Inputs the server receives from outside become parameters of the methods:

- the password derivation (PBKDF2 in the server) is the store's constant
  `kdf`, left uninterpreted;
- the random salt is a parameter of `CreateUser`;
- the clock reading is a parameter `now`;
- row ids and the board's secret token, which the database generates, are
  parameters.

Where the code's behaviour may be unexpected, the model follows the code:

- **Board creation is two writes, not one transaction** (server.ts:91-105).
  If the Owner row cannot be inserted, the board row stays behind.
- **Registration failures are all 500** (server.ts:341-345). A taken email is
  not reported as a separate conflict outcome.
- **Adding a member who already has a role on the board fails with 500**
  (server.ts:235-241). The insert is a plain create, not an upsert.

## Model

| member | source | states |
|---|---|---|
| Tables.Lookup | api/src/server.ts:13-15 | a unique-key lookup finds nothing exactly when no row has the key, and otherwise returns a row of the table with that key |
| Tables.Filter | api/src/server.ts:250-252 | a `where` scan returns only rows of the table that satisfy the condition, and every such row of the table appears in it |
| Tables.FilterCounts | api/src/server.ts:250-252 | a `where` scan holds each row that satisfies the condition exactly as often as the table does, and no other row |
| Tables.FilterIncluded | api/src/server.ts:250-252 | a `where` scan holds no row more often than the table |
| Tables.FilterCount | api/src/server.ts:250-252 | a `where` scan holds a row as often as the table when the row satisfies the condition, and never otherwise |
| Tables.Replace | api/src/server.ts:142-145 | an update by key keeps the table's length, replaces each row with that key and leaves every other row as it was |
| Tables.OrderBy | api/src/server.ts:253 | an ordered scan is ascending in the rank and is a permutation of its input |
| Tables.LookupUnique | api/src/server.ts:31-38 | under a unique key, looking up the key of any row returns that very row |
| Tables.LookupAppend | api/src/server.ts:99-105 | inserting a row changes only the lookup of its own key, and only if that key was absent before |
| Tables.UniqueAppend | api/src/server.ts:327-338 | inserting a row whose key is absent keeps the key unique |
| Tables.LookupReplace | api/src/server.ts:129-132 | an update by key changes the lookup of that key to the new row and leaves all other lookups unchanged |
| Tables.ReplaceUnique | api/src/server.ts:142-145 | an update that keeps the key keeps the key unique |
| Tables.LookupDelete | api/src/server.ts:213-215 | after a delete by key, that key is absent and every other lookup is unchanged |
| Tables.FilterUnique | api/src/server.ts:213-215 | a delete keeps every unique key of the table unique |
| Tables.FilterOrderByMembers | api/src/server.ts:250-254 | an ordered `where` scan has as many rows as the plain scan, and holds exactly the table's rows that satisfy the condition |
| Tables.InsertByRank | api/src/server.ts:253 | inserting into an ascending sequence keeps it ascending and adds exactly that row |
| Tables.AscendingCons | api/src/server.ts:253 | a row ranked no higher than every row of an ascending sequence can be put in front of it |
| Tables.RankFloor | api/src/server.ts:253 | a lower bound on the ranks of some rows bounds every rearrangement of those rows |
| Queries.GetUser | api/src/server.ts:13-21 | 404 exactly when no user has the id; otherwise the id, email and name of the user with that id |
| Queries.GetBoardRole | api/src/server.ts:390-403 | 404 exactly when the (board, user) pair has no role row; otherwise a role row of that pair |
| Queries.GetBoard | api/src/server.ts:271-279 | 404 exactly when no board has the id; otherwise a board with that id |
| Queries.LiveblocksSession | api/src/server.ts:51-82 | 200 exactly when the user exists and holds a role on the room's board; the reply holds that user's id, email and name and the role of that user's row |
| Queries.CheckSecret | api/src/server.ts:179-187 | 404 exactly when the board is missing; otherwise `isAllowed` is the equality of the board's secret with the one supplied |
| Queries.CheckSecretExact | api/src/server.ts:179-187 | with unique board ids, the check on a stored board compares with that board's own secret, with no other outcome |
| Queries.IsOwner | api/src/server.ts:197-206 | true only if an Owner row exists for the pair; a missing row answers false, not an error |
| Queries.IsOwnerExact | api/src/server.ts:197-206 | with a unique (board, user) key, the owner check is true if and only if the pair's row has role Owner |
| Queries.CanEdit | api/src/server.ts:364-380 | true if and only if a role row exists for the pair, whatever its role |
| Queries.RoleRowRights | api/src/server.ts:206 | any role row grants editing; it grants ownership if and only if its role is Owner |
| Queries.UserExists | api/src/server.ts:352-356 | true if and only if some user has the email |
| Queries.Login | api/src/server.ts:289-310 | 200 only with the id of a user holding the email whose password record matches the derivation; 401 when no user has the email |
| Queries.LoginExact | api/src/server.ts:289-310 | with unique emails, login of a stored user gives that user's id if the password derives to the stored hash under the stored salt, and 401 otherwise |
| Queries.RegisterThenLogin | api/src/server.ts:321-340 | after a user registers with a password, logging in with that password gives the new user's id, and a password deriving to another key gives 401 |
| Queries.ListBoards | api/src/server.ts:114-122 | the user's board list succeeds exactly when each of the user's role rows names a stored board; it then has one stored board per role row of the user, each board is one the user has a role on, and every such role's board is listed |
| Queries.ListedSkip | api/src/server.ts:114-116 | a role row of another user adds nothing to the user's board list |
| Queries.ListedCons | api/src/server.ts:114-120 | a role row of the user puts that row's board in the user's board list, and the boards already listed stay listed |
| Queries.ListBoardsStaysOk | api/src/server.ts:91-122 | adding a board together with a role row on it keeps the user's board list producible |
| Queries.BoardListedOnce | api/src/server.ts:91-93 | a listed board with a fresh board's id, taken from the table holding that board, is that board |
| Queries.ListBoardsOkIff | api/src/server.ts:91-122 | adding a board with a fresh id and the user's first role row on it leaves the user's board list producible exactly when it was producible before |
| Queries.ListBoardsGainsBoard | api/src/server.ts:91-122 | adding a board with a fresh id and the user's role row on it puts the board into the user's board list |
| Queries.MembersOf | api/src/server.ts:256-262 | the projection succeeds exactly when each row names a stored user; each entry is its row joined with that row's user |
| Queries.ListRoles | api/src/server.ts:250-264 | the member list succeeds exactly when each of the board's role rows names a stored user; it then has one entry per row of the board, ordered by the instant each was added, each entry is one of the board's rows joined with its user, and every row of the board has its entry |
| Queries.BoardRowsOrdered | api/src/server.ts:250-254 | the board's rows, ordered by the instant they were added, are exactly the board's rows of the table |
| Queries.MembersOfBoardOk | api/src/server.ts:256-258 | the projection of the board's rows succeeds if and only if each of them names a stored user |
| Queries.MembersOfAscending | api/src/server.ts:253-262 | projecting rows that are ascending by addedAt keeps the entries ascending by addedAt |
| Queries.MembersOfBoardRows | api/src/server.ts:250-262 | each entry of the member list is one of the board's rows joined with its user, and each such row has its entry |
| Server.UpsertEditor | api/src/server.ts:157-167 | after the upsert the pair has a role row; an existing row leaves the table unchanged, otherwise exactly one Editor row is appended |
| Server.UpsertIdempotent | api/src/server.ts:157-167 | upserting twice gives the same table as upserting once |
| Server.UpsertKeepsRights | api/src/server.ts:161 | the upsert never takes ownership away and always grants editing to the pair; the rights of every other pair are unchanged |
| Server.Store.CreateBoard | api/src/server.ts:85-107 | a board with no name is named "Untitled"; a taken id fails with nothing written; a pair that already has a role row fails with the board written; otherwise the board and one Owner row are appended, the creator owns the board, the secret check admits its secret, the creator's board list can be produced afterwards exactly when it could before, and whenever it can, the new board is in it |
| Server.Store.UpsertEditorRole | api/src/server.ts:151-169 | the role table becomes the upsert of the pair, nothing else changes, the unique constraints hold and the reply is success |
| Server.Store.AddMember | api/src/server.ts:221-243 | 404 exactly when no user has the email, with roles unchanged; a user who already has a row fails with roles unchanged; otherwise exactly one Editor row for that user on the board is appended, so the user can edit and does not own the board, and the reply names the email |
| Server.Store.RenameBoard | api/src/server.ts:138-147 | succeeds exactly when the board exists; then only that board's name changes; a missing board fails with nothing changed |
| Server.Store.TouchLastOpened | api/src/server.ts:126-135 | succeeds exactly when the board exists; then only that board's last-opened instant changes, to the clock reading; a missing board fails with nothing changed |
| Server.Store.DeleteBoard | api/src/server.ts:210-218 | succeeds exactly when the board exists and replies with the deleted row; afterwards the board is not found by the board fetch or the secret check, other boards are unchanged and role rows are kept |
| Server.Store.CreateUser | api/src/server.ts:314-347 | succeeds exactly when the email and the new id are both unused; then one user is appended with the password derived under the given salt, and that user can log in with that password |
| Scenarios.Register | api/src/server.ts:321-340 | two registrations with distinct emails both succeed, and each person can log in with their own password |
| Scenarios.CreateFirstBoard | api/src/server.ts:85-107 | creating a board in an empty store writes exactly one "Untitled" board and the creator's Owner row |
| Scenarios.InviteSecond | api/src/server.ts:225-243 | inviting a registered user by email appends exactly one Editor row for that user |
| Scenarios.Invite | api/src/server.ts:197-243 | after creating a board and inviting a second person, the creator owns it, the invitee may edit it without owning it |
| Scenarios.DeleteKeepsRoles | api/src/server.ts:210-218 | in the model, which has no referential actions, after a delete the board is not found, its former owner may still edit, and the owner's board list fails its join |

## Left out

- Routing, request parsing and JSON and HTTP plumbing of the web framework are not modelled, including the misspelt `/apii/v1/board-roles` path. That route does the same lookup as `GET /boards/:boardId/roles/:userId`, and `Queries.GetBoardRole` models both.
- Server start-up and port parsing (`start()`) are outside the modelled handlers.
- PBKDF2 and its parameters (1000 rounds, 64 bytes, sha256, hex) are not modelled, because the derivation is an uninterpreted function `kdf`.
- The random 16-byte salt is not modelled, because it is the `salt` parameter of `CreateUser`.
- The clock is not modelled, because it is the `now` parameter.
- Database-generated ids and the board's secret token are parameters, so the model does not show that they are fresh. A clash of a user id or a board id fails like any unique-key violation. Role ids and secret tokens are not keys in the model, so a clash there goes unnoticed.
- Database defaults such as the default `addedAt` are parameters too.
- Queries.ListBoards: returns the stored `lastOpenedAt` instant, because the server's locale date formatting (`toLocaleDateString`) is text formatting outside the model.
- Queries.GetUser: returns only the id, email and name columns, because the user row holds no other columns in this model. The password record is a separate relation that the handler does not include.
- Server.Store.CreateBoard: promises the new board in the creator's board list only when that list can be produced. Role rows left behind by a delete (see the DeleteBoard line) make the creator's list fail, both before and after the call.
- Server.Store.CreateBoard: the `if (!board)` 500 branch is not modelled, because the database client's create never returns nothing (it throws instead).
- Queries.ListRoles: states the order only up to ties between equal `addedAt` instants, because the database does not specify the order of ties.
- Queries.IsOwner: states only one direction on an arbitrary table. The exact equivalence needs the unique (board, user) key and is `Queries.IsOwnerExact`.
- Queries.Login: the comparison of the derived key is modelled as plain string equality, which is what the server does. Timing is not modelled.
- Server.Store.DeleteBoard: keeps role rows because referential actions are not modelled; the server's real outcome depends on the schema. With a cascading relation the board's role rows would go too; with a restricting one the delete of a board that has role rows would fail with 500. In the model, after a delete the edit check still answers true for the board's former members, and their board list fails because the join finds no board (`Scenarios.DeleteKeepsRoles`).
- Tables.Filter: its own contract states which rows are kept; how often each is kept is stated by `Tables.FilterCounts`, because a quantified count in the function's contract makes the proofs of its callers run out of resource.
- Foreign keys, cascades and transactions are schema or database behaviour that the handlers do not show, so they are not modelled.
- Concurrency between requests is not modelled. Each method runs as one step on the store.
- The front-end fetch wrappers, cookie authentication, the collaboration service's client, UI code and build configuration are outside the server's handlers.
