/** The read-only handlers of the REST server: each looks rows up in the
    tables and compares, and none changes a table. */
module Queries {
  import opened Tables
  import opened Schema

  /** The user columns a handler sends back (the password record is a
      separate relation that these handlers do not include). */
  datatype Profile = Profile(id: Id, email: string, name: string)

  /** What the collaboration-session bridge needs: who the user is and the
      role the user holds in the room. */
  datatype Session = Session(user: Profile, role: Role)

  /** One entry of a board's member listing. */
  datatype Member = Member(email: string, name: string, role: Role, boardRoleId: Id, addedAt: Instant)

  function ProfileOf(u: User): Profile {
    Profile(u.id, u.email, u.name)
  }

  function MemberOf(u: User, row: BoardRole): Member {
    Member(u.email, u.name, row.role, row.id, row.addedAt)
  }

  /** `m` is `row` joined with the user the row names. */
  ghost predicate Joined(users: seq<User>, row: BoardRole, m: Member) {
    exists j :: 0 <= j < |users| && users[j].id == row.userId && m == MemberOf(users[j], row)
  }

  /** `m` is one of the board's role rows joined with its user. */
  ghost predicate ListsBoardRow(users: seq<User>, roles: seq<BoardRole>, boardId: Id, m: Member) {
    exists i :: 0 <= i < |roles| && roles[i].boardId == boardId && Joined(users, roles[i], m)
  }

  /** The user holds a password record and `password` derives to its hash
      under the record's salt. */
  predicate PasswordMatches(u: User, kdf: (string, string) -> string, password: string) {
    u.password.Some? && kdf(password, u.password.value.salt) == u.password.value.hash
  }

  /** GET /users/:userId */
  function GetUser(users: seq<User>, userId: Id): (r: Reply<Profile>)
    ensures r.Ok? || r.NotFound?
    ensures r.NotFound? <==> !HasUser(users, userId)
    ensures r.Ok? ==> r.value.id == userId &&
                      exists j :: 0 <= j < |users| && users[j].id == userId && r.value == ProfileOf(users[j])
  {
    match Lookup(users, UserKey, userId)
    case None => NotFound
    case Some(u) => Ok(ProfileOf(u))
  }

  /** GET /boards/:boardId/roles/:userId (and its duplicate GET /board-roles) */
  function GetBoardRole(roles: seq<BoardRole>, boardId: Id, userId: Id): (r: Reply<BoardRole>)
    ensures r.Ok? || r.NotFound?
    ensures r.NotFound? <==> !HasRole(roles, boardId, userId)
    ensures r.Ok? ==> r.value in roles && r.value.boardId == boardId && r.value.userId == userId
  {
    match Lookup(roles, RoleKey, (boardId, userId))
    case None => NotFound
    case Some(row) => Ok(row)
  }

  /** GET /boards/:boardId */
  function GetBoard(boards: seq<Board>, boardId: Id): (r: Reply<Board>)
    ensures r.Ok? || r.NotFound?
    ensures r.NotFound? <==> !HasBoard(boards, boardId)
    ensures r.Ok? ==> r.value in boards && r.value.id == boardId
  {
    match Lookup(boards, BoardKey, boardId)
    case None => NotFound
    case Some(b) => Ok(b)
  }

  /** POST /liveblocks-session: 404 unless the user exists and holds a role
      on the room's board. */
  function LiveblocksSession(users: seq<User>, roles: seq<BoardRole>, userId: Id, room: Id): (r: Reply<Session>)
    ensures r.Ok? || r.NotFound?
    ensures r.Ok? <==> HasUser(users, userId) && HasRole(roles, room, userId)
    ensures r.Ok? ==>
      (exists j :: 0 <= j < |users| && users[j].id == userId && r.value.user == ProfileOf(users[j])) &&
      (exists j :: 0 <= j < |roles| && roles[j].boardId == room && roles[j].userId == userId &&
                   roles[j].role == r.value.role)
  {
    match Lookup(users, UserKey, userId)
    case None => NotFound
    case Some(u) =>
      match Lookup(roles, RoleKey, (room, userId))
      case None => NotFound
      case Some(row) => Ok(Session(ProfileOf(u), row.role))
  }

  /** POST /boards/check-secret: 404 for a missing board, else whether the
      board's secret equals the one supplied. */
  function CheckSecret(boards: seq<Board>, boardId: Id, secretId: string): (r: Reply<bool>)
    ensures r.Ok? || r.NotFound?
    ensures r.NotFound? <==> !HasBoard(boards, boardId)
    ensures r.Ok? ==>
      exists j :: 0 <= j < |boards| && boards[j].id == boardId && r.value == (boards[j].secretId == secretId)
  {
    match Lookup(boards, BoardKey, boardId)
    case None => NotFound
    case Some(b) => Ok(b.secretId == secretId)
  }

  /** GET /boards/:boardId/owner/:userId: a missing role row answers false. */
  function IsOwner(roles: seq<BoardRole>, boardId: Id, userId: Id): (r: bool)
    ensures r ==> exists j :: 0 <= j < |roles| && roles[j].boardId == boardId &&
                              roles[j].userId == userId && roles[j].role == Owner
    ensures !HasRole(roles, boardId, userId) ==> !r
  {
    match Lookup(roles, RoleKey, (boardId, userId))
    case None => false
    case Some(row) => row.role == Owner
  }

  /** GET /boards/:boardId/can-edit: any role row grants editing, whatever its role. */
  function CanEdit(roles: seq<BoardRole>, boardId: Id, userId: Id): (r: bool)
    ensures r <==> HasRole(roles, boardId, userId)
  {
    Lookup(roles, RoleKey, (boardId, userId)).Some?
  }

  /** GET /users/exists */
  function UserExists(users: seq<User>, email: string): (r: bool)
    ensures r <==> exists j :: 0 <= j < |users| && users[j].email == email
  {
    Lookup(users, EmailKey, email).Some?
  }

  /** POST /login: 401 when the email is unknown, the user has no password
      record, or the derived key differs from the stored hash. */
  function Login(users: seq<User>, kdf: (string, string) -> string, email: string, password: string): (r: Reply<Id>)
    ensures r.Ok? || r.Unauthorized?
    ensures r.Ok? ==>
      exists j :: 0 <= j < |users| && users[j].email == email && users[j].id == r.value &&
                  PasswordMatches(users[j], kdf, password)
    ensures (forall j :: 0 <= j < |users| ==> users[j].email != email) ==> r.Unauthorized?
  {
    match Lookup(users, EmailKey, email)
    case None => Unauthorized
    case Some(u) => if PasswordMatches(u, kdf, password) then Ok(u.id) else Unauthorized
  }

  /** Some board of `list` has the id `id`. */
  ghost predicate ListsBoard(list: seq<Board>, id: Id) {
    exists k :: 0 <= k < |list| && list[k].id == id
  }

  /** GET /boards?userId: the board of each of the user's role rows, in
      row order; a row whose board is missing fails the whole reply. */
  function ListBoards(boards: seq<Board>, roles: seq<BoardRole>, userId: Id): (r: Reply<seq<Board>>)
    ensures r.Ok? || r.ServerError?
    ensures r.Ok? <==>
      forall i :: 0 <= i < |roles| && roles[i].userId == userId ==> HasBoard(boards, roles[i].boardId)
    ensures r.Ok? ==> |r.value| == |Filter(roles, KeyIs(RoleUser, userId))|
    ensures r.Ok? ==>
      forall k :: 0 <= k < |r.value| ==> r.value[k] in boards && HasRole(roles, r.value[k].id, userId)
    ensures r.Ok? ==>
      forall i :: 0 <= i < |roles| && roles[i].userId == userId ==> ListsBoard(r.value, roles[i].boardId)
  {
    if roles == [] then Ok([])
    else
      var rest := ListBoards(boards, roles[1..], userId);
      assert forall i :: 1 <= i < |roles| ==> roles[i] == roles[1..][i - 1];
      if roles[0].userId != userId then
        assert RoleUser(roles[0]) != userId;
        assert !KeyIs(RoleUser, userId)(roles[0]);
        if rest.Ok? then
          ListedSkip(boards, roles, userId, rest.value);
          rest
        else rest
      else
        match Lookup(boards, BoardKey, roles[0].boardId)
        case None => ServerError
        case Some(b) =>
          if rest.Ok? then
            assert RoleUser(roles[0]) == userId;
            assert KeyIs(RoleUser, userId)(roles[0]);
            ListedCons(boards, roles, userId, b, rest.value);
            Ok([b] + rest.value)
          else ServerError
  }

  /** A row of another user adds nothing to the user's board list. */
  lemma ListedSkip(boards: seq<Board>, roles: seq<BoardRole>, userId: Id, list: seq<Board>)
    requires roles != [] && roles[0].userId != userId
    requires forall k :: 0 <= k < |list| ==> list[k] in boards && HasRole(roles[1..], list[k].id, userId)
    requires forall i :: 0 <= i < |roles[1..]| && roles[1..][i].userId == userId ==>
      ListsBoard(list, roles[1..][i].boardId)
    ensures forall k :: 0 <= k < |list| ==> list[k] in boards && HasRole(roles, list[k].id, userId)
    ensures forall i :: 0 <= i < |roles| && roles[i].userId == userId ==> ListsBoard(list, roles[i].boardId)
  {
    forall k | 0 <= k < |list| ensures HasRole(roles, list[k].id, userId) {
      var j :| 0 <= j < |roles[1..]| && roles[1..][j].boardId == list[k].id && roles[1..][j].userId == userId;
      assert roles[j + 1] == roles[1..][j];
    }
    forall i | 0 <= i < |roles| && roles[i].userId == userId ensures ListsBoard(list, roles[i].boardId) {
      assert roles[1..][i - 1] == roles[i];
    }
  }

  /** A row of the user puts its board in front of the user's board list. */
  lemma ListedCons(boards: seq<Board>, roles: seq<BoardRole>, userId: Id, b: Board, list: seq<Board>)
    requires roles != [] && roles[0].userId == userId && b in boards && b.id == roles[0].boardId
    requires forall k :: 0 <= k < |list| ==> list[k] in boards && HasRole(roles[1..], list[k].id, userId)
    requires forall i :: 0 <= i < |roles[1..]| && roles[1..][i].userId == userId ==>
      ListsBoard(list, roles[1..][i].boardId)
    ensures forall k :: 0 <= k < |[b] + list| ==>
      ([b] + list)[k] in boards && HasRole(roles, ([b] + list)[k].id, userId)
    ensures forall i :: 0 <= i < |roles| && roles[i].userId == userId ==> ListsBoard([b] + list, roles[i].boardId)
  {
    var l := [b] + list;
    forall k | 0 <= k < |l| ensures l[k] in boards && HasRole(roles, l[k].id, userId) {
      if k > 0 {
        assert l[k] == list[k - 1];
        var j :| 0 <= j < |roles[1..]| && roles[1..][j].boardId == list[k - 1].id && roles[1..][j].userId == userId;
        assert roles[j + 1] == roles[1..][j];
      }
    }
    forall i | 0 <= i < |roles| && roles[i].userId == userId ensures ListsBoard(l, roles[i].boardId) {
      if i == 0 {
        assert l[0].id == roles[0].boardId;
      } else {
        assert roles[1..][i - 1] == roles[i];
        var k :| 0 <= k < |list| && list[k].id == roles[i].boardId;
        assert l[k + 1] == list[k];
      }
    }
  }

  /** Each role row joined with its user, in row order; a row whose user is
      missing fails the whole reply. */
  function MembersOf(users: seq<User>, rows: seq<BoardRole>): (r: Reply<seq<Member>>)
    ensures r.Ok? || r.ServerError?
    ensures r.Ok? <==> forall i :: 0 <= i < |rows| ==> HasUser(users, rows[i].userId)
    ensures r.Ok? ==> |r.value| == |rows|
    ensures r.Ok? ==> forall i :: 0 <= i < |rows| ==> Joined(users, rows[i], r.value[i])
  {
    if rows == [] then Ok([])
    else
      match Lookup(users, UserKey, rows[0].userId)
      case None => ServerError
      case Some(u) =>
        var rest := MembersOf(users, rows[1..]);
        assert forall i :: 1 <= i < |rows| ==> rows[i] == rows[1..][i - 1];
        if rest.Ok? then Ok([MemberOf(u, rows[0])] + rest.value) else ServerError
  }

  /** GET /boards/:boardId/roles: the board's role rows ordered by addedAt,
      each projected with its user's email and name. */
  function ListRoles(users: seq<User>, roles: seq<BoardRole>, boardId: Id): (r: Reply<seq<Member>>)
    ensures r.Ok? || r.ServerError?
    ensures r.Ok? <==>
      forall i :: 0 <= i < |roles| && roles[i].boardId == boardId ==> HasUser(users, roles[i].userId)
    ensures r.Ok? ==> |r.value| == |Filter(roles, KeyIs(RoleBoard, boardId))|
    ensures r.Ok? ==> forall k, l :: 0 <= k < l < |r.value| ==> r.value[k].addedAt <= r.value[l].addedAt
    ensures r.Ok? ==>
      forall k :: 0 <= k < |r.value| ==> ListsBoardRow(users, roles, boardId, r.value[k])
    ensures r.Ok? ==>
      forall i :: 0 <= i < |roles| && roles[i].boardId == boardId ==>
        exists k :: 0 <= k < |r.value| && Joined(users, roles[i], r.value[k])
  {
    var onBoard := Filter(roles, KeyIs(RoleBoard, boardId));
    var rows := OrderBy(onBoard, RoleAddedAt);
    var r := MembersOf(users, rows);
    BoardRowsOrdered(roles, boardId, rows);
    MembersOfBoardOk(users, roles, boardId, rows);
    MembersOfAscending(users, rows);
    if r.Ok? then
      MembersOfBoardRows(users, roles, boardId, rows, r.value);
      r
    else r
  }

  /** The board's rows ordered by addedAt are exactly the board's rows of the table. */
  lemma BoardRowsOrdered(roles: seq<BoardRole>, boardId: Id, rows: seq<BoardRole>)
    requires rows == OrderBy(Filter(roles, KeyIs(RoleBoard, boardId)), RoleAddedAt)
    ensures |rows| == |Filter(roles, KeyIs(RoleBoard, boardId))|
    ensures Ascending(rows, RoleAddedAt)
    ensures forall k :: 0 <= k < |rows| ==> rows[k] in roles && rows[k].boardId == boardId
    ensures forall i :: 0 <= i < |roles| && roles[i].boardId == boardId ==> roles[i] in rows
  {
    var keep := KeyIs(RoleBoard, boardId);
    FilterOrderByMembers(roles, keep, RoleAddedAt, rows);
    forall i | 0 <= i < |roles| && roles[i].boardId == boardId ensures roles[i] in rows {
      assert RoleBoard(roles[i]) == boardId;
      assert keep(roles[i]);
    }
  }

  /** A join of the board's rows succeeds exactly when each of them names a stored user. */
  lemma MembersOfBoardOk(users: seq<User>, roles: seq<BoardRole>, boardId: Id, rows: seq<BoardRole>)
    requires forall k :: 0 <= k < |rows| ==> rows[k] in roles && rows[k].boardId == boardId
    requires forall i :: 0 <= i < |roles| && roles[i].boardId == boardId ==> roles[i] in rows
    ensures MembersOf(users, rows).Ok? <==>
      forall i :: 0 <= i < |roles| && roles[i].boardId == boardId ==> HasUser(users, roles[i].userId)
  {
  }

  /** Joining ascending rows with their users keeps them ascending by addedAt. */
  lemma MembersOfAscending(users: seq<User>, rows: seq<BoardRole>)
    requires Ascending(rows, RoleAddedAt)
    ensures MembersOf(users, rows).Ok? ==>
      forall k, l :: 0 <= k < l < |MembersOf(users, rows).value| ==>
        MembersOf(users, rows).value[k].addedAt <= MembersOf(users, rows).value[l].addedAt
  {
  }

  /** Each entry of a successful join of the board's rows is one of the
      board's rows joined with its user, and each such row has its entry. */
  lemma MembersOfBoardRows(users: seq<User>, roles: seq<BoardRole>, boardId: Id,
                           rows: seq<BoardRole>, ms: seq<Member>)
    requires forall k :: 0 <= k < |rows| ==> rows[k] in roles && rows[k].boardId == boardId
    requires forall i :: 0 <= i < |roles| && roles[i].boardId == boardId ==> roles[i] in rows
    requires |ms| == |rows| && forall k :: 0 <= k < |rows| ==> Joined(users, rows[k], ms[k])
    ensures forall k :: 0 <= k < |ms| ==> ListsBoardRow(users, roles, boardId, ms[k])
    ensures forall i :: 0 <= i < |roles| && roles[i].boardId == boardId ==>
      exists k :: 0 <= k < |ms| && Joined(users, roles[i], ms[k])
  {
  }

  /** Under the unique (boardId, userId) key, IsOwner is exactly "a row
      exists with role Owner". */
  lemma IsOwnerExact(roles: seq<BoardRole>, boardId: Id, userId: Id)
    requires Unique(roles, RoleKey)
    ensures IsOwner(roles, boardId, userId) <==>
      exists j :: 0 <= j < |roles| && roles[j].boardId == boardId &&
                  roles[j].userId == userId && roles[j].role == Owner
  {
  }

  /** An Editor row grants editing and not ownership; an Owner row grants both. */
  lemma RoleRowRights(roles: seq<BoardRole>, j: nat)
    requires Unique(roles, RoleKey) && j < |roles|
    ensures CanEdit(roles, roles[j].boardId, roles[j].userId)
    ensures IsOwner(roles, roles[j].boardId, roles[j].userId) <==> roles[j].role == Owner
  {
  }

  /** Under the unique board id, the secret check of an existing board is
      exactly the comparison with that board's secret. */
  lemma CheckSecretExact(boards: seq<Board>, j: nat, secretId: string)
    requires Unique(boards, BoardKey) && j < |boards|
    ensures CheckSecret(boards, boards[j].id, secretId) == Ok(boards[j].secretId == secretId)
  {
  }

  /** Under the unique email, login of a stored user succeeds with that
      user's id exactly when the password matches. */
  lemma LoginExact(users: seq<User>, kdf: (string, string) -> string, j: nat, password: string)
    requires Unique(users, EmailKey) && j < |users|
    ensures Login(users, kdf, users[j].email, password) ==
      if PasswordMatches(users[j], kdf, password) then Ok(users[j].id) else Unauthorized
  {
  }

  /** Registering a user with a password and then logging in with the same
      password yields the new user's id; any password deriving to another
      key is refused. */
  lemma RegisterThenLogin(users: seq<User>, kdf: (string, string) -> string, u: User,
                          password: string, salt: string, other: string)
    requires Unique(users, EmailKey) && Lookup(users, EmailKey, u.email).None?
    requires u.password == Some(Password(kdf(password, salt), salt))
    ensures Login(users + [u], kdf, u.email, password) == Ok(u.id)
    ensures kdf(other, salt) != kdf(password, salt) ==> Login(users + [u], kdf, u.email, other) == Unauthorized
  {
    LookupAppend(users, EmailKey, u, u.email);
  }

  /** Adding a board with a fresh id together with the user's role row on it
      puts the board into the user's board list. */
  lemma ListBoardsGainsBoard(boards: seq<Board>, roles: seq<BoardRole>, userId: Id, b: Board, row: BoardRole)
    requires !HasBoard(boards, b.id)
    requires row.boardId == b.id && row.userId == userId
    requires ListBoards(boards, roles, userId).Ok?
    ensures ListBoards(boards + [b], roles + [row], userId).Ok?
    ensures b in ListBoards(boards + [b], roles + [row], userId).value
  {
    ListBoardsStaysOk(boards, roles, userId, b, row);
    var boards', roles' := boards + [b], roles + [row];
    var list := ListBoards(boards', roles', userId).value;
    assert roles'[|roles|] == row;
    BoardListedOnce(boards, b, list);
  }

  /** With every board of the user's old rows still present and the new
      row's board added, the user's board list can still be produced. */
  lemma ListBoardsStaysOk(boards: seq<Board>, roles: seq<BoardRole>, userId: Id, b: Board, row: BoardRole)
    requires row.boardId == b.id
    requires ListBoards(boards, roles, userId).Ok?
    ensures ListBoards(boards + [b], roles + [row], userId).Ok?
  {
    var boards', roles' := boards + [b], roles + [row];
    forall i | 0 <= i < |roles'| && roles'[i].userId == userId
      ensures HasBoard(boards', roles'[i].boardId)
    {
      if i < |roles| {
        assert roles'[i] == roles[i];
        var j :| 0 <= j < |boards| && boards[j].id == roles[i].boardId;
        assert boards'[j] == boards[j];
      } else {
        assert boards'[|boards|] == b;
      }
    }
  }

  /** Adding a board with a fresh id together with the user's first role row
      on it leaves the user's board list producible exactly when it was before. */
  lemma ListBoardsOkIff(boards: seq<Board>, roles: seq<BoardRole>, userId: Id, b: Board, row: BoardRole)
    requires !HasBoard(boards, b.id) && !HasRole(roles, b.id, userId)
    requires row.boardId == b.id && row.userId == userId
    ensures ListBoards(boards + [b], roles + [row], userId).Ok? <==> ListBoards(boards, roles, userId).Ok?
  {
    if ListBoards(boards, roles, userId).Ok? {
      ListBoardsStaysOk(boards, roles, userId, b, row);
    } else {
      var i :| 0 <= i < |roles| && roles[i].userId == userId && !HasBoard(boards, roles[i].boardId);
      var boards', roles' := boards + [b], roles + [row];
      assert roles'[i] == roles[i];
      assert roles[i].boardId != b.id;
      forall j | 0 <= j < |boards'| ensures boards'[j].id != roles[i].boardId {
        if j < |boards| {
          assert boards'[j] == boards[j];
        }
      }
    }
  }

  /** A listed board with the fresh id of `b`, taken from `boards + [b]`, is `b`. */
  lemma BoardListedOnce(boards: seq<Board>, b: Board, list: seq<Board>)
    requires !HasBoard(boards, b.id)
    requires forall k :: 0 <= k < |list| ==> list[k] in boards + [b]
    requires ListsBoard(list, b.id)
    ensures b in list
  {
  }
}
