/** The REST server's handlers that write: each is a method on the store
    that holds the three tables, and each states the whole new state. */
module Server {
  import opened Tables
  import opened Schema
  import opened Queries

  /** The name a board gets when the request gives none. */
  const DefaultBoardName: string := "Untitled"

  /** The role table after POST /board-roles: a row already present for the
      pair is kept as it is (the upsert's update is empty), otherwise one
      Editor row is added. */
  function UpsertEditor(roles: seq<BoardRole>, boardId: Id, userId: Id, newRoleId: Id, now: Instant): (r: seq<BoardRole>)
    ensures HasRole(r, boardId, userId)
    ensures HasRole(roles, boardId, userId) ==> r == roles
    ensures !HasRole(roles, boardId, userId) ==>
      r == roles + [BoardRole(newRoleId, boardId, userId, Editor, now)]
  {
    if Lookup(roles, RoleKey, (boardId, userId)).Some? then roles
    else
      var row := BoardRole(newRoleId, boardId, userId, Editor, now);
      assert (roles + [row])[|roles|] == row;
      roles + [row]
  }

  /** Upserting twice is upserting once, whatever ids and instants the
      second call brings. */
  lemma UpsertIdempotent(roles: seq<BoardRole>, boardId: Id, userId: Id,
                         id1: Id, t1: Instant, id2: Id, t2: Instant)
    ensures UpsertEditor(UpsertEditor(roles, boardId, userId, id1, t1), boardId, userId, id2, t2) ==
            UpsertEditor(roles, boardId, userId, id1, t1)
  {
  }

  /** The upsert never changes the role of a user who already has one, so an
      Owner stays Owner; rights on other pairs are untouched. */
  lemma UpsertKeepsRights(roles: seq<BoardRole>, boardId: Id, userId: Id, newRoleId: Id, now: Instant,
                          b: Id, u: Id)
    ensures var after := UpsertEditor(roles, boardId, userId, newRoleId, now);
            && (IsOwner(roles, boardId, userId) ==> IsOwner(after, boardId, userId))
            && CanEdit(after, boardId, userId)
            && ((b, u) != (boardId, userId) ==>
                  IsOwner(after, b, u) == IsOwner(roles, b, u) && CanEdit(after, b, u) == CanEdit(roles, b, u))
  {
    LookupAppend(roles, RoleKey, BoardRole(newRoleId, boardId, userId, Editor, now), (b, u));
  }

  /** The user row that registration stores: the password is kept only as
      its derivation under the salt, next to the salt. */
  function Registered(kdf: (string, string) -> string, id: Id, email: string, name: string,
                      password: string, salt: string): User {
    User(id, email, name, Some(Password(kdf(password, salt), salt)))
  }

  class Store {
    var users: seq<User>
    var boards: seq<Board>
    var roles: seq<BoardRole>
    /** The password derivation (a keyed, salted hash of the password), left uninterpreted. */
    const kdf: (string, string) -> string

    /** The unique constraints of the three tables. */
    ghost predicate Valid()
      reads this
    {
      && Unique(users, UserKey)
      && Unique(users, EmailKey)
      && Unique(boards, BoardKey)
      && Unique(roles, RoleKey)
    }

    constructor (kdf: (string, string) -> string)
      ensures Valid() && this.kdf == kdf
      ensures users == [] && boards == [] && roles == []
    {
      this.kdf := kdf;
      users, boards, roles := [], [], [];
    }

    /** POST /boards: add the board, then the creator's Owner row. A taken
        board id fails the first write; a role row already present for the
        pair fails the second write after the first has happened. */
    method CreateBoard(userId: Id, boardName: Option<string>, newBoardId: Id, newSecretId: string,
                       newRoleId: Id, now: Instant) returns (r: Reply<Board>)
      requires Valid()
      modifies this
      ensures Valid() && users == old(users)
      ensures r.Ok? || r.ServerError?
      ensures var board := Board(newBoardId, if boardName.Some? then boardName.value else DefaultBoardName,
                                 newSecretId, None);
              if old(HasBoard(boards, newBoardId)) then
                r == ServerError && boards == old(boards) && roles == old(roles)
              else if old(HasRole(roles, newBoardId, userId)) then
                r == ServerError && boards == old(boards) + [board] && roles == old(roles)
              else
                && r == Ok(board)
                && boards == old(boards) + [board]
                && roles == old(roles) + [BoardRole(newRoleId, newBoardId, userId, Owner, now)]
      ensures r.Ok? ==> IsOwner(roles, newBoardId, userId) && CheckSecret(boards, newBoardId, newSecretId) == Ok(true)
      ensures r.Ok? ==> (ListBoards(boards, roles, userId).Ok? <==> old(ListBoards(boards, roles, userId)).Ok?)
      ensures r.Ok? && ListBoards(boards, roles, userId).Ok? ==> r.value in ListBoards(boards, roles, userId).value
    {
      var board := Board(newBoardId, if boardName.Some? then boardName.value else DefaultBoardName,
                         newSecretId, None);
      if Lookup(boards, BoardKey, newBoardId).Some? {
        return ServerError;
      }
      UniqueAppend(boards, BoardKey, board);
      boards := boards + [board];
      if Lookup(roles, RoleKey, (newBoardId, userId)).Some? {
        return ServerError;
      }
      var owner := BoardRole(newRoleId, newBoardId, userId, Owner, now);
      UniqueAppend(roles, RoleKey, owner);
      LookupAppend(roles, RoleKey, owner, (newBoardId, userId));
      LookupAppend(old(boards), BoardKey, board, newBoardId);
      ListBoardsOkIff(old(boards), roles, userId, board, owner);
      if ListBoards(old(boards), roles, userId).Ok? {
        ListBoardsGainsBoard(old(boards), roles, userId, board, owner);
      }
      roles := roles + [owner];
      r := Ok(board);
    }

    /** POST /board-roles */
    method UpsertEditorRole(boardId: Id, userId: Id, newRoleId: Id, now: Instant) returns (r: Reply<()>)
      requires Valid()
      modifies this
      ensures Valid() && r == Ok(())
      ensures roles == UpsertEditor(old(roles), boardId, userId, newRoleId, now)
      ensures users == old(users) && boards == old(boards)
    {
      if Lookup(roles, RoleKey, (boardId, userId)).None? {
        UniqueAppend(roles, RoleKey, BoardRole(newRoleId, boardId, userId, Editor, now));
      }
      roles := UpsertEditor(roles, boardId, userId, newRoleId, now);
      r := Ok(());
    }

    /** POST /boards/:boardId/members: 404 for an unknown email; otherwise an
        Editor row for that user, which fails like any insert when the pair
        already has a row. */
    method AddMember(boardId: Id, email: string, newRoleId: Id, now: Instant) returns (r: Reply<string>)
      requires Valid()
      modifies this
      ensures Valid() && users == old(users) && boards == old(boards)
      ensures r.Ok? || r.NotFound? || r.ServerError?
      ensures r.NotFound? <==> !old(UserExists(users, email))
      ensures !r.Ok? ==> roles == old(roles)
      ensures r.Ok? ==>
        exists j :: 0 <= j < |users| && users[j].email == email
          && !old(HasRole(roles, boardId, users[j].id))
          && roles == old(roles) + [BoardRole(newRoleId, boardId, users[j].id, Editor, now)]
          && CanEdit(roles, boardId, users[j].id) && !IsOwner(roles, boardId, users[j].id)
      ensures r.ServerError? ==>
        exists j :: 0 <= j < |users| && users[j].email == email && old(HasRole(roles, boardId, users[j].id))
      ensures r.Ok? ==> r.value == "User \"" + email + "\" added to board."
    {
      var found := Lookup(users, EmailKey, email);
      if found.None? {
        return NotFound;
      }
      var user := found.value;
      if Lookup(roles, RoleKey, (boardId, user.id)).Some? {
        return ServerError;
      }
      var row := BoardRole(newRoleId, boardId, user.id, Editor, now);
      UniqueAppend(roles, RoleKey, row);
      LookupAppend(roles, RoleKey, row, (boardId, user.id));
      roles := roles + [row];
      r := Ok("User \"" + email + "\" added to board.");
    }

    /** PATCH /boards/:boardId/name: updating a missing board fails. */
    method RenameBoard(boardId: Id, newBoardName: string) returns (r: Reply<()>)
      requires Valid()
      modifies this
      ensures Valid() && users == old(users) && roles == old(roles)
      ensures r.Ok? || r.ServerError?
      ensures r.Ok? <==> old(HasBoard(boards, boardId))
      ensures r.ServerError? ==> boards == old(boards)
      ensures r.Ok? ==>
        var renamed := old(GetBoard(boards, boardId)).value.(name := newBoardName);
        boards == Replace(old(boards), BoardKey, boardId, renamed) && GetBoard(boards, boardId) == Ok(renamed)
      ensures forall id :: id != boardId ==> GetBoard(boards, id) == old(GetBoard(boards, id))
    {
      var found := Lookup(boards, BoardKey, boardId);
      if found.None? {
        return ServerError;
      }
      var renamed := found.value.(name := newBoardName);
      ReplaceUnique(boards, BoardKey, boardId, renamed);
      forall id ensures Lookup(Replace(boards, BoardKey, boardId, renamed), BoardKey, id) ==
                        if id != boardId then Lookup(boards, BoardKey, id) else Some(renamed)
      {
        LookupReplace(boards, BoardKey, boardId, renamed, id);
      }
      boards := Replace(boards, BoardKey, boardId, renamed);
      r := Ok(());
    }

    /** PATCH /boards/:boardId/last-opened: the clock's reading is `now`;
        updating a missing board fails. */
    method TouchLastOpened(boardId: Id, now: Instant) returns (r: Reply<()>)
      requires Valid()
      modifies this
      ensures Valid() && users == old(users) && roles == old(roles)
      ensures r.Ok? || r.ServerError?
      ensures r.Ok? <==> old(HasBoard(boards, boardId))
      ensures r.ServerError? ==> boards == old(boards)
      ensures r.Ok? ==>
        var touched := old(GetBoard(boards, boardId)).value.(lastOpenedAt := Some(now));
        boards == Replace(old(boards), BoardKey, boardId, touched) && GetBoard(boards, boardId) == Ok(touched)
      ensures forall id :: id != boardId ==> GetBoard(boards, id) == old(GetBoard(boards, id))
    {
      var found := Lookup(boards, BoardKey, boardId);
      if found.None? {
        return ServerError;
      }
      var touched := found.value.(lastOpenedAt := Some(now));
      ReplaceUnique(boards, BoardKey, boardId, touched);
      forall id ensures Lookup(Replace(boards, BoardKey, boardId, touched), BoardKey, id) ==
                        if id != boardId then Lookup(boards, BoardKey, id) else Some(touched)
      {
        LookupReplace(boards, BoardKey, boardId, touched, id);
      }
      boards := Replace(boards, BoardKey, boardId, touched);
      r := Ok(());
    }

    /** DELETE /boards/:boardId: replies with the deleted row; deleting a
        missing board fails. */
    method DeleteBoard(boardId: Id) returns (r: Reply<Board>)
      requires Valid()
      modifies this
      ensures Valid() && users == old(users) && roles == old(roles)
      ensures r.Ok? || r.ServerError?
      ensures r.Ok? <==> old(HasBoard(boards, boardId))
      ensures r.Ok? ==> r == old(GetBoard(boards, boardId)) && boards == Filter(old(boards), KeyIsNot(BoardKey, boardId))
      ensures r.ServerError? ==> boards == old(boards)
      ensures GetBoard(boards, boardId) == NotFound
      ensures forall s :: CheckSecret(boards, boardId, s) == NotFound
      ensures forall id :: id != boardId ==> GetBoard(boards, id) == old(GetBoard(boards, id))
    {
      var found := Lookup(boards, BoardKey, boardId);
      if found.None? {
        return ServerError;
      }
      FilterUnique(boards, KeyIsNot(BoardKey, boardId), BoardKey);
      forall id ensures Lookup(Filter(boards, KeyIsNot(BoardKey, boardId)), BoardKey, id) ==
                        if id == boardId then None else Lookup(boards, BoardKey, id)
      {
        LookupDelete(boards, BoardKey, boardId, id);
      }
      boards := Filter(boards, KeyIsNot(BoardKey, boardId));
      r := Ok(found.value);
    }

    /** POST /users: the salt is the random draw; a taken email (or id)
        fails the insert. */
    method CreateUser(email: string, password: string, name: string, salt: string, newUserId: Id)
      returns (r: Reply<Id>)
      requires Valid()
      modifies this
      ensures Valid() && boards == old(boards) && roles == old(roles)
      ensures r.Ok? || r.ServerError?
      ensures r.Ok? <==> !old(UserExists(users, email)) && !old(HasUser(users, newUserId))
      ensures r.ServerError? ==> users == old(users)
      ensures r.Ok? ==>
        && r.value == newUserId
        && users == old(users) + [Registered(kdf, newUserId, email, name, password, salt)]
      ensures r.Ok? ==> Login(users, kdf, email, password) == Ok(newUserId) && UserExists(users, email)
    {
      if Lookup(users, EmailKey, email).Some? || Lookup(users, UserKey, newUserId).Some? {
        return ServerError;
      }
      var user := Registered(kdf, newUserId, email, name, password, salt);
      UniqueAppend(users, UserKey, user);
      UniqueAppend(users, EmailKey, user);
      RegisterThenLogin(users, kdf, user, password, salt, password);
      users := users + [user];
      r := Ok(newUserId);
    }
  }
}
