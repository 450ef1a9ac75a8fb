/** The rows of the three tables behind the REST server (users with their
    passwords, boards, board roles), their keys, and the outcomes a handler
    can reply with. */
module Schema {
  import opened Tables

  type Id = string

  /** Timestamps (addedAt, lastOpenedAt) are instants supplied by the clock. */
  type Instant = int

  datatype Role = Owner | Editor

  /** The stored credential: the derived key and the salt it was derived with. */
  datatype Password = Password(hash: string, salt: string)

  /** A user row; a user without a password record cannot log in. */
  datatype User = User(id: Id, email: string, name: string, password: Option<Password>)

  datatype Board = Board(id: Id, name: string, secretId: string, lastOpenedAt: Option<Instant>)

  /** Membership of one user on one board; (boardId, userId) is a unique key. */
  datatype BoardRole = BoardRole(id: Id, boardId: Id, userId: Id, role: Role, addedAt: Instant)

  function UserKey(u: User): Id { u.id }
  function EmailKey(u: User): string { u.email }
  function BoardKey(b: Board): Id { b.id }
  function RoleKey(r: BoardRole): (Id, Id) { (r.boardId, r.userId) }
  function RoleBoard(r: BoardRole): Id { r.boardId }
  function RoleUser(r: BoardRole): Id { r.userId }
  function RoleAddedAt(r: BoardRole): int { r.addedAt }

  /** What a handler replies: a JSON body of type T (status 200), status 404,
      status 401, or status 500 (a store failure that the handler reports or
      that escapes it). */
  datatype Reply<+T> = Ok(value: T) | NotFound | Unauthorized | ServerError

  ghost predicate HasUser(users: seq<User>, id: Id) {
    exists j :: 0 <= j < |users| && users[j].id == id
  }

  ghost predicate HasBoard(boards: seq<Board>, id: Id) {
    exists j :: 0 <= j < |boards| && boards[j].id == id
  }

  ghost predicate HasRole(roles: seq<BoardRole>, boardId: Id, userId: Id) {
    exists j :: 0 <= j < |roles| && roles[j].boardId == boardId && roles[j].userId == userId
  }
}
