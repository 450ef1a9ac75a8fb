/** A client's walk through the server: two people register, the first
    creates a board and invites the second by email, the board is deleted. */
module Scenarios {
  import opened Tables
  import opened Schema
  import opened Queries
  import opened Server

  /** Two registrations with distinct emails both succeed, and each person
      can then log in with the password they chose. */
  method Register(kdf: (string, string) -> string) returns (s: Store)
    ensures fresh(s) && s.Valid() && s.kdf == kdf
    ensures Registrants(s) && s.boards == [] && s.roles == []
    ensures Login(s.users, kdf, "ann@example.org", "pw-ann") == Ok("u1")
    ensures Login(s.users, kdf, "bob@example.org", "pw-bob") == Ok("u2")
  {
    s := new Store(kdf);
    var ann := s.CreateUser("ann@example.org", "pw-ann", "Ann", "salt-a", "u1");
    var a := Registered(kdf, "u1", "ann@example.org", "Ann", "pw-ann", "salt-a");
    assert s.users == [a];
    assert !UserExists(s.users, "bob@example.org") && !HasUser(s.users, "u2");
    var bob := s.CreateUser("bob@example.org", "pw-bob", "Bob", "salt-b", "u2");
    var b := Registered(kdf, "u2", "bob@example.org", "Bob", "pw-bob", "salt-b");
    assert s.users == [a, b];
    LoginExact(s.users, kdf, 0, "pw-ann");
    LoginExact(s.users, kdf, 1, "pw-bob");
  }

  /** The two registered people of `Register`. */
  ghost predicate Registrants(s: Store)
    reads s
  {
    s.users == [Registered(s.kdf, "u1", "ann@example.org", "Ann", "pw-ann", "salt-a"),
                Registered(s.kdf, "u2", "bob@example.org", "Bob", "pw-bob", "salt-b")]
  }

  /** The first person creates an unnamed board and becomes its only member. */
  method CreateFirstBoard(s: Store)
    requires s.Valid() && Registrants(s) && s.boards == [] && s.roles == []
    modifies s
    ensures s.Valid() && Registrants(s)
    ensures s.boards == [Board("b1", DefaultBoardName, "s1", None)]
    ensures s.roles == [BoardRole("r1", "b1", "u1", Owner, 10)]
  {
    var board := s.CreateBoard("u1", None, "b1", "s1", "r1", 10);
  }

  /** The owner invites the second person by email. */
  method InviteSecond(s: Store)
    requires s.Valid() && Registrants(s)
    requires s.roles == [BoardRole("r1", "b1", "u1", Owner, 10)]
    modifies s
    ensures s.Valid() && Registrants(s)
    ensures s.roles == [BoardRole("r1", "b1", "u1", Owner, 10), BoardRole("r2", "b1", "u2", Editor, 20)]
  {
    assert s.users[1].email == "bob@example.org";
    assert s.roles[0].userId != "u2";
    ghost var before := s.roles;
    var added := s.AddMember("b1", "bob@example.org", "r2", 20);
    assert added.Ok?;
    ghost var j :| 0 <= j < |s.users| && s.users[j].email == "bob@example.org" &&
                   s.roles == before + [BoardRole("r2", "b1", s.users[j].id, Editor, 20)];
    assert s.users[0].email != "bob@example.org" && s.users[1].id == "u2";
  }

  /** After the board is created and the invitation sent, the creator owns
      the board and the invitee may edit it without owning it. */
  method Invite(s: Store)
    requires s.Valid() && Registrants(s) && s.boards == [] && s.roles == []
    modifies s
    ensures s.Valid()
    ensures IsOwner(s.roles, "b1", "u1") && !IsOwner(s.roles, "b1", "u2")
    ensures CanEdit(s.roles, "b1", "u1") && CanEdit(s.roles, "b1", "u2")
  {
    CreateFirstBoard(s);
    InviteSecond(s);
    RoleRowRights(s.roles, 0);
    RoleRowRights(s.roles, 1);
  }

  /** Deleting the board makes it unknown to every board query. The role
      rows stay behind, because the model has no referential actions. */
  method DeleteKeepsRoles(kdf: (string, string) -> string) returns (s: Store)
    ensures fresh(s) && s.Valid()
    ensures GetBoard(s.boards, "b1") == NotFound && CheckSecret(s.boards, "b1", "s1") == NotFound
    ensures CanEdit(s.roles, "b1", "u1")
    ensures ListBoards(s.boards, s.roles, "u1") == ServerError
  {
    s := new Store(kdf);
    var board := s.CreateBoard("u1", Some("Plan"), "b1", "s1", "r1", 10);
    var deleted := s.DeleteBoard("b1");
    assert s.roles[0].userId == "u1" && !HasBoard(s.boards, s.roles[0].boardId);
  }
}
