/** The four user handlers as methods of a store that owns the user and
    note collections. Each handler checks its guards with early returns
    and then changes the user collection in place; each is proved to
    answer and leave the store exactly as the matching function of
    UserModel says. */
module UsersController {
  import opened UserModel

  class UserStore {
    /** The user collection by document id. */
    var users: map<Id, User>
    /** The note collection; the user handlers only search it. */
    var notes: seq<Note>
    /** The id the next inserted user receives. */
    var nextId: nat
    /** The one-way password hash (salt rounds not modelled). */
    const hash: string -> Digest

    function State(): (s: Db)
      reads this
    {
      Db(users, notes, nextId)
    }

    ghost predicate Valid()
      reads this
    {
      WellFormed(State())
    }

    constructor (hash: string -> Digest)
      ensures Valid()
      ensures users == map[] && notes == [] && nextId == 0 && this.hash == hash
    {
      users, notes, nextId := map[], [], 0;
      this.hash := hash;
    }

    /** The lookup of a user document by username: some user with that
        name, if there is one. */
    method FindByUsername(name: string) returns (found: Option<Id>)
      ensures found.None? <==> !NameTaken(users, name)
      ensures found.Some? ==> found.value in users && users[found.value].username == name
    {
      if k :| k in users && users[k].username == name {
        found := Some(k);
      } else {
        found := None;
      }
    }

    /** The lookup of a note by the user it refers to. */
    method FindNoteOf(id: Id) returns (note: Option<Note>)
      ensures note.None? <==> !HasNotes(notes, id)
      ensures note.Some? ==> note.value in notes && note.value.user == id
    {
      if i :| 0 <= i < |notes| && notes[i].user == id {
        note := Some(notes[i]);
      } else {
        note := None;
      }
    }

    /** GET /users: every user without its password; 400 when there are none. */
    method GetAllUsers() returns (r: Response)
      ensures r == ListUsers(State())
    {
      var found := map k | k in users :: Public(users[k]);
      assert found.Keys == users.Keys;
      if found == map[] {
        return Response(400, Message("No users found"));
      }
      r := Response(200, UserList(found));
    }

    /** POST /users. */
    method CreateNewUser(body: CreateBody) returns (r: Response)
      requires Valid()
      modifies this
      ensures Valid()
      ensures Outcome(r, State()) == Create(old(State()), body, hash)
    {
      if !CreateFieldsPresent(body) {
        return Response(400, Message("All fields are required"));
      }
      var username, password, roles := body.username.value, body.password.value, body.roles.value;

      var duplicate := FindByUsername(username);
      if duplicate.Some? {
        return Response(409, Message("Duplicated username"));
      }

      var hashPwd := hash(password);
      users := users[nextId := User(username, hashPwd, roles, true)];
      nextId := nextId + 1;
      r := Response(201, Message("New user " + username + " created"));
    }

    /** PATCH /users. The document is read, its fields are assigned, and it
        is written back. */
    method UpdateUser(body: UpdateBody) returns (r: Response)
      requires Valid()
      modifies this
      ensures Valid()
      ensures Outcome(r, State()) == Update(old(State()), body, hash)
    {
      if !UpdateFieldsPresent(body) {
        return Response(400, Message("All fields except password are required"));
      }
      var id, username := body.id.value, body.username.value;

      if id !in users {
        return Response(400, Message("User not found"));
      }
      var user := users[id];

      var duplicate := FindByUsername(username);
      if duplicate.Some? && duplicate.value != id {
        return Response(409, Message("Duplicate username"));
      }

      user := user.(username := username, roles := body.roles.value, active := body.active.value);
      if Truthy(body.password) {
        user := user.(password := hash(body.password.value));
      }
      users := users[id := user];
      r := Response(200, Message(user.username + " updated"));
    }

    /** DELETE /users. The note check runs before the existence check. */
    method DeleteUser(body: DeleteBody) returns (r: Response)
      requires Valid()
      modifies this
      ensures Valid()
      ensures Outcome(r, State()) == Delete(old(State()), body)
    {
      if body.id.None? {
        return Response(400, Message("User ID Required"));
      }
      var id := body.id.value;

      var note := FindNoteOf(id);
      if note.Some? {
        return Response(400, Message("User has assigned notes"));
      }

      if id !in users {
        return Response(400, Message("User not found"));
      }
      var result := users[id];
      users := users - {id};
      r := Response(200, Deleted(result.username, id));
    }
  }

  /** A client session: create a user, refuse a second user of that name,
      refuse to delete it while a note refers to it, and delete it once the
      note is gone. The note is added and removed directly, standing for
      the notes handlers. */
  method DeleteBlockedUntilNotesGone(hash: string -> Digest)
  {
    var store := new UserStore(hash);
    var alice := CreateBody(Some("alice"), Some("pw123"), Some(["Employee"]));
    var r := store.CreateNewUser(alice);
    assert CreateFieldsPresent(alice) && !NameTaken(map[], "alice");
    assert r.status == 201 && store.users == map[0 := User("alice", hash("pw123"), ["Employee"], true)];

    r := store.CreateNewUser(alice);
    assert store.users[0].username == "alice";
    assert r.status == 409;

    store.notes := [Note(0)];
    assert store.notes[0].user == 0;
    r := store.DeleteUser(DeleteBody(Some(0)));
    assert r == Response(400, Message("User has assigned notes")) && 0 in store.users;

    store.notes := [];
    r := store.DeleteUser(DeleteBody(Some(0)));
    assert r == Response(200, Deleted("alice", 0));
    assert store.users == map[];
  }
}
