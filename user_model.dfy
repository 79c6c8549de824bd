/** The user resource of the notes back end: stored users, the notes that
    refer to them, the request bodies the four user handlers accept, and
    what each handler answers and leaves behind, as functions on a value
    of the whole store. The class in users_controller.dfy runs the same
    handlers in place and is proved equal to these functions. */
module UserModel {

  datatype Option<T> = None | Some(value: T)

  /** Document ids: abstract labels standing for ObjectId strings, not
      JavaScript numbers, so 0 is an ordinary id and not falsy. The database
      mints a fresh one for every inserted user; here a counter in the store
      does. */
  type Id = nat
  type Role = string
  /** What the one-way password hash produces. */
  type Digest = string

  /** A stored user document. `password` only ever holds a digest. */
  datatype User = User(username: string, password: Digest, roles: seq<Role>, active: bool)

  /** A user as the list handler sends it: the password field is not there. */
  datatype PublicUser = PublicUser(username: string, roles: seq<Role>, active: bool)

  /** A note, reduced to the reference that matters for users. */
  datatype Note = Note(user: Id)

  /** The persisted state: the user collection by id, the note collection,
      and the next id the database will hand out. */
  datatype Db = Db(users: map<Id, User>, notes: seq<Note>, nextId: nat)

  /** Request bodies. A field is `None` when it is absent; for `roles` and
      `active` also when it has the wrong JavaScript type (not an array, not
      a boolean). String fields hold strings only; an empty string is
      present but falsy. */
  datatype CreateBody = CreateBody(username: Option<string>, password: Option<string>, roles: Option<seq<Role>>)
  datatype UpdateBody = UpdateBody(id: Option<Id>, username: Option<string>, roles: Option<seq<Role>>,
                                   active: Option<bool>, password: Option<string>)
  datatype DeleteBody = DeleteBody(id: Option<Id>)

  /** JSON replies: a `{ message }` object, the user array (keyed by id, its
      order is not modelled), or the delete confirmation string
      "Username <username> with ID <id> deleted". */
  datatype Reply = Message(text: string) | UserList(users: map<Id, PublicUser>) | Deleted(username: string, id: Id)

  datatype Response = Response(status: nat, reply: Reply)

  /** What a handler answers and the store it leaves. */
  datatype Outcome = Outcome(response: Response, db: Db)

  /** JavaScript truthiness of an optional string field. */
  predicate Truthy(s: Option<string>) {
    s.Some? && s.value != ""
  }

  predicate UniqueUsernames(users: map<Id, User>) {
    forall a, b :: a in users && b in users && users[a].username == users[b].username ==> a == b
  }

  /** The store invariant the handlers keep: ids below the counter (so a
      minted id is fresh), usernames unique, every user has some role. */
  predicate WellFormed(db: Db) {
    && (forall k :: k in db.users ==> k < db.nextId)
    && UniqueUsernames(db.users)
    && (forall k :: k in db.users ==> db.users[k].roles != [])
  }

  predicate NameTaken(users: map<Id, User>, name: string) {
    exists k :: k in users && users[k].username == name
  }

  predicate NameTakenByOther(users: map<Id, User>, name: string, id: Id) {
    exists k :: k in users && k != id && users[k].username == name
  }

  predicate HasNotes(notes: seq<Note>, id: Id) {
    exists i :: 0 <= i < |notes| && notes[i].user == id
  }

  /** Validation guard of the create handler. */
  predicate CreateFieldsPresent(b: CreateBody) {
    Truthy(b.username) && Truthy(b.password) && b.roles.Some? && b.roles.value != []
  }

  /** Validation guard of the update handler; the password is optional. */
  predicate UpdateFieldsPresent(b: UpdateBody) {
    b.id.Some? && Truthy(b.username) && b.roles.Some? && b.roles.value != [] && b.active.Some?
  }

  function Public(u: User): (p: PublicUser) {
    PublicUser(u.username, u.roles, u.active)
  }

  /** GET /users. An empty collection is answered as an error. */
  function ListUsers(db: Db): (r: Response)
    ensures r.status == 400 <==> db.users == map[]
    ensures r.status == 400 ==> r.reply == Message("No users found")
    ensures r.status != 400 ==> r.status == 200 && r.reply.UserList? && r.reply.users.Keys == db.users.Keys
    ensures r.reply.UserList? ==>
              forall k :: k in r.reply.users ==>
                && r.reply.users[k].username == db.users[k].username
                && r.reply.users[k].roles == db.users[k].roles
                && r.reply.users[k].active == db.users[k].active
  {
    var found := map k | k in db.users :: Public(db.users[k]);
    assert found.Keys == db.users.Keys;
    if found == map[] then Response(400, Message("No users found"))
    else Response(200, UserList(found))
  }

  /** POST /users. New users are active (the schema default). */
  function Create(db: Db, body: CreateBody, hash: string -> Digest): (o: Outcome)
    ensures o.response.status in {201, 400, 409}
    ensures o.response == Response(400, Message("All fields are required")) <==> !CreateFieldsPresent(body)
    ensures o.response.status == 400 <==> !CreateFieldsPresent(body)
    ensures o.response.status == 409 <==> CreateFieldsPresent(body) && NameTaken(db.users, body.username.value)
    ensures o.response.status == 201 <==> CreateFieldsPresent(body) && !NameTaken(db.users, body.username.value)
    ensures o.response.status == 409 ==> o.response.reply == Message("Duplicated username")
    ensures o.response.status != 201 ==> o.db == db
    ensures o.response.status == 201 ==>
              var id := db.nextId;
              && o.db.users.Keys == db.users.Keys + {id}
              && o.db.users[id] == User(body.username.value, hash(body.password.value), body.roles.value, true)
              && (forall k :: k in db.users && k != id ==> o.db.users[k] == db.users[k])
              && o.db.notes == db.notes && o.db.nextId == db.nextId + 1
              && o.response.reply == Message("New user " + body.username.value + " created")
    ensures WellFormed(db) && o.response.status == 201 ==> db.nextId !in db.users && |o.db.users| == |db.users| + 1
    ensures WellFormed(db) ==> WellFormed(o.db)
  {
    if !CreateFieldsPresent(body) then
      Outcome(Response(400, Message("All fields are required")), db)
    else if NameTaken(db.users, body.username.value) then
      Outcome(Response(409, Message("Duplicated username")), db)
    else
      var username := body.username.value;
      var user := User(username, hash(body.password.value), body.roles.value, true);
      Outcome(Response(201, Message("New user " + username + " created")),
              Db(db.users[db.nextId := user], db.notes, db.nextId + 1))
  }

  /** PATCH /users. The existence check comes before the duplicate check,
      a user may keep its own name, and the stored digest is replaced only
      when a non-empty password is supplied. */
  function Update(db: Db, body: UpdateBody, hash: string -> Digest): (o: Outcome)
    ensures o.response.status in {200, 400, 409}
    ensures o.response == Response(400, Message("All fields except password are required")) <==> !UpdateFieldsPresent(body)
    ensures o.response == Response(400, Message("User not found")) <==>
              UpdateFieldsPresent(body) && body.id.value !in db.users
    ensures o.response.status == 409 <==>
              UpdateFieldsPresent(body) && body.id.value in db.users
              && NameTakenByOther(db.users, body.username.value, body.id.value)
    ensures o.response.status == 409 ==> o.response.reply == Message("Duplicate username")
    ensures o.response.status == 400 <==> !UpdateFieldsPresent(body) || body.id.value !in db.users
    ensures o.response.status == 200 <==>
              UpdateFieldsPresent(body) && body.id.value in db.users
              && !NameTakenByOther(db.users, body.username.value, body.id.value)
    ensures o.response.status != 200 ==> o.db == db
    ensures o.response.status == 200 ==>
              var id := body.id.value;
              && id in db.users
              && o.db.users.Keys == db.users.Keys
              && o.db.users[id].username == body.username.value
              && o.db.users[id].roles == body.roles.value
              && o.db.users[id].active == body.active.value
              && o.db.users[id].password == (if Truthy(body.password) then hash(body.password.value)
                                             else db.users[id].password)
              && (forall k :: k in db.users && k != id ==> o.db.users[k] == db.users[k])
              && o.db.notes == db.notes && o.db.nextId == db.nextId
              && o.response.reply == Message(body.username.value + " updated")
    ensures WellFormed(db) ==> WellFormed(o.db)
  {
    if !UpdateFieldsPresent(body) then
      Outcome(Response(400, Message("All fields except password are required")), db)
    else if body.id.value !in db.users then
      Outcome(Response(400, Message("User not found")), db)
    else if NameTakenByOther(db.users, body.username.value, body.id.value) then
      Outcome(Response(409, Message("Duplicate username")), db)
    else
      var id := body.id.value;
      var stored := db.users[id];
      var password := if Truthy(body.password) then hash(body.password.value) else stored.password;
      var user := User(body.username.value, password, body.roles.value, body.active.value);
      Outcome(Response(200, Message(body.username.value + " updated")),
              Db(db.users[id := user], db.notes, db.nextId))
  }

  /** DELETE /users. Referencing notes block the delete even when no such
      user exists; otherwise exactly that user goes. */
  function Delete(db: Db, body: DeleteBody): (o: Outcome)
    ensures o.response.status in {200, 400}
    ensures o.response == Response(400, Message("User ID Required")) <==> body.id.None?
    ensures o.response == Response(400, Message("User has assigned notes")) <==>
              body.id.Some? && HasNotes(db.notes, body.id.value)
    ensures o.response == Response(400, Message("User not found")) <==>
              body.id.Some? && !HasNotes(db.notes, body.id.value) && body.id.value !in db.users
    ensures o.response.status == 200 <==>
              body.id.Some? && !HasNotes(db.notes, body.id.value) && body.id.value in db.users
    ensures o.response.status == 400 ==> o.db == db
    ensures o.response.status == 200 ==>
              var id := body.id.value;
              && id in db.users
              && o.response.reply == Deleted(db.users[id].username, id)
              && o.db.users == db.users - {id}
              && o.db.notes == db.notes && o.db.nextId == db.nextId
    ensures forall i :: 0 <= i < |db.notes| && db.notes[i].user in db.users ==> db.notes[i].user in o.db.users
    ensures WellFormed(db) ==> WellFormed(o.db)
  {
    if body.id.None? then
      Outcome(Response(400, Message("User ID Required")), db)
    else if HasNotes(db.notes, body.id.value) then
      Outcome(Response(400, Message("User has assigned notes")), db)
    else if body.id.value !in db.users then
      Outcome(Response(400, Message("User not found")), db)
    else
      var id := body.id.value;
      Outcome(Response(200, Deleted(db.users[id].username, id)),
              Db(db.users - {id}, db.notes, db.nextId))
  }

  /** One request to the user routes. */
  datatype Request =
    | GetUsers
    | PostUser(create: CreateBody)
    | PatchUser(update: UpdateBody)
    | DeleteUser(delete: DeleteBody)

  /** True when `req` is an update of user `k` that carries a new password. */
  predicate SetsPassword(req: Request, k: Id) {
    req.PatchUser? && req.update.id == Some(k) && Truthy(req.update.password)
  }

  /** Dispatch of one request to its handler. */
  function Step(db: Db, req: Request, hash: string -> Digest): (o: Outcome)
    ensures o.response.status >= 400 ==> o.db == db
    ensures o.db.notes == db.notes
    ensures db.nextId <= o.db.nextId
    ensures WellFormed(db) ==> WellFormed(o.db)
    ensures forall k :: k in db.users && HasNotes(db.notes, k) ==> k in o.db.users
    ensures forall k :: k !in db.users && k < db.nextId ==> k !in o.db.users
    ensures WellFormed(db) ==>
              forall k :: k in db.users && k in o.db.users && !SetsPassword(req, k) ==>
                o.db.users[k].password == db.users[k].password
  {
    match req
    case GetUsers => Outcome(ListUsers(db), db)
    case PostUser(b) => Create(db, b, hash)
    case PatchUser(b) => Update(db, b, hash)
    case DeleteUser(b) => Delete(db, b)
  }

  /** The store after serving `reqs` one after the other. */
  function Run(db: Db, reqs: seq<Request>, hash: string -> Digest): (r: Db)
    decreases |reqs|
  {
    if reqs == [] then db else Run(Step(db, reqs[0], hash).db, reqs[1..], hash)
  }

  /** Every sequence of requests keeps the store well formed; in particular
      usernames stay unique. */
  lemma {:induction false} RunPreservesWellFormed(db: Db, reqs: seq<Request>, hash: string -> Digest)
    requires WellFormed(db)
    ensures WellFormed(Run(db, reqs, hash))
    decreases |reqs|
  {
    if reqs != [] {
      RunPreservesWellFormed(Step(db, reqs[0], hash).db, reqs[1..], hash);
    }
  }

  /** The user handlers never change the note collection. */
  lemma {:induction false} RunKeepsNotes(db: Db, reqs: seq<Request>, hash: string -> Digest)
    ensures Run(db, reqs, hash).notes == db.notes
    decreases |reqs|
  {
    if reqs != [] {
      RunKeepsNotes(Step(db, reqs[0], hash).db, reqs[1..], hash);
    }
  }

  /** No sequence of requests deletes a user that a note refers to. */
  lemma {:induction false} NotedUserSurvivesRun(db: Db, reqs: seq<Request>, hash: string -> Digest, k: Id)
    requires k in db.users && HasNotes(db.notes, k)
    ensures k in Run(db, reqs, hash).users
    decreases |reqs|
  {
    if reqs != [] {
      NotedUserSurvivesRun(Step(db, reqs[0], hash).db, reqs[1..], hash, k);
    }
  }

  /** An id that was handed out and is gone never comes back: a deleted
      user is not resurrected by a later create. */
  lemma {:induction false} RemovedIdStaysRemoved(db: Db, reqs: seq<Request>, hash: string -> Digest, k: Id)
    requires k < db.nextId && k !in db.users
    ensures k !in Run(db, reqs, hash).users
    decreases |reqs|
  {
    if reqs != [] {
      RemovedIdStaysRemoved(Step(db, reqs[0], hash).db, reqs[1..], hash, k);
    }
  }

  /** A stored digest changes only through an update that supplies a new
      password for that user: if no request in `reqs` does, a user present
      before and after keeps its digest (and so its old password keeps
      authenticating). */
  lemma {:induction false} DigestStableWithoutPasswordUpdate(db: Db, reqs: seq<Request>, hash: string -> Digest, k: Id)
    requires WellFormed(db)
    requires k in db.users && k in Run(db, reqs, hash).users
    requires forall i :: 0 <= i < |reqs| ==> !SetsPassword(reqs[i], k)
    ensures Run(db, reqs, hash).users[k].password == db.users[k].password
    decreases |reqs|
  {
    if reqs != [] {
      var next := Step(db, reqs[0], hash).db;
      if k !in next.users {
        RemovedIdStaysRemoved(next, reqs[1..], hash, k);
        assert false;
      }
      DigestStableWithoutPasswordUpdate(next, reqs[1..], hash, k);
    }
  }
}
