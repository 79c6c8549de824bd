# User handlers of the MERN notes back end, in Dafny

This project models the user resource of the notes application's REST API:
the four Express handlers in `backend/controllers/usersController.js` that
list, create, update and delete users. The list handler only reads the
user collection. The other three validate the request body, consult the
user collection (and, for delete, the note collection), and either answer
with an error status or change the user collection.

- `user_model.dfy`, module `UserModel`: the values. A store `Db` holds the
  user collection as a map from document id to `User`, the note collection
  as a sequence of `Note`s (each reduced to the id of the user it refers
  to), and the counter that mints fresh ids. Request bodies keep each
  field as an `Option`: `None` is an absent field, and for `roles` and
  `active` also one of the wrong JavaScript type (not an array, not a
  boolean); `Some("")` is a present but falsy string. Ids are abstract labels standing for ObjectId strings, not JavaScript numbers (so id 0 is a valid id); a falsy id (an
  empty string, which fails the guards at lines 49 and 88 of the
  controller) is also written `None`. `ListUsers`, `Create`, `Update` and
  `Delete` give, for a store and a body, the response (status plus message
  or payload) and the store left behind. `Step` dispatches one request and
  `Run` serves a sequence of them. The lemmas about `Run` state what holds
  across any sequence of calls.
- `users_controller.dfy`, module `UsersController`: the class `UserStore`
  whose fields are the two collections, the id counter and the password
  hash. Its methods are the handlers, written as the source writes them:
  guards with early returns, a lookup of a user by name that may return
  any matching document, and an update that copies the document, assigns
  its fields and writes it back. Each method is proved to produce exactly
  the outcome of the matching `UserModel` function and to keep the store
  invariant. `DeleteBlockedUntilNotesGone` is a client session. It creates
  "alice", is refused a second "alice", is refused the delete while a note
  refers to her, and deletes her once the note is gone.

The password hash is the store's `hash` field, a function of which nothing
is known. The model therefore says only that the stored value is
`hash(password)` or the old value.

The store invariant `WellFormed` has three parts: every id is below the
counter, usernames are unique, and every user has at least one role.
Uniqueness is what makes the nondeterministic lookup by name in the update
handler agree with "the name belongs to a different user".

## Model

| member | source | states |
|---|---|---|
| `UserModel.ListUsers` | backend/controllers/usersController.js:7-13 | 400 "No users found" exactly when the collection is empty; otherwise 200 with one entry per stored user, each carrying that user's username, roles and active flag and no password |
| `UserModel.Create` | backend/controllers/usersController.js:16-42 | 400 exactly when username or password is missing or empty, or roles is not a non-empty array; 409 exactly when the fields are present and the name is already taken; no change on either error; 201 exactly when the fields are present and the name is free, and then exactly one user is added under a fresh id, holding the given name and roles, `hash(password)` and active = true; existing users and notes are unchanged; the store invariant (unique names) is kept |
| `UserModel.Update` | backend/controllers/usersController.js:45-82 | guard order: field check (400), then existence of the id (400 "User not found"), then 409 exactly when the name belongs to a user with a different id, so keeping one's own name is allowed; 200 exactly when all three checks pass; no change on any error; on 200 only the target user changes, gaining the new username, roles and active flag; its digest becomes `hash(password)` when a non-empty password is given and stays the old one otherwise; the store invariant is kept |
| `UserModel.Delete` | backend/controllers/usersController.js:85-112 | guard order: missing id (400), then any note referring to the id (400, even when no such user exists), then unknown id (400); 200 exactly when an id is given, no note refers to it and the user exists (so once the referring notes are gone the delete succeeds); no change on any error; on 200 exactly that user is removed, notes and other users stay, and the reply carries the removed user's username and id; a user referred to by a note is never removed |
| `UserModel.Step` | backend/controllers/usersController.js:7-112 | over all four handlers: an error status leaves the store unchanged, notes are never changed, the invariant is kept, a noted user survives, a removed id stays removed, and a digest changes only through an update carrying a new password for that user |
| `UserModel.RunPreservesWellFormed` | backend/controllers/usersController.js:23-27 | after any sequence of requests, usernames are still unique (and ids fresh, roles non-empty); this rests on the duplicate check of create (lines 23-27) and the different-id check of update (lines 62-66) |
| `UserModel.RunKeepsNotes` | backend/controllers/usersController.js:93 | no sequence of user requests changes the note collection |
| `UserModel.NotedUserSurvivesRun` | backend/controllers/usersController.js:92-96 | a user referred to by a note is present after any sequence of user requests |
| `UserModel.RemovedIdStaysRemoved` | backend/controllers/usersController.js:34 | an inserted user gets a fresh id, so an id that was handed out and then deleted (line 105) is never reused and a deleted user is not revived by a later create |
| `UserModel.DigestStableWithoutPasswordUpdate` | backend/controllers/usersController.js:72-76 | if no request in a sequence updates user k with a non-empty password, k's stored digest is the same afterwards, so the old password still authenticates |
| `UsersController.UserStore.FindByUsername` | backend/controllers/usersController.js:62 | the lookup by username of the update handler, and of the create handler at line 23: returns some user holding the given username, and returns none exactly when no user holds it |
| `UsersController.UserStore.FindNoteOf` | backend/controllers/usersController.js:93 | returns a note referring to the id, and returns none exactly when no note does |
| `UsersController.UserStore.GetAllUsers` | backend/controllers/usersController.js:7-13 | answers exactly `ListUsers` of the current store and changes nothing |
| `UsersController.UserStore.CreateNewUser` | backend/controllers/usersController.js:16-42 | answers and updates the store exactly as `Create` says, keeping the invariant |
| `UsersController.UserStore.UpdateUser` | backend/controllers/usersController.js:45-82 | answers and updates the store exactly as `Update` says, keeping the invariant |
| `UsersController.UserStore.DeleteUser` | backend/controllers/usersController.js:85-112 | answers and updates the store exactly as `Delete` says, keeping the invariant |

## Left out

- Database access (`User.find`, `findOne`, `findById`, `create`, `save`, `deleteOne`, `Note.findOne`), `.lean()`/`.exec()` and the asynchronous execution: replaced by the in-memory map, the note sequence and plain method calls.
- The race between the note check and the delete in `deleteUser`: a note created between them is a concurrency effect, and the model is sequential.
- bcrypt's salt and cost factor: `hash` is one fixed unknown function. Real bcrypt digests of the same password differ from call to call. The model keeps only "the stored value is a digest of the given password" or "the stored value is unchanged".
- The `else` branch of `createNewUser` (400 "Invalid user data received"): `User.create` either returns the new document or throws, so the branch is unreachable and is not modelled. Schema validation errors and other exceptions, which the async wrapper forwards to the app's error middleware (not modelled), are left out too.
- Malformed ids: a query on a string that is not an ObjectId throws a cast error, which the async wrapper forwards to the app's error middleware (not modelled). In `updateUser` the first such query is `findById` (line 54); in `deleteUser` it is `Note.findOne({ user: id })` (line 93), before `findById` (line 99). Ids here are plain values, so that path does not exist. The update handler compares `_id.toString()` with the raw request string. A non-canonical spelling of the user's own id (upper-case hex, say) would therefore count as a different user and get a 409. The model compares ids as values and does not capture this.
- Non-string values in string fields (a number, or an object such as a query operator) are not modelled. `Option<string>` covers absent, empty and string values only.
- The order of the array returned by `getAllUsers`: the reply is a map keyed by id.
- The text of the delete reply is kept as its two parts, username and id. The model assumes `user.deleteOne()` resolves to the removed document. The Mongoose version, which decides that, is not part of this model.
- Mongoose's default `active: true` for new users comes from the User schema, which is not part of this model; `Create` sets it.
- Authentication and role checks in front of these routes (`verifyJWT`, the role guard), the notes handlers, the React route tree in `frontend/src/App.js` and the welcome page in `frontend/src/features/auth/Welcome.js` are not part of this model.
