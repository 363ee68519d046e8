/**
 * The user handlers: registration, login and logout, reading and patching a user, and the user's
 * image slot. Each returns a value or the kind of failure it reports.
 */
module UserController {
  import opened Wrappers
  import opened Text
  import opened Store
  import opened UserModel
  import Images

  // ---------------------------------------------------------------------------------------------
  // Identity

  /**
   * The email test shared by `register`, `login` and `updateId`: the first and the last '@' are the
   * same one, and it is neither the first nor the last character.
   */
  predicate ValidEmail(email: string)
    ensures ValidEmail(email) ==> '@' in email && |email| >= 3
  {
    var first := IndexOf(email, '@');
    first == LastIndexOf(email, '@') && first > 0 && first != |email| - 1
  }

  /** An email passes exactly when it holds a single '@' with text on both sides of it. */
  lemma {:induction false} ValidEmailMeansOneAt(email: string)
    ensures ValidEmail(email) <==>
      exists i :: 0 < i < |email| - 1 && email[i] == '@' && '@' !in email[..i] && '@' !in email[i + 1..]
  {
    if exists i :: 0 < i < |email| - 1 && email[i] == '@' && '@' !in email[..i] && '@' !in email[i + 1..] {
      var i :| 0 < i < |email| - 1 && email[i] == '@' && '@' !in email[..i] && '@' !in email[i + 1..];
      IndexOfAt(email, '@', i);
      LastIndexOfAt(email, '@', i);
    }
    if ValidEmail(email) {
      var i := IndexOf(email, '@');
      assert 0 < i < |email| - 1 && email[i] == '@' && '@' !in email[..i] && '@' !in email[i + 1..];
    }
  }

  /** No two users share an email. */
  ghost predicate EmailsUnique(users: map<nat, User>) {
    forall a, b :: a in users && b in users && users[a].email == users[b].email ==> a == b
  }

  /** The request body of `register`; a field the client did not send is `None`. */
  datatype Registration = Registration(
    firstName: Option<string>,
    lastName: Option<string>,
    email: Option<string>,
    password: Option<string>)

  predicate RegistrationComplete(body: Registration) {
    Present(body.firstName) && Present(body.lastName) && Present(body.email) && Present(body.password)
  }

  predicate EmailTaken(users: map<nat, User>, email: string) {
    exists id :: id in users && users[id].email == email
  }

  /** `register`: every field given, a valid and unused email; the new user has no token and no image. */
  method Register(db: Database, body: Registration, salt: nat) returns (r: Result<nat>)
    requires db.Valid()
    modifies db`users, db`nextUserId
    ensures db.Valid()
    ensures !RegistrationComplete(body) ==> r == Err(BadRequest)
    ensures RegistrationComplete(body) && !ValidEmail(body.email.value) ==> r == Err(BadRequest)
    ensures RegistrationComplete(body) && EmailTaken(old(db.users), body.email.value) ==> r == Err(BadRequest)
    ensures r.Ok? <==> RegistrationComplete(body) && ValidEmail(body.email.value) && !EmailTaken(old(db.users), body.email.value)
    ensures r.Ok? ==> r.value == old(db.nextUserId) && r.value !in old(db.users)
    ensures db.users == if r.Ok? then old(db.users)[r.value := User(body.firstName.value, body.lastName.value,
                          body.email.value, Hash(body.password.value, salt), None, None)]
                        else old(db.users)
    ensures EmailsUnique(old(db.users)) ==> EmailsUnique(db.users)
  {
    if !RegistrationComplete(body) {
      return Err(BadRequest);
    }
    if !ValidEmail(body.email.value) {
      return Err(BadRequest);
    }
    var existing := UsersWithEmail(db.users, body.email.value, db.nextUserId);
    if |existing| != 0 {
      assert existing[0] in db.users && db.users[existing[0]].email == body.email.value;
      return Err(BadRequest);
    }
    var userId := UserModel.Insert(db, body.firstName.value, body.lastName.value, body.email.value, body.password.value, salt);
    r := Ok(userId);
  }

  /** What a successful `login` sends back. */
  datatype Session = Session(userId: nat, token: string)

  /**
   * `login`: the password is checked against the first user with that email (none is a server
   * error: the lookup result is read without a test); then every user with that email gets the
   * fresh token, and the first of them is reported.
   */
  method Login(db: Database, email: Option<string>, password: Option<string>, token: string) returns (r: Result<Session>)
    requires db.Valid()
    modifies db`users
    ensures db.Valid()
    ensures !(Present(email) && Present(password)) ==> r == Err(BadRequest)
    ensures Present(email) && Present(password) && !ValidEmail(email.value) ==> r == Err(BadRequest)
    ensures (Present(email) && Present(password) && ValidEmail(email.value)
             && !EmailTaken(old(db.users), email.value)) ==> r == Err(ServerError)
    ensures Present(email) && Present(password) && ValidEmail(email.value) && EmailTaken(old(db.users), email.value) ==>
      var first := UsersWithEmail(old(db.users), email.value, db.nextUserId)[0];
      && (r.Ok? <==> Verifies(password.value, old(db.users)[first].password))
      && (r.Err? ==> r.error == BadRequest)
      && (r.Ok? ==> r.value == Session(first, token))
    ensures db.users == if r.Ok? then Authorised(old(db.users), email.value, token) else old(db.users)
    ensures r.Ok? ==> r.value.userId in db.users && db.users[r.value.userId].authToken == Some(token)
  {
    if !(Present(email) && Present(password)) {
      return Err(BadRequest);
    }
    if !ValidEmail(email.value) {
      return Err(BadRequest);
    }
    var matches := UsersWithEmail(db.users, email.value, db.nextUserId);
    if |matches| == 0 {
      return Err(ServerError);
    }
    if !Verifies(password.value, db.users[matches[0]].password) {
      return Err(BadRequest);
    }
    var ids := UserModel.SetAuth(db, email.value, token);
    r := Ok(Session(ids[0], token));
  }

  /**
   * With unique emails and a token nobody holds yet, after `login` that token resolves to exactly
   * the user who logged in.
   */
  lemma {:induction false} LoginTokenIdentifies(users: map<nat, User>, bound: nat, id: nat, token: string)
    requires forall k :: k in users ==> k < bound
    requires id in users && EmailsUnique(users)
    requires forall k :: k in users ==> users[k].authToken != Some(token)
    ensures GetAuth(Authorised(users, users[id].email, token), token, bound) == [id]
  {
    var after := Authorised(users, users[id].email, token);
    var holders := GetAuth(after, token, bound);
    forall k | 0 <= k < |holders| ensures holders[k] == id {
      assert holders[k] in after && after[holders[k]].authToken == Some(token);
    }
    assert id in holders;
    if |holders| > 1 {
      FirstTwoAscending(holders);
      assert false;
    }
  }

  lemma FirstTwoAscending(ids: seq<nat>)
    requires |ids| > 1
    requires forall i, j :: 0 <= i < j < |ids| ==> ids[i] < ids[j]
    ensures ids[0] < ids[1]
  {
  }

  /** A stored password digest accepts the password it was made from. */
  lemma RegisteredPasswordLogsIn(password: string, salt: nat)
    ensures Verifies(password, Hash(password, salt))
  {
    HashVerifies(password, password, salt);
  }

  /** `logout`: every holder of the token loses it; nobody holding it is a 401. */
  method Logout(db: Database, token: Option<string>) returns (r: Result<()>)
    requires db.Valid()
    modifies db`users
    ensures db.Valid()
    ensures !Present(token) ==> r == Err(Unauthenticated) && db.users == old(db.users)
    ensures Present(token) ==>
      && (r.Ok? <==> exists id :: id in old(db.users) && old(db.users)[id].authToken == token)
      && (r.Err? ==> r.error == Unauthenticated)
      && db.users.Keys == old(db.users).Keys
      && (forall id :: id in db.users ==> db.users[id].authToken != token)
      && (forall id :: id in db.users ==> db.users[id] == old(db.users)[id].(authToken := db.users[id].authToken))
  {
    if !Present(token) {
      return Err(Unauthenticated);
    }
    ghost var before := db.users;
    var affected := RemoveAuth(db, token.value);
    if affected == 0 {
      r := Err(Unauthenticated);
      forall id | id in before ensures before[id].authToken != token {
        assert id < db.nextUserId;
        assert id !in GetAuth(before, token.value, db.nextUserId);
      }
    } else {
      r := Ok(());
      var holders := GetAuth(before, token.value, db.nextUserId);
      assert holders[0] in before;
    }
  }

  // ---------------------------------------------------------------------------------------------
  // Profile

  /** A user as `findId` returns it: no token, no password, and the email only for its owner. */
  datatype PublicUser = PublicUser(firstName: string, lastName: string, email: Option<string>)

  /** `findId`: the email is shown only to a caller whose token is the user's stored token. */
  method FindId(db: Database, id: nat, token: Option<string>) returns (r: Result<PublicUser>)
    ensures r.Err? <==> id !in db.users
    ensures r.Err? ==> r.error == NotFound
    ensures r.Ok? ==> r.value.firstName == db.users[id].firstName && r.value.lastName == db.users[id].lastName
    ensures r.Ok? ==> (r.value.email.Some? <==> token.Some? && db.users[id].authToken == token)
    ensures r.Ok? && r.value.email.Some? ==> r.value.email.value == db.users[id].email
  {
    if id !in db.users {
      return Err(NotFound);
    }
    var u := db.users[id];
    if token.Some? && u.authToken == token {
      r := Ok(PublicUser(u.firstName, u.lastName, Some(u.email)));
    } else {
      r := Ok(PublicUser(u.firstName, u.lastName, None));
    }
  }

  /** The fields a client may patch; a property the body does not have is `None`. */
  datatype UserPatch = UserPatch(
    email: Option<string>,
    password: Option<string>,
    currentPassword: Option<string>,
    firstName: Option<string>,
    lastName: Option<string>)

  /** A new email must pass the email test; a new password needs the correct current password. */
  predicate UserPatchAcceptable(u: User, patch: UserPatch) {
    && (patch.email.Some? ==> ValidEmail(patch.email.value))
    && (patch.password.Some? ==> patch.currentPassword.Some? && Verifies(patch.currentPassword.value, u.password))
  }

  /** The row `updateId` writes: the stored digest is made from the current password, as the handler does. */
  /**
   * The user after a patch: each given field replaces the stored one (a new password is stored as
   * the hash of the current one); token and image are never touched.
   */
  function UserPatched(u: User, patch: UserPatch, salt: nat): (r: User)
    requires patch.password.Some? ==> patch.currentPassword.Some?
    ensures r.authToken == u.authToken && r.imageFilename == u.imageFilename
    ensures r.email == (if patch.email.Some? then patch.email.value else u.email)
    ensures r.password == (if patch.password.Some? then Hash(patch.currentPassword.value, salt) else u.password)
    ensures r.firstName == (if patch.firstName.Some? then patch.firstName.value else u.firstName)
    ensures r.lastName == (if patch.lastName.Some? then patch.lastName.value else u.lastName)
  {
    u.(email := if patch.email.Some? then patch.email.value else u.email,
       password := if patch.password.Some? then Hash(patch.currentPassword.value, salt) else u.password,
       firstName := if patch.firstName.Some? then patch.firstName.value else u.firstName,
       lastName := if patch.lastName.Some? then patch.lastName.value else u.lastName)
  }

  /**
   * `updateId`: only the user, by token; a bad email, a missing or wrong current password is a 400
   * and nothing is written; otherwise one write with every given field.
   */
  method UpdateId(db: Database, id: nat, token: Option<string>, patch: UserPatch, salt: nat) returns (r: Result<()>)
    requires db.Valid()
    modifies db`users
    ensures db.Valid()
    ensures !Present(token) ==> r == Err(Unauthenticated)
    ensures Present(token) && id !in old(db.users) ==> r == Err(NotFound)
    ensures Present(token) && id in old(db.users) && !HoldsToken(old(db.users)[id], token.value) ==> r == Err(Forbidden)
    ensures (Present(token) && id in old(db.users) && HoldsToken(old(db.users)[id], token.value)
             && !UserPatchAcceptable(old(db.users)[id], patch)) ==> r == Err(BadRequest)
    ensures r.Ok? <==>
      && Present(token) && id in old(db.users) && HoldsToken(old(db.users)[id], token.value)
      && UserPatchAcceptable(old(db.users)[id], patch)
    ensures db.users == if r.Ok? then old(db.users)[id := UserPatched(old(db.users)[id], patch, salt)] else old(db.users)
  {
    if !Present(token) {
      return Err(Unauthenticated);
    }
    if id !in db.users {
      return Err(NotFound);
    }
    var data := db.users[id];
    if !HoldsToken(data, token.value) {
      return Err(Forbidden);
    }
    if patch.email.Some? {
      if !ValidEmail(patch.email.value) {
        return Err(BadRequest);
      }
      data := data.(email := patch.email.value);
    }
    if patch.password.Some? {
      if patch.currentPassword.None? {
        return Err(BadRequest);
      }
      if Verifies(patch.currentPassword.value, data.password) {
        data := data.(password := Hash(patch.currentPassword.value, salt));
      } else {
        return Err(BadRequest);
      }
    }
    if patch.firstName.Some? {
      data := data.(firstName := patch.firstName.value);
    }
    if patch.lastName.Some? {
      data := data.(lastName := patch.lastName.value);
    }
    UserModel.Alter(db, data, id);
    r := Ok(());
  }

  /**
   * After an accepted password change the stored digest still verifies the current password, and
   * verifies the requested one only when the two are equal.
   */
  lemma PasswordChangeKeepsCurrent(u: User, patch: UserPatch, salt: nat, candidate: string)
    requires UserPatchAcceptable(u, patch) && patch.password.Some?
    ensures Verifies(candidate, UserPatched(u, patch, salt).password) <==> candidate == patch.currentPassword.value
    ensures Verifies(patch.password.value, UserPatched(u, patch, salt).password)
        <==> patch.password.value == patch.currentPassword.value
  {
    HashVerifies(patch.currentPassword.value, candidate, salt);
    HashVerifies(patch.currentPassword.value, patch.password.value, salt);
  }

  /** A patch that changes nothing but names leaves the user's email, password, token and image as they were. */
  lemma NamePatchKeepsCredentials(u: User, patch: UserPatch, salt: nat)
    requires patch.email.None? && patch.password.None?
    ensures var v := UserPatched(u, patch, salt);
      v.email == u.email && v.password == u.password && v.authToken == u.authToken && v.imageFilename == u.imageFilename
  {
  }

  // ---------------------------------------------------------------------------------------------
  // Image slot

  /** `getImage`: the stored file's content type; no reference is NotFound, a missing file a ServerError. */
  method GetImage(db: Database, files: ImageFiles, id: nat) returns (r: Result<string>)
    ensures id !in db.users || db.users[id].imageFilename.None? ==> r == Err(NotFound)
    ensures (id in db.users && db.users[id].imageFilename.Some?
             && db.users[id].imageFilename.value !in files.names) ==> r == Err(ServerError)
    ensures r.Ok? <==> (id in db.users && db.users[id].imageFilename.Some?
                        && db.users[id].imageFilename.value in files.names)
    ensures r.Ok? ==> r.value == Images.ContentTypeFor(db.users[id].imageFilename.value)
  {
    if id !in db.users || db.users[id].imageFilename.None? {
      return Err(NotFound);
    }
    var name := db.users[id].imageFilename.value;
    if name !in files.names {
      return Err(ServerError);
    }
    r := Ok(Images.ContentTypeFor(name));
  }

  /**
   * `setImage`: only the user, by token; the image is stored as `user_<id>.<ext>` and the reply says
   * whether a reference existed before. A file under another extension is left in place.
   */
  method SetImage(db: Database, files: ImageFiles, id: nat, token: Option<string>, contentType: Option<string>)
    returns (r: Result<Images.ImageReply>)
    requires db.Valid()
    modifies db`users, files
    ensures db.Valid()
    ensures !Present(token) ==> r == Err(Unauthenticated)
    ensures Present(token) && !Present(contentType) ==> r == Err(BadRequest)
    ensures Present(token) && Present(contentType) && Images.ExtensionFor(contentType.value).None? ==> r == Err(BadRequest)
    ensures (Present(token) && Present(contentType) && Images.ExtensionFor(contentType.value).Some?
             && id !in old(db.users)) ==> r == Err(NotFound)
    ensures (Present(token) && Present(contentType) && Images.ExtensionFor(contentType.value).Some?
             && id in old(db.users) && !HoldsToken(old(db.users)[id], token.value)) ==> r == Err(Forbidden)
    ensures r.Ok? <==>
      && Present(token) && Present(contentType) && Images.ExtensionFor(contentType.value).Some?
      && id in old(db.users) && HoldsToken(old(db.users)[id], token.value)
    ensures r.Ok? ==>
      var name := Images.Filename("user", id, Images.ExtensionFor(contentType.value).value);
      && db.users == old(db.users)[id := old(db.users)[id].(imageFilename := Some(name))]
      && files.names == old(files.names) + {name}
      && r.value == if old(db.users)[id].imageFilename.Some? then Images.Updated else Images.Created
    ensures r.Err? ==> db.users == old(db.users) && files.names == old(files.names)
  {
    if !Present(token) {
      return Err(Unauthenticated);
    }
    if !Present(contentType) {
      return Err(BadRequest);
    }
    var ext := Images.ExtensionFor(contentType.value);
    if ext.None? {
      return Err(BadRequest);
    }
    if id !in db.users {
      return Err(NotFound);
    }
    if !HoldsToken(db.users[id], token.value) {
      return Err(Forbidden);
    }
    var current := db.users[id].imageFilename;
    SetPhoto(db, id, ext.value);
    files.names := files.names + {Images.Filename("user", id, ext.value)};
    r := Ok(if current.Some? then Images.Updated else Images.Created);
  }

  /** The file name `deleteImage` removes: the reference, or the text "null" when there is none. */
  function StoredName(imageFilename: Option<string>): string {
    if imageFilename.Some? then imageFilename.value else "null"
  }

  /** `deleteImage`: only the user, by token; clears the reference and removes the file if it exists. */
  method DeleteImage(db: Database, files: ImageFiles, id: nat, token: Option<string>) returns (r: Result<()>)
    requires db.Valid()
    modifies db`users, files
    ensures db.Valid()
    ensures !Present(token) ==> r == Err(Unauthenticated)
    ensures Present(token) && id !in old(db.users) ==> r == Err(NotFound)
    ensures Present(token) && id in old(db.users) && !HoldsToken(old(db.users)[id], token.value) ==> r == Err(Forbidden)
    ensures r.Ok? <==> Present(token) && id in old(db.users) && HoldsToken(old(db.users)[id], token.value)
    ensures r.Ok? ==>
      && db.users == old(db.users)[id := old(db.users)[id].(imageFilename := None)]
      && files.names == old(files.names) - {StoredName(old(db.users)[id].imageFilename)}
    ensures r.Err? ==> db.users == old(db.users) && files.names == old(files.names)
  {
    if !Present(token) {
      return Err(Unauthenticated);
    }
    if id !in db.users {
      return Err(NotFound);
    }
    if !HoldsToken(db.users[id], token.value) {
      return Err(Forbidden);
    }
    var name := StoredName(db.users[id].imageFilename);
    DeletePhoto(db, id, token.value);
    if name in files.names {
      files.names := files.names - {name};
    }
    r := Ok(());
  }
}
