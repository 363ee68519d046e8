/** The statements the user handlers run against the user table. */
module UserModel {
  import opened Wrappers
  import opened Store
  import Images

  function EmailIs(email: string): (nat, User) -> bool {
    (id: nat, u: User) => u.email == email
  }

  function TokenIs(token: string): (nat, User) -> bool {
    (id: nat, u: User) => u.authToken == Some(token)
  }

  /** `select ... from user where email = ?`, as the list of matching ids. */
  function UsersWithEmail(users: map<nat, User>, email: string, bound: nat): (ids: seq<nat>)
    ensures forall id :: id < bound ==> (id in ids <==> id in users && users[id].email == email)
    ensures forall i :: 0 <= i < |ids| ==> ids[i] in users && users[ids[i]].email == email
  {
    SelectIds(users, EmailIs(email), bound)
  }

  /** `getAuth`: the ids of every user whose stored token is exactly `token`. */
  function GetAuth(users: map<nat, User>, token: string, bound: nat): (ids: seq<nat>)
    ensures forall id :: id < bound ==> (id in ids <==> id in users && users[id].authToken == Some(token))
    ensures forall i :: 0 <= i < |ids| ==> ids[i] in users && users[ids[i]].authToken == Some(token)
    ensures forall i, j :: 0 <= i < j < |ids| ==> ids[i] < ids[j]
  {
    SelectIds(users, TokenIs(token), bound)
  }

  /** `insert`: a new row holding a digest of the password, never the password itself. */
  method Insert(db: Database, firstName: string, lastName: string, email: string, password: string, salt: nat)
    returns (userId: nat)
    requires db.Valid()
    modifies db`users, db`nextUserId
    ensures db.Valid()
    ensures userId == old(db.nextUserId) && userId !in old(db.users)
    ensures db.users == old(db.users)[userId := User(firstName, lastName, email, Hash(password, salt), None, None)]
  {
    userId := db.nextUserId;
    db.users := db.users[userId := User(firstName, lastName, email, Hash(password, salt), None, None)];
    db.nextUserId := db.nextUserId + 1;
  }

  /** The users table after `setAuth`: the users with that email hold the token, nobody else changes. */
  function Authorised(users: map<nat, User>, email: string, token: string): (r: map<nat, User>)
    ensures r.Keys == users.Keys
    ensures forall id :: id in users && users[id].email == email ==> r[id] == users[id].(authToken := Some(token))
    ensures forall id :: id in users && users[id].email != email ==> r[id] == users[id]
  {
    map id | id in users :: if users[id].email == email then users[id].(authToken := Some(token)) else users[id]
  }

  /** `setAuth`: every user with that email gets the token; their ids are returned. */
  method SetAuth(db: Database, email: string, token: string) returns (ids: seq<nat>)
    requires db.Valid()
    modifies db`users
    ensures db.Valid()
    ensures ids == UsersWithEmail(old(db.users), email, db.nextUserId)
    ensures db.users == Authorised(old(db.users), email, token)
  {
    db.users := Authorised(db.users, email, token);
    ids := UsersWithEmail(db.users, email, db.nextUserId);
    SelectIdsAgree(db.users, EmailIs(email), old(db.users), EmailIs(email), db.nextUserId);
  }

  /** `removeAuth`: every holder of the token loses it; the affected-row count is how many did. */
  method RemoveAuth(db: Database, token: string) returns (affected: nat)
    requires db.Valid()
    modifies db`users
    ensures db.Valid()
    ensures affected == |GetAuth(old(db.users), token, db.nextUserId)|
    ensures db.users.Keys == old(db.users).Keys
    ensures forall id :: id in db.users ==>
      db.users[id] == if old(db.users)[id].authToken == Some(token) then old(db.users)[id].(authToken := None)
                      else old(db.users)[id]
  {
    affected := |GetAuth(db.users, token, db.nextUserId)|;
    db.users := map id | id in db.users ::
      if db.users[id].authToken == Some(token) then db.users[id].(authToken := None) else db.users[id];
  }

  /** `alter`: overwrites names, email and password; token and image stay. */
  method Alter(db: Database, data: User, id: nat)
    requires db.Valid()
    modifies db`users
    ensures db.Valid()
    ensures db.users == if id in old(db.users) then
      old(db.users)[id := old(db.users)[id].(firstName := data.firstName, lastName := data.lastName,
                                           email := data.email, password := data.password)]
      else old(db.users)
  {
    if id in db.users {
      db.users := db.users[id := db.users[id].(firstName := data.firstName, lastName := data.lastName,
                                               email := data.email, password := data.password)];
    }
  }

  /** `setPhoto`: the image reference becomes `user_<id>.<ext>`. */
  method SetPhoto(db: Database, id: nat, ext: string)
    requires db.Valid()
    modifies db`users
    ensures db.Valid()
    ensures db.users == if id in old(db.users) then
      old(db.users)[id := old(db.users)[id].(imageFilename := Some(Images.Filename("user", id, ext)))]
      else old(db.users)
  {
    if id in db.users {
      db.users := db.users[id := db.users[id].(imageFilename := Some(Images.Filename("user", id, ext)))];
    }
  }

  /** `deletePhoto`: clears the image reference only when both the id and the token match. */
  method DeletePhoto(db: Database, id: nat, token: string)
    requires db.Valid()
    modifies db`users
    ensures db.Valid()
    ensures db.users == if id in old(db.users) && old(db.users)[id].authToken == Some(token) then
      old(db.users)[id := old(db.users)[id].(imageFilename := None)]
      else old(db.users)
  {
    if id in db.users && db.users[id].authToken == Some(token) {
      db.users := db.users[id := db.users[id].(imageFilename := None)];
    }
  }
}
