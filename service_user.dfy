/** The user service: the data layer's operations with every result
    projected to `UserOut`, and errors passed through unchanged. */
module UserService {
  import opened Common
  import opened Errors
  import opened UserModel
  import opened Db
  import UserData

  /** `UserOut(**user.model_dump())`: the stored row without its password
      hash. A valid row gives a valid projection. */
  function ToUserOut(u: User): (o: UserOut)
    ensures o.id == u.id && o.username == u.username
    ensures o.timeCreated == u.timeCreated && o.timeUpdated == u.timeUpdated
    ensures ValidUser(u) ==> ValidUserOut(o)
  {
    UserOut(u.id, u.username, u.timeCreated, u.timeUpdated)
  }

  /** `create_user` */
  method CreateUser(db: Database, newUser: UserCreate, freshId: Id, created: Time, updated: Time) returns (r: Result<UserOut>)
    requires db.Valid() && ValidUserCreate(newUser) && freshId !in db.users
    modifies db
    ensures db.Valid() && db.roles == old(db.roles) && db.blogs == old(db.blogs)
    ensures UsernameTaken(old(db.users), newUser.username) ==>
              r == Err(Duplicate(UserData.UsernameExists(newUser.username))) && db.users == old(db.users)
    ensures !UsernameTaken(old(db.users), newUser.username) ==>
              && r == Ok(UserOut(freshId, newUser.username, created, updated))
              && db.users == old(db.users)[freshId := UserData.NewUser(newUser, db.hash, freshId, created, updated)]
  {
    var stored := UserData.CreateUser(db, newUser, freshId, created, updated);
    if stored.Err? {
      r := Err(stored.error);
    } else {
      r := Ok(ToUserOut(stored.value));
    }
  }

  /** `get_user_by_id` */
  method GetUserById(db: Database, id: Id) returns (r: Result<UserOut>)
    requires db.Valid()
    ensures r.Ok? <==> id in db.users
    ensures r.Ok? ==> r.value == ToUserOut(db.users[id]) && ValidUserOut(r.value)
    ensures r.Err? ==> r.error == Missing(UserData.UserIdNotFound(id))
  {
    var found := UserData.GetUserById(db, id);
    if found.Err? {
      r := Err(found.error);
    } else {
      r := Ok(ToUserOut(found.value));
    }
  }

  /** `get_user_by_username` */
  method GetUserByUsername(db: Database, username: string) returns (r: Result<UserOut>)
    requires db.Valid()
    ensures r.Ok? <==> UsernameTaken(db.users, username)
    ensures r.Ok? ==> r.value.username == username && r.value.id in db.users && r.value == ToUserOut(db.users[r.value.id])
    ensures r.Err? ==> r.error == Missing(UserData.UsernameNotFound(username))
  {
    var found := UserData.GetUserByUsername(db, username);
    if found.Err? {
      r := Err(found.error);
    } else {
      r := Ok(ToUserOut(found.value));
    }
  }

  /** `get_all_users`: one projection per stored user, in the data layer's
      order. */
  method GetAllUsers(db: Database) returns (r: seq<UserOut>)
    requires db.Valid()
    ensures |r| == |db.users|
    ensures forall i :: 0 <= i < |r| ==> r[i].id in db.users && r[i] == ToUserOut(db.users[r[i].id])
    ensures forall k :: k in db.users ==> ToUserOut(db.users[k]) in r
    ensures forall i, j :: 0 <= i < j < |r| ==> r[i].id != r[j].id
  {
    var all := UserData.GetAllUsers(db);
    r := seq(|all|, i requires 0 <= i < |all| => ToUserOut(all[i]));
    forall k | k in db.users ensures ToUserOut(db.users[k]) in r {
      var i :| 0 <= i < |all| && all[i] == db.users[k];
      assert r[i] == ToUserOut(db.users[k]);
    }
  }

  /** `update_user`: Missing and Duplicate come back from the data layer
      unchanged; a success is projected. */
  method UpdateUser(db: Database, updated: UserUpdate, now: Time) returns (r: Result<UserOut>)
    requires db.Valid() && ValidUserUpdate(updated)
    modifies db
    ensures db.Valid() && db.roles == old(db.roles) && db.blogs == old(db.blogs)
    ensures updated.id !in old(db.users) ==>
              r == Err(Missing(UserData.UserIdNotFound(updated.id))) && db.users == old(db.users)
    ensures updated.id in old(db.users) && Supplied(updated.username)
              && UsernameTakenByOther(old(db.users), updated.username.value, updated.id) ==>
              r == Err(Duplicate(UserData.UsernameExists(updated.username.value))) && db.users == old(db.users)
    ensures updated.id in old(db.users)
              && !(Supplied(updated.username) && UsernameTakenByOther(old(db.users), updated.username.value, updated.id)) ==>
              && db.users == old(db.users)[updated.id := UserData.UpdatedUser(old(db.users)[updated.id], updated, db.hash, now)]
              && r == Ok(ToUserOut(db.users[updated.id]))
  {
    var result := UserData.UpdateUser(db, updated, now);
    if result.Err? {
      r := Err(result.error);
    } else {
      r := Ok(ToUserOut(result.value));
    }
  }

  /** `delete_user`: look the user up, then delete that row; an unknown id is
      Missing from the look-up and nothing is removed. */
  method DeleteUser(db: Database, id: Id) returns (r: Result<()>)
    requires db.Valid()
    modifies db
    ensures db.Valid() && db.roles == old(db.roles) && db.blogs == old(db.blogs)
    ensures id !in old(db.users) ==> r == Err(Missing(UserData.UserIdNotFound(id))) && db.users == old(db.users)
    ensures id in old(db.users) ==> r == Ok(()) && db.users == old(db.users) - {id}
  {
    var found := UserData.GetUserById(db, id);
    if found.Err? {
      r := Err(found.error);
      return;
    }
    r := UserData.DeleteUser(db, found.value);
  }

  /** Deleting a user and then looking it up: the look-up is Missing. */
  method DeleteThenGetUser(db: Database, id: Id) returns (deleted: Result<()>, after: Result<UserOut>)
    requires db.Valid() && id in db.users
    modifies db
    ensures deleted == Ok(())
    ensures after == Err(Missing(UserData.UserIdNotFound(id)))
  {
    deleted := DeleteUser(db, id);
    after := GetUserById(db, id);
  }
}
