/** The user table's data-access operations. Each one is a single step on
    the table that either applies fully or leaves it as it was. */
module UserData {
  import opened Common
  import opened Errors
  import opened UserModel
  import opened Db

  function UsernameNotFound(username: string): (msg: string) {
    "User with username " + Repr(username) + " not found"
  }

  function UserIdNotFound(id: Id): (msg: string) {
    "User with id " + Repr(id) + " not found"
  }

  function UsernameExists(username: string): (msg: string) {
    "User with username " + Repr(username) + " already exists"
  }

  /** The row a sign-up stores: the password replaced by its hash, and the
      two clock readings `created` and `updated`, taken one after the other,
      as its timestamps. */
  function NewUser(c: UserCreate, hash: string -> string, id: Id, created: Time, updated: Time): (u: User)
    requires BcryptLike(hash)
    ensures u.id == id && u.username == c.username
    ensures u.passwordHash == hash(c.password) && u.passwordHash != c.password
    ensures u.timeCreated == created && u.timeUpdated == updated
    ensures ValidUserCreate(c) ==> ValidUser(u)
  {
    User(id, c.username, hash(c.password), created, updated)
  }

  /** The row an update leaves: the supplied username, the hash of the
      supplied password, a fresh `time_updated`; id and `time_created` kept. */
  function UpdatedUser(u: User, upd: UserUpdate, hash: string -> string, now: Time): (v: User)
    requires BcryptLike(hash)
    ensures v.id == u.id && v.timeCreated == u.timeCreated && v.timeUpdated == now
    ensures v.username == if Supplied(upd.username) then upd.username.value else u.username
    ensures v.passwordHash == if Supplied(upd.password) then hash(upd.password.value) else u.passwordHash
    ensures ValidUser(u) && ValidUserUpdate(upd) ==> ValidUser(v)
  {
    User(u.id,
         if Supplied(upd.username) then upd.username.value else u.username,
         if Supplied(upd.password) then hash(upd.password.value) else u.passwordHash,
         u.timeCreated,
         now)
  }

  /** `get_user_by_username` */
  method GetUserByUsername(db: Database, username: string) returns (r: Result<User>)
    requires db.Valid()
    ensures r.Ok? <==> UsernameTaken(db.users, username)
    ensures r.Ok? ==> r.value.username == username && r.value.id in db.users && db.users[r.value.id] == r.value
    ensures r.Err? ==> r.error == Missing(UsernameNotFound(username))
  {
    if k :| k in db.users && db.users[k].username == username {
      r := Ok(db.users[k]);
    } else {
      r := Err(Missing(UsernameNotFound(username)));
    }
  }

  /** `get_user_by_id` */
  method GetUserById(db: Database, id: Id) returns (r: Result<User>)
    requires db.Valid()
    ensures r.Ok? <==> id in db.users
    ensures r.Ok? ==> r.value.id == id && r.value in db.users.Values
    ensures r.Err? ==> r.error == Missing(UserIdNotFound(id))
  {
    if id in db.users {
      r := Ok(db.users[id]);
    } else {
      r := Err(Missing(UserIdNotFound(id)));
    }
  }

  /** `get_all_users` */
  method GetAllUsers(db: Database) returns (r: seq<User>)
    requires db.Valid()
    ensures Lists(r, db.users)
    ensures forall i :: 0 <= i < |r| ==> r[i].id in db.users && db.users[r[i].id] == r[i]
  {
    r := Rows(db.users);
  }

  /** `create_user`: refuses a taken username, otherwise stores exactly one
      new row under the fresh id `freshId` (the uuid4 the row is given), with
      the two clock readings `created` and `updated` as its timestamps. */
  method CreateUser(db: Database, user: UserCreate, freshId: Id, created: Time, updated: Time) returns (r: Result<User>)
    requires db.Valid() && ValidUserCreate(user) && freshId !in db.users
    modifies db
    ensures db.Valid() && db.roles == old(db.roles) && db.blogs == old(db.blogs)
    ensures UsernameTaken(old(db.users), user.username) ==>
              r == Err(Duplicate(UsernameExists(user.username))) && db.users == old(db.users)
    ensures !UsernameTaken(old(db.users), user.username) ==>
              r == Ok(NewUser(user, db.hash, freshId, created, updated)) && db.users == old(db.users)[freshId := r.value]
    ensures r.Ok? ==> r.value.passwordHash == db.hash(user.password) && r.value.passwordHash != user.password
    ensures r.Ok? ==> r.value.timeCreated == created && r.value.timeUpdated == updated
  {
    var existing := GetUserByUsername(db, user.username);
    if existing.Ok? {
      r := Err(Duplicate(UsernameExists(user.username)));
      return;
    }
    var u := NewUser(user, db.hash, freshId, created, updated);
    db.users := db.users[freshId := u];
    r := Ok(u);
  }

  /** `update_user`: an unknown id is Missing; a username held by another
      user is Duplicate; otherwise only the supplied fields change. */
  method UpdateUser(db: Database, user: UserUpdate, now: Time) returns (r: Result<User>)
    requires db.Valid() && ValidUserUpdate(user)
    modifies db
    ensures db.Valid() && db.roles == old(db.roles) && db.blogs == old(db.blogs)
    ensures user.id !in old(db.users) ==>
              r == Err(Missing(UserIdNotFound(user.id))) && db.users == old(db.users)
    ensures user.id in old(db.users) && Supplied(user.username)
              && UsernameTakenByOther(old(db.users), user.username.value, user.id) ==>
              r == Err(Duplicate(UsernameExists(user.username.value))) && db.users == old(db.users)
    ensures user.id in old(db.users)
              && !(Supplied(user.username) && UsernameTakenByOther(old(db.users), user.username.value, user.id)) ==>
              r == Ok(UpdatedUser(old(db.users)[user.id], user, db.hash, now))
              && db.users == old(db.users)[user.id := r.value]
    ensures user.id in old(db.users) && user.username == Some(old(db.users)[user.id].username) ==> r.Ok?
  {
    var current := GetUserById(db, user.id);
    if current.Err? {
      r := Err(current.error);
      return;
    }
    if Supplied(user.username) {
      var holder := GetUserByUsername(db, user.username.value);
      if holder.Ok? && holder.value.id != user.id {
        r := Err(Duplicate(UsernameExists(user.username.value)));
        return;
      }
    }
    var n := current.value;
    if Supplied(user.password) {
      n := n.(passwordHash := db.hash(user.password.value));
    }
    if Supplied(user.username) {
      n := n.(username := user.username.value);
    }
    n := n.(timeUpdated := now);
    db.users := db.users[user.id := n];
    r := Ok(n);
  }

  /** `delete_user`: removes exactly the row with `user.id`. */
  method DeleteUser(db: Database, user: User) returns (r: Result<()>)
    requires db.Valid()
    modifies db
    ensures db.Valid() && db.roles == old(db.roles) && db.blogs == old(db.blogs)
    ensures user.id !in old(db.users) ==> r == Err(Missing(UserIdNotFound(user.id))) && db.users == old(db.users)
    ensures user.id in old(db.users) ==> r == Ok(()) && db.users == old(db.users) - {user.id}
  {
    if user.id !in db.users {
      r := Err(Missing(UserIdNotFound(user.id)));
      return;
    }
    db.users := db.users - {user.id};
    r := Ok(());
  }
}
