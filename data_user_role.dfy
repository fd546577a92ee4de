/** The role table's data-access operations. */
module UserRoleData {
  import opened Common
  import opened Errors
  import opened UserRoleModel
  import opened Db

  function RoleIdNotFound(id: Id): (msg: string) {
    "User role with id " + Repr(id) + " not found"
  }

  function RoleNameNotFound(name: string): (msg: string) {
    "User role with name " + Repr(name) + " not found"
  }

  function RoleNameExists(name: string): (msg: string) {
    "User role with name " + Repr(name) + " exists"
  }

  /** `get_user_role_by_id` */
  method GetUserRoleById(db: Database, id: Id) returns (r: Result<UserRole>)
    requires db.Valid()
    ensures r.Ok? <==> id in db.roles
    ensures r.Ok? ==> r.value.id == id && r.value in db.roles.Values
    ensures r.Err? ==> r.error == Missing(RoleIdNotFound(id))
  {
    if id in db.roles {
      r := Ok(db.roles[id]);
    } else {
      r := Err(Missing(RoleIdNotFound(id)));
    }
  }

  /** `get_user_role_by_name` */
  method GetUserRoleByName(db: Database, name: string) returns (r: Result<UserRole>)
    requires db.Valid()
    ensures r.Ok? <==> RoleNameTaken(db.roles, name)
    ensures r.Ok? ==> r.value.name == name && r.value.id in db.roles && db.roles[r.value.id] == r.value
    ensures r.Err? ==> r.error == Missing(RoleNameNotFound(name))
  {
    if k :| k in db.roles && db.roles[k].name == name {
      r := Ok(db.roles[k]);
    } else {
      r := Err(Missing(RoleNameNotFound(name)));
    }
  }

  /** `get_all_user_roles` */
  method GetAllUserRoles(db: Database) returns (r: seq<UserRole>)
    requires db.Valid()
    ensures Lists(r, db.roles)
    ensures forall i :: 0 <= i < |r| ==> r[i].id in db.roles && db.roles[r[i].id] == r[i]
  {
    r := Rows(db.roles);
  }

  /** `create_user_role`: `model_validate` refuses a name outside the
      column's bounds before the store is touched; then the insert violates
      the unique constraint on the name exactly when the name is taken, and
      that failure is reported as Duplicate; otherwise one role is stored
      under the fresh id. */
  method CreateUserRole(db: Database, create: UserRoleCreate, freshId: Id) returns (r: Result<UserRole>)
    requires db.Valid() && freshId !in db.roles
    modifies db
    ensures db.Valid() && db.users == old(db.users) && db.blogs == old(db.blogs)
    ensures !ValidRoleName(create.name) ==> r == Err(Invalid("name")) && db.roles == old(db.roles)
    ensures ValidRoleName(create.name) && RoleNameTaken(old(db.roles), create.name) ==>
              r == Err(Duplicate(RoleNameExists(create.name))) && db.roles == old(db.roles)
    ensures ValidRoleName(create.name) && !RoleNameTaken(old(db.roles), create.name) ==>
              r == Ok(UserRole(freshId, create.name)) && db.roles == old(db.roles)[freshId := r.value]
  {
    if !ValidRoleName(create.name) {
      r := Err(Invalid("name"));
      return;
    }
    var role := UserRole(freshId, create.name);
    if RoleNameTaken(db.roles, role.name) {
      r := Err(Duplicate(RoleNameExists(role.name)));
      return;
    }
    db.roles := db.roles[freshId := role];
    r := Ok(role);
  }

  /** `update_user_role`: an unknown id is Missing (checked first); a name any
      role already has, the renamed role included, is Duplicate; otherwise
      only the name changes. The name is assigned to the row directly, so
      its length bounds are not checked. */
  method UpdateUserRole(db: Database, id: Id, update: UserRoleUpdate) returns (r: Result<UserRole>)
    requires db.Valid()
    modifies db
    ensures db.Valid() && db.users == old(db.users) && db.blogs == old(db.blogs)
    ensures id !in old(db.roles) ==> r == Err(Missing(RoleIdNotFound(id))) && db.roles == old(db.roles)
    ensures id in old(db.roles) && RoleNameTaken(old(db.roles), update.name) ==>
              r == Err(Duplicate(RoleNameExists(update.name))) && db.roles == old(db.roles)
    ensures id in old(db.roles) && !RoleNameTaken(old(db.roles), update.name) ==>
              r == Ok(UserRole(id, update.name)) && db.roles == old(db.roles)[id := r.value]
    ensures id in old(db.roles) && update.name == old(db.roles)[id].name ==> r.Err? && r.error.Duplicate?
  {
    if id !in db.roles {
      r := Err(Missing(RoleIdNotFound(id)));
      return;
    }
    var role := db.roles[id];
    if RoleNameTaken(db.roles, update.name) {
      r := Err(Duplicate(RoleNameExists(update.name)));
      return;
    }
    role := role.(name := update.name);
    db.roles := db.roles[id := role];
    r := Ok(role);
  }

  /** `delete_user_role`: removes and returns the role with that id. */
  method DeleteUserRole(db: Database, id: Id) returns (r: Result<UserRole>)
    requires db.Valid()
    modifies db
    ensures db.Valid() && db.users == old(db.users) && db.blogs == old(db.blogs)
    ensures id !in old(db.roles) ==> r == Err(Missing(RoleIdNotFound(id))) && db.roles == old(db.roles)
    ensures id in old(db.roles) ==> r == Ok(old(db.roles)[id]) && db.roles == old(db.roles) - {id}
  {
    if id !in db.roles {
      r := Err(Missing(RoleIdNotFound(id)));
      return;
    }
    var role := db.roles[id];
    db.roles := db.roles - {id};
    r := Ok(role);
  }
}
