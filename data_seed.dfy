/** Start-up seeding: the three default roles and the "admin" user, each
    added only when it is not there yet. */
module Seeding {
  import opened Common
  import opened UserModel
  import opened UserRoleModel
  import opened Db

  const AdminName := "admin"
  /** The roles seeded, in order. */
  const SeedRoleNames: seq<string> := [AdminName, "user", "moderator"]
  /** The role reference the admin row is given when no admin role exists. */
  const MissingRoleRef := "lol"

  /** One step of the seeding loop: add the role unless its name is taken.
      Afterwards the name is taken; a table that already had it is left as
      it was; otherwise only the row under `id` is new or changed. */
  function AddRoleIfAbsent(roles: map<Id, UserRole>, name: string, id: Id): (r: map<Id, UserRole>)
    ensures RoleNameTaken(r, name)
    ensures RoleNameTaken(roles, name) ==> r == roles
    ensures r.Keys == roles.Keys || r.Keys == roles.Keys + {id}
    ensures forall k :: k in roles && k != id ==> k in r && r[k] == roles[k]
  {
    if RoleNameTaken(roles, name) then roles
    else
      var r := roles[id := UserRole(id, name)];
      assert r[id].name == name;
      r
  }

  /** The role table after the seeding loop has run over `names`, the role
      seeded as `names[i]` carrying the id `ids[i]`. */
  function SeedRoles(roles: map<Id, UserRole>, names: seq<string>, ids: seq<Id>): (r: map<Id, UserRole>)
    requires |names| == |ids|
    ensures forall k :: k in r ==> k in roles || k in ids
    ensures forall k :: k in roles && k !in ids ==> k in r && r[k] == roles[k]
    decreases |names|
  {
    if names == [] then roles
    else SeedRoles(AddRoleIfAbsent(roles, names[0], ids[0]), names[1..], ids[1..])
  }

  /** The uuid4s drawn for the seed roles: pairwise distinct and unused. */
  ghost predicate FreshIds(roles: map<Id, UserRole>, ids: seq<Id>) {
    && (forall i :: 0 <= i < |ids| ==> ids[i] !in roles)
    && (forall i, j :: 0 <= i < j < |ids| ==> ids[i] != ids[j])
  }

  ghost predicate AllNamed(roles: map<Id, UserRole>, names: seq<string>) {
    forall i :: 0 <= i < |names| ==> RoleNameTaken(roles, names[i])
  }

  /** The rows "admin", "user" and "moderator" and the user "admin" exist. */
  ghost predicate Seeded(roles: map<Id, UserRole>, users: map<Id, User>) {
    AllNamed(roles, SeedRoleNames) && UsernameTaken(users, AdminName)
  }

  /** Seeding only adds rows, keeps the table well formed, and leaves every
      seed name taken. */
  lemma {:induction false} SeedRolesAdds(roles: map<Id, UserRole>, names: seq<string>, ids: seq<Id>)
    requires |names| == |ids| && FreshIds(roles, ids) && RolesWellFormed(roles)
    ensures var r := SeedRoles(roles, names, ids);
      && RolesWellFormed(r)
      && (forall k :: k in roles ==> k in r && r[k] == roles[k])
      && AllNamed(r, names)
    decreases |names|
  {
    if names != [] {
      var next := AddRoleIfAbsent(roles, names[0], ids[0]);
      assert RoleNameTaken(next, names[0]) by {
        if !RoleNameTaken(roles, names[0]) { assert next[ids[0]].name == names[0]; }
      }
      assert FreshIds(next, ids[1..]) by {
        forall i | 0 <= i < |ids[1..]| ensures ids[1..][i] !in next {
          assert ids[1..][i] == ids[i + 1] && ids[i + 1] != ids[0];
        }
        forall i, j | 0 <= i < j < |ids[1..]| ensures ids[1..][i] != ids[1..][j] {
          assert ids[1..][i] == ids[i + 1] && ids[1..][j] == ids[j + 1];
        }
      }
      SeedRolesAdds(next, names[1..], ids[1..]);
      var r := SeedRoles(roles, names, ids);
      forall i | 0 <= i < |names| ensures RoleNameTaken(r, names[i]) {
        if i == 0 {
          var k :| k in next && next[k].name == names[0];
          assert r[k] == next[k];
        } else {
          assert names[1..][i - 1] == names[i];
        }
      }
    }
  }

  /** Seeding a table that already holds every name changes nothing. */
  lemma {:induction false} SeedRolesNoop(roles: map<Id, UserRole>, names: seq<string>, ids: seq<Id>)
    requires |names| == |ids| && AllNamed(roles, names)
    ensures SeedRoles(roles, names, ids) == roles
    decreases |names|
  {
    if names != [] {
      assert RoleNameTaken(roles, names[0]);
      forall i | 0 <= i < |names[1..]| ensures RoleNameTaken(roles, names[1..][i]) {
        assert names[1..][i] == names[i + 1];
      }
      SeedRolesNoop(roles, names[1..], ids[1..]);
    }
  }

  /** Running the seeding loop twice leaves the role table as running it
      once did, whatever ids the second run draws. */
  lemma SeedRolesIdempotent(roles: map<Id, UserRole>, names: seq<string>, ids1: seq<Id>, ids2: seq<Id>)
    requires |names| == |ids1| == |ids2| && FreshIds(roles, ids1) && RolesWellFormed(roles)
    ensures SeedRoles(SeedRoles(roles, names, ids1), names, ids2) == SeedRoles(roles, names, ids1)
  {
    SeedRolesAdds(roles, names, ids1);
    SeedRolesNoop(SeedRoles(roles, names, ids1), names, ids2);
  }

  /** The loop of `data/__init__.py` over the seed roles. */
  method SeedRoleRows(db: Database, roleIds: seq<Id>)
    requires db.Valid() && |roleIds| == |SeedRoleNames| && FreshIds(db.roles, roleIds)
    modifies db
    ensures db.Valid() && db.users == old(db.users) && db.blogs == old(db.blogs)
    ensures db.roles == SeedRoles(old(db.roles), SeedRoleNames, roleIds)
  {
    for i := 0 to |SeedRoleNames|
      invariant db.Valid() && db.users == old(db.users) && db.blogs == old(db.blogs)
      invariant FreshIds(db.roles, roleIds[i..])
      invariant SeedRoles(db.roles, SeedRoleNames[i..], roleIds[i..]) == SeedRoles(old(db.roles), SeedRoleNames, roleIds)
    {
      var name := SeedRoleNames[i];
      if !RoleNameTaken(db.roles, name) {
        db.roles := db.roles[roleIds[i] := UserRole(roleIds[i], name)];
      }
      assert SeedRoleNames[i..][1..] == SeedRoleNames[i + 1..];
      assert roleIds[i..][1..] == roleIds[i + 1..];
    }
    assert SeedRoleNames[|SeedRoleNames|..] == [];
  }

  /** The admin step of `data/__init__.py`: look the admin role up, then add
      the "admin" user unless a user of that name exists. Returns the role
      reference computed for the new row, or None when no row is added. */
  method SeedAdminUser(db: Database, adminId: Id, createdDefault: Time, updatedDefault: Time) returns (adminRoleRef: Option<Id>)
    requires db.Valid() && adminId !in db.users
    modifies db
    ensures db.Valid() && db.roles == old(db.roles) && db.blogs == old(db.blogs)
    ensures UsernameTaken(db.users, AdminName)
    ensures UsernameTaken(old(db.users), AdminName) ==> db.users == old(db.users) && adminRoleRef == None
    ensures !UsernameTaken(old(db.users), AdminName) ==>
              && db.users == old(db.users)[adminId := User(adminId, AdminName, db.hash(AdminName), createdDefault, updatedDefault)]
              && adminRoleRef == Some(if RoleNameTaken(db.roles, AdminName) then AdminRoleId(db.roles) else MissingRoleRef)
  {
    var adminRole: Option<UserRole> := None;
    if k :| k in db.roles && db.roles[k].name == AdminName {
      adminRole := Some(db.roles[k]);
    }
    if UsernameTaken(db.users, AdminName) {
      adminRoleRef := None;
    } else {
      var roleRef := if adminRole.Some? then adminRole.value.id else MissingRoleRef;
      var admin := User(adminId, AdminName, db.hash(AdminName), createdDefault, updatedDefault);
      db.users := db.users[adminId := admin];
      assert db.users[adminId].username == AdminName;
      adminRoleRef := Some(roleRef);
    }
  }

  /** The id of the role named "admin" (unique by the role table's invariant). */
  ghost function AdminRoleId(roles: map<Id, UserRole>): (id: Id)
    requires RoleNameTaken(roles, AdminName)
    ensures id in roles && roles[id].name == AdminName
  {
    var k :| k in roles && roles[k].name == AdminName; k
  }

  /** The seeding of `data/__init__.py`. `roleIds` are the uuid4s the three
      seed roles are built with, `adminId` the admin row's, and
      `createdDefault` and `updatedDefault` the two clock readings the user
      table's timestamp defaults took when the module was imported. Returns
      the role reference computed for the admin row when that row is added:
      always the admin role's id, never the fallback, because the loop has
      just made sure an admin role exists. The user table has no role column,
      so the reference is not stored. */
  method Seed(db: Database, roleIds: seq<Id>, adminId: Id, createdDefault: Time, updatedDefault: Time) returns (adminRoleRef: Option<Id>)
    requires db.Valid() && |roleIds| == |SeedRoleNames| && FreshIds(db.roles, roleIds) && adminId !in db.users
    modifies db
    ensures db.Valid() && db.blogs == old(db.blogs)
    ensures db.roles == SeedRoles(old(db.roles), SeedRoleNames, roleIds)
    ensures forall k :: k in old(db.roles) ==> k in db.roles && db.roles[k] == old(db.roles)[k]
    ensures Seeded(db.roles, db.users)
    ensures UsernameTaken(old(db.users), AdminName) ==> db.users == old(db.users) && adminRoleRef == None
    ensures !UsernameTaken(old(db.users), AdminName) ==>
              && db.users == old(db.users)[adminId := User(adminId, AdminName, db.hash(AdminName), createdDefault, updatedDefault)]
              && adminRoleRef.Some? && adminRoleRef.value in db.roles && db.roles[adminRoleRef.value].name == AdminName
    ensures Seeded(old(db.roles), old(db.users)) ==> db.roles == old(db.roles) && db.users == old(db.users)
  {
    SeedRolesAdds(db.roles, SeedRoleNames, roleIds);
    if Seeded(db.roles, db.users) {
      SeedRolesNoop(db.roles, SeedRoleNames, roleIds);
    }
    SeedRoleRows(db, roleIds);
    assert RoleNameTaken(db.roles, SeedRoleNames[0]);
    adminRoleRef := SeedAdminUser(db, adminId, createdDefault, updatedDefault);
  }
}
