/** The relational store: three keyed tables, the invariants the schema's
    key and unique constraints keep, and the password hasher. */
module Db {
  import opened Common
  import opened UserModel
  import opened UserRoleModel
  import opened BlogModel

  /** Every bcrypt hash is 60 characters long; the model also takes it never
      to be the plaintext it was made from. */
  const BcryptLength := 60

  ghost predicate BcryptLike(hash: string -> string) {
    forall p :: |hash(p)| == BcryptLength && hash(p) != p
  }

  /** Each row is stored under its own id (the primary key). */
  ghost predicate KeyedUsers(m: map<Id, User>) {
    forall k :: k in m ==> m[k].id == k
  }

  ghost predicate KeyedRoles(m: map<Id, UserRole>) {
    forall k :: k in m ==> m[k].id == k
  }

  ghost predicate KeyedBlogs(m: map<Id, Blog>) {
    forall k :: k in m ==> m[k].id == k
  }

  predicate UsernameTaken(m: map<Id, User>, name: string) {
    exists k :: k in m && m[k].username == name
  }

  /** Some user other than `id` holds `name`. */
  predicate UsernameTakenByOther(m: map<Id, User>, name: string, id: Id) {
    exists k :: k in m && k != id && m[k].username == name
  }

  predicate RoleNameTaken(m: map<Id, UserRole>, name: string) {
    exists k :: k in m && m[k].name == name
  }

  /** The unique constraint on `user.username`. */
  ghost predicate UniqueUsernames(m: map<Id, User>) {
    forall a, b :: a in m && b in m && m[a].username == m[b].username ==> a == b
  }

  /** The unique constraint on `userrole.name`. */
  ghost predicate UniqueRoleNames(m: map<Id, UserRole>) {
    forall a, b :: a in m && b in m && m[a].name == m[b].name ==> a == b
  }

  ghost predicate UsersWellFormed(m: map<Id, User>) {
    KeyedUsers(m) && UniqueUsernames(m) && (forall k :: k in m ==> ValidUser(m[k]))
  }

  ghost predicate RolesWellFormed(m: map<Id, UserRole>) {
    KeyedRoles(m) && UniqueRoleNames(m)
  }

  ghost predicate BlogsWellFormed(m: map<Id, Blog>) {
    KeyedBlogs(m) && (forall k :: k in m ==> ValidBlog(m[k]))
  }

  /** No two keys hold the same row. */
  ghost predicate Injective<V>(m: map<Id, V>) {
    forall a, b :: a in m && b in m && m[a] == m[b] ==> a == b
  }

  /** `r` lists every row of `m` exactly once, in some order. */
  ghost predicate Lists<V>(r: seq<V>, m: map<Id, V>) {
    && |r| == |m|
    && (forall i :: 0 <= i < |r| ==> r[i] in m.Values)
    && (forall k :: k in m ==> m[k] in r)
    && (forall i, j :: 0 <= i < j < |r| ==> r[i] != r[j])
  }

  class Database {
    var users: map<Id, User>
    var roles: map<Id, UserRole>
    var blogs: map<Id, Blog>
    /** bcrypt's `hashpw`; its salt is not modelled. */
    const hash: string -> string

    ghost predicate Valid()
      reads this
    {
      UsersWellFormed(users) && RolesWellFormed(roles) && BlogsWellFormed(blogs) && BcryptLike(hash)
    }

    /** `create_all` on a fresh store: three empty tables. */
    constructor (hash: string -> string)
      requires BcryptLike(hash)
      ensures Valid()
      ensures users == map[] && roles == map[] && blogs == map[] && this.hash == hash
    {
      users, roles, blogs := map[], map[], map[];
      this.hash := hash;
    }
  }

  /** `select(...).all()`: every row of a table, each once, in an order the
      store chooses. */
  method Rows<V>(m: map<Id, V>) returns (r: seq<V>)
    requires Injective(m)
    ensures Lists(r, m)
  {
    r := [];
    var rest := m.Keys;
    ghost var keys: seq<Id> := [];
    while rest != {}
      invariant rest <= m.Keys
      invariant |keys| == |r| && |keys| + |rest| == |m.Keys|
      invariant forall i :: 0 <= i < |r| ==> keys[i] in m && keys[i] !in rest && r[i] == m[keys[i]]
      invariant forall k :: k in m && k !in rest ==> k in keys
      invariant forall i, j :: 0 <= i < j < |keys| ==> keys[i] != keys[j]
    {
      var k :| k in rest;
      r, keys := r + [m[k]], keys + [k];
      rest := rest - {k};
    }
    forall k | k in m ensures m[k] in r {
      var i :| 0 <= i < |keys| && keys[i] == k;
      assert r[i] == m[k];
    }
  }
}
