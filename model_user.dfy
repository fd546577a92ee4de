/** The user records exchanged between the layers, and the field bounds the
    validation layer enforces on them. */
module UserModel {
  import opened Common

  const UsernameMinLength := 2
  const UsernameMaxLength := 100
  const PasswordHashMinLength := 2
  const PasswordMinLength := 8

  predicate ValidUsername(s: string) {
    UsernameMinLength <= |s| <= UsernameMaxLength
  }

  predicate ValidPassword(s: string) {
    |s| >= PasswordMinLength
  }

  /** A stored user (`User`, and `UserInDB`, which adds nothing to it). */
  datatype User = User(id: Id, username: string, passwordHash: string, timeCreated: Time, timeUpdated: Time)

  predicate ValidUser(u: User) {
    ValidUsername(u.username) && |u.passwordHash| >= PasswordHashMinLength
  }

  /** The input of a sign-up. */
  datatype UserCreate = UserCreate(username: string, password: string)

  predicate ValidUserCreate(c: UserCreate) {
    ValidUsername(c.username) && ValidPassword(c.password)
  }

  /** A partial update: an absent field is left as it is. */
  datatype UserUpdate = UserUpdate(id: Id, username: Option<string>, password: Option<string>)

  /** The bounds apply to a field only when it is present. A field the
      validation layer accepts is one the data layer applies: a present
      username or password is never the empty (falsy) string. */
  predicate ValidUserUpdate(u: UserUpdate): (ok: bool)
    ensures ok ==> (u.username.Some? <==> Supplied(u.username))
    ensures ok ==> (u.password.Some? <==> Supplied(u.password))
  {
    && (u.username.Some? ==> ValidUsername(u.username.value))
    && (u.password.Some? ==> ValidPassword(u.password.value))
  }

  /** What the service hands out: a stored user without its password hash. */
  datatype UserOut = UserOut(id: Id, username: string, timeCreated: Time, timeUpdated: Time)

  predicate ValidUserOut(o: UserOut) {
    ValidUsername(o.username)
  }
}
