# fast_blog data layer, modelled in Dafny

This project models the data and service layers of a small blogging service
(users, roles, blog posts). The store is a `Db.Database` object holding three
keyed tables: `users`, `roles` and `blogs`, each a `map` from a uuid id to a
row. Every operation of `src/data/user.py`, `src/data/user_role.py` and
`src/data/blog.py` is a module-level method that takes the store as its `db`
parameter, as the source's functions share one engine. A method either
applies fully or returns an error and leaves the tables as they were. Errors
are `Missing(msg)` and `Duplicate(msg)`, and `Invalid(field)` for the one
validation error the data layer raises itself. The messages are built with a
model of Python's `repr()`, as the source's `{x!r}` does.

The object invariant `Valid()` states what the schema keeps:

- each row is stored under its own id;
- usernames are unique, and so are role names;
- every stored user and blog passes the validation bounds of `src/model/`.

Every method preserves it. Start-up seeding is a loop, proved against a
recursive specification function `SeedRoles`. Lemmas about that function
prove that seeding adds all three default roles, loses no row, and does
nothing the second time. The service layer's `UserOut` projection and its
look-up-then-delete compositions are modelled on top of the data methods.

Oracles and parameters:

- bcrypt's `hashpw` is the `const hash` of the database. Its constructor
  requires the hash to be 60 characters long and never equal to the
  plaintext.
- `uuid.uuid4()` is a `freshId` parameter. It is required to be unused in
  its table.
- `datetime.now` is a parameter. Where the source reads the clock twice, for
  `time_created` and then for `time_updated`, there are two parameters,
  `created` and `updated`, and nothing relates them.

Three behaviours of the code are easy to miss:

- A new user gets no role. The user table has no role column, so there is no
  default "user" role and no role reassignment.
- Renaming a role fails with Duplicate when *any* role has the new name,
  including the role being renamed. A user update, by contrast, exempts the
  user's own current username.
- The duplicate-username message is "User with username '<u>' already exists".

Three more facts follow from the code:

- The seeded admin row's role reference falls back to `"lol"` when no admin
  role exists. `Seeding.Seed` proves the fallback can never be taken: the
  loop before it has just made sure an admin role exists.
- `get_blogs_by_user_id` returns an empty list, not an error, when the user
  has no posts.
- `create_blog` does not check that the owner exists. The store's foreign
  keys are not enforced (SQLite's default), so the model does not check
  either.

## Model

| member | source | states |
|---|---|---|
| `Errors.Repr` | src/data/user.py:58 | repr() of an id or name: same quote at both ends; a string with no quote, backslash or control character appears verbatim between single quotes, so messages read "User with id '<id>' not found" |
| `UserModel.ValidUser` | src/model/user.py:24-39 | a stored user's username is 2..100 characters and its password hash at least 2 |
| `UserModel.ValidUserCreate` | src/model/user.py:53-61 | a sign-up's username is 2..100 characters and its password at least 8 |
| `UserModel.ValidUserUpdate` | src/model/user.py:75-84 | the same bounds, each applied only to a present field; an accepted present username or password is never the empty string, so the data layer's truthiness test applies exactly the present fields |
| `UserModel.ValidUserOut` | src/model/user.py:110-116 | the projection's username is 2..100 characters; it has no hash field |
| `BlogModel.ValidBlog` | src/model/blog.py:25-32 | a stored post's title is 2..100 characters and its content at least 2 |
| `BlogModel.ValidBlogCreate` | src/model/blog.py:53-59 | a new post's title is 2..100 characters and its content at least 2 |
| `BlogModel.ValidBlogUpdate` | src/model/blog.py:73-79 | the same bounds, each applied only to a present field; an accepted present title or content is never empty, so the data layer applies exactly the present fields |
| `BlogModel.OneLetterPostRejected` | src/model/blog.py:53-59 | a post with title "a" and content "b" fails `BlogCreate`'s bounds (title 2..100, content at least 2) |
| `UserRoleModel.ValidRoleName` | src/data/user_role.py:26 | a role name passes the table column's bounds when it is 2..100 characters |
| `Db.Database.constructor` | src/data/__init__.py:17 | creating the schema yields three empty tables that satisfy the invariant |
| `Db.Rows` | src/data/user.py:86 | `select(...).all()` lists every row of a table exactly once: same count, every element a stored row, every stored row present, no repeats |
| `UserData.NewUser` | src/data/user.py:109-116 | the row a sign-up stores has the given id and username, `hash(password)` as its hash (never the plaintext), the first clock reading as `time_created` and the second as `time_updated`, and passes `User`'s bounds when the input passed `UserCreate`'s |
| `UserData.UpdatedUser` | src/data/user.py:152-158 | an update keeps id and `time_created`, sets `time_updated`, replaces the username and re-hashes the password only when supplied, and keeps a valid row valid under a valid update |
| `UserData.GetUserByUsername` | src/data/user.py:52-58 | succeeds exactly when some user has that username, returning that stored row; otherwise Missing "User with username '<u>' not found" |
| `UserData.GetUserById` | src/data/user.py:71-75 | succeeds exactly when the id is stored, returning the row with that id; otherwise Missing "User with id '<id>' not found" |
| `UserData.GetAllUsers` | src/data/user.py:85-87 | returns every stored user exactly once |
| `UserData.CreateUser` | src/data/user.py:100-124 | a taken username gives Duplicate "User with username '<u>' already exists" and no change; otherwise exactly one row is added under the fresh id and returned, with the password hashed and the two clock readings as its timestamps; the invariant holds |
| `UserData.UpdateUser` | src/data/user.py:137-165 | unknown id: Missing, table unchanged; a username held by a different user: Duplicate, table unchanged; re-using one's own username succeeds; otherwise only that row changes, as `UpdatedUser` says; uniqueness is kept |
| `UserData.DeleteUser` | src/data/user.py:175-186 | removes exactly the row with that id; an unknown id gives Missing and removes nothing |
| `UserRoleData.GetUserRoleById` | src/data/user_role.py:40-46 | succeeds exactly when the id is stored; otherwise Missing "User role with id '<id>' not found" |
| `UserRoleData.GetUserRoleByName` | src/data/user_role.py:59-65 | succeeds exactly when a role has that name, returning it; otherwise Missing "User role with name '<n>' not found" |
| `UserRoleData.GetAllUserRoles` | src/data/user_role.py:75-79 | returns every stored role exactly once |
| `UserRoleData.CreateUserRole` | src/data/user_role.py:92-103 | a name outside 2..100 characters is refused as `Invalid("name")` before the store is touched; a taken name gives Duplicate "User role with name '<n>' exists" and no change; otherwise one role with the fresh id and the name is added |
| `UserRoleData.UpdateUserRole` | src/data/user_role.py:119-135 | unknown id: Missing (checked before the name); a name any role has, the renamed role included, gives Duplicate, so renaming to the current name fails; otherwise only the name of that role changes, with no length check |
| `UserRoleData.DeleteUserRole` | src/data/user_role.py:148-156 | removes and returns exactly the role with that id; an unknown id gives Missing and no change |
| `BlogData.NewBlog` | src/data/blog.py:97-102 | a new post copies owner, title and content, takes the first clock reading as `time_created` and the second as `time_updated`, and passes `Blog`'s bounds when the input passed `BlogCreate`'s |
| `BlogData.UpdatedBlog` | src/data/blog.py:127-131 | an update keeps id, owner and `time_created`, sets `time_updated`, replaces title and content only when supplied, and keeps a valid post valid under a valid update |
| `BlogData.OwnedBy` | src/data/blog.py:69 | the filter `user_id == ...`: keeps exactly the posts of that owner, and keeps a repeat-free list repeat-free |
| `BlogData.GetBlogById` | src/data/blog.py:51-55 | succeeds exactly when the id is stored; otherwise Missing "Blog with id '<id>' not found" |
| `BlogData.GetBlogsByUserId` | src/data/blog.py:68-70 | returns exactly the stored posts of that owner, each once, and an empty list exactly when there are none |
| `BlogData.GetAllBlogs` | src/data/blog.py:80-82 | returns every stored post exactly once |
| `BlogData.CreateBlog` | src/data/blog.py:95-108 | always adds exactly one post under the fresh id and returns it |
| `BlogData.UpdateBlog` | src/data/blog.py:121-138 | unknown id: Missing, nothing changes; otherwise only that post changes, as `UpdatedBlog` says |
| `BlogData.DeleteBlog` | src/data/blog.py:148-158 | removes exactly that post; an unknown id gives Missing and removes nothing |
| `Seeding.AddRoleIfAbsent` | src/data/__init__.py:28-38 | one step of the loop: afterwards the name is taken; a table that had it is unchanged; otherwise only the row under the new id is added |
| `Seeding.SeedRoles` | src/data/__init__.py:26-40 | the loop over the seed roles as a function: every row after it was there before or has one of the drawn ids, and every row under another id is kept |
| `Seeding.SeedRolesAdds` | src/data/__init__.py:27-40 | with unused, distinct ids the seeding loop keeps every existing row, keeps names unique, and leaves every seed name present |
| `Seeding.SeedRolesNoop` | src/data/__init__.py:28-40 | when every seed name is already taken, the loop adds nothing |
| `Seeding.SeedRolesIdempotent` | src/data/__init__.py:26-40 | running the loop twice leaves the role table as one run does |
| `Seeding.SeedRoleRows` | src/data/__init__.py:26-40 | the loop's role table equals `SeedRoles` of the old one; users and blogs untouched |
| `Seeding.SeedAdminUser` | src/data/__init__.py:43-63 | "admin" is added with `hash("admin")` and the two import-time default readings as its timestamps only when no user has that name; its role reference is the admin role's id if one exists, else "lol" |
| `Seeding.Seed` | src/data/__init__.py:19-63 | afterwards "admin", "user", "moderator" and the user "admin" exist; existing rows kept; the admin's role reference is always the admin role's id; seeding an already seeded store changes nothing |
| `UserService.ToUserOut` | src/model/user.py:100-122 | the projection keeps id, username and both timestamps and drops the hash; a valid user gives a valid `UserOut` |
| `UserService.CreateUser` | src/service/user.py:21-24 | the projection of the created row, or the data layer's Duplicate unchanged |
| `UserService.GetUserById` | src/service/user.py:37-40 | the projection of the stored row, or Missing with the data layer's message |
| `UserService.GetUserByUsername` | src/service/user.py:53-56 | the projection of the row with that username, or Missing with the data layer's message |
| `UserService.GetAllUsers` | src/service/user.py:66-69 | one projection per stored user, each user once |
| `UserService.UpdateUser` | src/service/user.py:82-85 | Missing and Duplicate from the data layer unchanged; otherwise the projection of the updated row |
| `UserService.DeleteUser` | src/service/user.py:95-99 | look up, then delete: an unknown id gives Missing "User with id '<id>' not found" and removes nothing; otherwise exactly that user is removed |
| `UserService.DeleteThenGetUser` | src/test/test_unit/test_service/test_user_service.py:211-222 | after deleting a stored user, looking it up by id is Missing |
| `BlogService.CreateBlog` | src/service/blog.py:21-24 | the data layer's new row, unchanged |
| `BlogService.GetBlogById` | src/service/blog.py:37-40 | the stored post or Missing, as the data layer gives it |
| `BlogService.GetAllBlogs` | src/service/blog.py:50-53 | every stored post once, each valid |
| `BlogService.UpdateBlog` | src/service/blog.py:66-69 | Missing for an unknown id, else the data layer's update |
| `BlogService.DeleteBlog` | src/service/blog.py:79-83 | look up, then delete: an unknown id gives Missing and removes nothing; otherwise exactly that post is removed |
| `BlogService.DeleteThenGetBlog` | src/test/test_unit/test_service/test_blog_service.py:131-142 | after deleting a stored post, looking it up by id is Missing |

## Left out

- The web layer, the application start-up and configuration loading are HTTP routing and framework plumbing. Status codes and request parsing are not modelled.
- Sessions, commit, rollback and refresh are not modelled. Each operation is one atomic update of a map.
- The composite primary key on `user.username` and the ORM relationships are not modelled. Only the key on id and the unique constraints are.
- Concurrency is not modelled. Two requests cannot interleave between a uniqueness check and its write.
- `Db.Database.constructor`: bcrypt is a fixed function. Its random salt is not modelled, and neither is its truncation of passwords after 72 bytes. That it never returns the plaintext is assumed, not proved.
- `Errors.Repr`: only backslash, the two quotes, `\n`, `\r` and `\t` are escaped. Other non-printable characters, which repr() writes as `\x..` or `\u....`, are not.
- Failures of the store itself are not modelled: a full disk, a lost connection, a uuid collision. Fresh ids are required to be unused, not drawn.
- Renaming a role does not check the name's length: the name is assigned to the row directly (src/data/user_role.py:130). The seeded roles are built with the table constructor, which does not validate either. So the invariant does not bound role names.
- `UserRoleData.CreateUserRole`: pydantic's ValidationError is modelled as `Invalid("name")`. Its message text and its error details are not modelled.
- The `print` calls of `create_user` (src/data/user.py:122) and of the seeding (src/data/__init__.py:34-41, 57-63) write to the console only. They are not modelled.
- `create_user` and `update_user` take their inputs already validated. A field outside its bounds is refused before the data layer runs.
- `Seeding.SeedAdminUser`: the role reference is returned, not stored, because the user table has no role column. For the same reason the seeded password "admin" is never checked against `UserCreate`'s minimum length.
- Timestamps are integers from the clock parameter. Time zones, and the naive class-level defaults versus `datetime.now(UTC)`, are not modelled.
