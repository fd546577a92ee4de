/** The role records, and the bounds of the role table's name column. */
module UserRoleModel {
  import opened Common

  const RoleNameMinLength := 2
  const RoleNameMaxLength := 100

  /** The `Field(min_length=2, max_length=100)` of the role table's name.
      `model_validate` checks it; the table constructor and attribute
      assignment do not. */
  predicate ValidRoleName(s: string) {
    RoleNameMinLength <= |s| <= RoleNameMaxLength
  }

  datatype UserRole = UserRole(id: Id, name: string)

  datatype UserRoleCreate = UserRoleCreate(name: string)

  datatype UserRoleUpdate = UserRoleUpdate(name: string)
}
