/** The identity resolver of `src/app/lib/auth/user.ts`: the session user and
    the role row looked up for it are inputs (the two awaited lookups), and
    the resolved identity is a function of them. */
module Auth {
  import opened Wrappers
  import opened JsValues

  /** The authenticated user of the session; `email` may be absent. */
  datatype SessionUser = SessionUser(id: string, email: Option<string>)

  /** A row of the externally managed roles table. */
  datatype Role = Role(name: string, hierarchyLevel: int)

  datatype CurrentUser = CurrentUser(
    email: string,
    userId: Option<string>,
    isAdmin: bool,
    canVerify: bool,
    roleName: string)

  /** Hierarchy level from which a role sees both counters. */
  const AdminLevel := 80

  /** The identity given when nobody is signed in. */
  const Guest := CurrentUser("Unknown", None, false, false, "viewer")

  /** `role?.name ?? 'viewer'` */
  function RoleName(role: Option<Role>): string {
    if role.Some? then role.value.name else "viewer"
  }

  /** `role?.hierarchy_level ?? 0` */
  function HierarchyLevel(role: Option<Role>): int {
    if role.Some? then role.value.hierarchyLevel else 0
  }

  /** The role names allowed to tick the verification checkbox. */
  predicate IsVerifierRole(name: string) {
    name == "admin" || name == "super_admin" || name == "quality_assurance"
  }

  /** `getCurrentUser`. Only a signed-in user has a user id, and only a
      signed-in user with a role row can verify. */
  function GetCurrentUser(user: Option<SessionUser>, role: Option<Role>): (u: CurrentUser)
    ensures u.userId.Some? <==> user.Some?
    ensures u.canVerify ==> user.Some? && role.Some?
    ensures u.isAdmin ==> user.Some?
    ensures u.email != ""
    ensures user.Some? ==> u.userId == Some(user.value.id) && u.roleName == RoleName(role)
    ensures user.Some? && user.value.email.Some? && user.value.email.value != "" ==> u.email == user.value.email.value
  {
    match user
    case None => Guest
    case Some(su) =>
      var roleName := RoleName(role);
      CurrentUser(
        email := StrOr(su.email, "Unknown"),
        userId := Some(su.id),
        isAdmin := HierarchyLevel(role) >= AdminLevel || roleName == "quality_assurance",
        canVerify := IsVerifierRole(roleName),
        roleName := roleName)
  }

  /** Without a session user the result is exactly the guest identity,
      whatever role row is supplied. */
  lemma NoUserIsGuest(role: Option<Role>)
    ensures GetCurrentUser(None, role) == CurrentUser("Unknown", None, false, false, "viewer")
  {
  }

  /** A user without a role row is a viewer who is neither admin nor verifier. */
  lemma MissingRoleIsViewer(su: SessionUser)
    ensures GetCurrentUser(Some(su), None).roleName == "viewer"
    ensures !GetCurrentUser(Some(su), None).isAdmin
    ensures !GetCurrentUser(Some(su), None).canVerify
  {
  }

  /** A signed-in user is admin iff the role level is at least 80 or the role
      is quality assurance. */
  lemma IsAdminIff(su: SessionUser, role: Option<Role>)
    ensures GetCurrentUser(Some(su), role).isAdmin <==>
      (role.Some? && role.value.hierarchyLevel >= 80) || (role.Some? && role.value.name == "quality_assurance")
  {
  }

  /** Verification depends only on the role name, never on the level. */
  lemma CanVerifyIff(su: SessionUser, name: string, level: int, otherLevel: int)
    ensures GetCurrentUser(Some(su), Some(Role(name, level))).canVerify <==>
      name in {"admin", "super_admin", "quality_assurance"}
    ensures GetCurrentUser(Some(su), Some(Role(name, level))).canVerify ==
      GetCurrentUser(Some(su), Some(Role(name, otherLevel))).canVerify
  {
  }

  /** Quality assurance is admin and verifier at every level; admin and
      super admin below level 80 verify without seeing both counters; a
      level-80 role with another name sees both counters but cannot verify. */
  lemma RoleCombinations(su: SessionUser, level: int)
    ensures var qa := GetCurrentUser(Some(su), Some(Role("quality_assurance", level)));
      qa.isAdmin && qa.canVerify
    ensures level < 80 ==>
      var a := GetCurrentUser(Some(su), Some(Role("admin", level)));
      a.canVerify && !a.isAdmin
    ensures level < 80 ==>
      var sa := GetCurrentUser(Some(su), Some(Role("super_admin", level)));
      sa.canVerify && !sa.isAdmin
    ensures level >= 80 ==>
      var m := GetCurrentUser(Some(su), Some(Role("manager", level)));
      m.isAdmin && !m.canVerify
  {
  }

  /** A user without an email (absent or empty) is shown as "Unknown" but
      keeps the user id. */
  lemma MissingEmailIsUnknown(id: string, role: Option<Role>)
    ensures GetCurrentUser(Some(SessionUser(id, None)), role).email == "Unknown"
    ensures GetCurrentUser(Some(SessionUser(id, Some(""))), role).email == "Unknown"
    ensures GetCurrentUser(Some(SessionUser(id, None)), role).userId == Some(id)
  {
  }
}
