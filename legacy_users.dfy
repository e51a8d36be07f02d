/**
  The older `User` model of users/models.py: the same role choices and
  default, with `is_admin` also granted to staff, and an `is_user`
  predicate. Its rows carry the same columns as `Users.User`.
*/
module LegacyUsers {
  import Users

  /** `default=UserRoles.USER`, as in the current revision. */
  const DefaultRole: string := Users.UserRole

  /** `is_admin`: the admin role, staff, or a superuser. */
  predicate IsAdmin(u: Users.User) {
    u.role == Users.Admin || u.isStaff || u.isSuperuser
  }

  /** `is_moderator`: the moderator role alone. */
  predicate IsModerator(u: Users.User) {
    u.role == Users.Moderator
  }

  /** `is_user`: the user role alone. */
  predicate IsUser(u: Users.User) {
    u.role == Users.UserRole
  }

  /**
    An account created without a role gets the default: it is `is_user`,
    not `is_moderator`, and `is_admin` only through its staff or superuser flag.
  */
  lemma DefaultAccountIsUser(username: string, email: string, isStaff: bool, isSuperuser: bool)
    ensures var u := Users.User(username, email, "", DefaultRole, isStaff, isSuperuser);
      && Users.IsRoleChoice(u.role) && IsUser(u) && !IsModerator(u)
      && (IsAdmin(u) <==> isStaff || isSuperuser)
  {
  }

  /** For a role among the choices exactly one of the three role comparisons holds. */
  lemma ExactlyOneRole(u: Users.User)
    requires Users.IsRoleChoice(u.role)
    ensures u.role == Users.Admin || IsModerator(u) || IsUser(u)
    ensures !(u.role == Users.Admin && IsModerator(u))
    ensures !(u.role == Users.Admin && IsUser(u))
    ensures !(IsModerator(u) && IsUser(u))
  {
  }

  /** A staff moderator is both admin and moderator. */
  lemma StaffModeratorIsBoth(u: Users.User)
    requires u.isStaff && u.role == Users.Moderator
    ensures IsAdmin(u) && IsModerator(u) && !IsUser(u)
  {
  }

  /**
    Where the two revisions disagree: exactly on staff accounts. Staff makes
    an admin here and a moderator in the current revision.
  */
  lemma RevisionsDisagreeOnStaff(u: Users.User)
    ensures IsAdmin(u) != Users.IsAdmin(u) <==>
      u.isStaff && u.role != Users.Admin && !u.isSuperuser
    ensures IsModerator(u) != Users.IsModerator(u) <==>
      u.isStaff && u.role != Users.Moderator
  {
  }

  /** Every admin of the current revision is an admin of this one. */
  lemma CurrentAdminIsLegacyAdmin(u: Users.User)
    requires Users.IsAdmin(u)
    ensures IsAdmin(u)
  {
  }
}
