/**
  `IsAdmin.has_permission` (api_yamdb/api/permissions.py). The expression
  `user.is_authenticated and user.role == 'admin' or user.is_staff` parses as
  `(is_authenticated and role == 'admin') or is_staff`, and Python evaluates
  it left to right with short-circuiting: `role` is read only for an
  authenticated user.
*/
module Permissions {
  import opened Wrappers
  import Users
  import LegacyUsers

  /**
    The attributes of `request.user` the permission reads. `role` is `None`
    when the object has no such attribute (Django's `AnonymousUser`).
  */
  datatype RequestUser = RequestUser(
    isAuthenticated: bool,
    role: Option<string>,
    isStaff: bool,
    isSuperuser: bool)

  datatype AttributeError = AttributeError(name: string)

  /** A logged-in account: always authenticated, and it has a role. */
  function Account(u: Users.User): RequestUser {
    RequestUser(true, Some(u.role), u.isStaff, u.isSuperuser)
  }

  /** Django's `AnonymousUser`: not authenticated, not staff, not superuser, no `role`. */
  const Anonymous: RequestUser := RequestUser(false, None, false, false)

  /** Reads `user.role`, as Python does: an error when the attribute is missing. */
  function RoleAttribute(u: RequestUser): Result<string, AttributeError> {
    if u.role.Some? then Success(u.role.value) else Failure(AttributeError("role"))
  }

  /** The source's expression, evaluated with `and` binding tighter than `or`. */
  function HasPermission(u: RequestUser): (r: Result<bool, AttributeError>)
    ensures r.Failure? <==> u.isAuthenticated && u.role.None?
    ensures r.Success? ==>
      (r.value <==> (u.isAuthenticated && u.role == Some(Users.Admin)) || u.isStaff)
  {
    var conjunction: Result<bool, AttributeError> :=
      if !u.isAuthenticated then Success(false)
      else match RoleAttribute(u)
        case Failure(e) => Failure(e)
        case Success(role) => Success(role == Users.Admin);
    match conjunction
    case Failure(e) => Failure(e)
    case Success(b) => Success(b || u.isStaff)
  }

  /** The other grouping, `is_authenticated and (role == 'admin' or is_staff)`, for comparison. */
  function HasPermissionIfGrouped(u: RequestUser): Result<bool, AttributeError> {
    if !u.isAuthenticated then Success(false)
    else match RoleAttribute(u)
      case Failure(e) => Failure(e)
      case Success(role) => Success(role == Users.Admin || u.isStaff)
  }

  /** The grouping matters exactly for an unauthenticated staff user. */
  lemma GroupingMattersOnlyForUnauthenticatedStaff(u: RequestUser)
    ensures HasPermission(u) != HasPermissionIfGrouped(u) <==> !u.isAuthenticated && u.isStaff
  {
  }

  /** Staff is granted whatever its authentication and role, when the role can be read. */
  lemma StaffGranted(u: RequestUser)
    requires u.isStaff && (u.isAuthenticated ==> u.role.Some?)
    ensures HasPermission(u) == Success(true)
  {
  }

  /** An authenticated non-staff user whose role is not admin is denied. */
  lemma NonAdminDenied(u: RequestUser)
    requires u.isAuthenticated && !u.isStaff && u.role.Some? && u.role.value != Users.Admin
    ensures HasPermission(u) == Success(false)
  {
  }

  /** `is_superuser` is never read: a non-staff superuser with the user role is denied. */
  lemma SuperuserNotConsulted(u: Users.User)
    requires u.isSuperuser && !u.isStaff && u.role == Users.UserRole
    ensures HasPermission(Account(u)) == Success(false)
  {
  }

  /** Neither an anonymous request nor an account makes the expression raise. */
  lemma DjangoUsersNeverRaise(u: Users.User)
    ensures HasPermission(Anonymous) == Success(false)
    ensures HasPermission(Account(u)).Success?
  {
  }

  /**
    The permission and the model's `is_admin` disagree in both directions:
    staff without the admin role is granted but is not `is_admin`, and a
    superuser without staff or the admin role is `is_admin` but is denied.
  */
  lemma PermissionVersusModelAdmin(u: Users.User)
    ensures HasPermission(Account(u)) == Success(true) && !Users.IsAdmin(u) <==>
      u.isStaff && u.role != Users.Admin && !u.isSuperuser
    ensures Users.IsAdmin(u) && HasPermission(Account(u)) == Success(false) <==>
      u.isSuperuser && u.role != Users.Admin && !u.isStaff
  {
  }

  /** Whoever the permission grants is an admin of the older revision. */
  lemma GrantedIsLegacyAdmin(u: Users.User)
    requires HasPermission(Account(u)) == Success(true)
    ensures LegacyUsers.IsAdmin(u)
  {
  }
}
