/**
  The `User` model of api_yamdb/users/models.py: the three role choices, the
  username validators, the role predicates and the uniqueness constraints.
*/
module Users {
  import opened Wrappers
  import UsernamePattern

  /** `User.UserRoles`: the stored values of the three choices. */
  const Admin: string := "admin"
  const Moderator: string := "moderator"
  const UserRole: string := "user"

  predicate IsRoleChoice(role: string) {
    role == Admin || role == Moderator || role == UserRole
  }

  /** `default=UserRoles.USER`. */
  const DefaultRole: string := UserRole

  /** The role a new account gets: the given one, or the default. */
  function RoleOrDefault(role: Option<string>): (r: string)
    ensures role.Some? ==> r == role.value
    ensures role.None? ==> r == UserRole && IsRoleChoice(r)
  {
    if role.Some? then role.value else DefaultRole
  }

  /** The columns the core reads: those of this model and `AbstractUser`'s two flags. */
  datatype User = User(
    username: string,
    email: string,
    bio: string,
    role: string,
    isStaff: bool,
    isSuperuser: bool)

  /** The message of the `RegexValidator` on `username`. */
  const UsernameMessage: string := "Введите корректное имя пользователя!"

  /** The `RegexValidator` on `username`: the same pattern, applied with `search`. */
  function ValidateUsername(username: string): (r: Outcome<string>)
    ensures r.Pass? <==> UsernamePattern.PatternMatches(username)
    ensures r.Fail? ==> r.error == UsernameMessage
  {
    UsernamePattern.SearchMeansMatch(username);
    if UsernamePattern.Search(username) then Pass else Fail(UsernameMessage)
  }

  /** `is_admin` in this revision: the admin role, or a superuser. */
  predicate IsAdmin(u: User) {
    u.role == Admin || u.isSuperuser
  }

  /** `is_moderator` in this revision: the moderator role, or a staff member. */
  predicate IsModerator(u: User) {
    u.role == Moderator || u.isStaff
  }

  /** A superuser is an admin whatever its role. */
  lemma SuperuserIsAdmin(u: User)
    requires u.isSuperuser
    ensures IsAdmin(u)
  {
  }

  /** Being staff does not make an admin here: it makes a moderator. */
  lemma StaffAloneIsModeratorNotAdmin(u: User)
    requires u.isStaff && !u.isSuperuser && u.role == UserRole
    ensures !IsAdmin(u) && IsModerator(u)
  {
  }

  /** Rows i and j are two accounts that share a username or an email. */
  predicate AccountsClash(users: map<nat, User>, i: nat, j: nat) {
    i in users && j in users && i != j &&
    (users[i].username == users[j].username || users[i].email == users[j].email)
  }

  /** `unique=True` on `username` and on `email`. */
  ghost predicate UniqueAccounts(users: map<nat, User>) {
    forall i, j {:trigger AccountsClash(users, i, j)} :: !AccountsClash(users, i, j)
  }

  /** Keeping some of the accounts, unchanged, keeps them unique. */
  lemma UniqueAccountsShrink(kept: map<nat, User>, users: map<nat, User>)
    requires UniqueAccounts(users)
    requires forall k :: k in kept ==> k in users && kept[k] == users[k]
    ensures UniqueAccounts(kept)
  {
    forall i, j ensures !AccountsClash(kept, i, j) {
      assert AccountsClash(kept, i, j) ==> AccountsClash(users, i, j);
    }
  }

  /** Adding an account whose username and email are both new keeps the accounts unique. */
  lemma UniqueAccountsGrow(users: map<nat, User>, id: nat, u: User)
    requires UniqueAccounts(users) && id !in users
    requires forall k :: k in users ==> users[k].username != u.username && users[k].email != u.email
    ensures UniqueAccounts(users[id := u])
  {
    var grown := users[id := u];
    forall i, j ensures !AccountsClash(grown, i, j) {
      assert AccountsClash(grown, i, j) && i != id && j != id ==> AccountsClash(users, i, j);
    }
  }

  /** The `unique_username_email` constraint on the pair. */
  ghost predicate UniqueUsernameEmailPairs(users: map<nat, User>) {
    forall i, j :: i in users && j in users && i != j ==>
      (users[i].username, users[i].email) != (users[j].username, users[j].email)
  }

  /** The pair constraint is implied by the two single-column ones, and never rejects more than they do. */
  lemma PairConstraintImplied(users: map<nat, User>)
    requires UniqueAccounts(users)
    ensures UniqueUsernameEmailPairs(users)
  {
    forall i, j | i in users && j in users && i != j
      ensures (users[i].username, users[i].email) != (users[j].username, users[j].email)
    {
      assert !AccountsClash(users, i, j);
    }
  }

  /** Two accounts with one username and different emails break `unique` but not the pair constraint. */
  lemma PairConstraintWeaker()
    ensures var users := map[0 := User("ann", "a@x.io", "", UserRole, false, false),
                             1 := User("ann", "b@x.io", "", UserRole, false, false)];
      UniqueUsernameEmailPairs(users) && !UniqueAccounts(users)
  {
    var users := map[0 := User("ann", "a@x.io", "", UserRole, false, false),
                     1 := User("ann", "b@x.io", "", UserRole, false, false)];
    assert AccountsClash(users, 0, 1);
  }
}
