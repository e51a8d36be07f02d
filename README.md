# api_yamdb: validation, roles, permissions and the review database

api_yamdb is a web API where users post reviews of titles (books, films,
music). A title has a category and some genres. Each review carries a score
from 1 to 10 and can have comments. This project models the part of it that
decides what is allowed:

- `UsernamePattern`: the username pattern `^[\w.@+-]+$`, as Python's
  `re.search` applies it. It is written as a greedy scan and proved
  equivalent to the pattern's meaning. Both the serializer validator and the
  model's `RegexValidator` use it.
- `UsernameValidator`: `CorrectUsernameValidator`, its constructor and its
  call.
- `PyFormat` and `YearValidator`: `validate_year`, with the current year as a
  parameter. The error message renders the year as Python's `str` does, and a
  lemma proves the year can be read back from the message.
- `Users`: the current `User` model. It covers the role choices and the
  default role, the username validator, `is_admin` and `is_moderator`, and the
  uniqueness constraints.
- `LegacyUsers`: the older `User` model, with its three role predicates.
- `Permissions`: `IsAdmin.has_permission`. It models Python's operator
  precedence, its short-circuit evaluation, and the `AttributeError` that
  reading `role` on an object without that attribute would raise.
- `Reviews`: the tables of `reviews/models.py` and the user table, with every
  declared constraint. A `Store` object holds the database. Each insert
  method runs the checks of the model's `full_clean()` and then adds the row,
  as `save()` does. Its
  delete methods apply the `on_delete` rules: CASCADE, SET_NULL and the
  many-to-many unlinking. Each method keeps every constraint, and lemmas spell
  out exactly which rows each delete removes or changes.
- `Serializers`: `ReviewsSerializer.validate`, which refuses a second review
  by one author of one title. A lemma proves that it refuses a POST exactly
  when the database's `unique_review` constraint would.

One behaviour of the code goes beyond a plain reading of "usernames match the
allowed characters". Python's `$` also matches just before a newline that
ends the string. So a username made of allowed characters plus one final
newline passes both the validator and the model's `RegexValidator`. The model
follows the code (`UsernamePattern.SearchIff`,
`UsernameValidator.TrailingNewlinePasses`). This is a property of the two
validators as functions. Through the API, the model's `RegexValidator` sees
the value only after the serializer's `CharField` has trimmed surrounding
whitespace, so `bob\n` arrives as `bob`. `CorrectUsernameValidator` is not
reached through the API at all: `SignUpSerializer`
(api_yamdb/api/serializers.py:37-43) builds it with keyword arguments
(`username_field`, `forbidden_names`, `ignore_case`) that its constructor
does not accept, so that class body raises a TypeError when the module is
imported.

## Model

| member | source | states |
|---|---|---|
| UsernamePattern.AllowedRun | api_yamdb/api/validators.py:9 | the greedy run of `[\w.@+-]+` from position 0: every character in it is allowed, and the next one (if any) is not |
| UsernamePattern.Search | api_yamdb/api/validators.py:19-20 | `regexp.search(username) != None`: the greedy run of allowed characters is non-empty and `$` holds right after it |
| UsernamePattern.SearchMeansMatch | api_yamdb/api/validators.py:19-20 | the scan succeeds iff some non-empty prefix of allowed characters is followed by a position where `$` holds |
| UsernamePattern.SearchIff | api_yamdb/api/validators.py:19-20 | accepted iff the string is non-empty and all allowed, or is allowed characters followed by exactly one final newline |
| UsernamePattern.EmptyRefused | api_yamdb/api/validators.py:9 | the empty string does not match (`+` needs one character) |
| UsernamePattern.ForeignCharRefused | api_yamdb/api/validators.py:9 | a disallowed character anywhere, other than one final newline, makes the search fail |
| UsernamePattern.TrailingNewlineAccepted | api_yamdb/api/validators.py:9 | allowed characters followed by one `\n` still match, because `$` matches before a final newline |
| UsernamePattern.DoubleNewlineRefused | api_yamdb/api/validators.py:9 | two final newlines never match |
| UsernameValidator.New | api_yamdb/api/validators.py:10-15 | fields are kept; a truthy message is kept; a missing or empty message falls back to the class message; the message is never empty |
| UsernameValidator.Call | api_yamdb/api/validators.py:18-21 | no `username` gives a TypeError; otherwise it passes iff the username matches the pattern and fails with the instance's message |
| UsernameValidator.CallAcceptsIff | api_yamdb/api/validators.py:18-21 | the call passes iff the username, less at most one final newline, is a non-empty run of allowed characters |
| UsernameValidator.EmptyUsernameRefused | api_yamdb/api/validators.py:18-21 | an empty username raises the validator's message |
| UsernameValidator.SpaceAndHashRefused | api_yamdb/api/validators.py:18-21 | `john doe` and `john#1` raise the validator's message |
| UsernameValidator.CustomMessageRaised | api_yamdb/api/validators.py:13-21 | a non-empty message given to the constructor is the one raised |
| UsernameValidator.TrailingNewlinePasses | api_yamdb/api/validators.py:18-21 | `bob` followed by a newline passes |
| PyFormat.DigitChar | api_yamdb/reviews/validators.py:9 | the character is a decimal digit whose value is the given digit |
| PyFormat.NatToDecimal | api_yamdb/reviews/validators.py:9 | the rendering is non-empty, all digits, with no leading zero unless the number is 0 |
| PyFormat.IntToDecimal | api_yamdb/reviews/validators.py:9 | `{year}` in the f-string: a `-` for a negative year, then the decimal digits of its magnitude |
| PyFormat.DecimalRoundTrip | api_yamdb/reviews/validators.py:9 | reading back the decimal digits of n gives n |
| PyFormat.IntRoundTrip | api_yamdb/reviews/validators.py:9 | parsing `str(n)` gives back n, negative numbers included |
| YearValidator.ValidateYear | api_yamdb/reviews/validators.py:6-9 | passes iff the year is not after the current year; the error message is the fixed prefix followed by the year, which can be read back |
| YearValidator.CurrentYearAccepted | api_yamdb/reviews/validators.py:6-9 | the current year itself passes |
| YearValidator.AcceptanceIsDownwardClosed | api_yamdb/reviews/validators.py:6-9 | if a year passes, every earlier year passes |
| Users.RoleOrDefault | api_yamdb/users/models.py:43-48 | a given role is stored as given; no role gives `user`, which is one of the choices |
| Users.ValidateUsername | api_yamdb/users/models.py:24-28 | the `RegexValidator` passes iff the username matches the pattern, and fails with its own message |
| Users.IsAdmin | api_yamdb/users/models.py:50-56 | `is_admin`: the admin role or a superuser |
| Users.IsModerator | api_yamdb/users/models.py:58-64 | `is_moderator`: the moderator role or staff |
| Users.SuperuserIsAdmin | api_yamdb/users/models.py:50-56 | a superuser is `is_admin` whatever its role |
| Users.StaffAloneIsModeratorNotAdmin | api_yamdb/users/models.py:50-64 | a staff account with the user role is `is_moderator` and not `is_admin` |
| Users.UniqueAccountsShrink | api_yamdb/users/models.py:19-42 | keeping some accounts unchanged keeps usernames and emails unique |
| Users.UniqueAccountsGrow | api_yamdb/users/models.py:19-42 | adding an account with a new username and a new email keeps them unique |
| Users.PairConstraintImplied | api_yamdb/users/models.py:70-75 | unique usernames and unique emails imply the `unique_username_email` constraint |
| Users.PairConstraintWeaker | api_yamdb/users/models.py:70-75 | two accounts sharing a username satisfy the pair constraint but not `unique=True` |
| LegacyUsers.IsAdmin | users/models.py:35-42 | the older `is_admin`: the admin role, staff, or a superuser |
| LegacyUsers.IsModerator | users/models.py:44-47 | the older `is_moderator`: the moderator role alone |
| LegacyUsers.IsUser | users/models.py:49-52 | `is_user`: the user role alone |
| LegacyUsers.DefaultAccountIsUser | users/models.py:28-52 | an account created without a role gets `user`: it is `is_user`, not `is_moderator`, and `is_admin` iff it is staff or superuser |
| LegacyUsers.ExactlyOneRole | users/models.py:11-16 | for a role among the choices, exactly one of admin-role, `is_moderator` and `is_user` holds |
| LegacyUsers.StaffModeratorIsBoth | users/models.py:35-52 | a staff moderator is both `is_admin` and `is_moderator`, and not `is_user` |
| LegacyUsers.RevisionsDisagreeOnStaff | users/models.py:35-47 | the older `is_admin` differs from the current one iff the account is staff, not admin-role and not a superuser; `is_moderator` differs iff staff and not moderator-role |
| LegacyUsers.CurrentAdminIsLegacyAdmin | users/models.py:35-42 | every current-revision admin is an older-revision admin |
| Permissions.HasPermission | api_yamdb/api/permissions.py:7-13 | raises iff the user is authenticated and has no `role`; otherwise grants iff (authenticated and role `admin`) or staff |
| Permissions.GroupingMattersOnlyForUnauthenticatedStaff | api_yamdb/api/permissions.py:10-13 | the other grouping of `and`/`or` gives a different answer exactly for an unauthenticated staff user |
| Permissions.StaffGranted | api_yamdb/api/permissions.py:10-13 | staff is granted whatever its role and authentication |
| Permissions.NonAdminDenied | api_yamdb/api/permissions.py:10-13 | an authenticated non-staff user whose role is not admin is denied |
| Permissions.SuperuserNotConsulted | api_yamdb/api/permissions.py:10-13 | a non-staff superuser with the user role is denied |
| Permissions.DjangoUsersNeverRaise | api_yamdb/api/permissions.py:10-13 | the anonymous user is denied without error, and an account never raises |
| Permissions.PermissionVersusModelAdmin | api_yamdb/api/permissions.py:10-13 | granted but not `is_admin` iff staff with another role and no superuser flag; `is_admin` but denied iff superuser with another role and no staff flag |
| Permissions.GrantedIsLegacyAdmin | api_yamdb/api/permissions.py:10-13 | whoever the permission grants is `is_admin` in the older model |
| Reviews.UserRejection | api_yamdb/users/models.py:19-48 | a user row is accepted iff the username passes its validator, the role is a choice, and neither username nor email is taken; a bad username or role is reported as such |
| Reviews.NamedSlugRejection | api_yamdb/reviews/models.py:10-21 | a category or genre row is accepted iff its name and its slug are both new; a taken name is reported first, then a taken slug |
| Reviews.TitleRejection | api_yamdb/reviews/models.py:55-74 | a title row is accepted iff its year passes `validate_year`, it names a category (the field is not `blank=True`) that exists, and its genres exist; a future year is reported on `year`, a missing category as blank |
| Reviews.ReviewRejection | api_yamdb/reviews/models.py:92-133 | a review row is accepted iff the score is one of the ten choices, author and title exist, and that author has not reviewed that title |
| Reviews.CommentRejection | api_yamdb/reviews/models.py:136-141 | a comment row is accepted iff its author and its review exist |
| Reviews.AfterDeleteReview | api_yamdb/reviews/models.py:139-141 | the tables after deleting a review: the review and every comment on it are gone (CASCADE on `Comment.review`) |
| Reviews.AfterDeleteTitle | api_yamdb/reviews/models.py:118-120 | the tables after deleting a title: the title, its reviews and the comments on them are gone (CASCADE on `Review.title`, then on `Comment.review`) |
| Reviews.AfterDeleteUser | api_yamdb/reviews/models.py:92-94 | the tables after deleting a user: the user, their reviews, their comments and the comments on their reviews are gone (CASCADE on `author`) |
| Reviews.AfterDeleteCategory | api_yamdb/reviews/models.py:68-74 | the tables after deleting a category: it is gone and titles that named it have a null category (SET_NULL) |
| Reviews.AfterDeleteGenre | api_yamdb/reviews/models.py:62-66 | the tables after deleting a genre: it is gone and removed from every title's genres (the many-to-many rows go with it) |
| Reviews.AfterDeleteComment | api_yamdb/reviews/models.py:136-141 | the tables after deleting a comment: only that comment is gone |
| Reviews.DroppingRowsKeepsRowsWellFormed | api_yamdb/reviews/models.py:12-21 | removing rows never breaks a uniqueness or value constraint (unique names and slugs, unique accounts, username pattern, role and score choices, `unique_review`) |
| Reviews.DeleteReviewKeepsReferences | api_yamdb/reviews/models.py:139-141 | after a review's cascade every foreign key still resolves |
| Reviews.DeleteReviewKeepsValid | api_yamdb/reviews/models.py:139-141 | deleting a review keeps every constraint |
| Reviews.DeleteReviewCascades | api_yamdb/reviews/models.py:139-141 | deleting a review removes it and exactly the comments on it; nothing else changes |
| Reviews.DeleteTitleKeepsReferences | api_yamdb/reviews/models.py:118-141 | after a title's cascade every foreign key still resolves |
| Reviews.DeleteTitleKeepsValid | api_yamdb/reviews/models.py:118-141 | deleting a title keeps every constraint |
| Reviews.DeleteTitleCascades | api_yamdb/reviews/models.py:118-141 | deleting a title removes exactly its reviews and the comments on them; every surviving row is unchanged |
| Reviews.DeleteUserKeepsReferences | api_yamdb/reviews/models.py:92-141 | after a user's cascade every foreign key still resolves |
| Reviews.DeleteUserKeepsValid | api_yamdb/reviews/models.py:92-141 | deleting a user keeps every constraint |
| Reviews.DeleteUserCascades | api_yamdb/reviews/models.py:92-141 | deleting a user removes exactly their reviews, their comments and the comments on their reviews; every surviving row is unchanged |
| Reviews.DeleteCategoryKeepsReferences | api_yamdb/reviews/models.py:68-74 | after SET_NULL every foreign key still resolves |
| Reviews.DeleteCategoryKeepsValid | api_yamdb/reviews/models.py:68-74 | deleting a category keeps every constraint |
| Reviews.DeleteCategorySetsNull | api_yamdb/reviews/models.py:68-74 | deleting a category removes only it and keeps every title; those in it lose their category, every other row is unchanged |
| Reviews.DeleteGenreKeepsReferences | api_yamdb/reviews/models.py:62-66 | after unlinking a genre every foreign key still resolves |
| Reviews.DeleteGenreKeepsValid | api_yamdb/reviews/models.py:62-66 | deleting a genre keeps every constraint |
| Reviews.DeleteGenreUnlinks | api_yamdb/reviews/models.py:62-66 | deleting a genre removes only it and keeps every title, with the genre taken out of its genres and its other columns unchanged; every other table is unchanged |
| Reviews.DeleteCommentKeepsValid | api_yamdb/reviews/models.py:136-141 | deleting a comment keeps every constraint |
| Reviews.InsertUserKeepsValid | api_yamdb/users/models.py:19-48 | a user row that passes its checks keeps every constraint |
| Reviews.InsertCategoryKeepsValid | api_yamdb/reviews/models.py:10-37 | a category row that passes its checks keeps every constraint |
| Reviews.InsertGenreKeepsValid | api_yamdb/reviews/models.py:10-45 | a genre row that passes its checks keeps every constraint |
| Reviews.InsertTitleKeepsValid | api_yamdb/reviews/models.py:48-74 | a title row that passes its checks keeps every constraint |
| Reviews.InsertReviewKeepsValid | api_yamdb/reviews/models.py:101-133 | a review row that passes its checks keeps every constraint, `unique_review` included |
| Reviews.InsertCommentKeepsValid | api_yamdb/reviews/models.py:136-141 | a comment row that passes its checks keeps every constraint |
| Reviews.Store.constructor | api_yamdb/reviews/models.py:10-141 | the database starts empty and valid |
| Reviews.Store.AddUser | api_yamdb/users/models.py:19-48 | refused with the first failing check and no change; otherwise the row, with the default role if none was given, is added under a fresh key; the database stays valid |
| Reviews.Store.AddCategory | api_yamdb/reviews/models.py:10-37 | refused on a taken name or slug with no change; otherwise added under a fresh key |
| Reviews.Store.AddGenre | api_yamdb/reviews/models.py:10-45 | refused on a taken name or slug with no change; otherwise added under a fresh key |
| Reviews.Store.AddTitle | api_yamdb/reviews/models.py:48-74 | refused with no change on a future year, no category, or a category or genre that does not exist; otherwise added under a fresh key |
| Reviews.Store.AddReview | api_yamdb/reviews/models.py:101-133 | score defaults to 1; refused on a bad score, a missing author or title, or a second review of the title by the author, with no change; otherwise added under a fresh key |
| Reviews.Store.AddComment | api_yamdb/reviews/models.py:136-141 | refused on a missing author or review with no change; otherwise added under a fresh key |
| Reviews.Store.DeleteReview | api_yamdb/reviews/models.py:139-141 | reports whether the review existed; the new state is the review's cascade, and the database stays valid |
| Reviews.Store.DeleteTitle | api_yamdb/reviews/models.py:118-120 | reports whether the title existed; the new state is the title's cascade, and the database stays valid |
| Reviews.Store.DeleteUser | api_yamdb/reviews/models.py:92-94 | reports whether the user existed; the new state is the user's cascade, and the database stays valid |
| Reviews.Store.DeleteCategory | api_yamdb/reviews/models.py:68-74 | reports whether the category existed; its titles lose their category, and the database stays valid |
| Reviews.Store.DeleteGenre | api_yamdb/reviews/models.py:62-66 | reports whether the genre existed; it is unlinked from every title, and the database stays valid |
| Reviews.Store.DeleteComment | api_yamdb/reviews/models.py:136-141 | reports whether the comment existed; only it is removed, and the database stays valid |
| Serializers.Validate | api_yamdb/api/serializers.py:148-157 | refuses iff the request is a POST with a `title_id` and the author has already reviewed that title; the data otherwise comes back unchanged |
| Serializers.OnlyPostRefused | api_yamdb/api/serializers.py:151-154 | any method other than POST passes |
| Serializers.SecondPostRefused | api_yamdb/api/serializers.py:148-157 | once a review by the author of the title is stored, a POST for the same pair is refused |
| Serializers.FirstReviewPasses | api_yamdb/api/serializers.py:148-157 | a POST for an (author, title) pair with no review yet passes with its data unchanged |
| Serializers.ValidateMatchesUniqueReview | api_yamdb/api/serializers.py:148-157 | for an existing author and title and a valid score, a POST is refused iff the `unique_review` constraint would refuse the row, and passes iff the row would be accepted |

## Left out

- `\w` is modelled as the ASCII word characters only. Python 3's `\w` also accepts Unicode letters and digits, so usernames with non-ASCII letters are refused here and accepted by the code.
- `validate_username_not_me` (the reserved name `me`) is not part of this model. Its module is not among the files modelled.
- Length limits are left out: `max_length` on the username, email, bio, role, name and slug, and the 150-character limit in the validator's message.
- Email format validation (`EmailField`) and slug format validation (`SlugField`) are left out.
- The range of `PositiveSmallIntegerField` (0..32767) on `year` and `score` is left out. Scores are already bounded by their choices. Years are unbounded integers.
- `CorrectUsernameValidator.__repr__` is left out, being only formatting.
- `YearValidator.ValidateYear`: `datetime.now().year` is the parameter `currentYear`.
- Serializers.Validate: the requesting user is an account key, so `AnonymousUser`, which makes the review query raise before the method is tested, is not modelled (the view's permission classes are not part of this model). `title_id` comes from the URL as a string, and Django converts it to a key. The model takes the key, or `None`. A `title_id` that is not a number makes Django raise, which is not modelled.
- Reviews.TitleRejection: a blank `name` or `description` is not refused, although neither field allows blank. Likewise a blank category or genre `name` or `slug`, a blank review or comment `text` and a blank user `email` are accepted by `NamedSlugRejection`, `ReviewRejection`, `CommentRejection` and `UserRejection`.
- Reviews.Store: the inserts model `full_clean()` followed by `save()`. A plain `save()`, as the CSV loader uses, skips the choice, regex and year checks, and could store rows (a score of 42, say) that `ValidTables` excludes. Only uniqueness, NOT NULL and foreign keys are enforced by the database itself.
- Django's `full_clean` gathers every field's error. The `Reviews` rejection functions report the first failing check only.
- The insert and delete methods are single atomic steps. Transactions, concurrent requests and the database's own locking are left out.
- `pub_date` (`auto_now_add`) and the other timestamp columns are left out: nothing in the core reads them.
- The average score shown on titles, JWT issuance, confirmation codes and email delivery are left out: they are views and framework plug-ins, not part of this core.
- Primary keys come from one counter per table that never reuses a key. A real database's sequences can skip values, and the model does not promise consecutive keys.
- Reviews.Store: the tables are maps held in one `Tables` field that each method reassigns. Django's per-row objects, their identity, and reloading from the database are not modelled.
