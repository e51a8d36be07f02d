/**
  The tables of api_yamdb/reviews/models.py (and the user table of
  api_yamdb/users/models.py they point to), with the constraints the models
  declare: unique category and genre names and slugs, scores among the ten
  choices, one review per (author, title), and what each `on_delete` rule
  does to the rows that refer to a deleted one.

  The database is a `Store` object whose tables are maps from primary key to
  row. Each insert runs the checks a model's `full_clean()` runs (choices,
  field validators, uniqueness, existing references) and then, as `save()`,
  adds one row; each delete removes a row and applies the cascade, or sets
  the reference to null, as the foreign keys say.
*/
module Reviews {
  import opened Wrappers
  import Users
  import YearValidator

  /** `Review.ScoreChoice` runs from TERRIBLE = 1 to PERFECT = 10. */
  const MinScore: int := 1
  const MaxScore: int := 10

  /** `default=ScoreChoice.TERRIBLE`. */
  const DefaultScore: int := 1

  predicate IsScoreChoice(score: int) {
    MinScore <= score <= MaxScore
  }

  /** A row of `Category` or of `Genre` (both are `UnitedGenreCategory`). */
  datatype NamedSlug = NamedSlug(name: string, slug: string)

  /** A row of `Title`; `genres` is its many-to-many relation, `category` is nullable. */
  datatype Title = Title(
    name: string,
    year: int,
    description: string,
    genres: set<nat>,
    category: Option<nat>)

  /** A row of `Review`: `author` and `title` are primary keys of those tables. */
  datatype Review = Review(text: string, author: nat, title: nat, score: int)

  /** A row of `Comment`: `author` and `review` are primary keys of those tables. */
  datatype Comment = Comment(text: string, author: nat, review: nat)

  /** All tables at one moment. */
  datatype Tables = Tables(
    users: map<nat, Users.User>,
    categories: map<nat, NamedSlug>,
    genres: map<nat, NamedSlug>,
    titles: map<nat, Title>,
    reviews: map<nat, Review>,
    comments: map<nat, Comment>)

  const EmptyTables: Tables := Tables(map[], map[], map[], map[], map[], map[])

  /** Why an insert is refused. */
  datatype DbError =
    | UniqueViolation(constraint: string)
    | MissingReference(field: string)
    | InvalidValue(field: string, message: string)

  const NotAChoice: string := "is not a valid choice"

  /** Django's message for an empty value in a field without `blank=True`. */
  const BlankMessage: string := "This field cannot be blank."

  // ----- The declared constraints -----

  /** Rows i and j are two rows that share a name or a slug. */
  predicate NamesOrSlugsClash(t: map<nat, NamedSlug>, i: nat, j: nat) {
    i in t && j in t && i != j && (t[i].name == t[j].name || t[i].slug == t[j].slug)
  }

  /** `unique=True` on `name` and on `slug`. */
  ghost predicate UniqueNamesAndSlugs(t: map<nat, NamedSlug>) {
    forall i, j {:trigger NamesOrSlugsClash(t, i, j)} :: !NamesOrSlugsClash(t, i, j)
  }

  /** Usernames pass the `RegexValidator` and roles are among the choices. */
  predicate AccountsWellFormed(users: map<nat, Users.User>) {
    forall u :: u in users ==>
      Users.ValidateUsername(users[u].username).Pass? && Users.IsRoleChoice(users[u].role)
  }

  predicate TitlesReferToExisting(db: Tables) {
    forall t :: t in db.titles ==>
      (db.titles[t].category.Some? ==> db.titles[t].category.value in db.categories) &&
      db.titles[t].genres <= db.genres.Keys
  }

  predicate ReviewsReferToExisting(db: Tables) {
    forall r :: r in db.reviews ==>
      db.reviews[r].author in db.users && db.reviews[r].title in db.titles
  }

  /** Every score is one of the ten choices. */
  predicate ScoresAreChoices(reviews: map<nat, Review>) {
    forall r :: r in reviews ==> IsScoreChoice(reviews[r].score)
  }

  /** Rows i and j are two reviews by one author of one title. */
  predicate ReviewsClash(reviews: map<nat, Review>, i: nat, j: nat) {
    i in reviews && j in reviews && i != j &&
    reviews[i].author == reviews[j].author && reviews[i].title == reviews[j].title
  }

  /** The `unique_review` constraint on (author, title). */
  ghost predicate OneReviewPerPair(reviews: map<nat, Review>) {
    forall i, j {:trigger ReviewsClash(reviews, i, j)} :: !ReviewsClash(reviews, i, j)
  }

  predicate CommentsReferToExisting(db: Tables) {
    forall c :: c in db.comments ==>
      db.comments[c].author in db.users && db.comments[c].review in db.reviews
  }

  /** The uniqueness and value constraints, each within one table. */
  ghost predicate RowsWellFormed(db: Tables) {
    && Users.UniqueAccounts(db.users)
    && AccountsWellFormed(db.users)
    && UniqueNamesAndSlugs(db.categories)
    && UniqueNamesAndSlugs(db.genres)
    && OneReviewPerPair(db.reviews)
    && ScoresAreChoices(db.reviews)
  }

  /** Every foreign key names an existing row. */
  ghost predicate ReferencesResolve(db: Tables) {
    && TitlesReferToExisting(db)
    && ReviewsReferToExisting(db)
    && CommentsReferToExisting(db)
  }

  /** Every declared constraint at once. */
  ghost predicate ValidTables(db: Tables) {
    RowsWellFormed(db) && ReferencesResolve(db)
  }

  /** `a` keeps some of the rows of `b`, unchanged. */
  predicate Submap<V(==)>(a: map<nat, V>, b: map<nat, V>) {
    forall k :: k in a ==> k in b && a[k] == b[k]
  }

  /** `Review.objects.filter(title=title, author=author).exists()`. */
  predicate HasReview(reviews: map<nat, Review>, author: nat, title: nat) {
    exists r :: r in reviews && reviews[r].author == author && reviews[r].title == title
  }

  // ----- The checks an insert runs -----

  /** Why a new user row would be refused, if it would. */
  function UserRejection(users: map<nat, Users.User>, username: string, email: string, role: string): (e: Option<DbError>)
    ensures e.None? <==>
      Users.ValidateUsername(username).Pass? && Users.IsRoleChoice(role) &&
      (forall u :: u in users ==> users[u].username != username && users[u].email != email)
    ensures !Users.ValidateUsername(username).Pass? ==>
      e == Some(InvalidValue("username", Users.UsernameMessage))
    ensures Users.ValidateUsername(username).Pass? && !Users.IsRoleChoice(role) ==>
      e == Some(InvalidValue("role", NotAChoice))
    ensures e.Some? && e.value.UniqueViolation? ==>
      exists u :: u in users && (users[u].username == username || users[u].email == email)
  {
    if Users.ValidateUsername(username).Fail? then Some(InvalidValue("username", Users.UsernameMessage))
    else if !Users.IsRoleChoice(role) then Some(InvalidValue("role", NotAChoice))
    else if exists u :: u in users && users[u].username == username then Some(UniqueViolation("username"))
    else if exists u :: u in users && users[u].email == email then Some(UniqueViolation("email"))
    else None
  }

  /** Why a new category or genre row would be refused, if it would. */
  function NamedSlugRejection(t: map<nat, NamedSlug>, name: string, slug: string): (e: Option<DbError>)
    ensures e.None? <==> forall k :: k in t ==> t[k].name != name && t[k].slug != slug
    ensures e == Some(UniqueViolation("name")) <==> exists k :: k in t && t[k].name == name
    ensures e == Some(UniqueViolation("slug")) <==>
      (forall k :: k in t ==> t[k].name != name) && exists k :: k in t && t[k].slug == slug
  {
    if exists k :: k in t && t[k].name == name then Some(UniqueViolation("name"))
    else if exists k :: k in t && t[k].slug == slug then Some(UniqueViolation("slug"))
    else None
  }

  /**
    Why a new title row would be refused, if it would: the year, then the
    category, then the genres. `category` is `null=True` but not `blank=True`,
    so a new title must name one; only SET_NULL leaves a title without one.
  */
  function TitleRejection(db: Tables, year: int, genres: set<nat>, category: Option<nat>, currentYear: int): (e: Option<DbError>)
    ensures e.None? <==>
      year <= currentYear &&
      category.Some? && category.value in db.categories &&
      genres <= db.genres.Keys
    ensures year > currentYear ==>
      e.Some? && e.value.InvalidValue? && e.value.field == "year"
    ensures year <= currentYear && category.None? ==> e == Some(InvalidValue("category", BlankMessage))
  {
    match YearValidator.ValidateYear(year, currentYear)
    case Fail(err) => Some(InvalidValue("year", err.message))
    case Pass =>
      if category.None? then Some(InvalidValue("category", BlankMessage))
      else if category.value !in db.categories then Some(MissingReference("category"))
      else if !(genres <= db.genres.Keys) then Some(MissingReference("genre"))
      else None
  }

  /** Why a new review row would be refused, if it would. */
  function ReviewRejection(db: Tables, author: nat, title: nat, score: int): (e: Option<DbError>)
    ensures e.None? <==>
      IsScoreChoice(score) && author in db.users && title in db.titles &&
      !HasReview(db.reviews, author, title)
    ensures !IsScoreChoice(score) ==> e == Some(InvalidValue("score", NotAChoice))
    ensures IsScoreChoice(score) && author in db.users && title in db.titles ==>
      (e == Some(UniqueViolation("unique_review")) <==> HasReview(db.reviews, author, title))
  {
    if !IsScoreChoice(score) then Some(InvalidValue("score", NotAChoice))
    else if author !in db.users then Some(MissingReference("author"))
    else if title !in db.titles then Some(MissingReference("title"))
    else if HasReview(db.reviews, author, title) then Some(UniqueViolation("unique_review"))
    else None
  }

  /** Why a new comment row would be refused, if it would. */
  function CommentRejection(db: Tables, author: nat, review: nat): (e: Option<DbError>)
    ensures e.None? <==> author in db.users && review in db.reviews
  {
    if author !in db.users then Some(MissingReference("author"))
    else if review !in db.reviews then Some(MissingReference("review"))
    else None
  }

  // ----- What a delete leaves behind -----

  function ReviewsOfTitle(reviews: map<nat, Review>, title: nat): set<nat> {
    set r | r in reviews && reviews[r].title == title
  }

  function ReviewsByAuthor(reviews: map<nat, Review>, author: nat): set<nat> {
    set r | r in reviews && reviews[r].author == author
  }

  /** The comments that are not on one of the `gone` reviews. */
  function CommentsNotOn(comments: map<nat, Comment>, gone: set<nat>): map<nat, Comment> {
    map c | c in comments && comments[c].review !in gone :: comments[c]
  }

  /** The comments not written by `author`. */
  function CommentsNotBy(comments: map<nat, Comment>, author: nat): map<nat, Comment> {
    map c | c in comments && comments[c].author != author :: comments[c]
  }

  /** `Comment.review` is CASCADE. */
  function AfterDeleteReview(db: Tables, id: nat): Tables {
    db.(reviews := db.reviews - {id}, comments := CommentsNotOn(db.comments, {id}))
  }

  /** `Review.title` is CASCADE, and through it `Comment.review`. */
  function AfterDeleteTitle(db: Tables, id: nat): Tables {
    var gone := ReviewsOfTitle(db.reviews, id);
    db.(titles := db.titles - {id},
        reviews := db.reviews - gone,
        comments := CommentsNotOn(db.comments, gone))
  }

  /** `author` is CASCADE on both `Review` and `Comment`; a review's comments follow it. */
  function AfterDeleteUser(db: Tables, id: nat): Tables {
    var gone := ReviewsByAuthor(db.reviews, id);
    db.(users := db.users - {id},
        reviews := db.reviews - gone,
        comments := CommentsNotBy(CommentsNotOn(db.comments, gone), id))
  }

  /** Every title, with `category` set to null where it was `category`. */
  function TitlesOutOfCategory(titles: map<nat, Title>, category: nat): map<nat, Title> {
    map t | t in titles ::
      if titles[t].category == Some(category) then titles[t].(category := None) else titles[t]
  }

  /** Every title, with `genre` taken out of its genres. */
  function TitlesWithoutGenre(titles: map<nat, Title>, genre: nat): map<nat, Title> {
    map t | t in titles :: titles[t].(genres := titles[t].genres - {genre})
  }

  /** `Title.category` is SET_NULL. */
  function AfterDeleteCategory(db: Tables, id: nat): Tables {
    db.(categories := db.categories - {id},
        titles := TitlesOutOfCategory(db.titles, id))
  }

  /** The rows of the many-to-many table `Title.genre` that name the genre go with it. */
  function AfterDeleteGenre(db: Tables, id: nat): Tables {
    db.(genres := db.genres - {id},
        titles := TitlesWithoutGenre(db.titles, id))
  }

  function AfterDeleteComment(db: Tables, id: nat): Tables {
    db.(comments := db.comments - {id})
  }

  // ----- Properties of the deletes -----

  /** Dropping rows never breaks a uniqueness or value constraint. */
  lemma DroppingRowsKeepsRowsWellFormed(db: Tables, r: Tables)
    requires RowsWellFormed(db)
    requires Submap(r.users, db.users) && Submap(r.categories, db.categories)
    requires Submap(r.genres, db.genres) && Submap(r.reviews, db.reviews)
    ensures RowsWellFormed(r)
  {
    Users.UniqueAccountsShrink(r.users, db.users);
    forall i, j ensures !NamesOrSlugsClash(r.categories, i, j) && !NamesOrSlugsClash(r.genres, i, j) {
      assert NamesOrSlugsClash(r.categories, i, j) ==> NamesOrSlugsClash(db.categories, i, j);
      assert NamesOrSlugsClash(r.genres, i, j) ==> NamesOrSlugsClash(db.genres, i, j);
    }
    forall i, j ensures !ReviewsClash(r.reviews, i, j) {
      assert ReviewsClash(r.reviews, i, j) ==> ReviewsClash(db.reviews, i, j);
    }
  }

  lemma DeleteReviewKeepsReferences(db: Tables, id: nat)
    requires ReferencesResolve(db)
    ensures ReferencesResolve(AfterDeleteReview(db, id))
  {
  }

  lemma DeleteReviewKeepsValid(db: Tables, id: nat)
    requires ValidTables(db)
    ensures ValidTables(AfterDeleteReview(db, id))
  {
    DroppingRowsKeepsRowsWellFormed(db, AfterDeleteReview(db, id));
    DeleteReviewKeepsReferences(db, id);
  }

  /**
    Deleting a review removes it and exactly its comments; every other row is
    kept as it was, and the constraints still hold.
  */
  lemma DeleteReviewCascades(db: Tables, id: nat)
    requires ValidTables(db)
    ensures var r := AfterDeleteReview(db, id);
      && ValidTables(r)
      && r.users == db.users && r.categories == db.categories && r.genres == db.genres
      && r.titles == db.titles
      && r.reviews.Keys == db.reviews.Keys - {id}
      && (forall k :: k in r.reviews ==> r.reviews[k] == db.reviews[k])
      && (forall c :: c in db.comments ==> (c in r.comments <==> db.comments[c].review != id))
      && (forall c :: c in r.comments ==> r.comments[c] == db.comments[c])
  {
    DeleteReviewKeepsValid(db, id);
  }

  lemma DeleteTitleKeepsReferences(db: Tables, id: nat)
    requires ReferencesResolve(db)
    ensures ReferencesResolve(AfterDeleteTitle(db, id))
  {
  }

  lemma DeleteTitleKeepsValid(db: Tables, id: nat)
    requires ValidTables(db)
    ensures ValidTables(AfterDeleteTitle(db, id))
  {
    DroppingRowsKeepsRowsWellFormed(db, AfterDeleteTitle(db, id));
    DeleteTitleKeepsReferences(db, id);
  }

  /**
    Deleting a title removes its reviews and the comments on them; a comment
    survives exactly when its review is about another title.
  */
  lemma DeleteTitleCascades(db: Tables, id: nat)
    requires ValidTables(db)
    ensures var r := AfterDeleteTitle(db, id);
      && ValidTables(r)
      && r.users == db.users && r.categories == db.categories && r.genres == db.genres
      && r.titles.Keys == db.titles.Keys - {id}
      && (forall k :: k in r.titles ==> r.titles[k] == db.titles[k])
      && (forall k :: k in db.reviews ==> (k in r.reviews <==> db.reviews[k].title != id))
      && (forall k :: k in r.reviews ==> r.reviews[k] == db.reviews[k])
      && (forall c :: c in db.comments ==>
            (c in r.comments <==> db.reviews[db.comments[c].review].title != id))
      && (forall c :: c in r.comments ==> r.comments[c] == db.comments[c])
  {
    DeleteTitleKeepsValid(db, id);
  }

  lemma DeleteUserKeepsReferences(db: Tables, id: nat)
    requires ReferencesResolve(db)
    ensures ReferencesResolve(AfterDeleteUser(db, id))
  {
  }

  lemma DeleteUserKeepsValid(db: Tables, id: nat)
    requires ValidTables(db)
    ensures ValidTables(AfterDeleteUser(db, id))
  {
    DroppingRowsKeepsRowsWellFormed(db, AfterDeleteUser(db, id));
    DeleteUserKeepsReferences(db, id);
  }

  /**
    Deleting a user removes every review and comment they wrote, and the
    comments others left on their reviews.
  */
  lemma DeleteUserCascades(db: Tables, id: nat)
    requires ValidTables(db)
    ensures var r := AfterDeleteUser(db, id);
      && ValidTables(r)
      && r.categories == db.categories && r.genres == db.genres && r.titles == db.titles
      && r.users.Keys == db.users.Keys - {id}
      && (forall k :: k in r.users ==> r.users[k] == db.users[k])
      && (forall k :: k in db.reviews ==> (k in r.reviews <==> db.reviews[k].author != id))
      && (forall k :: k in r.reviews ==> r.reviews[k] == db.reviews[k])
      && (forall c :: c in db.comments ==>
            (c in r.comments <==>
               db.comments[c].author != id && db.reviews[db.comments[c].review].author != id))
      && (forall c :: c in r.comments ==> r.comments[c] == db.comments[c])
  {
    DeleteUserKeepsValid(db, id);
  }

  lemma DeleteCategoryKeepsReferences(db: Tables, id: nat)
    requires ReferencesResolve(db)
    ensures ReferencesResolve(AfterDeleteCategory(db, id))
  {
  }

  lemma DeleteCategoryKeepsValid(db: Tables, id: nat)
    requires ValidTables(db)
    ensures ValidTables(AfterDeleteCategory(db, id))
  {
    DroppingRowsKeepsRowsWellFormed(db, AfterDeleteCategory(db, id));
    DeleteCategoryKeepsReferences(db, id);
  }

  /**
    Deleting a category keeps every title; those that were in it now have no
    category, the others are unchanged.
  */
  lemma DeleteCategorySetsNull(db: Tables, id: nat)
    requires ValidTables(db)
    ensures var r := AfterDeleteCategory(db, id);
      && ValidTables(r)
      && r.titles.Keys == db.titles.Keys
      && (forall t :: t in db.titles && db.titles[t].category == Some(id) ==>
            r.titles[t] == db.titles[t].(category := None))
      && (forall t :: t in db.titles && db.titles[t].category != Some(id) ==>
            r.titles[t] == db.titles[t])
      && r.categories.Keys == db.categories.Keys - {id}
      && (forall k :: k in r.categories ==> r.categories[k] == db.categories[k])
      && r.genres == db.genres
      && r.reviews == db.reviews && r.comments == db.comments && r.users == db.users
  {
    DeleteCategoryKeepsValid(db, id);
  }

  lemma DeleteGenreKeepsReferences(db: Tables, id: nat)
    requires ReferencesResolve(db)
    ensures ReferencesResolve(AfterDeleteGenre(db, id))
  {
  }

  lemma DeleteGenreKeepsValid(db: Tables, id: nat)
    requires ValidTables(db)
    ensures ValidTables(AfterDeleteGenre(db, id))
  {
    DroppingRowsKeepsRowsWellFormed(db, AfterDeleteGenre(db, id));
    DeleteGenreKeepsReferences(db, id);
  }

  /** Deleting a genre keeps every title and drops the genre from each. */
  lemma DeleteGenreUnlinks(db: Tables, id: nat)
    requires ValidTables(db)
    ensures var r := AfterDeleteGenre(db, id);
      && ValidTables(r)
      && r.titles.Keys == db.titles.Keys
      && (forall t :: t in r.titles ==>
            id !in r.titles[t].genres && r.titles[t] == db.titles[t].(genres := db.titles[t].genres - {id}))
      && r.genres.Keys == db.genres.Keys - {id}
      && (forall k :: k in r.genres ==> r.genres[k] == db.genres[k])
      && r.categories == db.categories
      && r.reviews == db.reviews && r.comments == db.comments && r.users == db.users
  {
    DeleteGenreKeepsValid(db, id);
  }

  lemma DeleteCommentKeepsValid(db: Tables, id: nat)
    requires ValidTables(db)
    ensures ValidTables(AfterDeleteComment(db, id))
  {
  }

  // ----- Properties of the inserts -----

  /** A user row that passes its checks keeps every constraint. */
  lemma InsertUserKeepsValid(db: Tables, id: nat, u: Users.User)
    requires ValidTables(db) && id !in db.users
    requires UserRejection(db.users, u.username, u.email, u.role).None?
    ensures ValidTables(db.(users := db.users[id := u]))
  {
    var r := db.(users := db.users[id := u]);
    Users.UniqueAccountsGrow(db.users, id, u);
    assert RowsWellFormed(r);
    assert ReferencesResolve(r);
  }

  /** A category row that passes its checks keeps every constraint. */
  lemma InsertCategoryKeepsValid(db: Tables, id: nat, c: NamedSlug)
    requires ValidTables(db) && id !in db.categories
    requires NamedSlugRejection(db.categories, c.name, c.slug).None?
    ensures ValidTables(db.(categories := db.categories[id := c]))
  {
    var r := db.(categories := db.categories[id := c]);
    forall i, j ensures !NamesOrSlugsClash(r.categories, i, j) {
      assert NamesOrSlugsClash(r.categories, i, j) && i != id && j != id ==>
        NamesOrSlugsClash(db.categories, i, j);
    }
    assert RowsWellFormed(r);
    assert ReferencesResolve(r);
  }

  /** A genre row that passes its checks keeps every constraint. */
  lemma InsertGenreKeepsValid(db: Tables, id: nat, g: NamedSlug)
    requires ValidTables(db) && id !in db.genres
    requires NamedSlugRejection(db.genres, g.name, g.slug).None?
    ensures ValidTables(db.(genres := db.genres[id := g]))
  {
    var r := db.(genres := db.genres[id := g]);
    forall i, j ensures !NamesOrSlugsClash(r.genres, i, j) {
      assert NamesOrSlugsClash(r.genres, i, j) && i != id && j != id ==>
        NamesOrSlugsClash(db.genres, i, j);
    }
    assert RowsWellFormed(r);
    assert ReferencesResolve(r);
  }

  /** A title row that passes its checks keeps every constraint. */
  lemma InsertTitleKeepsValid(db: Tables, id: nat, t: Title, currentYear: int)
    requires ValidTables(db) && id !in db.titles
    requires TitleRejection(db, t.year, t.genres, t.category, currentYear).None?
    ensures ValidTables(db.(titles := db.titles[id := t]))
  {
    var r := db.(titles := db.titles[id := t]);
    assert RowsWellFormed(r);
    assert ReferencesResolve(r);
  }

  /**
    A review that passes its checks keeps every constraint; in particular
    there is still at most one review per (author, title).
  */
  lemma InsertReviewKeepsValid(db: Tables, id: nat, v: Review)
    requires ValidTables(db) && id !in db.reviews
    requires ReviewRejection(db, v.author, v.title, v.score).None?
    ensures ValidTables(db.(reviews := db.reviews[id := v]))
  {
    var r := db.(reviews := db.reviews[id := v]);
    forall i, j ensures !ReviewsClash(r.reviews, i, j) {
      assert ReviewsClash(r.reviews, i, j) && i != id && j != id ==> ReviewsClash(db.reviews, i, j);
    }
    assert RowsWellFormed(r);
    assert ReferencesResolve(r);
  }

  /** A comment that passes its checks keeps every constraint. */
  lemma InsertCommentKeepsValid(db: Tables, id: nat, c: Comment)
    requires ValidTables(db) && id !in db.comments
    requires CommentRejection(db, c.author, c.review).None?
    ensures ValidTables(db.(comments := db.comments[id := c]))
  {
    var r := db.(comments := db.comments[id := c]);
    assert RowsWellFormed(r);
    assert ReferencesResolve(r);
  }

  // ----- The database -----

  /** Every key of `m` is below `next`: `next` is a fresh primary key. */
  ghost predicate KeysBelow<V>(m: map<nat, V>, next: nat) {
    forall k :: k in m ==> k < next
  }

  /** The next primary key of each table: keys are never reused. */
  datatype Counters = Counters(user: nat, category: nat, genre: nat, title: nat, review: nat, comment: nat)

  ghost predicate KeysBelowNext(db: Tables, next: Counters) {
    && KeysBelow(db.users, next.user)
    && KeysBelow(db.categories, next.category)
    && KeysBelow(db.genres, next.genre)
    && KeysBelow(db.titles, next.title)
    && KeysBelow(db.reviews, next.review)
    && KeysBelow(db.comments, next.comment)
  }

  lemma NextUserFresh(db: Tables, next: Counters, u: Users.User)
    requires KeysBelowNext(db, next)
    ensures next.user !in db.users
    ensures KeysBelowNext(db.(users := db.users[next.user := u]), next.(user := next.user + 1))
  {
  }

  lemma NextCategoryFresh(db: Tables, next: Counters, c: NamedSlug)
    requires KeysBelowNext(db, next)
    ensures next.category !in db.categories
    ensures KeysBelowNext(db.(categories := db.categories[next.category := c]), next.(category := next.category + 1))
  {
  }

  lemma NextGenreFresh(db: Tables, next: Counters, g: NamedSlug)
    requires KeysBelowNext(db, next)
    ensures next.genre !in db.genres
    ensures KeysBelowNext(db.(genres := db.genres[next.genre := g]), next.(genre := next.genre + 1))
  {
  }

  lemma NextTitleFresh(db: Tables, next: Counters, t: Title)
    requires KeysBelowNext(db, next)
    ensures next.title !in db.titles
    ensures KeysBelowNext(db.(titles := db.titles[next.title := t]), next.(title := next.title + 1))
  {
  }

  lemma NextReviewFresh(db: Tables, next: Counters, v: Review)
    requires KeysBelowNext(db, next)
    ensures next.review !in db.reviews
    ensures KeysBelowNext(db.(reviews := db.reviews[next.review := v]), next.(review := next.review + 1))
  {
  }

  lemma NextCommentFresh(db: Tables, next: Counters, c: Comment)
    requires KeysBelowNext(db, next)
    ensures next.comment !in db.comments
    ensures KeysBelowNext(db.(comments := db.comments[next.comment := c]), next.(comment := next.comment + 1))
  {
  }

  /** Removing rows, or changing their columns, never reuses a key. */
  lemma FewerKeysStayBelow(db: Tables, r: Tables, next: Counters)
    requires KeysBelowNext(db, next)
    requires r.users.Keys <= db.users.Keys && r.categories.Keys <= db.categories.Keys
    requires r.genres.Keys <= db.genres.Keys && r.titles.Keys <= db.titles.Keys
    requires r.reviews.Keys <= db.reviews.Keys && r.comments.Keys <= db.comments.Keys
    ensures KeysBelowNext(r, next)
  {
  }

  /**
    The database the models live in. Each insert is a model's `full_clean()`
    followed by `save()` of a new row, refused with the error the first
    failing check raises; each delete is a `delete()` with the `on_delete`
    rules applied.
  */
  class Store {
    var db: Tables

    var next: Counters

    ghost predicate Valid()
      reads this
    {
      ValidTables(db) && KeysBelowNext(db, next)
    }

    constructor ()
      ensures Valid() && db == EmptyTables
    {
      db := EmptyTables;
      next := Counters(0, 0, 0, 0, 0, 0);
    }

    /** Creates a user; the role defaults to `user`. */
    method AddUser(username: string, email: string, role: Option<string>, isStaff: bool, isSuperuser: bool)
      returns (r: Result<nat, DbError>)
      requires Valid()
      modifies this
      ensures Valid()
      ensures var e := UserRejection(old(db).users, username, email, Users.RoleOrDefault(role));
        if e.Some? then r == Failure(e.value) && db == old(db)
        else
          && r.Success? && r.value !in old(db).users
          && db == old(db).(users := old(db).users[r.value :=
               Users.User(username, email, "", Users.RoleOrDefault(role), isStaff, isSuperuser)])
    {
      var chosen := Users.RoleOrDefault(role);
      var e := UserRejection(db.users, username, email, chosen);
      if e.Some? {
        return Failure(e.value);
      }
      var u := Users.User(username, email, "", chosen, isStaff, isSuperuser);
      NextUserFresh(db, next, u);
      InsertUserKeepsValid(db, next.user, u);
      r := Success(next.user);
      db := db.(users := db.users[next.user := u]);
      next := next.(user := next.user + 1);
    }

    method AddCategory(name: string, slug: string) returns (r: Result<nat, DbError>)
      requires Valid()
      modifies this
      ensures Valid()
      ensures var e := NamedSlugRejection(old(db).categories, name, slug);
        if e.Some? then r == Failure(e.value) && db == old(db)
        else
          && r.Success? && r.value !in old(db).categories
          && db == old(db).(categories := old(db).categories[r.value := NamedSlug(name, slug)])
    {
      var e := NamedSlugRejection(db.categories, name, slug);
      if e.Some? {
        return Failure(e.value);
      }
      NextCategoryFresh(db, next, NamedSlug(name, slug));
      InsertCategoryKeepsValid(db, next.category, NamedSlug(name, slug));
      r := Success(next.category);
      db := db.(categories := db.categories[next.category := NamedSlug(name, slug)]);
      next := next.(category := next.category + 1);
    }

    method AddGenre(name: string, slug: string) returns (r: Result<nat, DbError>)
      requires Valid()
      modifies this
      ensures Valid()
      ensures var e := NamedSlugRejection(old(db).genres, name, slug);
        if e.Some? then r == Failure(e.value) && db == old(db)
        else
          && r.Success? && r.value !in old(db).genres
          && db == old(db).(genres := old(db).genres[r.value := NamedSlug(name, slug)])
    {
      var e := NamedSlugRejection(db.genres, name, slug);
      if e.Some? {
        return Failure(e.value);
      }
      NextGenreFresh(db, next, NamedSlug(name, slug));
      InsertGenreKeepsValid(db, next.genre, NamedSlug(name, slug));
      r := Success(next.genre);
      db := db.(genres := db.genres[next.genre := NamedSlug(name, slug)]);
      next := next.(genre := next.genre + 1);
    }

    /** Creates a title; `currentYear` stands for the clock `validate_year` reads. */
    method AddTitle(name: string, year: int, description: string, genreIds: set<nat>, category: Option<nat>,
                    currentYear: int)
      returns (r: Result<nat, DbError>)
      requires Valid()
      modifies this
      ensures Valid()
      ensures var e := TitleRejection(old(db), year, genreIds, category, currentYear);
        if e.Some? then r == Failure(e.value) && db == old(db)
        else
          && r.Success? && r.value !in old(db).titles
          && db == old(db).(titles := old(db).titles[r.value :=
               Title(name, year, description, genreIds, category)])
    {
      var e := TitleRejection(db, year, genreIds, category, currentYear);
      if e.Some? {
        return Failure(e.value);
      }
      var t := Title(name, year, description, genreIds, category);
      NextTitleFresh(db, next, t);
      InsertTitleKeepsValid(db, next.title, t, currentYear);
      r := Success(next.title);
      db := db.(titles := db.titles[next.title := t]);
      next := next.(title := next.title + 1);
    }

    /** Creates a review; the score defaults to 1. */
    method AddReview(author: nat, title: nat, text: string, score: Option<int>) returns (r: Result<nat, DbError>)
      requires Valid()
      modifies this
      ensures Valid()
      ensures var s := if score.Some? then score.value else DefaultScore;
        var e := ReviewRejection(old(db), author, title, s);
        if e.Some? then r == Failure(e.value) && db == old(db)
        else
          && r.Success? && r.value !in old(db).reviews
          && db == old(db).(reviews := old(db).reviews[r.value := Review(text, author, title, s)])
    {
      var s := if score.Some? then score.value else DefaultScore;
      var e := ReviewRejection(db, author, title, s);
      if e.Some? {
        return Failure(e.value);
      }
      NextReviewFresh(db, next, Review(text, author, title, s));
      InsertReviewKeepsValid(db, next.review, Review(text, author, title, s));
      r := Success(next.review);
      db := db.(reviews := db.reviews[next.review := Review(text, author, title, s)]);
      next := next.(review := next.review + 1);
    }

    method AddComment(author: nat, review: nat, text: string) returns (r: Result<nat, DbError>)
      requires Valid()
      modifies this
      ensures Valid()
      ensures var e := CommentRejection(old(db), author, review);
        if e.Some? then r == Failure(e.value) && db == old(db)
        else
          && r.Success? && r.value !in old(db).comments
          && db == old(db).(comments := old(db).comments[r.value := Comment(text, author, review)])
    {
      var e := CommentRejection(db, author, review);
      if e.Some? {
        return Failure(e.value);
      }
      NextCommentFresh(db, next, Comment(text, author, review));
      InsertCommentKeepsValid(db, next.comment, Comment(text, author, review));
      r := Success(next.comment);
      db := db.(comments := db.comments[next.comment := Comment(text, author, review)]);
      next := next.(comment := next.comment + 1);
    }

    method DeleteReview(id: nat) returns (found: bool)
      requires Valid()
      modifies this
      ensures Valid()
      ensures found == (id in old(db).reviews)
      ensures db == AfterDeleteReview(old(db), id)
    {
      DeleteReviewKeepsValid(db, id);
      FewerKeysStayBelow(db, AfterDeleteReview(db, id), next);
      found := id in db.reviews;
      db := AfterDeleteReview(db, id);
    }

    method DeleteTitle(id: nat) returns (found: bool)
      requires Valid()
      modifies this
      ensures Valid()
      ensures found == (id in old(db).titles)
      ensures db == AfterDeleteTitle(old(db), id)
    {
      DeleteTitleKeepsValid(db, id);
      FewerKeysStayBelow(db, AfterDeleteTitle(db, id), next);
      found := id in db.titles;
      db := AfterDeleteTitle(db, id);
    }

    method DeleteUser(id: nat) returns (found: bool)
      requires Valid()
      modifies this
      ensures Valid()
      ensures found == (id in old(db).users)
      ensures db == AfterDeleteUser(old(db), id)
    {
      DeleteUserKeepsValid(db, id);
      FewerKeysStayBelow(db, AfterDeleteUser(db, id), next);
      found := id in db.users;
      db := AfterDeleteUser(db, id);
    }

    method DeleteCategory(id: nat) returns (found: bool)
      requires Valid()
      modifies this
      ensures Valid()
      ensures found == (id in old(db).categories)
      ensures db == AfterDeleteCategory(old(db), id)
    {
      DeleteCategoryKeepsValid(db, id);
      FewerKeysStayBelow(db, AfterDeleteCategory(db, id), next);
      found := id in db.categories;
      db := AfterDeleteCategory(db, id);
    }

    method DeleteGenre(id: nat) returns (found: bool)
      requires Valid()
      modifies this
      ensures Valid()
      ensures found == (id in old(db).genres)
      ensures db == AfterDeleteGenre(old(db), id)
    {
      DeleteGenreKeepsValid(db, id);
      FewerKeysStayBelow(db, AfterDeleteGenre(db, id), next);
      found := id in db.genres;
      db := AfterDeleteGenre(db, id);
    }

    method DeleteComment(id: nat) returns (found: bool)
      requires Valid()
      modifies this
      ensures Valid()
      ensures found == (id in old(db).comments)
      ensures db == AfterDeleteComment(old(db), id)
    {
      DeleteCommentKeepsValid(db, id);
      FewerKeysStayBelow(db, AfterDeleteComment(db, id), next);
      found := id in db.comments;
      db := AfterDeleteComment(db, id);
    }
  }
}
