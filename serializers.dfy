/**
  `ReviewsSerializer.validate` (api_yamdb/api/serializers.py): a POST that
  would give an author a second review of the same title is refused before it
  reaches the database; every other request passes its data through.
*/
module Serializers {
  import opened Wrappers
  import Reviews

  const AlreadyReviewed: string := "Вы уже оставляли отзыв!"

  datatype ValidationError = ValidationError(message: string)

  /**
    What `validate` reads from `self.context['view']`: the URL's `title_id`
    (`None` when the route has none), the requesting user's key and the HTTP
    method.
  */
  datatype ReviewContext = ReviewContext(titleId: Option<nat>, author: nat, httpMethod: string)

  /**
    `filter(title=title, author=author).exists()`. A missing `title_id`
    filters on `title IS NULL`, which no review matches: `Review.title` is not
    nullable.
  */
  predicate AlreadyReviewedTitle(reviews: map<nat, Reviews.Review>, ctx: ReviewContext) {
    ctx.titleId.Some? && Reviews.HasReview(reviews, ctx.author, ctx.titleId.value)
  }

  /** `validate(data)`: raises on a repeated POST, returns `data` unchanged otherwise. */
  function Validate<D>(reviews: map<nat, Reviews.Review>, ctx: ReviewContext, data: D): (r: Result<D, ValidationError>)
    ensures r.Failure? <==>
      ctx.httpMethod == "POST" && ctx.titleId.Some? &&
      exists k :: k in reviews && reviews[k].author == ctx.author && reviews[k].title == ctx.titleId.value
    ensures r.Failure? ==> r.error == ValidationError(AlreadyReviewed)
    ensures r.Success? ==> r.value == data
  {
    if AlreadyReviewedTitle(reviews, ctx) && ctx.httpMethod == "POST" then
      Failure(ValidationError(AlreadyReviewed))
    else
      Success(data)
  }

  /** Only POST is ever refused: PATCH, PUT and the rest pass whatever the table holds. */
  lemma OnlyPostRefused<D>(reviews: map<nat, Reviews.Review>, ctx: ReviewContext, data: D)
    requires ctx.httpMethod != "POST"
    ensures Validate(reviews, ctx, data) == Success(data)
  {
  }

  /** Once a review by the author of the title is stored, the next POST for it is refused. */
  lemma SecondPostRefused<D>(reviews: map<nat, Reviews.Review>, id: nat, v: Reviews.Review, data: D)
    ensures Validate(reviews[id := v], ReviewContext(Some(v.title), v.author, "POST"), data) ==
      Failure(ValidationError(AlreadyReviewed))
  {
    assert reviews[id := v][id] == v;
  }

  /** The first review of a title by an author passes, data unchanged. */
  lemma FirstReviewPasses<D>(reviews: map<nat, Reviews.Review>, author: nat, title: nat, data: D)
    requires !Reviews.HasReview(reviews, author, title)
    ensures Validate(reviews, ReviewContext(Some(title), author, "POST"), data) == Success(data)
  {
  }

  /**
    For a request whose author, title and score the database accepts, the
    serializer refuses a POST exactly when the `unique_review` constraint
    would refuse the row: the check only moves the constraint's error forward.
  */
  lemma ValidateMatchesUniqueReview<D>(db: Reviews.Tables, author: nat, title: nat, score: int, data: D)
    requires author in db.users && title in db.titles && Reviews.IsScoreChoice(score)
    ensures Validate(db.reviews, ReviewContext(Some(title), author, "POST"), data).Failure? <==>
      Reviews.ReviewRejection(db, author, title, score) == Some(Reviews.UniqueViolation("unique_review"))
    ensures Validate(db.reviews, ReviewContext(Some(title), author, "POST"), data).Success? <==>
      Reviews.ReviewRejection(db, author, title, score).None?
  {
  }
}
