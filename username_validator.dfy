/**
  `CorrectUsernameValidator` (api_yamdb/api/validators.py): a serializer-level
  validator that looks up `username` in the validated attributes and raises a
  `ValidationError` carrying its message unless the username matches
  `^[\w.@+-]+$`.
*/
module UsernameValidator {
  import opened Wrappers
  import UsernamePattern

  /** The class attribute `message`, used when the constructor is given none. */
  const DefaultMessage: string :=
    "Не больше 150 символов: буквы, цифры и знаки \"@.+-_\" only."

  /** An instance: the `fields` it was built with and the message it raises. */
  datatype CorrectUsernameValidator = CorrectUsernameValidator(fields: seq<string>, message: string)

  /** What `__call__` can raise. */
  datatype Error =
    | ValidationError(message: string)
      /** `re.search` given `None`, when `attrs` has no `username`. */
    | TypeError

  /**
    `__init__(fields, message=None)`: `message or self.message` keeps the
    argument only when it is truthy, so both a missing and an empty message
    fall back to the default.
  */
  function New(fields: seq<string>, message: Option<string>): (v: CorrectUsernameValidator)
    ensures v.fields == fields
    ensures message.Some? && message.value != "" ==> v.message == message.value
    ensures message.None? || message.value == "" ==> v.message == DefaultMessage
    ensures v.message != ""
  {
    var chosen := if message.Some? && message.value != "" then message.value else DefaultMessage;
    CorrectUsernameValidator(fields, chosen)
  }

  /**
    `__call__(attrs, serializer)`: returns nothing when the username matches
    the pattern, raises the validator's message otherwise. `attrs` is only
    read. The serializer argument is not consulted and is left out.
  */
  function Call(v: CorrectUsernameValidator, attrs: map<string, string>): (r: Outcome<Error>)
    ensures "username" !in attrs ==> r == Fail(TypeError)
    ensures "username" in attrs ==> (r.Pass? <==> UsernamePattern.PatternMatches(attrs["username"]))
    ensures "username" in attrs && r.Fail? ==> r.error == ValidationError(v.message)
  {
    if "username" !in attrs then Fail(TypeError)
    else
      var username := attrs["username"];
      UsernamePattern.SearchMeansMatch(username);
      if UsernamePattern.Search(username) then Pass else Fail(ValidationError(v.message))
  }

  /**
    Accepted exactly when the username is non-empty and made of allowed
    characters, possibly followed by a single newline.
  */
  lemma CallAcceptsIff(v: CorrectUsernameValidator, attrs: map<string, string>, u: string)
    requires "username" in attrs && attrs["username"] == u
    ensures Call(v, attrs).Pass? <==>
      (|u| >= 1 && UsernamePattern.AllAllowed(u)) ||
      (|u| >= 2 && u[|u| - 1] == '\n' && UsernamePattern.AllAllowed(u[..|u| - 1]))
  {
    UsernamePattern.SearchMeansMatch(u);
    UsernamePattern.SearchIff(u);
  }

  /** The empty username is refused with the validator's message. */
  lemma EmptyUsernameRefused(v: CorrectUsernameValidator)
    ensures Call(v, map["username" := ""]) == Fail(ValidationError(v.message))
  {
    UsernamePattern.SearchMeansMatch("");
  }

  /** A space or a `#` inside a username is refused with the validator's message. */
  lemma SpaceAndHashRefused(v: CorrectUsernameValidator)
    ensures Call(v, map["username" := "john doe"]) == Fail(ValidationError(v.message))
    ensures Call(v, map["username" := "john#1"]) == Fail(ValidationError(v.message))
  {
    UsernamePattern.ForeignCharRefused("john doe", 4);
    UsernamePattern.SearchMeansMatch("john doe");
    UsernamePattern.ForeignCharRefused("john#1", 4);
    UsernamePattern.SearchMeansMatch("john#1");
  }

  /** A custom message given to the constructor is the one raised. */
  lemma CustomMessageRaised(m: string)
    requires m != ""
    ensures Call(New([], Some(m)), map["username" := "a b"]) == Fail(ValidationError(m))
  {
    UsernamePattern.ForeignCharRefused("a b", 1);
    UsernamePattern.SearchMeansMatch("a b");
  }

  /** `bob` followed by one newline passes the validator. */
  lemma TrailingNewlinePasses(v: CorrectUsernameValidator)
    ensures Call(v, map["username" := "bob\n"]) == Pass
  {
    assert UsernamePattern.AllAllowed("bob");
    UsernamePattern.TrailingNewlineAccepted("bob");
    assert "bob" + "\n" == "bob\n";
    UsernamePattern.SearchMeansMatch("bob\n");
  }
}
