/**
  The username pattern `^[\w.@+-]+$`, as Python's `re.search` applies it.

  Both `CorrectUsernameValidator` (api_yamdb/api/validators.py) and the
  `RegexValidator` on `User.username` (api_yamdb/users/models.py) compile this
  pattern and call `search` on the candidate. Without the MULTILINE flag `^`
  matches only at position 0, and `$` matches at the end of the string or just
  before a newline that ends it.
*/
module UsernamePattern {

  /** `\w`, restricted to the ASCII word characters. */
  predicate IsWordChar(c: char) {
    ('a' <= c <= 'z') || ('A' <= c <= 'Z') || ('0' <= c <= '9') || c == '_'
  }

  /** One character of the class `[\w.@+-]`. */
  predicate IsAllowedChar(c: char) {
    IsWordChar(c) || c == '.' || c == '@' || c == '+' || c == '-'
  }

  predicate AllAllowed(s: string) {
    forall i :: 0 <= i < |s| ==> IsAllowedChar(s[i])
  }

  /** Where `$` holds: at the end of `s`, or before a final newline. */
  predicate DollarAt(s: string, k: nat) {
    k == |s| || (k + 1 == |s| && s[k] == '\n')
  }

  /**
    The regular expression's meaning: a run of k >= 1 allowed characters
    starting at position 0 after which `$` holds.
  */
  ghost predicate PatternMatches(s: string) {
    exists k: nat :: 1 <= k <= |s| && AllAllowed(s[..k]) && DollarAt(s, k)
  }

  /** The length of the longest allowed prefix: what the greedy `+` consumes. */
  function AllowedRun(s: string): (n: nat)
    ensures n <= |s|
    ensures AllAllowed(s[..n])
    ensures n < |s| ==> !IsAllowedChar(s[n])
  {
    if s == [] || !IsAllowedChar(s[0]) then 0
    else
      var n := 1 + AllowedRun(s[1..]);
      assert s[..n] == [s[0]] + s[1..][..n - 1];
      n
  }

  /**
    `re.search(r'^[\w.@+-]+$', s) is not None`: take the greedy run, then
    test `$`. Backtracking to a shorter run never helps, because a newline is
    not an allowed character.
  */
  function Search(s: string): bool {
    var n := AllowedRun(s);
    1 <= n && DollarAt(s, n)
  }

  /** The scan agrees with the regular expression's meaning, in both directions. */
  lemma SearchMeansMatch(s: string)
    ensures Search(s) <==> PatternMatches(s)
  {
    var n := AllowedRun(s);
    if Search(s) {
      assert 1 <= n <= |s| && AllAllowed(s[..n]) && DollarAt(s, n);
    }
    if PatternMatches(s) {
      var k: nat :| 1 <= k <= |s| && AllAllowed(s[..k]) && DollarAt(s, k);
      assert k == n;
    }
  }

  /** Accepted exactly when the string, less at most one final newline, is a non-empty run of allowed characters. */
  lemma SearchIff(s: string)
    ensures Search(s) <==>
      (|s| >= 1 && AllAllowed(s)) ||
      (|s| >= 2 && s[|s| - 1] == '\n' && AllAllowed(s[..|s| - 1]))
  {
    var n := AllowedRun(s);
    assert s[..|s|] == s;
    if |s| >= 2 && s[|s| - 1] == '\n' && AllAllowed(s[..|s| - 1]) {
      assert !IsAllowedChar(s[|s| - 1]);
    }
  }

  /** The empty string is refused: `+` needs at least one character. */
  lemma EmptyRefused()
    ensures !Search("")
  {
  }

  /**
    A character outside the class anywhere except as a final newline makes the
    search fail.
  */
  lemma ForeignCharRefused(s: string, i: nat)
    requires i < |s| && !IsAllowedChar(s[i])
    requires !(i + 1 == |s| && s[i] == '\n')
    ensures !Search(s)
  {
    var n := AllowedRun(s);
  }

  /** Allowed characters followed by one newline are still accepted. */
  lemma TrailingNewlineAccepted(t: string)
    requires |t| >= 1 && AllAllowed(t)
    ensures Search(t + "\n")
  {
    var s := t + "\n";
    assert s[..|s| - 1] == t;
    SearchIff(s);
  }

  /** Two newlines at the end are too many for `$`. */
  lemma DoubleNewlineRefused(t: string)
    ensures !Search(t + "\n\n")
  {
    var s := t + "\n\n";
    ForeignCharRefused(s, |t|);
  }
}
