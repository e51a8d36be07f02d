/**
  Python's `str(n)` for integers, as an f-string such as `f'...: {year}'`
  renders them: optional `-`, then decimal digits without leading zeros.
*/
module PyFormat {
  import opened Wrappers

  predicate IsDigit(c: char) {
    '0' <= c <= '9'
  }

  predicate AllDigits(s: string) {
    forall i :: 0 <= i < |s| ==> IsDigit(s[i])
  }

  function DigitChar(d: nat): (c: char)
    requires d < 10
    ensures IsDigit(c) && (c as int) - ('0' as int) == d
  {
    (('0' as int) + d) as char
  }

  /** The decimal digits of n, most significant first. */
  function NatToDecimal(n: nat): (s: string)
    ensures |s| >= 1 && AllDigits(s)
    ensures s[0] == '0' ==> n == 0
    decreases n
  {
    if n < 10 then [DigitChar(n)] else NatToDecimal(n / 10) + [DigitChar(n % 10)]
  }

  /** `str(n)`. */
  function IntToDecimal(n: int): string {
    if n < 0 then "-" + NatToDecimal(-n) else NatToDecimal(n)
  }

  /** The value of a string of decimal digits (the inverse of NatToDecimal). */
  function DecimalValue(s: string): nat
    requires AllDigits(s)
  {
    if s == [] then 0
    else 10 * DecimalValue(s[..|s| - 1]) + ((s[|s| - 1] as int) - ('0' as int))
  }

  /** `int(s)` restricted to the strings `str` produces. */
  function ParseInt(s: string): Option<int> {
    if |s| >= 2 && s[0] == '-' && AllDigits(s[1..]) then Some(-(DecimalValue(s[1..]) as int))
    else if |s| >= 1 && AllDigits(s) then Some(DecimalValue(s))
    else None
  }

  lemma {:induction false} DecimalRoundTrip(n: nat)
    ensures DecimalValue(NatToDecimal(n)) == n
  {
    if n >= 10 {
      DecimalRoundTrip(n / 10);
      var s := NatToDecimal(n);
      assert s[..|s| - 1] == NatToDecimal(n / 10);
    }
  }

  /** Reading back what `str` wrote gives the same integer. */
  lemma IntRoundTrip(n: int)
    ensures ParseInt(IntToDecimal(n)) == Some(n)
  {
    if n < 0 {
      DecimalRoundTrip(-n);
      assert IntToDecimal(n)[1..] == NatToDecimal(-n);
    } else {
      DecimalRoundTrip(n);
    }
  }
}

/**
  `validate_year` (api_yamdb/reviews/validators.py): a release year later than
  the current year is refused. The clock (`datetime.now().year`) is the
  parameter `currentYear`.
*/
module YearValidator {
  import opened Wrappers
  import PyFormat

  const MessagePrefix: string := "Неверно указан год выпуска: "

  datatype ValidationError = ValidationError(message: string)

  function ValidateYear(year: int, currentYear: int): (r: Outcome<ValidationError>)
    ensures r.Pass? <==> year <= currentYear
    ensures r.Fail? ==>
      |r.error.message| > |MessagePrefix| &&
      r.error.message[..|MessagePrefix|] == MessagePrefix &&
      PyFormat.ParseInt(r.error.message[|MessagePrefix|..]) == Some(year)
  {
    if year > currentYear then
      var message := MessagePrefix + PyFormat.IntToDecimal(year);
      PyFormat.IntRoundTrip(year);
      assert message[|MessagePrefix|..] == PyFormat.IntToDecimal(year);
      Fail(ValidationError(message))
    else Pass
  }

  /** The current year itself is accepted. */
  lemma CurrentYearAccepted(currentYear: int)
    ensures ValidateYear(currentYear, currentYear) == Pass
  {
  }

  /** Accepting a year accepts every earlier one. */
  lemma AcceptanceIsDownwardClosed(year: int, earlier: int, currentYear: int)
    requires ValidateYear(year, currentYear).Pass?
    requires earlier <= year
    ensures ValidateYear(earlier, currentYear).Pass?
  {
  }
}
