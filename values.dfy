/**
 * The value objects of the loan domain: Money, Email, InterestRate and
 * TermMonths. Each Java record validates in its compact constructor; here
 * each constructor is a function that returns the value or the failure the
 * constructor throws (a NullPointerException from Objects.requireNonNull is
 * `NullValue`, a DomainValidationException is `Validation` with its code).
 */
module Values {
  import opened Outcomes
  import opened Decimal
  import Text

  // ---------------------------------------------------------------- Money

  /** A non-negative amount always held with two decimals, kept as its count of cents. */
  datatype Money = Money(cents: nat)
  {
    /** The BigDecimal the record holds: cents with scale 2. */
    function Value(): (d: Dec)
      ensures d.scale == 2 && d.unscaled == cents
    {
      Dec(cents, 2)
    }
  }

  /** The Money constructor: null is refused, a negative value is refused before rounding, the rest is set to scale 2 with HALF_UP. */
  function NewMoney(value: Option<Dec>): (r: Result<Money>)
    ensures value.None? ==> r == Err(NullValue("amount is required"))
    ensures value.Some? ==> (r.Err? <==> Signum(value.value) < 0)
    ensures r.Err? && value.Some? ==> r.failure == Validation("INVALID_QUANTITY_MONEY")
    ensures r.Ok? ==> r.value.Value() == SetScaleHalfUp(value.value, 2)
  {
    match value
    case None => Err(NullValue("amount is required"))
    case Some(v) =>
      if Signum(v) < 0 then Err(Validation("INVALID_QUANTITY_MONEY"))
      else
        var d := SetScaleHalfUp(v, 2);
        Ok(Money(d.unscaled))
  }

  /** An amount with at most two decimals is kept at its exact numeric value. */
  lemma MoneyKeepsShortValues(v: Dec)
    requires v.unscaled >= 0 && v.scale <= 2
    ensures NewMoney(Some(v)).Ok?
    ensures Compare(NewMoney(Some(v)).value.Value(), v) == 0
  {
    WideningKeepsValue(v, 2);
  }

  /** An amount with more decimals is rounded to the nearest cent, halves upwards. */
  lemma MoneyRoundsHalfUp(v: Dec)
    requires v.unscaled >= 0 && v.scale > 2
    ensures NewMoney(Some(v)).Ok?
    ensures var c := NewMoney(Some(v)).value.cents; var k := Pow10(v.scale - 2);
      2 * (v.unscaled - c * k) < k && 2 * (c * k - v.unscaled) <= k
  {
  }

  /** Building Money from the value of a Money gives it back unchanged. */
  lemma MoneyIdempotent(m: Money)
    ensures NewMoney(Some(m.Value())) == Ok(m)
  {
    assert Pow10(0) == 1;
  }

  /** -0.001 is refused although HALF_UP at two decimals would make it 0.00: the sign is checked first. */
  lemma TinyNegativeRefused()
    ensures SetScaleHalfUp(Dec(-1, 3), 2).unscaled == 0
    ensures NewMoney(Some(Dec(-1, 3))) == Err(Validation("INVALID_QUANTITY_MONEY"))
  {
    assert Pow10(1) == 10;
    assert RoundHalfUp(1, 10) == 0;
  }

  // ---------------------------------------------------------------- Email

  /** Characters the pattern class [^@\s] accepts; \s is Java's ASCII whitespace class. */
  predicate Plain(c: char)
  {
    c != '@' && c != ' ' && c != '\t' && c != '\n' && c != '\U{B}' && c != '\U{C}' && c != '\r'
  }

  predicate AllPlain(s: string)
  {
    forall k :: 0 <= k < |s| ==> Plain(s[k])
  }

  /** `s` reads local @ domain . tld with '@' at i, that '.' at j and three non-empty plain parts. */
  predicate SplitsAt(s: string, i: int, j: int)
  {
    && 0 < i && i + 1 < j && j + 1 < |s|
    && s[i] == '@' && s[j] == '.'
    && AllPlain(s[..i]) && AllPlain(s[i + 1..j]) && AllPlain(s[j + 1..])
  }

  /** Whole-string match of ^[^@\s]+@[^@\s]+\.[^@\s]+$. */
  ghost predicate MatchesPattern(s: string)
  {
    exists i, j :: SplitsAt(s, i, j)
  }

  /** A dot with at least one character on each side. */
  predicate HasInnerDot(r: string)
  {
    |r| >= 3 && Text.IndexOf(r[1..|r| - 1], '.') < |r| - 2
  }

  /** The matcher: the first '@' starts a non-empty local part, nothing else is '@' or whitespace, and the domain has an inner dot. */
  predicate IsValidEmail(s: string)
  {
    var i := Text.IndexOf(s, '@');
    && 0 < i < |s|
    && AllPlain(s[..i]) && AllPlain(s[i + 1..])
    && HasInnerDot(s[i + 1..])
  }

  /** The matcher accepts exactly the strings the regular expression matches. */
  lemma EmailMatcherIsPattern(s: string)
    ensures IsValidEmail(s) <==> MatchesPattern(s)
  {
    if IsValidEmail(s) {
      var i := Text.IndexOf(s, '@');
      var r := s[i + 1..];
      var m := Text.IndexOf(r[1..|r| - 1], '.') + 1;
      assert r[m] == r[1..|r| - 1][m - 1];
      var j := i + 1 + m;
      assert s[i + 1..j] == r[..m];
      assert s[j + 1..] == r[m + 1..];
      assert SplitsAt(s, i, j);
    }
    if MatchesPattern(s) {
      var i, j :| SplitsAt(s, i, j);
      assert Text.IndexOf(s, '@') == i by {
        assert forall m :: 0 <= m < i ==> s[m] == s[..i][m];
      }
      var r := s[i + 1..];
      assert r[1..|r| - 1][j - i - 2] == '.';
      forall k | 0 <= k < |r|
        ensures Plain(r[k])
      {
        if k < j - i - 1 {
          assert r[k] == s[i + 1..j][k];
        } else if k > j - i - 1 {
          assert r[k] == s[j + 1..][k - (j - i)];
        }
      }
    }
  }

  /** A valid address holds exactly one '@', and no other character is '@' or whitespace. */
  lemma ValidEmailShape(s: string)
    requires IsValidEmail(s)
    ensures var i := Text.IndexOf(s, '@'); i < |s| && s[i] == '@'
    ensures forall k :: 0 <= k < |s| && k != Text.IndexOf(s, '@') ==> Plain(s[k])
  {
    var i := Text.IndexOf(s, '@');
    forall k | 0 <= k < |s| && k != i
      ensures Plain(s[k])
    {
      if k < i {
        assert s[k] == s[..i][k];
      } else {
        assert s[k] == s[i + 1..][k - i - 1];
      }
    }
  }

  /** An address the constructor accepts. */
  lemma EmailAccepted()
    ensures IsValidEmail("a@b.com")
  {
  }

  /** The shortest address the constructor accepts: one character in each part. */
  lemma ShortestEmailAccepted()
    ensures IsValidEmail("x@y.z")
  {
  }

  /** Addresses the constructor refuses: no dot after '@', nothing after the dot, nothing before '@', no '@', nothing after '@', blanks. */
  lemma EmailRefused()
    ensures !IsValidEmail("a@b") && !IsValidEmail("a@b.") && !IsValidEmail("@b.com")
    ensures !IsValidEmail("no-at.com") && !IsValidEmail("a@")
    ensures !IsValidEmail("") && !IsValidEmail(" ") && !IsValidEmail("\t")
  {
  }

  datatype Email = Email(value: string)

  /** The Email constructor: the string is kept as given once it matches the pattern. */
  function NewEmail(value: Option<string>): (r: Result<ValidEmail>)
    ensures value.None? ==> r == Err(NullValue("email is required"))
    ensures value.Some? ==> (r.Ok? <==> MatchesPattern(value.value))
    ensures value.Some? && r.Err? ==> r.failure == Validation("INVALID_EMAIL")
    ensures r.Ok? ==> r.value.value == value.value
  {
    match value
    case None => Err(NullValue("email is required"))
    case Some(s) =>
      EmailMatcherIsPattern(s);
      if IsValidEmail(s) then Ok(Email(s)) else Err(Validation("INVALID_EMAIL"))
  }

  // ---------------------------------------------------------------- InterestRate

  /** A non-negative rate, kept with the scale it was given. */
  datatype InterestRate = InterestRate(annualPercent: Dec)

  function NewInterestRate(value: Option<Dec>): (r: Result<ValidRate>)
    ensures value.None? ==> r == Err(NullValue("interest rate is required"))
    ensures value.Some? ==> (r.Ok? <==> Signum(value.value) >= 0)
    ensures value.Some? && r.Err? ==> r.failure == Validation("INVALID_INTEREST")
    ensures r.Ok? ==> r.value.annualPercent == value.value
  {
    match value
    case None => Err(NullValue("interest rate is required"))
    case Some(v) =>
      CompareZeroIsSignum(v);
      if Compare(v, Zero) < 0 then Err(Validation("INVALID_INTEREST")) else Ok(InterestRate(v))
  }

  // ---------------------------------------------------------------- TermMonths

  /** A term of at least one month. */
  datatype TermMonths = TermMonths(value: int)

  /** The TermMonths constructor: a null Integer and a term below one month fail the same way. */
  function NewTermMonths(value: Option<int>): (r: Result<ValidTermMonths>)
    ensures r.Ok? <==> value.Some? && value.value >= 1
    ensures r.Err? ==> r.failure == Validation("INVALID_TERM_MONTHS")
    ensures r.Ok? ==> r.value.value == value.value
  {
    if value.None? || value.value < 1 then Err(Validation("INVALID_TERM_MONTHS"))
    else Ok(TermMonths(value.value))
  }

  /** Values that went through their constructors. */
  type ValidEmail = e: Email | IsValidEmail(e.value) witness Email("x@y.z")
  type ValidTermMonths = t: TermMonths | t.value >= 1 witness TermMonths(1)
  type ValidRate = r: InterestRate | r.annualPercent.unscaled >= 0 witness InterestRate(Zero)
}
