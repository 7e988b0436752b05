/**
 * The records of the loan domain. Loan validates its required fields in
 * its compact constructor; the others are plain carriers. Pageable adds
 * the page count computed from the total and the page size.
 */
module Entities {
  import opened Outcomes
  import opened Decimal
  import opened Values
  import Text

  /**
   * A loan application. `id` is absent until the store assigns one and
   * `stateLoanId` is absent on a request that has not been placed yet.
   * The other fields are value objects and so are valid by construction.
   */
  datatype Loan = Loan(
    id: Option<string>,
    amount: Money,
    termMonths: ValidTermMonths,
    email: ValidEmail,
    stateLoanId: Option<string>,
    typeLoanId: string)

  /** The Loan constructor: amount, termMonths, email and typeLoanId are checked for null in that order. */
  function NewLoan(id: Option<string>, amount: Option<Money>, termMonths: Option<ValidTermMonths>,
                   email: Option<ValidEmail>, stateLoanId: Option<string>, typeLoanId: Option<string>): (r: Result<Loan>)
    ensures r.Ok? <==> amount.Some? && termMonths.Some? && email.Some? && typeLoanId.Some?
    ensures amount.None? ==> r == Err(NullValue("amount is required"))
    ensures amount.Some? && termMonths.None? ==> r == Err(NullValue("termMonths is required"))
    ensures amount.Some? && termMonths.Some? && email.None? ==> r == Err(NullValue("email is required"))
    ensures amount.Some? && termMonths.Some? && email.Some? && typeLoanId.None? ==> r == Err(NullValue("typeLoanId is required"))
    ensures r.Ok? ==> r.value == Loan(id, amount.value, termMonths.value, email.value, stateLoanId, typeLoanId.value)
  {
    if amount.None? then Err(NullValue("amount is required"))
    else if termMonths.None? then Err(NullValue("termMonths is required"))
    else if email.None? then Err(NullValue("email is required"))
    else if typeLoanId.None? then Err(NullValue("typeLoanId is required"))
    else Ok(Loan(id, amount.value, termMonths.value, email.value, stateLoanId, typeLoanId.value))
  }

  /** Every loan holds a non-negative amount at two decimals, a term of at least a month and an address matching the email pattern. */
  lemma LoanFieldsValid(l: Loan)
    ensures l.amount.Value().scale == 2 && Signum(l.amount.Value()) >= 0
    ensures l.termMonths.value >= 1
    ensures MatchesPattern(l.email.value)
  {
    EmailMatcherIsPattern(l.email.value);
  }

  /** A kind of loan with its amount range and rate; min <= max is not enforced. */
  datatype TypeLoan = TypeLoan(
    id: string,
    name: string,
    minimumAmount: Money,
    maximumAmount: Money,
    annualInterestRate: ValidRate,
    automaticValidation: bool)

  /** A named lifecycle stage of a loan, stored as reference data. */
  datatype StateLoan = StateLoan(id: string, name: string, description: string)

  /** The request to move a loan to another state, named by id or by name. */
  datatype ChangeLoanStatus = ChangeLoanStatus(loanId: string, newStateId: string, reason: string)

  /** What the identity service knows about an applicant; each field may be null. */
  datatype UserData = UserData(id: Option<string>, name: Option<string>, lastName: Option<string>, salary: Option<Dec>)

  /** One of the applicant's approved loans with the name and rate of its type. */
  datatype LoanApproved = LoanApproved(id: string, amount: Dec, termMonths: int, typeLoanName: string, annualInterestRate: Dec)

  /** The message sent for automatic validation: the saved loan, the approved loans, the applicant. */
  datatype DebtCapacity = DebtCapacity(loan: Loan, loanApprovedList: seq<LoanApproved>, userData: UserData)

  /** The event assembled after a status change. */
  datatype LoanStatusChanged = LoanStatusChanged(loan: Loan, stateName: string, typeName: string, reason: string, userData: UserData)

  /** The statuses the manual-review listing can filter on. */
  datatype LoanStatus = PendingReview | Rejected | ManualReview | Approved
  {
    /** Enum.name(). */
    function Name(): (s: string)
      ensures s != [] && !Text.IsWhitespace(s[0]) && !Text.TrimmedAway(s[0]) && !Text.TrimmedAway(s[|s| - 1])
      ensures ',' !in s
    {
      match this
      case PendingReview => "PENDING_REVIEW"
      case Rejected => "REJECTED"
      case ManualReview => "MANUAL_REVIEW"
      case Approved => "APPROVED"
    }
  }

  /** LoanStatus.valueOf: the constant with exactly this name, otherwise IllegalArgumentException. */
  function StatusValueOf(s: string): (r: Result<LoanStatus>)
    ensures r.Ok? ==> r.value.Name() == s
    ensures r.Err? ==> r.failure == IllegalArgument(s)
  {
    if s == "PENDING_REVIEW" then Ok(PendingReview)
    else if s == "REJECTED" then Ok(Rejected)
    else if s == "MANUAL_REVIEW" then Ok(ManualReview)
    else if s == "APPROVED" then Ok(Approved)
    else Err(IllegalArgument(s))
  }

  /** No two constants share a name. */
  lemma NameInjective()
    ensures forall a: LoanStatus, b: LoanStatus :: a.Name() == b.Name() ==> a == b
  {
  }

  /** valueOf and name are inverse: every constant is found by its own name. */
  lemma StatusNameRoundTrip(st: LoanStatus)
    ensures StatusValueOf(st.Name()) == Ok(st)
  {
  }

  /** The listing filter; every field may be null. */
  datatype ManualReviewFilter = ManualReviewFilter(
    search: Option<string>,
    statuses: Option<set<LoanStatus>>,
    typeLoanId: Option<string>,
    minAmount: Option<Dec>,
    maxAmount: Option<Dec>)

  /** One row of the manual-review listing. */
  datatype LoanSummary = LoanSummary(
    id: string,
    amount: Dec,
    termMonths: int,
    applicantEmail: string,
    applicantName: Option<string>,
    typeLoanName: string,
    interestRateMonthly: Dec,
    status: string,
    baseSalary: Option<Dec>,
    monthlyApprovedDebt: Dec)

  const IntMin: int := -0x8000_0000
  const IntMax: int := 0x7fff_ffff

  /** A Java (int) cast of an integral double: saturates at the ends of the int range. */
  function SaturateToInt(x: int): (r: int)
    ensures IntMin <= r <= IntMax
    ensures IntMin <= x <= IntMax ==> r == x
  {
    if x < IntMin then IntMin else if x > IntMax then IntMax else x
  }

  /** The smallest integer at or above a / b. */
  function CeilDiv(a: int, b: int): (q: int)
    requires b != 0
    ensures b > 0 ==> q * b >= a && (q - 1) * b < a
  {
    if b > 0 then
      var f := (-a) / b;
      assert -a == f * b + (-a) % b;
      -f
    else -(a / (-b))
  }

  /** A page of results; the record stores what it is given. */
  datatype Pageable<T> = Pageable(content: seq<T>, totalElements: int, page: int, size: int)
  {
    /**
     * (int) Math.ceil((double) totalElements / (double) size). A zero size
     * divides to NaN (0 pages) or to an infinity of the numerator's sign.
     */
    function TotalPages(): (r: int)
      ensures IntMin <= r <= IntMax
      ensures totalElements == 0 ==> r == 0
      ensures size != 0 ==> r == SaturateToInt(CeilDiv(totalElements, size))
    {
      if size == 0 then
        (if totalElements > 0 then IntMax else if totalElements < 0 then IntMin else 0)
      else SaturateToInt(CeilDiv(totalElements, size))
    }
  }

  /** With a positive size the pages cover every element, and the last page is not empty. */
  lemma TotalPagesCover<T>(p: Pageable<T>)
    requires p.size >= 1 && 0 <= p.totalElements
    requires CeilDiv(p.totalElements, p.size) <= IntMax
    ensures p.TotalPages() * p.size >= p.totalElements
    ensures p.totalElements > 0 ==> (p.TotalPages() - 1) * p.size < p.totalElements
  {
    var q := CeilDiv(p.totalElements, p.size);
    assert q >= 0;
  }
}
