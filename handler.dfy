/**
 * The HTTP handler's own logic: the listing's query parameters become a
 * filter (the status list is a comma-separated parameter), a create
 * request takes the caller's email from the token, and a status change is
 * answered only after the notification of the change has been sent.
 * Request-body decoding, bean validation and the DTO mappers are not part
 * of this model.
 */
module Handler {
  import opened Outcomes
  import opened Decimal
  import Text
  import opened Entities
  import ReviewAdapter
  import UseCase

  /** map(String::trim) over the tokens of the status parameter. */
  function TrimAll(tokens: seq<string>): seq<string>
  {
    seq(|tokens|, k requires 0 <= k < |tokens| => Text.Trim(tokens[k]))
  }

  /** A trimmed token the parameter may hold: blank (dropped) or the name of a status. */
  predicate Acceptable(name: string)
  {
    Text.IsBlank(name) || StatusValueOf(name).Ok?
  }

  /**
   * filter(not blank).map(LoanStatus::valueOf), collected into a set, over
   * the trimmed tokens; the first unknown name, in order, fails.
   */
  function StatusesNamed(names: seq<string>): (r: Result<set<LoanStatus>>)
    ensures r.Ok? <==> forall k :: 0 <= k < |names| ==> Acceptable(names[k])
  {
    if names == [] then Ok({})
    else
      var rest := StatusesNamed(names[1..]);
      assert forall k :: 1 <= k < |names| ==> names[k] == names[1..][k - 1];
      if Text.IsBlank(names[0]) then rest
      else
        match StatusValueOf(names[0])
        case Err(f) => Err(f)
        case Ok(st) => if rest.Err? then rest else Ok({st} + rest.value)
  }

  /**
   * The status set a list of comma-separated tokens asks for: refused
   * exactly when one of the tokens, once trimmed, is unacceptable.
   */
  function StatusSet(tokens: seq<string>): (r: Result<set<LoanStatus>>)
    ensures r.Ok? <==> forall k :: 0 <= k < |tokens| ==> Acceptable(Text.Trim(tokens[k]))
  {
    var names := TrimAll(tokens);
    assert forall k :: 0 <= k < |names| ==> names[k] == Text.Trim(tokens[k]);
    StatusesNamed(names)
  }

  /** An acceptable first name does not decide a refusal: the rest of the list does. */
  lemma AcceptableHeadSkipped(names: seq<string>)
    requires names != [] && Acceptable(names[0])
    ensures StatusesNamed(names).Err? ==> StatusesNamed(names) == StatusesNamed(names[1..])
  {
  }

  /** A refused list is refused for its first unacceptable name, by that name. */
  lemma {:induction false} StatusesRefusal(names: seq<string>) returns (k: nat)
    requires StatusesNamed(names).Err?
    ensures k < |names| && !Acceptable(names[k])
    ensures forall j :: 0 <= j < k ==> Acceptable(names[j])
    ensures StatusesNamed(names).failure == IllegalArgument(names[k])
  {
    if !Acceptable(names[0]) {
      k := 0;
    } else {
      var rest := names[1..];
      AcceptableHeadSkipped(names);
      var k' := StatusesRefusal(rest);
      k := k' + 1;
      assert names[k] == rest[k'];
      forall j | 0 <= j < k
        ensures Acceptable(names[j])
      {
        if j > 0 {
          assert names[j] == rest[j - 1];
        }
      }
    }
  }

  /** The set holds exactly the statuses whose names occur in the list. */
  lemma {:induction false} StatusesMembers(names: seq<string>, st: LoanStatus)
    requires StatusesNamed(names).Ok?
    ensures st in StatusesNamed(names).value <==> st.Name() in names
  {
    if names != [] {
      var rest := names[1..];
      StatusesMembers(rest, st);
      assert names == [names[0]] + rest;
      if Text.IsBlank(names[0]) {
        assert !Text.IsWhitespace(st.Name()[0]);
      } else {
        NameInjective();
      }
    }
  }

  /** A name occurs among the trimmed tokens exactly when some token trims to it. */
  lemma TrimmedOccurrence(tokens: seq<string>, name: string)
    ensures name in TrimAll(tokens) <==> exists k :: 0 <= k < |tokens| && Text.Trim(tokens[k]) == name
  {
    var names := TrimAll(tokens);
    assert forall k :: 0 <= k < |tokens| ==> (names[k] == name <==> Text.Trim(tokens[k]) == name);
  }

  /** Once accepted, the parameter asks for exactly the statuses some trimmed token names. */
  lemma StatusSetMembers(tokens: seq<string>, st: LoanStatus)
    requires StatusSet(tokens).Ok?
    ensures st in StatusSet(tokens).value <==> exists k :: 0 <= k < |tokens| && Text.Trim(tokens[k]) == st.Name()
  {
    StatusesMembers(TrimAll(tokens), st);
    TrimmedOccurrence(tokens, st.Name());
  }

  /** A single token naming a status gives that status alone. */
  lemma StatusSetSingle(token: string, st: LoanStatus)
    requires Text.Trim(token) == st.Name()
    ensures StatusSet([token]) == Ok({st})
  {
    StatusNameRoundTrip(st);
    assert !Text.IsWhitespace(st.Name()[0]);
    assert TrimAll([token]) == [st.Name()];
    assert !Text.IsBlank(st.Name());
    assert StatusesNamed([st.Name()][1..]) == Ok({});
    assert {st} + {} == {st};
  }

  /** The status parameter: absent or blank gives the three review statuses, otherwise its tokens. */
  function ParseStatusCsv(csv: Option<string>): (r: Result<set<LoanStatus>>)
    ensures csv.None? || Text.IsBlank(csv.value) ==> r == Ok(ReviewAdapter.DefaultStatuses)
    ensures csv.Some? && !Text.IsBlank(csv.value) ==> r == StatusSet(Text.Split(csv.value, ','))
  {
    if csv.None? || Text.IsBlank(csv.value) then Ok(ReviewAdapter.DefaultStatuses)
    else StatusSet(Text.Split(csv.value, ','))
  }

  /** Without a parameter the listing asks for the three review statuses. */
  lemma AbsentStatusesAreDefaults()
    ensures ParseStatusCsv(None) == Ok({PendingReview, Rejected, ManualReview})
  {
  }

  /** The parameter holding one status's name asks for that status alone. */
  lemma SingleStatus(st: LoanStatus)
    ensures ParseStatusCsv(Some(st.Name())) == Ok({st})
  {
    Text.SplitWithoutSeparator(st.Name(), ',');
    Text.TrimUntouched(st.Name());
    StatusSetSingle(st.Name(), st);
    assert !Text.IsWhitespace(st.Name()[0]);
  }

  /** An unknown name fails the request. */
  lemma UnknownStatusRefused()
    ensures ParseStatusCsv(Some("BOGUS")) == Err(IllegalArgument("BOGUS"))
  {
    Text.SplitWithoutSeparator("BOGUS", ',');
    Text.TrimUntouched("BOGUS");
    assert !Text.IsWhitespace("BOGUS"[0]);
    assert !Text.IsBlank("BOGUS");
    assert TrimAll(["BOGUS"]) == ["BOGUS"];
    assert StatusValueOf("BOGUS") == Err(IllegalArgument("BOGUS"));
    assert StatusesNamed(["BOGUS"]) == Err(IllegalArgument("BOGUS"));
  }

  /** The listing's query parameters after parsing; None is an absent parameter. */
  datatype ListParams = ListParams(
    search: Option<string>,
    status: Option<string>,
    typeLoanId: Option<string>,
    page: Option<int>,
    size: Option<int>,
    minAmount: Option<Dec>,
    maxAmount: Option<Dec>)

  datatype ListRequest = ListRequest(filter: ManualReviewFilter, page: int, size: int)

  /** list: page defaults to 0, size to 20; the other parameters go into the filter as given. */
  function BuildListRequest(p: ListParams): (r: Result<ListRequest>)
    ensures r.Ok? <==> ParseStatusCsv(p.status).Ok?
    ensures r.Err? ==> r.failure == ParseStatusCsv(p.status).failure
    ensures r.Ok? ==>
      && r.value.page == (if p.page.Some? then p.page.value else 0)
      && r.value.size == (if p.size.Some? then p.size.value else 20)
      && r.value.filter.search == p.search && r.value.filter.typeLoanId == p.typeLoanId
      && r.value.filter.minAmount == p.minAmount && r.value.filter.maxAmount == p.maxAmount
      && r.value.filter.statuses == Some(ParseStatusCsv(p.status).value)
  {
    var page := if p.page.Some? then p.page.value else 0;
    var size := if p.size.Some? then p.size.value else 20;
    match ParseStatusCsv(p.status)
    case Err(f) => Err(f)
    case Ok(statuses) => Ok(ListRequest(ManualReviewFilter(p.search, Some(statuses), p.typeLoanId, p.minAmount, p.maxAmount), page, size))
  }

  /** A status parameter of only commas gives an empty set, which the repository then widens to the defaults. */
  lemma CommasOnlyFallBackToDefaults()
    ensures ParseStatusCsv(Some(",")) == Ok({})
    ensures ReviewAdapter.StatusNames(Some({})) == {"PENDING_REVIEW", "REJECTED", "MANUAL_REVIEW"}
  {
    assert Text.Split(",", ',') == [];
  }

  /** The response body of the listing. */
  datatype PageResponse = PageResponse(content: seq<LoanSummary>, totalElements: int, page: int, size: int, totalPages: int)

  function ToPageResponse(p: Pageable<LoanSummary>): (r: PageResponse)
    ensures r.content == p.content && r.totalElements == p.totalElements
    ensures r.page == p.page && r.size == p.size
    ensures r.totalPages == p.TotalPages()
  {
    PageResponse(p.content, p.totalElements, p.page, p.size, p.TotalPages())
  }

  /** The create-loan request body; every field may be null. */
  datatype CreateLoanRequest = CreateLoanRequest(
    amount: Option<Dec>,
    termMonths: Option<int>,
    email: Option<string>,
    typeLoanId: Option<string>,
    stateLoanId: Option<string>)

  /** createLoan: the email comes from the token and the state is cleared; amount, term and type are kept. */
  function RewriteCreateRequest(req: CreateLoanRequest, tokenEmail: string): (r: CreateLoanRequest)
    ensures r.email == Some(tokenEmail) && r.stateLoanId.None?
    ensures r.amount == req.amount && r.termMonths == req.termMonths && r.typeLoanId == req.typeLoanId
  {
    CreateLoanRequest(req.amount, req.termMonths, Some(tokenEmail), req.typeLoanId, None)
  }

  /** The handler, with the log of status-change notifications it has sent. */
  class LoanHandler {
    const useCase: UseCase.LoanUseCase
    var notificationsSent: seq<LoanStatusChanged>

    constructor (useCase: UseCase.LoanUseCase)
      ensures this.useCase == useCase && notificationsSent == []
    {
      this.useCase := useCase;
      this.notificationsSent := [];
    }

    /** list: the filter built from the parameters, then the page as the response body. */
    function List(p: ListParams): (r: Outcome<PageResponse>)
      requires useCase.Valid()
      reads this, useCase
      ensures BuildListRequest(p).Err? ==> r == Error(BuildListRequest(p).failure)
      ensures r.Value? ==>
                var q := BuildListRequest(p).value;
                r.value.page == ReviewAdapter.SafePage(q.page) && r.value.size == ReviewAdapter.SafeSize(q.size)
                && |r.value.content| <= r.value.size
    {
      match BuildListRequest(p)
      case Err(f) => Error(f)
      case Ok(q) =>
        var out := useCase.Execute(q.filter, q.page, q.size);
        if out.Value? then Value(ToPageResponse(out.value)) else Error(out.failure)
    }

    /**
     * changeLoanStatus: the status change, then the notification, then the
     * updated loan as the response. The notification is sent after the
     * change's transaction has finished, so `notifyFailure` fails the request
     * without undoing the change.
     */
    method ChangeLoanStatus(cmd: ChangeLoanStatus, notifyFailure: Option<Failure>) returns (r: Outcome<Loan>)
      requires useCase.Valid()
      modifies useCase`loans, this`notificationsSent
      ensures useCase.Valid()
      ensures useCase.loans == old(useCase.LoansAfterStatusChange(cmd))
      ensures var ev := old(useCase.StatusChangeOutcome(cmd));
        if ev.Value? && notifyFailure.None? then
          r == Value(ev.value.loan) && notificationsSent == old(notificationsSent) + [ev.value]
        else
          && notificationsSent == old(notificationsSent)
          && r == (if ev.Value? then Error(notifyFailure.value) else if ev.Empty? then Empty else Error(ev.failure))
    {
      var changed := useCase.ChangeLoanStatus(cmd);
      match changed
      case Error(f) => r := Error(f);
      case Empty => r := Empty;
      case Value(event) =>
        if notifyFailure.Some? {
          r := Error(notifyFailure.value);
        } else {
          notificationsSent := notificationsSent + [event];
          r := Value(event.loan);
        }
    }
  }
}
