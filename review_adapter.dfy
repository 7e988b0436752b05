/**
 * The repository adapter's side of the manual-review listing: it
 * normalises the page, the size and the filter into query parameters, runs
 * the listing and the count on one snapshot of the joined table, and fills
 * each row's applicant name and salary from the identity service.
 * Whether a string parses as a UUID is a parameter (`isUuid`), and so is
 * the canonical text of the UUID it parses to (`canon`); the identity service is a lookup by email that yields the user, nothing, or
 * a failure.
 */
module ReviewAdapter {
  import opened Outcomes
  import opened Decimal
  import Text
  import opened Entities
  import opened ReviewQuery

  /** Math.max(page, 0). */
  function SafePage(page: int): (r: nat)
    ensures page >= 0 ==> r == page
    ensures page < 0 ==> r == 0
  {
    if page < 0 then 0 else page
  }

  /** Math.max(size, 1). */
  function SafeSize(size: int): (r: nat)
    ensures r >= 1
    ensures size >= 1 ==> r == size
    ensures size < 1 ==> r == 1
  {
    if size < 1 then 1 else size
  }

  /** The statuses used when the filter gives none. */
  const DefaultStatuses: set<LoanStatus> := {PendingReview, Rejected, ManualReview}

  /** A null or empty status set becomes the default; the names are bound as the statuses array. */
  function StatusNames(statuses: Option<set<LoanStatus>>): (names: set<string>)
    ensures statuses.None? || statuses.value == {} ==>
              names == {"PENDING_REVIEW", "REJECTED", "MANUAL_REVIEW"}
    ensures statuses.Some? && statuses.value != {} ==>
              forall st: LoanStatus :: st.Name() in names <==> st in statuses.value
  {
    var chosen := if statuses.None? || statuses.value == {} then DefaultStatuses else statuses.value;
    NameInjective();
    set st | st in chosen :: st.Name()
  }

  /** emptyToNull: a null or blank string becomes null. */
  function EmptyToNull(s: Option<string>): (r: Option<string>)
    ensures r.None? <==> s.None? || Text.IsBlank(s.value)
    ensures r.Some? ==> r == s
  {
    if s.None? || Text.IsBlank(s.value) then None else s
  }

  /**
   * A null or blank type id becomes null; any other value must parse as a
   * UUID or the call throws, and the parsed UUID is what the query binds.
   */
  function NormalizeTypeId(typeLoanId: Option<string>, isUuid: string -> bool, canon: string -> string): (r: Result<Option<string>>)
    ensures r.Err? <==> typeLoanId.Some? && !Text.IsBlank(typeLoanId.value) && !isUuid(typeLoanId.value)
    ensures r.Err? ==> r.failure == IllegalArgument(typeLoanId.value)
    ensures r.Ok? ==> (r.value.None? <==> EmptyToNull(typeLoanId).None?)
    ensures r.Ok? && r.value.Some? ==> r.value.value == canon(typeLoanId.value)
  {
    if typeLoanId.None? || Text.IsBlank(typeLoanId.value) then Ok(None)
    else if isUuid(typeLoanId.value) then Ok(Some(canon(typeLoanId.value)))
    else Err(IllegalArgument(typeLoanId.value))
  }

  /** The query parameters the adapter binds. */
  datatype QueryParams = QueryParams(criteria: Criteria, offset: nat, limit: nat, page: nat, size: nat)

  function Normalize(f: ManualReviewFilter, page: int, size: int, isUuid: string -> bool, canon: string -> string): (r: Result<QueryParams>)
    ensures r.Err? <==> NormalizeTypeId(f.typeLoanId, isUuid, canon).Err?
    ensures r.Ok? ==>
      && r.value.page == SafePage(page) && r.value.size == SafeSize(size)
      && r.value.offset == r.value.page * r.value.size && r.value.limit == r.value.size
      && r.value.criteria == Criteria(StatusNames(f.statuses), EmptyToNull(f.search),
                                      NormalizeTypeId(f.typeLoanId, isUuid, canon).value, f.minAmount, f.maxAmount)
  {
    var safePage := SafePage(page);
    var safeSize := SafeSize(size);
    match NormalizeTypeId(f.typeLoanId, isUuid, canon)
    case Err(e) => Err(e)
    case Ok(typeId) =>
      Ok(QueryParams(Criteria(StatusNames(f.statuses), EmptyToNull(f.search), typeId, f.minAmount, f.maxAmount),
                     safePage * safeSize, safeSize, safePage, safeSize))
  }

  /** The page offset never goes below zero and pages of one size never overlap. */
  lemma OffsetsAdvanceBySize(page: int, size: int)
    ensures SafePage(page) * SafeSize(size) >= 0
    ensures SafePage(page + 1) * SafeSize(size) >= SafePage(page) * SafeSize(size) + (if page >= 0 then SafeSize(size) else 0)
  {
  }

  /**
   * name + " " + lastName as Java concatenates it: the first name, one space,
   * the last name, with a null part written as "null".
   */
  function FullName(u: UserData): (t: string)
    ensures var first := Text.ValueOf(u.name);
      && |t| == |first| + 1 + |Text.ValueOf(u.lastName)|
      && t[..|first|] == first && t[|first|] == ' ' && t[|first| + 1..] == Text.ValueOf(u.lastName)
    ensures u.name.None? ==> t[..4] == "null"
  {
    Text.ValueOf(u.name) + " " + Text.ValueOf(u.lastName)
  }

  /** b is a with at most the applicant name and the base salary replaced. */
  predicate SameButApplicant(a: LoanSummary, b: LoanSummary)
  {
    b == a.(applicantName := b.applicantName, baseSalary := b.baseSalary)
  }

  /** Fills one row from the found user, or clears name and salary when there is none. */
  function Enrich(s: LoanSummary, found: Option<UserData>): (e: LoanSummary)
    ensures SameButApplicant(s, e)
    ensures found.Some? ==> e.applicantName == Some(FullName(found.value)) && e.baseSalary == found.value.salary
    ensures found.None? ==> e.applicantName.None? && e.baseSalary.None?
  {
    match found
    case Some(u) => s.(applicantName := Some(FullName(u)), baseSalary := u.salary)
    case None => s.(applicantName := None, baseSalary := None)
  }

  function AsOption(o: Outcome<UserData>): Option<UserData>
  {
    if o.Value? then Some(o.value) else None
  }

  /**
   * Looks up every row's applicant in row order. A user that is not found
   * leaves name and salary null; a failing lookup fails the whole page.
   */
  function EnrichAll(rows: seq<LoanSummary>, lookup: string -> Outcome<UserData>): (r: Outcome<seq<LoanSummary>>)
    ensures !r.Empty?
    ensures r.Value? <==> forall i :: 0 <= i < |rows| ==> !lookup(rows[i].applicantEmail).Error?
    ensures r.Value? ==> |r.value| == |rows|
    ensures r.Value? ==> forall i :: 0 <= i < |rows| ==>
              r.value[i] == Enrich(rows[i], AsOption(lookup(rows[i].applicantEmail)))
    ensures r.Error? ==> exists i :: 0 <= i < |rows| && lookup(rows[i].applicantEmail) == Error(r.failure)
  {
    if rows == [] then Value([])
    else
      var head := lookup(rows[0].applicantEmail);
      if head.Error? then Error(head.failure)
      else
        match EnrichAll(rows[1..], lookup)
        case Value(rest) => Value([Enrich(rows[0], AsOption(head))] + rest)
        case Error(e) => Error(e)
        case Empty => assert false; Empty
  }

  /** The count's Mono defaults to 0 when it completes empty. */
  function TotalOrZero(count: Outcome<nat>): (n: nat)
    requires !count.Error?
    ensures count.Value? ==> n == count.value
    ensures count.Empty? ==> n == 0
  {
    if count.Value? then count.value else 0
  }

  /** Builds the page from the listing rows and the count result. */
  function AssemblePage(rows: seq<LoanSummary>, count: Outcome<nat>, q: QueryParams,
                        lookup: string -> Outcome<UserData>): (r: Outcome<Pageable<LoanSummary>>)
    requires !count.Error?
    ensures !r.Empty?
    ensures r.Value? ==>
      && r.value.totalElements == TotalOrZero(count)
      && r.value.page == q.page && r.value.size == q.size && |r.value.content| == |rows|
  {
    match EnrichAll(rows, lookup)
    case Value(content) => Value(Pageable(content, TotalOrZero(count), q.page, q.size))
    case Error(e) => Error(e)
    case Empty => assert false; Empty
  }

  /** findForManualReview: normalise, run both queries on the same table, enrich. */
  function FindForManualReview(f: ManualReviewFilter, page: int, size: int, isUuid: string -> bool, canon: string -> string,
                               table: seq<JoinedRow>, lookup: string -> Outcome<UserData>): (r: Outcome<Pageable<LoanSummary>>)
    ensures !r.Empty?
  {
    match Normalize(f, page, size, isUuid, canon)
    case Err(e) => Error(e)
    case Ok(q) =>
      var rows := ReviewQuery.FindForManualReview(q.criteria, table, q.offset, q.limit);
      var count := CountForManualReview(q.criteria, table);
      AssemblePage(rows, Value(count), q, lookup)
  }

  /**
   * The page the adapter returns: it fails only for a type id that is not a
   * UUID or a failing user lookup; otherwise it carries the safe page and
   * size, the full count, and the listing's rows with only name and salary
   * changed.
   */
  lemma ManualReviewPage(f: ManualReviewFilter, page: int, size: int, isUuid: string -> bool, canon: string -> string,
                         table: seq<JoinedRow>, lookup: string -> Outcome<UserData>)
    requires NormalizeTypeId(f.typeLoanId, isUuid, canon).Ok?
    ensures var q := Normalize(f, page, size, isUuid, canon).value;
            var rows := ReviewQuery.FindForManualReview(q.criteria, table, q.offset, q.limit);
            var r := FindForManualReview(f, page, size, isUuid, canon, table, lookup);
      && (r.Value? <==> forall i :: 0 <= i < |rows| ==> !lookup(rows[i].applicantEmail).Error?)
      && (r.Value? ==>
            && r.value.page == SafePage(page) && r.value.size == SafeSize(size)
            && r.value.totalElements == CountForManualReview(q.criteria, table)
            && |r.value.content| == Min(SafeSize(size), Max(0, r.value.totalElements - SafePage(page) * SafeSize(size)))
            && (forall i :: 0 <= i < |rows| ==> SameButApplicant(rows[i], r.value.content[i])))
  {
    var q := Normalize(f, page, size, isUuid, canon).value;
    ListingAgreesWithCount(q.criteria, table, q.offset, q.limit);
  }

  /** Whatever the inputs, a page holds at most `size` rows and counts at most the whole table. */
  lemma PageShape(f: ManualReviewFilter, page: int, size: int, isUuid: string -> bool, canon: string -> string,
                  table: seq<JoinedRow>, lookup: string -> Outcome<UserData>)
    ensures var r := FindForManualReview(f, page, size, isUuid, canon, table, lookup);
      r.Value? ==>
        && r.value.page == SafePage(page) && r.value.size == SafeSize(size)
        && |r.value.content| <= r.value.size
        && r.value.totalElements <= |table|
  {
    if NormalizeTypeId(f.typeLoanId, isUuid, canon).Ok? {
      ManualReviewPage(f, page, size, isUuid, canon, table, lookup);
    }
  }

  /** A type id that is not a UUID fails the call before any query. */
  lemma BadTypeIdFails(f: ManualReviewFilter, page: int, size: int, isUuid: string -> bool, canon: string -> string,
                       table: seq<JoinedRow>, lookup: string -> Outcome<UserData>)
    requires f.typeLoanId.Some? && !Text.IsBlank(f.typeLoanId.value) && !isUuid(f.typeLoanId.value)
    ensures FindForManualReview(f, page, size, isUuid, canon, table, lookup) == Error(IllegalArgument(f.typeLoanId.value))
  {
  }
}
