/**
 * The three SQL queries behind the manual-review listing and the
 * approved-loan lookup, as functions over the joined table
 * loan JOIN loan_type JOIN loan_state. Each joined row carries what the
 * queries read; the amortised monthly payment of a loan and the monthly
 * rate are inputs (their numeric formulas are not modelled).
 */
module ReviewQuery {
  import opened Outcomes
  import opened Decimal
  import Text
  import opened Entities

  /** One loan joined with its type and its state. */
  datatype JoinedRow = JoinedRow(
    id: string,
    amount: Dec,
    termMonths: int,
    email: string,
    typeLoanId: string,
    typeName: string,
    annualInterestPercent: Dec,
    interestRateMonthly: Dec,
    stateLoanId: string,
    stateName: string,
    createdAt: int,
    monthlyPaymentCents: int)

  /** The bound parameters of the listing and count queries; None is SQL NULL. */
  datatype Criteria = Criteria(
    statuses: set<string>,
    search: Option<string>,
    typeId: Option<string>,
    minAmount: Option<Dec>,
    maxAmount: Option<Dec>)

  /**
   * The WHERE clause shared by the listing and the count. A row must have one
   * of the statuses; each other parameter filters only when it is not NULL.
   */
  predicate Qualifies(c: Criteria, r: JoinedRow): (b: bool)
    ensures b ==> r.stateName in c.statuses
    ensures c.search.None? && c.typeId.None? && c.minAmount.None? && c.maxAmount.None? ==>
              (b <==> r.stateName in c.statuses)
  {
    && r.stateName in c.statuses
    && (c.search.None? || Text.ContainsIgnoringCase(r.email, c.search.value))
    && (c.typeId.None? || r.typeLoanId == c.typeId.value)
    && (c.minAmount.None? || Compare(r.amount, c.minAmount.value) >= 0)
    && (c.maxAmount.None? || Compare(r.amount, c.maxAmount.value) <= 0)
  }

  /** The rows satisfying `p`, in table order. */
  function Filter(s: seq<JoinedRow>, p: JoinedRow -> bool): (r: seq<JoinedRow>)
    ensures |r| <= |s|
    ensures forall x :: x in r <==> x in s && p(x)
    ensures multiset(r) <= multiset(s)
  {
    if s == [] then []
    else
      var rest := Filter(s[1..], p);
      assert s == [s[0]] + s[1..];
      if p(s[0]) then [s[0]] + rest else rest
  }

  /** COUNT(1) over the rows satisfying `p`, counted independently of Filter. */
  function CountWhere(s: seq<JoinedRow>, p: JoinedRow -> bool): (n: nat)
    ensures n <= |s|
  {
    if s == [] then 0 else (if p(s[0]) then 1 else 0) + CountWhere(s[1..], p)
  }

  /** The count and the filtered list see the same rows. */
  lemma {:induction false} CountIsFilterLength(s: seq<JoinedRow>, p: JoinedRow -> bool)
    ensures CountWhere(s, p) == |Filter(s, p)|
  {
    if s != [] {
      CountIsFilterLength(s[1..], p);
    }
  }

  /** ORDER BY created_at DESC. */
  predicate NewestFirst(s: seq<JoinedRow>)
  {
    forall i, j :: 0 <= i < j < |s| ==> s[i].createdAt >= s[j].createdAt
  }

  /** Places `x` into a newest-first list after every row at least as new. */
  function Insert(x: JoinedRow, s: seq<JoinedRow>): (r: seq<JoinedRow>)
    requires NewestFirst(s)
    ensures NewestFirst(r)
    ensures multiset(r) == multiset(s) + multiset{x}
    ensures |r| == |s| + 1
    ensures r[0] == x || (s != [] && r[0] == s[0])
  {
    if s == [] then [x]
    else if s[0].createdAt >= x.createdAt then
      NewestFirstTail(s);
      var rest := Insert(x, s[1..]);
      assert s == [s[0]] + s[1..];
      NewestFirstCons(s[0], rest);
      [s[0]] + rest
    else
      NewestFirstCons(x, s);
      [x] + s
  }

  lemma NewestFirstTail(s: seq<JoinedRow>)
    requires s != [] && NewestFirst(s)
    ensures NewestFirst(s[1..])
  {
    forall i, j | 0 <= i < j < |s| - 1
      ensures s[1..][i].createdAt >= s[1..][j].createdAt
    {
      assert s[1..][i] == s[i + 1] && s[1..][j] == s[j + 1];
    }
  }

  /** A row no older than the head of a newest-first list may go in front of it. */
  lemma NewestFirstCons(h: JoinedRow, t: seq<JoinedRow>)
    requires NewestFirst(t) && (t != [] ==> h.createdAt >= t[0].createdAt)
    ensures NewestFirst([h] + t)
  {
    var r := [h] + t;
    forall i, j | 0 <= i < j < |r|
      ensures r[i].createdAt >= r[j].createdAt
    {
      assert r[j] == t[j - 1];
      if i > 0 {
        assert r[i] == t[i - 1];
      } else if j > 1 {
        assert t[0].createdAt >= t[j - 1].createdAt;
      }
    }
  }

  /** The rows newest first: a sorted permutation of its input. */
  function SortNewestFirst(s: seq<JoinedRow>): (r: seq<JoinedRow>)
    ensures NewestFirst(r)
    ensures multiset(r) == multiset(s)
    ensures forall x :: x in r <==> x in s
  {
    if s == [] then []
    else
      assert s == [s[0]] + s[1..];
      var r := Insert(s[0], SortNewestFirst(s[1..]));
      SameMembers(r, s);
      r
  }

  /** Sequences with the same multiset have the same members. */
  lemma SameMembers(a: seq<JoinedRow>, b: seq<JoinedRow>)
    requires multiset(a) == multiset(b)
    ensures forall x :: x in a <==> x in b
  {
    forall x
      ensures x in a <==> x in b
    {
      assert x in a <==> x in multiset(a);
      assert x in b <==> x in multiset(b);
    }
  }

  /** OFFSET offset LIMIT limit. */
  function Window<T>(s: seq<T>, offset: nat, limit: nat): (r: seq<T>)
    ensures |r| == Min(limit, Max(0, |s| - offset))
    ensures forall i :: 0 <= i < |r| ==> r[i] == s[offset + i]
  {
    if offset >= |s| then []
    else if offset + limit >= |s| then s[offset..]
    else s[offset..offset + limit]
  }

  function SumPaymentCents(s: seq<JoinedRow>): int
  {
    if s == [] then 0 else s[0].monthlyPaymentCents + SumPaymentCents(s[1..])
  }

  /** The applicant's loans in the APPROVED state, over the whole table. */
  function ApprovedOf(table: seq<JoinedRow>, email: string): (r: seq<JoinedRow>)
    ensures forall x :: x in r <==> x in table && x.email == email && x.stateName == "APPROVED"
  {
    Filter(table, (x: JoinedRow) => x.email == email && x.stateName == "APPROVED")
  }

  /**
   * COALESCE((SELECT SUM(ROUND(payment, 2)) ...), 0): the sum at scale 2, or
   * the integer 0 when the applicant has no approved loan. The subquery is
   * not restricted to other loans, so an approved loan counts its own payment.
   */
  function MonthlyApprovedDebt(table: seq<JoinedRow>, email: string): (d: Dec)
    ensures ApprovedOf(table, email) == [] ==> d == Zero
    ensures ApprovedOf(table, email) != [] ==> d.scale == 2
  {
    var approved := ApprovedOf(table, email);
    if approved == [] then Zero else Dec(SumPaymentCents(approved), 2)
  }

  /** An applicant without approved loans carries a debt of zero. */
  lemma NoApprovedLoansNoDebt(table: seq<JoinedRow>, email: string)
    requires forall x :: x in table && x.email == email ==> x.stateName != "APPROVED"
    ensures Compare(MonthlyApprovedDebt(table, email), Zero) == 0
  {
    var approved := ApprovedOf(table, email);
    if approved != [] {
      assert approved[0] in approved;
    }
  }

  /** The selected columns of one row; applicant_name and base_salary are NULL. */
  function ToSummary(r: JoinedRow, table: seq<JoinedRow>): (s: LoanSummary)
    ensures s.applicantName.None? && s.baseSalary.None?
    ensures s.id == r.id && s.amount == r.amount && s.applicantEmail == r.email
    ensures s.status == r.stateName && s.typeLoanName == r.typeName
  {
    LoanSummary(r.id, r.amount, r.termMonths, r.email, None, r.typeName,
                r.interestRateMonthly, r.stateName, None, MonthlyApprovedDebt(table, r.email))
  }

  /** The qualifying rows, newest first, before OFFSET/LIMIT. */
  function OrderedMatches(c: Criteria, table: seq<JoinedRow>): (r: seq<JoinedRow>)
    ensures NewestFirst(r)
    ensures forall x :: x in r <==> x in table && Qualifies(c, x)
  {
    SortNewestFirst(Filter(table, (x: JoinedRow) => Qualifies(c, x)))
  }

  /** The listing query: at most `limit` rows, with applicant name and salary left NULL. */
  function FindForManualReview(c: Criteria, table: seq<JoinedRow>, offset: nat, limit: nat): (page: seq<LoanSummary>)
    ensures |page| <= limit
    ensures forall i :: 0 <= i < |page| ==> page[i].applicantName.None? && page[i].baseSalary.None?
  {
    var w := Window(OrderedMatches(c, table), offset, limit);
    seq(|w|, i requires 0 <= i < |w| => ToSummary(w[i], table))
  }

  /** The count query: at most the table's size, and zero exactly when no row qualifies. */
  function CountForManualReview(c: Criteria, table: seq<JoinedRow>): (n: nat)
    ensures n <= |table|
    ensures n == 0 <==> forall x :: x in table ==> !Qualifies(c, x)
  {
    var p := (x: JoinedRow) => Qualifies(c, x);
    CountIsFilterLength(table, p);
    var matching := Filter(table, p);
    assert matching != [] ==> matching[0] in matching;
    CountWhere(table, p)
  }

  /**
   * On one snapshot the listing returns the (offset+i)-th qualifying row,
   * newest first, as its i-th row, holds min(limit, max(0, count - offset))
   * rows, and every row it returns qualifies.
   */
  lemma ListingAgreesWithCount(c: Criteria, table: seq<JoinedRow>, offset: nat, limit: nat)
    ensures var page := FindForManualReview(c, table, offset, limit);
            var ordered := OrderedMatches(c, table);
      && |page| == Min(limit, Max(0, CountForManualReview(c, table) - offset))
      && (forall i :: 0 <= i < |page| ==> page[i] == ToSummary(ordered[offset + i], table))
      && (forall k :: offset <= k < offset + |page| ==> Qualifies(c, ordered[k]))
      && (forall i :: 0 <= i < |page| ==> page[i].applicantName.None? && page[i].baseSalary.None?)
  {
    var p := (x: JoinedRow) => Qualifies(c, x);
    CountIsFilterLength(table, p);
    var ordered := OrderedMatches(c, table);
    assert multiset(ordered) == multiset(Filter(table, p));
    assert |ordered| == |Filter(table, p)| by {
      assert |multiset(ordered)| == |multiset(Filter(table, p))|;
    }
    forall i | 0 <= i < |ordered|
      ensures Qualifies(c, ordered[i])
    {
      assert ordered[i] in ordered;
    }
  }

  /**
   * The approved-loans query: loans with this email and state, newest first,
   * with their type's name and rate; empty exactly when no loan matches.
   */
  function FindByEmailAndStateLoanId(table: seq<JoinedRow>, email: string, stateLoanId: string): (r: seq<LoanApproved>)
    ensures r == [] <==> forall x :: x in table ==> x.email != email || x.stateLoanId != stateLoanId
  {
    var rows := EmailAndStateRows(table, email, stateLoanId);
    assert rows != [] ==> rows[0] in rows;
    seq(|rows|, i requires 0 <= i < |rows| =>
      LoanApproved(rows[i].id, rows[i].amount, rows[i].termMonths, rows[i].typeName, rows[i].annualInterestPercent))
  }

  function EmailAndStateRows(table: seq<JoinedRow>, email: string, stateLoanId: string): (r: seq<JoinedRow>)
    ensures NewestFirst(r)
    ensures forall x :: x in r <==> x in table && x.email == email && x.stateLoanId == stateLoanId
  {
    SortNewestFirst(Filter(table, (x: JoinedRow) => x.email == email && x.stateLoanId == stateLoanId))
  }

  /** The lookup returns one entry per matching loan, each taken from a loan with that email and state, newest first. */
  lemma ApprovedLookupExact(table: seq<JoinedRow>, email: string, stateLoanId: string)
    ensures var out := FindByEmailAndStateLoanId(table, email, stateLoanId);
            var rows := EmailAndStateRows(table, email, stateLoanId);
      && |out| == |rows| == CountWhere(table, (x: JoinedRow) => x.email == email && x.stateLoanId == stateLoanId)
      && (forall i :: 0 <= i < |out| ==>
            && rows[i] in table && rows[i].email == email && rows[i].stateLoanId == stateLoanId
            && out[i].id == rows[i].id && out[i].amount == rows[i].amount)
      && (forall i, j :: 0 <= i < j < |out| ==> rows[i].createdAt >= rows[j].createdAt)
  {
    var p := (x: JoinedRow) => x.email == email && x.stateLoanId == stateLoanId;
    CountIsFilterLength(table, p);
    var rows := EmailAndStateRows(table, email, stateLoanId);
    assert |multiset(rows)| == |multiset(Filter(table, p))|;
    forall i | 0 <= i < |rows|
      ensures rows[i] in table && rows[i].email == email && rows[i].stateLoanId == stateLoanId
    {
      assert rows[i] in rows;
    }
  }
}
