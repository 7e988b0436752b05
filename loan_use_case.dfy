/**
 * The loan orchestration. The repositories are in-memory stores held by
 * the class: loan types by id, loan states in insertion order (looked up
 * by id or by name), loans in creation order, and the log of debt-capacity
 * messages sent. The identity service, the UUID syntax check, the id
 * generator and the monthly-payment formula are fixed functions given at
 * construction. Each public operation runs in a read/write transaction,
 * modelled as snapshot/restore: when it ends in an error, the loans and the
 * message log are what they were before the call.
 */
module UseCase {
  import opened Outcomes
  import opened Decimal
  import opened Values
  import opened Entities
  import ReviewQuery
  import ReviewAdapter

  const DefaultPendingStateName: string := "PENDING_REVIEW"
  const DefaultApprovedStateName: string := "APPROVED"

  /**
   * The NullPointerException create ends in when its pipeline completes
   * empty: doOnSuccess passes null to the log statement, which reads the
   * saved loan's id.
   */
  const EmptyCreateFailure: Failure := NullValue("saved is null")

  /** The first state whose id (or, with byName, whose name) equals key. */
  function FindState(ss: seq<StateLoan>, byName: bool, key: string): (r: Option<StateLoan>)
    ensures r.Some? ==> r.value in ss && (if byName then r.value.name else r.value.id) == key
    ensures r.None? ==> forall s :: s in ss ==> (if byName then s.name else s.id) != key
  {
    if ss == [] then None
    else if (if byName then ss[0].name else ss[0].id) == key then Some(ss[0])
    else FindState(ss[1..], byName, key)
  }

  /** Position of the loan stored under `id`, or |ls| when there is none. */
  function FindLoan(ls: seq<Loan>, id: string): (k: nat)
    ensures k <= |ls|
    ensures k < |ls| ==> ls[k].id == Some(id)
    ensures forall m :: 0 <= m < k ==> ls[m].id != Some(id)
  {
    if ls == [] then 0
    else if ls[0].id == Some(id) then 0
    else 1 + FindLoan(ls[1..], id)
  }

  /**
   * validateAmountInRange: the amount must lie between the type's minimum and
   * maximum, both inclusive; otherwise AMOUNT_OUT_OF_RANGE.
   */
  function ValidateAmountInRange(loan: Loan, t: TypeLoan): (r: Option<Failure>)
    ensures r.None? <==> t.minimumAmount.cents <= loan.amount.cents <= t.maximumAmount.cents
    ensures r.Some? ==> r.value == Validation("AMOUNT_OUT_OF_RANGE")
  {
    if loan.amount.cents < t.minimumAmount.cents || loan.amount.cents > t.maximumAmount.cents then
      Some(Validation("AMOUNT_OUT_OF_RANGE"))
    else None
  }

  /**
   * The range check is BigDecimal.compareTo on the amounts: Money always
   * has scale 2, so comparing cents is comparing values.
   */
  lemma RangeCheckIsCompareTo(loan: Loan, t: TypeLoan)
    ensures ValidateAmountInRange(loan, t).Some? <==>
              Compare(loan.amount.Value(), t.minimumAmount.Value()) < 0
              || Compare(loan.amount.Value(), t.maximumAmount.Value()) > 0
  {
    CompareSameScale(loan.amount.Value(), t.minimumAmount.Value());
    CompareSameScale(loan.amount.Value(), t.maximumAmount.Value());
  }

  /** The copy of a request that create saves: no id, the pending state, everything else kept. */
  function Placed(loan: Loan, pending: StateLoan): (p: Loan)
    ensures p.id.None? && p.stateLoanId == Some(pending.id)
    ensures p.amount == loan.amount && p.termMonths == loan.termMonths
    ensures p.email == loan.email && p.typeLoanId == loan.typeLoanId
  {
    loan.(id := None, stateLoanId := Some(pending.id))
  }

  class LoanUseCase {
    var types: map<string, TypeLoan>
    var states: seq<StateLoan>
    /** The loan table in creation order; position i is the i-th loan created. */
    var loans: seq<Loan>
    /** Every DebtCapacity message sent, oldest first. */
    var debtCapacitySent: seq<DebtCapacity>

    /** Id the store assigns to the n-th loan it inserts. */
    const idFor: nat -> string
    /** UUID.fromString succeeds. */
    const parsesAsUuid: string -> bool
    /**
     * The canonical text of the UUID a string parses to (lower-case hex,
     * 8-4-4-4-12): two ids name the same row iff their canonical texts agree.
     */
    const canon: string -> string
    /** The identity service's findByEmail. */
    const directory: string -> Outcome<UserData>
    /** annual_interest_percent / 12.0 / 100.0 as the listing computes it. */
    const monthlyRate: Dec -> Dec
    /** ROUND(amortised monthly payment, 2) of a loan of this type, in cents. */
    const paymentCents: (Loan, TypeLoan) -> int

    /** The store invariant: assigned ids, referential integrity and well-formed keys. */
    ghost predicate Valid()
      reads this
    {
      && (forall a: nat, b: nat :: idFor(a) == idFor(b) ==> a == b)
      && (forall n: nat :: parsesAsUuid(idFor(n)) && canon(idFor(n)) == idFor(n))
      && (forall k :: k in types ==> types[k].id == k && parsesAsUuid(k) && canon(k) == k)
      && (forall i :: 0 <= i < |states| ==> parsesAsUuid(states[i].id) && canon(states[i].id) == states[i].id)
      && (forall i, j :: 0 <= i < j < |states| ==> states[i].id != states[j].id)
      && (forall i :: 0 <= i < |loans| ==>
            && loans[i].id == Some(idFor(i))
            && loans[i].typeLoanId in types
            && loans[i].stateLoanId.Some?
            && FindState(states, false, loans[i].stateLoanId.value).Some?)
    }

    constructor (types: map<string, TypeLoan>, states: seq<StateLoan>,
                 idFor: nat -> string, parsesAsUuid: string -> bool, canon: string -> string,
                 directory: string -> Outcome<UserData>,
                 monthlyRate: Dec -> Dec, paymentCents: (Loan, TypeLoan) -> int)
      requires forall a: nat, b: nat :: idFor(a) == idFor(b) ==> a == b
      requires forall n: nat :: parsesAsUuid(idFor(n)) && canon(idFor(n)) == idFor(n)
      requires forall k :: k in types ==> types[k].id == k && parsesAsUuid(k) && canon(k) == k
      requires forall i :: 0 <= i < |states| ==> parsesAsUuid(states[i].id) && canon(states[i].id) == states[i].id
      requires forall i, j :: 0 <= i < j < |states| ==> states[i].id != states[j].id
      ensures Valid()
      ensures this.types == types && this.states == states
      ensures loans == [] && debtCapacitySent == []
    {
      this.types := types;
      this.states := states;
      this.loans := [];
      this.debtCapacitySent := [];
      this.idFor := idFor;
      this.parsesAsUuid := parsesAsUuid;
      this.canon := canon;
      this.directory := directory;
      this.monthlyRate := monthlyRate;
      this.paymentCents := paymentCents;
    }

    function StateById(id: string): (r: Option<StateLoan>)
      reads this
      ensures r.Some? ==> r.value in states && r.value.id == id
      ensures r.None? ==> forall s :: s in states ==> s.id != id
    {
      FindState(states, false, id)
    }

    function StateByName(name: string): (r: Option<StateLoan>)
      reads this
      ensures r.Some? ==> r.value in states && r.value.name == name
      ensures r.None? ==> forall s :: s in states ==> s.name != name
    {
      FindState(states, true, name)
    }

    /** With distinct ids, a stored state is found by its own id. */
    lemma StateFoundById(s: StateLoan)
      requires Valid() && s in states
      ensures StateById(s.id) == Some(s)
    {
      var r := StateById(s.id);
      var i :| 0 <= i < |states| && states[i] == s;
      var j :| 0 <= j < |states| && states[j] == r.value;
      assert i == j;
    }

    /** The joined loan/type/state row of the i-th loan, created at time i. */
    function RowOf(i: nat): (row: ReviewQuery.JoinedRow)
      requires Valid() && i < |loans|
      reads this
      ensures row.createdAt == i && row.id == idFor(i) && row.email == loans[i].email.value
      ensures row.stateLoanId == loans[i].stateLoanId.value && row.typeLoanId == loans[i].typeLoanId
    {
      var l := loans[i];
      var t := types[l.typeLoanId];
      var s := StateById(l.stateLoanId.value).value;
      ReviewQuery.JoinedRow(l.id.value, l.amount.Value(), l.termMonths.value, l.email.value, l.typeLoanId,
                            t.name, t.annualInterestRate.annualPercent, monthlyRate(t.annualInterestRate.annualPercent),
                            s.id, s.name, i, paymentCents(l, t))
    }

    /** The joined rows of the first n loans. */
    function Rows(n: nat): (rows: seq<ReviewQuery.JoinedRow>)
      requires Valid() && n <= |loans|
      reads this
      ensures |rows| == n
      ensures forall i :: 0 <= i < n ==> rows[i] == RowOf(i)
    {
      if n == 0 then [] else Rows(n - 1) + [RowOf(n - 1)]
    }

    /** loan JOIN loan_type JOIN loan_state: one row per stored loan. */
    function Table(): (table: seq<ReviewQuery.JoinedRow>)
      requires Valid()
      reads this
      ensures |table| == |loans|
      ensures forall i :: 0 <= i < |table| ==> table[i] == RowOf(i)
    {
      Rows(|loans|)
    }

    /**
     * getListLoanApproved: the applicant's loans in the APPROVED state, newest
     * first; empty (None) when there is no APPROVED state.
     */
    function ApprovedLoans(email: string): (r: Option<seq<LoanApproved>>)
      requires Valid()
      reads this
      ensures r.None? <==> StateByName(DefaultApprovedStateName).None?
    {
      match StateByName(DefaultApprovedStateName)
      case None => None
      case Some(approved) => Some(ReviewQuery.FindByEmailAndStateLoanId(Table(), email, approved.id))
    }

    /**
     * The APPROVED-loans list has one entry per stored loan of that email in
     * the APPROVED state, each taken from such a loan, newest first.
     */
    lemma ApprovedLoansExact(email: string)
      requires Valid() && StateByName(DefaultApprovedStateName).Some?
      ensures var id := StateByName(DefaultApprovedStateName).value.id;
              var out := ApprovedLoans(email).value;
              var rows := ReviewQuery.EmailAndStateRows(Table(), email, id);
        && |out| == |rows| == ReviewQuery.CountWhere(Table(), (x: ReviewQuery.JoinedRow) => x.email == email && x.stateLoanId == id)
        && (forall i :: 0 <= i < |out| ==>
              && rows[i] in Table() && rows[i].email == email && rows[i].stateLoanId == id
              && out[i].id == rows[i].id && out[i].amount == rows[i].amount)
        && (forall i, j :: 0 <= i < j < |out| ==> rows[i].createdAt >= rows[j].createdAt)
    {
      ReviewQuery.ApprovedLookupExact(Table(), email, StateByName(DefaultApprovedStateName).value.id);
    }

    /**
     * The steps of create before anything is written: the type id must parse,
     * the type it names and the PENDING_REVIEW state must exist (type
     * first), and the amount must be in the type's range. The type is looked
     * up by the parsed UUID, so any spelling of a stored id finds it.
     */
    function CreateChecks(loan: Loan): (r: Result<(TypeLoan, StateLoan)>)
      reads this
      ensures !parsesAsUuid(loan.typeLoanId) ==> r == Err(IllegalArgument(loan.typeLoanId))
      ensures parsesAsUuid(loan.typeLoanId) && canon(loan.typeLoanId) !in types ==>
                r == Err(NotFound("TYPE_LOAN_NOT_FOUND"))
      ensures parsesAsUuid(loan.typeLoanId) && canon(loan.typeLoanId) in types && StateByName(DefaultPendingStateName).None? ==>
                r == Err(NotFound("STATE_PENDING_REVIEW_NOT_FOUND"))
      ensures parsesAsUuid(loan.typeLoanId) && canon(loan.typeLoanId) in types && StateByName(DefaultPendingStateName).Some? ==>
                r == (match ValidateAmountInRange(loan, types[canon(loan.typeLoanId)])
                      case Some(f) => Err(f)
                      case None => Ok((types[canon(loan.typeLoanId)], StateByName(DefaultPendingStateName).value)))
    {
      if !parsesAsUuid(loan.typeLoanId) then Err(IllegalArgument(loan.typeLoanId))
      else if canon(loan.typeLoanId) !in types then Err(NotFound("TYPE_LOAN_NOT_FOUND"))
      else
        match StateByName(DefaultPendingStateName)
        case None => Err(NotFound("STATE_PENDING_REVIEW_NOT_FOUND"))
        case Some(pending) =>
          var t := types[canon(loan.typeLoanId)];
          match ValidateAmountInRange(loan, t)
          case Some(f) => Err(f)
          case None => Ok((t, pending))
    }

    /** Two requests that differ only in how they spell the same type UUID pass or fail the checks alike. */
    lemma ChecksIgnoreSpelling(a: Loan, b: Loan)
      requires parsesAsUuid(a.typeLoanId) && parsesAsUuid(b.typeLoanId)
      requires canon(a.typeLoanId) == canon(b.typeLoanId) && b == a.(typeLoanId := b.typeLoanId)
      ensures CreateChecks(a) == CreateChecks(b)
    {
    }

    /**
     * loanRepository.save of a loan without id: the store assigns the next
     * id and appends the row, whose UUID columns read back in canonical form.
     */
    method Insert(loan: Loan) returns (saved: Loan)
      requires Valid()
      requires loan.id.None? && canon(loan.typeLoanId) in types
      requires loan.stateLoanId.Some? && StateById(loan.stateLoanId.value).Some?
      modifies this`loans
      ensures Valid()
      ensures saved == loan.(id := Some(idFor(|old(loans)|)), typeLoanId := canon(loan.typeLoanId))
      ensures loans == old(loans) + [saved]
    {
      saved := loan.(id := Some(idFor(|loans|)), typeLoanId := canon(loan.typeLoanId));
      loans := loans + [saved];
    }

    /** The loan create saves once its checks pass: the placed copy under the next id. */
    function NextSaved(loan: Loan, pending: StateLoan): (saved: Loan)
      reads this
      ensures saved.id == Some(idFor(|loans|))
      ensures saved.stateLoanId == Some(pending.id)
      ensures saved.amount == loan.amount && saved.termMonths == loan.termMonths
      ensures saved.email == loan.email && saved.typeLoanId == canon(loan.typeLoanId)
    {
      Placed(loan, pending).(id := Some(idFor(|loans|)), typeLoanId := canon(loan.typeLoanId))
    }

    /**
     * What create emits, given what the APPROVED-loans lookup returns
     * (`approved`, None when there is no APPROVED state) and whether the
     * DebtCapacity send fails. After the checks, a type without automatic
     * validation saves; one with it first needs the applicant (a failing
     * lookup fails) and the APPROVED loans, then saves and sends. When the
     * applicant or the APPROVED state is missing, the pipeline completes
     * empty and the closing doOnSuccess hands `null` to the log statement,
     * whose `saved.id()` throws: create fails with EmptyCreateFailure.
     */
    function CreateOutcome(loan: Loan, approved: Option<seq<LoanApproved>>, sendFailure: Option<Failure>): (r: Outcome<Loan>)
      reads this
      ensures CreateChecks(loan).Err? ==> r == Error(CreateChecks(loan).failure)
    {
      match CreateChecks(loan)
      case Err(f) => Error(f)
      case Ok((t, pending)) =>
        if !t.automaticValidation then Value(NextSaved(loan, pending))
        else
          var user := directory(loan.email.value);
          if user.Error? then Error(user.failure)
          else if user.Empty? || approved.None? then Error(EmptyCreateFailure)
          else if sendFailure.Some? then Error(sendFailure.value)
          else Value(NextSaved(loan, pending))
    }

    /**
     * The DebtCapacity message create sends, if it sends one: only for a type
     * with automatic validation, carrying the loan as saved and the
     * APPROVED-loans list.
     */
    function CreateMessage(loan: Loan, approved: Option<seq<LoanApproved>>, sendFailure: Option<Failure>): (m: Option<DebtCapacity>)
      reads this
      ensures m.Some? ==> CreateChecks(loan).Ok? && CreateChecks(loan).value.0.automaticValidation
      ensures m.Some? ==> approved.Some? && m.value.loanApprovedList == approved.value
                          && m.value.loan == NextSaved(loan, CreateChecks(loan).value.1)
    {
      var r := CreateOutcome(loan, approved, sendFailure);
      if r.Value? && CreateChecks(loan).value.0.automaticValidation then
        Some(DebtCapacity(r.value, approved.value, directory(loan.email.value).value))
      else None
    }

    /**
     * create succeeds exactly when the checks pass and, for a type with
     * automatic validation, the applicant is found, the APPROVED loans are
     * there and the message is sent; it then emits the next saved loan. It
     * never completes empty: every other case is an error, namely the failed
     * check, the applicant lookup's failure, the null dereference when no
     * applicant or no APPROVED state is found, or the send's failure.
     */
    lemma CreateOutcomeCases(loan: Loan, approved: Option<seq<LoanApproved>>, sendFailure: Option<Failure>)
      ensures var r := CreateOutcome(loan, approved, sendFailure);
        && (r.Value? ==> CreateChecks(loan).Ok? && r.value == NextSaved(loan, CreateChecks(loan).value.1))
        && (r.Value? <==>
              && CreateChecks(loan).Ok?
              && (CreateChecks(loan).value.0.automaticValidation ==>
                    && directory(loan.email.value).Value?
                    && approved.Some?
                    && sendFailure.None?))
        && !r.Empty?
        && (CreateChecks(loan).Ok? && CreateChecks(loan).value.0.automaticValidation ==>
              && (directory(loan.email.value).Error? ==> r == Error(directory(loan.email.value).failure))
              && (directory(loan.email.value).Empty? ==> r == Error(EmptyCreateFailure))
              && (directory(loan.email.value).Value? && approved.None? ==> r == Error(EmptyCreateFailure))
              && (directory(loan.email.value).Value? && approved.Some? && sendFailure.Some? ==>
                    r == Error(sendFailure.value)))
    {
    }

    /**
     * Exactly one DebtCapacity message goes out when an automatically
     * validated loan is saved, carrying the saved loan, the applicant's
     * APPROVED loans and the applicant; none goes out otherwise.
     */
    lemma CreateMessageCases(loan: Loan, approved: Option<seq<LoanApproved>>, sendFailure: Option<Failure>)
      ensures var m := CreateMessage(loan, approved, sendFailure);
        && (m.Some? <==> CreateOutcome(loan, approved, sendFailure).Value? && CreateChecks(loan).value.0.automaticValidation)
        && (m.Some? ==>
              m.value == DebtCapacity(CreateOutcome(loan, approved, sendFailure).value,
                                      approved.value, directory(loan.email.value).value))
    {
    }

    /** A request whose amount is outside its type's range is refused and nothing is saved or sent. */
    lemma OutOfRangeRefused(loan: Loan, approved: Option<seq<LoanApproved>>, sendFailure: Option<Failure>)
      requires parsesAsUuid(loan.typeLoanId) && canon(loan.typeLoanId) in types
      requires StateByName(DefaultPendingStateName).Some?
      requires var t := types[canon(loan.typeLoanId)]; !(t.minimumAmount.cents <= loan.amount.cents <= t.maximumAmount.cents)
      ensures CreateOutcome(loan, approved, sendFailure) == Error(Validation("AMOUNT_OUT_OF_RANGE"))
      ensures CreateMessage(loan, approved, sendFailure).None?
    {
    }

    /** A missing reference is reported ahead of an out-of-range amount: type first, then the pending state. */
    lemma MissingReferenceFirst(loan: Loan, approved: Option<seq<LoanApproved>>, sendFailure: Option<Failure>)
      requires parsesAsUuid(loan.typeLoanId)
      ensures canon(loan.typeLoanId) !in types ==>
                CreateOutcome(loan, approved, sendFailure) == Error(NotFound("TYPE_LOAN_NOT_FOUND"))
      ensures canon(loan.typeLoanId) in types && StateByName(DefaultPendingStateName).None? ==>
                CreateOutcome(loan, approved, sendFailure) == Error(NotFound("STATE_PENDING_REVIEW_NOT_FOUND"))
    {
    }

    /**
     * create. The loan is saved exactly when the call emits it; the
     * DebtCapacity message is sent exactly in the automatic-validation case.
     * A send that fails undoes the save, as the enclosing transaction does.
     */
    method Create(loan: Loan, sendFailure: Option<Failure>) returns (r: Outcome<Loan>)
      requires Valid()
      modifies this`loans, this`debtCapacitySent
      ensures Valid()
      ensures r == old(CreateOutcome(loan, ApprovedLoans(loan.email.value), sendFailure))
      ensures loans == old(loans) + (if r.Value? then [r.value] else [])
      ensures var m := old(CreateMessage(loan, ApprovedLoans(loan.email.value), sendFailure));
        debtCapacitySent == old(debtCapacitySent) + (if m.Some? then [m.value] else [])
    {
      var checks := CreateChecks(loan);
      if checks.Err? {
        r := Error(checks.failure);
        return;
      }
      var (t, pending) := checks.value;
      if t.automaticValidation {
        r := CreateAutomatic(loan, t, pending, ApprovedLoans(loan.email.value), sendFailure);
        return;
      }
      StateFoundById(pending);
      var saved := Insert(Placed(loan, pending));
      r := Value(saved);
    }

    /**
     * The automatic-validation branch of create, given what the
     * APPROVED-loans lookup returns: the applicant and that list are needed
     * first, then the loan is saved and the DebtCapacity message sent; a
     * failed send undoes the save.
     */
    method CreateAutomatic(loan: Loan, t: TypeLoan, pending: StateLoan, approved: Option<seq<LoanApproved>>,
                           sendFailure: Option<Failure>)
      returns (r: Outcome<Loan>)
      requires Valid() && CreateChecks(loan) == Ok((t, pending)) && t.automaticValidation
      modifies this`loans, this`debtCapacitySent
      ensures Valid()
      ensures r == old(CreateOutcome(loan, approved, sendFailure))
      ensures loans == old(loans) + (if r.Value? then [r.value] else [])
      ensures var m := old(CreateMessage(loan, approved, sendFailure));
        debtCapacitySent == old(debtCapacitySent) + (if m.Some? then [m.value] else [])
    {
      var user := directory(loan.email.value);
      if user.Error? || user.Empty? || approved.None? {
        r := if user.Error? then Error(user.failure) else Error(EmptyCreateFailure);
        return;
      }
      StateFoundById(pending);
      var snapshot := loans;
      var saved := Insert(Placed(loan, pending));
      if sendFailure.Some? {
        loans := snapshot;
        r := Error(sendFailure.value);
        return;
      }
      debtCapacitySent := debtCapacitySent + [DebtCapacity(saved, approved.value, user.value)];
      r := Value(saved);
    }

    /** The state a status change targets: by the parsed id when the string is a UUID, by name otherwise. */
    function TargetState(newStateId: string): (r: Option<StateLoan>)
      reads this
      ensures r.Some? ==> r.value in states
      ensures parsesAsUuid(newStateId) ==> r == StateById(canon(newStateId))
      ensures !parsesAsUuid(newStateId) ==> r == StateByName(newStateId)
    {
      if parsesAsUuid(newStateId) then StateById(canon(newStateId)) else StateByName(newStateId)
    }

    /** The loan a status change saves, if it gets that far: the stored loan with only its state replaced. */
    function StatusChangeSave(cmd: ChangeLoanStatus): (u: Option<(nat, Loan)>)
      reads this
      ensures u.Some? <==> parsesAsUuid(cmd.loanId) && FindLoan(loans, canon(cmd.loanId)) < |loans|
                            && TargetState(cmd.newStateId).Some?
      ensures u.Some? ==>
                && u.value.0 == FindLoan(loans, canon(cmd.loanId))
                && u.value.1 == loans[u.value.0].(stateLoanId := Some(TargetState(cmd.newStateId).value.id))
    {
      if !parsesAsUuid(cmd.loanId) then None
      else
        var i := FindLoan(loans, canon(cmd.loanId));
        if i == |loans| then None
        else
          match TargetState(cmd.newStateId)
          case None => None
          case Some(s) => Some((i, loans[i].(stateLoanId := Some(s.id))))
    }

    /**
     * What changeLoanStatus emits: IllegalArgument for a loan id that is not
     * a UUID, LOAN_NOT_FOUND, STATE_LOAN_NOT_FOUND, then after the save the
     * event with the saved loan, the state's and the type's names, the
     * reason and the applicant; empty when the applicant is not found, and
     * the applicant lookup's failure when it fails. The state and type
     * lookups after the save always succeed here (PostSaveLookupsFind).
     */
    function StatusChangeOutcome(cmd: ChangeLoanStatus): (r: Outcome<LoanStatusChanged>)
      requires Valid()
      reads this
      ensures !parsesAsUuid(cmd.loanId) ==> r == Error(IllegalArgument(cmd.loanId))
      ensures parsesAsUuid(cmd.loanId) && FindLoan(loans, canon(cmd.loanId)) == |loans| ==> r == Error(NotFound("LOAN_NOT_FOUND"))
      ensures parsesAsUuid(cmd.loanId) && FindLoan(loans, canon(cmd.loanId)) < |loans| && TargetState(cmd.newStateId).None? ==>
                r == Error(NotFound("STATE_LOAN_NOT_FOUND"))
      ensures r.Value? ==>
                && StatusChangeSave(cmd).Some?
                && r.value.loan == StatusChangeSave(cmd).value.1
                && r.value.stateName == TargetState(cmd.newStateId).value.name
                && r.value.typeName == types[r.value.loan.typeLoanId].name
                && r.value.reason == cmd.reason
                && Value(r.value.userData) == directory(r.value.loan.email.value)
      ensures r.Empty? <==> StatusChangeSave(cmd).Some? && directory(StatusChangeSave(cmd).value.1.email.value).Empty?
      ensures StatusChangeSave(cmd).Some? && directory(StatusChangeSave(cmd).value.1.email.value).Value? ==> r.Value?
      ensures StatusChangeSave(cmd).Some? && directory(StatusChangeSave(cmd).value.1.email.value).Error? ==>
                r == Error(directory(StatusChangeSave(cmd).value.1.email.value).failure)
    {
      if !parsesAsUuid(cmd.loanId) then Error(IllegalArgument(cmd.loanId))
      else if FindLoan(loans, canon(cmd.loanId)) == |loans| then Error(NotFound("LOAN_NOT_FOUND"))
      else if TargetState(cmd.newStateId).None? then Error(NotFound("STATE_LOAN_NOT_FOUND"))
      else
        var updated := StatusChangeSave(cmd).value.1;
        var newState := TargetState(cmd.newStateId).value;
        match directory(updated.email.value)
        case Error(f) => Error(f)
        case Empty => Empty
        case Value(user) => Value(LoanStatusChanged(updated, newState.name, types[updated.typeLoanId].name, cmd.reason, user))
    }

    /** The save of a status change stays in place unless the call fails. */
    function LoansAfterStatusChange(cmd: ChangeLoanStatus): (ls: seq<Loan>)
      requires Valid()
      reads this
      ensures |ls| == |loans|
      ensures StatusChangeOutcome(cmd).Error? ==> ls == loans
      ensures !StatusChangeOutcome(cmd).Error? ==>
                var (i, updated) := StatusChangeSave(cmd).value;
                && ls[i] == updated
                && (forall k :: 0 <= k < |ls| && k != i ==> ls[k] == loans[k])
    {
      if StatusChangeOutcome(cmd).Error? then loans
      else
        var (i, updated) := StatusChangeSave(cmd).value;
        loans[i := updated]
    }

    /** A status change alters only the targeted loan's state: its id, amount, term, email and type stay. */
    lemma StatusChangeKeepsLoan(cmd: ChangeLoanStatus)
      requires Valid() && !StatusChangeOutcome(cmd).Error?
      ensures var i := FindLoan(loans, canon(cmd.loanId));
              var after := LoansAfterStatusChange(cmd)[i];
        && i < |loans|
        && after.id == loans[i].id == Some(canon(cmd.loanId))
        && after.amount == loans[i].amount && after.termMonths == loans[i].termMonths
        && after.email == loans[i].email && after.typeLoanId == loans[i].typeLoanId
        && after.stateLoanId == Some(TargetState(cmd.newStateId).value.id)
    {
    }

    /**
     * After the save, the state and the type are looked up by the saved
     * loan's ids. The store keeps every loan's state and type present, so
     * both lookups find them: the state is the targeted one.
     */
    lemma PostSaveLookupsFind(cmd: ChangeLoanStatus)
      requires Valid() && StatusChangeSave(cmd).Some?
      ensures var saved := StatusChangeSave(cmd).value.1;
        && saved.stateLoanId.Some? && StateById(saved.stateLoanId.value) == TargetState(cmd.newStateId)
        && saved.typeLoanId in types
    {
      StateFoundById(TargetState(cmd.newStateId).value);
    }

    /**
     * changeLoanStatus. The save is undone when the call fails after it (a
     * failing applicant lookup), and kept when the call completes empty.
     */
    method ChangeLoanStatus(cmd: ChangeLoanStatus) returns (r: Outcome<LoanStatusChanged>)
      requires Valid()
      modifies this`loans
      ensures Valid()
      ensures r == old(StatusChangeOutcome(cmd))
      ensures loans == old(LoansAfterStatusChange(cmd))
    {
      if !parsesAsUuid(cmd.loanId) {
        r := Error(IllegalArgument(cmd.loanId));
        return;
      }
      var i := FindLoan(loans, canon(cmd.loanId));
      if i == |loans| {
        r := Error(NotFound("LOAN_NOT_FOUND"));
        return;
      }
      var target := TargetState(cmd.newStateId);
      if target.None? {
        r := Error(NotFound("STATE_LOAN_NOT_FOUND"));
        return;
      }
      var newState := target.value;
      var snapshot := loans;
      var updated := loans[i].(stateLoanId := Some(newState.id));
      StateFoundById(newState);
      loans := loans[i := updated];
      var stateName := StateById(newState.id).value.name;
      var typeName := types[updated.typeLoanId].name;
      var user := directory(updated.email.value);
      if user.Error? {
        loans := snapshot;
        r := Error(user.failure);
      } else if user.Empty? {
        r := Empty;
      } else {
        r := Value(LoanStatusChanged(updated, stateName, typeName, cmd.reason, user.value));
      }
    }

    /**
     * getAllLoans: every stored loan exactly once, each with an id, no two
     * with the same id; findAll fixes no order.
     */
    function GetAllLoans(): (r: seq<Loan>)
      requires Valid()
      reads this
      ensures multiset(r) == multiset(loans)
      ensures forall i :: 0 <= i < |r| ==> r[i].id.Some?
      ensures forall i, j :: 0 <= i < j < |r| ==> r[i].id != r[j].id
    {
      loans
    }

    /** execute: the manual-review page read from the stored loans. */
    function Execute(filter: ManualReviewFilter, page: int, size: int): (r: Outcome<Pageable<LoanSummary>>)
      requires Valid()
      reads this
      ensures !r.Empty?
      ensures ReviewAdapter.NormalizeTypeId(filter.typeLoanId, parsesAsUuid, canon).Err? ==>
                r == Error(IllegalArgument(filter.typeLoanId.value))
      ensures r.Value? ==>
                && r.value.page == ReviewAdapter.SafePage(page) && r.value.size == ReviewAdapter.SafeSize(size)
                && |r.value.content| <= r.value.size
                && r.value.totalElements <= |loans|
    {
      ReviewAdapter.PageShape(filter, page, size, parsesAsUuid, canon, Table(), directory);
      ReviewAdapter.FindForManualReview(filter, page, size, parsesAsUuid, canon, Table(), directory)
    }
  }
}
