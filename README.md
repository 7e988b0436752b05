# Loan service (crediya) in Dafny

This project models the core of a reactive loan-application service and proves properties of that model. The service covers:

- **Intake.** `create` validates a loan request against its loan type and saves it in the `PENDING_REVIEW` state. For types with automatic validation, it also publishes a debt-capacity message built from the applicant's approved loans.
- **Status changes.** `changeLoanStatus` retargets a stored loan to another state, named by id or by name, and assembles the status-changed event.
- **Review queue.** A filtered, paginated listing for human underwriters. Each row is enriched with the applicant's name and salary.
- **Supporting parts:**
  - the value objects (`Money`, `Email`, `InterestRate`, `TermMonths`) and the `Loan` record;
  - the unit-of-work port (`TxRunner`);
  - the HTTP handler's parameter handling;
  - the global error handler, which turns exceptions into problem-details responses (RFC 9110 section 15 status codes, RFC 9457 section 3.1 body).

How the Java constructs are modelled:

- **Reactive results.** A `Mono` result is an `Outcome<T>`: `Value`, `Error(Failure)` or `Empty`. A `Failure` names the exception kind:
  - `NotFound(code)`: `DomainNotFoundException`;
  - `Validation(code)`: `DomainValidationException`;
  - `NullValue`: the `NullPointerException` of `Objects.requireNonNull`;
  - `IllegalArgument`: a failed `UUID.fromString` or `Enum.valueOf`;
  - `Downstream`: a collaborator's own failure.

  An exception thrown while a pipeline is being assembled is modelled as the same error outcome.
- **Decimals.** `BigDecimal` is an unscaled integer plus a scale (`Decimal.Dec`), and `Money` is a count of cents.
- **The use case** is a class (`UseCase.LoanUseCase`):
  - Its repositories are fields: loan types by id, loan states in order, loans in creation order, and the log of debt-capacity messages sent.
  - `create` and `changeLoanStatus` are methods that update those fields. Each is proved equal to a specification function (`CreateOutcome`, `StatusChangeOutcome`, `LoansAfterStatusChange`), and the properties are lemmas about those functions.
  - A loan's joined row (loan, type and state) is computed from the stored loans, so the listing and the approved-loans query run over the same data that `create` and `changeLoanStatus` write.
  - The identity service, the UUID syntax check, the canonical text of a parsed UUID, the id generator, the monthly rate and the monthly-payment formula are functions fixed at construction.
  - Ids are looked up as UUID values: a request's id is put in canonical form before it is compared, and stored ids are kept in canonical form, so any spelling of a stored UUID finds it.
- **The unit-of-work port** (`Tx`) is stated on its own, over functions from a state to an outcome and a new state. The use-case methods do not go through it: they take a snapshot of the stores and restore it when the call fails, which is the behaviour `Tx.Transactional` states.
- **The SQL queries** (`ReviewQuery`) are functions over a sequence of joined rows:
  - `WHERE` is a filter;
  - `ORDER BY created_at DESC` is a stable sort proved sorted and a permutation;
  - `OFFSET`/`LIMIT` is a window;
  - `COUNT(1)` is an independent count, proved equal to the filtered length.
- **The repository adapter** (`ReviewAdapter`) normalises the page, size and filter, runs both queries on one table, and enriches the rows.
- **The handler** (`Handler`) parses the listing's parameters, rewrites the create request, and sends the status-change notification. Its `LoanHandler` class keeps the log of notifications sent.
- **The error handler** (`ErrorHandler`) maps an exception to a status, title, detail and body. Its `ExchangeResponse` class records the statuses set on the response, the body written, and completion.

Where the code and the service's design description disagree, the model follows the code:

- `create` makes no identity-existence check; the code never calls `existsByEmail`.
- In the automatic branch, a missing applicant, or a missing APPROVED state, makes `create` fail rather than complete empty. The pipeline then completes empty, and its closing `doOnSuccess` passes `null` to the log statement, whose `saved.id()` throws a `NullPointerException`. Nothing is saved and no message is sent.
- The pending state is looked up before the amount is checked, so a missing type or pending state is reported ahead of an out-of-range amount.
- The monthly approved debt of a row includes the row's own loan when that loan is approved; the description says "other" approved loans.
- After a status change is saved, a missing applicant makes the call complete empty and the save is kept.
- The HTTP layer answers a `DomainNotFoundException` with 500. The error handler has no branch for it; the exception class is assumed not to extend `DomainValidationException`.

## Model

Source paths are relative to the repository root.

| member | source | states |
|---|---|---|
| Values.NewMoney | domain/model/src/main/java/co/com/crediya/model/value/Money.java:9-13 | null gives NullValue("amount is required"); the value is refused with INVALID_QUANTITY_MONEY exactly when its signum is negative; otherwise the result is the input set to scale 2 with HALF_UP |
| Values.MoneyKeepsShortValues | domain/model/src/main/java/co/com/crediya/model/value/Money.java:12 | a non-negative amount with at most two decimals is accepted and compares equal to the stored value |
| Values.MoneyRoundsHalfUp | domain/model/src/main/java/co/com/crediya/model/value/Money.java:12 | with more decimals the stored cents are the nearest cent, halves rounding up |
| Values.MoneyIdempotent | domain/model/src/main/java/co/com/crediya/model/value/Money.java:9-13 | building Money from a Money's value gives the same Money |
| Values.TinyNegativeRefused | domain/model/src/main/java/co/com/crediya/model/value/Money.java:11-12 | -0.001 would round to 0.00, yet it is refused, because the sign is checked before rounding |
| Values.EmailMatcherIsPattern | domain/model/src/main/java/co/com/crediya/model/value/Email.java:8 | the executable matcher accepts exactly the strings that fully match ^[^@\s]+@[^@\s]+\.[^@\s]+$ |
| Values.ValidEmailShape | domain/model/src/main/java/co/com/crediya/model/value/Email.java:8 | an accepted address has one '@', and no other character is '@' or whitespace |
| Values.EmailAccepted | domain/model/src/test/java/co/com/crediya/model/value/EmailTest.java:14-16 | "a@b.com" is accepted |
| Values.ShortestEmailAccepted | domain/model/src/test/java/co/com/crediya/model/value/EmailTest.java:14-16 | "x@y.z", with one character per part, is accepted |
| Values.EmailRefused | domain/model/src/test/java/co/com/crediya/model/value/EmailTest.java:23-25 | "a@b", "a@b.", "@b.com", "no-at.com", "a@", "", " " and "\t" are refused |
| Values.NewEmail | domain/model/src/main/java/co/com/crediya/model/value/Email.java:9-12 | null gives NullValue; the result is accepted iff the string matches the pattern and keeps the string unchanged; otherwise INVALID_EMAIL |
| Values.NewInterestRate | domain/model/src/main/java/co/com/crediya/model/value/InterestRate.java:8-12 | null gives NullValue; the rate is accepted iff it is not negative (0 included, no upper bound) and is stored without rescaling; otherwise INVALID_INTEREST |
| Values.NewTermMonths | domain/model/src/main/java/co/com/crediya/model/value/TermMonths.java:6-8 | accepted iff present and at least 1, stored unchanged; null and values below 1 give INVALID_TERM_MONTHS |
| Entities.NewLoan | domain/model/src/main/java/co/com/crediya/model/loan/Loan.java:16-21 | succeeds iff amount, termMonths, email and typeLoanId are present; the first missing one, in that order, names the failure; id and stateLoanId may be absent |
| Entities.LoanFieldsValid | domain/model/src/main/java/co/com/crediya/model/loan/Loan.java:10-12 | every Loan has a non-negative amount at scale 2, a term of at least one month and an address that matches the email pattern |
| Entities.StatusValueOf | infrastructure/entry-points/reactive-web/src/main/java/co/com/crediya/api/Handler.java:107 | a success is the constant with exactly that name; a failure is IllegalArgument carrying the name |
| Entities.StatusNameRoundTrip | infrastructure/entry-points/reactive-web/src/main/java/co/com/crediya/api/Handler.java:107 | valueOf(name()) gives back every constant |
| Entities.NameInjective | infrastructure/driven-adapters/r2dbc-postgresql/src/main/java/co/com/crediya/r2dbc/loan/LoanReactiveRepositoryAdapter.java:74 | distinct constants have distinct names |
| Entities.SaturateToInt | domain/model/src/main/java/co/com/crediya/model/pageable/Pageable.java:6 | the (int) cast stays in the int range and keeps values already in it |
| Entities.CeilDiv | domain/model/src/main/java/co/com/crediya/model/pageable/Pageable.java:6 | for a positive divisor, the smallest q with q*b >= a |
| Entities.Pageable.TotalPages | domain/model/src/main/java/co/com/crediya/model/pageable/Pageable.java:6 | within the int range; 0 for no elements; for a non-zero size, the ceiling of totalElements/size, saturated |
| Entities.TotalPagesCover | domain/model/src/main/java/co/com/crediya/model/pageable/Pageable.java:6 | for size >= 1, totalPages*size >= totalElements, and the last page is not empty |
| Tx.Transactional | infrastructure/driven-adapters/r2dbc-postgresql/src/main/java/co/com/crediya/r2dbc/tx/SpringTxRunner.java:24-26 | the wrapped action's outcome passes through unchanged; the state is the action's unless it errs, in which case it is restored |
| Tx.TransactionalMany | infrastructure/driven-adapters/r2dbc-postgresql/src/main/java/co/com/crediya/r2dbc/tx/SpringTxRunner.java:28-30 | the same for a many-valued action |
| Tx.Required | domain/model/src/main/java/co/com/crediya/model/tx/gateway/TxRunner.java:8 | one call of the port; the outcome is the action's |
| Tx.RequiredMany | domain/model/src/main/java/co/com/crediya/model/tx/gateway/TxRunner.java:9 | one call of the port; the elements or error are the action's |
| Tx.ReadOnly | domain/model/src/main/java/co/com/crediya/model/tx/gateway/TxRunner.java:11 | goes through required exactly once and never through requiredMany |
| Tx.ReadOnlyMany | domain/model/src/main/java/co/com/crediya/model/tx/gateway/TxRunner.java:12 | goes through requiredMany exactly once and never through required |
| Tx.ReadOnlyIsRequired | domain/model/src/main/java/co/com/crediya/model/tx/gateway/TxRunner.java:11 | readOnly(action) has the same work and the same port calls as required(action) |
| Tx.ReadOnlyManyIsRequiredMany | domain/model/src/main/java/co/com/crediya/model/tx/gateway/TxRunner.java:12 | readOnlyMany(action) is requiredMany(action) |
| Tx.RequiredWithoutErrorIsTransparent | infrastructure/driven-adapters/r2dbc-postgresql/src/main/java/co/com/crediya/r2dbc/tx/SpringTxRunner.java:24-26 | an action that does not fail runs under required exactly as it would alone |
| Tx.RequiredRollsBack | infrastructure/driven-adapters/r2dbc-postgresql/src/main/java/co/com/crediya/r2dbc/tx/SpringTxRunner.java:24-26 | a failing action reports its own error and leaves the state as it was |
| ReviewQuery.Filter | infrastructure/driven-adapters/r2dbc-postgresql/src/main/java/co/com/crediya/r2dbc/loan/LoanReactiveRepository.java:44-48 | keeps exactly the rows satisfying the predicate, as a sub-multiset of the table |
| ReviewQuery.Qualifies | infrastructure/driven-adapters/r2dbc-postgresql/src/main/java/co/com/crediya/r2dbc/loan/LoanReactiveRepository.java:44-48 | a qualifying row has one of the statuses; with search, type id and amounts all NULL, the status test alone decides |
| ReviewQuery.CountWhere | infrastructure/driven-adapters/r2dbc-postgresql/src/main/java/co/com/crediya/r2dbc/loan/LoanReactiveRepository.java:62-72 | COUNT(1) is at most the number of rows |
| ReviewQuery.CountIsFilterLength | infrastructure/driven-adapters/r2dbc-postgresql/src/main/java/co/com/crediya/r2dbc/loan/LoanReactiveRepository.java:62-72 | the count equals the number of rows the listing's WHERE keeps |
| ReviewQuery.Insert | infrastructure/driven-adapters/r2dbc-postgresql/src/main/java/co/com/crediya/r2dbc/loan/LoanReactiveRepository.java:49 | inserting into a newest-first list keeps it newest first and adds exactly that row |
| ReviewQuery.SortNewestFirst | infrastructure/driven-adapters/r2dbc-postgresql/src/main/java/co/com/crediya/r2dbc/loan/LoanReactiveRepository.java:49 | the result is ordered by created_at descending and is a permutation of its input |
| ReviewQuery.Window | infrastructure/driven-adapters/r2dbc-postgresql/src/main/java/co/com/crediya/r2dbc/loan/LoanReactiveRepository.java:50 | OFFSET/LIMIT returns min(limit, max(0, n - offset)) rows, the i-th being input row offset+i |
| ReviewQuery.ApprovedOf | infrastructure/driven-adapters/r2dbc-postgresql/src/main/java/co/com/crediya/r2dbc/loan/LoanReactiveRepository.java:36-39 | the debt subquery's rows are exactly the table's APPROVED loans of that email |
| ReviewQuery.MonthlyApprovedDebt | infrastructure/driven-adapters/r2dbc-postgresql/src/main/java/co/com/crediya/r2dbc/loan/LoanReactiveRepository.java:28-40 | COALESCE gives 0 when there is no approved loan; otherwise the sum has scale 2 |
| ReviewQuery.NoApprovedLoansNoDebt | infrastructure/driven-adapters/r2dbc-postgresql/src/main/java/co/com/crediya/r2dbc/loan/LoanReactiveRepository.java:28-40 | an applicant without APPROVED loans has a monthly approved debt equal to 0 |
| ReviewQuery.ToSummary | infrastructure/driven-adapters/r2dbc-postgresql/src/main/java/co/com/crediya/r2dbc/loan/LoanReactiveRepository.java:19-27 | applicant_name and base_salary are NULL; id, amount, email, status and type name come from the row |
| ReviewQuery.OrderedMatches | infrastructure/driven-adapters/r2dbc-postgresql/src/main/java/co/com/crediya/r2dbc/loan/LoanReactiveRepository.java:41-49 | exactly the qualifying rows, newest first |
| ReviewQuery.FindForManualReview | infrastructure/driven-adapters/r2dbc-postgresql/src/main/java/co/com/crediya/r2dbc/loan/LoanReactiveRepository.java:18-60 | the listing holds at most `limit` rows, each with applicant name and salary NULL |
| ReviewQuery.CountForManualReview | infrastructure/driven-adapters/r2dbc-postgresql/src/main/java/co/com/crediya/r2dbc/loan/LoanReactiveRepository.java:62-79 | the count is at most the table's size and is zero iff no row qualifies |
| ReviewQuery.ListingAgreesWithCount | infrastructure/driven-adapters/r2dbc-postgresql/src/main/java/co/com/crediya/r2dbc/loan/LoanReactiveRepository.java:18-72 | on one table, the listing holds min(limit, max(0, count - offset)) rows; its i-th row is the (offset+i)-th qualifying row, newest first; every returned row qualifies and has null name and salary |
| ReviewQuery.EmailAndStateRows | infrastructure/driven-adapters/r2dbc-postgresql/src/main/java/co/com/crediya/r2dbc/loan/LoanReactiveRepository.java:88-92 | exactly the loans with that email and state, newest first |
| ReviewQuery.FindByEmailAndStateLoanId | infrastructure/driven-adapters/r2dbc-postgresql/src/main/java/co/com/crediya/r2dbc/loan/LoanReactiveRepository.java:81-94 | the list is empty iff no loan has that email and state |
| ReviewQuery.ApprovedLookupExact | infrastructure/driven-adapters/r2dbc-postgresql/src/main/java/co/com/crediya/r2dbc/loan/LoanReactiveRepository.java:81-94 | one entry per matching loan, in number equal to their count; each entry comes from a loan with that email and state, newest first |
| ReviewAdapter.SafePage | infrastructure/driven-adapters/r2dbc-postgresql/src/main/java/co/com/crediya/r2dbc/loan/LoanReactiveRepositoryAdapter.java:67 | max(page, 0) |
| ReviewAdapter.SafeSize | infrastructure/driven-adapters/r2dbc-postgresql/src/main/java/co/com/crediya/r2dbc/loan/LoanReactiveRepositoryAdapter.java:68 | max(size, 1), hence at least 1 |
| ReviewAdapter.StatusNames | infrastructure/driven-adapters/r2dbc-postgresql/src/main/java/co/com/crediya/r2dbc/loan/LoanReactiveRepositoryAdapter.java:71-74 | null or empty statuses bind PENDING_REVIEW, REJECTED and MANUAL_REVIEW; otherwise a constant's name is bound iff the constant was given |
| ReviewAdapter.EmptyToNull | infrastructure/driven-adapters/r2dbc-postgresql/src/main/java/co/com/crediya/r2dbc/loan/LoanReactiveRepositoryAdapter.java:131-133 | null iff the string is null or blank; otherwise unchanged |
| ReviewAdapter.NormalizeTypeId | infrastructure/driven-adapters/r2dbc-postgresql/src/main/java/co/com/crediya/r2dbc/loan/LoanReactiveRepositoryAdapter.java:77-79 | fails (IllegalArgument) iff the id is present, not blank and not a UUID; otherwise null for a null or blank id, and the canonical form of the parsed UUID for any other |
| ReviewAdapter.Normalize | infrastructure/driven-adapters/r2dbc-postgresql/src/main/java/co/com/crediya/r2dbc/loan/LoanReactiveRepositoryAdapter.java:66-81 | binds safePage, safeSize, offset = safePage*safeSize and limit = safeSize; the criteria are the chosen status names, the search with blanks made null, the normalised type id, and the amounts as given |
| ReviewAdapter.OffsetsAdvanceBySize | infrastructure/driven-adapters/r2dbc-postgresql/src/main/java/co/com/crediya/r2dbc/loan/LoanReactiveRepositoryAdapter.java:67-69 | the offset is never negative, and consecutive non-negative pages start one page size apart |
| ReviewAdapter.FullName | infrastructure/driven-adapters/r2dbc-postgresql/src/main/java/co/com/crediya/r2dbc/loan/LoanReactiveRepositoryAdapter.java:103 | the first name, one space, then the last name, a null part written "null" |
| ReviewAdapter.Enrich | infrastructure/driven-adapters/r2dbc-postgresql/src/main/java/co/com/crediya/r2dbc/loan/LoanReactiveRepositoryAdapter.java:96-122 | only name and salary change: a found user gives name + " " + lastName and the salary; a missing one gives nulls |
| ReviewAdapter.EnrichAll | infrastructure/driven-adapters/r2dbc-postgresql/src/main/java/co/com/crediya/r2dbc/loan/LoanReactiveRepositoryAdapter.java:95-124 | never empty; succeeds iff no lookup fails, and then enriches each row in place, keeping the row count; a failure is some row's lookup failure |
| ReviewAdapter.TotalOrZero | infrastructure/driven-adapters/r2dbc-postgresql/src/main/java/co/com/crediya/r2dbc/loan/LoanReactiveRepositoryAdapter.java:90 | an empty count is 0 |
| ReviewAdapter.AssemblePage | infrastructure/driven-adapters/r2dbc-postgresql/src/main/java/co/com/crediya/r2dbc/loan/LoanReactiveRepositoryAdapter.java:89-128 | the page carries the count (0 if empty), the safe page and size, and one row per listed row |
| ReviewAdapter.FindForManualReview | infrastructure/driven-adapters/r2dbc-postgresql/src/main/java/co/com/crediya/r2dbc/loan/LoanReactiveRepositoryAdapter.java:66-129 | the call never completes empty |
| ReviewAdapter.ManualReviewPage | infrastructure/driven-adapters/r2dbc-postgresql/src/main/java/co/com/crediya/r2dbc/loan/LoanReactiveRepositoryAdapter.java:66-129 | with a valid type id, the call succeeds iff no lookup fails; the page then carries safePage, safeSize, the full count, min(size, max(0, count - offset)) rows, and the listing's rows with only name and salary changed |
| ReviewAdapter.PageShape | infrastructure/driven-adapters/r2dbc-postgresql/src/main/java/co/com/crediya/r2dbc/loan/LoanReactiveRepositoryAdapter.java:126-127 | any page holds at most `size` rows and a count of at most the table's size |
| ReviewAdapter.BadTypeIdFails | infrastructure/driven-adapters/r2dbc-postgresql/src/main/java/co/com/crediya/r2dbc/loan/LoanReactiveRepositoryAdapter.java:77-79 | a non-blank type id that is not a UUID fails the call with IllegalArgument |
| UseCase.FindState | domain/usecase/src/main/java/co/com/crediya/usecase/loan/LoanUseCase.java:55-58 | a found state is stored under that key; none is found iff no stored state has that key |
| UseCase.FindLoan | domain/usecase/src/main/java/co/com/crediya/usecase/loan/LoanUseCase.java:135-138 | the position of the first loan with that id, or the length when there is none |
| UseCase.ValidateAmountInRange | domain/usecase/src/main/java/co/com/crediya/usecase/loan/LoanUseCase.java:176-186 | passes iff min <= amount <= max, both inclusive; otherwise AMOUNT_OUT_OF_RANGE |
| UseCase.RangeCheckIsCompareTo | domain/usecase/src/main/java/co/com/crediya/usecase/loan/LoanUseCase.java:180 | the check fails iff amount.compareTo(min) < 0 or amount.compareTo(max) > 0 |
| UseCase.Placed | domain/usecase/src/main/java/co/com/crediya/usecase/loan/LoanUseCase.java:117-122 | the loan to save has no id and the pending state's id, and copies amount, term, email and type |
| UseCase.LoanUseCase.StateById | domain/usecase/src/main/java/co/com/crediya/usecase/loan/LoanUseCase.java:142 | the state stored under that id, if any |
| UseCase.LoanUseCase.StateByName | domain/usecase/src/main/java/co/com/crediya/usecase/loan/LoanUseCase.java:56 | a state stored under that name, if any |
| UseCase.LoanUseCase.StateFoundById | domain/usecase/src/main/java/co/com/crediya/usecase/loan/LoanUseCase.java:162-164 | with distinct ids, every stored state is found by its own id |
| UseCase.LoanUseCase.Table | infrastructure/driven-adapters/r2dbc-postgresql/src/main/java/co/com/crediya/r2dbc/loan/LoanReactiveRepository.java:41-43 | one joined row per stored loan, in creation order |
| UseCase.LoanUseCase.ApprovedLoans | domain/usecase/src/main/java/co/com/crediya/usecase/loan/LoanUseCase.java:199-204 | empty iff there is no APPROVED state |
| UseCase.LoanUseCase.ApprovedLoansExact | domain/usecase/src/main/java/co/com/crediya/usecase/loan/LoanUseCase.java:199-204 | the list has one entry per stored loan of that email in the APPROVED state, each from such a loan, newest first |
| UseCase.LoanUseCase.CreateChecks | domain/usecase/src/main/java/co/com/crediya/usecase/loan/LoanUseCase.java:50-68 | a type id that is not a UUID fails; then TYPE_LOAN_NOT_FOUND when no type is stored under the parsed UUID; then STATE_PENDING_REVIEW_NOT_FOUND; then the range check; otherwise the type and the pending state |
| UseCase.LoanUseCase.ChecksIgnoreSpelling | domain/usecase/src/main/java/co/com/crediya/usecase/loan/LoanUseCase.java:51 | two requests that spell the same type UUID differently pass or fail the checks alike |
| UseCase.LoanUseCase.Insert | domain/usecase/src/main/java/co/com/crediya/usecase/loan/LoanUseCase.java:100-101 | save of a new loan appends it under the next id, its type id read back in canonical form, keeping the store invariant |
| UseCase.LoanUseCase.NextSaved | domain/usecase/src/main/java/co/com/crediya/usecase/loan/LoanUseCase.java:90-101 | the saved loan has the next id and the pending state, copies amount, term and email, and carries the type id in canonical form |
| UseCase.LoanUseCase.CreateMessage | domain/usecase/src/main/java/co/com/crediya/usecase/loan/LoanUseCase.java:104-109 | a message is built only for an automatically validated type, and carries the loan as saved and the APPROVED-loans list |
| UseCase.LoanUseCase.CreateOutcome | domain/usecase/src/main/java/co/com/crediya/usecase/loan/LoanUseCase.java:45-129 | a failed check is create's error |
| UseCase.LoanUseCase.CreateOutcomeCases | domain/usecase/src/main/java/co/com/crediya/usecase/loan/LoanUseCase.java:61-127 | create emits the next saved loan iff the checks pass and, for an automatic type, the applicant is found, the APPROVED state exists and the send succeeds; it never completes empty: a failing applicant lookup gives its failure, a missing applicant or APPROVED state gives the NullPointerException, a failed send gives the send's failure |
| UseCase.LoanUseCase.CreateMessageCases | domain/usecase/src/main/java/co/com/crediya/usecase/loan/LoanUseCase.java:100-113 | exactly one DebtCapacity(saved loan, approved list, applicant) is sent iff an automatic type's loan is emitted; none otherwise |
| UseCase.LoanUseCase.OutOfRangeRefused | domain/usecase/src/main/java/co/com/crediya/usecase/loan/LoanUseCase.java:67-68 | an out-of-range amount gives AMOUNT_OUT_OF_RANGE and no message |
| UseCase.LoanUseCase.MissingReferenceFirst | domain/usecase/src/main/java/co/com/crediya/usecase/loan/LoanUseCase.java:50-62 | a missing type gives TYPE_LOAN_NOT_FOUND, then a missing pending state gives STATE_PENDING_REVIEW_NOT_FOUND, whatever the amount |
| UseCase.LoanUseCase.Create | domain/usecase/src/main/java/co/com/crediya/usecase/loan/LoanUseCase.java:45-129 | returns CreateOutcome; the loan table grows by the emitted loan and by nothing otherwise; the message log grows by the one DebtCapacity message, if any; a failed send rolls the save back |
| UseCase.LoanUseCase.CreateAutomatic | domain/usecase/src/main/java/co/com/crediya/usecase/loan/LoanUseCase.java:70-115 | the automatic branch meets the same specification as Create, for a given approved-loans result |
| UseCase.LoanUseCase.TargetState | domain/usecase/src/main/java/co/com/crediya/usecase/loan/LoanUseCase.java:140-147 | looked up by the parsed id when the string is a UUID, by name otherwise |
| UseCase.LoanUseCase.StatusChangeSave | domain/usecase/src/main/java/co/com/crediya/usecase/loan/LoanUseCase.java:135-157 | a save happens iff the loan id parses, a loan is stored under that UUID and the target state exists; the saved loan is the stored loan with only its state replaced |
| UseCase.LoanUseCase.StatusChangeOutcome | domain/usecase/src/main/java/co/com/crediya/usecase/loan/LoanUseCase.java:131-174 | errors: IllegalArgument, then LOAN_NOT_FOUND, then STATE_LOAN_NOT_FOUND; after the save, a found applicant gives the event, carrying the saved loan, the state's and type's names, the reason and the applicant; a failing lookup gives its failure; empty iff the save happened and the applicant is missing |
| UseCase.LoanUseCase.LoansAfterStatusChange | domain/usecase/src/main/java/co/com/crediya/usecase/loan/LoanUseCase.java:135-173 | on error the table is unchanged; otherwise only the target loan is replaced by its saved copy |
| UseCase.LoanUseCase.StatusChangeKeepsLoan | domain/usecase/src/main/java/co/com/crediya/usecase/loan/LoanUseCase.java:149-157 | the changed loan keeps its id, amount, term, email and type, and gets the target state's id |
| UseCase.LoanUseCase.PostSaveLookupsFind | domain/usecase/src/main/java/co/com/crediya/usecase/loan/LoanUseCase.java:159-169 | after the save, the lookup by the saved state id finds the targeted state and the saved type id names a stored type |
| UseCase.LoanUseCase.ChangeLoanStatus | domain/usecase/src/main/java/co/com/crediya/usecase/loan/LoanUseCase.java:131-174 | returns StatusChangeOutcome; the table becomes LoansAfterStatusChange, so a failure after the save rolls it back |
| UseCase.LoanUseCase.GetAllLoans | domain/usecase/src/main/java/co/com/crediya/usecase/loan/LoanUseCase.java:188-191 | every stored loan exactly once (the same multiset), each with an id and no two with the same id; no order is promised |
| UseCase.LoanUseCase.Execute | domain/usecase/src/main/java/co/com/crediya/usecase/loan/LoanUseCase.java:193-197 | never empty; a bad type id fails with IllegalArgument; a page has the safe page and size, at most `size` rows, and a count of at most the number of loans |
| Handler.StatusesNamed | infrastructure/entry-points/reactive-web/src/main/java/co/com/crediya/api/Handler.java:106-107 | over trimmed tokens, succeeds iff every token is blank or names a constant |
| Handler.StatusesRefusal | infrastructure/entry-points/reactive-web/src/main/java/co/com/crediya/api/Handler.java:106-107 | a refusal names the first unacceptable token, and every earlier token is acceptable |
| Handler.StatusesMembers | infrastructure/entry-points/reactive-web/src/main/java/co/com/crediya/api/Handler.java:106-107 | a constant is in the set iff its name is among the trimmed tokens |
| Handler.StatusSet | infrastructure/entry-points/reactive-web/src/main/java/co/com/crediya/api/Handler.java:105-107 | the split tokens are refused iff one of them, once trimmed, is neither blank nor a constant's name |
| Handler.TrimmedOccurrence | infrastructure/entry-points/reactive-web/src/main/java/co/com/crediya/api/Handler.java:106 | a name is among the trimmed tokens iff some token trims to it |
| Handler.StatusSetMembers | infrastructure/entry-points/reactive-web/src/main/java/co/com/crediya/api/Handler.java:105-107 | once accepted, a constant is asked for iff some token trims to its name |
| Handler.StatusSetSingle | infrastructure/entry-points/reactive-web/src/main/java/co/com/crediya/api/Handler.java:105-107 | a single token that trims to a constant's name gives that constant alone |
| Handler.ParseStatusCsv | infrastructure/entry-points/reactive-web/src/main/java/co/com/crediya/api/Handler.java:103-107 | absent or blank gives the three review statuses; otherwise the comma-split tokens decide |
| Handler.AbsentStatusesAreDefaults | infrastructure/entry-points/reactive-web/src/main/java/co/com/crediya/api/Handler.java:103-104 | no parameter gives {PENDING_REVIEW, REJECTED, MANUAL_REVIEW} |
| Handler.SingleStatus | infrastructure/entry-points/reactive-web/src/main/java/co/com/crediya/api/Handler.java:105-107 | the parameter holding one constant's name gives that constant alone |
| Handler.UnknownStatusRefused | infrastructure/entry-points/reactive-web/src/main/java/co/com/crediya/api/Handler.java:107 | "BOGUS" fails with IllegalArgument("BOGUS") |
| Handler.CommasOnlyFallBackToDefaults | infrastructure/entry-points/reactive-web/src/main/java/co/com/crediya/api/Handler.java:103-107 | "," gives the empty set, which the repository widens to the three review statuses |
| Handler.BuildListRequest | infrastructure/entry-points/reactive-web/src/main/java/co/com/crediya/api/Handler.java:94-109 | fails iff the status parameter does, with its failure; page defaults to 0 and size to 20; search, type id and amounts pass as given |
| Handler.ToPageResponse | infrastructure/entry-points/reactive-web/src/main/java/co/com/crediya/api/Handler.java:114-115 | content, totalElements, page and size are copied unchanged, and totalPages is the page's own |
| Handler.RewriteCreateRequest | infrastructure/entry-points/reactive-web/src/main/java/co/com/crediya/api/Handler.java:51-57 | the email is the token's, the state is null, and amount, term and type are kept |
| Handler.LoanHandler.List | infrastructure/entry-points/reactive-web/src/main/java/co/com/crediya/api/Handler.java:93-117 | a bad status parameter fails the request; a response has the safe page and size and at most `size` rows |
| Handler.LoanHandler.ChangeLoanStatus | infrastructure/entry-points/reactive-web/src/main/java/co/com/crediya/api/Handler.java:73-86 | the status change happens (or rolls back) as in the use case; the notification is sent only after an event, and a failed send fails the response without undoing the change; the response is the event's loan |
| ErrorHandler.MapStatus | infrastructure/entry-points/reactive-web/src/main/java/co/com/crediya/api/error/GlobalErrorHandler.java:62-76 | the first matching test decides; bind and input errors give 400; a well-formed exception gives a three-digit status |
| ErrorHandler.MapStatusClasses | infrastructure/entry-points/reactive-web/src/main/java/co/com/crediya/api/error/GlobalErrorHandler.java:62-76 | input errors give 400; data integrity gives 409 ahead of any carried code; response-status and error-response exceptions give their own code; domain validation gives 422; anything else gives 500 |
| ErrorHandler.ServerErrorExactly | infrastructure/entry-points/reactive-web/src/main/java/co/com/crediya/api/error/GlobalErrorHandler.java:62-76 | 500 iff the exception is unrecognised or carries 500 itself |
| ErrorHandler.ReasonPhrase | infrastructure/entry-points/reactive-web/src/main/java/co/com/crediya/api/error/GlobalErrorHandler.java:100-103 | a phrase exists only for a code from 100 to 599, and is never empty |
| ErrorHandler.TitleFor | infrastructure/entry-points/reactive-web/src/main/java/co/com/crediya/api/error/GlobalErrorHandler.java:100-103 | the reason phrase of Spring's HttpStatus constant for the code, the deprecated 305, 419, 420 and 421 included; otherwise the code's decimal digits, which read back as the code |
| ErrorHandler.ClientErrorTitles | infrastructure/entry-points/reactive-web/src/main/java/co/com/crediya/api/error/GlobalErrorHandler.java:100-103 | 400, 409 and 422 are titled "Bad Request", "Conflict" and "Unprocessable Entity" |
| ErrorHandler.ServerErrorTitle | infrastructure/entry-points/reactive-web/src/main/java/co/com/crediya/api/error/GlobalErrorHandler.java:100-103 | 500 is titled "Internal Server Error" |
| ErrorHandler.DeprecatedTitles | infrastructure/entry-points/reactive-web/src/main/java/co/com/crediya/api/error/GlobalErrorHandler.java:100-103 | 305, 419, 420 and 421 are titled "Use Proxy", "Insufficient Space On Resource", "Method Failure" and "Destination Locked" |
| ErrorHandler.NonStandardTitle | infrastructure/entry-points/reactive-web/src/test/java/co/com/crediya/api/error/GlobalErrorHandlerTest.java:180-198 | the non-standard 499 is titled "499" |
| ErrorHandler.SafeDetail | infrastructure/entry-points/reactive-web/src/main/java/co/com/crediya/api/error/GlobalErrorHandler.java:105-108 | the message, or the simple class name when the message is null |
| ErrorHandler.ErrorEntries | infrastructure/entry-points/reactive-web/src/main/java/co/com/crediya/api/error/GlobalErrorHandler.java:86-95 | one entry per field error, in order, with field, message and String.valueOf(rejectedValue); fails iff some default message is null |
| ErrorHandler.ProblemDetailFor | infrastructure/entry-points/reactive-web/src/main/java/co/com/crediya/api/error/GlobalErrorHandler.java:78-98 | status is mapStatus, title is titleFor, detail is safeDetail, plus path and timestamp; "errors" is present iff the exception is a bind error, with one entry per field error |
| ErrorHandler.BindErrorBody | infrastructure/entry-points/reactive-web/src/main/java/co/com/crediya/api/error/GlobalErrorHandler.java:86-95 | a bind error with one field error is answered 400 and lists that field |
| ErrorHandler.ExchangeResponse.Handle | infrastructure/entry-points/reactive-web/src/main/java/co/com/crediya/api/error/GlobalErrorHandler.java:44-60 | the status is set and the body written; a failed write sets 500 and completes without a body; a failure while building the body is thrown with nothing written |

## Left out

- Reactive scheduling. `Mono.zip` runs its sources in order, first argument first, and `flatMap` over the listing's rows keeps row order; the real interleaving is not modelled.
- Laziness: the point at which work starts is not modelled, only what the work does once it runs.
- Transactions are snapshot/restore of the loan table: an error restores it. Isolation and the real `TransactionalOperator` are library behaviour. The listing and its count run on one table; two different snapshots are not modelled.
- The amortised monthly-payment formula (`POWER`, `ROUND`) and the monthly rate are functions given to the use case, not computed.
- `ILIKE` is modelled as an ASCII case-insensitive substring test. The `%` and `_` wildcards inside the search text, and database collation, are not modelled.
- `UUID.fromString` is modelled by two given functions: whether a string parses, and the canonical text of the UUID it parses to. Ids are compared by that canonical text, and stored ids are taken to be canonical; the parsing rules themselves are not modelled.
- Every stored loan's state and type ids name a stored state and type, as the schema's foreign keys require. So the state and type lookups after a status change's save always succeed (`PostSaveLookupsFind`), and only a missing applicant makes that call complete empty.
- The customer gateway's HTTP behaviour and its 404 handling are not modelled. The gateway is a lookup by email that yields a user, nothing, or a failure.
- The SQS senders, the notification and debt-capacity publishers, and their JSON formats are left out. Publishing is appended to a log, and a send failure is an input of the call.
- The MapStruct mappers and `DtoValidator` are left out: their code is generated or a thin wrapper over the Jakarta validator.
- The JWT `email` claim is an input of `RewriteCreateRequest`; security configuration is not modelled.
- `Integer.parseInt` and `new BigDecimal` failures on the listing's query parameters are left out; parameters arrive already parsed.
- `Pageable.totalPages` goes through `double`, which is not modelled. It is computed exactly with integers and saturated to the int range, which agrees with the double computation for realistic counts.
- The `LoanStatus` enum source is not part of this model. Its constants are taken to be PENDING_REVIEW, REJECTED, MANUAL_REVIEW and APPROVED.
- `DomainNotFoundException` is assumed not to be a `DomainValidationException`, so it maps to 500.
- The reason phrases follow Spring's `HttpStatus` enum, its deprecated constants included; where two constants share a code, the one declared first gives the phrase. Any other code is treated as non-standard.
- The timestamp of a problem-details body is an input of the call (the clock).
- Logging is left out.
- `Character.isWhitespace` and `String.trim` are restricted to ASCII.
- Entities, DTOs, routing and OpenAPI configuration are left out.
- The commented-out monthly-fee code in the use case is dead and not modelled.
- UseCase.LoanUseCase.GetAllLoans: the model returns the loans in creation order, but the contract promises only the multiset, because `findAll` has no `ORDER BY` and the database may return the rows in any order.
- UseCase.LoanUseCase.ApprovedLoans: its contract only says when the list is absent. The list's contents are stated by `ApprovedLoansExact`, a separate lemma, which keeps `Create`'s proof small.
- UseCase.LoanUseCase.Create: the contract is stated over what the approved-loans lookup returns at the call. The lookup's own contents are proved separately by `ApprovedLoansExact`.
- ReviewAdapter.FindForManualReview: its own contract only says the call never completes empty. The page itself is described by `ManualReviewPage` and `PageShape`.
