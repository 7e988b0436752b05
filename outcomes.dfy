/**
 * The result shapes the loan service works with.
 *
 * A reactive `Mono<T>` ends in exactly one of three ways: it emits a value,
 * it signals an error, or it completes without a value. `Outcome` names the
 * three; `Result` is the two-way form used where the source never completes
 * empty (a constructor that either returns or throws).
 */
module Outcomes {

  datatype Option<+T> = None | Some(value: T)

  /** The errors the core raises or lets through, by kind. */
  datatype Failure =
    | NotFound(code: string)         // DomainNotFoundException(code)
    | Validation(code: string)       // DomainValidationException(code, message)
    | NullValue(message: string)     // NullPointerException: Objects.requireNonNull or a null dereference
    | IllegalArgument(input: string) // a string that UUID.fromString or Enum.valueOf rejected
    | Downstream(message: string)    // a collaborator's own failure, passed through unchanged

  /** A Mono's end: a value, an error, or empty completion. */
  datatype Outcome<+T> = Value(value: T) | Error(failure: Failure) | Empty

  /** A computation that either produces a value or throws. */
  datatype Result<+T> = Ok(value: T) | Err(failure: Failure)

  function Max(a: int, b: int): int { if a >= b then a else b }

  function Min(a: int, b: int): int { if a <= b then a else b }
}
