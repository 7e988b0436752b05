/**
 * The unit-of-work port. `required` and `requiredMany` wrap a deferred
 * action in a read/write transaction; the default `readOnly` and
 * `readOnlyMany` hand the action to them unchanged. An action is modelled
 * as a function from the store's state to an outcome and a new state; the
 * transaction is modelled as snapshot/restore: an action that ends in an
 * error leaves the state as it was.
 */
module Tx {
  import opened Outcomes

  /** The abstract port methods a call goes through. */
  datatype Call = RequiredCall | RequiredManyCall

  /** A Mono-producing action: at most one value, an error, or empty. */
  type Action<!S, T> = S -> (Outcome<T>, S)

  /** A Flux-producing action: every element, or an error. */
  type ManyAction<!S, T> = S -> (Result<seq<T>>, S)

  /** A publisher handed back by the runner, with the port calls made to build it; nothing has run yet. */
  datatype Built<W> = Built(work: W, calls: seq<Call>)

  /** Runs an action inside a transaction: its outcome passes through, an error rolls the state back. */
  function Transactional<S(!new), T>(action: Action<S, T>): (w: Action<S, T>)
    ensures forall s :: w(s).0 == action(s).0
    ensures forall s :: w(s).1 == (if action(s).0.Error? then s else action(s).1)
  {
    s => var res := action(s); if res.0.Error? then (res.0, s) else res
  }

  function TransactionalMany<S(!new), T>(action: ManyAction<S, T>): (w: ManyAction<S, T>)
    ensures forall s :: w(s).0 == action(s).0
    ensures forall s :: w(s).1 == (if action(s).0.Err? then s else action(s).1)
  {
    s => var res := action(s); if res.0.Err? then (res.0, s) else res
  }

  /** required: the action wrapped in a transaction, through one call of the port. */
  function Required<S(!new), T>(action: Action<S, T>): (b: Built<Action<S, T>>)
    ensures b.calls == [RequiredCall]
    ensures forall s :: b.work(s).0 == action(s).0
  {
    Built(Transactional(action), [RequiredCall])
  }

  /** requiredMany: the same for a Flux. */
  function RequiredMany<S(!new), T>(action: ManyAction<S, T>): (b: Built<ManyAction<S, T>>)
    ensures b.calls == [RequiredManyCall]
    ensures forall s :: b.work(s).0 == action(s).0
  {
    Built(TransactionalMany(action), [RequiredManyCall])
  }

  /** The default readOnly: delegates to required. */
  function ReadOnly<S(!new), T>(action: Action<S, T>): (b: Built<Action<S, T>>)
    ensures b.calls == [RequiredCall] && RequiredManyCall !in b.calls
  {
    Required(action)
  }

  /** The default readOnlyMany: delegates to requiredMany. */
  function ReadOnlyMany<S(!new), T>(action: ManyAction<S, T>): (b: Built<ManyAction<S, T>>)
    ensures b.calls == [RequiredManyCall] && RequiredCall !in b.calls
  {
    RequiredMany(action)
  }

  /** readOnly(action) behaves exactly as required(action): same work, same calls. */
  lemma ReadOnlyIsRequired<S(!new), T>(action: Action<S, T>, s: S)
    ensures ReadOnly(action).work(s) == Required(action).work(s)
    ensures ReadOnly(action).calls == Required(action).calls
  {
  }

  /** readOnlyMany(action) behaves exactly as requiredMany(action). */
  lemma ReadOnlyManyIsRequiredMany<S(!new), T>(action: ManyAction<S, T>, s: S)
    ensures ReadOnlyMany(action).work(s) == RequiredMany(action).work(s)
    ensures ReadOnlyMany(action).calls == RequiredMany(action).calls
  {
  }

  /** An action that never fails runs under required exactly as it would alone. */
  lemma RequiredWithoutErrorIsTransparent<S(!new), T>(action: Action<S, T>, s: S)
    requires !action(s).0.Error?
    ensures Required(action).work(s) == action(s)
  {
  }

  /** A failing action under required leaves the state untouched and reports its own error. */
  lemma RequiredRollsBack<S(!new), T>(action: Action<S, T>, s: S)
    requires action(s).0.Error?
    ensures Required(action).work(s) == (action(s).0, s)
  {
  }
}
