/** The outcome of an idempotent mutation: it either ran, or its effect was
    already recorded in the entity's event history. */
module Idempotency {
  import opened Wrappers

  datatype Idempotent<T> = Executed(value: T) | AlreadyApplied

  /** `was_already_applied`: the mutation was skipped. */
  function WasAlreadyApplied<T>(x: Idempotent<T>): (b: bool)
    ensures b <==> x == AlreadyApplied
  {
    x.AlreadyApplied?
  }

  /** `did_execute`: the mutation ran; always the negation of `WasAlreadyApplied`. */
  function DidExecute<T>(x: Idempotent<T>): (b: bool)
    ensures b != WasAlreadyApplied(x)
  {
    x.Executed?
  }

  /** `unwrap`: the payload of `Executed`; the Rust code panics on `AlreadyApplied`,
      which is the precondition here. */
  function Unwrap<T>(x: Idempotent<T>): (v: T)
    requires DidExecute(x)
    ensures x == Executed(v)
  {
    x.value
  }

  /** `FromAlreadyApplied` for `Idempotent<T>`. */
  function FromAlreadyApplied<T>(): (r: Idempotent<T>)
    ensures WasAlreadyApplied(r) && !DidExecute(r)
  {
    AlreadyApplied
  }

  /** `FromAlreadyApplied` for `Result<Idempotent<T>, E>`: an `Ok` that was skipped. */
  function ResultFromAlreadyApplied<T, E>(): (r: Result<Idempotent<T>, E>)
    ensures r.Ok? && WasAlreadyApplied(r.value)
  {
    Ok(FromAlreadyApplied())
  }

  /** Exactly one of the two predicates holds of every outcome. */
  lemma ExactlyOneOutcome<T>(x: Idempotent<T>)
    ensures DidExecute(x) <==> !WasAlreadyApplied(x)
    ensures DidExecute(x) ==> Unwrap(x) == x.value
  {
  }

}
