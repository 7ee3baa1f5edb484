/** `#[retry_on_concurrent_modification]`: the generated outer function runs
    the original body (`<name>_exec_one`) up to `max_retries` times, calling it
    again only while it fails with a retryable error. */
module RetryOnConcurrentModification {
  import opened Wrappers

  /** The attribute's arguments, each optional. */
  datatype MacroArgs = MacroArgs(anyError: Option<bool>, maxRetries: Option<nat>)

  /** `any_error` defaults to false. */
  function AnyError(args: MacroArgs): (b: bool)
    ensures args.anyError.None? ==> !b
    ensures args.anyError.Some? ==> b == args.anyError.value
  {
    if args.anyError.Some? then args.anyError.value else false
  }

  /** `max_retries` defaults to 3. */
  function MaxRetries(args: MacroArgs): (n: nat)
    ensures args.maxRetries.None? ==> n == 3
    ensures args.maxRetries.Some? ==> n == args.maxRetries.value
  {
    if args.maxRetries.Some? then args.maxRetries.value else 3
  }

  /** An attempt's result calls for another attempt: any error when
      `any_error` is set, otherwise only one that `was_concurrent_modification`. */
  predicate Retryable<T, E>(anyError: bool, isConcurrentModification: E -> bool, result: Result<T, E>)
  {
    result.Err? && (anyError || isConcurrentModification(result.error))
  }

  /** The generated loop. `attempt(n)` is the result of the n-th call of the
      inner function (each call sees the database as the previous ones left it).
      `r` is `None` where the code reaches `unreachable!()`, which only a
      `max_retries` of 0 does; `calls` is the number of inner calls made. */
  method Retry<T, E>(anyError: bool, maxRetries: nat, attempt: nat -> Result<T, E>, isConcurrentModification: E -> bool)
    returns (r: Option<Result<T, E>>, calls: nat)
    ensures maxRetries == 0 <==> r.None?
    ensures r.None? ==> calls == 0
    ensures r.Some? ==> 1 <= calls <= maxRetries && r.value == attempt(calls)
    ensures forall k :: 1 <= k < calls ==> Retryable(anyError, isConcurrentModification, attempt(k))
    ensures r.Some? && calls < maxRetries ==> !Retryable(anyError, isConcurrentModification, attempt(calls))
    ensures r.Some? ==> calls == CallsMade(anyError, maxRetries, attempt, isConcurrentModification, 1)
  {
    var n: nat := 1;
    while n <= maxRetries
      invariant 1 <= n
      invariant maxRetries == 0 || n <= maxRetries
      invariant forall k :: 1 <= k < n ==> Retryable(anyError, isConcurrentModification, attempt(k))
    {
      var result := attempt(n);
      if n == maxRetries {
        RetryCallsDetermined(anyError, maxRetries, attempt, isConcurrentModification, n);
        return Some(result), n;
      }
      if Retryable(anyError, isConcurrentModification, result) {
        n := n + 1;
        continue;
      }
      RetryCallsDetermined(anyError, maxRetries, attempt, isConcurrentModification, n);
      return Some(result), n;
    }
    assert maxRetries == 0;
    return None, 0;
  }

  /** The number of calls a retry loop makes: the first attempt that settles
      (succeeds or fails with a non-retryable error), or `max_retries` when none
      before the last does. */
  function CallsMade<T, E>(anyError: bool, maxRetries: nat, attempt: nat -> Result<T, E>,
                           isConcurrentModification: E -> bool, n: nat): (calls: nat)
    requires 1 <= n <= maxRetries
    ensures n <= calls <= maxRetries
    ensures forall k :: n <= k < calls ==> Retryable(anyError, isConcurrentModification, attempt(k))
    ensures calls < maxRetries ==> !Retryable(anyError, isConcurrentModification, attempt(calls))
    decreases maxRetries - n
  {
    if n == maxRetries || !Retryable(anyError, isConcurrentModification, attempt(n)) then n
    else CallsMade(anyError, maxRetries, attempt, isConcurrentModification, n + 1)
  }

  /** The loop's observable contract picks out exactly one count: any `calls` the
      retry loop can report is `CallsMade` from the first attempt. */
  lemma RetryCallsDetermined<T, E>(anyError: bool, maxRetries: nat, attempt: nat -> Result<T, E>,
                                   isConcurrentModification: E -> bool, calls: nat)
    requires 1 <= calls <= maxRetries
    requires forall k :: 1 <= k < calls ==> Retryable(anyError, isConcurrentModification, attempt(k))
    requires calls < maxRetries ==> !Retryable(anyError, isConcurrentModification, attempt(calls))
    ensures calls == CallsMade(anyError, maxRetries, attempt, isConcurrentModification, 1)
  {
  }

  /** A conflict on every attempt uses up all `max_retries` calls, and the last
      conflict is what the caller sees. */
  lemma PersistentConflictUsesAllAttempts<T, E>(anyError: bool, maxRetries: nat, attempt: nat -> Result<T, E>,
                                                isConcurrentModification: E -> bool)
    requires 1 <= maxRetries
    requires forall k :: 1 <= k <= maxRetries ==> attempt(k).Err? && isConcurrentModification(attempt(k).error)
    ensures CallsMade(anyError, maxRetries, attempt, isConcurrentModification, 1) == maxRetries
  {
  }

  /** Without `any_error`, an error that is not a concurrent modification is
      returned after the call that produced it. */
  lemma OtherErrorStopsAtOnce<T, E>(maxRetries: nat, attempt: nat -> Result<T, E>, isConcurrentModification: E -> bool)
    requires 1 <= maxRetries
    requires attempt(1).Err? && !isConcurrentModification(attempt(1).error)
    ensures CallsMade(false, maxRetries, attempt, isConcurrentModification, 1) == 1
  {
  }
}
