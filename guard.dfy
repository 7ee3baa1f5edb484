/** `idempotency_guard!`: scans an entity's events (latest first at the call
    sites) and returns "already applied" from the enclosing function when an
    event matches one of the duplicate patterns. The variadic list of duplicate
    patterns is modelled as one predicate, their disjunction. */
module IdempotencyGuard {

  /** Reference semantics of the form without a break arm: some event is a duplicate. */
  predicate AnyDuplicate<E>(events: seq<E>, dup: E -> bool)
  {
    exists i :: 0 <= i < |events| && dup(events[i])
  }

  /** Reference semantics of the form with a break arm: some event is a duplicate
      and no earlier event matched the break pattern. The event at the duplicate
      position itself may match the break pattern too, because the duplicate arms
      are tested first. */
  predicate DuplicateBeforeBreak<E>(events: seq<E>, dup: E -> bool, brk: E -> bool)
  {
    exists i :: 0 <= i < |events| && dup(events[i]) && NoBreakBefore(events, brk, i)
  }

  predicate NoBreakBefore<E>(events: seq<E>, brk: E -> bool, i: int)
    requires 0 <= i <= |events|
  {
    forall j :: 0 <= j < i ==> !brk(events[j])
  }

  /** The loop of the first macro arm; `ignored` is the early `return`. */
  method Guard<E>(events: seq<E>, dup: E -> bool) returns (ignored: bool)
    ensures ignored <==> AnyDuplicate(events, dup)
  {
    var i := 0;
    while i < |events|
      invariant 0 <= i <= |events|
      invariant forall j :: 0 <= j < i ==> !dup(events[j])
    {
      if dup(events[i]) {
        return true;
      }
      i := i + 1;
    }
    return false;
  }

  /** The loop of the second macro arm: duplicate arms first, then the break arm. */
  method GuardWithBreak<E>(events: seq<E>, dup: E -> bool, brk: E -> bool) returns (ignored: bool)
    ensures ignored <==> DuplicateBeforeBreak(events, dup, brk)
  {
    var i := 0;
    while i < |events|
      invariant 0 <= i <= |events|
      invariant forall j :: 0 <= j < i ==> !dup(events[j]) && !brk(events[j])
    {
      if dup(events[i]) {
        assert NoBreakBefore(events, brk, i);
        return true;
      }
      if brk(events[i]) {
        forall k | i < k < |events| ensures !NoBreakBefore(events, brk, k) {
          assert brk(events[i]);
        }
        return false;
      }
      i := i + 1;
    }
    return false;
  }

  /** An event matching a duplicate pattern that comes before any break match
      makes the call ignored, whatever the later events are. */
  lemma DuplicateFirstWins<E>(events: seq<E>, dup: E -> bool, brk: E -> bool, i: nat)
    requires i < |events| && dup(events[i]) && NoBreakBefore(events, brk, i)
    ensures DuplicateBeforeBreak(events, dup, brk)
    ensures DuplicateBeforeBreak(events[..i + 1], dup, brk)
  {
    assert events[..i + 1][i] == events[i];
    assert NoBreakBefore(events[..i + 1], brk, i);
  }

  /** A break match reached before any duplicate stops the scan: the mutation
      proceeds, whatever comes after it. */
  lemma BreakFirstProceeds<E>(events: seq<E>, dup: E -> bool, brk: E -> bool, k: nat)
    requires k < |events| && brk(events[k]) && !dup(events[k])
    requires forall j :: 0 <= j < k ==> !dup(events[j])
    ensures !DuplicateBeforeBreak(events, dup, brk)
  {
    forall i | 0 <= i < |events| && dup(events[i]) ensures !NoBreakBefore(events, brk, i) {
      assert k < i;
      assert brk(events[k]);
    }
  }

  /** With no matching event at all, both forms fall through. */
  lemma NoMatchFallsThrough<E>(events: seq<E>, dup: E -> bool, brk: E -> bool)
    requires forall j :: 0 <= j < |events| ==> !dup(events[j])
    ensures !AnyDuplicate(events, dup) && !DuplicateBeforeBreak(events, dup, brk)
  {
  }

}
