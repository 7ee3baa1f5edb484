/** The artificial clock used to drive time in tests: the current time in
    epoch milliseconds, a queue of pending wake-ups, and the manual `advance`
    that jumps from one wake time to the next. */
module ArtificialClock {
  import opened Wrappers

  /** The clock's mode; auto-advance reads a scaled real elapsed time. */
  datatype Mode = Manual | AutoAdvance | Realtime

  /** A pending wake: when (epoch ms) and which sleep it belongs to. */
  datatype PendingWake = PendingWake(wakeAtMs: int, sleepId: nat)

  /** The heap's order: earlier wake time first, ties broken by the smaller sleep id. */
  predicate Le(a: PendingWake, b: PendingWake)
  {
    a.wakeAtMs < b.wakeAtMs || (a.wakeAtMs == b.wakeAtMs && a.sleepId <= b.sleepId)
  }

  /** Where the heap's top sits: an entry no other entry precedes. */
  function MinIndex(s: seq<PendingWake>): (k: nat)
    requires s != []
    ensures k < |s|
    ensures forall j :: 0 <= j < |s| ==> Le(s[k], s[j])
  {
    if |s| == 1 then 0
    else
      var k := MinIndex(s[..|s| - 1]);
      if Le(s[k], s[|s| - 1]) then k else |s| - 1
  }

  /** `peek().map(|w| w.wake_at_ms)`: the earliest pending wake time. */
  function NextWake(s: seq<PendingWake>): (r: Option<int>)
    ensures r.None? <==> s == []
    ensures r.Some? ==> (exists i :: 0 <= i < |s| && s[i].wakeAtMs == r.value)
    ensures r.Some? ==> forall i :: 0 <= i < |s| ==> r.value <= s[i].wakeAtMs
  {
    if s == [] then None else Some(s[MinIndex(s)].wakeAtMs)
  }

  /** The entries that stay pending once everything due at or before `t` is woken. */
  function NotDue(s: seq<PendingWake>, t: int): seq<PendingWake>
  {
    if s == [] then []
    else NotDue(s[..|s| - 1], t) + (if s[|s| - 1].wakeAtMs > t then [s[|s| - 1]] else [])
  }

  /** How many entries are due at or before `t`. */
  function DueCount(s: seq<PendingWake>, t: int): nat
  {
    if s == [] then 0
    else DueCount(s[..|s| - 1], t) + (if s[|s| - 1].wakeAtMs > t then 0 else 1)
  }

  /** The entries of another sleep than `id`, as `cancel_wake` rebuilds the heap. */
  function Without(s: seq<PendingWake>, id: nat): seq<PendingWake>
  {
    if s == [] then []
    else Without(s[..|s| - 1], id) + (if s[|s| - 1].sleepId != id then [s[|s| - 1]] else [])
  }

  /** What stays pending is exactly the entries later than `t`, and every
      entry either stays or is counted as due. */
  lemma {:induction false} NotDueContents(s: seq<PendingWake>, t: int)
    ensures forall w :: w in NotDue(s, t) <==> w in s && w.wakeAtMs > t
    ensures |NotDue(s, t)| + DueCount(s, t) == |s|
  {
    if s != [] {
      NotDueContents(s[..|s| - 1], t);
      assert s == s[..|s| - 1] + [s[|s| - 1]];
    }
  }

  /** A cancelled sleep leaves the queue and nothing else does. */
  lemma {:induction false} WithoutContents(s: seq<PendingWake>, id: nat)
    ensures forall w :: w in Without(s, id) <==> w in s && w.sleepId != id
  {
    if s != [] {
      WithoutContents(s[..|s| - 1], id);
      assert s == s[..|s| - 1] + [s[|s| - 1]];
    }
  }

  lemma {:induction false} NotDueAppend(a: seq<PendingWake>, b: seq<PendingWake>, t: int)
    ensures NotDue(a + b, t) == NotDue(a, t) + NotDue(b, t)
    ensures DueCount(a + b, t) == DueCount(a, t) + DueCount(b, t)
  {
    if b == [] {
      assert a + b == a;
    } else {
      NotDueAppend(a, b[..|b| - 1], t);
      assert (a + b)[..|a + b| - 1] == a + b[..|b| - 1];
    }
  }

  /** Nothing is due when every entry is later than `t`. */
  lemma {:induction false} AllLater(s: seq<PendingWake>, t: int)
    requires forall i :: 0 <= i < |s| ==> s[i].wakeAtMs > t
    ensures NotDue(s, t) == s && DueCount(s, t) == 0
  {
    if s != [] {
      AllLater(s[..|s| - 1], t);
    }
  }

  /** Popping a due entry keeps what stays pending and counts one fewer due. */
  lemma RemoveDue(s: seq<PendingWake>, k: nat, t: int)
    requires k < |s| && s[k].wakeAtMs <= t
    ensures NotDue(s[..k] + s[k + 1..], t) == NotDue(s, t)
    ensures DueCount(s[..k] + s[k + 1..], t) + 1 == DueCount(s, t)
  {
    assert s == s[..k] + [s[k]] + s[k + 1..];
    NotDueAppend(s[..k] + [s[k]], s[k + 1..], t);
    NotDueAppend(s[..k], [s[k]], t);
    NotDueAppend(s[..k], s[k + 1..], t);
    assert [s[k]][..0] == [];
  }

  /** Waking up to `m` and then up to a later `t` is waking up to `t`. */
  lemma {:induction false} NotDueTwice(s: seq<PendingWake>, m: int, t: int)
    requires m <= t
    ensures NotDue(NotDue(s, m), t) == NotDue(s, t)
    ensures DueCount(s, t) == DueCount(s, m) + DueCount(NotDue(s, m), t)
  {
    if s != [] {
      var init, last := s[..|s| - 1], s[|s| - 1];
      NotDueTwice(init, m, t);
      var tail := if last.wakeAtMs > m then [last] else [];
      NotDueAppend(NotDue(init, m), tail, t);
      if tail != [] {
        assert tail[..0] == [];
      }
    }
  }

  /** The wake times among the entries. */
  function WakeTimes(s: seq<PendingWake>): (r: set<int>)
    ensures forall i :: 0 <= i < |s| ==> s[i].wakeAtMs in r
  {
    set w | w in s :: w.wakeAtMs
  }

  /** One stop of `advance`: waking at the earliest wake `m`, no later than the
      target, wakes at least that entry, leaves only entries later than `m`,
      and changes neither what the target leaves pending nor how many it wakes. */
  lemma AdvanceStep(s: seq<PendingWake>, m: int, t: int)
    requires NextWake(s) == Some(m) && m <= t
    ensures NotDue(NotDue(s, m), t) == NotDue(s, t)
    ensures DueCount(s, t) == DueCount(s, m) + DueCount(NotDue(s, m), t)
    ensures DueCount(s, m) > 0 && |NotDue(s, m)| < |s|
    ensures forall x :: x in NotDue(s, m) ==> x in s && m < x.wakeAtMs
  {
    NotDueTwice(s, m, t);
    NotDueContents(s, m);
    var i :| 0 <= i < |s| && s[i].wakeAtMs == m;
    SomeDue(s, i, m);
  }

  /** One entry due at or before `t` makes the due count positive. */
  lemma {:induction false} SomeDue(s: seq<PendingWake>, i: nat, t: int)
    requires i < |s| && s[i].wakeAtMs <= t
    ensures DueCount(s, t) > 0
  {
    if i < |s| - 1 {
      SomeDue(s[..|s| - 1], i, t);
    }
  }

  /** Removing the entry at `k` takes exactly that entry out of the multiset. */
  lemma SplitOut(s: seq<PendingWake>, k: nat)
    requires k < |s|
    ensures multiset(s[..k] + s[k + 1..]) + multiset{s[k]} == multiset(s)
  {
    assert s == s[..k] + [s[k]] + s[k + 1..];
  }

  /** The stops of an `advance` so far: increasing wake times of the initial
      queue, no later than the target, each earlier than everything still
      pending, which is drawn from the initial queue. */
  ghost predicate StopLog(visited: seq<int>, targetMs: int, initial: seq<PendingWake>, pending: seq<PendingWake>)
  {
    (forall x :: x in pending ==> x in initial) &&
    (forall i :: 0 <= i < |visited| ==> visited[i] <= targetMs && visited[i] in WakeTimes(initial)) &&
    (forall i, j :: 0 <= i < j < |visited| ==> visited[i] < visited[j]) &&
    (forall i, x :: 0 <= i < |visited| && x in pending ==> visited[i] < x.wakeAtMs)
  }

  /** The invariant of `wake_tasks_at`'s loop: the entries popped so far and
      those left are the initial ones; the popped ones are due and come in heap
      order, each before everything left; what stays due is as at the start. */
  ghost predicate WakeInv(initial: seq<PendingWake>, pending: seq<PendingWake>, upToMs: int,
                          count: nat, woken: seq<PendingWake>)
  {
    NotDue(pending, upToMs) == NotDue(initial, upToMs) &&
    count + DueCount(pending, upToMs) == DueCount(initial, upToMs) &&
    |woken| == count &&
    multiset(woken) + multiset(pending) == multiset(initial) &&
    (forall i :: 0 <= i < |woken| ==> woken[i] in initial && woken[i].wakeAtMs <= upToMs) &&
    (forall i, j :: 0 <= i < j < |woken| ==> Le(woken[i], woken[j])) &&
    (forall i, x :: 0 <= i < |woken| && x in pending ==> Le(woken[i], x))
  }

  /** Popping the heap's due top keeps the invariant of `wake_tasks_at`. */
  lemma WakeStep(initial: seq<PendingWake>, pending: seq<PendingWake>, k: nat, upToMs: int,
                 count: nat, woken: seq<PendingWake>)
    requires WakeInv(initial, pending, upToMs, count, woken)
    requires pending != [] && k == MinIndex(pending) && pending[k].wakeAtMs <= upToMs
    ensures WakeInv(initial, pending[..k] + pending[k + 1..], upToMs, count + 1, woken + [pending[k]])
  {
    var w, rest := pending[k], pending[..k] + pending[k + 1..];
    RemoveDue(pending, k, upToMs);
    SplitOut(pending, k);
    WakeStepOn(initial, pending, rest, k, upToMs, count, woken);
  }

  /** `WakeStep` for any queue `rest` that holds exactly the entries of
      `pending` other than its top. */
  lemma WakeStepOn(initial: seq<PendingWake>, pending: seq<PendingWake>, rest: seq<PendingWake>, k: nat,
                   upToMs: int, count: nat, woken: seq<PendingWake>)
    requires WakeInv(initial, pending, upToMs, count, woken)
    requires pending != [] && k == MinIndex(pending) && pending[k].wakeAtMs <= upToMs
    requires multiset(rest) + multiset{pending[k]} == multiset(pending)
    requires NotDue(rest, upToMs) == NotDue(pending, upToMs)
    requires DueCount(rest, upToMs) + 1 == DueCount(pending, upToMs)
    ensures WakeInv(initial, rest, upToMs, count + 1, woken + [pending[k]])
  {
    var w := pending[k];
    InSum(woken, pending, initial);
    InSum(rest, [w], pending);
    WakeOrderStep(pending, rest, k, woken, upToMs);
    assert multiset(woken + [w]) + multiset(rest) == multiset(initial);
  }

  /** The popped top comes after everything popped before it and before
      everything left. */
  lemma WakeOrderStep(pending: seq<PendingWake>, rest: seq<PendingWake>, k: nat, woken: seq<PendingWake>, upToMs: int)
    requires pending != [] && k == MinIndex(pending)
    requires forall x :: x in rest ==> x in pending
    requires forall i, j :: 0 <= i < j < |woken| ==> Le(woken[i], woken[j])
    requires forall i, x :: 0 <= i < |woken| && x in pending ==> Le(woken[i], x)
    ensures forall i, j :: 0 <= i < j < |woken + [pending[k]]| ==> Le((woken + [pending[k]])[i], (woken + [pending[k]])[j])
    ensures forall i, x :: 0 <= i < |woken + [pending[k]]| && x in rest ==> Le((woken + [pending[k]])[i], x)
  {
    var w := pending[k];
    assert w in pending;
    forall x | x in rest
      ensures Le(w, x)
    {
      var j :| 0 <= j < |pending| && pending[j] == x;
    }
  }

  /** When the heap's top is not due, the invariant of `wake_tasks_at` gives
      its contract. */
  lemma WakeDone(initial: seq<PendingWake>, pending: seq<PendingWake>, upToMs: int,
                 count: nat, woken: seq<PendingWake>)
    requires WakeInv(initial, pending, upToMs, count, woken)
    requires !(pending != [] && pending[MinIndex(pending)].wakeAtMs <= upToMs)
    ensures pending == NotDue(initial, upToMs)
    ensures count == DueCount(initial, upToMs) && |woken| == count
    ensures multiset(woken) + multiset(pending) == multiset(initial)
    ensures forall i :: 0 <= i < |woken| ==> woken[i] in initial && woken[i].wakeAtMs <= upToMs
    ensures forall i, j :: 0 <= i < j < |woken| ==> Le(woken[i], woken[j])
  {
    if pending != [] {
      AllLater(pending, upToMs);
    }
  }

  /** The invariant of `advance`'s loop: what stays due by the target and how
      many are due are where they started, less what was woken so far, and the
      stops and the log are as described above. */
  ghost predicate AdvanceInv(initial: seq<PendingWake>, pending: seq<PendingWake>, targetMs: int, total: nat,
                             visited: seq<int>, woken: seq<PendingWake>, wokenAtMs: seq<int>)
  {
    NotDue(pending, targetMs) == NotDue(initial, targetMs) &&
    total + DueCount(pending, targetMs) == DueCount(initial, targetMs) &&
    total == |woken| &&
    StopLog(visited, targetMs, initial, pending) &&
    WokenLog(woken, wokenAtMs, visited, initial, pending)
  }

  /** `n` copies of `v`. */
  ghost function Repeat(v: int, n: nat): (r: seq<int>)
    ensures |r| == n && forall i :: 0 <= i < n ==> r[i] == v
  {
    if n == 0 then [] else Repeat(v, n - 1) + [v]
  }

  /** When two sequences together hold the entries of a third, each holds only
      entries of the third. */
  lemma InSum(a: seq<PendingWake>, b: seq<PendingWake>, c: seq<PendingWake>)
    requires multiset(a) + multiset(b) == multiset(c)
    ensures forall x :: x in a ==> x in c
    ensures forall x :: x in b ==> x in c
  {
    forall x | x in a || x in b
      ensures x in c
    {
      assert x in multiset(a) || x in multiset(b);
      assert x in multiset(c);
    }
  }

  /** The log of an `advance` so far: the entries woken plus those still pending
      are the entries pending at the start; each was woken while the clock
      showed its own wake time, at one of the stops; they come in heap order,
      and everything still pending is later than all of them. */
  ghost predicate WokenLog(woken: seq<PendingWake>, wokenAtMs: seq<int>, visited: seq<int>,
                           initial: seq<PendingWake>, pending: seq<PendingWake>)
  {
    |wokenAtMs| == |woken| &&
    multiset(woken) + multiset(pending) == multiset(initial) &&
    (forall i :: 0 <= i < |woken| ==> wokenAtMs[i] == woken[i].wakeAtMs && wokenAtMs[i] in visited) &&
    (forall i, j :: 0 <= i < j < |woken| ==> Le(woken[i], woken[j])) &&
    (forall i, x :: 0 <= i < |woken| && x in pending ==> woken[i].wakeAtMs < x.wakeAtMs)
  }

  class Clock {
    var mode: Mode
    var currentMs: int
    /** The heap's contents; its order does not matter, only `Le` does. */
    var pending: seq<PendingWake>

    /** `new`: the configured mode and start time, nothing pending. */
    constructor (m: Mode, startAtMs: int)
      requires m != Realtime
      ensures mode == m && currentMs == startAtMs && pending == []
    {
      mode := m;
      currentMs := startAtMs;
      pending := [];
    }

    predicate IsManual()
      reads this
    {
      mode == Manual
    }

    predicate IsRealtime()
      reads this
    {
      mode == Realtime
    }

    /** `now_ms`: the wall clock in realtime mode, the stored time in manual mode,
        the stored time plus the scaled real elapsed time in auto-advance mode. */
    function NowMs(utcNowMs: int, scaledElapsedMs: int): (r: int)
      reads this
      ensures mode == Manual ==> r == currentMs
      ensures mode == Realtime ==> r == utcNowMs
      ensures mode == AutoAdvance ==> r == currentMs + scaledElapsedMs
    {
      match mode
      case Realtime => utcNowMs
      case Manual => currentMs
      case AutoAdvance => currentMs + scaledElapsedMs
    }

    function NextWakeTime(): (r: Option<int>)
      reads this
      ensures r == NextWake(pending)
    {
      NextWake(pending)
    }

    function PendingWakeCount(): (n: nat)
      reads this
      ensures n == |pending|
    {
      |pending|
    }

    method RegisterWake(wakeAtMs: int, sleepId: nat)
      modifies this
      ensures pending == old(pending) + [PendingWake(wakeAtMs, sleepId)]
      ensures mode == old(mode) && currentMs == old(currentMs)
    {
      pending := pending + [PendingWake(wakeAtMs, sleepId)];
    }

    /** `cancel_wake`: drains the heap and puts back every other sleep's entry. */
    method CancelWake(sleepId: nat)
      modifies this
      ensures pending == Without(old(pending), sleepId)
      ensures mode == old(mode) && currentMs == old(currentMs)
    {
      var drained := pending;
      var kept: seq<PendingWake> := [];
      var i := 0;
      while i < |drained|
        invariant 0 <= i <= |drained|
        invariant kept == Without(drained[..i], sleepId)
      {
        assert drained[..i + 1][..i] == drained[..i];
        if drained[i].sleepId != sleepId {
          kept := kept + [drained[i]];
        }
        i := i + 1;
      }
      assert drained[..|drained|] == drained;
      pending := kept;
    }

    method ClearPendingWakes()
      modifies this
      ensures pending == []
      ensures mode == old(mode) && currentMs == old(currentMs)
    {
      pending := [];
    }

    /** `transition_to_realtime`: realtime from now on, every pending sleep woken. */
    method TransitionToRealtime()
      modifies this
      ensures mode == Realtime && pending == []
      ensures currentMs == old(currentMs)
    {
      mode := Realtime;
      pending := [];
    }

    method SetTime(timeMs: int)
      modifies this
      ensures currentMs == timeMs
      ensures mode == old(mode) && pending == old(pending)
    {
      currentMs := timeMs;
    }

    /** `wake_tasks_at`: pops the earliest entry while it is due at or before
        `upToMs`; returns how many were woken and, as `woken`, the entries in the
        order they were popped: exactly the due entries, earliest first. */
    method WakeTasksAt(upToMs: int) returns (count: nat, ghost woken: seq<PendingWake>)
      modifies this
      ensures pending == NotDue(old(pending), upToMs)
      ensures count == DueCount(old(pending), upToMs) && |woken| == count
      ensures multiset(woken) + multiset(pending) == multiset(old(pending))
      ensures forall i :: 0 <= i < |woken| ==> woken[i] in old(pending) && woken[i].wakeAtMs <= upToMs
      ensures forall i, j :: 0 <= i < j < |woken| ==> Le(woken[i], woken[j])
      ensures mode == old(mode) && currentMs == old(currentMs)
    {
      count := 0;
      woken := [];
      while pending != [] && pending[MinIndex(pending)].wakeAtMs <= upToMs
        invariant WakeInv(old(pending), pending, upToMs, count, woken)
        invariant mode == old(mode) && currentMs == old(currentMs)
        decreases |pending|
      {
        var k := MinIndex(pending);
        WakeStep(old(pending), pending, k, upToMs, count, woken);
        woken := woken + [pending[k]];
        pending := pending[..k] + pending[k + 1..];
        count := count + 1;
      }
      WakeDone(old(pending), pending, upToMs, count, woken);
    }

    /** One stop of `advance`'s loop: the time becomes the earliest wake, which is
        at or before the target, and what is due then is woken. Every entry woken
        here is due exactly at the new time. */
    method StopAt(wakeMs: int, targetMs: int) returns (count: nat, ghost batch: seq<PendingWake>)
      requires NextWake(pending) == Some(wakeMs) && wakeMs <= targetMs
      modifies this
      ensures mode == old(mode) && currentMs == wakeMs
      ensures NotDue(pending, targetMs) == NotDue(old(pending), targetMs)
      ensures count + DueCount(pending, targetMs) == DueCount(old(pending), targetMs)
      ensures |pending| < |old(pending)|
      ensures forall x :: x in pending ==> x in old(pending) && wakeMs < x.wakeAtMs
      ensures |batch| == count && batch != []
      ensures multiset(batch) + multiset(pending) == multiset(old(pending))
      ensures forall i :: 0 <= i < |batch| ==> batch[i].wakeAtMs == currentMs
      ensures forall i, j :: 0 <= i < j < |batch| ==> Le(batch[i], batch[j])
    {
      AdvanceStep(pending, wakeMs, targetMs);
      ghost var before := pending;
      currentMs := wakeMs;
      count, batch := WakeTasksAt(wakeMs);
      forall i | 0 <= i < |batch|
        ensures batch[i].wakeAtMs == wakeMs
      {
        var j :| 0 <= j < |before| && before[j] == batch[i];
      }
    }

    /** The manual-mode body of `advance`: stops at each wake time up to the
        target in turn, then settles on the target. `visited` are the stops;
        `woken` are the entries in the order they were woken and `wokenAtMs[i]`
        is the clock's time when `woken[i]` was woken. */
    method AdvanceManual(targetMs: int) returns (totalWoken: nat, ghost visited: seq<int>,
                                                 ghost woken: seq<PendingWake>, ghost wokenAtMs: seq<int>)
      requires mode == Manual
      modifies this
      ensures mode == Manual && currentMs == targetMs
      ensures pending == NotDue(old(pending), targetMs)
      ensures totalWoken == DueCount(old(pending), targetMs) == |woken|
      ensures multiset(woken) + multiset(pending) == multiset(old(pending))
      ensures |wokenAtMs| == |woken| && forall i :: 0 <= i < |woken| ==> wokenAtMs[i] == woken[i].wakeAtMs
      ensures forall i, j :: 0 <= i < j < |woken| ==> Le(woken[i], woken[j])
      ensures forall i :: 0 <= i < |visited| ==> visited[i] <= targetMs && visited[i] in WakeTimes(old(pending))
      ensures forall i, j :: 0 <= i < j < |visited| ==> visited[i] < visited[j]
      ensures forall w :: w in old(pending) && w.wakeAtMs <= targetMs ==> w.wakeAtMs in visited
    {
      ghost var initial := pending;
      totalWoken, visited, woken, wokenAtMs := RunStops(targetMs);
      AdvanceDone(initial, pending, targetMs, totalWoken, visited, woken, wokenAtMs);
      currentMs := targetMs;
    }

    /** `advance`'s loop: stops while the earliest wake is due by the target. */
    method RunStops(targetMs: int) returns (totalWoken: nat, ghost visited: seq<int>,
                                            ghost woken: seq<PendingWake>, ghost wokenAtMs: seq<int>)
      requires mode == Manual
      modifies this
      ensures mode == Manual
      ensures AdvanceInv(old(pending), pending, targetMs, totalWoken, visited, woken, wokenAtMs)
      ensures !(NextWake(pending).Some? && NextWake(pending).value <= targetMs)
    {
      visited, woken, wokenAtMs := [], [], [];
      ghost var initial := pending;
      totalWoken := 0;
      var next := NextWakeTime();
      while next.Some? && next.value <= targetMs
        invariant mode == Manual
        invariant next == NextWake(pending)
        invariant AdvanceInv(initial, pending, targetMs, totalWoken, visited, woken, wokenAtMs)
        decreases |pending|
      {
        var wakeMs := next.value;
        var count, batch, now := LoggedStop(wakeMs, targetMs, initial, totalWoken, visited, woken, wokenAtMs);
        totalWoken := totalWoken + count;
        visited := visited + [wakeMs];
        woken := woken + batch;
        wokenAtMs := wokenAtMs + Repeat(now, |batch|);
        next := NextWakeTime();
      }
    }

    /** A stop of `advance` together with its log: the batch `StopAt` wakes is
        logged at the clock's time right after the stop. */
    method LoggedStop(wakeMs: int, targetMs: int, ghost initial: seq<PendingWake>, total: nat,
                      ghost visited: seq<int>, ghost woken: seq<PendingWake>, ghost wokenAtMs: seq<int>)
      returns (count: nat, ghost batch: seq<PendingWake>, ghost now: int)
      requires NextWake(pending) == Some(wakeMs) && wakeMs <= targetMs
      requires AdvanceInv(initial, pending, targetMs, total, visited, woken, wokenAtMs)
      modifies this
      ensures mode == old(mode) && currentMs == wakeMs == now
      ensures |pending| < |old(pending)|
      ensures AdvanceInv(initial, pending, targetMs, total + count, visited + [wakeMs], woken + batch,
                         wokenAtMs + Repeat(now, |batch|))
    {
      ghost var before := pending;
      count, batch := StopAt(wakeMs, targetMs);
      now := currentMs;
      AdvanceInvStep(initial, before, pending, targetMs, total, count, visited, woken, wokenAtMs, batch, now);
    }

    /** One stop keeps the invariant of `advance`'s loop: the stop joins the
        stops, its batch joins the log at the clock's time then, and its count
        joins the total. */
    static lemma AdvanceInvStep(initial: seq<PendingWake>, before: seq<PendingWake>, after: seq<PendingWake>,
                                targetMs: int, total: nat, count: nat, visited: seq<int>,
                                woken: seq<PendingWake>, wokenAtMs: seq<int>, batch: seq<PendingWake>, wakeMs: int)
      requires AdvanceInv(initial, before, targetMs, total, visited, woken, wokenAtMs)
      requires NextWake(before) == Some(wakeMs) && wakeMs <= targetMs
      requires NotDue(after, targetMs) == NotDue(before, targetMs)
      requires count + DueCount(after, targetMs) == DueCount(before, targetMs)
      requires forall x :: x in after ==> x in before && wakeMs < x.wakeAtMs
      requires |batch| == count
      requires multiset(batch) + multiset(after) == multiset(before)
      requires forall i :: 0 <= i < |batch| ==> batch[i].wakeAtMs == wakeMs
      requires forall i, j :: 0 <= i < j < |batch| ==> Le(batch[i], batch[j])
      ensures AdvanceInv(initial, after, targetMs, total + count, visited + [wakeMs], woken + batch,
                         wokenAtMs + Repeat(wakeMs, |batch|))
    {
      VisitStep(visited, wakeMs, targetMs, initial, before, after);
      WokenStep(woken, wokenAtMs, visited, initial, before, batch, wakeMs, after);
    }

    /** When nothing pending is due by the target any more, the invariant gives
        everything `advance` promises. */
    static lemma AdvanceDone(initial: seq<PendingWake>, pending: seq<PendingWake>, targetMs: int, total: nat,
                             visited: seq<int>, woken: seq<PendingWake>, wokenAtMs: seq<int>)
      requires AdvanceInv(initial, pending, targetMs, total, visited, woken, wokenAtMs)
      requires !(NextWake(pending).Some? && NextWake(pending).value <= targetMs)
      ensures pending == NotDue(initial, targetMs)
      ensures total == DueCount(initial, targetMs) == |woken|
      ensures multiset(woken) + multiset(pending) == multiset(initial)
      ensures |wokenAtMs| == |woken| && forall i :: 0 <= i < |woken| ==> wokenAtMs[i] == woken[i].wakeAtMs
      ensures forall i, j :: 0 <= i < j < |woken| ==> Le(woken[i], woken[j])
      ensures forall i :: 0 <= i < |visited| ==> visited[i] <= targetMs && visited[i] in WakeTimes(initial)
      ensures forall i, j :: 0 <= i < j < |visited| ==> visited[i] < visited[j]
      ensures forall w :: w in initial && w.wakeAtMs <= targetMs ==> w.wakeAtMs in visited
    {
      AllLater(pending, targetMs);
      DueAllVisited(woken, wokenAtMs, visited, initial, pending, targetMs);
    }

    /** Keeps the stops of `advance` increasing: the new stop is a pending
        wake time, later than every earlier stop, and earlier than everything
        still pending afterwards. */
    static lemma VisitStep(visited: seq<int>, wakeMs: int, targetMs: int, initial: seq<PendingWake>,
                           before: seq<PendingWake>, after: seq<PendingWake>)
      requires NextWake(before) == Some(wakeMs) && wakeMs <= targetMs
      requires StopLog(visited, targetMs, initial, before)
      requires forall x :: x in after ==> x in before && wakeMs < x.wakeAtMs
      ensures StopLog(visited + [wakeMs], targetMs, initial, after)
    {
      var k :| 0 <= k < |before| && before[k].wakeAtMs == wakeMs;
      assert before[k] in initial;
      assert wakeMs in WakeTimes(initial);
    }

    /** Once only the entries later than the target are pending, every wake
        time due by the target was a stop. */
    static lemma DueAllVisited(woken: seq<PendingWake>, wokenAtMs: seq<int>, visited: seq<int>,
                               initial: seq<PendingWake>, pending: seq<PendingWake>, targetMs: int)
      requires WokenLog(woken, wokenAtMs, visited, initial, pending)
      requires pending == NotDue(initial, targetMs)
      ensures forall w :: w in initial && w.wakeAtMs <= targetMs ==> w.wakeAtMs in visited
    {
      NotDueContents(initial, targetMs);
      forall w | w in initial && w.wakeAtMs <= targetMs
        ensures w.wakeAtMs in visited
      {
        assert w !in multiset(pending);
        assert w in multiset(initial);
        assert w in multiset(woken);
        var i :| 0 <= i < |woken| && woken[i] == w;
      }
    }

    /** Keeps the log of `advance` exact: a batch woken at a stop joins the log
        at that stop's time, after everything woken at earlier stops. */
    static lemma WokenStep(woken: seq<PendingWake>, wokenAtMs: seq<int>, visited: seq<int>,
                           initial: seq<PendingWake>, before: seq<PendingWake>,
                           batch: seq<PendingWake>, wakeMs: int, after: seq<PendingWake>)
      requires WokenLog(woken, wokenAtMs, visited, initial, before)
      requires multiset(batch) + multiset(after) == multiset(before)
      requires forall i :: 0 <= i < |batch| ==> batch[i].wakeAtMs == wakeMs
      requires forall i, j :: 0 <= i < j < |batch| ==> Le(batch[i], batch[j])
      requires forall x :: x in after ==> wakeMs < x.wakeAtMs
      ensures WokenLog(woken + batch, wokenAtMs + Repeat(wakeMs, |batch|), visited + [wakeMs], initial, after)
    {
      var w2, a2 := woken + batch, wokenAtMs + Repeat(wakeMs, |batch|);
      InSum(batch, after, before);
      assert multiset(w2) + multiset(after) == multiset(initial);
      assert forall i :: 0 <= i < |w2| ==> a2[i] == w2[i].wakeAtMs && a2[i] in visited + [wakeMs] by {
        forall i | 0 <= i < |w2|
          ensures a2[i] == w2[i].wakeAtMs && a2[i] in visited + [wakeMs]
        {
          if i >= |woken| {
            assert w2[i] == batch[i - |woken|];
          }
        }
      }
      assert forall i, j :: 0 <= i < j < |w2| ==> Le(w2[i], w2[j]) by {
        forall i, j | 0 <= i < j < |w2|
          ensures Le(w2[i], w2[j])
        {
          if j >= |woken| && i < |woken| {
            assert w2[j] == batch[j - |woken|];
          } else if i >= |woken| {
            assert w2[i] == batch[i - |woken|] && w2[j] == batch[j - |woken|];
          }
        }
      }
    }

    /** `advance`: in manual mode, moves the time forward by `durationMs`, waking
        every sleep due on the way in time order, each while the clock shows its
        own wake time; other modes do nothing. */
    method Advance(durationMs: nat) returns (totalWoken: nat, ghost visited: seq<int>,
                                             ghost woken: seq<PendingWake>, ghost wokenAtMs: seq<int>)
      modifies this
      ensures mode == old(mode)
      ensures old(mode) != Manual ==> (totalWoken == 0 && visited == [] && woken == [] &&
        currentMs == old(currentMs) && pending == old(pending))
      ensures old(mode) == Manual ==> (
        currentMs == old(currentMs) + durationMs &&
        pending == NotDue(old(pending), old(currentMs) + durationMs) &&
        totalWoken == DueCount(old(pending), old(currentMs) + durationMs) &&
        multiset(woken) + multiset(pending) == multiset(old(pending)) &&
        forall w :: w in old(pending) && w.wakeAtMs <= old(currentMs) + durationMs ==> w.wakeAtMs in visited)
      ensures totalWoken == |woken|
      ensures |wokenAtMs| == |woken| && forall i :: 0 <= i < |woken| ==> wokenAtMs[i] == woken[i].wakeAtMs
      ensures forall i, j :: 0 <= i < j < |woken| ==> Le(woken[i], woken[j])
      ensures forall i :: 0 <= i < |visited| ==>
        visited[i] <= old(currentMs) + durationMs && visited[i] in WakeTimes(old(pending))
      ensures forall i, j :: 0 <= i < j < |visited| ==> visited[i] < visited[j]
    {
      if mode != Manual {
        return 0, [], [], [];
      }
      var startMs := currentMs;
      totalWoken, visited, woken, wokenAtMs := AdvanceManual(startMs + durationMs);
    }

    /** `advance_to_next_wake`: in manual mode with something pending, moves the
        time to the earliest wake, wakes what is due then, and returns that time. */
    method AdvanceToNextWake() returns (r: Option<int>)
      modifies this
      ensures mode == old(mode)
      ensures r.None? <==> old(mode) != Manual || old(pending) == []
      ensures r.None? ==> currentMs == old(currentMs) && pending == old(pending)
      ensures r.Some? ==> (r == NextWake(old(pending)) && currentMs == r.value &&
        pending == NotDue(old(pending), r.value))
    {
      if mode != Manual {
        return None;
      }
      var next := NextWakeTime();
      if next.None? {
        return None;
      }
      currentMs := next.value;
      var _, _ := WakeTasksAt(next.value);
      return next;
    }
  }

  /** Wakes registered out of order come out earliest first. */
  lemma PendingWakeOrdering()
    ensures var s := [PendingWake(3000, 1), PendingWake(1000, 2), PendingWake(2000, 3)];
      NextWake(s) == Some(1000) &&
      NextWake(NotDue(s, 1000)) == Some(2000) &&
      NextWake(NotDue(NotDue(s, 1000), 2000)) == Some(3000)
  {
    var a, b, c := PendingWake(3000, 1), PendingWake(1000, 2), PendingWake(2000, 3);
    var s := [a, b, c];
    assert s[..2] == [a, b] && s[..2][..1] == [a] && s[..2][..1][..0] == [];
    assert NotDue([a], 1000) == [a];
    assert NotDue([a, b], 1000) == [a];
    assert NotDue(s, 1000) == [a, c];
    var s2 := [a, c];
    assert s2[..1] == [a] && s2[..1][..0] == [];
    assert NotDue([a], 2000) == [a];
    assert NotDue(s2, 2000) == [a];
  }
}
