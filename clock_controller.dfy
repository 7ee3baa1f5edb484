/** The test-facing controller of an artificial clock: every operation
    delegates to the shared clock, `set_time` also wakes what has become due,
    and `reset_to` also drops every pending wake. */
module ClockController {
  import opened Wrappers
  import opened ArtificialClock

  class Controller {
    /** The shared clock (an `Arc` in the source). */
    const clock: Clock

    constructor (c: Clock)
      ensures clock == c
    {
      clock := c;
    }

    /** `advance`: the clock's own advance. In manual mode every sleep due by
        the new time is woken at a stop equal to its wake time, in time order. */
    method Advance(durationMs: nat) returns (woken: nat, ghost visited: seq<int>,
                                             ghost wokenEntries: seq<PendingWake>, ghost wokenAtMs: seq<int>)
      modifies clock
      ensures clock.mode == old(clock.mode)
      ensures old(clock.mode) != Manual ==> (woken == 0 && visited == [] && wokenEntries == [] &&
        clock.currentMs == old(clock.currentMs) && clock.pending == old(clock.pending))
      ensures old(clock.mode) == Manual ==> (
        clock.currentMs == old(clock.currentMs) + durationMs &&
        clock.pending == NotDue(old(clock.pending), old(clock.currentMs) + durationMs) &&
        woken == DueCount(old(clock.pending), old(clock.currentMs) + durationMs) &&
        multiset(wokenEntries) + multiset(clock.pending) == multiset(old(clock.pending)) &&
        forall w :: w in old(clock.pending) && w.wakeAtMs <= old(clock.currentMs) + durationMs ==>
          w.wakeAtMs in visited)
      ensures woken == |wokenEntries|
      ensures |wokenAtMs| == |wokenEntries| &&
        forall i :: 0 <= i < |wokenEntries| ==> wokenAtMs[i] == wokenEntries[i].wakeAtMs
      ensures forall i, j :: 0 <= i < j < |wokenEntries| ==> Le(wokenEntries[i], wokenEntries[j])
      ensures forall i :: 0 <= i < |visited| ==>
        visited[i] <= old(clock.currentMs) + durationMs && visited[i] in WakeTimes(old(clock.pending))
      ensures forall i, j :: 0 <= i < j < |visited| ==> visited[i] < visited[j]
    {
      woken, visited, wokenEntries, wokenAtMs := clock.Advance(durationMs);
    }

    method AdvanceToNextWake() returns (r: Option<int>)
      modifies clock
      ensures clock.mode == old(clock.mode)
      ensures r.None? <==> old(clock.mode) != Manual || old(clock.pending) == []
      ensures r.None? ==> clock.currentMs == old(clock.currentMs) && clock.pending == old(clock.pending)
      ensures r.Some? ==> (r == NextWake(old(clock.pending)) && clock.currentMs == r.value &&
        clock.pending == NotDue(old(clock.pending), r.value))
    {
      r := clock.AdvanceToNextWake();
    }

    /** `set_time`: the time jumps to `timeMs`, and every sleep due by then is
        woken, without stopping at the intermediate wake times. */
    method SetTime(timeMs: int)
      modifies clock
      ensures clock.mode == old(clock.mode) && clock.currentMs == timeMs
      ensures clock.pending == NotDue(old(clock.pending), timeMs)
    {
      clock.SetTime(timeMs);
      var _, _ := clock.WakeTasksAt(timeMs);
    }

    function PendingWakeCount(): (n: nat)
      reads this, clock
      ensures n == |clock.pending|
    {
      clock.PendingWakeCount()
    }

    function NowMs(utcNowMs: int, scaledElapsedMs: int): (r: int)
      reads this, clock
      ensures r == clock.NowMs(utcNowMs, scaledElapsedMs)
    {
      clock.NowMs(utcNowMs, scaledElapsedMs)
    }

    method TransitionToRealtime()
      modifies clock
      ensures clock.mode == Realtime && clock.pending == []
      ensures clock.currentMs == old(clock.currentMs)
    {
      clock.TransitionToRealtime();
    }

    predicate IsRealtime()
      reads this, clock
    {
      clock.IsRealtime()
    }

    method ClearPendingWakes()
      modifies clock
      ensures clock.pending == [] && PendingWakeCount() == 0
      ensures clock.mode == old(clock.mode) && clock.currentMs == old(clock.currentMs)
    {
      clock.ClearPendingWakes();
    }

    /** `reset_to`: the time set and nothing left pending, for test isolation. */
    method ResetTo(timeMs: int)
      modifies clock
      ensures clock.currentMs == timeMs && clock.pending == [] && PendingWakeCount() == 0
      ensures clock.mode == old(clock.mode)
    {
      clock.SetTime(timeMs);
      clock.ClearPendingWakes();
    }
  }
}
