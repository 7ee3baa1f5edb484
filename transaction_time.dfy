/** `TransactionTime`: the authoritative time of one database transaction,
    with the local clock's reading at the moment it was taken, so that later
    sleeps can allow for the drift between the two clocks. Times are instants
    in milliseconds; durations are non-negative milliseconds. */
module TransactionTimes {
  import opened Wrappers

  /** The clock a transaction time is read from, with its current reading. */
  datatype ClockReading = Simulated(simNow: int) | Realtime(localNow: int)

  datatype TransactionTime = TransactionTime(dbTime: int, localAt: int)

  /** `new` (and `begin_transaction_time`): a simulated clock supplies its own
      time and skips the database; otherwise the local reading is taken and
      `dbNow` is the outcome of `SELECT NOW()`. */
  function New<E>(clock: ClockReading, dbNow: Result<int, E>): (r: Result<TransactionTime, E>)
    ensures clock.Simulated? ==> r == Ok(TransactionTime(clock.simNow, clock.simNow))
    ensures clock.Realtime? && dbNow.Ok? ==> r == Ok(TransactionTime(dbNow.value, clock.localNow))
    ensures r.Err? <==> clock.Realtime? && dbNow.Err?
    ensures r.Err? ==> r.error == dbNow.error
  {
    match clock
    case Simulated(t) => Ok(TransactionTime(t, t))
    case Realtime(t) =>
      match dbNow
      case Ok(db) => Ok(TransactionTime(db, t))
      case Err(e) => Err(e)
  }

  /** `from_clock`: the clock's reading on both sides. */
  function FromClock(clockNow: int): (tt: TransactionTime)
    ensures Now(tt) == clockNow && Drift(tt) == 0
  {
    TransactionTime(clockNow, clockNow)
  }

  /** `from_time`: a given authoritative time against the clock's reading. */
  function FromTime(clockNow: int, time: int): (tt: TransactionTime)
    ensures Now(tt) == time && Drift(tt) == time - clockNow
  {
    TransactionTime(time, clockNow)
  }

  /** `now`: the database's time, whatever the local clock says. */
  function Now(tt: TransactionTime): (r: int)
    ensures r == tt.dbTime
  {
    tt.dbTime
  }

  /** `drift`: positive when the local clock is behind the database. */
  function Drift(tt: TransactionTime): (r: int)
    ensures tt.localAt + r == Now(tt)
    ensures r > 0 <==> tt.localAt < Now(tt)
  {
    tt.dbTime - tt.localAt
  }

  /** `elapsed`: clock time since the local reading was taken. */
  function Elapsed(tt: TransactionTime, clockNow: int): (e: int)
    ensures tt.localAt + e == clockNow
  {
    clockNow - tt.localAt
  }

  /** `Duration::saturating_sub` */
  function SaturatingSub(a: nat, b: nat): (r: nat)
    ensures a >= b ==> r + b == a
    ensures a < b ==> r == 0
  {
    if a >= b then a - b else 0
  }

  /** `sleep`'s adjusted duration: less the drift when the local clock is
      behind (never below zero), plus the drift's size when it is ahead. */
  function SleepDuration(tt: TransactionTime, duration: nat): (r: nat)
    ensures Drift(tt) > 0 ==> r + Drift(tt) >= duration && (r > 0 ==> r + Drift(tt) == duration)
    ensures Drift(tt) <= 0 ==> r == duration - Drift(tt)
  {
    var driftMs := Drift(tt);
    if driftMs > 0 then SaturatingSub(duration, driftMs)
    else duration + (-driftMs)
  }

  /** Both branches of the adjustment are one rule: the duration less the
      drift, cut off at zero. */
  lemma SleepSubtractsDrift(tt: TransactionTime, duration: nat)
    ensures SleepDuration(tt, duration) == if duration - Drift(tt) > 0 then duration - Drift(tt) else 0
  {
  }

  /** A longer requested sleep is never adjusted to a shorter one. */
  lemma SleepMonotone(tt: TransactionTime, d1: nat, d2: nat)
    requires d1 <= d2
    ensures SleepDuration(tt, d1) <= SleepDuration(tt, d2)
  {
    SleepSubtractsDrift(tt, d1);
    SleepSubtractsDrift(tt, d2);
  }

  /** With a simulated clock, or a transaction time taken from the clock, there
      is no drift and sleeps are not adjusted. */
  lemma NoDriftNoAdjustment<E>(simNow: int, clockNow: int, dbNow: Result<int, E>, duration: nat)
    ensures Drift(New(Simulated(simNow), dbNow).value) == 0
    ensures SleepDuration(New(Simulated(simNow), dbNow).value, duration) == duration
    ensures SleepDuration(FromClock(clockNow), duration) == duration
  {
  }
}
