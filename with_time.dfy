/** `OpWithTime`: an atomic operation wrapped together with the one time all
    its writes use. Times are instants in milliseconds. */
module OperationTime {
  import opened Wrappers

  /** What the wrapped operation offers: its cached time (`maybe_now`), the
      time of its clock when that clock is an artificial one still in manual
      mode (`artificial_now`), and its clock's current reading. */
  datatype Operation = Operation(maybeNow: Option<int>, artificialNow: Option<int>, clockNow: int)

  /** The wrapper: the inner operation and the chosen time. */
  datatype OpWithTime = OpWithTime(inner: Operation, now: int)

  /** `cached_or_db_time` has to ask the database (`SELECT NOW()`) only when
      neither a cached nor an artificial time is available. */
  predicate QueriesDb(op: Operation)
  {
    op.maybeNow.None? && op.artificialNow.None?
  }

  /** `cached_or_db_time`: cached time first, then artificial time, then the
      database's time; `dbNow` is the outcome of the query, used only when the
      query is made. */
  function CachedOrDbTime<E>(op: Operation, dbNow: Result<int, E>): (r: Result<OpWithTime, E>)
    ensures r.Ok? ==> r.value.inner == op
    ensures op.maybeNow.Some? ==> r == Ok(OpWithTime(op, op.maybeNow.value))
    ensures op.maybeNow.None? && op.artificialNow.Some? ==> r == Ok(OpWithTime(op, op.artificialNow.value))
    ensures QueriesDb(op) && dbNow.Ok? ==> r == Ok(OpWithTime(op, dbNow.value))
    ensures r.Err? <==> QueriesDb(op) && dbNow.Err?
    ensures r.Err? ==> r.error == dbNow.error
  {
    if op.maybeNow.Some? then Ok(OpWithTime(op, op.maybeNow.value))
    else if op.artificialNow.Some? then Ok(OpWithTime(op, op.artificialNow.value))
    else match dbNow
      case Ok(t) => Ok(OpWithTime(op, t))
      case Err(e) => Err(e)
  }

  /** `cached_or_time`: the cached time, else the given one. */
  function CachedOrTime(op: Operation, time: int): (w: OpWithTime)
    ensures w.inner == op
    ensures op.maybeNow.Some? ==> w.now == op.maybeNow.value
    ensures op.maybeNow.None? ==> w.now == time
  {
    OpWithTime(op, if op.maybeNow.Some? then op.maybeNow.value else time)
  }

  /** `cached_or_clock_time`: the cached time, else the clock's reading. */
  function CachedOrClockTime(op: Operation): (w: OpWithTime)
    ensures w.inner == op
    ensures op.maybeNow.Some? ==> w.now == op.maybeNow.value
    ensures op.maybeNow.None? ==> w.now == op.clockNow
  {
    OpWithTime(op, if op.maybeNow.Some? then op.maybeNow.value else op.clockNow)
  }

  /** The wrapper seen as an operation: `maybe_now` is always `Some` of the
      chosen time, and the clock is the inner operation's. */
  function AsOperation(w: OpWithTime): (op: Operation)
    ensures op.maybeNow == Some(w.now)
    ensures op.artificialNow == w.inner.artificialNow && op.clockNow == w.inner.clockNow
  {
    Operation(Some(w.now), w.inner.artificialNow, w.inner.clockNow)
  }

  /** Wrapping a wrapper again never changes the time, whichever constructor is
      used, and never queries the database. */
  lemma RewrapKeepsTime<E>(w: OpWithTime, time: int, dbNow: Result<int, E>)
    ensures CachedOrTime(AsOperation(w), time).now == w.now
    ensures CachedOrClockTime(AsOperation(w)).now == w.now
    ensures !QueriesDb(AsOperation(w))
    ensures CachedOrDbTime(AsOperation(w), dbNow) == Ok(OpWithTime(AsOperation(w), w.now))
  {
  }

  /** The three constructors agree whenever a time is cached. */
  lemma CachedTimeWins<E>(op: Operation, time: int, dbNow: Result<int, E>)
    requires op.maybeNow.Some?
    ensures CachedOrTime(op, time) == CachedOrClockTime(op)
    ensures CachedOrDbTime(op, dbNow) == Ok(CachedOrClockTime(op))
  {
  }
}
