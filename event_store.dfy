/** The event-store tables the generated repository writes, and the generated
    `persist_events`: the new events of an entity are inserted under
    consecutive sequence numbers after the persisted ones, a clash on the
    `(id, sequence)` key is a concurrent modification, and the events are
    marked persisted only once every row is in. */
module EventStore {
  import opened Wrappers
  import opened Events
  import opened EsErrors

  /** The primary key of the events table: entity id and sequence number. */
  type Key = (EntityId, int)

  /** `offset + idx + 1`: the sequence number of the `idx`-th (from 0) new event. */
  function Sequence(offset: nat, idx: nat): (s: int)
    ensures s > offset
  {
    offset + idx + 1
  }

  /** The events table after inserting `evs` for `id` from sequence `offset + 1` on. */
  function AppendRows(events: map<Key, string>, id: EntityId, offset: nat, evs: seq<string>): map<Key, string>
  {
    if evs == [] then events
    else AppendRows(events, id, offset, evs[..|evs| - 1])[(id, Sequence(offset, |evs| - 1)) := evs[|evs| - 1]]
  }

  /** The inserted rows hold the events in order under `offset + 1 ..
      offset + |evs|`; every other row is as it was. */
  lemma {:induction false} AppendRowsContents(events: map<Key, string>, id: EntityId, offset: nat, evs: seq<string>)
    ensures var r := AppendRows(events, id, offset, evs);
      (forall k :: 0 <= k < |evs| ==> (id, Sequence(offset, k)) in r && r[(id, Sequence(offset, k))] == evs[k]) &&
      (forall key :: key in r <==> key in events || (key.0 == id && offset < key.1 <= offset + |evs|)) &&
      (forall key :: key in events && !(key.0 == id && offset < key.1 <= offset + |evs|) ==> r[key] == events[key])
  {
    if evs != [] {
      AppendRowsContents(events, id, offset, evs[..|evs| - 1]);
    }
  }

  /** Some new row's key is already taken. */
  predicate Conflicts(events: map<Key, string>, id: EntityId, offset: nat, n: nat)
  {
    exists k :: 0 <= k < n && (id, Sequence(offset, k)) in events
  }

  /** The table holds exactly the persisted events of the entity, under
      sequences `1 .. len_persisted`. */
  predicate Current(events: map<Key, string>, ev: EntityEvents<string>)
  {
    (forall k :: 0 <= k < |ev.persisted| ==>
      (ev.entityId, Sequence(0, k)) in events && events[(ev.entityId, Sequence(0, k))] == ev.persisted[k]) &&
    (forall key :: key in events && key.0 == ev.entityId ==> 1 <= key.1 <= |ev.persisted|)
  }

  /** An entity that is current has no conflict, and persisting its new events
      leaves it current. */
  lemma PersistKeepsCurrent(events: map<Key, string>, ev: EntityEvents<string>)
    requires Current(events, ev)
    ensures !Conflicts(events, ev.entityId, |ev.persisted|, |ev.newEvents|)
    ensures Current(AppendRows(events, ev.entityId, |ev.persisted|, ev.newEvents), ev.MarkPersisted())
  {
    var id := ev.entityId;
    var r := AppendRows(events, id, |ev.persisted|, ev.newEvents);
    AppendRowsContents(events, id, |ev.persisted|, ev.newEvents);
    var m := ev.MarkPersisted();
    assert m.entityId == id && m.persisted == ev.persisted + ev.newEvents;
    forall k | 0 <= k < |m.persisted|
      ensures (id, Sequence(0, k)) in r && r[(id, Sequence(0, k))] == m.persisted[k]
    {
      if k >= |ev.persisted| {
        assert Sequence(|ev.persisted|, k - |ev.persisted|) == Sequence(0, k);
        assert m.persisted[k] == ev.newEvents[k - |ev.persisted|];
      } else {
        assert m.persisted[k] == ev.persisted[k];
      }
    }
    forall k | 0 <= k < |ev.newEvents|
      ensures (id, Sequence(|ev.persisted|, k)) !in events
    {
      var key := (id, Sequence(|ev.persisted|, k));
      assert key.0 == id && key.1 > |ev.persisted|;
    }
    assert !Conflicts(events, id, |ev.persisted|, |ev.newEvents|);
    forall key | key in r && key.0 == m.entityId
      ensures 1 <= key.1 <= |m.persisted|
    {
      if key in events {
        assert 1 <= key.1 <= |ev.persisted|;
      }
    }

  }

  /** Optimistic concurrency: a copy of the entity loaded before some other
      writer persisted more events clashes on its first new event. */
  lemma StaleCopyConflicts(events: map<Key, string>, current: EntityEvents<string>, stale: EntityEvents<string>)
    requires Current(events, current)
    requires stale.entityId == current.entityId && |stale.persisted| < |current.persisted|
    requires stale.newEvents != []
    ensures Conflicts(events, stale.entityId, |stale.persisted|, |stale.newEvents|)
  {
    assert Sequence(0, |stale.persisted|) == Sequence(|stale.persisted|, 0);
    assert (stale.entityId, Sequence(|stale.persisted|, 0)) in events;
  }

  /** `extract_concurrent_modification` on the outcome of the COPY. */
  function ExtractConcurrentModification<T>(res: Result<T, DbError>): (r: Result<T, EsRepoPersistError>)
    ensures res.Ok? <==> r.Ok?
    ensures res.Ok? ==> r.value == res.value
    ensures res.Err? ==> (r.error == PersistConcurrentModification <==> res.error.UniqueViolation?)
    ensures res.Err? && !res.error.UniqueViolation? ==> r.error == PersistSqlx(res.error)
  {
    match res
    case Ok(v) => Ok(v)
    case Err(UniqueViolation(c)) => Err(PersistConcurrentModification)
    case Err(e) => Err(PersistSqlx(e))
  }

  /** The open transaction (`AtomicOperation`): its view of the index table
      and the events table. `outage` stands for a connection that fails every
      statement with that database error code. */
  class Op {
    var index: map<EntityId, IndexRow>
    var events: map<Key, string>
    const outage: Option<int>

    constructor (index0: map<EntityId, IndexRow>, events0: map<Key, string>, outage: Option<int>)
      ensures index == index0 && events == events0 && this.outage == outage
    {
      index := index0;
      events := events0;
      this.outage := outage;
    }

    /** Buffers the COPY rows of `evs` for `id` from `offset + 1` on, noting
        whether any key is already taken in `staged` or by an earlier row. */
    static method StageRows(staged0: map<Key, string>, id: EntityId, offset: nat, evs: seq<string>)
      returns (staged: map<Key, string>, clash: bool)
      ensures staged == AppendRows(staged0, id, offset, evs)
      ensures clash == Conflicts(staged0, id, offset, |evs|)
    {
      staged := staged0;
      clash := false;
      var idx := 0;
      while idx < |evs|
        invariant 0 <= idx <= |evs|
        invariant staged == AppendRows(staged0, id, offset, evs[..idx])
        invariant clash == Conflicts(staged0, id, offset, idx)
      {
        AppendRowsContents(staged0, id, offset, evs[..idx]);
        var key := (id, Sequence(offset, idx));
        if key in staged {
          clash := true;
        }
        assert evs[..idx + 1][..idx] == evs[..idx];
        staged := staged[key := evs[idx]];
        idx := idx + 1;
      }
      assert evs[..|evs|] == evs;
    }

    /** `persist_events`. */
    method PersistEvents(ev: EntityEvents<string>) returns (r: Result<nat, EsRepoPersistError>, ev': EntityEvents<string>)
      modifies this
      ensures index == old(index)
      ensures !ev.AnyNew() ==> r == Ok(0) && ev' == ev && events == old(events)
      ensures ev.AnyNew() && outage.Some? ==>
        r == Err(PersistSqlx(OtherDbError(outage.value))) && ev' == ev && events == old(events)
      ensures ev.AnyNew() && outage.None? && Conflicts(old(events), ev.entityId, |ev.persisted|, |ev.newEvents|) ==>
        r == Err(PersistConcurrentModification) && ev' == ev && events == old(events)
      ensures ev.AnyNew() && outage.None? && !Conflicts(old(events), ev.entityId, |ev.persisted|, |ev.newEvents|) ==>
        r == Ok(|ev.newEvents|) && ev' == ev.MarkPersisted() &&
        events == AppendRows(old(events), ev.entityId, |ev.persisted|, ev.newEvents)
    {
      if !ev.AnyNew() {
        return Ok(0), ev;
      }
      if outage.Some? {
        return Err(PersistSqlx(OtherDbError(outage.value))), ev;
      }
      var staged, clash := StageRows(events, ev.entityId, ev.LenPersisted(), ev.newEvents);
      var copied := if clash then Err(UniqueViolation("events_pkey")) else Ok(|ev.newEvents|);
      var res := ExtractConcurrentModification(copied);
      if res.Err? {
        return Err(res.error), ev;
      }
      events := staged;
      ev' := ev.MarkPersisted();
      r := Ok(|ev.newEvents|);
    }
  }

  /** A row of the entity's index table: its column values and the soft-delete flag. */
  datatype IndexRow = IndexRow(values: map<string, string>, deleted: bool)
}
