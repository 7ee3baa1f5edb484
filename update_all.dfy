/** The generated `update_all`: the new events of a whole batch of entities
    are written by one INSERT, after one bulk UPDATE of their index rows. */
module BulkUpdate {
  import opened Wrappers
  import opened Events
  import opened EsErrors
  import opened RepoColumns
  import opened RepoErrors
  import opened EventStore
  import opened RepoWrites

  /** Some entity of the batch has new events. */
  predicate AnyNewIn(es: seq<EntityState>)
  {
    exists i :: 0 <= i < |es| && es[i].events.AnyNew()
  }

  /** The events table after inserting every entity's new events, each from
      its own `len_persisted + 1` on. */
  function AppendAll(events: map<Key, string>, es: seq<EntityState>): map<Key, string>
  {
    if es == [] then events
    else
      var last := es[|es| - 1].events;
      AppendRows(AppendAll(events, es[..|es| - 1]), last.entityId, |last.persisted|, last.newEvents)
  }

  /** Some row of the batch clashes with the table or with an earlier row of the batch. */
  predicate BatchConflicts(events: map<Key, string>, es: seq<EntityState>)
  {
    if es == [] then false
    else
      var last := es[|es| - 1].events;
      BatchConflicts(events, es[..|es| - 1]) ||
      Conflicts(AppendAll(events, es[..|es| - 1]), last.entityId, |last.persisted|, |last.newEvents|)
  }

  /** The number of new events in the batch. */
  function TotalNew(es: seq<EntityState>): nat
  {
    if es == [] then 0 else TotalNew(es[..|es| - 1]) + |es[|es| - 1].events.newEvents|
  }

  /** The columns the bulk UPDATE sets. */
  function BulkNames(cfg: RepoConfig): seq<string>
  {
    Names(BulkSetColumns(cfg.columns))
  }

  /** The bulk UPDATE: the index row of every entity with new events, in batch order. */
  function BulkIndexUpdate(index: map<EntityId, IndexRow>, es: seq<EntityState>, names: seq<string>): (r: map<EntityId, IndexRow>)
    ensures r.Keys == index.Keys
  {
    if es == [] then index
    else
      var front := BulkIndexUpdate(index, es[..|es| - 1], names);
      var last := es[|es| - 1];
      if last.events.AnyNew() then UpdateRow(front, last.events.entityId, Project(last.values, names), false) else front
  }

  /** The unique key the bulk UPDATE violates, if any: the table it leaves
      has two rows sharing a value in a unique column. */
  function BulkClash(cfg: RepoConfig, index: map<EntityId, IndexRow>, es: seq<EntityState>): Option<string>
  {
    if UpdatesNeeded(cfg.columns) then
      match FirstDuplicated(BulkIndexUpdate(index, es, BulkNames(cfg)), cfg.uniqueCols)
      case Some(c) => Some(cfg.table + "_" + c + "_key")
      case None => None
    else None
  }

  /** Every entity's new events marked persisted. */
  function MarkAll(es: seq<EntityState>): (r: seq<EntityState>)
    ensures |r| == |es|
    ensures forall i :: 0 <= i < |es| ==> r[i] == EntityState(es[i].events.MarkPersisted(), es[i].values)
  {
    if es == [] then [] else MarkAll(es[..|es| - 1]) + [EntityState(es[|es| - 1].events.MarkPersisted(), es[|es| - 1].values)]
  }

  /** Entities without new events add no rows. */
  lemma {:induction false} AppendAllWithoutNew(events: map<Key, string>, es: seq<EntityState>)
    requires !AnyNewIn(es)
    ensures AppendAll(events, es) == events && !BatchConflicts(events, es) && TotalNew(es) == 0
  {
    if es != [] {
      var front := es[..|es| - 1];
      assert !AnyNewIn(front) by {
        forall i | 0 <= i < |front| ensures !front[i].events.AnyNew() {
          assert front[i] == es[i];
        }
      }
      AppendAllWithoutNew(events, front);
      assert !es[|es| - 1].events.AnyNew();
    }
  }

  /** A batch of distinct entities that are all current has no clash, and
      afterwards each entity, marked persisted, is current. */
  lemma {:induction false} BatchKeepsCurrent(events: map<Key, string>, es: seq<EntityState>)
    requires forall i :: 0 <= i < |es| ==> Current(events, es[i].events)
    requires forall i, j :: 0 <= i < j < |es| ==> es[i].events.entityId != es[j].events.entityId
    ensures !BatchConflicts(events, es)
    ensures forall i :: 0 <= i < |es| ==> Current(AppendAll(events, es), es[i].events.MarkPersisted())
  {
    if es != [] {
      var front := es[..|es| - 1];
      var last := es[|es| - 1].events;
      assert forall i :: 0 <= i < |front| ==> front[i] == es[i];
      BatchKeepsCurrent(events, front);
      var mid := AppendAll(events, front);
      OthersUntouched(events, front, last.entityId);
      CurrentTransfers(events, mid, last);
      PersistKeepsCurrent(mid, last);
      var r := AppendAll(events, es);
      AppendRowsContents(mid, last.entityId, |last.persisted|, last.newEvents);
      forall i | 0 <= i < |es| - 1
        ensures Current(r, es[i].events.MarkPersisted())
      {
        CurrentTransfers(mid, r, es[i].events.MarkPersisted());
      }
    }
  }

  /** Whether an entity is current depends only on the rows with its id. */
  lemma CurrentTransfers(a: map<Key, string>, b: map<Key, string>, ev: EntityEvents<string>)
    requires Current(a, ev)
    requires forall key: Key :: key.0 == ev.entityId ==> (key in a <==> key in b)
    requires forall key: Key :: key.0 == ev.entityId && key in a ==> a[key] == b[key]
    ensures Current(b, ev)
  {
    forall k | 0 <= k < |ev.persisted|
      ensures (ev.entityId, Sequence(0, k)) in b && b[(ev.entityId, Sequence(0, k))] == ev.persisted[k]
    {
      var key := (ev.entityId, Sequence(0, k));
      assert key.0 == ev.entityId && key in a;
    }
    forall key: Key | key in b && key.0 == ev.entityId
      ensures 1 <= key.1 <= |ev.persisted|
    {
      assert key in a;
    }
  }

  /** The rows of an entity that is not in the batch are not touched. */
  lemma {:induction false} OthersUntouched(events: map<Key, string>, es: seq<EntityState>, id: EntityId)
    requires forall i :: 0 <= i < |es| ==> es[i].events.entityId != id
    ensures forall key: Key :: key.0 == id ==> (key in AppendAll(events, es) <==> key in events)
    ensures forall key: Key :: key.0 == id && key in events ==> AppendAll(events, es)[key] == events[key]
  {
    if es != [] {
      var front := es[..|es| - 1];
      var last := es[|es| - 1].events;
      assert forall i :: 0 <= i < |front| ==> front[i] == es[i];
      OthersUntouched(events, front, id);
      AppendRowsContents(AppendAll(events, front), last.entityId, |last.persisted|, last.newEvents);
    }
  }
  /** `update_all_in_op`. */
  method UpdateAllInOp(cfg: RepoConfig, op: Op, es: seq<EntityState>, nested: Option<ModifyError>)
    returns (r: Result<nat, ModifyError>, es': seq<EntityState>)
    modifies op
    ensures es == [] ==> r == Ok(0) && es' == es && op.index == old(op.index) && op.events == old(op.events)
    ensures es != [] && nested.Some? ==>
      r == Err(nested.value) && es' == es && op.index == old(op.index) && op.events == old(op.events)
    ensures es != [] && nested.None? && !AnyNewIn(es) ==>
      r == Ok(0) && es' == es && op.index == old(op.index) && op.events == old(op.events)
    ensures (es != [] && nested.None? && AnyNewIn(es) && op.outage.Some?) ==>
      r == Err(ModifySqlx(OtherDbError(op.outage.value))) && es' == es &&
      op.index == old(op.index) && op.events == old(op.events)
    ensures (es != [] && nested.None? && AnyNewIn(es) && op.outage.None? && BulkClash(cfg, old(op.index), es).Some?) ==>
      r == Err(ModifySqlx(UniqueViolation(BulkClash(cfg, old(op.index), es).value))) && es' == es &&
      op.index == old(op.index) && op.events == old(op.events)
    ensures (es != [] && nested.None? && AnyNewIn(es) && op.outage.None? && BulkClash(cfg, old(op.index), es).None?) ==>
      op.index == (if UpdatesNeeded(cfg.columns) then BulkIndexUpdate(old(op.index), es, BulkNames(cfg)) else old(op.index))
    ensures (es != [] && nested.None? && AnyNewIn(es) && op.outage.None? && BulkClash(cfg, old(op.index), es).None? &&
             BatchConflicts(old(op.events), es)) ==>
      r == Err(ModifyConcurrentModification) && es' == es && op.events == old(op.events)
    ensures (es != [] && nested.None? && AnyNewIn(es) && op.outage.None? && BulkClash(cfg, old(op.index), es).None? &&
             !BatchConflicts(old(op.events), es)) ==>
      r == Ok(TotalNew(es)) && es' == MarkAll(es) && op.events == AppendAll(old(op.events), es)
    ensures Unique(old(op.index), cfg.uniqueCols) ==> Unique(op.index, cfg.uniqueCols)
  {
    if |es| == 0 {
      return Ok(0), es;
    }
    if nested.Some? {
      return Err(nested.value), es;
    }
    var staged, clash, anyNew := StageBatch(op.events, es);
    if !anyNew {
      return Ok(0), es;
    }
    if UpdatesNeeded(cfg.columns) {
      if op.outage.Some? {
        return Err(ModifySqlx(OtherDbError(op.outage.value))), es;
      }
      var updated := BulkIndexUpdate(op.index, es, BulkNames(cfg));
      var duplicated := FirstDuplicated(updated, cfg.uniqueCols);
      if duplicated.Some? {
        return Err(ModifySqlx(UniqueViolation(cfg.table + "_" + duplicated.value + "_key"))), es;
      }
      op.index := updated;
    }
    if op.outage.Some? {
      return Err(ModifySqlx(OtherDbError(op.outage.value))), es;
    }
    var res := ExtractConcurrentModification(if clash then Err(UniqueViolation("events_pkey")) else Ok(()));
    if res.Err? {
      return Err(PersistToModify(res.error)), es;
    }
    op.events := staged;
    var total;
    es', total := MarkBatch(es);
    r := Ok(total);
  }

  /** The loop of `update_all_in_op` that collects the rows of every entity
      with new events, skipping the others. */
  method StageBatch(events: map<Key, string>, es: seq<EntityState>)
    returns (staged: map<Key, string>, clash: bool, anyNew: bool)
    ensures staged == AppendAll(events, es)
    ensures clash == BatchConflicts(events, es)
    ensures anyNew == AnyNewIn(es)
  {
    staged, clash, anyNew := events, false, false;
    var i := 0;
    while i < |es|
      invariant 0 <= i <= |es|
      invariant staged == AppendAll(events, es[..i])
      invariant clash == BatchConflicts(events, es[..i])
      invariant anyNew == AnyNewIn(es[..i])
    {
      assert es[..i + 1][..i] == es[..i];
      var ev := es[i].events;
      if ev.AnyNew() {
        var s2, c2 := Op.StageRows(staged, ev.entityId, ev.LenPersisted(), ev.newEvents);
        staged, clash, anyNew := s2, clash || c2, true;
        assert es[..i + 1][i].events.AnyNew();
      } else {
        assert AnyNewIn(es[..i + 1]) ==> AnyNewIn(es[..i]) by {
          if AnyNewIn(es[..i + 1]) {
            var j :| 0 <= j < i + 1 && es[..i + 1][j].events.AnyNew();
            assert j < i && es[..i + 1][j] == es[..i][j];
          }
        }
      }
      i := i + 1;
    }
    assert es[..|es|] == es;
  }

  /** The final loop of `update_all_in_op`: marks every entity's new events
      persisted and adds up how many there were. */
  method MarkBatch(es: seq<EntityState>) returns (marked: seq<EntityState>, total: nat)
    ensures marked == MarkAll(es) && total == TotalNew(es)
  {
    marked := [];
    total := 0;
    var i := 0;
    while i < |es|
      invariant 0 <= i <= |es|
      invariant marked == MarkAll(es[..i]) && total == TotalNew(es[..i])
    {
      assert es[..i + 1][..i] == es[..i];
      var n := |es[i].events.newEvents|;
      marked := marked + [EntityState(es[i].events.MarkPersisted(), es[i].values)];
      if n > 0 {
        total := total + n;
      }
      i := i + 1;
    }
    assert es[..|es|] == es;
  }
}
