/** The generated nested-repository helpers: creating an aggregate's new
    children, updating its persisted ones, and the parent lookup that
    populates children on load. */
module NestedOps {
  import opened Wrappers
  import opened Events
  import opened NestedContainer

  /** The child arena after the update loop has visited `order` (a listing of
      the arena's ids, as the map's iteration yields them), and the first error
      met, if any. The loop updates in place, so children visited before an
      error keep their new state. */
  function UpdateChildren<T, E>(m: map<EntityId, T>, order: seq<EntityId>, update: T -> Result<T, E>)
    : (map<EntityId, T>, Option<E>)
  {
    if order == [] then (m, None)
    else
      var (m', err) := UpdateChildren(m, order[..|order| - 1], update);
      var id := order[|order| - 1];
      if err.Some? || id !in m' then (m', err)
      else match update(m'[id])
        case Ok(t) => (m'[id := t], None)
        case Err(e) => (m', Some(e))
  }

  predicate Distinct(s: seq<EntityId>)
  {
    forall i, j :: 0 <= i < j < |s| ==> s[i] != s[j]
  }

  /** The update loop over distinct ids of the arena: it fails exactly when some
      child's update fails, with the error of the first such child; when it
      does not fail, every visited child holds its updated state and every
      other child is untouched. */
  lemma {:induction false} UpdateChildrenSpec<T, E>(m: map<EntityId, T>, order: seq<EntityId>, update: T -> Result<T, E>)
    requires Distinct(order)
    requires forall i :: 0 <= i < |order| ==> order[i] in m
    ensures UpdateChildren(m, order, update).0.Keys == m.Keys
    ensures UpdateChildren(m, order, update).1.None? <==>
      forall i :: 0 <= i < |order| ==> update(m[order[i]]).Ok?
    ensures UpdateChildren(m, order, update).1.Some? ==>
      exists i :: 0 <= i < |order| && update(m[order[i]]) == Err(UpdateChildren(m, order, update).1.value) &&
        forall j :: 0 <= j < i ==> update(m[order[j]]).Ok?
    ensures UpdateChildren(m, order, update).1.None? ==>
      (forall i :: 0 <= i < |order| ==> UpdateChildren(m, order, update).0[order[i]] == update(m[order[i]]).value) &&
      (forall id :: id in m && id !in order ==> UpdateChildren(m, order, update).0[id] == m[id])
  {
    if order != [] {
      var init := order[..|order| - 1];
      var id := order[|order| - 1];
      assert forall i :: 0 <= i < |init| ==> init[i] == order[i];
      UpdateChildrenSpec(m, init, update);
      var (m', err) := UpdateChildren(m, init, update);
      assert id !in init;
      if err.None? {
        assert m'[id] == m[id];
      } else {
        var i :| 0 <= i < |init| && update(m[init[i]]) == Err(err.value) &&
          forall j :: 0 <= j < i ==> update(m[init[j]]).Ok?;
        assert update(m[order[i]]) == Err(err.value);
      }
    }
  }

  /** `create_nested_<field>_in_op`: with no new children there is nothing to
      do; otherwise the new children are drained, the `create_all_in_op` of the
      child repository runs on them (`createAll`), and on success the created
      children join the persisted ones. The new list stays empty on error. */
  method CreateNested<N, T, E>(nested: Nested<N, T>, createAll: seq<N> -> Result<seq<T>, E>, idOf: T -> EntityId)
    returns (r: Result<(), E>)
    modifies nested
    ensures nested.newEntities == []
    ensures old(nested.newEntities) == [] ==> r == Ok(()) && nested.entities == old(nested.entities)
    ensures old(nested.newEntities) != [] && createAll(old(nested.newEntities)).Err? ==>
      r == Err(createAll(old(nested.newEntities)).error) && nested.entities == old(nested.entities)
    ensures old(nested.newEntities) != [] && createAll(old(nested.newEntities)).Ok? ==>
      r == Ok(()) && nested.entities == LoadAll(old(nested.entities), createAll(old(nested.newEntities)).value, idOf)
  {
    if nested.newEntities == [] {
      return Ok(());
    }
    var drained := nested.DrainNew();
    var created := createAll(drained);
    if created.Err? {
      return Err(created.error);
    }
    nested.Load(created.value, idOf);
    r := Ok(());
  }

  /** `update_nested_<field>_in_op`: `update_in_op` of the child repository
      (`update`) on every persisted child; the first error is returned at once,
      otherwise the new children are created. `order` is the listing of the
      persisted ids the map's iteration visits. */
  method UpdateNested<N, T, E>(nested: Nested<N, T>, order: seq<EntityId>, update: T -> Result<T, E>,
                               createAll: seq<N> -> Result<seq<T>, E>, idOf: T -> EntityId)
    returns (r: Result<(), E>)
    requires Distinct(order)
    requires forall i :: 0 <= i < |order| ==> order[i] in nested.entities
    requires forall id :: id in nested.entities ==> id in order
    modifies nested
    ensures UpdateChildren(old(nested.entities), order, update).1.Some? ==>
      r == Err(UpdateChildren(old(nested.entities), order, update).1.value) &&
      nested.entities == UpdateChildren(old(nested.entities), order, update).0 &&
      nested.newEntities == old(nested.newEntities)
    ensures UpdateChildren(old(nested.entities), order, update).1.None? && old(nested.newEntities) == [] ==>
      r == Ok(()) && nested.entities == UpdateChildren(old(nested.entities), order, update).0 &&
      nested.newEntities == []
    ensures UpdateChildren(old(nested.entities), order, update).1.None? && old(nested.newEntities) != [] ==>
      nested.newEntities == [] &&
      (createAll(old(nested.newEntities)).Err? ==>
        r == Err(createAll(old(nested.newEntities)).error) &&
        nested.entities == UpdateChildren(old(nested.entities), order, update).0) &&
      (createAll(old(nested.newEntities)).Ok? ==>
        r == Ok(()) &&
        nested.entities == LoadAll(UpdateChildren(old(nested.entities), order, update).0,
                                   createAll(old(nested.newEntities)).value, idOf))
  {
    var i := 0;
    while i < |order|
      invariant 0 <= i <= |order|
      invariant UpdateChildren(old(nested.entities), order[..i], update).1.None?
      invariant nested.entities == UpdateChildren(old(nested.entities), order[..i], update).0
      invariant nested.newEntities == old(nested.newEntities)
    {
      assert order[..i + 1][..i] == order[..i];
      UpdateChildrenSpec(old(nested.entities), order[..i], update);
      var id := order[i];
      var updated := update(nested.entities[id]);
      if updated.Err? {
        assert UpdateChildren(old(nested.entities), order[..i + 1], update).1 == Some(updated.error);
        UpdateChildrenStops(old(nested.entities), order, i + 1, update);
        return Err(updated.error);
      }
      nested.SetPersisted(id, updated.value);
      i := i + 1;
    }
    assert order[..|order|] == order;
    r := CreateNested(nested, createAll, idOf);
  }

  /** Once the loop has met an error, later ids change nothing. */
  lemma {:induction false} UpdateChildrenStops<T, E>(m: map<EntityId, T>, order: seq<EntityId>, n: nat, update: T -> Result<T, E>)
    requires n <= |order|
    requires UpdateChildren(m, order[..n], update).1.Some?
    ensures UpdateChildren(m, order, update) == UpdateChildren(m, order[..n], update)
  {
    if n < |order| {
      assert order[..|order|][..|order| - 1] == order[..|order| - 1];
      assert order[..|order| - 1][..n] == order[..n];
      UpdateChildrenStops(m, order[..|order| - 1], n, update);
    } else {
      assert order[..n] == order;
    }
  }

  /** `find_nested_<field>_in_op`'s lookup: parent entity id to the position of
      that parent, collected into a map so that a later parent with the same id
      replaces an earlier one. */
  function ParentLookup(ids: seq<EntityId>): (lookup: map<EntityId, nat>)
    ensures lookup.Keys == set i | 0 <= i < |ids| :: ids[i]
    ensures forall id :: id in lookup ==>
      lookup[id] < |ids| && ids[lookup[id]] == id &&
      forall j :: lookup[id] < j < |ids| ==> ids[j] != id
  {
    if ids == [] then map[]
    else
      var init := ids[..|ids| - 1];
      assert forall i :: 0 <= i < |init| ==> init[i] == ids[i];
      ParentLookup(init)[ids[|ids| - 1] := |ids| - 1]
  }

  /** With distinct parent ids every parent is reachable from the lookup. */
  lemma ParentLookupReachesAll(ids: seq<EntityId>)
    requires Distinct(ids)
    ensures forall i :: 0 <= i < |ids| ==> ids[i] in ParentLookup(ids) && ParentLookup(ids)[ids[i]] == i
  {
    forall i | 0 <= i < |ids|
      ensures ids[i] in ParentLookup(ids) && ParentLookup(ids)[ids[i]] == i
    {
      var k := ParentLookup(ids)[ids[i]];
      assert ids[k] == ids[i];
    }
  }
}
