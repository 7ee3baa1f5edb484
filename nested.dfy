/** `Nested<T>`: the children an aggregate owns, as an arena of persisted
    children keyed by entity id plus the list of new children not yet created. */
module NestedContainer {
  import opened Wrappers
  import opened Events
  import opened Seqs

  /** The persisted map after `load`ing `items` into `m`, in order: a later item
      replaces an entry with the same id. */
  function LoadAll<T>(m: map<EntityId, T>, items: seq<T>, idOf: T -> EntityId): map<EntityId, T>
  {
    if items == [] then m
    else LoadAll(m, items[..|items| - 1], idOf)[idOf(items[|items| - 1]) := items[|items| - 1]]
  }

  /** The last item of `items` whose id is `id`, if any. */
  function LastWithId<T>(items: seq<T>, id: EntityId, idOf: T -> EntityId): (r: Option<T>)
  {
    if items == [] then None
    else if idOf(items[|items| - 1]) == id then Some(items[|items| - 1])
    else LastWithId(items[..|items| - 1], id, idOf)
  }

  function IdsOf<T>(items: seq<T>, idOf: T -> EntityId): set<EntityId>
  {
    set i | 0 <= i < |items| :: idOf(items[i])
  }

  /** Loading adds exactly the ids of the loaded items; each id maps to the last
      item carrying it, or keeps its old entry when no item carries it. */
  lemma {:induction false} LoadAllContents<T>(m: map<EntityId, T>, items: seq<T>, idOf: T -> EntityId)
    ensures LoadAll(m, items, idOf).Keys == m.Keys + IdsOf(items, idOf)
    ensures forall id :: LastWithId(items, id, idOf).Some? ==>
      id in LoadAll(m, items, idOf) && LoadAll(m, items, idOf)[id] == LastWithId(items, id, idOf).value
    ensures forall id :: LastWithId(items, id, idOf).None? && id in m ==>
      id in LoadAll(m, items, idOf) && LoadAll(m, items, idOf)[id] == m[id]
  {
    if items != [] {
      var init := items[..|items| - 1];
      LoadAllContents(m, init, idOf);
      assert IdsOf(items, idOf) == IdsOf(init, idOf) + {idOf(items[|items| - 1])} by {
        forall x | x in IdsOf(items, idOf) ensures x in IdsOf(init, idOf) + {idOf(items[|items| - 1])} {
          var i :| 0 <= i < |items| && idOf(items[i]) == x;
          if i < |items| - 1 { assert init[i] == items[i]; }
        }
        forall x | x in IdsOf(init, idOf) ensures x in IdsOf(items, idOf) {
          var i :| 0 <= i < |init| && idOf(init[i]) == x;
          assert items[i] == init[i];
        }
      }
    }
  }

  /** Loaded into an empty container, the persisted count is the number of
      distinct ids among the loaded items. */
  lemma LoadedCount<T>(items: seq<T>, idOf: T -> EntityId)
    ensures |LoadAll(map[], items, idOf)| == |IdsOf(items, idOf)|
  {
    LoadAllContents(map[], items, idOf);
    assert LoadAll(map[], items, idOf).Keys == IdsOf(items, idOf);
  }

  /** Index of the first element satisfying `p`, as `Iterator::find` returns it. */
  predicate IsFirstMatch<N>(s: seq<N>, p: N -> bool, i: int)
  {
    0 <= i < |s| && p(s[i]) && forall j :: 0 <= j < i ==> !p(s[j])
  }

  class Nested<N, T> {
    var entities: map<EntityId, T>
    var newEntities: seq<N>

    /** `default`: no persisted and no new children. */
    constructor ()
      ensures entities == map[] && newEntities == []
      ensures LenPersisted() == 0 && LenNew() == 0
    {
      entities := map[];
      newEntities := [];
    }

    /** `len_new` */
    function LenNew(): nat
      reads this
    {
      |newEntities|
    }

    /** `len_persisted`: the number of distinct ids held. */
    function LenPersisted(): nat
      reads this
    {
      |entities|
    }

    /** `get_persisted` / `get_persisted_mut` read side. */
    function GetPersisted(id: EntityId): (r: Option<T>)
      reads this
      ensures r.Some? <==> id in entities
      ensures r.Some? ==> r.value == entities[id]
    {
      if id in entities then Some(entities[id]) else None
    }

    /** `add_new`: appends and returns the element just added. */
    method AddNew(n: N) returns (added: N)
      modifies this
      ensures newEntities == old(newEntities) + [n]
      ensures LenNew() == old(LenNew()) + 1
      ensures added == newEntities[old(LenNew())] && added == n
      ensures entities == old(entities)
    {
      var len := |newEntities|;
      newEntities := newEntities + [n];
      added := newEntities[len];
    }

    /** `find_new`: the first new child satisfying `p`, in insertion order. */
    method FindNew(p: N -> bool) returns (r: Option<N>)
      ensures r.None? <==> forall j :: 0 <= j < |newEntities| ==> !p(newEntities[j])
      ensures r.Some? ==> exists i :: IsFirstMatch(newEntities, p, i) && r.value == newEntities[i]
    {
      var i := 0;
      while i < |newEntities|
        invariant 0 <= i <= |newEntities|
        invariant forall j :: 0 <= j < i ==> !p(newEntities[j])
      {
        if p(newEntities[i]) {
          assert IsFirstMatch(newEntities, p, i);
          return Some(newEntities[i]);
        }
        i := i + 1;
      }
      return None;
    }

    /** `find_map_new`: the first `Some` that `f` gives over the new children. */
    method FindMapNew<B>(f: N -> Option<B>) returns (r: Option<B>)
      ensures r.None? <==> forall j :: 0 <= j < |newEntities| ==> f(newEntities[j]).None?
      ensures r.Some? ==> exists i :: (0 <= i < |newEntities| && f(newEntities[i]) == r
        && forall j :: 0 <= j < i ==> f(newEntities[j]).None?)
    {
      var i := 0;
      while i < |newEntities|
        invariant 0 <= i <= |newEntities|
        invariant forall j :: 0 <= j < i ==> f(newEntities[j]).None?
      {
        var x := f(newEntities[i]);
        if x.Some? {
          return x;
        }
        i := i + 1;
      }
      return None;
    }

    /** `find_persisted`: some persisted child satisfying `p`; the map's
        iteration order is unspecified, so which one is not determined. */
    method FindPersisted(p: T -> bool) returns (r: Option<T>)
      ensures r.None? <==> forall id :: id in entities ==> !p(entities[id])
      ensures r.Some? ==> p(r.value) && exists id :: id in entities && entities[id] == r.value
    {
      var todo := entities.Keys;
      r := None;
      while |todo| > 0 && r.None?
        invariant todo <= entities.Keys
        invariant forall id :: id in entities && id !in todo ==> !p(entities[id])
        invariant r.Some? ==> p(r.value) && exists id :: id in entities && entities[id] == r.value
        decreases todo, r.None?
      {
        NonEmptyHasElement(todo);
        var k :| k in todo;
        if p(entities[k]) {
          r := Some(entities[k]);
        } else {
          todo := todo - {k};
        }
      }
    }

    /** `new_entities_mut().drain(..)`: hands over the new children and leaves none. */
    method DrainNew() returns (drained: seq<N>)
      modifies this
      ensures drained == old(newEntities) && newEntities == []
      ensures entities == old(entities)
    {
      drained := newEntities;
      newEntities := [];
    }

    /** `load` (and `extend_entities`): inserts each item under its entity id. */
    method Load(items: seq<T>, idOf: T -> EntityId)
      modifies this
      ensures entities == LoadAll(old(entities), items, idOf)
      ensures newEntities == old(newEntities)
    {
      var i := 0;
      while i < |items|
        invariant 0 <= i <= |items|
        invariant entities == LoadAll(old(entities), items[..i], idOf)
        invariant newEntities == old(newEntities)
      {
        assert items[..i + 1][..i] == items[..i];
        entities := entities[idOf(items[i]) := items[i]];
        i := i + 1;
      }
      assert items[..|items|] == items;
    }

    /** `get_persisted_mut` write side, as the update loop uses it. */
    method SetPersisted(id: EntityId, t: T)
      requires id in entities
      modifies this
      ensures entities == old(entities)[id := t] && newEntities == old(newEntities)
    {
      entities := entities[id := t];
    }
  }

}
