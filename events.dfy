/** `EntityEvents<E>`: the event history of one entity, split into the events
    already persisted and the new events not yet written. The Rust type is not
    part of this model's source files; only the operations the generated code
    and the entities use are modelled. */
module Events {

  type EntityId = int

  datatype EntityEvents<E> = EntityEvents(entityId: EntityId, persisted: seq<E>, newEvents: seq<E>)
  {
    /** `iter_all`: persisted events first, then the new ones, in order. */
    function All(): seq<E> { persisted + newEvents }

    /** `any_new`: some event is not yet written. */
    function AnyNew(): (r: bool)
      ensures r <==> All() != persisted
    {
      |newEvents| > 0
    }

    /** `len_persisted`: where the new events start in the full history. */
    function LenPersisted(): (n: nat)
      ensures n + |newEvents| == |All()| && All()[..n] == persisted
    {
      |persisted|
    }

    /** `push`: appends one new event. */
    function Push(e: E): (r: EntityEvents<E>)
      ensures r.All() == All() + [e]
      ensures r.AnyNew() && r.persisted == persisted && r.entityId == entityId
    {
      EntityEvents(entityId, persisted, newEvents + [e])
    }

    /** `mark_new_events_persisted_at`: every new event becomes persisted. */
    function MarkPersisted(): (r: EntityEvents<E>)
      ensures r.All() == All() && !r.AnyNew() && r.entityId == entityId
      ensures r.LenPersisted() == LenPersisted() + |newEvents|
    {
      EntityEvents(entityId, persisted + newEvents, [])
    }
  }

  /** `EntityEvents::init`: a history whose events are all new. */
  function Init<E>(id: EntityId, events: seq<E>): (r: EntityEvents<E>)
    ensures r.entityId == id && r.All() == events && r.LenPersisted() == 0
    ensures r.AnyNew() <==> |events| > 0
  {
    EntityEvents(id, [], events)
  }

}
