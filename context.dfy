/** `EventContext`: the thread-local stack of context entries that events are
    persisted with. Each entry carries the key/value data of one context; an
    `EventContext` handle shares the entry's `Rc` id, and dropping the last
    handle of an entry removes it from the stack. JSON values are kept as their
    serialised text. */
module EventContexts {
  import opened Wrappers

  type ContextData = map<string, string>

  /** A `StackEntry`: the `Rc` id (as a number) and the entry's data. */
  datatype Entry = Entry(id: nat, data: ContextData)

  /** A handle: the id of the entry it points to. */
  type Handle = nat

  class ContextStack {
    /** `CONTEXT_STACK`, bottom first. */
    var entries: seq<Entry>
    /** For each entry id, the number of live handles to it (the `Rc` strong
        count less the stack entry's own reference). */
    var handles: map<nat, nat>
    /** The next fresh id for `Rc::new`. */
    var nextId: nat

    /** Ids are distinct and below the next fresh id; an entry exists exactly
        while some handle points at it. */
    predicate Valid()
      reads this
    {
      DistinctIds(entries) &&
      (forall i :: 0 <= i < |entries| ==> entries[i].id < nextId) &&
      handles.Keys == Ids(entries) &&
      (forall id :: id in handles ==> handles[id] > 0)
    }

    /** An empty stack, as on a fresh thread. */
    constructor ()
      ensures Valid() && entries == [] && handles == map[]
    {
      entries := [];
      handles := map[];
      nextId := 0;
    }

    /** `EventContext::current`: a handle to the top entry, or a new empty entry
        pushed when the stack is empty. */
    method Current() returns (h: Handle)
      requires Valid()
      modifies this
      ensures Valid() && h in handles
      ensures old(entries) != [] ==>
        h == old(entries)[|old(entries)| - 1].id && entries == old(entries) &&
        handles == old(handles)[h := old(handles)[h] + 1]
      ensures old(entries) == [] ==>
        entries == [Entry(h, map[])] && handles == old(handles)[h := 1]
    {
      if entries != [] {
        h := entries[|entries| - 1].id;
        handles := handles[h := handles[h] + 1];
        return;
      }
      h := Push(map[]);
    }

    /** `EventContext::seed`: pushes a new entry holding `data`, whatever is below. */
    method Seed(data: ContextData) returns (h: Handle)
      requires Valid()
      modifies this
      ensures Valid()
      ensures entries == old(entries) + [Entry(h, data)]
      ensures h !in old(handles) && handles == old(handles)[h := 1]
    {
      h := Push(data);
    }

    method Push(data: ContextData) returns (h: Handle)
      requires Valid()
      modifies this
      ensures Valid()
      ensures entries == old(entries) + [Entry(h, data)]
      ensures h !in old(handles) && handles == old(handles)[h := 1]
    {
      h := nextId;
      PushKeepsIds(entries, Entry(h, data), nextId);
      nextId := nextId + 1;
      entries := entries + [Entry(h, data)];
      handles := handles[h := 1];
    }

    /** `data`: a copy of the data of the handle's entry. Datatype values are
        immutable, so later inserts never reach the copy. */
    method Data(h: Handle) returns (d: ContextData)
      requires Valid() && h in handles
      ensures forall i :: 0 <= i < |entries| && entries[i].id == h ==> d == entries[i].data
    {
      var i := |entries|;
      while i > 0
        invariant 0 <= i <= |entries|
        invariant forall j :: i <= j < |entries| ==> entries[j].id != h
      {
        i := i - 1;
        if entries[i].id == h {
          return entries[i].data;
        }
      }
      assert false;
    }

    /** `insert`: the handle's own entry gets `key` set to the serialised value,
        replacing an earlier value under that key; no other entry changes. A
        value that fails to serialise is returned as the error and changes
        nothing. */
    method Insert(h: Handle, key: string, serialized: Result<string, string>) returns (r: Result<(), string>)
      requires Valid() && h in handles
      modifies this
      ensures Valid() && handles == old(handles) && |entries| == |old(entries)|
      ensures serialized.Err? ==> r == Err(serialized.error) && entries == old(entries)
      ensures serialized.Ok? ==> r == Ok(())
      ensures serialized.Ok? ==>
        forall i :: 0 <= i < |entries| ==>
          entries[i] == if old(entries)[i].id == h
                        then Entry(h, old(entries)[i].data[key := serialized.value])
                        else old(entries)[i]
    {
      if serialized.Err? {
        return Err(serialized.error);
      }
      var i := |entries|;
      while i > 0
        invariant 0 <= i <= |entries|
        invariant forall j :: i <= j < |entries| ==> entries[j].id != h
      {
        i := i - 1;
        if entries[i].id == h {
          UpdateKeepsIds(entries, i, Entry(h, entries[i].data[key := serialized.value]));
          entries := entries[i := Entry(h, entries[i].data[key := serialized.value])];
          return Ok(());
        }
      }
      assert false;
    }

    /** `Drop for EventContext`: when this is the entry's last handle (strong
        count 2), the entry is removed wherever it sits in the stack; otherwise
        only the handle goes. */
    method Drop(h: Handle)
      requires Valid() && h in handles
      modifies this
      ensures Valid()
      ensures old(handles)[h] > 1 ==> entries == old(entries) && handles == old(handles)[h := old(handles)[h] - 1]
      ensures old(handles)[h] == 1 ==>
        handles == old(handles) - {h} &&
        exists i :: 0 <= i < |old(entries)| && old(entries)[i].id == h &&
          entries == old(entries)[..i] + old(entries)[i + 1..]
    {
      if handles[h] > 1 {
        handles := handles[h := handles[h] - 1];
        return;
      }
      var i := |entries|;
      while i > 0
        invariant 0 <= i <= |entries|
        invariant forall j :: i <= j < |entries| ==> entries[j].id != h
      {
        i := i - 1;
        if entries[i].id == h {
          RemoveKeepsIds(entries, i);
          entries := entries[..i] + entries[i + 1..];
          handles := handles - {h};
          return;
        }
      }
      assert false;
    }

    /** `EventContext::fork`: takes `current` (pushing an empty entry if the
        stack is empty), seeds a new entry with a copy of its data, and drops
        the temporary `current` handle. */
    method Fork() returns (h: Handle)
      requires Valid()
      modifies this
      ensures Valid() && h in handles && h !in old(handles)
      ensures old(entries) != [] ==>
        entries == old(entries) + [Entry(h, old(entries)[|old(entries)| - 1].data)] &&
        handles == old(handles)[h := 1]
      ensures old(entries) == [] ==> entries == [Entry(h, map[])] && handles == map[h := 1]
    {
      if entries == [] {
        h := ForkFromEmpty();
      } else {
        h := ForkFromTop();
      }
    }

    /** `fork` on an empty stack: `current` pushes an empty entry, the seeded
        copy goes above it, and dropping the temporary handle removes the empty
        entry again. */
    method ForkFromEmpty() returns (h: Handle)
      requires Valid() && entries == []
      modifies this
      ensures Valid() && h in handles && h !in old(handles)
      ensures entries == [Entry(h, map[])] && handles == map[h := 1]
    {
      var current;
      current, h := SeedOnEmpty();
      ghost var beforeDrop := entries;
      Drop(current);
      ForkOnEmpty(beforeDrop, entries, current, h);
      DropTemporary(current, h);
    }

    /** The first part of `fork` on an empty stack: `current` pushes the
        temporary empty entry and the seeded copy goes above it. */
    method SeedOnEmpty() returns (current: Handle, h: Handle)
      requires Valid() && entries == []
      modifies this
      ensures Valid() && current != h
      ensures entries == [Entry(current, map[]), Entry(h, map[])]
      ensures handles == map[current := 1, h := 1]
    {
      assert handles == map[];
      current := Current();
      var data := Data(current);
      assert entries[0].id == current;
      h := Seed(data);
    }

    /** `fork` below an existing top entry: the temporary handle to the top is
        dropped without removing it, as the top keeps its own handles. */
    method ForkFromTop() returns (h: Handle)
      requires Valid() && entries != []
      modifies this
      ensures Valid() && h in handles && h !in old(handles)
      ensures entries == old(entries) + [Entry(h, old(entries)[|old(entries)| - 1].data)]
      ensures handles == old(handles)[h := 1]
    {
      var current := Current();
      var data := Data(current);
      assert entries[|entries| - 1].id == current;
      h := Seed(data);
      assert handles[current] > 1;
      Drop(current);
      MapUpdates(old(handles), current, h);
    }
  }

  predicate DistinctIds(s: seq<Entry>)
  {
    forall i, j :: 0 <= i < j < |s| ==> s[i].id != s[j].id
  }

  function Ids(s: seq<Entry>): set<nat>
  {
    set i | 0 <= i < |s| :: s[i].id
  }

  /** Pushing an entry with a fresh id keeps ids distinct and adds that id. */
  lemma PushKeepsIds(s: seq<Entry>, e: Entry, next: nat)
    requires DistinctIds(s) && forall i :: 0 <= i < |s| ==> s[i].id < next
    requires e.id == next
    ensures DistinctIds(s + [e]) && Ids(s + [e]) == Ids(s) + {e.id} && e.id !in Ids(s)
  {
    var t := s + [e];
    forall i, j | 0 <= i < j < |t| ensures t[i].id != t[j].id {
      assert t[i] == s[i];
      if j < |s| { assert t[j] == s[j]; }
    }
    assert t[|s|] == e;
    forall x | x in Ids(t) ensures x in Ids(s) + {e.id} {
      var i :| 0 <= i < |t| && t[i].id == x;
      if i < |s| { assert t[i] == s[i]; }
    }
    forall x | x in Ids(s) ensures x in Ids(t) {
      var i :| 0 <= i < |s| && s[i].id == x;
      assert t[i] == s[i];
    }
  }

  /** Replacing an entry's data keeps every id where it was. */
  lemma UpdateKeepsIds(s: seq<Entry>, i: nat, e: Entry)
    requires i < |s| && e.id == s[i].id
    ensures Ids(s[i := e]) == Ids(s)
    ensures DistinctIds(s) ==> DistinctIds(s[i := e])
  {
    var t := s[i := e];
    forall x | x in Ids(t) ensures x in Ids(s) {
      var j :| 0 <= j < |t| && t[j].id == x;
      assert s[j].id == x;
    }
    forall x | x in Ids(s) ensures x in Ids(t) {
      var j :| 0 <= j < |s| && s[j].id == x;
      assert t[j].id == x;
    }
  }

  /** Removing the entry at `i` from distinct ids removes exactly its id. */
  lemma RemoveKeepsIds(s: seq<Entry>, i: nat)
    requires i < |s| && DistinctIds(s)
    ensures DistinctIds(s[..i] + s[i + 1..])
    ensures Ids(s[..i] + s[i + 1..]) == Ids(s) - {s[i].id}
    ensures forall j :: 0 <= j < |s[..i] + s[i + 1..]| ==>
      (s[..i] + s[i + 1..])[j] == (if j < i then s[j] else s[j + 1])
  {
    var t := s[..i] + s[i + 1..];
    assert forall j :: 0 <= j < |t| ==> t[j] == (if j < i then s[j] else s[j + 1]);
    forall x | x in Ids(t) ensures x in Ids(s) - {s[i].id} {
      var j :| 0 <= j < |t| && t[j].id == x;
    }
    forall x | x in Ids(s) - {s[i].id} ensures x in Ids(t) {
      var j :| 0 <= j < |s| && s[j].id == x;
      if j < i { assert t[j].id == x; } else { assert t[j - 1].id == x; }
    }
  }

  /** Counting a handle up and back down again, around a fresh entry. */
  lemma MapUpdates(m: map<nat, nat>, c: nat, h: nat)
    requires c in m && c != h
    ensures m[c := m[c] + 1][h := 1][c := m[c]] == m[h := 1]
  {
  }

  /** Dropping the temporary handle leaves only the seeded one. */
  lemma DropTemporary(current: nat, h: nat)
    requires current != h
    ensures map[current := 1, h := 1] - {current} == map[h := 1]
  {
  }

  /** On an empty stack, `fork`'s temporary entry sits at the bottom, so
      dropping it leaves only the seeded entry. */
  lemma ForkOnEmpty(beforeDrop: seq<Entry>, after: seq<Entry>, current: nat, h: nat)
    requires |beforeDrop| == 2 && beforeDrop[0].id == current && beforeDrop[1].id == h && current != h
    requires exists i :: (0 <= i < |beforeDrop| && beforeDrop[i].id == current &&
      after == beforeDrop[..i] + beforeDrop[i + 1..])
    ensures after == [beforeDrop[1]]
  {
    var i :| 0 <= i < |beforeDrop| && beforeDrop[i].id == current && after == beforeDrop[..i] + beforeDrop[i + 1..];
    assert i == 0;
  }

  /** The `fork` test: a child entry sees the parent's data, its inserts stay
      in the child, and dropping it leaves the parent as before. The results are
      the depth after the fork, the child's and the parent's data after the
      child's insert, and the depth and data after the drop. */
  method ForkIsolation() returns (depthForked: nat, child: ContextData, parent: ContextData,
                                  depthDropped: nat, after: ContextData)
    ensures depthForked == 2 && depthDropped == 1
    ensures child == map["original" := "\"value\"", "forked" := "\"data\""]
    ensures parent == map["original" := "\"value\""] && after == parent
  {
    ghost var original := map["original" := "\"value\""];
    ghost var both := original["forked" := "\"data\""];
    var stack := new ContextStack();
    var ctx := stack.Current();
    var _ := stack.Insert(ctx, "original", Ok("\"value\""));
    assert stack.entries == [Entry(ctx, original)];
    var forked := stack.Fork();
    assert forked != ctx;
    assert stack.entries == [Entry(ctx, original), Entry(forked, original)];
    depthForked := |stack.entries|;
    var _ := stack.Insert(forked, "forked", Ok("\"data\""));
    assert stack.entries == [Entry(ctx, original), Entry(forked, both)];
    child := stack.Data(forked);
    assert stack.entries[1].id == forked;
    parent := stack.Data(ctx);
    assert stack.entries[0].id == ctx;
    stack.Drop(forked);
    assert stack.entries == [Entry(ctx, original)];
    depthDropped := |stack.entries|;
    after := stack.Data(ctx);
    assert stack.entries[0].id == ctx;
  }
}
