/** The generated write operations of a repository: `create`, `update`,
    `update_all` and the soft `delete`, each an `_in_op` method working inside
    an open transaction and an outer method that begins the transaction and
    commits it only on success. */
module RepoWrites {
  import opened Wrappers
  import opened Text
  import opened Events
  import opened EsErrors
  import opened RepoColumns
  import opened DeleteOptions
  import opened RepoErrors
  import opened EventStore

  /** What the repository is configured with: the index table's name, its
      columns (`created_at` and `id` first), the column enum the constraint
      mapping uses, the columns the table has a unique key on, and the delete mode. */
  datatype RepoConfig = RepoConfig(
    table: string,
    columns: seq<Column>,
    variants: seq<ColumnVariant>,
    uniqueCols: seq<string>,
    delete: DeleteOption)

  /** A new entity: its id, its column values and the events `into_events` gives. */
  datatype NewEntity = NewEntity(id: EntityId, values: map<string, string>, events: seq<string>)

  /** A loaded entity: its event history and its current column values. */
  datatype EntityState = EntityState(events: EntityEvents<string>, values: map<string, string>)

  /** The named values only. */
  function Project(values: map<string, string>, names: seq<string>): (m: map<string, string>)
    ensures forall k :: k in m <==> k in values && k in names
    ensures forall k :: k in m ==> m[k] == values[k]
  {
    map k | k in values && k in names :: values[k]
  }

  // ---------------------------------------------------------------------
  // Query text.
  // ---------------------------------------------------------------------

  /** The `INSERT INTO {} ({}, created_at) VALUES ({}, COALESCE(${}, NOW()))`
      template, filled in: each part can be cut back out of the text. */
  function InsertInto(table: string, columnList: string, placeholders: string, createdAt: nat): (q: string)
    ensures var head := "INSERT INTO " + table + " (";
      var mid := ", created_at) VALUES (";
      var tail := ", COALESCE(" + Placeholder(createdAt) + ", NOW()))";
      var a := |head| + |columnList|;
      var b := a + |mid|;
      var c := b + |placeholders|;
      && |q| == c + |tail|
      && q[..|head|] == head
      && q[|head|..a] == columnList
      && q[a..b] == mid
      && q[b..c] == placeholders
      && q[c..] == tail
  {
    var head := "INSERT INTO " + table + " (";
    var mid := ", created_at) VALUES (";
    var tail := ", COALESCE(" + Placeholder(createdAt) + ", NOW()))";
    Cut6(head, columnList, mid, placeholders, tail, "");
    head + columnList + mid + placeholders + tail
  }

  /** The INSERT of `create`: into the index table, the create-persisted
      columns in order and `created_at`, then their placeholders `$1 .. $n`
      and `created_at` bound to `$n+1`, falling back to NOW(). */
  function CreateQuery(cfg: RepoConfig): (q: string)
    ensures var names := InsertColumnNames(cfg.columns);
      var columnList, placeholders := Join(", ", names), InsertPlaceholders(cfg.columns, 0);
      var head := "INSERT INTO " + cfg.table + " (";
      var mid := ", created_at) VALUES (";
      var tail := ", COALESCE(" + Placeholder(|names| + 1) + ", NOW()))";
      var a := |head| + |columnList|;
      var b := a + |mid|;
      var c := b + |placeholders|;
      && |q| == c + |tail|
      && q[..|head|] == head
      && q[|head|..a] == columnList
      && q[a..b] == mid
      && q[b..c] == placeholders
      && q[c..] == tail
  {
    var names := InsertColumnNames(cfg.columns);
    var columnList, placeholders := Join(", ", names), InsertPlaceholders(cfg.columns, 0);
    InsertInto(cfg.table, columnList, placeholders, |names| + 1)
  }

  /** With only the id configured, the INSERT writes the id alone, at `$1`. */
  lemma IdOnlyInsertColumns()
    ensures InsertColumnNames(WithIdColumn([], "EntityId")) == ["id"]
    ensures InsertPlaceholders(WithIdColumn([], "EntityId"), 0) == "$1"
  {
    var cols := WithIdColumn([], "EntityId");
    assert cols == [ForCreatedAt(), ForId("EntityId")];
    assert !PersistOnCreate(ForCreatedAt().opts) && PersistOnCreate(ForId("EntityId").opts);
    assert cols[..1] == [ForCreatedAt()];
    assert CreateColumns(cols) == [ForId("EntityId")];
    assert Placeholder(1) == "$1";
    assert PlaceholderList(1, 1) == ["$1"];
  }

  /** With only the id configured, `create` fills the template with the id
      column at `$1` and `created_at` at `$2`. */
  lemma IdOnlyCreateQueryIsInsert(variants: seq<ColumnVariant>, uniqueCols: seq<string>, delete: DeleteOption)
    ensures CreateQuery(RepoConfig("entities", WithIdColumn([], "EntityId"), variants, uniqueCols, delete))
      == InsertInto("entities", "id", "$1", 2)
  {
    var cfg := RepoConfig("entities", WithIdColumn([], "EntityId"), variants, uniqueCols, delete);
    IdOnlyInsertColumns();
    var names := InsertColumnNames(cfg.columns);
    assert names == ["id"] && |names| + 1 == 2;
    assert Join(", ", names) == "id";
  }

  /** The template filled in with the id column alone. */
  lemma IdOnlyInsertText()
    ensures InsertInto("entities", "id", "$1", 2)
      == "INSERT INTO entities (" + "id" + ", created_at) VALUES (" + "$1" + ", COALESCE(" + "$2" + ", NOW()))"
  {
    assert Placeholder(2) == "$2";
    assert "INSERT INTO " + "entities" + " (" == "INSERT INTO entities (";
  }

  /** The INSERT the source's test expects for an `entities` table with only
      the id column configured. */
  lemma IdOnlyCreateQuery(variants: seq<ColumnVariant>, uniqueCols: seq<string>, delete: DeleteOption)
    ensures CreateQuery(RepoConfig("entities", WithIdColumn([], "EntityId"), variants, uniqueCols, delete))
      == "INSERT INTO entities (" + "id" + ", created_at) VALUES (" + "$1" + ", COALESCE(" + "$2" + ", NOW()))"
  {
    IdOnlyCreateQueryIsInsert(variants, uniqueCols, delete);
    IdOnlyInsertText();
  }

  /** The INSERT binds `$1 .. $n` to the `n` create-persisted columns, one each,
      and `created_at` to `$n+1`, a placeholder none of them uses. */
  lemma CreatePlaceholdersMatchColumns(cfg: RepoConfig, k: nat)
    requires k < |InsertColumnNames(cfg.columns)|
    ensures |PlaceholderList(1, |InsertColumnNames(cfg.columns)|)| == |InsertColumnNames(cfg.columns)|
    ensures PlaceholderList(1, |InsertColumnNames(cfg.columns)|)[k] == Placeholder(k + 1)
    ensures Placeholder(k + 1) != Placeholder(|InsertColumnNames(cfg.columns)| + 1)
  {
    var n := |InsertColumnNames(cfg.columns)|;
    if Placeholder(k + 1) == Placeholder(n + 1) {
      assert NatToString(k + 1) == Placeholder(k + 1)[1..];
      NatToStringInjective(k + 1, n + 1);
    }
  }

  /** The UPDATE of `update`: the index table, then the assignments of the
      update columns, each `name = $n` from `$2` on in column order, and the
      filter on the id bound to `$1`. */
  function UpdateQuery(cfg: RepoConfig): (q: string)
    ensures var head, tail := "UPDATE " + cfg.table + " SET ", " WHERE id = $1";
      |q| == |head| + |SqlUpdates(cfg.columns)| + |tail| &&
      q[..|head|] == head && q[|q| - |tail|..] == tail &&
      q[|head|..|q| - |tail|] == SqlUpdates(cfg.columns)
  {
    var head, tail := "UPDATE " + cfg.table + " SET ", " WHERE id = $1";
    Concat3(head, SqlUpdates(cfg.columns), tail);
    head + SqlUpdates(cfg.columns) + tail
  }

  /** The three parts of a concatenation can be cut back out of it. */
  lemma Concat3(a: string, b: string, c: string)
    ensures var q := a + b + c;
      |q| == |a| + |b| + |c| && q[..|a|] == a && q[|q| - |c|..] == c && q[|a|..|q| - |c|] == b
  {
    var q := a + b + c;
    assert q[..|a|] == a;
    assert q[|a|..|q| - |c|] == b;
  }

  /** The UPDATE of the soft `delete`: the update assignments, then the flag,
      with a separating comma only when there are assignments. */
  function DeleteQuery(cfg: RepoConfig): (q: string)
    ensures var head, flag := "UPDATE " + cfg.table + " SET ", "deleted = TRUE WHERE id = $1";
      (SqlUpdates(cfg.columns) == "" ==> q == head + flag) &&
      (SqlUpdates(cfg.columns) != "" ==> q == head + SqlUpdates(cfg.columns) + ", " + flag)
  {
    var head, flag := "UPDATE " + cfg.table + " SET ", "deleted = TRUE WHERE id = $1";
    var updates := SqlUpdates(cfg.columns);
    if updates == "" then head + flag else head + updates + ", " + flag
  }

  // ---------------------------------------------------------------------
  // The index table.
  // ---------------------------------------------------------------------

  /** Some row already holds `v` in `col`. */
  predicate Taken(index: map<EntityId, IndexRow>, col: string, v: string)
  {
    exists id :: id in index && col in index[id].values && index[id].values[col] == v
  }

  /** The first unique column whose new value some row already holds. */
  function FirstTaken(index: map<EntityId, IndexRow>, values: map<string, string>, cols: seq<string>): (r: Option<string>)
    ensures r.None? <==> forall i :: 0 <= i < |cols| && cols[i] in values ==> !Taken(index, cols[i], values[cols[i]])
    ensures r.Some? ==> r.value in cols && r.value in values && Taken(index, r.value, values[r.value])
  {
    if cols == [] then None
    else if cols[0] in values && Taken(index, cols[0], values[cols[0]]) then Some(cols[0])
    else
      var rest := FirstTaken(index, values, cols[1..]);
      assert forall i :: 1 <= i < |cols| ==> cols[i] == cols[1..][i - 1];
      rest
  }

  /** The row `create` inserts: the create-persisted columns' values, not deleted. */
  function NewRow(cfg: RepoConfig, ne: NewEntity): IndexRow
  {
    IndexRow(Project(ne.values, InsertColumnNames(cfg.columns)), false)
  }

  /** The constraint the INSERT of a new row violates, if any: the primary key
      when the id is taken, otherwise the unique key of the first unique column
      whose inserted value is taken. Only the create-persisted columns are
      written, so a unique column left out of the INSERT violates nothing. */
  function InsertViolation(cfg: RepoConfig, index: map<EntityId, IndexRow>, ne: NewEntity): (r: Option<string>)
    ensures ne.id in index ==> r == Some(cfg.table + "_pkey")
    ensures r.None? <==> ne.id !in index && FirstTaken(index, NewRow(cfg, ne).values, cfg.uniqueCols).None?
    ensures ne.id !in index && r.Some? ==>
      exists c :: c in cfg.uniqueCols && c in InsertColumnNames(cfg.columns) && c in ne.values &&
        Taken(index, c, ne.values[c]) && r.value == cfg.table + "_" + c + "_key"
  {
    if ne.id in index then Some(cfg.table + "_pkey")
    else
      match FirstTaken(index, NewRow(cfg, ne).values, cfg.uniqueCols)
      case Some(col) => Some(cfg.table + "_" + col + "_key")
      case None => None
  }

  /** The table's unique keys hold: no two rows share a value in a unique column. */
  predicate Unique(index: map<EntityId, IndexRow>, cols: seq<string>)
  {
    forall a, b, c ::
      a in index && b in index && a != b && c in cols && c in index[a].values && c in index[b].values ==>
        index[a].values[c] != index[b].values[c]
  }

  /** The unique key an `UPDATE .. WHERE id = $1` setting `vals` violates, if
      any: that of the first unique column whose new value another row
      already holds. Without a row with that id nothing is updated. */
  function UpdateViolation(cfg: RepoConfig, index: map<EntityId, IndexRow>, id: EntityId, vals: map<string, string>): (r: Option<string>)
    ensures r.None? <==> id !in index || FirstTaken(index - {id}, vals, cfg.uniqueCols).None?
    ensures r.Some? ==>
      exists c :: c in cfg.uniqueCols && c in vals && Taken(index - {id}, c, vals[c]) && r.value == cfg.table + "_" + c + "_key"
  {
    if id !in index then None
    else
      match FirstTaken(index - {id}, vals, cfg.uniqueCols)
      case Some(col) => Some(cfg.table + "_" + col + "_key")
      case None => None
  }

  /** On a table whose unique keys hold, the UPDATE is refused exactly when
      writing it would break them. */
  lemma UpdateKeepsUnique(cfg: RepoConfig, index: map<EntityId, IndexRow>, id: EntityId,
                          vals: map<string, string>, markDeleted: bool)
    requires Unique(index, cfg.uniqueCols)
    ensures UpdateViolation(cfg, index, id, vals).None? <==> Unique(UpdateRow(index, id, vals, markDeleted), cfg.uniqueCols)
  {
    var r := UpdateRow(index, id, vals, markDeleted);
    var v := UpdateViolation(cfg, index, id, vals);
    if v.None? && id in index {
      forall a, b, c | a in r && b in r && a != b && c in cfg.uniqueCols && c in r[a].values && c in r[b].values
        ensures r[a].values[c] != r[b].values[c]
      {
        if a == id && c in vals {
          var i :| 0 <= i < |cfg.uniqueCols| && cfg.uniqueCols[i] == c;
          assert !Taken(index - {id}, c, vals[c]);
          assert b in index - {id};
        } else if b == id && c in vals {
          var i :| 0 <= i < |cfg.uniqueCols| && cfg.uniqueCols[i] == c;
          assert !Taken(index - {id}, c, vals[c]);
          assert a in index - {id};
        }
      }
    } else if v.Some? {
      var c :| c in cfg.uniqueCols && c in vals && Taken(index - {id}, c, vals[c]) && v.value == cfg.table + "_" + c + "_key";
      var o :| o in index - {id} && c in (index - {id})[o].values && (index - {id})[o].values[c] == vals[c];
      assert r[id].values[c] == vals[c] == r[o].values[c];
    }
  }

  /** On a table whose unique keys hold, an INSERT under a fresh id is refused
      exactly when adding its row would break them; an INSERT that is not
      refused keeps them. */
  lemma InsertKeepsUnique(cfg: RepoConfig, index: map<EntityId, IndexRow>, ne: NewEntity)
    requires Unique(index, cfg.uniqueCols)
    ensures ne.id !in index ==>
      (InsertViolation(cfg, index, ne).None? <==> Unique(index[ne.id := NewRow(cfg, ne)], cfg.uniqueCols))
    ensures InsertViolation(cfg, index, ne).None? ==> Unique(index[ne.id := NewRow(cfg, ne)], cfg.uniqueCols)
  {
    var row := NewRow(cfg, ne);
    var r := index[ne.id := row];
    var v := InsertViolation(cfg, index, ne);
    if v.None? {
      forall a, b, c | a in r && b in r && a != b && c in cfg.uniqueCols && c in r[a].values && c in r[b].values
        ensures r[a].values[c] != r[b].values[c]
      {
        if a == ne.id {
          var i :| 0 <= i < |cfg.uniqueCols| && cfg.uniqueCols[i] == c;
          assert !Taken(index, c, row.values[c]);
          assert b in index;
        } else if b == ne.id {
          var i :| 0 <= i < |cfg.uniqueCols| && cfg.uniqueCols[i] == c;
          assert !Taken(index, c, row.values[c]);
          assert a in index;
        }
      }
    } else if ne.id !in index {
      var c := FirstTaken(index, row.values, cfg.uniqueCols).value;
      var o :| o in index && c in index[o].values && index[o].values[c] == row.values[c];
      assert o != ne.id;
      assert r[ne.id].values[c] == row.values[c] == r[o].values[c];
    }
  }

  /** Two rows share a value in column `c`. */
  predicate Duplicated(index: map<EntityId, IndexRow>, c: string)
  {
    exists a, b ::
      a in index && b in index && a != b && c in index[a].values && c in index[b].values &&
      index[a].values[c] == index[b].values[c]
  }

  /** The first of the unique columns in which two rows share a value, if any. */
  function FirstDuplicated(index: map<EntityId, IndexRow>, cols: seq<string>): (r: Option<string>)
    ensures r.None? <==> Unique(index, cols)
    ensures r.Some? ==> r.value in cols && Duplicated(index, r.value)
  {
    if cols == [] then None
    else if Duplicated(index, cols[0]) then
      var a, b :| a in index && b in index && a != b && cols[0] in index[a].values && cols[0] in index[b].values &&
        index[a].values[cols[0]] == index[b].values[cols[0]];
      assert cols[0] in cols;
      assert !Unique(index, cols);
      Some(cols[0])
    else
      var r := FirstDuplicated(index, cols[1..]);
      assert forall c :: c in cols <==> c == cols[0] || c in cols[1..];
      r
  }

  /** The unique key `update`'s UPDATE violates: none when no column is updated. */
  function UpdateClash(cfg: RepoConfig, index: map<EntityId, IndexRow>, e: EntityState): Option<string>
  {
    if UpdatesNeeded(cfg.columns)
    then UpdateViolation(cfg, index, e.events.entityId, Project(e.values, AssignedNames(cfg)))
    else None
  }

  /** The columns the UPDATE assigns. */
  function AssignedNames(cfg: RepoConfig): seq<string>
  {
    if cfg.columns == [] then [] else Names(UpdateColumns(cfg.columns[1..]))
  }

  /** `UPDATE .. WHERE id = $1`: only the row with that id, when there is one. */
  function UpdateRow(index: map<EntityId, IndexRow>, id: EntityId, vals: map<string, string>, markDeleted: bool): (r: map<EntityId, IndexRow>)
    ensures r.Keys == index.Keys
    ensures forall other :: other in index && other != id ==> r[other] == index[other]
    ensures id in index ==> r[id].values == index[id].values + vals && r[id].deleted == (index[id].deleted || markDeleted)
  {
    if id in index then index[id := IndexRow(index[id].values + vals, index[id].deleted || markDeleted)] else index
  }

  // ---------------------------------------------------------------------
  // Error conversions.
  // ---------------------------------------------------------------------

  function PersistToCreate(e: EsRepoPersistError): (r: CreateError)
    ensures CreateWasConcurrentModification(r) <==> e == PersistConcurrentModification
  {
    match e
    case PersistSqlx(d) => CreateSqlx(d)
    case PersistConcurrentModification => CreateConcurrentModification
  }

  function PersistToModify(e: EsRepoPersistError): (r: ModifyError)
    ensures ModifyWasConcurrentModification(r) <==> e == PersistConcurrentModification
  {
    match e
    case PersistSqlx(d) => ModifySqlx(d)
    case PersistConcurrentModification => ModifyConcurrentModification
  }

  /** The error `create_in_op`'s INSERT fails with, if it fails: any database
      error but a unique violation as `Sqlx`, a unique violation as
      `ConstraintViolation` naming the mapped column and no value. */
  function CreateInsertError(cfg: RepoConfig, index: map<EntityId, IndexRow>, outage: Option<int>, ne: NewEntity): (r: Option<CreateError>)
    ensures outage.Some? ==> r == Some(CreateSqlx(OtherDbError(outage.value)))
    ensures r.Some? && r.value.CreateConstraintViolation? ==> r.value.value.None?
    ensures r.None? <==> outage.None? && InsertViolation(cfg, index, ne).None?
  {
    if outage.Some? then Some(CreateSqlx(OtherDbError(outage.value)))
    else
      match InsertViolation(cfg, index, ne)
      case Some(c) => Some(CreateConstraintViolation(MapConstraintColumn(cfg.variants, Some(c)), None, UniqueViolation(c)))
      case None => None
  }

  /** A new entity whose id is taken fails with a constraint violation on the
      id column, when the id column comes first in the column enum. */
  lemma DuplicateIdIsConstraintViolationOnId(cfg: RepoConfig, index: map<EntityId, IndexRow>, ne: NewEntity,
                                             idCol: ConstraintColumn, others: seq<ConstraintColumn>)
    requires idCol.isId && cfg.variants == ColumnVariants(cfg.table, [idCol] + others)
    requires ne.id in index
    ensures CreateInsertError(cfg, index, None, ne)
      == Some(CreateConstraintViolation(Some(idCol.name), None, UniqueViolation(cfg.table + "_pkey")))
    ensures CreateWasDuplicate(CreateInsertError(cfg, index, None, ne).value, idCol.name)
  {
    PrimaryKeyMapsToId(cfg.table, idCol, others);
  }

  // ---------------------------------------------------------------------
  // create
  // ---------------------------------------------------------------------

  /** `create_in_op`: the index row first, then the events, then hydration from
      exactly the events just persisted, then the nested children (their outcome
      is `nested`). */
  method CreateInOp(cfg: RepoConfig, op: Op, ne: NewEntity,
                    hydrate: EntityEvents<string> -> Option<EntityHydrationError>,
                    nested: Option<CreateError>)
    returns (r: Result<EntityEvents<string>, CreateError>)
    modifies op
    ensures CreateInsertError(cfg, old(op.index), op.outage, ne).Some? ==>
      r == Err(CreateInsertError(cfg, old(op.index), op.outage, ne).value) &&
      op.index == old(op.index) && op.events == old(op.events)
    ensures CreateInsertError(cfg, old(op.index), op.outage, ne).None? ==>
      op.index == old(op.index)[ne.id := NewRow(cfg, ne)]
    ensures (CreateInsertError(cfg, old(op.index), op.outage, ne).None? && ne.events != []
      && Conflicts(old(op.events), ne.id, 0, |ne.events|)) ==>
      r == Err(CreateConcurrentModification) && op.events == old(op.events)
    ensures (CreateInsertError(cfg, old(op.index), op.outage, ne).None? &&
      (ne.events == [] || !Conflicts(old(op.events), ne.id, 0, |ne.events|))) ==>
      var ev := Init(ne.id, ne.events).MarkPersisted();
      op.events == AppendRows(old(op.events), ne.id, 0, ne.events) &&
      (hydrate(ev).Some? ==> r == Err(CreateHydrationError(hydrate(ev).value))) &&
      (hydrate(ev).None? && nested.Some? ==> r == Err(nested.value)) &&
      (hydrate(ev).None? && nested.None? ==> r == Ok(ev))
    ensures Unique(old(op.index), cfg.uniqueCols) ==> Unique(op.index, cfg.uniqueCols)
  {
    var insertError := CreateInsertError(cfg, op.index, op.outage, ne);
    if insertError.Some? {
      return Err(insertError.value);
    }
    if Unique(op.index, cfg.uniqueCols) {
      InsertKeepsUnique(cfg, op.index, ne);
    }
    op.index := op.index[ne.id := NewRow(cfg, ne)];
    var pr, ev := op.PersistEvents(Init(ne.id, ne.events));
    if pr.Err? {
      return Err(PersistToCreate(pr.error));
    }
    var h := hydrate(ev);
    if h.Some? {
      return Err(CreateHydrationError(h.value));
    }
    if nested.Some? {
      return Err(nested.value);
    }
    r := Ok(ev);
  }

  // ---------------------------------------------------------------------
  // update
  // ---------------------------------------------------------------------

  /** `update_in_op`: the nested children first (their outcome is `nested`),
      nothing more without new events, otherwise the index row when some
      column persists on update, then the events. */
  method UpdateInOp(cfg: RepoConfig, op: Op, e: EntityState, nested: Option<ModifyError>)
    returns (r: Result<nat, ModifyError>, e': EntityState)
    modifies op
    ensures e'.values == e.values
    ensures nested.Some? ==> r == Err(nested.value) && e' == e && op.index == old(op.index) && op.events == old(op.events)
    ensures nested.None? && !e.events.AnyNew() ==> r == Ok(0) && e' == e && op.index == old(op.index) && op.events == old(op.events)
    ensures nested.None? && e.events.AnyNew() && op.outage.Some? ==>
      r == Err(ModifySqlx(OtherDbError(op.outage.value))) && e' == e && op.index == old(op.index) && op.events == old(op.events)
    ensures nested.None? && e.events.AnyNew() && op.outage.None? && UpdateClash(cfg, old(op.index), e).Some? ==>
      r == Err(ModifySqlx(UniqueViolation(UpdateClash(cfg, old(op.index), e).value))) && e' == e &&
      op.index == old(op.index) && op.events == old(op.events)
    ensures nested.None? && e.events.AnyNew() && op.outage.None? && UpdateClash(cfg, old(op.index), e).None? ==>
      op.index == (if UpdatesNeeded(cfg.columns)
                   then UpdateRow(old(op.index), e.events.entityId, Project(e.values, AssignedNames(cfg)), false)
                   else old(op.index))
    ensures nested.None? && e.events.AnyNew() && op.outage.None? && UpdateClash(cfg, old(op.index), e).None? ==>
      var id, offset := e.events.entityId, |e.events.persisted|;
      (Conflicts(old(op.events), id, offset, |e.events.newEvents|) ==>
        r == Err(ModifyConcurrentModification) && e' == e && op.events == old(op.events)) &&
      (!Conflicts(old(op.events), id, offset, |e.events.newEvents|) ==>
        r == Ok(|e.events.newEvents|) && e'.events == e.events.MarkPersisted() &&
        op.events == AppendRows(old(op.events), id, offset, e.events.newEvents))
    ensures Unique(old(op.index), cfg.uniqueCols) ==> Unique(op.index, cfg.uniqueCols)
  {
    if nested.Some? {
      return Err(nested.value), e;
    }
    if !e.events.AnyNew() {
      return Ok(0), e;
    }
    if UpdatesNeeded(cfg.columns) {
      if op.outage.Some? {
        return Err(ModifySqlx(OtherDbError(op.outage.value))), e;
      }
      var vals := Project(e.values, AssignedNames(cfg));
      var violation := UpdateViolation(cfg, op.index, e.events.entityId, vals);
      if violation.Some? {
        return Err(ModifySqlx(UniqueViolation(violation.value))), e;
      }
      if Unique(op.index, cfg.uniqueCols) {
        UpdateKeepsUnique(cfg, op.index, e.events.entityId, vals, false);
      }
      op.index := UpdateRow(op.index, e.events.entityId, vals, false);
    }
    var pr, ev := op.PersistEvents(e.events);
    e' := EntityState(ev, e.values);
    if pr.Err? {
      return Err(PersistToModify(pr.error)), e';
    }
    r := Ok(pr.value);
  }

  // ---------------------------------------------------------------------
  // delete
  // ---------------------------------------------------------------------

  /** `delete_in_op` (only generated when the repository deletes softly): the
      index row gets the update columns and `deleted = TRUE`, no row is
      removed, and the events are persisted only if there are new ones. */
  method DeleteInOp(cfg: RepoConfig, op: Op, e: EntityState) returns (r: Result<(), ModifyError>, e': EntityState)
    requires IsSoft(cfg.delete)
    modifies op
    ensures e'.values == e.values
    ensures op.outage.Some? ==>
      r == Err(ModifySqlx(OtherDbError(op.outage.value))) && e' == e && op.index == old(op.index) && op.events == old(op.events)
    ensures var v := UpdateViolation(cfg, old(op.index), e.events.entityId, Project(e.values, AssignedNames(cfg)));
      op.outage.None? && v.Some? ==>
        r == Err(ModifySqlx(UniqueViolation(v.value))) && e' == e && op.index == old(op.index) && op.events == old(op.events)
    ensures var v := UpdateViolation(cfg, old(op.index), e.events.entityId, Project(e.values, AssignedNames(cfg)));
      op.outage.None? && v.None? ==>
        op.index == UpdateRow(old(op.index), e.events.entityId, Project(e.values, AssignedNames(cfg)), true) &&
        op.index.Keys == old(op.index).Keys &&
        (!e.events.AnyNew() ==> r == Ok(()) && e' == e && op.events == old(op.events))
    ensures var v := UpdateViolation(cfg, old(op.index), e.events.entityId, Project(e.values, AssignedNames(cfg)));
      op.outage.None? && v.None? && e.events.AnyNew() ==>
      var id, offset := e.events.entityId, |e.events.persisted|;
      (Conflicts(old(op.events), id, offset, |e.events.newEvents|) ==>
        r == Err(ModifyConcurrentModification) && e' == e && op.events == old(op.events)) &&
      (!Conflicts(old(op.events), id, offset, |e.events.newEvents|) ==>
        r == Ok(()) && e'.events == e.events.MarkPersisted() &&
        op.events == AppendRows(old(op.events), id, offset, e.events.newEvents))
    ensures Unique(old(op.index), cfg.uniqueCols) ==> Unique(op.index, cfg.uniqueCols)
  {
    if op.outage.Some? {
      return Err(ModifySqlx(OtherDbError(op.outage.value))), e;
    }
    var vals := Project(e.values, AssignedNames(cfg));
    var violation := UpdateViolation(cfg, op.index, e.events.entityId, vals);
    if violation.Some? {
      return Err(ModifySqlx(UniqueViolation(violation.value))), e;
    }
    if Unique(op.index, cfg.uniqueCols) {
      UpdateKeepsUnique(cfg, op.index, e.events.entityId, vals, true);
    }
    op.index := UpdateRow(op.index, e.events.entityId, vals, true);
    e' := e;
    if e.events.AnyNew() {
      var pr, ev := op.PersistEvents(e.events);
      e' := EntityState(ev, e.values);
      if pr.Err? {
        return Err(PersistToModify(pr.error)), e';
      }
    }
    r := Ok(());
  }

  // ---------------------------------------------------------------------
  // The outer operations: begin, run in the transaction, commit on success.
  // ---------------------------------------------------------------------

  /** The committed state of the database. */
  class Database {
    var index: map<EntityId, IndexRow>
    var events: map<Key, string>
    const outage: Option<int>

    constructor (outage: Option<int>)
      ensures index == map[] && events == map[] && this.outage == outage
    {
      index := map[];
      events := map[];
      this.outage := outage;
    }

    /** `begin_op`: a transaction that sees the committed state. */
    method Begin() returns (op: Op)
      ensures fresh(op) && op.index == index && op.events == events && op.outage == outage
    {
      op := new Op(index, events, outage);
    }

    /** `commit`: the transaction's writes become the committed state. */
    method Commit(op: Op)
      modifies this
      ensures index == op.index && events == op.events
    {
      index := op.index;
      events := op.events;
    }
  }

  /** `create`: all of the entity's writes are committed, or none. */
  method Create(cfg: RepoConfig, db: Database, ne: NewEntity,
                hydrate: EntityEvents<string> -> Option<EntityHydrationError>, nested: Option<CreateError>)
    returns (r: Result<EntityEvents<string>, CreateError>)
    modifies db
    ensures r.Err? ==> db.index == old(db.index) && db.events == old(db.events)
    ensures r.Ok? ==>
      r.value == Init(ne.id, ne.events).MarkPersisted() &&
      db.index == old(db.index)[ne.id := NewRow(cfg, ne)] &&
      db.events == AppendRows(old(db.events), ne.id, 0, ne.events)
    ensures Unique(old(db.index), cfg.uniqueCols) ==> Unique(db.index, cfg.uniqueCols)
  {
    var op := db.Begin();
    r := CreateInOp(cfg, op, ne, hydrate, nested);
    if r.Ok? {
      db.Commit(op);
    }
  }

  /** `update`: the index row and the events are committed together, or not at all. */
  method Update(cfg: RepoConfig, db: Database, e: EntityState, nested: Option<ModifyError>)
    returns (r: Result<nat, ModifyError>, e': EntityState)
    modifies db
    ensures r.Err? ==> db.index == old(db.index) && db.events == old(db.events)
    ensures r.Ok? && !e.events.AnyNew() ==> r == Ok(0) && e' == e && db.index == old(db.index) && db.events == old(db.events)
    ensures r.Ok? && e.events.AnyNew() ==>
      r == Ok(|e.events.newEvents|) && e'.events == e.events.MarkPersisted() &&
      db.events == AppendRows(old(db.events), e.events.entityId, |e.events.persisted|, e.events.newEvents) &&
      db.index == (if UpdatesNeeded(cfg.columns)
                   then UpdateRow(old(db.index), e.events.entityId, Project(e.values, AssignedNames(cfg)), false)
                   else old(db.index))
    ensures Unique(old(db.index), cfg.uniqueCols) ==> Unique(db.index, cfg.uniqueCols)
  {
    var op := db.Begin();
    r, e' := UpdateInOp(cfg, op, e, nested);
    if r.Ok? {
      db.Commit(op);
    }
  }

  /** Creating an entity whose id has no events yet leaves it current: the
      table holds exactly its events, under sequences 1, 2, ... */
  lemma CreateMakesCurrent(events: map<Key, string>, ne: NewEntity)
    requires forall key: Key :: key in events ==> key.0 != ne.id
    ensures !Conflicts(events, ne.id, 0, |ne.events|)
    ensures Current(AppendRows(events, ne.id, 0, ne.events), Init(ne.id, ne.events).MarkPersisted())
  {
    PersistKeepsCurrent(events, Init(ne.id, ne.events));
  }
}
