/** The repository's column configuration: per-column options with their
    defaults, the implicit `id` and `created_at` columns, and the column lists
    and placeholder numbering the generated INSERT and UPDATE queries use. */
module RepoColumns {
  import opened Wrappers
  import opened Text

  datatype CreateOpts = CreateOpts(persist: Option<bool>, accessor: Option<string>)
  datatype UpdateOpts = UpdateOpts(persist: Option<bool>, accessor: Option<string>)
  datatype ListForOpts = ListForOpts(byColumns: seq<string>)
  /** `parent` or `parent(accessor = ..)`. */
  datatype ParentOpts = ParentOpts(accessor: Option<string>)

  /** The options of one column, `None` where the attribute was not given. */
  datatype ColumnOpts = ColumnOpts(
    ty: string,
    isId: bool,
    findBy: Option<bool>,
    listBy: Option<bool>,
    listForOpts: Option<ListForOpts>,
    parentOpts: Option<ParentOpts>,
    createOpts: Option<CreateOpts>,
    updateOpts: Option<UpdateOpts>)

  datatype Column = Column(name: string, opts: ColumnOpts)

  /** A configuration error, as darling reports it. */
  datatype ConfigError = Custom(message: string)

  /** An invalid `list_for(by(..))` reference: the name, the column it is on,
      and the list_by columns that would have been accepted. */
  datatype ListByError = ListByError(byName: string, column: string, available: seq<string>)

  /** `ColumnOpts::new`: only a type, every option left to its default. */
  function NewOpts(ty: string): ColumnOpts
  {
    ColumnOpts(ty, false, None, None, None, None, None, None)
  }

  function NewColumn(name: string, ty: string): Column
  {
    Column(name, NewOpts(ty))
  }

  /** `find_by` is on unless explicitly switched off. */
  predicate FindBy(o: ColumnOpts)
  {
    o.findBy.None? || o.findBy.value
  }

  /** `list_by` is off unless explicitly switched on. */
  predicate ListBy(o: ColumnOpts)
  {
    o.listBy.Some? && o.listBy.value
  }

  predicate ListFor(o: ColumnOpts)
  {
    o.listForOpts.Some?
  }

  function ListForByColumns(o: ColumnOpts): (r: seq<string>)
    ensures !ListFor(o) ==> r == []
  {
    if o.listForOpts.Some? then o.listForOpts.value.byColumns else []
  }

  /** Persisted in the INSERT unless `create(persist = false)`. */
  predicate PersistOnCreate(o: ColumnOpts)
  {
    o.createOpts.None? || o.createOpts.value.persist.None? || o.createOpts.value.persist.value
  }

  /** Persisted in the UPDATE unless `update(persist = false)`. */
  predicate PersistOnUpdate(o: ColumnOpts)
  {
    o.updateOpts.None? || o.updateOpts.value.persist.None? || o.updateOpts.value.persist.value
  }

  /** Each default holds unless the opposite was written explicitly. */
  lemma OptionDefaults(o: ColumnOpts)
    ensures FindBy(o) <==> o.findBy != Some(false)
    ensures ListBy(o) <==> o.listBy == Some(true)
    ensures PersistOnCreate(o) <==> !(o.createOpts.Some? && o.createOpts.value.persist == Some(false))
    ensures PersistOnUpdate(o) <==> !(o.updateOpts.Some? && o.updateOpts.value.persist == Some(false))
  {
  }

  /** A column given only a type is found by, not listed by, persisted on both
      create and update, and has no `list_for`. */
  lemma NewOptsDefaults(ty: string)
    ensures var o := NewOpts(ty);
      FindBy(o) && !ListBy(o) && !ListFor(o) && PersistOnCreate(o) && PersistOnUpdate(o) &&
      ListForByColumns(o) == [] && !o.isId
  {
  }

  /** `Column::for_id`. */
  function ForId(ty: string): (c: Column)
    ensures c.name == "id" && c.opts.ty == ty && c.opts.isId
  {
    Column("id", ColumnOpts(ty, true, Some(true), Some(true), None, None,
      Some(CreateOpts(Some(true), None)), Some(UpdateOpts(Some(false), None))))
  }

  /** `Column::for_created_at`; on update its value comes from the events. */
  function ForCreatedAt(): (c: Column)
    ensures c.name == "created_at" && !c.opts.isId
  {
    Column("created_at", ColumnOpts("DateTime<Utc>", false, Some(false), Some(true), None, None,
      Some(CreateOpts(Some(false), None)),
      Some(UpdateOpts(Some(false), Some("events().entity_first_persisted_at()")))))
  }

  /** `id` is written on create but never on update; `created_at` on neither;
      both are list_by columns and only `id` is a find_by column. */
  lemma ImplicitColumns(ty: string)
    ensures PersistOnCreate(ForId(ty).opts) && !PersistOnUpdate(ForId(ty).opts)
    ensures !PersistOnCreate(ForCreatedAt().opts) && !PersistOnUpdate(ForCreatedAt().opts)
    ensures ListBy(ForId(ty).opts) && ListBy(ForCreatedAt().opts)
    ensures FindBy(ForId(ty).opts) && !FindBy(ForCreatedAt().opts)
  {
  }

  /** The column list as `set_id_column` leaves it. */
  function WithIdColumn(user: seq<Column>, idTy: string): (all: seq<Column>)
    ensures |all| == |user| + 2 && all[0] == ForCreatedAt() && all[1] == ForId(idTy)
    ensures all[2..] == user
  {
    [ForCreatedAt(), ForId(idTy)] + user
  }

  /** `Columns`: the configured columns, in declaration order. */
  class Columns {
    var all: seq<Column>

    constructor (cols: seq<Column>)
      ensures all == cols
    {
      all := cols;
    }

    /** `set_id_column`: `created_at`, then `id`, then the configured columns. */
    method SetIdColumn(idTy: string)
      modifies this
      ensures all == WithIdColumn(old(all), idTy)
    {
      var front := [ForCreatedAt(), ForId(idTy)];
      all := front + all;
    }
  }

  /** `iter().filter(p)` over columns, keeping their order. */
  function Filter(cols: seq<Column>, p: Column -> bool): (r: seq<Column>)
    ensures |r| <= |cols|
  {
    if cols == [] then []
    else
      var last := cols[|cols| - 1];
      Filter(cols[..|cols| - 1], p) + (if p(last) then [last] else [])
  }

  /** The filter keeps exactly the columns that satisfy the predicate. */
  lemma {:induction false} FilterContents(cols: seq<Column>, p: Column -> bool)
    ensures forall c :: c in Filter(cols, p) <==> c in cols && p(c)
  {
    if cols != [] {
      FilterContents(cols[..|cols| - 1], p);
      assert cols == cols[..|cols| - 1] + [cols[|cols| - 1]];
    }
  }

  /** Filtering a concatenation filters each part. */
  lemma {:induction false} FilterAppend(a: seq<Column>, b: seq<Column>, p: Column -> bool)
    ensures Filter(a + b, p) == Filter(a, p) + Filter(b, p)
  {
    if b == [] {
      assert a + b == a;
    } else {
      FilterAppend(a, b[..|b| - 1], p);
      assert (a + b)[..|a + b| - 1] == a + b[..|b| - 1];
    }
  }

  predicate CreatePersisted(c: Column) { PersistOnCreate(c.opts) }
  predicate UpdatePersisted(c: Column) { PersistOnUpdate(c.opts) }
  predicate UpdateBound(c: Column) { PersistOnUpdate(c.opts) || c.opts.isId }
  predicate BulkSet(c: Column) { PersistOnUpdate(c.opts) && !c.opts.isId }
  predicate IsListBy(c: Column) { ListBy(c.opts) }

  /** The columns the INSERT writes, in order. */
  function CreateColumns(all: seq<Column>): seq<Column>
  {
    Filter(all, CreatePersisted)
  }

  function Names(cols: seq<Column>): (r: seq<string>)
    ensures |r| == |cols| && forall k :: 0 <= k < |cols| ==> r[k] == cols[k].name
  {
    if cols == [] then [] else Names(cols[..|cols| - 1]) + [cols[|cols| - 1].name]
  }

  /** The positions in `cols` of the columns the filter keeps, in order. */
  ghost function Positions(cols: seq<Column>, p: Column -> bool): seq<nat>
  {
    if cols == [] then []
    else Positions(cols[..|cols| - 1], p) + (if p(cols[|cols| - 1]) then [|cols| - 1] else [])
  }

  /** The filter keeps, in increasing order of position, exactly the columns
      that satisfy the predicate. */
  lemma {:induction false} FilterPositions(cols: seq<Column>, p: Column -> bool)
    ensures var r, idx := Filter(cols, p), Positions(cols, p);
      |idx| == |r| &&
      (forall k, l :: 0 <= k < l < |idx| ==> idx[k] < idx[l]) &&
      (forall k :: 0 <= k < |idx| ==> idx[k] < |cols| && p(cols[idx[k]]) && r[k] == cols[idx[k]]) &&
      (forall i :: 0 <= i < |cols| && p(cols[i]) ==> i in idx)
  {
    if cols != [] {
      FilterPositions(cols[..|cols| - 1], p);
    }
  }

  /** The names of the filtered columns are the names of the columns that satisfy the predicate. */
  lemma NamesOfFilter(cols: seq<Column>, p: Column -> bool)
    ensures forall n :: n in Names(Filter(cols, p)) <==> exists c :: c in cols && p(c) && c.name == n
  {
    var cs := Filter(cols, p);
    var r := Names(cs);
    FilterContents(cols, p);
    forall n | n in r ensures exists c :: c in cols && p(c) && c.name == n {
      var k :| 0 <= k < |r| && r[k] == n;
      assert cs[k] in cs;
    }
    forall c | c in cols && p(c) ensures c.name in r {
      assert c in cs;
      var k :| 0 <= k < |cs| && cs[k] == c;
      assert r[k] == c.name;
    }
  }

  /** `insert_column_names`: the name of every column persisted on create. */
  function InsertColumnNames(all: seq<Column>): (r: seq<string>)
    ensures |r| <= |all|
    ensures forall n :: n in r <==> exists c :: c in all && PersistOnCreate(c.opts) && c.name == n
  {
    NamesOfFilter(all, CreatePersisted);
    Names(CreateColumns(all))
  }

  /** The names come in the order of the columns: the k-th is that of the
      k-th column persisted on create. */
  lemma InsertColumnNamesInOrder(all: seq<Column>)
    ensures var r, idx := InsertColumnNames(all), Positions(all, CreatePersisted);
      |idx| == |r| &&
      (forall k, l :: 0 <= k < l < |idx| ==> idx[k] < idx[l]) &&
      (forall k :: 0 <= k < |idx| ==> idx[k] < |all| && PersistOnCreate(all[idx[k]].opts) && r[k] == all[idx[k]].name) &&
      (forall i :: 0 <= i < |all| && PersistOnCreate(all[i].opts) ==> i in idx)
  {
    FilterPositions(all, CreatePersisted);
  }

  function Placeholder(i: nat): string
  {
    "$" + NatToString(i)
  }

  /** `$first, $first+1, ...`, `count` of them. */
  function PlaceholderList(first: nat, count: nat): (r: seq<string>)
    ensures |r| == count
    ensures forall k :: 0 <= k < count ==> r[k] == Placeholder(first + k)
  {
    if count == 0 then [] else PlaceholderList(first, count - 1) + [Placeholder(first + count - 1)]
  }

  /** `insert_placeholders(offset)`: one placeholder per INSERT column, `$offset+1` onwards. */
  function InsertPlaceholders(all: seq<Column>, offset: nat): (r: string)
    ensures r == Join(", ", PlaceholderList(offset + 1, |InsertColumnNames(all)|))
  {
    Join(", ", PlaceholderList(offset + 1, |CreateColumns(all)|))
  }

  /** The placeholder list is empty exactly when no column is inserted. */
  lemma InsertPlaceholdersEmpty(all: seq<Column>, offset: nat)
    ensures InsertColumnNames(all) == [] <==> InsertPlaceholders(all, offset) == ""
  {
    var ps := PlaceholderList(offset + 1, |InsertColumnNames(all)|);
    if ps != [] {
      assert ps[|ps| - 1] == Placeholder(offset + |ps|);
      JoinNonEmpty(", ", ps);
    }
  }

  /** The columns the UPDATE sets, in order. */
  function UpdateColumns(cols: seq<Column>): seq<Column>
  {
    Filter(cols, UpdatePersisted)
  }

  /** An assignment `name = $index` of the UPDATE. */
  datatype Assignment = Assignment(column: string, index: nat)

  /** The assignments of `sql_updates`: the first column is skipped, then every
      column persisted on update is numbered from 2 (`$1` is the id). */
  function UpdateAssignments(all: seq<Column>): (r: seq<Assignment>)
    ensures all == [] ==> r == []
    ensures all != [] ==> |r| == |UpdateColumns(all[1..])|
    ensures all != [] ==> forall k :: 0 <= k < |r| ==>
      r[k] == Assignment(UpdateColumns(all[1..])[k].name, k + 2)
  {
    if all == [] then [] else Numbered(UpdateColumns(all[1..]), 2)
  }

  function Numbered(cols: seq<Column>, first: nat): (r: seq<Assignment>)
    ensures |r| == |cols|
    ensures forall k :: 0 <= k < |cols| ==> r[k] == Assignment(cols[k].name, first + k)
  {
    if cols == [] then [] else Numbered(cols[..|cols| - 1], first) + [Assignment(cols[|cols| - 1].name, first + |cols| - 1)]
  }

  function RenderAssignment(a: Assignment): string
  {
    a.column + " = " + Placeholder(a.index)
  }

  function RenderAll(asg: seq<Assignment>): (r: seq<string>)
    ensures |r| == |asg| && forall k :: 0 <= k < |asg| ==> r[k] == RenderAssignment(asg[k])
  {
    if asg == [] then [] else RenderAll(asg[..|asg| - 1]) + [RenderAssignment(asg[|asg| - 1])]
  }

  /** `sql_updates`. */
  function SqlUpdates(all: seq<Column>): (r: string)
    ensures exists parts: seq<string> ::
      && r == Join(", ", parts)
      && |parts| == (if all == [] then 0 else |UpdateColumns(all[1..])|)
      && forall k :: 0 <= k < |parts| ==> parts[k] == UpdateColumns(all[1..])[k].name + " = " + Placeholder(k + 2)
  {
    var parts := RenderAll(UpdateAssignments(all));
    assert forall k :: 0 <= k < |parts| ==> parts[k] == UpdateColumns(all[1..])[k].name + " = " + Placeholder(k + 2);
    Join(", ", parts)
  }

  /** The columns bound as UPDATE arguments: those persisted on update, and the id. */
  function UpdateArgColumns(all: seq<Column>): seq<Column>
  {
    Filter(all, UpdateBound)
  }

  /** `update_query_args`. */
  function UpdateQueryArgs(all: seq<Column>): (r: seq<string>)
    ensures |r| <= |all|
    ensures forall n :: n in r <==> exists c :: c in all && (PersistOnUpdate(c.opts) || c.opts.isId) && c.name == n
  {
    NamesOfFilter(all, UpdateBound);
    Names(UpdateArgColumns(all))
  }

  lemma {:induction false} UpdateArgsOfPlainColumns(user: seq<Column>)
    requires forall i :: 0 <= i < |user| ==> !user[i].opts.isId
    ensures Filter(user, UpdateBound) == Filter(user, UpdatePersisted)
  {
    if user != [] {
      UpdateArgsOfPlainColumns(user[..|user| - 1]);
    }
  }

  /** With the implicit columns in front, the UPDATE's placeholders match its
      arguments: `$1` is the id, and the k-th assignment's `$k+2` is bound to
      the k-th argument after the id, the same column. `created_at` and `id`
      are never assigned. */
  lemma UpdateColumnsAfterCreatedAt(user: seq<Column>, idTy: string)
    ensures UpdateColumns(WithIdColumn(user, idTy)[1..]) == UpdateColumns(user)
  {
    var id := ForId(idTy);
    assert WithIdColumn(user, idTy)[1..] == [id] + user;
    FilterAppend([id], user, UpdatePersisted);
    assert [id][..0] == [];
  }

  lemma UpdateArgsAfterId(user: seq<Column>, idTy: string)
    requires forall i :: 0 <= i < |user| ==> !user[i].opts.isId
    ensures UpdateArgColumns(WithIdColumn(user, idTy)) == [ForId(idTy)] + UpdateColumns(user)
  {
    var ca, id := ForCreatedAt(), ForId(idTy);
    assert WithIdColumn(user, idTy) == [ca, id] + user;
    FilterAppend([ca, id], user, UpdateBound);
    assert [ca, id][..1] == [ca];
    assert [ca][..0] == [];
    assert Filter([ca, id], UpdateBound) == [id];
    UpdateArgsOfPlainColumns(user);
  }

  /** With the implicit columns in front, the UPDATE's placeholders match its
      arguments: `$1` is the id, and the k-th assignment's `$k+2` is bound to
      the k-th argument after the id, the same column. `created_at` and `id`
      are never assigned: the assignments are the configured columns persisted
      on update, in order. */
  lemma UpdatePlaceholdersMatchArgs(user: seq<Column>, idTy: string)
    requires forall i :: 0 <= i < |user| ==> !user[i].opts.isId
    ensures var all := WithIdColumn(user, idTy);
      var args := UpdateQueryArgs(all);
      var asg := UpdateAssignments(all);
      |args| == |asg| + 1 && args[0] == "id" &&
      (forall k :: 0 <= k < |asg| ==> asg[k].index == k + 2 && asg[k].column == args[k + 1]) &&
      |asg| == |UpdateColumns(user)| &&
      (forall k :: 0 <= k < |asg| ==> asg[k].column == UpdateColumns(user)[k].name)
  {
    var all := WithIdColumn(user, idTy);
    UpdateColumnsAfterCreatedAt(user, idTy);
    UpdateArgsAfterId(user, idTy);
    var uc := UpdateColumns(user);
    var cols := [ForId(idTy)] + uc;
    var args := UpdateQueryArgs(all);
    var asg := UpdateAssignments(all);
    assert args == Names(cols);
    assert |asg| == |uc|;
    forall k | 0 <= k < |asg|
      ensures asg[k].index == k + 2 && asg[k].column == args[k + 1] && asg[k].column == uc[k].name
    {
      assert cols[k + 1] == uc[k];
    }
  }

  /** `updates_needed`: some column is persisted on update. */
  predicate UpdatesNeeded(all: seq<Column>)
  {
    exists i :: 0 <= i < |all| && PersistOnUpdate(all[i].opts)
  }

  /** No UPDATE assignment is generated exactly when no column after the first
      is persisted on update; with the implicit columns in front, exactly when
      `updates_needed` is false. */
  lemma UpdatesNeededIffAssignments(user: seq<Column>, idTy: string)
    ensures UpdatesNeeded(WithIdColumn(user, idTy)) <==> UpdateAssignments(WithIdColumn(user, idTy)) != []
  {
    var all := WithIdColumn(user, idTy);
    FilterContents(all[1..], UpdatePersisted);
    if UpdateAssignments(all) != [] {
      AssignmentsNeedUpdates(all);
    }
    if UpdatesNeeded(all) {
      UpdatesGiveAssignments(user, idTy);
    }
  }

  /** An assignment is generated only for a column persisted on update. */
  lemma AssignmentsNeedUpdates(all: seq<Column>)
    requires UpdateAssignments(all) != []
    ensures UpdatesNeeded(all)
  {
    FilterContents(all[1..], UpdatePersisted);
    var c := UpdateColumns(all[1..])[0];
    assert c in UpdateColumns(all[1..]);
    var j :| 0 <= j < |all[1..]| && all[1..][j] == c;
    assert all[j + 1] == c;
  }

  /** Behind the implicit columns, which are never updated, any column
      persisted on update gets an assignment. */
  lemma UpdatesGiveAssignments(user: seq<Column>, idTy: string)
    requires UpdatesNeeded(WithIdColumn(user, idTy))
    ensures UpdateAssignments(WithIdColumn(user, idTy)) != []
  {
    var all := WithIdColumn(user, idTy);
    FilterContents(all[1..], UpdatePersisted);
    var i :| 0 <= i < |all| && PersistOnUpdate(all[i].opts);
    assert i >= 2;
    assert all[i] == all[1..][i - 1];
    assert all[i] in UpdateColumns(all[1..]);
  }

  /** `sql_bulk_update_set`'s columns: persisted on update and not the id. */
  function BulkSetColumns(all: seq<Column>): (r: seq<Column>)
    ensures forall c :: c in r <==> c in all && PersistOnUpdate(c.opts) && !c.opts.isId
  {
    FilterContents(all, BulkSet);
    Filter(all, BulkSet)
  }

  function BulkSetItems(cols: seq<Column>): (r: seq<string>)
    ensures |r| == |cols| && forall k :: 0 <= k < |cols| ==> r[k] == cols[k].name + " = unnested." + cols[k].name
  {
    if cols == [] then [] else BulkSetItems(cols[..|cols| - 1]) + [cols[|cols| - 1].name + " = unnested." + cols[|cols| - 1].name]
  }

  /** `sql_bulk_update_set`: the SET list of the bulk UPDATE, one
      `name = unnested.name` item per bulk-set column in order, joined by
      commas; empty exactly when no column is bulk-set. */
  function SqlBulkUpdateSet(all: seq<Column>): (r: string)
    ensures exists parts: seq<string> ::
      && r == Join(", ", parts)
      && |parts| == |BulkSetColumns(all)|
      && forall k :: 0 <= k < |parts| ==> parts[k] == BulkSetColumns(all)[k].name + " = unnested." + BulkSetColumns(all)[k].name
    ensures BulkSetColumns(all) == [] <==> r == ""
  {
    var cols := BulkSetColumns(all);
    var items := BulkSetItems(cols);
    if items == [] then ""
    else
      var c := cols[|cols| - 1];
      assert items[|items| - 1] == c.name + " = unnested." + c.name;
      JoinNonEmpty(", ", items);
      Join(", ", items)
  }

  /** `update_all_column_names`: the name of every column persisted on update,
      and of the id. */
  function UpdateAllColumnNames(all: seq<Column>): (r: seq<string>)
    ensures forall n :: n in r <==> exists c :: c in all && (PersistOnUpdate(c.opts) || c.opts.isId) && c.name == n
  {
    NamesOfFilter(all, UpdateBound);
    Names(UpdateArgColumns(all))
  }

  /** `all_list_by`'s names. */
  function ListByNames(all: seq<Column>): seq<string>
  {
    Names(Filter(all, IsListBy))
  }

  /** `find_list_by`: the first list_by column of that name. */
  function FindListBy(all: seq<Column>, name: string): (r: Option<Column>)
    ensures r.Some? ==> r.value in all && r.value.name == name && ListBy(r.value.opts)
    ensures r.Some? ==> exists i ::
      && 0 <= i < |all| && all[i] == r.value
      && forall j :: 0 <= j < i ==> !(all[j].name == name && ListBy(all[j].opts))
    ensures r.None? <==> forall i :: 0 <= i < |all| ==> !(all[i].name == name && ListBy(all[i].opts))
  {
    if all == [] then None
    else if all[0].name == name && ListBy(all[0].opts) then Some(all[0])
    else
      var r := FindListBy(all[1..], name);
      assert forall i :: 1 <= i < |all| ==> all[i] == all[1..][i - 1];
      if r.Some? then
        var i :|
          && 0 <= i < |all[1..]| && all[1..][i] == r.value
          && forall j :: 0 <= j < i ==> !(all[1..][j].name == name && ListBy(all[1..][j].opts));
        assert all[i + 1] == r.value;
        assert forall j :: 0 <= j < i + 1 ==> !(all[j].name == name && ListBy(all[j].opts));
        r
      else r
  }

  /** The errors for one list_for column's `by` names, in order. */
  function ByErrors(all: seq<Column>, col: string, byNames: seq<string>): seq<ListByError>
  {
    if byNames == [] then []
    else
      var n := byNames[|byNames| - 1];
      ByErrors(all, col, byNames[..|byNames| - 1]) + (if FindListBy(all, n).None? then [ListByError(n, col, ListByNames(all))] else [])
  }

  /** The errors `validate_list_for_by_columns` accumulates over the columns `cols` of `all`. */
  function ListForErrors(all: seq<Column>, cols: seq<Column>): seq<ListByError>
  {
    if cols == [] then []
    else
      var c := cols[|cols| - 1];
      ListForErrors(all, cols[..|cols| - 1]) + (if ListFor(c.opts) then ByErrors(all, c.name, ListForByColumns(c.opts)) else [])
  }

  /** `validate_list_for_by_columns`: every `by` name of every list_for column must
      name a list_by column; all offending names are reported together. */
  method ValidateListForByColumns(all: seq<Column>) returns (r: Result<(), seq<ListByError>>)
    ensures r.Ok? <==> ListForErrors(all, all) == []
    ensures r.Err? ==> r.error == ListForErrors(all, all)
  {
    var errors: seq<ListByError> := [];
    var i := 0;
    while i < |all|
      invariant 0 <= i <= |all|
      invariant errors == ListForErrors(all, all[..i])
    {
      var col := all[i];
      assert all[..i + 1][..i] == all[..i];
      if ListFor(col.opts) {
        var found := CheckByColumns(all, col.name, ListForByColumns(col.opts));
        errors := errors + found;
      }
      i := i + 1;
    }
    assert all[..|all|] == all;
    if errors == [] {
      return Ok(());
    }
    return Err(errors);
  }

  /** The inner loop of `validate_list_for_by_columns`: one column's `by` names. */
  method CheckByColumns(all: seq<Column>, col: string, byNames: seq<string>) returns (errors: seq<ListByError>)
    ensures errors == ByErrors(all, col, byNames)
  {
    errors := [];
    var j := 0;
    while j < |byNames|
      invariant 0 <= j <= |byNames|
      invariant errors == ByErrors(all, col, byNames[..j])
    {
      assert byNames[..j + 1][..j] == byNames[..j];
      if FindListBy(all, byNames[j]).None? {
        errors := errors + [ListByError(byNames[j], col, ListByNames(all))];
      }
      j := j + 1;
    }
    assert byNames[..|byNames|] == byNames;
  }

  /** Every error of one column names that column and a `by` name that is no list_by column. */
  lemma {:induction false} ByErrorsSound(all: seq<Column>, col: string, byNames: seq<string>)
    ensures forall e :: e in ByErrors(all, col, byNames) ==>
      e.column == col && e.byName in byNames && FindListBy(all, e.byName).None?
  {
    if byNames != [] {
      ByErrorsSound(all, col, byNames[..|byNames| - 1]);
      assert byNames == byNames[..|byNames| - 1] + [byNames[|byNames| - 1]];
    }
  }

  /** Every `by` name of one column that is no list_by column is reported. */
  lemma {:induction false} ByErrorsComplete(all: seq<Column>, col: string, byNames: seq<string>)
    ensures forall n :: n in byNames && FindListBy(all, n).None? ==>
      ListByError(n, col, ListByNames(all)) in ByErrors(all, col, byNames)
  {
    if byNames != [] {
      ByErrorsComplete(all, col, byNames[..|byNames| - 1]);
      assert byNames == byNames[..|byNames| - 1] + [byNames[|byNames| - 1]];
    }
  }

  /** One column whose `by` names all name list_by columns adds no error. */
  lemma {:induction false} NoByErrors(all: seq<Column>, col: string, byNames: seq<string>)
    requires forall n :: n in byNames ==> FindListBy(all, n).Some?
    ensures ByErrors(all, col, byNames) == []
  {
    if byNames != [] {
      NoByErrors(all, col, byNames[..|byNames| - 1]);
    }
  }

  /** Only a `by` name that names no list_by column is reported, against the
      column that carries it. */
  lemma {:induction false} ListForErrorsSound(all: seq<Column>, cols: seq<Column>)
    ensures forall e :: e in ListForErrors(all, cols) ==>
      FindListBy(all, e.byName).None? &&
      exists i :: 0 <= i < |cols| && cols[i].name == e.column && e.byName in ListForByColumns(cols[i].opts)
  {
    if cols != [] {
      var init, c := cols[..|cols| - 1], cols[|cols| - 1];
      ListForErrorsSound(all, init);
      ByErrorsSound(all, c.name, ListForByColumns(c.opts));
      forall e | e in ListForErrors(all, cols)
        ensures FindListBy(all, e.byName).None? &&
          exists i :: 0 <= i < |cols| && cols[i].name == e.column && e.byName in ListForByColumns(cols[i].opts)
      {
        if e in ListForErrors(all, init) {
          var i :| 0 <= i < |init| && init[i].name == e.column && e.byName in ListForByColumns(init[i].opts);
          assert cols[i] == init[i];
        } else {
          assert cols[|cols| - 1] == c;
        }
      }
    }
  }

  /** Every `by` name that names no list_by column is reported. */
  lemma {:induction false} ListForErrorsComplete(all: seq<Column>, cols: seq<Column>)
    ensures forall i, n :: 0 <= i < |cols| && n in ListForByColumns(cols[i].opts) && FindListBy(all, n).None? ==>
      ListByError(n, cols[i].name, ListByNames(all)) in ListForErrors(all, cols)
  {
    if cols != [] {
      var init, c := cols[..|cols| - 1], cols[|cols| - 1];
      ListForErrorsComplete(all, init);
      ByErrorsComplete(all, c.name, ListForByColumns(c.opts));
      forall i, n | 0 <= i < |cols| && n in ListForByColumns(cols[i].opts) && FindListBy(all, n).None?
        ensures ListByError(n, cols[i].name, ListByNames(all)) in ListForErrors(all, cols)
      {
        if i < |init| {
          assert cols[i] == init[i];
        }
      }
    }
  }

  /** The validation passes when every `by` reference names a list_by column. */
  lemma {:induction false} NoListForErrors(all: seq<Column>, cols: seq<Column>)
    requires forall i, n :: 0 <= i < |cols| && n in ListForByColumns(cols[i].opts) ==> FindListBy(all, n).Some?
    ensures ListForErrors(all, cols) == []
  {
    if cols != [] {
      var init, c := cols[..|cols| - 1], cols[|cols| - 1];
      NoListForErrors(all, init);
      NoByErrors(all, c.name, ListForByColumns(c.opts));
    }
  }

  /** A `by` reference to a column that is not list_by is reported. */
  lemma ValidationRejectsUnknown(idTy: string)
    ensures var bad := Column("status", NewOpts("String").(listForOpts := Some(ListForOpts(["nonexistent"]))));
      ListForErrors(WithIdColumn([bad], idTy), WithIdColumn([bad], idTy)) != []
  {
    var bad := Column("status", NewOpts("String").(listForOpts := Some(ListForOpts(["nonexistent"]))));
    var all := WithIdColumn([bad], idTy);
    assert all[2] == bad;
    assert FindListBy(all, "nonexistent").None?;
    assert "nonexistent" in ListForByColumns(all[2].opts);
    ListForErrorsComplete(all, all);
  }

  /** A `by(id)` reference passes: `id` is a list_by column. */
  lemma ValidationAcceptsId(idTy: string)
    ensures var good := Column("status", NewOpts("String").(listForOpts := Some(ListForOpts(["id"]))));
      ListForErrors(WithIdColumn([good], idTy), WithIdColumn([good], idTy)) == []
  {
    var good := Column("status", NewOpts("String").(listForOpts := Some(ListForOpts(["id"]))));
    var all := WithIdColumn([good], idTy);
    assert FindListBy(all, "id").Some? by {
      assert all[1].name == "id" && ListBy(all[1].opts);
    }
    assert ListForByColumns(all[0].opts) == [] && ListForByColumns(all[1].opts) == [];
    assert ListForByColumns(all[2].opts) == ["id"];
    NoListForErrors(all, all);
  }

  /** One item of `list_for(..)`: `by(a, b, ..)` or anything else. */
  datatype ListForItem = ByItem(names: seq<string>) | OtherItem

  const ExpectedByMessage := "Expected `by(col1, col2, ...)`"

  /** A bare `list_for` means `list_for(by(id))`. */
  function ListForFromWord(): (r: Result<ListForOpts, ConfigError>)
    ensures r == Ok(ListForOpts(["id"]))
  {
    Ok(ListForOpts(["id"]))
  }

  /** `list_for = true` is a bare `list_for`; `list_for = false` is rejected. */
  function ListForFromBool(value: bool): (r: Result<ListForOpts, ConfigError>)
    ensures value ==> r == ListForFromWord()
    ensures !value <==> r.Err?
  {
    if value then ListForFromWord()
    else Err(Custom("list_for = false is not supported; remove list_for entirely to disable"))
  }

  function ConcatNames(items: seq<ListForItem>): seq<string>
  {
    if items == [] then []
    else ConcatNames(items[..|items| - 1]) + (if items[|items| - 1].ByItem? then items[|items| - 1].names else [])
  }

  /** `list_for(by(..), by(..))`: the names of every `by`, in order; any other item is an error. */
  method ListForFromList(items: seq<ListForItem>) returns (r: Result<ListForOpts, ConfigError>)
    ensures r.Err? <==> exists i :: 0 <= i < |items| && items[i].OtherItem?
    ensures r.Err? ==> r.error == Custom(ExpectedByMessage)
    ensures r.Ok? ==> r.value.byColumns == ConcatNames(items)
  {
    var byColumns: seq<string> := [];
    var i := 0;
    while i < |items|
      invariant 0 <= i <= |items|
      invariant forall k :: 0 <= k < i ==> items[k].ByItem?
      invariant byColumns == ConcatNames(items[..i])
    {
      assert items[..i + 1][..i] == items[..i];
      match items[i] {
        case ByItem(names) =>
          byColumns := byColumns + names;
        case OtherItem =>
          return Err(Custom(ExpectedByMessage));
      }
      i := i + 1;
    }
    assert items[..|items|] == items;
    return Ok(ListForOpts(byColumns));
  }
}
