/** The error types a repository generates, the constraint names of its
    column enum, and the mapping from a violated constraint to its column. */
module RepoErrors {
  import opened Wrappers
  import opened EsErrors

  /** A column of the column enum: its name, whether it is the id, and a custom
      constraint name if one is configured. */
  datatype ConstraintColumn = ConstraintColumn(name: string, isId: bool, custom: Option<string>)

  /** One variant of the column enum and the constraints that map to it. */
  datatype ColumnVariant = ColumnVariant(columnName: string, constraintNames: seq<string>)

  /** `{table}_{col}_key`, then `{table}_pkey` for the id, then the custom name. */
  function ConstraintNames(table: string, col: ConstraintColumn): (r: seq<string>)
    ensures |r| >= 1 && r[0] == table + "_" + col.name + "_key"
    ensures (table + "_pkey" in r) <== col.isId
    ensures col.custom.Some? ==> col.custom.value in r && r[|r| - 1] == col.custom.value
    ensures |r| == 1 + (if col.isId then 1 else 0) + (if col.custom.Some? then 1 else 0)
  {
    [table + "_" + col.name + "_key"] +
    (if col.isId then [table + "_pkey"] else []) +
    (if col.custom.Some? then [col.custom.value] else [])
  }

  function ColumnVariants(table: string, cols: seq<ConstraintColumn>): (r: seq<ColumnVariant>)
    ensures |r| == |cols|
    ensures forall i :: 0 <= i < |cols| ==> r[i] == ColumnVariant(cols[i].name, ConstraintNames(table, cols[i]))
  {
    if cols == [] then []
    else ColumnVariants(table, cols[..|cols| - 1]) + [ColumnVariant(cols[|cols| - 1].name, ConstraintNames(table, cols[|cols| - 1]))]
  }

  /** The generated `map_constraint_column`: the arms are tried column by column,
      each column's names in order; the first arm naming the constraint wins. */
  function MapConstraintColumn(variants: seq<ColumnVariant>, constraint: Option<string>): (r: Option<string>)
    ensures r.Some? ==>
      constraint.Some? && exists v :: v in variants && v.columnName == r.value && constraint.value in v.constraintNames
  {
    if constraint.None? || variants == [] then None
    else if constraint.value in variants[0].constraintNames then Some(variants[0].columnName)
    else MapConstraintColumn(variants[1..], constraint)
  }

  /** The mapped column is the first whose constraint list names the constraint;
      with no such column, or no constraint name, the result is `None`. */
  lemma {:induction false} MapConstraintColumnFirstMatch(variants: seq<ColumnVariant>, constraint: Option<string>)
    ensures MapConstraintColumn(variants, constraint).Some? ==> (constraint.Some? &&
      exists i :: 0 <= i < |variants| && variants[i].columnName == MapConstraintColumn(variants, constraint).value &&
        constraint.value in variants[i].constraintNames &&
        forall j :: 0 <= j < i ==> constraint.value !in variants[j].constraintNames)
    ensures MapConstraintColumn(variants, constraint).None? <==>
      constraint.None? || forall i :: 0 <= i < |variants| ==> constraint.value !in variants[i].constraintNames
  {
    if constraint.Some? && variants != [] && constraint.value !in variants[0].constraintNames {
      var rest := variants[1..];
      MapConstraintColumnFirstMatch(rest, constraint);
      assert forall i :: 1 <= i < |variants| ==> variants[i] == rest[i - 1];
      if MapConstraintColumn(rest, constraint).Some? {
        var i :| 0 <= i < |rest| && rest[i].columnName == MapConstraintColumn(rest, constraint).value &&
          constraint.value in rest[i].constraintNames &&
          forall j :: 0 <= j < i ==> constraint.value !in rest[j].constraintNames;
        assert variants[i + 1] == rest[i];
        assert forall j :: 0 <= j < i + 1 ==> constraint.value !in variants[j].constraintNames by {
          forall j | 0 <= j < i + 1 ensures constraint.value !in variants[j].constraintNames {
            if j > 0 { assert variants[j] == rest[j - 1]; }
          }
        }
      }
    }
  }

  /** The unique-key constraint of a column, and `{table}_pkey`, map back to the
      id column when it comes first in the column enum. */
  lemma PrimaryKeyMapsToId(table: string, idCol: ConstraintColumn, others: seq<ConstraintColumn>)
    requires idCol.isId
    ensures var vs := ColumnVariants(table, [idCol] + others);
      MapConstraintColumn(vs, Some(table + "_pkey")) == Some(idCol.name) &&
      MapConstraintColumn(vs, Some(table + "_" + idCol.name + "_key")) == Some(idCol.name)
  {
    var vs := ColumnVariants(table, [idCol] + others);
    assert vs[0] == ColumnVariant(idCol.name, ConstraintNames(table, idCol));
  }

  /** The generated `CreateError`; a nested child contributes a variant holding
      the child repository's create error. */
  datatype CreateError =
    | CreateSqlx(sqlx: DbError)
    | CreateConstraintViolation(column: Option<string>, value: Option<string>, inner: DbError)
    | CreateConcurrentModification
    | CreateHydrationError(hydration: EntityHydrationError)
    | CreatePostPersistHookError(hook: DbError)
    | CreateNested(variant: string, child: CreateError)

  /** The generated `ModifyError`; each nested child contributes both a Modify
      and a Create variant. */
  datatype ModifyError =
    | ModifySqlx(sqlx: DbError)
    | ModifyConstraintViolation(column: Option<string>, value: Option<string>, inner: DbError)
    | ModifyConcurrentModification
    | ModifyPostPersistHookError(hook: DbError)
    | ModifyNestedModify(variant: string, childModify: ModifyError)
    | ModifyNestedCreate(variant: string, childCreate: CreateError)

  datatype FindError =
    | FindSqlx(sqlx: DbError)
    | FindNotFound(entity: string, column: string, value: string)
    | FindHydrationError(hydration: EntityHydrationError)

  datatype QueryError =
    | QuerySqlx(sqlx: DbError)
    | QueryHydrationError(hydration: EntityHydrationError)
    | QueryCursorDestructureError(cursor: CursorDestructureError)

  /** `was_concurrent_modification` on a create error, asking nested children in turn. */
  predicate CreateWasConcurrentModification(e: CreateError)
  {
    match e
    case CreateConcurrentModification => true
    case CreateNested(_, child) => CreateWasConcurrentModification(child)
    case _ => false
  }

  predicate ModifyWasConcurrentModification(e: ModifyError)
  {
    match e
    case ModifyConcurrentModification => true
    case ModifyNestedModify(_, child) => ModifyWasConcurrentModification(child)
    case ModifyNestedCreate(_, child) => CreateWasConcurrentModification(child)
    case _ => false
  }

  /** What a create error is once every nested wrapper is taken off. */
  function CreateRoot(e: CreateError): (r: CreateError)
    ensures !r.CreateNested?
  {
    if e.CreateNested? then CreateRoot(e.child) else e
  }

  /** A modify error with its nested wrappers taken off: either a modify error of
      its own or, through a Create variant, a create error. */
  function ModifyRoot(e: ModifyError): (r: Result<ModifyError, CreateError>)
    ensures r.Ok? ==> !r.value.ModifyNestedModify? && !r.value.ModifyNestedCreate?
    ensures r.Err? ==> !r.error.CreateNested?
  {
    match e
    case ModifyNestedModify(_, child) => ModifyRoot(child)
    case ModifyNestedCreate(_, child) => Err(CreateRoot(child))
    case _ => Ok(e)
  }

  /** The error was a concurrent modification exactly when the innermost error is one. */
  lemma {:induction false} CreateConcurrentModificationIsRoot(e: CreateError)
    ensures CreateWasConcurrentModification(e) <==> CreateRoot(e) == CreateConcurrentModification
  {
    if e.CreateNested? {
      CreateConcurrentModificationIsRoot(e.child);
    }
  }

  lemma {:induction false} ModifyConcurrentModificationIsRoot(e: ModifyError)
    ensures ModifyWasConcurrentModification(e) <==>
      ModifyRoot(e) == Ok(ModifyConcurrentModification) || ModifyRoot(e) == Err(CreateConcurrentModification)
  {
    match e
    case ModifyNestedModify(_, child) =>
      ModifyConcurrentModificationIsRoot(child);
    case ModifyNestedCreate(_, child) =>
      CreateConcurrentModificationIsRoot(child);
    case _ =>
  }

  /** `was_duplicate(column)`: a constraint violation on that column. */
  predicate CreateWasDuplicate(e: CreateError, column: string)
  {
    e.CreateConstraintViolation? && e.column == Some(column)
  }

  predicate ModifyWasDuplicate(e: ModifyError, column: string)
  {
    e.ModifyConstraintViolation? && e.column == Some(column)
  }

  /** Column `i` is the first whose constraint list names the constraint. */
  predicate FirstNames(variants: seq<ColumnVariant>, constraint: string, i: int)
  {
    0 <= i < |variants| && constraint in variants[i].constraintNames &&
    forall j :: 0 <= j < i ==> constraint !in variants[j].constraintNames
  }

  lemma FirstNamesUnique(variants: seq<ColumnVariant>, constraint: string, i: int, k: int)
    requires FirstNames(variants, constraint, i) && FirstNames(variants, constraint, k)
    ensures i == k
  {
  }

  /** A constraint violation built from a violated constraint is a duplicate on
      a column exactly when that column is the first whose constraint list names
      the constraint. */
  lemma DuplicateOnMappedColumn(variants: seq<ColumnVariant>, constraint: string, value: Option<string>,
                                inner: DbError, column: string)
    ensures var col := MapConstraintColumn(variants, Some(constraint));
      CreateWasDuplicate(CreateConstraintViolation(col, value, inner), column) <==>
        exists i :: FirstNames(variants, constraint, i) && variants[i].columnName == column
    ensures var col := MapConstraintColumn(variants, Some(constraint));
      ModifyWasDuplicate(ModifyConstraintViolation(col, value, inner), column) <==>
        exists i :: FirstNames(variants, constraint, i) && variants[i].columnName == column
  {
    MapConstraintColumnFirstMatch(variants, Some(constraint));
    var col := MapConstraintColumn(variants, Some(constraint));
    if col.Some? {
      var i :| 0 <= i < |variants| && variants[i].columnName == col.value &&
        constraint in variants[i].constraintNames &&
        forall j :: 0 <= j < i ==> constraint !in variants[j].constraintNames;
      assert FirstNames(variants, constraint, i);
      forall k | FirstNames(variants, constraint, k)
        ensures variants[k].columnName == col.value
      {
        FirstNamesUnique(variants, constraint, i, k);
      }
    } else {
      forall k | FirstNames(variants, constraint, k)
        ensures false
      {
      }
    }
  }

  /** `duplicate_value`: the value of a constraint violation, when it carries one. */
  function CreateDuplicateValue(e: CreateError): (r: Option<string>)
    ensures r.Some? <==> e.CreateConstraintViolation? && e.value.Some?
    ensures r.Some? ==> r == e.value
  {
    match e
    case CreateConstraintViolation(_, Some(v), _) => Some(v)
    case _ => None
  }

  function ModifyDuplicateValue(e: ModifyError): (r: Option<string>)
    ensures r.Some? <==> e.ModifyConstraintViolation? && e.value.Some?
    ensures r.Some? ==> r == e.value
  {
    match e
    case ModifyConstraintViolation(_, Some(v), _) => Some(v)
    case _ => None
  }

  /** A constraint violation is never a concurrent modification, and a duplicate
      is reported for at most one column. */
  lemma DuplicateIsNotConcurrentModification(e: CreateError, a: string, b: string)
    ensures CreateWasDuplicate(e, a) ==> !CreateWasConcurrentModification(e)
    ensures CreateWasDuplicate(e, a) && CreateWasDuplicate(e, b) ==> a == b
  {
  }

  /** `was_not_found` */
  predicate FindWasNotFound(e: FindError)
  {
    e.FindNotFound?
  }

  /** `From<QueryError> for FindError`: a cursor error cannot arise in a find
      (the source marks it unreachable). */
  function FindErrorFromQuery(e: QueryError): (r: FindError)
    requires !e.QueryCursorDestructureError?
    ensures e.QuerySqlx? ==> r == FindSqlx(e.sqlx)
    ensures e.QueryHydrationError? ==> r == FindHydrationError(e.hydration)
    ensures !FindWasNotFound(r)
  {
    match e
    case QuerySqlx(s) => FindSqlx(s)
    case QueryHydrationError(h) => FindHydrationError(h)
  }

  /** The nested variant names of the modify error: `{V}Modify` then `{V}Create`
      for each child `V`, in order. */
  function ModifyNestedVariantNames(nested: seq<string>): (r: seq<string>)
    ensures |r| == 2 * |nested|
    ensures forall i :: 0 <= i < |nested| ==> r[2 * i] == nested[i] + "Modify" && r[2 * i + 1] == nested[i] + "Create"
  {
    if nested == [] then []
    else ModifyNestedVariantNames(nested[..|nested| - 1]) + [nested[|nested| - 1] + "Modify", nested[|nested| - 1] + "Create"]
  }
}
