/** The combined pagination cursor a repository generates: one variant per
    list_by cursor, tagged `By{column}`, with `From` wrapping a column cursor
    and `TryFrom` unwrapping it or failing with a typed error. */
module ComboCursors {
  import opened Wrappers
  import opened EsErrors

  /** A column cursor type: the column it orders by and the type's name. */
  datatype CursorStruct = CursorStruct(column: string, ident: string)

  /** A value of a column cursor type: the type's name and the position it holds. */
  datatype ColumnCursor = ColumnCursor(ident: string, position: seq<string>)

  /** A value of the combined cursor: the variant tag and the wrapped cursor. */
  datatype Combo = Combo(tag: string, inner: ColumnCursor)

  /** `tag`: the variant name for a cursor column. */
  function Tag(column: string): (t: string)
    ensures |t| == |column| + 2 && t[..2] == "By" && t[2..] == column
  {
    "By" + column
  }

  /** Different columns give different variants. */
  lemma TagInjective(a: string, b: string)
    requires Tag(a) == Tag(b)
    ensures a == b
  {
    assert a == Tag(a)[2..];
  }

  /** A variant of the combined cursor: its tag and the cursor type it holds. */
  datatype Variant = Variant(tag: string, ident: string)

  /** `variants`: one per cursor, in the given order. */
  function Variants(cursors: seq<CursorStruct>): (r: seq<Variant>)
    ensures |r| == |cursors|
    ensures forall i :: 0 <= i < |cursors| ==> r[i] == Variant(Tag(cursors[i].column), cursors[i].ident)
  {
    if cursors == [] then []
    else Variants(cursors[..|cursors| - 1]) + [Variant(Tag(cursors[|cursors| - 1].column), cursors[|cursors| - 1].ident)]
  }

  /** The users example: cursors on `id` then `name` give variants `Byid` then `Byname`. */
  lemma UsersCursorVariants()
    ensures Variants([CursorStruct("id", "UsersByIdCursor"), CursorStruct("name", "UsersByNameCursor")])
      == [Variant("Byid", "UsersByIdCursor"), Variant("Byname", "UsersByNameCursor")]
  {
    var r := Variants([CursorStruct("id", "UsersByIdCursor"), CursorStruct("name", "UsersByNameCursor")]);
    assert r[0] == Variant("Byid", "UsersByIdCursor");
    assert r[1] == Variant("Byname", "UsersByNameCursor");
  }

  /** `From<ColumnCursor>`: wraps the cursor in its column's variant. */
  function From(kind: CursorStruct, c: ColumnCursor): (r: Combo)
    ensures r.tag == Tag(kind.column) && r.inner == c
  {
    Combo(Tag(kind.column), c)
  }

  /** `TryFrom<Combo>` for the cursor type `kind`: the wrapped cursor if the
      variant is `kind`'s, otherwise `CursorDestructureError(combo type, kind's type)`. */
  function TryFrom(comboIdent: string, kind: CursorStruct, combo: Combo): (r: Result<ColumnCursor, CursorDestructureError>)
    ensures r.Ok? <==> combo.tag == Tag(kind.column)
  {
    if combo.tag == Tag(kind.column) then Ok(combo.inner)
    else Err(CursorDestructureErrorFrom((comboIdent, kind.ident)))
  }

  /** Wrapping a cursor and unwrapping it as the same type gives it back. */
  lemma FromTryFromRoundTrip(comboIdent: string, kind: CursorStruct, c: ColumnCursor)
    ensures TryFrom(comboIdent, kind, From(kind, c)) == Ok(c)
  {
  }

  /** Unwrapping as another column's cursor type fails with the combined type's
      name and the requested type's name. */
  lemma TryFromWrongVariant(comboIdent: string, held: CursorStruct, wanted: CursorStruct, c: ColumnCursor)
    requires held.column != wanted.column
    ensures TryFrom(comboIdent, wanted, From(held, c)) == Err(CursorDestructureError(comboIdent, wanted.ident))
  {
    if Tag(held.column) == Tag(wanted.column) {
      TagInjective(held.column, wanted.column);
    }
  }

  /** A variant of the sort-by enum: its name and whether it is the default. */
  datatype SortVariant = SortVariant(name: string, isDefault: bool)

  /** `sort_by`: one variant per cursor column, the first one marked default. */
  method SortBy(columns: seq<string>) returns (vs: seq<SortVariant>)
    ensures |vs| == |columns|
    ensures forall i :: 0 <= i < |columns| ==> vs[i].name == columns[i] && (vs[i].isDefault <==> i == 0)
  {
    var default := true;
    vs := [];
    var i := 0;
    while i < |columns|
      invariant 0 <= i <= |columns|
      invariant default <==> i == 0
      invariant |vs| == i
      invariant forall k :: 0 <= k < i ==> vs[k].name == columns[k] && (vs[k].isDefault <==> k == 0)
    {
      if default {
        default := false;
        vs := vs + [SortVariant(columns[i], true)];
      } else {
        vs := vs + [SortVariant(columns[i], false)];
      }
      i := i + 1;
    }
  }
}
