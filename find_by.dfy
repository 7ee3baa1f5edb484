/** The `find_by_<column>` generator: for each `find_by` column it emits
    `find_by_<column>` and `maybe_find_by_<column>` (each with its `_in_op`
    form), in a variant that skips soft-deleted rows and, when the repository
    asks for them, an `_include_deleted` variant that does not. */
module FindBy {
  import opened DeleteOptions

  /** `fetch_one` (the row must exist) or `fetch_optional`. */
  datatype Fetch = FetchOne | FetchOptional

  /** One generated function pair: the pool form, its `_in_op` form, the query
      they run and how they fetch. */
  datatype FindFn = FindFn(name: string, inOpName: string, query: string, fetch: Fetch)

  /** The query of one variant: the not-deleted condition of the repository's
      option is appended only on the `No` variant. */
  function FindQuery(table: string, column: string, variant: DeleteOption, repoDelete: DeleteOption): (q: string)
    ensures variant != No ==> q == "SELECT id FROM " + table + " WHERE " + column + " = $1"
    ensures variant == No && IsSoft(repoDelete) ==>
      q == "SELECT id FROM " + table + " WHERE " + column + " = $1 AND deleted = FALSE"
    ensures variant == No && !IsSoft(repoDelete) ==>
      q == "SELECT id FROM " + table + " WHERE " + column + " = $1"
  {
    "SELECT id FROM " + table + " WHERE " + column + " = $1" +
    (if variant == No then NotDeletedCondition(repoDelete) else "")
  }

  /** The function pair for one `maybe` prefix and one variant. */
  function MakeFindFn(maybe: string, table: string, column: string, variant: DeleteOption,
                      repoDelete: DeleteOption): (f: FindFn)
    ensures f.name == maybe + "find_by_" + column + IncludeDeletionFnPostfix(variant)
    ensures f.inOpName == f.name + "_in_op"
    ensures f.query == FindQuery(table, column, variant, repoDelete)
    ensures f.fetch == FetchOne <==> maybe == ""
  {
    var name := maybe + "find_by_" + column + IncludeDeletionFnPostfix(variant);
    FindFn(name, name + "_in_op", FindQuery(table, column, variant, repoDelete),
           if maybe == "" then FetchOne else FetchOptional)
  }

  /** The `break` after each variant: stop at the repository's own option, or
      after the first variant when soft deletion comes without include queries. */
  predicate StopsAfter(variant: DeleteOption, repoDelete: DeleteOption, includeDeletedQueries: bool)
  {
    variant == repoDelete || (repoDelete == Soft && !includeDeletedQueries)
  }

  /** Reference table of the variants generated per prefix. */
  function Variants(repoDelete: DeleteOption, includeDeletedQueries: bool): (vs: seq<DeleteOption>)
    ensures 1 <= |vs| <= 2 && vs == [No, Soft][..|vs|]
  {
    match repoDelete
    case No => [No]
    case Soft => if includeDeletedQueries then [No, Soft] else [No]
    case SoftWithoutQueries => [No, Soft]
  }

  /** The functions for one prefix, one per variant, in order. */
  function FnsFor(maybe: string, table: string, column: string, vs: seq<DeleteOption>,
                  repoDelete: DeleteOption): (fns: seq<FindFn>)
    ensures |fns| == |vs|
    ensures forall i :: 0 <= i < |vs| ==> fns[i] == MakeFindFn(maybe, table, column, vs[i], repoDelete)
  {
    if vs == [] then []
    else FnsFor(maybe, table, column, vs[..|vs| - 1], repoDelete) +
         [MakeFindFn(maybe, table, column, vs[|vs| - 1], repoDelete)]
  }

  /** Everything generated for one column: the `find_by_` functions, then the
      `maybe_find_by_` ones. */
  function Generated(table: string, column: string, repoDelete: DeleteOption, includeDeletedQueries: bool)
    : (fns: seq<FindFn>)
    ensures |fns| == 2 * |Variants(repoDelete, includeDeletedQueries)|
  {
    FnsFor("", table, column, Variants(repoDelete, includeDeletedQueries), repoDelete) +
    FnsFor("maybe_", table, column, Variants(repoDelete, includeDeletedQueries), repoDelete)
  }

  /** `to_tokens`: the nested loops over `["", "maybe_"]` and `[No, Soft]`. */
  method Generate(table: string, column: string, repoDelete: DeleteOption, includeDeletedQueries: bool)
    returns (fns: seq<FindFn>)
    ensures fns == Generated(table, column, repoDelete, includeDeletedQueries)
  {
    var prefixes := ["", "maybe_"];
    var vs := Variants(repoDelete, includeDeletedQueries);
    fns := [];
    var p := 0;
    while p < 2
      invariant 0 <= p <= 2
      invariant p == 0 ==> fns == []
      invariant p == 1 ==> fns == FnsFor("", table, column, vs, repoDelete)
      invariant p == 2 ==> fns == FnsFor("", table, column, vs, repoDelete) + FnsFor("maybe_", table, column, vs, repoDelete)
    {
      var emitted := GenerateVariants(prefixes[p], table, column, repoDelete, includeDeletedQueries);
      fns := fns + emitted;
      p := p + 1;
    }
  }

  /** The inner loop for one prefix. */
  method GenerateVariants(maybe: string, table: string, column: string, repoDelete: DeleteOption,
                          includeDeletedQueries: bool)
    returns (emitted: seq<FindFn>)
    ensures emitted == FnsFor(maybe, table, column, Variants(repoDelete, includeDeletedQueries), repoDelete)
  {
    var variants := [No, Soft];
    var vs := Variants(repoDelete, includeDeletedQueries);
    emitted := [];
    var d := 0;
    while d < 2
      invariant 0 <= d <= |vs| && (d < |vs| || d == 2)
      invariant emitted == FnsFor(maybe, table, column, vs[..d], repoDelete)
    {
      assert vs[..d + 1][..d] == vs[..d];
      emitted := emitted + [MakeFindFn(maybe, table, column, variants[d], repoDelete)];
      if StopsAfter(variants[d], repoDelete, includeDeletedQueries) {
        assert d + 1 == |vs|;
        assert vs[..d + 1] == vs;
        return;
      }
      d := d + 1;
    }
    assert vs[..d] == vs;
  }

  /** With option `No`, or `Soft` without include queries, each prefix gets only
      the not-deleted variant; with `Soft` and include queries it also gets the
      `_include_deleted` variant. */
  lemma VariantsTable(repoDelete: DeleteOption, includeDeletedQueries: bool)
    ensures (repoDelete == No || (repoDelete == Soft && !includeDeletedQueries)) <==>
      Variants(repoDelete, includeDeletedQueries) == [No]
    ensures repoDelete == Soft && includeDeletedQueries ==> Variants(repoDelete, includeDeletedQueries) == [No, Soft]
  {
  }

  /** The `_include_deleted` functions never filter deleted rows; the default
      ones filter them exactly when the repository soft-deletes. */
  lemma IncludeDeletedHasNoFilter(maybe: string, table: string, column: string, repoDelete: DeleteOption)
    ensures MakeFindFn(maybe, table, column, Soft, repoDelete).query ==
      "SELECT id FROM " + table + " WHERE " + column + " = $1"
    ensures MakeFindFn(maybe, table, column, Soft, repoDelete).name ==
      maybe + "find_by_" + column + "_include_deleted"
    ensures MakeFindFn(maybe, table, column, No, repoDelete).name == maybe + "find_by_" + column
  {
  }

  /** `find_by_fn`: an id column of table "entities" with option `No` yields
      `find_by_id` and `maybe_find_by_id` with a plain lookup. */
  lemma FindByIdExample()
    ensures Generated("entities", "id", No, false) == [
      FindFn("find_by_id", "find_by_id_in_op", "SELECT id FROM entities WHERE id = $1", FetchOne),
      FindFn("maybe_find_by_id", "maybe_find_by_id_in_op", "SELECT id FROM entities WHERE id = $1", FetchOptional)]
  {
    SingleVariantFns("entities", "id", No, false);
    DefaultVariantFns("entities", "id", No);
    IdNames();
    PlainQuery();
  }

  lemma PlainQuery()
    ensures FindQuery("entities", "id", No, No) == "SELECT id FROM entities WHERE id = $1"
  {
    assert !IsSoft(No);
    SelectIdHead();
    var h := "SELECT id FROM entities WHERE id";
    assert h + " = $1" == "SELECT id FROM entities WHERE id = $1";
  }

  /** `find_by_fn_with_soft_delete`: with `Soft` and no include queries the
      same two functions skip deleted rows. */
  lemma SoftDeleteExample()
    ensures Generated("entities", "id", Soft, false) == [
      FindFn("find_by_id", "find_by_id_in_op", "SELECT id FROM entities WHERE id = $1 AND deleted = FALSE", FetchOne),
      FindFn("maybe_find_by_id", "maybe_find_by_id_in_op",
             "SELECT id FROM entities WHERE id = $1 AND deleted = FALSE", FetchOptional)]
  {
    SingleVariantFns("entities", "id", Soft, false);
    DefaultVariantFns("entities", "id", Soft);
    IdNames();
    SoftQuery();
  }

  lemma SoftQuery()
    ensures FindQuery("entities", "id", No, Soft) == "SELECT id FROM entities WHERE id = $1 AND deleted = FALSE"
  {
    assert IsSoft(Soft);
    SelectIdHead();
    var h := "SELECT id FROM entities WHERE id";
    assert h + " = $1 AND deleted = FALSE" == "SELECT id FROM entities WHERE id = $1 AND deleted = FALSE";
  }

  /** Helper for the two query texts above: the common head, spelled out. */
  lemma SelectIdHead()
    ensures "SELECT id FROM " + "entities" + " WHERE " + "id" == "SELECT id FROM entities WHERE id"
  {
    var h1 := "SELECT id FROM " + "entities";
    assert h1 == "SELECT id FROM entities";
    var h2 := h1 + " WHERE ";
    assert h2 == "SELECT id FROM entities WHERE ";
  }

  /** Helper for the two examples above: the function names, spelled out. */
  lemma IdNames()
    ensures "find_by_" + "id" == "find_by_id" && "find_by_id" + "_in_op" == "find_by_id_in_op"
    ensures "maybe_find_by_" + "id" == "maybe_find_by_id" && "maybe_find_by_id" + "_in_op" == "maybe_find_by_id_in_op"
  {
  }

  /** The not-deleted variant's names carry no suffix; the plain form fetches
      one row and the `maybe_` form an optional one. */
  lemma DefaultVariantFns(table: string, column: string, repoDelete: DeleteOption)
    ensures MakeFindFn("", table, column, No, repoDelete) ==
      FindFn("find_by_" + column, "find_by_" + column + "_in_op", FindQuery(table, column, No, repoDelete), FetchOne)
    ensures MakeFindFn("maybe_", table, column, No, repoDelete) ==
      FindFn("maybe_find_by_" + column, "maybe_find_by_" + column + "_in_op",
             FindQuery(table, column, No, repoDelete), FetchOptional)
  {
    assert "" + "find_by_" + column + "" == "find_by_" + column;
    assert "maybe_" + "find_by_" + column + "" == "maybe_find_by_" + column;
  }

  /** With a single variant, the two generated functions are the plain and
      the `maybe_` form of the not-deleted lookup. */
  lemma SingleVariantFns(table: string, column: string, repoDelete: DeleteOption, includeDeletedQueries: bool)
    requires Variants(repoDelete, includeDeletedQueries) == [No]
    ensures Generated(table, column, repoDelete, includeDeletedQueries) ==
      [MakeFindFn("", table, column, No, repoDelete), MakeFindFn("maybe_", table, column, No, repoDelete)]
  {
    var fns := Generated(table, column, repoDelete, includeDeletedQueries);
    assert fns[0] == MakeFindFn("", table, column, No, repoDelete);
    assert fns[1] == MakeFindFn("maybe_", table, column, No, repoDelete);
  }

  /** `find_by_fn_with_soft_delete_include_deleted`: include queries add
      `find_by_id_include_deleted` and `maybe_find_by_id_include_deleted`. */
  lemma IncludeDeletedExample()
    ensures Generated("entities", "id", Soft, true)[1].name == "find_by_id_include_deleted"
    ensures Generated("entities", "id", Soft, true)[3].name == "maybe_find_by_id_include_deleted"
  {
    var vs := Variants(Soft, true);
    assert vs == [No, Soft];
    var a := FnsFor("", "entities", "id", vs, Soft);
    var b := FnsFor("maybe_", "entities", "id", vs, Soft);
    var g := Generated("entities", "id", Soft, true);
    assert g == a + b;
    assert g[1] == a[1] == MakeFindFn("", "entities", "id", Soft, Soft);
    assert g[3] == b[1] == MakeFindFn("maybe_", "entities", "id", Soft, Soft);
    IncludeDeletedNames();
  }

  /** Helper for the example above: the two `_include_deleted` names, spelled out. */
  lemma IncludeDeletedNames()
    ensures MakeFindFn("", "entities", "id", Soft, Soft).name == "find_by_id_include_deleted"
    ensures MakeFindFn("maybe_", "entities", "id", Soft, Soft).name == "maybe_find_by_id_include_deleted"
  {
    assert IncludeDeletionFnPostfix(Soft) == "_include_deleted";
    assert "" + "find_by_" + "id" + "_include_deleted" == "find_by_id_include_deleted" by {
      assert "" + "find_by_" + "id" == "find_by_id";
    }
    assert "maybe_" + "find_by_" + "id" + "_include_deleted" == "maybe_find_by_id_include_deleted" by {
      assert "maybe_" + "find_by_" + "id" == "maybe_find_by_id";
    }
  }
}
