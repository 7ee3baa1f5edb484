/** The combined `list_for_filters` query: one optional filter per list_for
    column, matched with `COALESCE(col = $i, $i IS NULL)`, and the dispatcher
    that sends a call to the plain `list_by_*` query, to a single-column
    `list_for_*_by_*` query, or to the combined query. */
module ListForFilters {
  import opened Wrappers
  import opened Text
  import opened RepoColumns
  import opened DeleteOptions

  /** `where_clause_fragment`: the filter on `column` bound to parameter `idx`,
      true when the parameter is NULL. */
  function WhereClauseFragment(column: string, idx: nat): (f: string)
    ensures var p := Placeholder(idx);
      var a := 9 + |column|;
      var b := a + 3;
      var c := b + |p|;
      var d := c + 2;
      var e := d + |p|;
      && |f| == e + 9
      && f[..9] == "COALESCE("
      && f[9..a] == column
      && f[a..b] == " = "
      && f[b..c] == p
      && f[c..d] == ", "
      && f[d..e] == p
      && f[e..] == " IS NULL)"
  {
    var p := Placeholder(idx);
    var s1 := "COALESCE(" + column;
    var s2 := s1 + " = ";
    var s3 := s2 + p;
    var s4 := s3 + ", ";
    var s5 := s4 + p;
    var f := s5 + " IS NULL)";
    Cut(f, s5, " IS NULL)");
    Cut(f, s4, p);
    Cut(f, s3, ", ");
    Cut(f, s2, p);
    Cut(f, s1, " = ");
    Cut(f, "COALESCE(", column);
    f
  }

  /** One fragment per filter column, the i-th (from 0) bound to `$i+1`. */
  function WhereFragments(forCols: seq<Column>): (r: seq<string>)
    ensures |r| == |forCols|
    ensures forall i :: 0 <= i < |forCols| ==> r[i] == WhereClauseFragment(forCols[i].name, i + 1)
  {
    if forCols == [] then []
    else
      var rest, last := WhereFragments(forCols[..|forCols| - 1]), WhereClauseFragment(forCols[|forCols| - 1].name, |forCols|);
      assert forall i :: 0 <= i < |rest| ==> forCols[..|forCols| - 1][i] == forCols[i];
      rest + [last]
  }

  /** The filter part of the WHERE clause: empty without filters, otherwise the
      fragments joined by AND and followed by one more AND. */
  function FilterWhere(forCols: seq<Column>): (w: string)
    ensures w == "" <==> forCols == []
    ensures forCols != [] ==> |w| >= 5 && w[|w| - 5..] == " AND "
    ensures forCols != [] ==> exists parts: seq<string> ::
      && w == Join(" AND ", parts) + " AND "
      && |parts| == |forCols|
      && forall i :: 0 <= i < |parts| ==> parts[i] == WhereClauseFragment(forCols[i].name, i + 1)
  {
    if forCols == [] then "" else Join(" AND ", WhereFragments(forCols)) + " AND "
  }

  /** The LIMIT parameter comes after the filter parameters: `$n+1` for `n` filters. */
  function LimitParam(forCols: seq<Column>): (p: nat)
    ensures p > |forCols|
  {
    |forCols| + 1
  }

  /** No filter parameter is written like the LIMIT parameter. */
  lemma FilterParamsAvoidLimit(forCols: seq<Column>, i: nat)
    requires i < |forCols|
    ensures Placeholder(i + 1) != Placeholder(LimitParam(forCols))
  {
    if Placeholder(i + 1) == Placeholder(LimitParam(forCols)) {
      assert NatToString(i + 1) == Placeholder(i + 1)[1..];
      NatToStringInjective(i + 1, LimitParam(forCols));
    }
  }

  /** The query text of `list_for_filters_by_{col}` for one direction. The
      column list, the cursor condition and the ORDER BY come from the cursor
      type and are parameters here; the not-deleted condition is added only to
      the variant without deleted rows. */
  /** The not-deleted condition of one query variant: only the variant that
      leaves deleted rows out, on a soft-deleting repository, has it. */
  function DeletedFilter(repoDelete: DeleteOption, variant: DeleteOption): (r: string)
    ensures r == " AND deleted = FALSE" <==> variant == No && IsSoft(repoDelete)
    ensures r == "" <==> !(variant == No && IsSoft(repoDelete))
  {
    if variant == No then NotDeletedCondition(repoDelete) else ""
  }

  /** The `SELECT {} FROM {} WHERE {}({}){} ORDER BY {} LIMIT ${}` template,
      filled in: each part can be cut back out of the text. */
  function SelectWhere(selectColumns: string, table: string, filterWhere: string, cursorCondition: string,
                       deleted: string, orderBy: string, limit: nat): (q: string)
    ensures var head := "SELECT " + selectColumns + " FROM " + table + " WHERE ";
      var cond := "(" + cursorCondition + ")";
      var order := " ORDER BY " + orderBy;
      var a := |head| + |filterWhere|;
      var b := a + |cond|;
      var c := b + |deleted|;
      var d := c + |order|;
      && d <= |q|
      && q[..|head|] == head
      && q[|head|..a] == filterWhere
      && q[a..b] == cond
      && q[b..c] == deleted
      && q[c..d] == order
      && q[d..] == " LIMIT " + Placeholder(limit)
  {
    var head := "SELECT " + selectColumns + " FROM " + table + " WHERE ";
    var cond := "(" + cursorCondition + ")";
    var order := " ORDER BY " + orderBy;
    var tail := " LIMIT " + Placeholder(limit);
    Cut6(head, filterWhere, cond, deleted, order, tail);
    head + filterWhere + cond + deleted + order + tail
  }

  /** The query text of `list_for_filters_by_{col}` for one direction: the
      filters, the cursor condition in parentheses, the not-deleted condition
      of the variant, the ORDER BY, and the LIMIT bound to the parameter after
      the filters. The column list, the cursor condition and the ORDER BY come
      from the cursor type and are parameters here. */
  function FiltersQuery(selectColumns: string, table: string, forCols: seq<Column>,
                        cursorCondition: string, repoDelete: DeleteOption, variant: DeleteOption,
                        orderBy: string): (q: string)
    ensures var head := "SELECT " + selectColumns + " FROM " + table + " WHERE ";
      var cond := "(" + cursorCondition + ")";
      var deleted := DeletedFilter(repoDelete, variant);
      var order := " ORDER BY " + orderBy;
      var a := |head| + |FilterWhere(forCols)|;
      var b := a + |cond|;
      var c := b + |deleted|;
      var d := c + |order|;
      && d <= |q|
      && q[..|head|] == head
      && q[|head|..a] == FilterWhere(forCols)
      && q[a..b] == cond
      && q[b..c] == deleted
      && q[c..d] == order
      && q[d..] == " LIMIT " + Placeholder(LimitParam(forCols))
  {
    var w, deleted, limit := FilterWhere(forCols), DeletedFilter(repoDelete, variant), LimitParam(forCols);
    SelectWhere(selectColumns, table, w, cursorCondition, deleted, orderBy, limit)
  }

  /** The two filter columns of the source's `orders` example. */
  function OrdersFilterColumns(): seq<Column>
  {
    [NewColumn("customer_id", "CustomerId"), NewColumn("status", "OrderStatus")]
  }

  /** Their filters take `$1` and `$2`. */
  lemma OrdersFilterWhere()
    ensures FilterWhere(OrdersFilterColumns())
      == WhereClauseFragment("customer_id", 1) + " AND " + WhereClauseFragment("status", 2) + " AND "
  {
    var frags := WhereFragments(OrdersFilterColumns());
    assert frags == [WhereClauseFragment("customer_id", 1), WhereClauseFragment("status", 2)];
    assert frags[..1] == [frags[0]];
  }

  /** The ascending query the source's test expects for the `orders` table
      with no soft delete and the id cursor, whose condition takes `$4` after
      the LIMIT's `$3`. The expected text is written in the pieces the
      template puts together, with each filter as its fragment. */
  lemma OrdersFiltersQuery()
    ensures FiltersQuery("id", "orders", OrdersFilterColumns(), "COALESCE(id > $4, true)", No, No, "id ASC")
      == "SELECT id FROM orders WHERE "
         + (WhereClauseFragment("customer_id", 1) + " AND " + WhereClauseFragment("status", 2) + " AND ")
         + "(COALESCE(id > $4, true))" + "" + " ORDER BY id ASC" + " LIMIT $3"
  {
    var cc := "COALESCE(id > $4, true)";
    assert "SELECT " + "id" + " FROM " + "orders" + " WHERE " == "SELECT id FROM orders WHERE ";
    assert "(" + cc + ")" == "(COALESCE(id > $4, true))";
    assert " ORDER BY " + "id ASC" == " ORDER BY id ASC";
    assert Placeholder(3) == "$3";
    assert " LIMIT " + Placeholder(3) == " LIMIT $3";
    OrdersFilterWhere();
    assert DeletedFilter(No, No) == "";
    assert LimitParam(OrdersFilterColumns()) == 3;
  }

  // ---------------------------------------------------------------------
  // The dispatcher generated for one sort column.
  // ---------------------------------------------------------------------

  /** The query a dispatch arm calls. */
  datatype Call =
    | ListByCall(fnName: string)
    | ListForOneCall(column: string, fnName: string)
    | ListForFiltersCall(fnName: string)

  /** `else if <others are none> { self.list_for_{col}_by_{sort}(..) }`. */
  datatype SingleBranch = SingleBranch(othersNone: seq<string>, forCol: string, call: Call)

  /** The generated proxy body: a direct call when there are no filter
      columns, otherwise the if-chain with an optional final `else`. */
  datatype ProxyBody =
    | Direct(call: Call)
    | Chain(allNone: seq<string>, listBy: Call, singles: seq<SingleBranch>, fallback: Option<Call>)

  function ListByFn(byName: string, delete: DeleteOption): string
  {
    "list_by_" + byName + IncludeDeletionFnPostfix(delete)
  }

  function ListForOneFn(forName: string, byName: string, delete: DeleteOption): string
  {
    "list_for_" + forName + "_by_" + byName + IncludeDeletionFnPostfix(delete)
  }

  function ListForFiltersFn(byName: string, delete: DeleteOption): string
  {
    "list_for_filters_by_" + byName + IncludeDeletionFnPostfix(delete)
  }

  /** A filter column has its own query for this sort column when it lists
      the sort column in `list_for(by(..))`. */
  predicate Paired(forCol: Column, byName: string)
  {
    byName in ListForByColumns(forCol.opts)
  }

  /** The paired filter columns, in order. */
  function PairedColumns(forCols: seq<Column>, byName: string): (r: seq<Column>)
    ensures |r| <= |forCols|
    ensures forall k :: 0 <= k < |r| ==> r[k] in forCols && Paired(r[k], byName)
  {
    if forCols == [] then []
    else
      var front := PairedColumns(forCols[..|forCols| - 1], byName);
      var last := forCols[|forCols| - 1];
      assert forall i :: 0 <= i < |forCols| - 1 ==> forCols[..|forCols| - 1][i] == forCols[i];
      if Paired(last, byName) then front + [last] else front
  }

  /** Every filter column is kept exactly when every one is paired. */
  lemma {:induction false} PairedAll(forCols: seq<Column>, byName: string)
    ensures |PairedColumns(forCols, byName)| == |forCols| <==>
      forall i :: 0 <= i < |forCols| ==> Paired(forCols[i], byName)
  {
    if forCols != [] {
      var front := forCols[..|forCols| - 1];
      PairedAll(front, byName);
      assert forall i :: 0 <= i < |front| ==> front[i] == forCols[i];
    }
  }

  /** The names of the filter columns other than `name`, in order. */
  function OthersNone(forCols: seq<Column>, name: string): seq<string>
  {
    if forCols == [] then []
    else
      var last := forCols[|forCols| - 1];
      OthersNone(forCols[..|forCols| - 1], name) + (if last.name != name then [last.name] else [])
  }

  /** `OthersNone` holds exactly the names of the other filter columns. */
  lemma {:induction false} OthersNoneContents(forCols: seq<Column>, name: string)
    ensures forall k :: 0 <= k < |OthersNone(forCols, name)| ==>
      OthersNone(forCols, name)[k] != name &&
      exists i :: 0 <= i < |forCols| && forCols[i].name == OthersNone(forCols, name)[k]
    ensures forall i :: 0 <= i < |forCols| && forCols[i].name != name ==> forCols[i].name in OthersNone(forCols, name)
  {
    if forCols != [] {
      var front := forCols[..|forCols| - 1];
      var last := forCols[|forCols| - 1];
      OthersNoneContents(front, name);
      var r := OthersNone(forCols, name);
      var f := OthersNone(front, name);
      assert r == f + (if last.name != name then [last.name] else []);
      forall k | 0 <= k < |r|
        ensures r[k] != name && exists i :: 0 <= i < |forCols| && forCols[i].name == r[k]
      {
        if k < |f| {
          assert r[k] == f[k];
          var i :| 0 <= i < |front| && front[i].name == f[k];
          assert forCols[i] == front[i];
        } else {
          assert r[k] == last.name;
        }
      }
      forall i | 0 <= i < |forCols| && forCols[i].name != name
        ensures forCols[i].name in r
      {
        if i < |front| {
          assert front[i] == forCols[i];
        } else {
          assert r[|r| - 1] == last.name;
        }
      }
    }
  }

  /** One single-filter branch per paired column, in order. */
  function SingleBranches(forCols: seq<Column>, paired: seq<Column>, byName: string, delete: DeleteOption): (r: seq<SingleBranch>)
    ensures |r| == |paired|
    ensures forall k :: 0 <= k < |paired| ==>
      r[k] == SingleBranch(OthersNone(forCols, paired[k].name), paired[k].name,
                           ListForOneCall(paired[k].name, ListForOneFn(paired[k].name, byName, delete)))
  {
    if paired == [] then []
    else
      var p := paired[|paired| - 1];
      SingleBranches(forCols, paired[..|paired| - 1], byName, delete)
        + [SingleBranch(OthersNone(forCols, p.name), p.name, ListForOneCall(p.name, ListForOneFn(p.name, byName, delete)))]
  }

  /** `generate_proxy_body`. */
  function GenerateProxyBody(forCols: seq<Column>, byName: string, delete: DeleteOption): (b: ProxyBody)
    ensures forCols == [] <==> b.Direct?
    ensures b.Direct? ==> b.call == ListByCall(ListByFn(byName, delete))
  {
    if forCols == [] then Direct(ListByCall(ListByFn(byName, delete)))
    else
      var paired := PairedColumns(forCols, byName);
      var singles := SingleBranches(forCols, paired, byName, delete);
      var hasUnpaired := |paired| < |forCols|;
      var needsFallback := hasUnpaired || |forCols| >= 2;
      Chain(Names(forCols), ListByCall(ListByFn(byName, delete)), singles,
            if needsFallback then Some(ListForFiltersCall(ListForFiltersFn(byName, delete))) else None)
  }

  /** The combined-query fallback is generated exactly when some filter column
      is unpaired or there are two or more filter columns. */
  lemma FallbackWhenNeeded(forCols: seq<Column>, byName: string, delete: DeleteOption)
    requires forCols != []
    ensures GenerateProxyBody(forCols, byName, delete).fallback.Some? <==>
      (exists i :: 0 <= i < |forCols| && !Paired(forCols[i], byName)) || |forCols| >= 2
  {
    PairedAll(forCols, byName);
  }

  /** An unpaired filter column never gets a single-filter branch. */
  lemma SinglesArePaired(forCols: seq<Column>, byName: string, delete: DeleteOption)
    ensures var b := GenerateProxyBody(forCols, byName, delete);
      b.Chain? ==> forall k :: 0 <= k < |b.singles| ==>
        exists i :: 0 <= i < |forCols| && forCols[i].name == b.singles[k].forCol && Paired(forCols[i], byName)
  {
    var b := GenerateProxyBody(forCols, byName, delete);
    if b.Chain? {
      var paired := PairedColumns(forCols, byName);
      forall k | 0 <= k < |b.singles|
        ensures exists i :: 0 <= i < |forCols| && forCols[i].name == b.singles[k].forCol && Paired(forCols[i], byName)
      {
        assert b.singles[k].forCol == paired[k].name;
        var i :| 0 <= i < |forCols| && forCols[i] == paired[k];
      }
    }
  }

  // ---------------------------------------------------------------------
  // What the generated code does at run time, given which filters are set.
  // ---------------------------------------------------------------------

  /** Every named filter is `None`. */
  predicate AllUnset(names: seq<string>, set_: set<string>)
  {
    forall k :: 0 <= k < |names| ==> names[k] !in set_
  }

  /** The first single-filter branch whose condition holds. */
  function FirstFiring(singles: seq<SingleBranch>, set_: set<string>): (r: Option<Call>)
    ensures r.Some? <==> exists k :: 0 <= k < |singles| && AllUnset(singles[k].othersNone, set_)
    ensures r.Some? ==> exists k :: 0 <= k < |singles| && AllUnset(singles[k].othersNone, set_) && r.value == singles[k].call
  {
    if singles == [] then None
    else if AllUnset(singles[0].othersNone, set_) then Some(singles[0].call)
    else
      var rest := FirstFiring(singles[1..], set_);
      assert forall k :: 1 <= k < |singles| ==> singles[k] == singles[1..][k - 1];
      rest
  }

  /** The value of the generated if-chain; `None` would be a chain without a
      final `else` that no branch took. */
  function Evaluate(b: ProxyBody, set_: set<string>): Option<Call>
  {
    match b
    case Direct(c) => Some(c)
    case Chain(allNone, listBy, singles, fallback) =>
      if AllUnset(allNone, set_) then Some(listBy)
      else
        match FirstFiring(singles, set_)
        case Some(c) => Some(c)
        case None => fallback
  }

  /** Some filter column is set. */
  predicate AnySet(forCols: seq<Column>, set_: set<string>)
  {
    exists i :: 0 <= i < |forCols| && forCols[i].name in set_
  }

  /** Every set filter column is called `name`. */
  predicate OnlyNameSet(forCols: seq<Column>, set_: set<string>, name: string)
  {
    forall i :: 0 <= i < |forCols| && forCols[i].name in set_ ==> forCols[i].name == name
  }

  /** A single-filter branch fires exactly when only its own column may be set. */
  lemma OthersNoneUnset(forCols: seq<Column>, set_: set<string>, name: string)
    ensures AllUnset(OthersNone(forCols, name), set_) <==> OnlyNameSet(forCols, set_, name)
  {
    var r := OthersNone(forCols, name);
    OthersNoneContents(forCols, name);
    if AllUnset(r, set_) {
      forall i | 0 <= i < |forCols| && forCols[i].name in set_
        ensures forCols[i].name == name
      {
      }
    }
    if OnlyNameSet(forCols, set_, name) {
      forall k | 0 <= k < |r|
        ensures r[k] !in set_
      {
        var i :| 0 <= i < |forCols| && forCols[i].name == r[k];
      }
    }
  }

  /** A name of the list is the name of one of its columns. */
  lemma NameIndex(cols: seq<Column>, n: string)
    requires n in Names(cols)
    ensures exists i :: 0 <= i < |cols| && cols[i].name == n
  {
    var j :| 0 <= j < |Names(cols)| && Names(cols)[j] == n;
    assert cols[j].name == n;
  }

  /** Nothing set: the plain `list_by_<sort>` query. */
  lemma NoFilterSetCallsListBy(forCols: seq<Column>, byName: string, delete: DeleteOption, set_: set<string>)
    requires !AnySet(forCols, set_)
    ensures Evaluate(GenerateProxyBody(forCols, byName, delete), set_) == Some(ListByCall(ListByFn(byName, delete)))
  {
    var b := GenerateProxyBody(forCols, byName, delete);
    if b.Chain? {
      forall k | 0 <= k < |b.allNone|
        ensures b.allNone[k] !in set_
      {
        NameIndex(forCols, b.allNone[k]);
      }
    }
  }

  /** Exactly one paired filter set: that column's own `list_for_<col>_by_<sort>` query. */
  lemma OnePairedFilterCallsListForOne(forCols: seq<Column>, byName: string, delete: DeleteOption, set_: set<string>, i: nat)
    requires i < |forCols| && forCols[i].name in set_ && Paired(forCols[i], byName)
    requires OnlyNameSet(forCols, set_, forCols[i].name)
    ensures Evaluate(GenerateProxyBody(forCols, byName, delete), set_)
      == Some(ListForOneCall(forCols[i].name, ListForOneFn(forCols[i].name, byName, delete)))
  {
    var n := forCols[i].name;
    var c := ListForOneCall(n, ListForOneFn(n, byName, delete));
    var paired := PairedColumns(forCols, byName);
    var singles := SingleBranches(forCols, paired, byName, delete);
    // The column's own branch is there and fires.
    PairedIndex(forCols, byName, i);
    var k0 := |PairedPrefix(forCols, byName, i)|;
    assert singles[k0].othersNone == OthersNone(forCols, n);
    OthersNoneUnset(forCols, set_, n);
    // The branch of any other column name is blocked by `n`.
    forall k | 0 <= k < |singles| && AllUnset(singles[k].othersNone, set_)
      ensures singles[k].call == c
    {
      OthersNoneUnset(forCols, set_, paired[k].name);
    }
    FirstFiringUniform(singles, set_, c, k0);
    assert Names(forCols)[i] == n;
  }

  /** When some branch fires and every firing branch makes the same call, the chain makes that call. */
  lemma FirstFiringUniform(singles: seq<SingleBranch>, set_: set<string>, c: Call, k0: nat)
    requires k0 < |singles| && AllUnset(singles[k0].othersNone, set_)
    requires forall k :: 0 <= k < |singles| && AllUnset(singles[k].othersNone, set_) ==> singles[k].call == c
    ensures FirstFiring(singles, set_) == Some(c)
  {
  }

  /** The paired columns before position `i`. */
  function PairedPrefix(forCols: seq<Column>, byName: string, i: nat): seq<Column>
    requires i <= |forCols|
  {
    PairedColumns(forCols[..i], byName)
  }

  /** A paired column at position `i` sits right after the paired columns before it. */
  lemma {:induction false} PairedIndex(forCols: seq<Column>, byName: string, i: nat)
    requires i < |forCols| && Paired(forCols[i], byName)
    ensures |PairedPrefix(forCols, byName, i)| < |PairedColumns(forCols, byName)|
    ensures PairedColumns(forCols, byName)[|PairedPrefix(forCols, byName, i)|] == forCols[i]
    decreases |forCols|
  {
    var front := forCols[..|forCols| - 1];
    if i == |forCols| - 1 {
      assert forCols[..i] == front;
    } else {
      PairedIndex(front, byName, i);
      assert front[..i] == forCols[..i];
      assert front[i] == forCols[i];
    }
  }

  /** Any other combination of set filters: the combined query, which is then
      always generated. */
  lemma OtherwiseCallsListForFilters(forCols: seq<Column>, byName: string, delete: DeleteOption, set_: set<string>)
    requires AnySet(forCols, set_)
    requires forall j :: 0 <= j < |forCols| && Paired(forCols[j], byName) ==> !OnlyNameSet(forCols, set_, forCols[j].name)
    ensures Evaluate(GenerateProxyBody(forCols, byName, delete), set_) == Some(ListForFiltersCall(ListForFiltersFn(byName, delete)))
  {
    var i :| 0 <= i < |forCols| && forCols[i].name in set_;
    var b := GenerateProxyBody(forCols, byName, delete);
    assert b.allNone[i] == forCols[i].name;
    NoSingleFires(forCols, byName, delete, set_);
    CombinedFallbackPresent(forCols, byName, delete, set_);
    ChainFallsThrough(b, set_);
  }

  /** When every single-filter branch is blocked, the combined query is generated. */
  lemma CombinedFallbackPresent(forCols: seq<Column>, byName: string, delete: DeleteOption, set_: set<string>)
    requires AnySet(forCols, set_)
    requires forall j :: 0 <= j < |forCols| && Paired(forCols[j], byName) ==> !OnlyNameSet(forCols, set_, forCols[j].name)
    ensures GenerateProxyBody(forCols, byName, delete).Chain?
    ensures GenerateProxyBody(forCols, byName, delete).fallback == Some(ListForFiltersCall(ListForFiltersFn(byName, delete)))
  {
    assert forCols != [];
    FallbackWhenNeeded(forCols, byName, delete);
    if |forCols| == 1 {
      forall i | 0 <= i < |forCols| && forCols[i].name in set_
        ensures forCols[i].name == forCols[0].name
      {
        assert i == 0;
      }
      assert OnlyNameSet(forCols, set_, forCols[0].name);
      assert !Paired(forCols[0], byName);
    }
    var b := GenerateProxyBody(forCols, byName, delete);
    assert b.fallback.Some?;
  }

  /** A chain where some filter is set and no single branch fires takes its final `else`. */
  lemma ChainFallsThrough(b: ProxyBody, set_: set<string>)
    requires b.Chain? && !AllUnset(b.allNone, set_) && FirstFiring(b.singles, set_) == None
    ensures Evaluate(b, set_) == b.fallback
  {
  }

  /** No single-filter branch fires unless only its own column is set. */
  lemma NoSingleFires(forCols: seq<Column>, byName: string, delete: DeleteOption, set_: set<string>)
    requires forall j :: 0 <= j < |forCols| && Paired(forCols[j], byName) ==> !OnlyNameSet(forCols, set_, forCols[j].name)
    ensures FirstFiring(SingleBranches(forCols, PairedColumns(forCols, byName), byName, delete), set_) == None
  {
    var paired := PairedColumns(forCols, byName);
    var singles := SingleBranches(forCols, paired, byName, delete);
    forall k | 0 <= k < |singles|
      ensures !AllUnset(singles[k].othersNone, set_)
    {
      var j :| 0 <= j < |forCols| && forCols[j] == paired[k];
      OthersNoneUnset(forCols, set_, paired[k].name);
    }
  }

  /** Every combination of set filters reaches a call: the generated chain
      always ends in an `else` some branch takes. */
  lemma DispatchAlwaysCalls(forCols: seq<Column>, byName: string, delete: DeleteOption, set_: set<string>)
    ensures Evaluate(GenerateProxyBody(forCols, byName, delete), set_).Some?
  {
    if !AnySet(forCols, set_) {
      NoFilterSetCallsListBy(forCols, byName, delete, set_);
    } else if j :| 0 <= j < |forCols| && Paired(forCols[j], byName) && OnlyNameSet(forCols, set_, forCols[j].name) {
      var i :| 0 <= i < |forCols| && forCols[i].name in set_;
      OnePairedFilterCallsListForOne(forCols, byName, delete, set_, j);
    } else {
      OtherwiseCallsListForFilters(forCols, byName, delete, set_);
    }
  }

  /** The unpaired-column example: `customer_id` lists `by(id)`, `status` lists
      `by(created_at)`; sorting by id has a branch for `customer_id` only, and
      the combined fallback. */
  lemma UnpairedColumnExample(idTy: string)
    ensures var customerId := Column("customer_id", ColumnOpts(idTy, false, None, None, Some(ListForOpts(["id"])), None, None, None));
      var status := Column("status", ColumnOpts("String", false, None, None, Some(ListForOpts(["created_at"])), None, None, None));
      var b := GenerateProxyBody([customerId, status], "id", No);
      b.Chain? && |b.singles| == 1 && b.singles[0].forCol == "customer_id"
      && b.singles[0].call.fnName == "list_for_customer_id_by_id"
      && b.fallback == Some(ListForFiltersCall("list_for_filters_by_id"))
  {
    var customerId := Column("customer_id", ColumnOpts(idTy, false, None, None, Some(ListForOpts(["id"])), None, None, None));
    var status := Column("status", ColumnOpts("String", false, None, None, Some(ListForOpts(["created_at"])), None, None, None));
    assert ListForByColumns(customerId.opts) == ["id"];
    assert ListForByColumns(status.opts) == ["created_at"];
    PairedFirstOfTwo(customerId, status, "id");
    ExampleFnNames();
    var b := GenerateProxyBody([customerId, status], "id", No);
    assert b.singles == SingleBranches([customerId, status], [customerId], "id", No);
  }

  /** Of two filter columns where only the first is paired, only the first is kept. */
  lemma PairedFirstOfTwo(first: Column, second: Column, byName: string)
    requires Paired(first, byName) && !Paired(second, byName)
    ensures PairedColumns([first, second], byName) == [first]
  {
    assert [first, second][..1] == [first];
    assert [first][..0] == [];
  }

  /** The function names of the unpaired-column example. */
  lemma ExampleFnNames()
    ensures ListForOneFn("customer_id", "id", No) == "list_for_customer_id_by_id"
    ensures ListForFiltersFn("id", No) == "list_for_filters_by_id"
  {
    assert IncludeDeletionFnPostfix(No) == "";
  }
}
