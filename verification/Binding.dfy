// Which SELECT statements the binder accepts, said about the names and calls in them, and
// what it makes of their items.
module Binding {
  import opened Wrappers
  import opened SqlAst
  import opened SqlWords
  import opened Evaluate
  import opened Executor
  import opened Planner
  import opened SelectMeaning
  import Grouping
  import GroupedMeaning
  import GroupExecutor

  // ------------------------------------------------------------------
  // Names and expressions
  // ------------------------------------------------------------------

  // The reference names a column of table i: with its table, or as the only one of that
  // name.
  ghost predicate NamesIn(tables: seq<string>, cat: Catalog, ref: ColumnRef, i: nat) {
    && i < |tables| && Owns(tables[i], cat, ref)
    && (ref.table.None? ==> forall j :: 0 <= j < |tables| && j != i ==> !Owns(tables[j], cat, ref))
  }

  ghost predicate Named(tables: seq<string>, cat: Catalog, ref: ColumnRef) {
    exists i :: NamesIn(tables, cat, ref, i)
  }

  // One or two tables of the catalog.
  predicate InCatalog(tables: seq<string>, cat: Catalog) {
    1 <= |tables| <= 2 && forall t :: t in tables ==> t in cat
  }

  // A name resolves exactly when it names a column, to the key of that column: bare in a
  // query over one table, behind its table's name under a join.
  lemma ResolveExact(tables: seq<string>, cat: Catalog, ref: ColumnRef)
    requires InCatalog(tables, cat)
    ensures var r := Resolve(ScopeOf(tables, cat), ref);
      && (r.Ok? <==> Named(tables, cat, ref)) && (r.Err? ==> r == Err(LogicalError))
      && forall i: nat :: NamesIn(tables, cat, ref, i) ==>
           r == Ok(if |tables| == 1 then ref.name else tables[i] + "." + ref.name)
  {
    var scope := ScopeOf(tables, cat);
    OwnersOfTwo(tables, scope, ref.name);
    forall i: nat | i < |tables| ensures Owns(tables[i], cat, ref) <==>
      HasColumn(scope, tables[i], ref.name) && (ref.table.None? || ref.table.value == tables[i])
    {
    }
    var r := Resolve(scope, ref);
    forall i: nat | NamesIn(tables, cat, ref, i)
      ensures r == Ok(if |tables| == 1 then ref.name else tables[i] + "." + ref.name)
    {
      assert Owns(tables[i], cat, ref);
      assert |tables| == 2 && ref.table.None? ==> !Owns(tables[1 - i], cat, ref);
    }
    if r.Ok? {
      if ref.table.Some? {
        var i :| 0 <= i < |tables| && tables[i] == ref.table.value;
        assert NamesIn(tables, cat, ref, i);
      } else {
        assert HasColumn(scope, tables[0], ref.name) ==> NamesIn(tables, cat, ref, 0);
        assert !HasColumn(scope, tables[0], ref.name) ==> NamesIn(tables, cat, ref, 1);
      }
    }
  }

  // The calls in an expression.
  function Calls(e: Expr): set<(string, Option<ColumnRef>)> {
    match e
    case Func(name, arg) => {(name, arg)}
    case Compare(_, l, r) => Calls(l) + Calls(r)
    case Logic(_, l, r) => Calls(l) + Calls(r)
    case _ => {}
  }

  // COUNT(*), or one of the six functions of a column.
  predicate Known(name: string, arg: Option<ColumnRef>) {
    if arg.None? then name == "COUNT" else FunctionName(name)
  }

  // Every name in the expression names a column and every call is known.
  ghost predicate Bound(tables: seq<string>, cat: Catalog, e: Expr) {
    && (forall c :: c in Refs(e) ==> Named(tables, cat, c))
    && (forall call :: call in Calls(e) ==> Known(call.0, call.1))
  }

  // That is what the walk over an expression accepts.
  lemma {:induction false} ExprExact(tables: seq<string>, cat: Catalog, e: Expr)
    requires InCatalog(tables, cat)
    ensures ExprOk(e, ScopeOf(tables, cat)) <==> Bound(tables, cat, e)
  {
    hide Named, Resolve;
    match e
    case Column(c) => ResolveExact(tables, cat, c);
    case Func(name, arg) =>
      assert Calls(e) == {(name, arg)};
      if arg.Some? {
        ResolveExact(tables, cat, arg.value);
      }
    case Compare(_, l, r) =>
      ExprExact(tables, cat, l);
      ExprExact(tables, cat, r);
    case Logic(_, l, r) =>
      ExprExact(tables, cat, l);
      ExprExact(tables, cat, r);
    case Lit(_) =>
  }

  // ------------------------------------------------------------------
  // Items
  // ------------------------------------------------------------------

  predicate IsAggregateName(name: string) {
    name == "COUNT" || name == "SUM" || name == "MIN" || name == "MAX" || name == "AVG"
  }

  function NameText(c: ColumnRef): string {
    if c.table.None? then c.name else c.table.value + "." + c.name
  }

  // The label of an output column.
  function Label(e: Expr): string {
    match e
    case Column(c) => NameText(c)
    case Func(name, None) => name + "(*)"
    case Func(name, Some(c)) => name + "(" + NameText(c) + ")"
    case _ => ""
  }

  // The items of SELECT *: every column of every table, under a join with its table's
  // name.
  function StarItems(tables: seq<string>, cat: Catalog): seq<(string, Expr)>
    requires InCatalog(tables, cat)
  {
    var left := cat[tables[0]];
    if |tables| == 1 then
      seq(|left|, i requires 0 <= i < |left| => (left[i], Column(ColumnRef(left[i], None))))
    else
      assert tables[1] in tables;
      var right := cat[tables[1]];
      seq(|left|, i requires 0 <= i < |left| =>
        (tables[0] + "." + left[i], Column(ColumnRef(left[i], Some(tables[0])))))
      + seq(|right|, i requires 0 <= i < |right| =>
        (tables[1] + "." + right[i], Column(ColumnRef(right[i], Some(tables[1])))))
  }

  function ListedItems(es: seq<Expr>): seq<(string, Expr)> {
    seq(|es|, i requires 0 <= i < |es| => (Label(es[i]), es[i]))
  }

  // What a statement's rows hold, and under which labels.
  function ItemsOf(stmt: Select, cat: Catalog): seq<(string, Expr)>
    requires InCatalog(Tables(stmt), cat)
  {
    match stmt.projections
    case None => StarItems(Tables(stmt), cat)
    case Some(es) => ListedItems(es)
  }

  // Items are columns and calls, bound, with different labels.
  ghost predicate ItemsBind(stmt: Select, cat: Catalog) {
    stmt.projections.Some? ==>
      var es := stmt.projections.value;
      && (forall i :: 0 <= i < |es| ==> (es[i].Column? || es[i].Func?) && Bound(Tables(stmt), cat, es[i]))
      && forall i, j :: 0 <= i < j < |es| ==> Label(es[i]) != Label(es[j])
  }

  lemma LabelIs(e: Expr)
    ensures LabelOf(e) == Label(e)
  {
    if e.Func? && e.arg.None? {
      assert e.name + "(" + "*" + ")" == e.name + "(*)";
    }
  }

  lemma LabelsAre(es: seq<Expr>)
    ensures Labelled(es) == ListedItems(es)
  {
    forall i | 0 <= i < |es| ensures Labelled(es)[i] == ListedItems(es)[i] {
      LabelIs(es[i]);
    }
  }

  lemma StarIs(tables: seq<string>, cat: Catalog)
    requires InCatalog(tables, cat)
    ensures AllColumns(ScopeOf(tables, cat), tables) == StarItems(tables, cat)
  {
    var scope := ScopeOf(tables, cat);
    assert AllColumns(scope, []) == [];
    if |tables| == 2 {
      assert tables[1..] == [tables[1]] && [tables[1]][1..] == [];
      assert tables[1] in tables;
      assert AllColumns(scope, tables[1..]) == TableColumns(tables[1], cat[tables[1]], true);
    } else {
      assert tables[1..] == [];
    }
  }

  // The items are refused exactly when they do not bind, and are else what they say.
  lemma ItemsExact(stmt: Select, cat: Catalog)
    requires InCatalog(Tables(stmt), cat)
    ensures var r := ProjectionItems(stmt, ScopeOf(Tables(stmt), cat));
      r == if ItemsBind(stmt, cat) then Ok(ItemsOf(stmt, cat)) else Err(LogicalError)
  {
    hide ExprOk, Bound, AllColumns, StarItems, LabelOf, Label;
    var ts := Tables(stmt);
    StarIs(ts, cat);
    if stmt.projections.Some? {
      var es := stmt.projections.value;
      LabelsAre(es);
      forall i | 0 <= i < |es| ensures ExprOk(es[i], ScopeOf(ts, cat)) <==> Bound(ts, cat, es[i]) {
        ExprExact(ts, cat, es[i]);
      }
      forall i | 0 <= i < |es| ensures Labelled(es)[i].0 == Label(es[i]) {
        LabelIs(es[i]);
      }
    }
  }

  // ------------------------------------------------------------------
  // Statements
  // ------------------------------------------------------------------

  // ON compares a column of one table with one of the other.
  ghost predicate JoinBinds(join: Join, tables: seq<string>, cat: Catalog) {
    exists i, j :: NamesIn(tables, cat, join.left, i) && NamesIn(tables, cat, join.right, j) && i != j
  }

  // FROM and WHERE bind.
  ghost predicate SourceBinds(stmt: Select, cat: Catalog) {
    && InCatalog(Tables(stmt), cat)
    && (stmt.join.Some? ==> JoinBinds(stmt.join.value, Tables(stmt), cat))
    && (stmt.where.Some? ==> Bound(Tables(stmt), cat, stmt.where.value))
  }

  // So does all of a SELECT that is not grouped.
  ghost predicate SelectBinds(stmt: Select, cat: Catalog) {
    && SourceBinds(stmt, cat) && ItemsBind(stmt, cat)
    && (stmt.orderBy.Some? ==> Named(Tables(stmt), cat, ColumnRef(stmt.orderBy.value.column, None)))
  }

  lemma KeyedTables(k1: string, k2: string, t: string, u: string)
    requires t != u
    ensures map[BeforeDot(k1) := k1][BeforeDot(k2) := k2].Keys == {t, u}
      <==> (BeforeDot(k1) == t && BeforeDot(k2) == u) || (BeforeDot(k1) == u && BeforeDot(k2) == t)
  {
    assert map[BeforeDot(k1) := k1][BeforeDot(k2) := k2].Keys == {BeforeDot(k1), BeforeDot(k2)};
    if {BeforeDot(k1), BeforeDot(k2)} == {t, u} {
      assert t in {BeforeDot(k1), BeforeDot(k2)} && u in {BeforeDot(k1), BeforeDot(k2)};
      assert BeforeDot(k1) in {t, u} && BeforeDot(k2) in {t, u};
    }
  }

  // The source is refused exactly when a table or the ON condition does not bind.
  lemma ScopeExact(stmt: Select, cat: Catalog)
    requires CatalogOk(cat) && TablesOk(Tables(stmt))
    ensures var r := BuildScope(stmt, cat);
      && (r.Ok? <==> InCatalog(Tables(stmt), cat)
                     && (stmt.join.Some? ==> JoinBinds(stmt.join.value, Tables(stmt), cat)))
      && (r.Err? ==> r == Err(LogicalError))
      && (r.Ok? ==> r.value.1 == ScopeOf(Tables(stmt), cat))
  {
    hide Resolve, NamesIn;
    var ts := Tables(stmt);
    assert stmt.table == ts[0];
    if InCatalog(ts, cat) {
      assert stmt.table in cat;
      if stmt.join.Some? {
        assert ts[1] in ts;
        assert ScopeOf(ts, cat).byTable == map[ts[0] := cat[ts[0]]][ts[1] := cat[ts[1]]];
        JoinExact(stmt, cat);
      } else {
        assert ScopeOf(ts, cat).byTable == map[ts[0] := cat[ts[0]]];
      }
    } else if stmt.join.Some? {
      assert forall t :: t in ts <==> t == stmt.table || t == stmt.join.value.table;
    }
  }

  lemma JoinExact(stmt: Select, cat: Catalog)
    requires CatalogOk(cat) && stmt.join.Some? && TablesOk(Tables(stmt)) && InCatalog(Tables(stmt), cat)
    ensures var scope, join := ScopeOf(Tables(stmt), cat), stmt.join.value;
      var k1, k2 := Resolve(scope, join.left), Resolve(scope, join.right);
      && (k1.Err? ==> k1 == Err(LogicalError)) && (k2.Err? ==> k2 == Err(LogicalError))
      && (JoinBinds(join, Tables(stmt), cat) <==>
            k1.Ok? && k2.Ok?
            && map[BeforeDot(k1.value) := k1.value][BeforeDot(k2.value) := k2.value].Keys == {stmt.table, join.table})
  {
    hide Resolve;
    var ts, scope, join := Tables(stmt), ScopeOf(Tables(stmt), cat), stmt.join.value;
    ResolveExact(ts, cat, join.left);
    ResolveExact(ts, cat, join.right);
    if Resolve(scope, join.left).Ok? && Resolve(scope, join.right).Ok? {
      var k1, k2 := Resolve(scope, join.left).value, Resolve(scope, join.right).value;
      KeyedTables(k1, k2, ts[0], ts[1]);
      forall i: nat | NamesIn(ts, cat, join.left, i) ensures BeforeDot(k1) == ts[i] {
        BeforeDotOf(ts[i], join.left.name);
      }
      forall i: nat | NamesIn(ts, cat, join.right, i) ensures BeforeDot(k2) == ts[i] {
        BeforeDotOf(ts[i], join.right.name);
      }
    }
  }

  // A plain SELECT is one without GROUP BY that lists no aggregate.
  lemma PlainIs(stmt: Select)
    ensures IsPlain(stmt) <==> stmt.groupBy.None? && (stmt.projections.Some? ==>
      forall i :: 0 <= i < |stmt.projections.value| ==>
        !(stmt.projections.value[i].Func? && IsAggregateName(stmt.projections.value[i].name)))
  {
  }

  // The binder accepts a plain SELECT exactly when it binds, and raises nothing but a
  // logical error otherwise.
  lemma SelectExact(stmt: Select, cat: Catalog)
    requires CatalogOk(cat) && TablesOk(Tables(stmt)) && IsPlain(stmt)
    ensures SelectPlan(stmt, cat).Ok? <==> SelectBinds(stmt, cat)
    ensures SelectPlan(stmt, cat).Err? ==> SelectPlan(stmt, cat) == Err(LogicalError)
  {
    hide BuildScope, ProjectionItems, ExprOk, Bound, Named, JoinBinds, ItemsBind, Resolve;
    ScopeExact(stmt, cat);
    if BuildScope(stmt, cat).Ok? {
      var ts := Tables(stmt);
      ItemsExact(stmt, cat);
      if stmt.where.Some? {
        ExprExact(ts, cat, stmt.where.value);
      }
      if stmt.orderBy.Some? {
        ResolveExact(ts, cat, ColumnRef(stmt.orderBy.value.column, None));
        BareResolves(ScopeOf(ts, cat), stmt.orderBy.value.column);
      }
    }
  }

  lemma BareResolves(scope: Scope, name: string)
    ensures Resolve(scope, ColumnRef(name, None)) == ResolveName(scope, name)
  {
  }

  // The main result: a plain SELECT that binds and means what it says yields the limit of
  // the projection of the stable sort of the filter of its source, its items under their
  // labels.
  lemma SelectAnswer(stmt: Select, cat: Catalog, db: Database)
    requires CatalogOk(cat) && DatabaseOk(db, cat) && IsPlain(stmt) && Intended(stmt) && SelectBinds(stmt, cat)
    ensures SelectPlan(stmt, cat).Ok? && forall t :: t in Tables(stmt) ==> t in db
    ensures Rows(SelectPlan(stmt, cat).value, db) == SelectMeaning.Meaning(stmt, cat, db, ItemsOf(stmt, cat))
  {
    hide Rows, SelectMeaning.Meaning, ProjectionItems, SelectPlan, ItemsOf, ItemsBind;
    SelectExact(stmt, cat);
    PlanMeansSelect(stmt, cat, db);
    ItemsExact(stmt, cat);
  }

  // ------------------------------------------------------------------
  // Grouped statements
  // ------------------------------------------------------------------

  predicate IsAggregateCall(e: Expr) {
    e.Func? && IsAggregateName(e.name)
  }

  // The reference is to the GROUP BY column.
  ghost predicate NamesGroup(stmt: Select, cat: Catalog, ref: ColumnRef) {
    && stmt.groupBy == Some(ref.name)
    && exists i :: NamesIn(Tables(stmt), cat, ref, i)
                   && NamesIn(Tables(stmt), cat, ColumnRef(ref.name, None), i)
  }

  // A grouped SELECT lists aggregates, one at least, and the GROUP BY column, and orders
  // by one of its labels.
  ghost predicate GroupedBinds(stmt: Select, cat: Catalog) {
    && SourceBinds(stmt, cat) && ItemsBind(stmt, cat) && stmt.projections.Some?
    && (stmt.groupBy.Some? ==> Named(Tables(stmt), cat, ColumnRef(stmt.groupBy.value, None)))
    && var es := stmt.projections.value;
      && (forall i :: 0 <= i < |es| ==>
            IsAggregateCall(es[i]) || (es[i].Column? && NamesGroup(stmt, cat, es[i].col)))
      && (exists i :: 0 <= i < |es| && IsAggregateCall(es[i]))
      && (stmt.orderBy.Some? ==> exists i :: 0 <= i < |es| && Label(es[i]) == stmt.orderBy.value.column)
  }

  lemma SameGroup(stmt: Select, cat: Catalog, ref: ColumnRef)
    requires CatalogOk(cat) && TablesOk(Tables(stmt)) && InCatalog(Tables(stmt), cat)
    requires Named(Tables(stmt), cat, ref) && stmt.groupBy.Some?
    requires Named(Tables(stmt), cat, ColumnRef(stmt.groupBy.value, None))
    ensures var scope := ScopeOf(Tables(stmt), cat);
      Resolve(scope, ref) == ResolveName(scope, stmt.groupBy.value) <==> NamesGroup(stmt, cat, ref)
  {
    hide Resolve, ResolveName, Owns;
    var ts, scope, group := Tables(stmt), ScopeOf(Tables(stmt), cat), ColumnRef(stmt.groupBy.value, None);
    ResolveExact(ts, cat, ref);
    ResolveExact(ts, cat, group);
    BareResolves(scope, stmt.groupBy.value);
    var i: nat :| NamesIn(ts, cat, ref, i);
    var j: nat :| NamesIn(ts, cat, group, j);
    if |ts| == 2 {
      assert NoDot(ts[i]) && NoDot(ts[j]) by {
        assert ts[i] in ts && ts[j] in ts;
      }
      DotSplits(ts[i], ref.name, ts[j], group.name);
    }
    if NamesGroup(stmt, cat, ref) {
      var k: nat :| NamesIn(ts, cat, ref, k) && NamesIn(ts, cat, ColumnRef(ref.name, None), k);
      assert Resolve(scope, ref) == Ok(if |ts| == 1 then ref.name else ts[k] + "." + ref.name);
    }
  }

  lemma {:induction false} SomeAggregate(items: seq<(string, Expr)>, scope: Scope)
    ensures AggregatesOf(items, scope) != [] <==> exists i :: 0 <= i < |items| && AggregateOf(items[i], scope) != []
  {
    hide AggregateOf;
    if items == [] {
    } else {
      var before, n := items[..|items| - 1], |items| - 1;
      SomeAggregate(before, scope);
      assert forall i :: 0 <= i < n ==> before[i] == items[i];
      assert AggregateOf(items[n], scope) != [] ==> 0 <= n < |items|;
    }
  }

  // Whether an item may be listed, said of its kind.
  lemma ItemExact(stmt: Select, cat: Catalog, e: Expr)
    requires CatalogOk(cat) && TablesOk(Tables(stmt)) && InCatalog(Tables(stmt), cat) && Bound(Tables(stmt), cat, e)
    requires stmt.groupBy.Some? ==> Named(Tables(stmt), cat, ColumnRef(stmt.groupBy.value, None))
    requires e.Column? || e.Func?
    ensures var scope := ScopeOf(Tables(stmt), cat);
      && (GroupedItem(e, stmt, scope) <==> IsAggregateCall(e) || (e.Column? && NamesGroup(stmt, cat, e.col)))
      && forall name :: AggregateOf((name, e), scope) != [] <==> IsAggregateCall(e)
  {
    hide Resolve, ResolveName, NamesGroup, Named;
    if e.Column? {
      if stmt.groupBy.Some? {
        SameGroup(stmt, cat, e.col);
      } else {
        NoGroup(stmt, cat, e.col);
      }
    } else if e.arg.Some? {
      ResolveExact(Tables(stmt), cat, e.arg.value);
    }
  }

  lemma NoGroup(stmt: Select, cat: Catalog, ref: ColumnRef)
    requires stmt.groupBy.None?
    ensures !NamesGroup(stmt, cat, ref)
  {
  }

  lemma StarHasNone(tables: seq<string>, cat: Catalog, scope: Scope)
    requires InCatalog(tables, cat)
    ensures AggregatesOf(StarItems(tables, cat), scope) == []
  {
    SomeAggregate(StarItems(tables, cat), scope);
  }

  // What a grouped SELECT computes is refused exactly when its items are not as said.
  lemma AggregatesExact(stmt: Select, cat: Catalog)
    requires CatalogOk(cat) && TablesOk(Tables(stmt)) && SourceBinds(stmt, cat)
    ensures var r := GroupedSelect(stmt, ScopeOf(Tables(stmt), cat));
      && (r.Ok? <==> GroupedBinds(stmt.(orderBy := None), cat)) && (r.Err? ==> r == Err(LogicalError))
      && (r.Ok? ==> r.value.output == LabelsOf(ItemsOf(stmt, cat)))
  {
    hide ProjectionItems, Bound, Resolve, ResolveName, StarItems, AggregatesOf, AggregateOf, GroupedItem, NamesGroup,
         Named, JoinBinds, Label;
    var ts, scope := Tables(stmt), ScopeOf(Tables(stmt), cat);
    ItemsExact(stmt, cat);
    if stmt.groupBy.Some? {
      ResolveExact(ts, cat, ColumnRef(stmt.groupBy.value, None));
      BareResolves(scope, stmt.groupBy.value);
    }
    if stmt.projections.None? {
      StarHasNone(ts, cat, scope);
    } else if ItemsBind(stmt, cat) {
      var es, items := stmt.projections.value, ItemsOf(stmt, cat);
      SomeAggregate(items, scope);
      if stmt.groupBy.Some? ==> Named(ts, cat, ColumnRef(stmt.groupBy.value, None)) {
        forall i | 0 <= i < |es|
          ensures items[i] == (Label(es[i]), es[i])
          ensures GroupedItem(es[i], stmt, scope)
                  <==> IsAggregateCall(es[i]) || (es[i].Column? && NamesGroup(stmt, cat, es[i].col))
          ensures AggregateOf(items[i], scope) != [] <==> IsAggregateCall(es[i])
        {
          ItemExact(stmt, cat, es[i]);
        }
        SameGroups(stmt, cat);
      }
    }
  }

  // Ordering changes nothing about names.
  lemma SameGroups(stmt: Select, cat: Catalog)
    ensures Tables(stmt.(orderBy := None)) == Tables(stmt)
    ensures forall ref :: NamesGroup(stmt.(orderBy := None), cat, ref) <==> NamesGroup(stmt, cat, ref)
  {
  }

  // The binder accepts a grouped SELECT exactly when it binds, and raises nothing but a
  // logical error otherwise.
  lemma GroupedExact(stmt: Select, cat: Catalog)
    requires CatalogOk(cat) && TablesOk(Tables(stmt)) && !IsPlain(stmt)
    ensures GroupedPlan(stmt, cat).Ok? <==> GroupedBinds(stmt, cat)
    ensures GroupedPlan(stmt, cat).Err? ==> GroupedPlan(stmt, cat) == Err(LogicalError)
  {
    hide BuildScope, GroupedSelect, ExprOk, Bound, Named, JoinBinds, ItemsBind, NamesGroup, ItemsOf;
    ScopeExact(stmt, cat);
    if BuildScope(stmt, cat).Ok? {
      if stmt.where.Some? {
        ExprExact(Tables(stmt), cat, stmt.where.value);
      }
      if SourceBinds(stmt, cat) {
        AggregatesExact(stmt, cat);
        SameGroups(stmt, cat);
        SameItems(stmt, cat);
      }
    }
  }

  lemma SameItems(stmt: Select, cat: Catalog)
    requires InCatalog(Tables(stmt), cat)
    ensures ItemsBind(stmt.(orderBy := None), cat) <==> ItemsBind(stmt, cat)
    ensures stmt.projections.Some? ==> forall c ::
      c in LabelsOf(ItemsOf(stmt, cat))
      <==> exists i :: 0 <= i < |stmt.projections.value| && Label(stmt.projections.value[i]) == c
  {
    hide Bound, Label;
    if stmt.projections.Some? {
      var es, labels := stmt.projections.value, LabelsOf(ItemsOf(stmt, cat));
      assert forall i :: 0 <= i < |es| ==> labels[i] == Label(es[i]);
    }
  }

  // It does not order by an AVG, whose value is a floating-point number.
  predicate OrdersValues(stmt: Select) {
    stmt.orderBy.Some? && stmt.projections.Some? ==>
      forall i :: 0 <= i < |stmt.projections.value| ==>
        var e := stmt.projections.value[i];
        !(e.Func? && e.name == "AVG" && Label(e) == stmt.orderBy.value.column)
  }

  // It lists its group column once at most.
  predicate OneColumn(es: seq<Expr>) {
    forall i, j :: 0 <= i < j < |es| ==> !(es[i].Column? && es[j].Column?)
  }

  // An aggregate of some label is that of an item of that label.
  lemma {:induction false} AverageItem(items: seq<(string, Expr)>, scope: Scope, col: string)
    ensures (exists i :: 0 <= i < |AggregatesOf(items, scope)| && AggregatesOf(items, scope)[i].func == "AVG"
                         && AggregatesOf(items, scope)[i].name == col)
      ==> exists i :: 0 <= i < |items| && items[i].0 == col && items[i].1.Func? && items[i].1.name == "AVG"
  {
    if items == [] {
    } else {
      var before, n, aggs := items[..|items| - 1], |items| - 1, AggregatesOf(items, scope);
      AverageItem(before, scope, col);
      assert forall i :: 0 <= i < n ==> before[i] == items[i];
      if i :| 0 <= i < |aggs| && aggs[i].func == "AVG" && aggs[i].name == col {
        var few := AggregatesOf(before, scope);
        if i < |few| {
          assert few[i] == aggs[i];
        } else {
          assert items[n].0 == col && items[n].1.Func? && items[n].1.name == "AVG";
        }
      }
    }
  }

  lemma SortsShape(stmt: Select, groups: GroupExecutor.GroupPlan)
    requires groups.GroupBy?
    ensures GroupExecutor.SortsValues(LimitedGroups(stmt, SortedGroups(stmt, groups)))
      <==> stmt.orderBy.Some? ==> !GroupExecutor.IsAverage(groups, stmt.orderBy.value.column)
  {
    assert GroupExecutor.SortsValues(groups);
    var sorted := SortedGroups(stmt, groups);
    assert GroupExecutor.SortsValues(sorted)
      <==> stmt.orderBy.Some? ==> !GroupExecutor.IsAverage(groups, stmt.orderBy.value.column);
  }

  // The aggregates a grouped plan computes.
  lemma PlanShape(stmt: Select, cat: Catalog) returns (groups: GroupExecutor.GroupPlan)
    requires !IsPlain(stmt) && GroupedPlan(stmt, cat).Ok?
    ensures BuildScope(stmt, cat).Ok? && ProjectionItems(stmt, BuildScope(stmt, cat).value.1).Ok?
    ensures var scope := BuildScope(stmt, cat).value.1;
      groups.GroupBy? && groups.aggregates == AggregatesOf(ProjectionItems(stmt, scope).value, scope)
    ensures GroupedPlan(stmt, cat).value == LimitedGroups(stmt, SortedGroups(stmt, groups))
  {
    hide BuildScope, ProjectionItems, AggregatesOf, AllGroupedItems;
    var (source, scope) := BuildScope(stmt, cat).value;
    var g := GroupedSelect(stmt, scope).value;
    groups := GroupExecutor.GroupBy(stmt.groupBy, g.aggregates, g.output, Filtered(stmt, source));
  }

  lemma SortsThem(stmt: Select, cat: Catalog)
    requires CatalogOk(cat) && TablesOk(Tables(stmt)) && !IsPlain(stmt) && GroupedBinds(stmt, cat) && OrdersValues(stmt)
    ensures GroupedPlan(stmt, cat).Ok? && GroupExecutor.SortsValues(GroupedPlan(stmt, cat).value)
  {
    hide BuildScope, ProjectionItems, AggregatesOf, Label, ItemsBind, SourceBinds, GroupedBinds, GroupedPlan,
         LimitedGroups, SortedGroups;
    GroupedExact(stmt, cat);
    BindsItems(stmt, cat);
    var groups := PlanShape(stmt, cat);
    ScopeExact(stmt, cat);
    SortsShape(stmt, groups);
    if stmt.orderBy.Some? {
      var scope := ScopeOf(Tables(stmt), cat);
      var items := ItemsOf(stmt, cat);
      AverageItem(items, scope, stmt.orderBy.value.column);
      assert forall i :: 0 <= i < |items| ==>
        items[i].0 == Label(items[i].1) && items[i].1 == stmt.projections.value[i];
    }
  }

  lemma BindsItems(stmt: Select, cat: Catalog)
    requires GroupedBinds(stmt, cat)
    ensures InCatalog(Tables(stmt), cat) && stmt.projections.Some?
    ensures ProjectionItems(stmt, ScopeOf(Tables(stmt), cat)) == Ok(ItemsOf(stmt, cat))
    ensures ItemsOf(stmt, cat) == ListedItems(stmt.projections.value)
  {
    hide ItemsBind, ProjectionItems, Bound;
    ItemsExact(stmt, cat);
  }

  // The same for a grouped SELECT: it yields the limit of the sort of one row a group of
  // its filtered source, in the order of the groups' first rows.
  lemma GroupedAnswer(stmt: Select, cat: Catalog, db: Database)
    requires CatalogOk(cat) && DatabaseOk(db, cat) && !IsPlain(stmt) && SourceIntended(stmt)
    requires GroupedBinds(stmt, cat) && OrdersValues(stmt) && OneColumn(stmt.projections.value)
    ensures GroupedPlan(stmt, cat).Ok? && (forall t :: t in Tables(stmt) ==> t in db)
    ensures GroupExecutor.GroupRows(GroupedPlan(stmt, cat).value, db)
            == GroupedMeaning.GroupedMeaning(stmt, cat, db, ListedItems(stmt.projections.value))
  {
    hide ProjectionItems, GroupedPlan, BuildScope, GroupedBinds, GroupExecutor.GroupRows, GroupedMeaning.GroupedMeaning,
         GroupExecutor.SortsValues, ItemsOf;
    BindsItems(stmt, cat);
    SortsThem(stmt, cat);
    ScopeExact(stmt, cat);
    BoundScope(stmt, cat);
    GroupedMeaning.GroupedPlanMeansSelect(stmt, cat, db);
  }

  lemma BoundScope(stmt: Select, cat: Catalog)
    requires CatalogOk(cat) && TablesOk(Tables(stmt)) && !IsPlain(stmt) && GroupedPlan(stmt, cat).Ok?
    ensures BuildScope(stmt, cat).Ok? && BuildScope(stmt, cat).value.1 == ScopeOf(Tables(stmt), cat)
  {
    ScopeExact(stmt, cat);
  }
}
