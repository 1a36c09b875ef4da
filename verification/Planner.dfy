// Binding SELECT statements: names to row keys, statements to plans.
module Planner {
  import opened Wrappers
  import opened SqlAst
  import opened Evaluate
  import opened Executor
  import Grouping
  import GroupExecutor

  // Tables and their columns in schema order.
  type Catalog = map<string, seq<string>>

  // One or two tables and the columns of each.
  datatype Scope = Scope(tables: seq<string>, byTable: Catalog)

  const AGG_FUNCS := { "COUNT", "SUM", "MIN", "MAX", "AVG" }
  const SCALAR_FUNCS := { "LENGTH" }

  predicate IsAggregate(name: string) {
    name in AGG_FUNCS
  }

  // ------------------------------------------------------------------
  // Names
  // ------------------------------------------------------------------

  predicate HasColumn(scope: Scope, table: string, name: string) {
    table in scope.byTable && name in scope.byTable[table]
  }

  // The tables that have a column of that name.
  function Owners(tables: seq<string>, scope: Scope, name: string): seq<string> {
    if tables == [] then []
    else (if HasColumn(scope, tables[0], name) then [tables[0]] else []) + Owners(tables[1..], scope, name)
  }

  function RowKey(scope: Scope, table: string, name: string): string {
    if |scope.tables| > 1 then table + "." + name else name
  }

  // A bare name must have exactly one owner.
  function ResolveName(scope: Scope, name: string): Result<string> {
    var owners := Owners(scope.tables, scope, name);
    if |owners| != 1 then Err(LogicalError) else Ok(RowKey(scope, owners[0], name))
  }

  function Resolve(scope: Scope, ref: ColumnRef): Result<string> {
    match ref.table
    case None => ResolveName(scope, ref.name)
    case Some(t) => if HasColumn(scope, t, ref.name) then Ok(RowKey(scope, t, ref.name)) else Err(LogicalError)
  }

  function TableColumns(table: string, cols: seq<string>, joined: bool): seq<(string, Expr)> {
    seq(|cols|, i requires 0 <= i < |cols| =>
      if joined then (table + "." + cols[i], Column(ColumnRef(cols[i], Some(table))))
      else (cols[i], Column(ColumnRef(cols[i], None))))
  }

  // SELECT *: every column of every table, qualified under a join.
  function AllColumns(scope: Scope, tables: seq<string>): seq<(string, Expr)> {
    if tables == [] then []
    else
      (if tables[0] in scope.byTable then TableColumns(tables[0], scope.byTable[tables[0]], |scope.tables| > 1) else [])
      + AllColumns(scope, tables[1..])
  }

  // ------------------------------------------------------------------
  // The source
  // ------------------------------------------------------------------

  // A row key up to its first dot.
  function BeforeDot(key: string): string {
    if key == "" || key[0] == '.' then "" else [key[0]] + BeforeDot(key[1..])
  }

  // The scan or join that feeds a statement, and its scope. The ON keys are
  // oriented by the tables they belong to.
  function BuildScope(stmt: Select, cat: Catalog): Result<(Plan, Scope)> {
    if stmt.table !in cat then Err(LogicalError)
    else
      var left := Scan(stmt.table, cat[stmt.table]);
      match stmt.join
      case None => Ok((left, Scope([stmt.table], map[stmt.table := cat[stmt.table]])))
      case Some(join) =>
        if join.table !in cat then Err(LogicalError)
        else
          var scope := Scope([stmt.table, join.table],
              map[stmt.table := cat[stmt.table]][join.table := cat[join.table]]);
          match Resolve(scope, join.left)
          case Err(e) => Err(e)
          case Ok(k1) =>
            match Resolve(scope, join.right)
            case Err(e) => Err(e)
            case Ok(k2) =>
              var keyed := map[BeforeDot(k1) := k1][BeforeDot(k2) := k2];
              if keyed.Keys != {stmt.table, join.table} then Err(LogicalError)
              else Ok((JoinScans(keyed[stmt.table], keyed[join.table], left, Scan(join.table, cat[join.table])), scope))
  }

  // ------------------------------------------------------------------
  // Expressions
  // ------------------------------------------------------------------

  predicate FuncOk(name: string, arg: Option<ColumnRef>, scope: Scope) {
    if name == "COUNT" && arg.None? then true
    else (IsAggregate(name) || name in SCALAR_FUNCS) && arg.Some? && Resolve(scope, arg.value).Ok?
  }

  // Every column reference resolves and every function is known.
  predicate ExprOk(e: Expr, scope: Scope) {
    match e
    case Lit(_) => true
    case Column(c) => Resolve(scope, c).Ok?
    case Func(name, arg) => FuncOk(name, arg, scope)
    case Compare(_, l, r) => ExprOk(l, scope) && ExprOk(r, scope)
    case Logic(_, l, r) => ExprOk(l, scope) && ExprOk(r, scope)
  }

  function Size(e: Expr): nat {
    match e
    case Compare(_, l, r) => 1 + Size(l) + Size(r)
    case Logic(_, l, r) => 1 + Size(l) + Size(r)
    case _ => 1
  }

  function Sizes(es: seq<Expr>): nat {
    if es == [] then 0 else Sizes(es[..|es| - 1]) + Size(es[|es| - 1])
  }

  predicate AllExprOk(es: seq<Expr>, scope: Scope) {
    forall i :: 0 <= i < |es| ==> ExprOk(es[i], scope)
  }

  lemma Push(es: seq<Expr>, e: Expr, scope: Scope)
    ensures Sizes(es + [e]) == Sizes(es) + Size(e)
    ensures AllExprOk(es + [e], scope) <==> AllExprOk(es, scope) && ExprOk(e, scope)
  {
    hide Size, ExprOk;
    var all := es + [e];
    assert all[..|es|] == es && all[|es|] == e;
    assert forall i :: 0 <= i < |es| ==> all[i] == es[i];
  }

  lemma Pop(stack: seq<Expr>, scope: Scope)
    requires stack != []
    ensures var rest, node := stack[..|stack| - 1], stack[|stack| - 1];
      && Sizes(stack) == Sizes(rest) + Size(node)
      && (AllExprOk(stack, scope) <==> AllExprOk(rest, scope) && ExprOk(node, scope))
  {
    hide Size, ExprOk;
    var rest, node := stack[..|stack| - 1], stack[|stack| - 1];
    assert stack == rest + [node];
    Push(rest, node, scope);
  }

  // Walks the expression with an explicit stack.
  method CheckScopeExpr(expr: Expr, scope: Scope) returns (ok: bool)
    ensures ok <==> ExprOk(expr, scope)
  {
    hide Sizes, AllExprOk, Resolve, FuncOk;
    var stack := [expr];
    JustOne(expr, scope);
    while stack != []
      invariant ExprOk(expr, scope) <==> AllExprOk(stack, scope)
      decreases Sizes(stack)
    {
      Pop(stack, scope);
      var node := stack[|stack| - 1];
      stack := stack[..|stack| - 1];
      if node.Column? {
        if Resolve(scope, node.col).Err? {
          return false;
        }
      } else if node.Compare? || node.Logic? {
        Push(stack, node.left, scope);
        Push(stack + [node.left], node.right, scope);
        stack := stack + [node.left];
        stack := stack + [node.right];
      } else if node.Func? {
        if !FuncOk(node.name, node.arg, scope) {
          return false;
        }
      }
    }
    NoneLeft(scope);
    return true;
  }

  lemma JustOne(e: Expr, scope: Scope)
    ensures AllExprOk([e], scope) <==> ExprOk(e, scope)
  {
    hide ExprOk;
    assert [e][0] == e;
  }

  lemma NoneLeft(scope: Scope)
    ensures AllExprOk([], scope)
  {
  }

  // ------------------------------------------------------------------
  // Projections
  // ------------------------------------------------------------------

  function LabelOf(e: Expr): string {
    match e
    case Func(name, arg) => name + "(" + (if arg.None? then "*" else KeyOf(arg.value)) + ")"
    case Column(c) => KeyOf(c)
    case _ => ""
  }

  predicate ItemOk(e: Expr, scope: Scope) {
    (e.Column? || e.Func?) && ExprOk(e, scope)
  }

  predicate DistinctLabels(items: seq<(string, Expr)>) {
    forall i, j :: 0 <= i < j < |items| ==> items[i].0 != items[j].0
  }

  function Labelled(es: seq<Expr>): (r: seq<(string, Expr)>)
    ensures |r| == |es|
  {
    seq(|es|, i requires 0 <= i < |es| => (LabelOf(es[i]), es[i]))
  }

  // Labelled output expressions; unknown names, other expressions and repeated
  // labels are errors.
  function ProjectionItems(stmt: Select, scope: Scope): Result<seq<(string, Expr)>> {
    match stmt.projections
    case None => Ok(AllColumns(scope, scope.tables))
    case Some(es) =>
      if (forall i :: 0 <= i < |es| ==> ItemOk(es[i], scope)) && DistinctLabels(Labelled(es)) then Ok(Labelled(es))
      else Err(LogicalError)
  }

  method BuildItems(stmt: Select, scope: Scope) returns (r: Result<seq<(string, Expr)>>)
    ensures r == ProjectionItems(stmt, scope)
  {
    if stmt.projections.None? {
      return Ok(AllColumns(scope, scope.tables));
    }
    var es := stmt.projections.value;
    var items: seq<(string, Expr)> := [];
    for i := 0 to |es|
      invariant |items| == i
      invariant forall j :: 0 <= j < i ==> ItemOk(es[j], scope) && items[j] == (LabelOf(es[j]), es[j])
    {
      var e := es[i];
      if !(e.Column? || e.Func?) || !ExprOk(e, scope) {
        return Err(LogicalError);
      }
      items := items + [(LabelOf(e), e)];
    }
    assert items == Labelled(es);
    if !DistinctLabels(items) {
      return Err(LogicalError);
    }
    return Ok(items);
  }

  // ------------------------------------------------------------------
  // Plans
  // ------------------------------------------------------------------

  predicate HasAggregate(projections: Option<seq<Expr>>) {
    projections.Some? && exists i :: 0 <= i < |projections.value| && IsAggregateItem(projections.value[i])
  }

  // A statement that is not grouped.
  predicate IsPlain(stmt: Select) {
    stmt.groupBy.None? && !HasAggregate(stmt.projections)
  }

  // The source under its filter.
  function Filtered(stmt: Select, source: Plan): Plan {
    if stmt.where.Some? then Filter(stmt.where.value, source) else source
  }

  function Sorted(stmt: Select, node: Plan): Plan {
    if stmt.orderBy.Some? then Sort(stmt.orderBy.value.column, stmt.orderBy.value.descending, node) else node
  }

  function Limited(stmt: Select, node: Plan): Plan {
    if stmt.limit.Some? then Limit(stmt.limit.value, node) else node
  }

  // WHERE, then ORDER BY, then the projection, then LIMIT.
  function SelectPlan(stmt: Select, cat: Catalog): Result<Plan>
    requires IsPlain(stmt)
  {
    match BuildScope(stmt, cat)
    case Err(e) => Err(e)
    case Ok((source, scope)) =>
      if stmt.where.Some? && !ExprOk(stmt.where.value, scope) then Err(LogicalError)
      else if stmt.orderBy.Some? && ResolveName(scope, stmt.orderBy.value.column).Err? then Err(LogicalError)
      else
        match ProjectionItems(stmt, scope)
        case Err(e) => Err(e)
        case Ok(items) => Ok(Limited(stmt, Projection(items, Sorted(stmt, Filtered(stmt, source)))))
  }

  method BuildSelect(stmt: Select, cat: Catalog) returns (r: Result<Plan>)
    requires IsPlain(stmt)
    ensures r == SelectPlan(stmt, cat)
  {
    var scoped := BuildScope(stmt, cat);
    if scoped.Err? {
      return Err(scoped.error);
    }
    var (node, scope) := scoped.value;
    if stmt.where.Some? {
      var ok := CheckScopeExpr(stmt.where.value, scope);
      if !ok {
        return Err(LogicalError);
      }
      node := Filter(stmt.where.value, node);
    }
    if stmt.orderBy.Some? {
      if ResolveName(scope, stmt.orderBy.value.column).Err? {
        return Err(LogicalError);
      }
      node := Sort(stmt.orderBy.value.column, stmt.orderBy.value.descending, node);
    }
    var items := BuildItems(stmt, scope);
    if items.Err? {
      return Err(items.error);
    }
    node := Projection(items.value, node);
    if stmt.limit.Some? {
      node := Limit(stmt.limit.value, node);
    }
    return Ok(node);
  }

  // ------------------------------------------------------------------
  // Grouped statements
  // ------------------------------------------------------------------

  // What a grouped SELECT computes and the labels it emits, in SELECT order.
  datatype Grouped = Grouped(aggregates: seq<Grouping.Aggregate>, output: seq<string>)

  predicate IsAggregateItem(e: Expr) {
    e.Func? && IsAggregate(e.name)
  }

  function ArgKey(arg: Option<ColumnRef>, scope: Scope): Result<Option<string>> {
    match arg
    case None => Ok(None)
    case Some(c) =>
      match Resolve(scope, c)
      case Ok(key) => Ok(Some(key))
      case Err(e) => Err(e)
  }

  // An item a grouped SELECT may list: an aggregate, or the GROUP BY column.
  predicate GroupedItem(e: Expr, stmt: Select, scope: Scope) {
    if IsAggregateItem(e) then ArgKey(e.arg, scope).Ok?
    else e.Column? && stmt.groupBy.Some? && Resolve(scope, e.col) == ResolveName(scope, stmt.groupBy.value)
  }

  // The aggregate an item asks for.
  function AggregateOf(item: (string, Expr), scope: Scope): seq<Grouping.Aggregate> {
    var (name, e) := item;
    if IsAggregateItem(e) && ArgKey(e.arg, scope).Ok?
      then [Grouping.Aggregate(e.name, ArgKey(e.arg, scope).value, name)]
    else []
  }

  function AggregatesOf(items: seq<(string, Expr)>, scope: Scope): seq<Grouping.Aggregate> {
    if items == [] then []
    else AggregatesOf(items[..|items| - 1], scope) + AggregateOf(items[|items| - 1], scope)
  }

  function LabelsOf(items: seq<(string, Expr)>): (r: seq<string>)
    ensures |r| == |items|
  {
    seq(|items|, i requires 0 <= i < |items| => items[i].0)
  }

  predicate AllGroupedItems(items: seq<(string, Expr)>, stmt: Select, scope: Scope) {
    forall i :: 0 <= i < |items| ==> GroupedItem(items[i].1, stmt, scope)
  }

  function GroupedSelect(stmt: Select, scope: Scope): Result<Grouped> {
    if stmt.groupBy.Some? && ResolveName(scope, stmt.groupBy.value).Err? then Err(LogicalError)
    else
      match ProjectionItems(stmt, scope)
      case Err(e) => Err(LogicalError)
      case Ok(items) =>
        if AllGroupedItems(items, stmt, scope) && AggregatesOf(items, scope) != []
        then Ok(Grouped(AggregatesOf(items, scope), LabelsOf(items))) else Err(LogicalError)
  }

  lemma NoItems(items: seq<(string, Expr)>, stmt: Select, scope: Scope)
    ensures AggregatesOf(items[..0], scope) == [] && LabelsOf(items[..0]) == []
    ensures AllGroupedItems(items[..0], stmt, scope)
  {
  }

  lemma ItemStep(items: seq<(string, Expr)>, stmt: Select, scope: Scope, k: nat)
    requires k < |items|
    ensures LabelsOf(items[..k + 1]) == LabelsOf(items[..k]) + [items[k].0]
    ensures AggregatesOf(items[..k + 1], scope) == AggregatesOf(items[..k], scope) + AggregateOf(items[k], scope)
    ensures AllGroupedItems(items[..k + 1], stmt, scope)
      <==> AllGroupedItems(items[..k], stmt, scope) && GroupedItem(items[k].1, stmt, scope)
  {
    hide AggregateOf, GroupedItem;
    assert items[..k + 1][..k] == items[..k];
    assert forall i :: 0 <= i < k ==> items[..k + 1][i] == items[..k][i];
  }

  lemma OneBadItem(items: seq<(string, Expr)>, stmt: Select, scope: Scope, k: nat)
    requires k < |items| && !GroupedItem(items[k].1, stmt, scope)
    ensures !AllGroupedItems(items, stmt, scope)
  {
  }

  method BuildAggregate(stmt: Select, scope: Scope) returns (r: Result<Grouped>)
    ensures r == GroupedSelect(stmt, scope)
  {
    hide ProjectionItems, Resolve, ResolveName, AggregatesOf, LabelsOf, AllGroupedItems, ArgKey;
    if stmt.groupBy.Some? && ResolveName(scope, stmt.groupBy.value).Err? {
      return Err(LogicalError);
    }
    var built := BuildItems(stmt, scope);
    if built.Err? {
      return Err(LogicalError);
    }
    var items := built.value;
    var aggs: seq<Grouping.Aggregate> := [];
    var output: seq<string> := [];
    NoItems(items, stmt, scope);
    for k := 0 to |items|
      invariant aggs == AggregatesOf(items[..k], scope) && output == LabelsOf(items[..k])
      invariant AllGroupedItems(items[..k], stmt, scope)
    {
      var (name, e) := items[k];
      ItemStep(items, stmt, scope, k);
      if IsAggregateItem(e) {
        var arg := ArgKey(e.arg, scope);
        if arg.Err? {
          OneBadItem(items, stmt, scope, k);
          return Err(LogicalError);
        }
        aggs := aggs + [Grouping.Aggregate(e.name, arg.value, name)];
      } else if e.Column? {
        if stmt.groupBy.None? || Resolve(scope, e.col) != ResolveName(scope, stmt.groupBy.value) {
          OneBadItem(items, stmt, scope, k);
          return Err(LogicalError);
        }
      } else {
        OneBadItem(items, stmt, scope, k);
        return Err(LogicalError);
      }
      output := output + [name];
    }
    assert items[..|items|] == items;
    if aggs == [] {
      return Err(LogicalError);
    }
    return Ok(Grouped(aggs, output));
  }

  // ORDER BY over a grouped result names one of its labels.
  function SortedGroups(stmt: Select, node: GroupExecutor.GroupPlan): GroupExecutor.GroupPlan {
    if stmt.orderBy.Some? then GroupExecutor.SortGroups(stmt.orderBy.value.column, stmt.orderBy.value.descending, node)
    else node
  }

  function LimitedGroups(stmt: Select, node: GroupExecutor.GroupPlan): GroupExecutor.GroupPlan {
    if stmt.limit.Some? then GroupExecutor.LimitGroups(stmt.limit.value, node) else node
  }

  // WHERE, then the aggregation, then ORDER BY, then LIMIT.
  function GroupedPlan(stmt: Select, cat: Catalog): Result<GroupExecutor.GroupPlan>
    requires !IsPlain(stmt)
  {
    match BuildScope(stmt, cat)
    case Err(e) => Err(e)
    case Ok((source, scope)) =>
      if stmt.where.Some? && !ExprOk(stmt.where.value, scope) then Err(LogicalError)
      else
        match GroupedSelect(stmt, scope)
        case Err(e) => Err(e)
        case Ok(g) =>
          if stmt.orderBy.Some? && stmt.orderBy.value.column !in g.output then Err(LogicalError)
          else
            var groups := GroupExecutor.GroupBy(stmt.groupBy, g.aggregates, g.output, Filtered(stmt, source));
            Ok(LimitedGroups(stmt, SortedGroups(stmt, groups)))
  }

  method BuildGrouped(stmt: Select, cat: Catalog) returns (r: Result<GroupExecutor.GroupPlan>)
    requires !IsPlain(stmt)
    ensures r == GroupedPlan(stmt, cat)
  {
    hide BuildScope, ExprOk, GroupedSelect;
    var scoped := BuildScope(stmt, cat);
    if scoped.Err? {
      return Err(scoped.error);
    }
    var (node, scope) := scoped.value;
    if stmt.where.Some? {
      var ok := CheckScopeExpr(stmt.where.value, scope);
      if !ok {
        return Err(LogicalError);
      }
      node := Filter(stmt.where.value, node);
    }
    var g := BuildAggregate(stmt, scope);
    if g.Err? {
      return Err(g.error);
    }
    var groups := GroupExecutor.GroupBy(stmt.groupBy, g.value.aggregates, g.value.output, node);
    if stmt.orderBy.Some? {
      if stmt.orderBy.value.column !in g.value.output {
        return Err(LogicalError);
      }
      groups := GroupExecutor.SortGroups(stmt.orderBy.value.column, stmt.orderBy.value.descending, groups);
    }
    if stmt.limit.Some? {
      groups := GroupExecutor.LimitGroups(stmt.limit.value, groups);
    }
    return Ok(groups);
  }

  // The labels of the aggregates are those of the aggregate items.
  lemma {:induction false} AggregateLabels(items: seq<(string, Expr)>, scope: Scope, c: string)
    ensures Grouping.IsLabel(AggregatesOf(items, scope), c)
      <==> exists i :: 0 <= i < |items| && items[i].0 == c && AggregateOf(items[i], scope) != []
  {
    if items == [] {
    } else {
      var before, last := items[..|items| - 1], items[|items| - 1];
      AggregateLabels(before, scope, c);
      OneAggregate(last, scope);
      if AggregateOf(last, scope) == [] {
        assert AggregatesOf(items, scope) == AggregatesOf(before, scope);
      } else {
        assert AggregateOf(last, scope) == [AggregateOf(last, scope)[0]];
        Grouping.OneMoreLabel(AggregatesOf(before, scope), AggregateOf(last, scope)[0], c);
      }
      if i: nat :| i < |items| && items[i].0 == c && AggregateOf(items[i], scope) != [] {
        assert i == |before| || before[i] == items[i];
      }
      if i: nat :| i < |before| && before[i].0 == c && AggregateOf(before[i], scope) != [] {
        assert items[i] == before[i];
      }
    }
  }

  lemma {:induction false} AggregatesDistinct(items: seq<(string, Expr)>, scope: Scope)
    requires DistinctLabels(items)
    ensures Grouping.DistinctNames(AggregatesOf(items, scope))
  {
    hide AggregateOf;
    if items == [] {
    } else {
      var before, last := items[..|items| - 1], items[|items| - 1];
      AggregatesDistinct(before, scope);
      AggregateLabels(before, scope, last.0);
      OneAggregate(last, scope);
      forall i | 0 <= i < |AggregatesOf(before, scope)| ensures AggregatesOf(before, scope)[i].name != last.0 {
        assert !Grouping.IsLabel(AggregatesOf(before, scope), last.0);
      }
    }
  }

  lemma OneAggregate(item: (string, Expr), scope: Scope)
    ensures AggregateOf(item, scope)
            == [] || (|AggregateOf(item, scope)| == 1 && AggregateOf(item, scope)[0].name == item.0)
  {
  }

  // No column is listed beside another.
  predicate OneColumnItem(items: seq<(string, Expr)>) {
    forall i, j :: 0 <= i < |items| && 0 <= j < |items| && items[i].1.Column? && items[j].1.Column? ==> i == j
  }

  // A grouped SELECT has labels the executor can fill exactly when it lists the group
  // column at most once.
  lemma GroupedIsBound(stmt: Select, scope: Scope)
    requires stmt.projections.Some? && GroupedSelect(stmt, scope).Ok?
    ensures var items, g := ProjectionItems(stmt, scope).value, GroupedSelect(stmt, scope).value;
      && Grouping.DistinctNames(g.aggregates)
      && (Grouping.OneGroupLabel(g.aggregates, g.output) <==> OneColumnItem(items))
  {
    hide AggregatesOf, ResolveName, ArgKey, ItemOk;
    var items, g := ProjectionItems(stmt, scope).value, GroupedSelect(stmt, scope).value;
    AggregatesDistinct(items, scope);
    forall i | 0 <= i < |items| ensures !Grouping.IsLabel(g.aggregates, g.output[i]) <==> items[i].1.Column? {
      AggregateLabels(items, scope, items[i].0);
      assert GroupedItem(items[i].1, stmt, scope);
    }
    if Grouping.OneGroupLabel(g.aggregates, g.output) {
      forall i, j | 0 <= i < |items| && 0 <= j < |items| && items[i].1.Column? && items[j].1.Column? ensures i == j {
        assert g.output[i] in g.output && g.output[j] in g.output;
        assert items[i].0 == items[j].0;
      }
    }
  }

  // The group column listed twice, bare and qualified:
  // SELECT dept, t.dept, COUNT(*) FROM t GROUP BY dept.
  const TWICE_ITEMS: seq<Expr> :=
    [Column(ColumnRef("dept", None)), Column(ColumnRef("dept", Some("t"))), Func("COUNT", None)]
  const TWICE := Select(Some(TWICE_ITEMS), "t", None, None, Some("dept"), None, None)
  const TWICE_SCOPE := Scope(["t"], map["t" := ["dept"]])

  lemma TwiceResolves()
    ensures ResolveName(TWICE_SCOPE, "dept") == Ok("dept")
    ensures forall i :: 0 <= i < 3 ==>
      ItemOk(TWICE_ITEMS[i], TWICE_SCOPE) && GroupedItem(TWICE_ITEMS[i], TWICE, TWICE_SCOPE)
  {
    assert Owners(["t"], TWICE_SCOPE, "dept") == ["t"] by {
      assert ["t"][1..] == [];
    }
  }

  lemma TwiceLabels()
    ensures DistinctLabels(Labelled(TWICE_ITEMS))
  {
    var items := Labelled(TWICE_ITEMS);
    assert |items[0].0| == 4 && |items[1].0| == 6 && |items[2].0| == 8;
  }

  lemma TwiceAggregates()
    ensures AggregatesOf(Labelled(TWICE_ITEMS), TWICE_SCOPE) != []
  {
    var items := Labelled(TWICE_ITEMS);
    assert AggregateOf(items[2], TWICE_SCOPE) != [];
  }

  // The binder accepts it, and every group's output row fails.
  lemma GroupColumnTwice(key: Value, members: seq<Row>)
    ensures var g := GroupedSelect(TWICE, TWICE_SCOPE);
      g.Ok? && Grouping.GroupRow(key, members, g.value.aggregates, g.value.output).Err?
  {
    hide ResolveName, ItemOk, GroupedItem, LabelOf, AggregatesOf, DistinctLabels, Grouping.GroupRow;
    TwiceResolves();
    TwiceLabels();
    TwiceAggregates();
    var g := GroupedSelect(TWICE, TWICE_SCOPE).value;
    GroupedIsBound(TWICE, TWICE_SCOPE);
    var items := ProjectionItems(TWICE, TWICE_SCOPE).value;
    assert items[0].1.Column? && items[1].1.Column?;
    Grouping.GroupRowMeans(key, members, g.aggregates, g.output);
  }
}
