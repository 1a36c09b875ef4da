// What a grouped SELECT means, said over rows of its tables, and that the bound and
// executed plan gives exactly that.
module GroupedMeaning {
  import opened Wrappers
  import opened SqlAst
  import opened Evaluate
  import opened Executor
  import opened Planner
  import opened SelectMeaning
  import opened Grouping
  import G = GroupExecutor

  // ------------------------------------------------------------------
  // The meaning
  // ------------------------------------------------------------------

  function EnvGroup(groupBy: Option<string>, tables: seq<string>, cat: Catalog): Env -> Value {
    (env: Env) => if groupBy.Some? then ValueIn(tables, cat, env, ColumnRef(groupBy.value, None)) else NullValue
  }

  function EnvArg(arg: Option<ColumnRef>, tables: seq<string>, cat: Catalog): Option<Env -> Value> {
    match arg
    case None => None
    case Some(ref) => Some((env: Env) => ValueIn(tables, cat, env, ref))
  }

  // What an item is for the group of value k: the aggregate over its members, or k.
  function ItemValue(e: Expr, k: Value, members: seq<Env>, tables: seq<string>, cat: Catalog): Result<AggValue> {
    if IsAggregateItem(e) then ApplyAggregate(e.name, EnvArg(e.arg, tables, cat), members) else Ok(Plain(k))
  }

  // Each item's value under its label.
  function ItemRow(items: seq<(string, Expr)>, k: Value, members: seq<Env>, tables: seq<string>, cat: Catalog)
    : Result<AggRow>
  {
    if items == [] then Ok(map[])
    else
      var (name, e) := items[|items| - 1];
      match ItemRow(items[..|items| - 1], k, members, tables, cat)
      case Err(x) => Err(x)
      case Ok(out) =>
        match ItemValue(e, k, members, tables, cat)
        case Err(x) => Err(x)
        case Ok(v) => Ok(out[name := v])
  }

  function EnvGroupRow(stmt: Select, cat: Catalog, envs: seq<Env>, items: seq<(string, Expr)>)
    : Value -> Result<AggRow>
  {
    var ts := Tables(stmt);
    (k: Value) => ItemRow(items, k, Members(envs, EnvGroup(stmt.groupBy, ts, cat), k), ts, cat)
  }

  // One row a group, in the order of the groups' first rows.
  function GroupedEnvs(stmt: Select, cat: Catalog, s: Stream<Env>, items: seq<(string, Expr)>): Stream<AggRow> {
    if s.error.Some? then Stream([], s.error)
    else
      var ks := OutputGroups(s.rows, EnvGroup(stmt.groupBy, Tables(stmt), cat), stmt.groupBy.Some?);
      MapStream(Stream(ks, None), EnvGroupRow(stmt, cat, s.rows, items))
  }

  // limit(sort(group(filter(source))))
  function GroupedMeaning(stmt: Select, cat: Catalog, db: Database, items: seq<(string, Expr)>): Stream<AggRow>
    requires forall t :: t in Tables(stmt) ==> t in db
  {
    var grouped := GroupedEnvs(stmt, cat, Qualifying(stmt, cat, db), items);
    var sorted := if stmt.orderBy.None? then grouped
                  else SortStream(grouped, G.LabelValue(stmt.orderBy.value.column), stmt.orderBy.value.descending);
    if stmt.limit.None? then sorted else Take(sorted, stmt.limit.value)
  }

  // ------------------------------------------------------------------
  // Groups of merged rows
  // ------------------------------------------------------------------

  lemma MergeLast(tables: seq<string>, envs: seq<Env>)
    requires envs != []
    ensures var n := |envs| - 1;
      && MergeAll(tables, envs)[..n] == MergeAll(tables, envs[..n])
      && MergeAll(tables, envs)[n] == Merge(tables, envs[n])
  {
  }

  lemma {:induction false} MembersMerged(tables: seq<string>, envs: seq<Env>, key: Row -> Value, g: Env -> Value,
                                         k: Value)
    requires forall env :: env in envs ==> key(Merge(tables, env)) == g(env)
    ensures Members(MergeAll(tables, envs), key, k) == MergeAll(tables, Members(envs, g, k))
  {
    hide Merge;
    if envs == [] {
    } else {
      var before, last := envs[..|envs| - 1], envs[|envs| - 1];
      MergeLast(tables, envs);
      assert last in envs && forall env :: env in before ==> env in envs;
      MembersMerged(tables, before, key, g, k);
      MergeConcat(tables, Members(before, g, k), [last]);
      MergeConcat(tables, Members(before, g, k), []);
      assert MergeAll(tables, [last]) == [Merge(tables, last)] && MergeAll(tables, []) == [];
    }
  }

  lemma {:induction false} GroupsMerged(tables: seq<string>, envs: seq<Env>, key: Row -> Value, g: Env -> Value)
    requires forall env :: env in envs ==> key(Merge(tables, env)) == g(env)
    ensures Groups(MergeAll(tables, envs), key) == Groups(envs, g)
  {
    hide Merge;
    if envs == [] {
    } else {
      MergeLast(tables, envs);
      assert envs[|envs| - 1] in envs && forall env :: env in envs[..|envs| - 1] ==> env in envs;
      GroupsMerged(tables, envs[..|envs| - 1], key, g);
    }
  }

  lemma {:induction false} PresentMerged(tables: seq<string>, envs: seq<Env>, field: Row -> Value, g: Env -> Value)
    requires forall env :: env in envs ==> field(Merge(tables, env)) == g(env)
    ensures Present(MergeAll(tables, envs), field) == Present(envs, g)
  {
    hide Merge;
    if envs == [] {
    } else {
      MergeLast(tables, envs);
      assert envs[|envs| - 1] in envs && forall env :: env in envs[..|envs| - 1] ==> env in envs;
      PresentMerged(tables, envs[..|envs| - 1], field, g);
    }
  }

  // ------------------------------------------------------------------
  // Names
  // ------------------------------------------------------------------

  // The key an aggregate's column resolves to reads its owner's value, qualified or not.
  lemma KeyReadsOwner(tables: seq<string>, cat: Catalog, env: Env, ref: ColumnRef)
    requires CatalogOk(cat) && TablesOk(tables) && EnvOk(tables, cat, env) && Resolve(ScopeOf(tables, cat), ref).Ok?
    ensures Field(Merge(tables, env), Resolve(ScopeOf(tables, cat), ref).value) == ValueIn(tables, cat, env, ref)
  {
    hide CatalogOk, Merge;
    OwnerOfTwo(tables, cat, ref);
    OwnersOfTwo(tables, ScopeOf(tables, cat), ref.name);
    if |tables| == 1 {
      var bare := ColumnRef(ref.name, None);
      OwnerOfTwo(tables, cat, bare);
      NameReadsOwner(tables, cat, env, bare);
    } else {
      ResolvedName(tables, cat, ref);
      var full := ColumnRef(ref.name, Some(tables[OwnerOf(tables, cat, ref).value]));
      OwnerOfTwo(tables, cat, full);
      NameReadsOwner(tables, cat, env, full);
    }
  }

  // ------------------------------------------------------------------
  // One group's row
  // ------------------------------------------------------------------

  // An aggregate over merged rows is the aggregate over the tables' rows.
  lemma AggregateMerged(func: string, arg: Option<ColumnRef>, tables: seq<string>, cat: Catalog, members: seq<Env>)
    requires CatalogOk(cat) && TablesOk(tables) && AllOk(tables, cat, members) && (forall t :: t in tables ==> t in cat)
    requires ArgKey(arg, ScopeOf(tables, cat)).Ok?
    ensures ApplyAggregate(func, ArgOf(ArgKey(arg, ScopeOf(tables, cat)).value), MergeAll(tables, members))
            == ApplyAggregate(func, EnvArg(arg, tables, cat), members)
  {
    hide CatalogOk, Merge, ValueIn, Resolve, Present, Best, Total;
    if arg.Some? {
      var key := ArgKey(arg, ScopeOf(tables, cat)).value;
      var f, g := ArgOf(key).value, EnvArg(arg, tables, cat).value;
      forall env | env in members ensures f(Merge(tables, env)) == g(env) {
        KeyReadsOwner(tables, cat, env, arg.value);
      }
      PresentMerged(tables, members, f, g);
    }
  }

  lemma ItemRowOneMore(items: seq<(string, Expr)>, k: Value, tables: seq<string>, cat: Catalog, members: seq<Env>)
    requires items != []
    ensures var before := ItemRow(items[..|items| - 1], k, members, tables, cat);
      var (name, e) := items[|items| - 1];
      var v := ItemValue(e, k, members, tables, cat);
      ItemRow(items, k, members, tables, cat)
      == if before.Err? then before else if v.Err? then Err(v.error) else Ok(before.value[name := v.value])
  {
  }

  // Every aggregate item has a column to aggregate.
  predicate ArgsOk(items: seq<(string, Expr)>, scope: Scope) {
    forall i :: 0 <= i < |items| && IsAggregateItem(items[i].1) ==> ArgKey(items[i].1.arg, scope).Ok?
  }

  predicate SameError(a: Result<AggRow>, b: Result<AggRow>) {
    (a.Err? <==> b.Err?) && (a.Err? ==> a.error == b.error)
  }

  // Aggregates fail where items do, with the same error.
  lemma {:induction false} ComputedAgrees(items: seq<(string, Expr)>, k: Value, tables: seq<string>, cat: Catalog,
                                          members: seq<Env>)
    requires CatalogOk(cat) && TablesOk(tables) && AllOk(tables, cat, members) && (forall t :: t in tables ==> t in cat)
    requires ArgsOk(items, ScopeOf(tables, cat))
    ensures SameError(Computed(AggregatesOf(items, ScopeOf(tables, cat)), MergeAll(tables, members)),
                      ItemRow(items, k, members, tables, cat))
  {
    hide CatalogOk, TablesOk, AllOk, ArgKey, ApplyAggregate, EnvArg, MergeAll, ScopeOf;
    if items == [] {
    } else {
      var before := items[..|items| - 1];
      var (name, e) := items[|items| - 1];
      var scope := ScopeOf(tables, cat);
      ComputedAgrees(before, k, tables, cat, members);
      hide Computed, ItemRow;
      ItemRowOneMore(items, k, tables, cat, members);
      if IsAggregateItem(e) {
        AggregateMerged(e.name, e.arg, tables, cat, members);
        ComputedOneMore(AggregatesOf(before, scope), Aggregate(e.name, ArgKey(e.arg, scope).value, name),
            MergeAll(tables, members));
      } else {
        assert AggregatesOf(items, scope) == AggregatesOf(before, scope);
      }
    }
  }

  // A row with each item's value under its label, and nothing else.
  ghost predicate RowHolds(row: AggRow, items: seq<(string, Expr)>, k: Value, tables: seq<string>, cat: Catalog,
                           members: seq<Env>)
  {
    && (forall c :: c in row <==> c in LabelsOf(items))
    && forall i :: 0 <= i < |items| ==>
      items[i].0 in row && ItemValue(items[i].1, k, members, tables, cat) == Ok(row[items[i].0])
  }

  lemma EmptyRowHolds(k: Value, tables: seq<string>, cat: Catalog, members: seq<Env>)
    ensures RowHolds(map[], [], k, tables, cat, members)
  {
  }

  lemma {:induction false} ItemRowHolds(items: seq<(string, Expr)>, k: Value, tables: seq<string>, cat: Catalog,
                                        members: seq<Env>)
    requires DistinctLabels(items) && ItemRow(items, k, members, tables, cat).Ok?
    ensures RowHolds(ItemRow(items, k, members, tables, cat).value, items, k, tables, cat, members)
  {
    hide ItemValue, RowHolds;
    if items == [] {
      EmptyRowHolds(k, tables, cat, members);
    } else {
      var before := items[..|items| - 1];
      var (name, e) := items[|items| - 1];
      ItemRowHolds(before, k, tables, cat, members);
      ItemRowOneMore(items, k, tables, cat, members);
      var v := ItemValue(e, k, members, tables, cat).value;
      RowExtends(ItemRow(before, k, members, tables, cat).value, items, v, k, tables, cat, members);
    }
  }

  lemma RowExtends(row: AggRow, items: seq<(string, Expr)>, v: AggValue, k: Value, tables: seq<string>, cat: Catalog,
                   members: seq<Env>)
    requires items != [] && DistinctLabels(items)
    requires RowHolds(row, items[..|items| - 1], k, tables, cat, members)
    requires ItemValue(items[|items| - 1].1, k, members, tables, cat) == Ok(v)
    ensures RowHolds(row[items[|items| - 1].0 := v], items, k, tables, cat, members)
  {
    hide ItemValue;
    var before, last := items[..|items| - 1], items[|items| - 1];
    assert LabelsOf(items) == LabelsOf(before) + [last.0];
    forall i | 0 <= i < |before| ensures items[i] == before[i] && items[i].0 != last.0 {
    }
  }

  // An aggregate comes from an item.
  lemma {:induction false} AggregateItem(items: seq<(string, Expr)>, scope: Scope, i: nat)
    requires i < |items| && IsAggregateItem(items[i].1) && ArgKey(items[i].1.arg, scope).Ok?
    ensures Aggregate(items[i].1.name, ArgKey(items[i].1.arg, scope).value, items[i].0) in AggregatesOf(items, scope)
  {
    hide ArgKey;
    if i == |items| - 1 {
    } else {
      AggregateItem(items[..|items| - 1], scope, i);
    }
  }

  // The executor's row of a group is the meaning's.
  lemma GroupRowAgrees(stmt: Select, tables: seq<string>, cat: Catalog, k: Value, members: seq<Env>)
    requires CatalogOk(cat) && TablesOk(tables) && AllOk(tables, cat, members) && (forall t :: t in tables ==> t in cat)
    requires stmt.projections.Some? && GroupedSelect(stmt, ScopeOf(tables, cat)).Ok?
    requires OneColumnItem(ProjectionItems(stmt, ScopeOf(tables, cat)).value)
    ensures var scope := ScopeOf(tables, cat);
      var g := GroupedSelect(stmt, scope).value;
      GroupRow(k, MergeAll(tables, members), g.aggregates, g.output)
      == ItemRow(ProjectionItems(stmt, scope).value, k, members, tables, cat)
  {
    hide CatalogOk, TablesOk, AllOk, ResolveName, ItemOk, ArgKey, AggregatesOf, LabelsOf, GroupRow, ItemRow, MergeAll;
    var scope := ScopeOf(tables, cat);
    var items, g := ProjectionItems(stmt, scope).value, GroupedSelect(stmt, scope).value;
    var rows := MergeAll(tables, members);
    GroupedIsBound(stmt, scope);
    assert forall i :: 0 <= i < |items| ==> GroupedItem(items[i].1, stmt, scope);
    ComputedAgrees(items, k, tables, cat, members);
    GroupRowMeans(k, rows, g.aggregates, g.output);
    ComputedHolds(g.aggregates, rows);
    if ItemRow(items, k, members, tables, cat).Ok? {
      RowsEqual(stmt, tables, cat, k, members);
    } else {
      RowFails(k, rows, g.aggregates, g.output);
    }
  }

  lemma RowFails(k: Value, members: seq<Row>, aggs: seq<Aggregate>, output: seq<string>)
    requires Computed(aggs, members).Err?
    ensures GroupRow(k, members, aggs, output) == Err(Computed(aggs, members).error)
  {
  }

  lemma RowsEqual(stmt: Select, tables: seq<string>, cat: Catalog, k: Value, members: seq<Env>)
    requires CatalogOk(cat) && TablesOk(tables) && AllOk(tables, cat, members) && (forall t :: t in tables ==> t in cat)
    requires stmt.projections.Some? && GroupedSelect(stmt, ScopeOf(tables, cat)).Ok?
    requires OneColumnItem(ProjectionItems(stmt, ScopeOf(tables, cat)).value)
    requires ItemRow(ProjectionItems(stmt, ScopeOf(tables, cat)).value, k, members, tables, cat).Ok?
    requires Computed(GroupedSelect(stmt, ScopeOf(tables, cat)).value.aggregates, MergeAll(tables, members)).Ok?
    ensures var scope := ScopeOf(tables, cat);
      var g := GroupedSelect(stmt, scope).value;
      GroupRow(k, MergeAll(tables, members), g.aggregates, g.output)
      == ItemRow(ProjectionItems(stmt, scope).value, k, members, tables, cat)
  {
    hide CatalogOk, TablesOk, AllOk, ResolveName, ItemOk, ArgKey, AggregatesOf, GroupRow, ItemRow, MergeAll,
         ApplyAggregate;
    var scope := ScopeOf(tables, cat);
    var items, g := ProjectionItems(stmt, scope).value, GroupedSelect(stmt, scope).value;
    var rows := MergeAll(tables, members);
    GroupedIsBound(stmt, scope);
    ComputedHolds(g.aggregates, rows);
    GroupRowMeans(k, rows, g.aggregates, g.output);
    ItemRowHolds(items, k, tables, cat, members);
    var a, b := GroupRow(k, rows, g.aggregates, g.output).value, ItemRow(items, k, members, tables, cat).value;
    forall i | 0 <= i < |items| ensures a[items[i].0] == b[items[i].0] {
      assert GroupedItem(items[i].1, stmt, scope);
      OneLabelEqual(items, i, k, tables, cat, members, g, a);
    }
    SameLabels(items, a, b);
  }

  lemma SameLabels(items: seq<(string, Expr)>, a: AggRow, b: AggRow)
    requires forall c :: c in a <==> c in LabelsOf(items)
    requires forall c :: c in b <==> c in LabelsOf(items)
    requires forall i :: 0 <= i < |items| ==> items[i].0 in a && items[i].0 in b && a[items[i].0] == b[items[i].0]
    ensures a == b
  {
    forall c | c in a ensures c in b && a[c] == b[c] {
      var i :| 0 <= i < |items| && LabelsOf(items)[i] == c;
      assert a[items[i].0] == b[items[i].0];
    }
    assert a.Keys == b.Keys;
  }

  lemma ColumnIsNoLabel(items: seq<(string, Expr)>, scope: Scope, i: nat)
    requires i < |items| && DistinctLabels(items) && items[i].1.Column?
    ensures !IsLabel(AggregatesOf(items, scope), items[i].0)
  {
    hide IsLabel, AggregatesOf;
    AggregateLabels(items, scope, items[i].0);
    forall j | 0 <= j < |items| && items[j].0 == items[i].0 ensures AggregateOf(items[j], scope) == [] {
      assert j == i;
    }
  }

  // An output row has each item's value under its label.
  lemma OneLabelEqual(items: seq<(string, Expr)>, i: nat, k: Value, tables: seq<string>, cat: Catalog,
                      members: seq<Env>,
                      g: Grouped, row: AggRow)
    requires CatalogOk(cat) && TablesOk(tables) && AllOk(tables, cat, members) && (forall t :: t in tables ==> t in cat)
    requires i < |items| && DistinctLabels(items)
    requires g == Grouped(AggregatesOf(items, ScopeOf(tables, cat)), LabelsOf(items))
    requires if IsAggregateItem(items[i].1) then ArgKey(items[i].1.arg, ScopeOf(tables, cat)).Ok?
             else items[i].1.Column?
    requires OutputRow(row, k, MergeAll(tables, members), g.aggregates, g.output)
    ensures items[i].0 in row && ItemValue(items[i].1, k, members, tables, cat) == Ok(row[items[i].0])
  {
    hide CatalogOk, TablesOk, AllOk, ArgKey, AggregatesOf, MergeAll, ApplyAggregate, IsLabel, ScopeOf;
    var scope := ScopeOf(tables, cat);
    var (name, e) := items[i];
    assert g.output[i] == name;
    if IsAggregateItem(e) {
      AggregateItem(items, scope, i);
      AggregateMerged(e.name, e.arg, tables, cat, members);
      var j: nat :| j < |g.aggregates| && g.aggregates[j] == Aggregate(e.name, ArgKey(e.arg, scope).value, name);
      assert AggregateAt(g.aggregates, j, MergeAll(tables, members)) == Ok(row[name]);
    } else {
      ColumnIsNoLabel(items, scope, i);
    }
  }

  // ------------------------------------------------------------------
  // The plan means the statement
  // ------------------------------------------------------------------

  lemma {:induction false} MapAgrees<T, U>(s: Stream<T>, f: T -> Result<U>, g: T -> Result<U>)
    requires forall i :: 0 <= i < |s.rows| ==> f(s.rows[i]) == g(s.rows[i])
    ensures MapStream(s, f) == MapStream(s, g)
    decreases |s.rows|
  {
    if s.rows == [] {
    } else {
      MapAgrees(Tail(s), f, g);
    }
  }

  // The group column's bare name reads its owner's value.
  lemma GroupKeyAgrees(groupBy: Option<string>, tables: seq<string>, cat: Catalog, envs: seq<Env>)
    requires CatalogOk(cat) && TablesOk(tables) && AllOk(tables, cat, envs) && (forall t :: t in tables ==> t in cat)
    requires groupBy.Some? ==> ResolveName(ScopeOf(tables, cat), groupBy.value).Ok?
    ensures forall env :: env in envs ==> ByColumn(groupBy)(Merge(tables, env)) == EnvGroup(groupBy, tables, cat)(env)
  {
    hide CatalogOk, Merge, ResolveName;
    if groupBy.Some? {
      forall env | env in envs
        ensures Field(Merge(tables, env), groupBy.value) == ValueIn(tables, cat, env, ColumnRef(groupBy.value, None))
      {
        NameReadsOwner(tables, cat, env, ColumnRef(groupBy.value, None));
      }
    }
  }

  // What the aggregate operator yields for merged rows.
  lemma GroupsMeaning(stmt: Select, cat: Catalog, s: Stream<Env>)
    requires CatalogOk(cat) && TablesOk(Tables(stmt)) && AllOk(Tables(stmt), cat, s.rows)
    requires (forall t :: t in Tables(stmt) ==> t in cat)
    requires stmt.projections.Some? && GroupedSelect(stmt, ScopeOf(Tables(stmt), cat)).Ok?
    requires OneColumnItem(ProjectionItems(stmt, ScopeOf(Tables(stmt), cat)).value)
    ensures var scope := ScopeOf(Tables(stmt), cat);
      var g := GroupedSelect(stmt, scope).value;
      G.AggregateStream(Merged(Tables(stmt), s), stmt.groupBy, g.aggregates, g.output)
      == GroupedEnvs(stmt, cat, s, ProjectionItems(stmt, scope).value)
  {
    hide CatalogOk, TablesOk, ResolveName, GroupRow, ItemRow, Groups, Members, MapStream, AggregatesOf, AllGroupedItems;
    var ts := Tables(stmt);
    var items, g := ProjectionItems(stmt, ScopeOf(ts, cat)).value, GroupedSelect(stmt, ScopeOf(ts, cat)).value;
    if s.error.None? {
      var rows := MergeAll(ts, s.rows);
      var f, h := G.RowOfGroup(rows, stmt.groupBy, g.aggregates, g.output), EnvGroupRow(stmt, cat, s.rows, items);
      var key, envKey := ByColumn(stmt.groupBy), EnvGroup(stmt.groupBy, ts, cat);
      GroupKeyAgrees(stmt.groupBy, ts, cat, s.rows);
      GroupsMerged(ts, s.rows, key, envKey);
      forall k ensures f(k) == h(k) {
        MembersMerged(ts, s.rows, key, envKey, k);
        forall env | env in Members(s.rows, envKey, k) ensures EnvOk(ts, cat, env) {
          GroupsPartition(s.rows, envKey, env, k);
        }
        GroupRowAgrees(stmt, ts, cat, k, Members(s.rows, envKey, k));
      }
      MapAgrees(Stream(OutputGroups(rows, key, stmt.groupBy.Some?), None), f, h);
    }
  }

  // SELECT * names no aggregate, so a grouped SELECT that binds lists its items.
  lemma {:induction false} StarHasNoAggregates(scope: Scope, ts: seq<string>)
    ensures forall i :: 0 <= i < |AllColumns(scope, ts)| ==> AllColumns(scope, ts)[i].1.Column?
  {
    if ts == [] {
    } else {
      StarHasNoAggregates(scope, ts[1..]);
    }
  }

  lemma {:induction false} NoAggregates(items: seq<(string, Expr)>, scope: Scope)
    requires forall i :: 0 <= i < |items| ==> items[i].1.Column?
    ensures AggregatesOf(items, scope) == []
  {
    if items == [] {
    } else {
      NoAggregates(items[..|items| - 1], scope);
    }
  }

  lemma ListsItems(stmt: Select, scope: Scope)
    requires GroupedSelect(stmt, scope).Ok?
    ensures stmt.projections.Some?
  {
    if stmt.projections.None? {
      StarHasNoAggregates(scope, scope.tables);
      NoAggregates(ProjectionItems(stmt, scope).value, scope);
    }
  }

  // The main result for grouped statements: what the bound plan yields, rows and
  // errors alike, is the limit of the stable sort of one row for each group of the
  // filter of the source.
  lemma GroupedPlanMeansSelect(stmt: Select, cat: Catalog, db: Database)
    requires CatalogOk(cat) && DatabaseOk(db, cat) && !IsPlain(stmt) && SourceIntended(stmt)
    requires GroupedPlan(stmt, cat).Ok? && G.SortsValues(GroupedPlan(stmt, cat).value)
    requires OneColumnItem(ProjectionItems(stmt, BuildScope(stmt, cat).value.1).value)
    ensures forall t :: t in Tables(stmt) ==> t in cat && t in db
    ensures G.GroupRows(GroupedPlan(stmt, cat).value, db)
            == GroupedMeaning(stmt, cat, db, ProjectionItems(stmt, BuildScope(stmt, cat).value.1).value)
  {
    hide CatalogOk, DatabaseOk, AllOk, ExprOk, Bare, BuildScope, ProjectionItems, Qualifying, Filtered, GroupedEnvs,
         G.AggregateStream, SortStream, Take, AggregatesOf;
    var scope := BuildScope(stmt, cat).value.1;
    FilteredMeaning(stmt, cat, db);
    ListsItems(stmt, scope);
    GroupsMeaning(stmt, cat, Qualifying(stmt, cat, db));
    var g := GroupedSelect(stmt, scope).value;
    var node := G.GroupBy(stmt.groupBy, g.aggregates, g.output, Filtered(stmt, BuildScope(stmt, cat).value.0));
    var grouped := GroupedEnvs(stmt, cat, Qualifying(stmt, cat, db), ProjectionItems(stmt, scope).value);
    assert G.GroupRows(node, db) == grouped;
    var sorted := SortedGroups(stmt, node);
    assert G.GroupRows(sorted, db) == if stmt.orderBy.None? then grouped
      else SortStream(grouped, G.LabelValue(stmt.orderBy.value.column), stmt.orderBy.value.descending);
    assert GroupedPlan(stmt, cat).value == LimitedGroups(stmt, sorted);
  }
}
