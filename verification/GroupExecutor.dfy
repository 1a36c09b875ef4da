// Running grouped SELECTs: the aggregate operator over a row pipeline, and the sort
// and limit above it.
module GroupExecutor {
  import opened Wrappers
  import opened SqlAst
  import opened Evaluate
  import opened Executor
  import opened Grouping

  // A grouped plan's rows hold aggregates; below the aggregate are plain rows.
  datatype GroupPlan =
    | GroupBy(groupBy: Option<string>, aggregates: seq<Aggregate>, output: seq<string>, child: Plan)
    | SortGroups(column: string, descending: bool, groups: GroupPlan)
    | LimitGroups(count: nat, groups: GroupPlan)

  function RowOfGroup(rows: seq<Row>, groupBy: Option<string>, aggs: seq<Aggregate>, output: seq<string>)
    : Value -> Result<AggRow>
  {
    (k: Value) => GroupRow(k, Members(rows, ByColumn(groupBy), k), aggs, output)
  }

  // Grouping needs all rows first; output rows are then computed one at a time.
  function AggregateStream(s: Stream<Row>, groupBy: Option<string>, aggs: seq<Aggregate>, output: seq<string>)
    : Stream<AggRow>
  {
    if s.error.Some? then Stream([], s.error)
    else
      var ks := OutputGroups(s.rows, ByColumn(groupBy), groupBy.Some?);
      MapStream(Stream(ks, None), RowOfGroup(s.rows, groupBy, aggs, output))
  }

  // The value of a label that is no AVG's.
  function LabelValue(col: string): AggRow -> Value {
    (row: AggRow) => if col in row && row[col].Plain? then row[col].v else NullValue
  }

  // Whether a label is an AVG's, whose quotient is a floating-point number.
  predicate IsAverage(plan: GroupPlan, col: string) {
    match plan
    case GroupBy(_, aggs, _, _) => exists i :: 0 <= i < |aggs| && aggs[i].func == "AVG" && aggs[i].name == col
    case SortGroups(_, _, groups) => IsAverage(groups, col)
    case LimitGroups(_, groups) => IsAverage(groups, col)
  }

  // It sorts by column values.
  predicate SortsValues(plan: GroupPlan) {
    match plan
    case GroupBy(_, _, _, _) => true
    case SortGroups(col, _, groups) => !IsAverage(groups, col) && SortsValues(groups)
    case LimitGroups(_, groups) => SortsValues(groups)
  }

  function GroupRows(plan: GroupPlan, db: Database): Stream<AggRow> {
    match plan
    case GroupBy(groupBy, aggs, output, child) => AggregateStream(Rows(child, db), groupBy, aggs, output)
    case SortGroups(col, descending, groups) => SortStream(GroupRows(groups, db), LabelValue(col), descending)
    case LimitGroups(n, groups) => Take(GroupRows(groups, db), n)
  }

  method RunAggregate(s: Stream<Row>, groupBy: Option<string>, aggs: seq<Aggregate>, output: seq<string>)
      returns (r: Stream<AggRow>)
    ensures r == AggregateStream(s, groupBy, aggs, output)
  {
    hide GroupRow, Members, Groups, MapStream;
    if s.error.Some? {
      return Stream([], s.error);
    }
    var groups, order := BuildGroups(s.rows, groupBy);
    NoGroups(s.rows, ByColumn(groupBy));
    if groupBy.None? && order == [] {
      order := [NullValue];
      groups := groups[NullValue := []];
    }
    ghost var f := RowOfGroup(s.rows, groupBy, aggs, output);
    var groupLabel := GroupLabel(aggs, output);
    var out: seq<AggRow> := [];
    var left := order;
    while left != []
      invariant forall k :: k in left ==> k in groups && groups[k] == Members(s.rows, ByColumn(groupBy), k)
      invariant MapStream(Stream(order, None), f) == Yielded(out, MapStream(Stream(left, None), f))
      decreases |left|
    {
      YieldStep(MapStream(Stream(order, None), f), out, left, None, f);
      var row := ComputeRow(left[0], groups[left[0]], aggs, groupLabel, output);
      if row.Err? {
        return Stream(out, Some(row.error));
      }
      out := out + [row.value];
      left := left[1..];
    }
    AllMapped(out, None, f);
    return Stream(out, None);
  }

  lemma NoGroups(rows: seq<Row>, key: Row -> Value)
    ensures Groups(rows, key) == [] <==> rows == []
    ensures Members([], key, NullValue) == []
  {
    if rows != [] {
      GroupsPartition(rows, key, rows[0], key(rows[0]));
    }
  }

  method RunGroups(plan: GroupPlan, db: Database) returns (s: Stream<AggRow>)
    requires SortsValues(plan)
    ensures s == GroupRows(plan, db)
  {
    match plan {
      case GroupBy(groupBy, aggs, output, child) =>
        var rows := Run(child, db);
        s := RunAggregate(rows, groupBy, aggs, output);
      case SortGroups(col, descending, groups) =>
        var rows := RunGroups(groups, db);
        s := SortStream(rows, LabelValue(col), descending);
      case LimitGroups(n, groups) =>
        var rows := RunGroups(groups, db);
        s := RunLimit(rows, n);
    }
  }
}
