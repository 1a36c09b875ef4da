// Grouping and aggregation: the loop-built groups are a partition of the rows.
//
// Groups and aggregates are defined over rows of any type, given what key and what
// column values a row has.
module Grouping {
  import opened Wrappers
  import opened Evaluate
  import opened TextOrder
  import Bytes
  import Utf8

  // ------------------------------------------------------------------
  // Groups
  // ------------------------------------------------------------------

  // The rows of group k, in their order.
  function Members<T>(rows: seq<T>, key: T -> Value, k: Value): seq<T> {
    if rows == [] then []
    else
      var row := rows[|rows| - 1];
      Members(rows[..|rows| - 1], key, k) + if key(row) == k then [row] else []
  }

  // The groups in the order their first rows appear.
  function Groups<T>(rows: seq<T>, key: T -> Value): seq<Value> {
    if rows == [] then []
    else
      var before, k := Groups(rows[..|rows| - 1], key), key(rows[|rows| - 1]);
      if k in before then before else before + [k]
  }

  // A row's group: the value of the GROUP BY column, or one group for all.
  function ByColumn(groupBy: Option<string>): Row -> Value {
    (row: Row) => if groupBy.Some? then Field(row, groupBy.value) else NullValue
  }

  // One pass over the rows: a dictionary of groups and their order.
  method BuildGroups(rows: seq<Row>, groupBy: Option<string>) returns (groups: map<Value, seq<Row>>, order: seq<Value>)
    ensures order == Groups(rows, ByColumn(groupBy))
    ensures forall k :: k in groups <==> k in order
    ensures forall k :: k in groups ==> groups[k] == Members(rows, ByColumn(groupBy), k)
  {
    groups, order := map[], [];
    ghost var groupKey := ByColumn(groupBy);
    for i := 0 to |rows|
      invariant order == Groups(rows[..i], groupKey)
      invariant forall k :: k in groups <==> k in order
      invariant forall k :: k in groups ==> groups[k] == Members(rows[..i], groupKey, k)
    {
      var row := rows[i];
      var key := if groupBy.Some? then Field(row, groupBy.value) else NullValue;
      assert rows[..i + 1][..i] == rows[..i];
      if key !in groups {
        NoMembers(rows[..i], groupKey, key);
        groups := groups[key := []];
        order := order + [key];
      }
      groups := groups[key := groups[key] + [row]];
    }
    assert rows[..|rows|] == rows;
  }

  // A group no row has opened has no members.
  lemma {:induction false} NoMembers<T>(rows: seq<T>, key: T -> Value, k: Value)
    requires k !in Groups(rows, key)
    ensures Members(rows, key, k) == []
  {
    if rows == [] {
    } else {
      NoMembers(rows[..|rows| - 1], key, k);
    }
  }

  // ------------------------------------------------------------------
  // The groups partition the rows
  // ------------------------------------------------------------------

  // The sum over some rows of a number each row has.
  function Sum<T>(rows: seq<T>, f: T -> int): int {
    if rows == [] then 0 else Sum(rows[..|rows| - 1], f) + f(rows[|rows| - 1])
  }

  // The sum over groups ks of their members' sums.
  function SumOfSums<T>(rows: seq<T>, key: T -> Value, ks: seq<Value>, f: T -> int): int {
    if ks == [] then 0
    else SumOfSums(rows, key, ks[..|ks| - 1], f) + Sum(Members(rows, key, ks[|ks| - 1]), f)
  }

  predicate Distinct(ks: seq<Value>) {
    forall i, j :: 0 <= i < j < |ks| ==> ks[i] != ks[j]
  }

  lemma {:induction false} GroupsDistinct<T>(rows: seq<T>, key: T -> Value)
    ensures Distinct(Groups(rows, key))
  {
    if rows == [] {
    } else {
      GroupsDistinct(rows[..|rows| - 1], key);
    }
  }

  // Every row is in the group of its key and no other, every group has a row, and
  // no group is listed twice.
  lemma {:induction false} GroupsPartition<T>(rows: seq<T>, key: T -> Value, row: T, k: Value)
    ensures Distinct(Groups(rows, key))
    ensures row in Members(rows, key, k) <==> row in rows && key(row) == k
    ensures k in Groups(rows, key) <==> exists x :: x in rows && key(x) == k
  {
    GroupsDistinct(rows, key);
    if rows == [] {
    } else {
      var before, last := rows[..|rows| - 1], rows[|rows| - 1];
      GroupsPartition(before, key, row, k);
      assert forall x :: x in rows <==> x in before || x == last;
    }
  }

  // Adding a row adds its number to its own group's sum.
  lemma {:induction false} OneMoreSum<T>(rows: seq<T>, key: T -> Value, ks: seq<Value>, f: T -> int)
    requires rows != [] && Distinct(ks)
    ensures var before, row := rows[..|rows| - 1], rows[|rows| - 1];
      SumOfSums(rows, key, ks, f) == SumOfSums(before, key, ks, f) + if key(row) in ks then f(row) else 0
    decreases ks
  {
    if ks == [] {
    } else {
      var before, row, k := rows[..|rows| - 1], rows[|rows| - 1], ks[|ks| - 1];
      OneMoreSum(rows, key, ks[..|ks| - 1], f);
      var m := Members(before, key, k);
      assert (m + [row])[..|m|] == m;
      assert m + [] == m;
      assert key(row) in ks <==> key(row) in ks[..|ks| - 1] || key(row) == k;
    }
  }

  lemma OneMoreGroup<T>(rows: seq<T>, key: T -> Value, ks: seq<Value>, k: Value, f: T -> int)
    requires Members(rows, key, k) == []
    ensures SumOfSums(rows, key, ks + [k], f) == SumOfSums(rows, key, ks, f)
  {
    assert (ks + [k])[..|ks|] == ks;
    assert Sum<T>([], f) == 0;
  }

  // Whatever is summed, the groups' sums add up to the sum over all rows.
  lemma {:induction false} GroupSumsAddUp<T>(rows: seq<T>, key: T -> Value, f: T -> int)
    ensures SumOfSums(rows, key, Groups(rows, key), f) == Sum(rows, f)
  {
    hide SumOfSums, Members, Distinct;
    if rows == [] {
      NothingToSum(key, f);
    } else {
      var before, k := rows[..|rows| - 1], key(rows[|rows| - 1]);
      var ks := Groups(before, key);
      GroupSumsAddUp(before, key, f);
      GroupsDistinct(rows, key);
      OneMoreSum(rows, key, Groups(rows, key), f);
      if k !in ks {
        NoMembers(before, key, k);
        OneMoreGroup(before, key, ks, k, f);
      }
    }
  }

  lemma NothingToSum<T>(key: T -> Value, f: T -> int)
    ensures SumOfSums([], key, Groups([], key), f) == 0
  {
  }

  // A group keeps its rows in the order they came.
  lemma {:induction false} MembersInOrder<T>(a: seq<T>, b: seq<T>, key: T -> Value, k: Value)
    ensures Members(a + b, key, k) == Members(a, key, k) + Members(b, key, k)
    decreases b
  {
    if b == [] {
      assert a + b == a;
    } else {
      assert (a + b)[..|a + b| - 1] == a + b[..|b| - 1];
      MembersInOrder(a, b[..|b| - 1], key, k);
    }
  }

  // The first row of a group.
  function FirstRow<T>(rows: seq<T>, key: T -> Value, k: Value): (i: nat)
    requires k in Groups(rows, key)
    ensures i < |rows| && key(rows[i]) == k && forall j :: 0 <= j < i ==> key(rows[j]) != k
  {
    var before := rows[..|rows| - 1];
    if k in Groups(before, key) then FirstRow(before, key, k)
    else
      NotBefore(before, key, k);
      |rows| - 1
  }

  lemma {:induction false} NotBefore<T>(rows: seq<T>, key: T -> Value, k: Value)
    requires k !in Groups(rows, key)
    ensures forall j :: 0 <= j < |rows| ==> key(rows[j]) != k
  {
    if rows == [] {
    } else {
      NotBefore(rows[..|rows| - 1], key, k);
    }
  }

  // Groups come in the order of their first rows.
  lemma {:induction false} GroupsInOrder<T>(rows: seq<T>, key: T -> Value, i: nat, j: nat)
    requires i < j < |Groups(rows, key)|
    ensures FirstRow(rows, key, Groups(rows, key)[i]) < FirstRow(rows, key, Groups(rows, key)[j])
  {
    var before := Groups(rows[..|rows| - 1], key);
    GroupsDistinct(rows, key);
    if j < |before| {
      GroupsInOrder(rows[..|rows| - 1], key, i, j);
    }
  }

  // ------------------------------------------------------------------
  // Aggregates
  // ------------------------------------------------------------------

  // An aggregate to compute: function, column (None for COUNT(*)), output groupLabel.
  datatype Aggregate = Aggregate(func: string, arg: Option<string>, name: string)

  // AVG stays a sum and a count; the other functions give a column value.
  datatype AggValue = Plain(v: Value) | Average(sum: int, count: nat)

  // A row's value in a column its table has.
  function Field(row: Row, col: string): Value {
    if col in row then row[col] else NullValue
  }

  // The argument of an aggregate, as a function of rows.
  function ArgOf(arg: Option<string>): Option<Row -> Value> {
    match arg
    case None => None
    case Some(col) => Some((row: Row) => Field(row, col))
  }

  // The column's values that are not null.
  function Present<T>(rows: seq<T>, field: T -> Value): seq<Value> {
    if rows == [] then []
    else
      var v := field(rows[|rows| - 1]);
      Present(rows[..|rows| - 1], field) + if v.NullValue? then [] else [v]
  }

  function Total(values: seq<Value>): int
    requires forall v :: v in values ==> v.IntValue?
  {
    if values == [] then 0 else Total(values[..|values| - 1]) + values[|values| - 1].i
  }

  // Order of two values of one type: negative, zero or positive.
  function Compare(v: Value, w: Value): int {
    if v.IntValue? && w.IntValue? then v.i - w.i
    else if v.TextValue? && w.TextValue? then CompareText(v.s, w.s)
    else 0
  }

  // Whether v comes before w when looking for a minimum or a maximum.
  predicate Better(v: Value, w: Value, max: bool) {
    if max then Compare(v, w) > 0 else Compare(v, w) < 0
  }

  // Python's min or max.
  function Best(values: seq<Value>, max: bool): (b: Value)
    requires values != []
    ensures b in values
  {
    var last := values[|values| - 1];
    if |values| == 1 then last
    else
      var b := Best(values[..|values| - 1], max);
      if Better(last, b, max) then last else b
  }

  function ApplyAggregate<T>(func: string, arg: Option<T -> Value>, rows: seq<T>): Result<AggValue> {
    if func == "COUNT" then Ok(Plain(IntValue(if arg.None? then |rows| else |Present(rows, arg.value)|)))
    else if arg.None? then Err(LogicalError)
    else
      var values := Present(rows, arg.value);
      if values == [] then Ok(Plain(NullValue))
      else if func in {"SUM", "AVG"} && exists v :: v in values && !v.IntValue? then Err(LogicalError)
      else if func == "SUM" then Ok(Plain(IntValue(Total(values))))
      else if func == "MIN" then Ok(Plain(Best(values, false)))
      else if func == "MAX" then Ok(Plain(Best(values, true)))
      else if func == "AVG" then Ok(Average(Total(values), |values|))
      else Err(LogicalError)
  }

  // ------------------------------------------------------------------
  // The output rows
  // ------------------------------------------------------------------

  type AggRow = map<string, AggValue>

  predicate IsLabel(aggs: seq<Aggregate>, c: string) {
    exists i :: 0 <= i < |aggs| && aggs[i].name == c
  }

  predicate DistinctNames(aggs: seq<Aggregate>) {
    forall i, j :: 0 <= i < j < |aggs| ==> aggs[i].name != aggs[j].name
  }

  function AggregateAt(aggs: seq<Aggregate>, i: nat, members: seq<Row>): Result<AggValue>
    requires i < |aggs|
  {
    ApplyAggregate(aggs[i].func, ArgOf(aggs[i].arg), members)
  }

  // The aggregates of one group under their labels, or the first error.
  function Computed(aggs: seq<Aggregate>, members: seq<Row>): Result<AggRow> {
    if aggs == [] then Ok(map[])
    else
      var last := aggs[|aggs| - 1];
      match Computed(aggs[..|aggs| - 1], members)
      case Err(e) => Err(e)
      case Ok(computed) =>
        match ApplyAggregate(last.func, ArgOf(last.arg), members)
        case Err(e) => Err(e)
        case Ok(v) => Ok(computed[last.name := v])
  }

  lemma ComputedOneMore(aggs: seq<Aggregate>, last: Aggregate, members: seq<Row>)
    ensures var before, v := Computed(aggs, members), ApplyAggregate(last.func, ArgOf(last.arg), members);
      Computed(aggs + [last], members)
      == if before.Err? then before else if v.Err? then Err(v.error) else Ok(before.value[last.name := v.value])
  {
    assert (aggs + [last])[..|aggs|] == aggs;
  }

  // The group column's label: the first one that is no aggregate's.
  function GroupLabel(aggs: seq<Aggregate>, output: seq<string>): Option<string> {
    if output == [] then None
    else if !IsLabel(aggs, output[0]) then Some(output[0])
    else GroupLabel(aggs, output[1..])
  }

  // Each output label with the key or its aggregate; another label is an error.
  function Emitted(key: Value, groupLabel: Option<string>, computed: AggRow, output: seq<string>): Result<AggRow> {
    if output == [] then Ok(map[])
    else
      var c := output[|output| - 1];
      match Emitted(key, groupLabel, computed, output[..|output| - 1])
      case Err(e) => Err(e)
      case Ok(out) =>
        if groupLabel == Some(c) then Ok(out[c := Plain(key)])
        else if c in computed then Ok(out[c := computed[c]])
        else Err(KeyNotFound)
  }

  // One output row.
  function GroupRow(key: Value, members: seq<Row>, aggs: seq<Aggregate>, output: seq<string>): Result<AggRow> {
    match Computed(aggs, members)
    case Err(e) => Err(e)
    case Ok(computed) => Emitted(key, GroupLabel(aggs, output), computed, output)
  }

  method ComputeRow(key: Value, members: seq<Row>, aggs: seq<Aggregate>, groupLabel: Option<string>,
                    output: seq<string>)
      returns (r: Result<AggRow>)
    requires groupLabel == GroupLabel(aggs, output)
    ensures r == GroupRow(key, members, aggs, output)
  {
    var computed: AggRow := map[];
    for i := 0 to |aggs|
      invariant Computed(aggs[..i], members) == Ok(computed)
    {
      assert aggs[..i + 1][..i] == aggs[..i];
      var v := ApplyAggregate(aggs[i].func, ArgOf(aggs[i].arg), members);
      if v.Err? {
        ComputedStops(aggs, i + 1, members);
        return Err(v.error);
      }
      computed := computed[aggs[i].name := v.value];
    }
    assert aggs[..|aggs|] == aggs;
    var out: AggRow := map[];
    for j := 0 to |output|
      invariant Emitted(key, groupLabel, computed, output[..j]) == Ok(out)
    {
      var c := output[j];
      assert output[..j + 1][..j] == output[..j];
      if groupLabel == Some(c) {
        out := out[c := Plain(key)];
      } else if c in computed {
        out := out[c := computed[c]];
      } else {
        EmittedStops(key, groupLabel, computed, output, j + 1);
        return Err(KeyNotFound);
      }
    }
    assert output[..|output|] == output;
    return Ok(out);
  }

  // An error in a prefix is the error of the whole.
  lemma {:induction false} ComputedStops(aggs: seq<Aggregate>, i: nat, members: seq<Row>)
    requires i <= |aggs| && Computed(aggs[..i], members).Err?
    ensures Computed(aggs, members) == Computed(aggs[..i], members)
    decreases |aggs| - i
  {
    if i == |aggs| {
      assert aggs[..i] == aggs;
    } else {
      assert aggs[..i + 1][..i] == aggs[..i];
      ComputedStops(aggs, i + 1, members);
    }
  }

  lemma {:induction false} EmittedStops(key: Value, groupLabel: Option<string>, computed: AggRow, output: seq<string>,
                                        j: nat)
    requires j <= |output| && Emitted(key, groupLabel, computed, output[..j]).Err?
    ensures Emitted(key, groupLabel, computed, output) == Emitted(key, groupLabel, computed, output[..j])
    decreases |output| - j
  {
    if j == |output| {
      assert output[..j] == output;
    } else {
      assert output[..j + 1][..j] == output[..j];
      EmittedStops(key, groupLabel, computed, output, j + 1);
    }
  }

  // What an output row holds: the aggregates under their labels and the key under
  // every other one.
  ghost predicate OutputRow(out: AggRow, key: Value, members: seq<Row>, aggs: seq<Aggregate>, output: seq<string>) {
    && (forall c :: c in out <==> c in output)
    && (forall i :: 0 <= i < |aggs| && aggs[i].name in output ==>
      AggregateAt(aggs, i, members) == Ok(out[aggs[i].name]))
    && (forall c :: c in output && !IsLabel(aggs, c) ==> out[c] == Plain(key))
  }

  // At most one output label is no aggregate's.
  ghost predicate OneGroupLabel(aggs: seq<Aggregate>, output: seq<string>) {
    forall c, d :: c in output && d in output && !IsLabel(aggs, c) && !IsLabel(aggs, d) ==> c == d
  }

  // What the aggregates of a group give: all their values, or the first failure.
  ghost predicate ComputedRight(r: Result<AggRow>, aggs: seq<Aggregate>, members: seq<Row>) {
    match r
    case Ok(computed) =>
      && (forall c :: c in computed <==> IsLabel(aggs, c))
      && forall i :: 0 <= i < |aggs| ==>
           IsLabel(aggs, aggs[i].name) && AggregateAt(aggs, i, members) == Ok(computed[aggs[i].name])
    case Err(e) => exists i :: FirstFailure(aggs, i, members) && AggregateAt(aggs, i, members) == Err(e)
  }

  lemma NothingComputed(members: seq<Row>)
    ensures ComputedRight(Ok(map[]), [], members)
  {
  }

  lemma {:induction false} ComputedHolds(aggs: seq<Aggregate>, members: seq<Row>)
    requires DistinctNames(aggs)
    ensures ComputedRight(Computed(aggs, members), aggs, members)
  {
    hide ApplyAggregate, ComputedRight;
    if aggs == [] {
      NothingComputed(members);
    } else {
      var before, last := aggs[..|aggs| - 1], aggs[|aggs| - 1];
      ComputedHolds(before, members);
      assert aggs == before + [last];
      var r := ApplyAggregate(last.func, ArgOf(last.arg), members);
      if Computed(before, members).Err? {
        FailureStays(Computed(before, members).error, before, last, members);
      } else if r.Err? {
        LastFails(Computed(before, members).value, before, last, members, r.error);
      } else {
        OneMoreComputed(Computed(before, members).value, before, last, members, r.value);
      }
    }
  }

  lemma FailureStays(e: Error, aggs: seq<Aggregate>, last: Aggregate, members: seq<Row>)
    requires ComputedRight(Err(e), aggs, members)
    ensures ComputedRight(Err(e), aggs + [last], members)
  {
    hide ApplyAggregate;
    var i: nat :| FirstFailure(aggs, i, members) && AggregateAt(aggs, i, members) == Err(e);
    forall j | 0 <= j <= i ensures AggregateAt(aggs + [last], j, members) == AggregateAt(aggs, j, members) {
      assert (aggs + [last])[j] == aggs[j];
    }
    assert FirstFailure(aggs + [last], i, members);
  }

  lemma LastFails(computed: AggRow, aggs: seq<Aggregate>, last: Aggregate, members: seq<Row>, e: Error)
    requires ComputedRight(Ok(computed), aggs, members) && ApplyAggregate(last.func, ArgOf(last.arg), members) == Err(e)
    ensures ComputedRight(Err(e), aggs + [last], members)
  {
    hide ApplyAggregate, IsLabel;
    forall i | 0 <= i < |aggs| ensures AggregateAt(aggs + [last], i, members).Ok? {
      assert AggregateAt(aggs, i, members).Ok?;
    }
    assert FirstFailure(aggs + [last], |aggs|, members);
  }

  lemma OneMoreComputed(computed: AggRow, aggs: seq<Aggregate>, last: Aggregate, members: seq<Row>, v: AggValue)
    requires ComputedRight(Ok(computed), aggs, members) && ApplyAggregate(last.func, ArgOf(last.arg), members) == Ok(v)
    requires DistinctNames(aggs + [last])
    ensures ComputedRight(Ok(computed[last.name := v]), aggs + [last], members)
  {
    hide ApplyAggregate, IsLabel;
    var all := aggs + [last];
    forall c ensures IsLabel(all, c) <==> IsLabel(aggs, c) || c == last.name {
      OneMoreLabel(aggs, last, c);
    }
    forall i | 0 <= i < |all|
      ensures IsLabel(all, all[i].name) && AggregateAt(all, i, members) == Ok(computed[last.name := v][all[i].name])
    {
      if i < |aggs| {
        assert AggregateAt(aggs, i, members) == Ok(computed[aggs[i].name]);
        assert all[i].name != all[|aggs|].name;
      }
    }
  }

  lemma OneMoreLabel(aggs: seq<Aggregate>, last: Aggregate, c: string)
    ensures IsLabel(aggs + [last], c) <==> IsLabel(aggs, c) || c == last.name
  {
    var all := aggs + [last];
    assert all[|aggs|] == last;
    if IsLabel(aggs, c) {
      var i :| 0 <= i < |aggs| && aggs[i].name == c;
      assert all[i].name == c;
    }
  }

  // Aggregate i fails and none before it does.
  ghost predicate FirstFailure(aggs: seq<Aggregate>, i: nat, members: seq<Row>) {
    && i < |aggs| && AggregateAt(aggs, i, members).Err?
    && forall j :: 0 <= j < i ==> AggregateAt(aggs, j, members).Ok?
  }

  lemma {:induction false} EmittedHolds(key: Value, groupLabel: Option<string>, computed: AggRow, output: seq<string>)
    ensures var r := Emitted(key, groupLabel, computed, output);
      && (r.Ok? <==> forall c :: c in output ==> groupLabel == Some(c) || c in computed)
      && (r.Err? ==> r.error == KeyNotFound)
      && (r.Ok? ==> forall c :: c in r.value <==> c in output)
      && (r.Ok? ==> forall c :: c in output ==> r.value[c] == if groupLabel == Some(c) then Plain(key) else computed[c])
  {
    if output == [] {
    } else {
      var before, last := output[..|output| - 1], output[|output| - 1];
      assert forall c :: c in output <==> c in before || c == last;
      EmittedHolds(key, groupLabel, computed, before);
    }
  }

  lemma {:induction false} GroupLabelIsFirst(aggs: seq<Aggregate>, output: seq<string>)
    ensures var groupLabel := GroupLabel(aggs, output);
      && (groupLabel.None? <==> forall c :: c in output ==> IsLabel(aggs, c))
      && (groupLabel.Some? ==> groupLabel.value in output && !IsLabel(aggs, groupLabel.value))
  {
    if output == [] {
    } else {
      assert forall c :: c in output <==> c == output[0] || c in output[1..];
      GroupLabelIsFirst(aggs, output[1..]);
    }
  }

  // A group gives an output row exactly when its aggregates succeed and one output
  // label at most is no aggregate's; the row is then what it should be. The first
  // aggregate that fails gives the error, a second other label a KeyError.
  lemma GroupRowMeans(key: Value, members: seq<Row>, aggs: seq<Aggregate>, output: seq<string>)
    requires DistinctNames(aggs)
    ensures var r, sound := GroupRow(key, members, aggs, output),
                            forall i :: 0 <= i < |aggs| ==> AggregateAt(aggs, i, members).Ok?;
      && (r.Ok? <==> sound && OneGroupLabel(aggs, output))
      && (r.Ok? ==> OutputRow(r.value, key, members, aggs, output))
      && (r.Err? && sound ==> r.error == KeyNotFound)
      && (!sound ==> exists i :: FirstFailure(aggs, i, members) && r.error == AggregateAt(aggs, i, members).error)
  {
    hide ApplyAggregate, Computed, Emitted, GroupLabel, IsLabel;
    ComputedHolds(aggs, members);
    GroupLabelIsFirst(aggs, output);
    if Computed(aggs, members).Ok? {
      EmittedHolds(key, GroupLabel(aggs, output), Computed(aggs, members).value, output);
    }
  }

  // The groups that give output rows: without GROUP BY an empty table still has one.
  function OutputGroups<T>(rows: seq<T>, key: T -> Value, grouped: bool): seq<Value> {
    if !grouped && rows == [] then [NullValue] else Groups(rows, key)
  }

  // ------------------------------------------------------------------
  // Group results add up
  // ------------------------------------------------------------------

  // A count or sum as a number, null as 0.
  function AsNumber(r: Result<AggValue>): int {
    if r.Ok? && r.value.Plain? && r.value.v.IntValue? then r.value.v.i else 0
  }

  // What a row adds to COUNT(*), COUNT(col) or SUM(col).
  function Share<T>(func: string, arg: Option<T -> Value>): T -> int {
    (row: T) =>
      if arg.None? then 1
      else
        var v := (arg.value)(row);
        if v.NullValue? then 0 else if func == "COUNT" then 1 else if v.IntValue? then v.i else 0
  }

  lemma {:induction false} AggregateIsSum<T>(func: string, arg: Option<T -> Value>, rows: seq<T>)
    requires func == "COUNT" || (func == "SUM" && arg.Some?)
    requires ApplyAggregate(func, arg, rows).Ok?
    ensures AsNumber(ApplyAggregate(func, arg, rows)) == Sum(rows, Share(func, arg))
  {
    if arg.None? {
      SumOfOnes(func, arg, rows);
    } else if func == "COUNT" {
      CountPresent(arg, rows);
    } else {
      SumPresent(arg, rows);
    }
  }

  lemma {:induction false} SumOfOnes<T>(func: string, arg: Option<T -> Value>, rows: seq<T>)
    requires arg.None?
    ensures Sum(rows, Share(func, arg)) == |rows|
  {
    if rows == [] {
    } else {
      SumOfOnes(func, arg, rows[..|rows| - 1]);
    }
  }

  lemma {:induction false} CountPresent<T>(arg: Option<T -> Value>, rows: seq<T>)
    requires arg.Some?
    ensures Sum(rows, Share("COUNT", arg)) == |Present(rows, arg.value)|
  {
    if rows == [] {
    } else {
      CountPresent(arg, rows[..|rows| - 1]);
    }
  }

  lemma {:induction false} SumPresent<T>(arg: Option<T -> Value>, rows: seq<T>)
    requires arg.Some? && forall v :: v in Present(rows, arg.value) ==> v.IntValue?
    ensures Sum(rows, Share("SUM", arg)) == Total(Present(rows, arg.value))
  {
    if rows == [] {
    } else {
      var before, v := Present(rows[..|rows| - 1], arg.value), (arg.value)(rows[|rows| - 1]);
      assert forall w :: w in before ==> w in Present(rows, arg.value);
      SumPresent(arg, rows[..|rows| - 1]);
      if v.NullValue? {
        assert before + [] == before;
      } else {
        assert v in Present(rows, arg.value) && (before + [v])[..|before|] == before;
      }
    }
  }

  // The counts or sums of groups ks, added up.
  function TotalOf<T>(func: string, arg: Option<T -> Value>, rows: seq<T>, key: T -> Value, ks: seq<Value>): int {
    if ks == [] then 0
    else TotalOf(func, arg, rows, key, ks[..|ks| - 1])
         + AsNumber(ApplyAggregate(func, arg, Members(rows, key, ks[|ks| - 1])))
  }

  lemma {:induction false} TotalIsSums<T>(func: string, arg: Option<T -> Value>, rows: seq<T>, key: T -> Value,
                                          ks: seq<Value>)
    requires func == "COUNT" || (func == "SUM" && arg.Some?)
    requires forall k :: k in ks ==> ApplyAggregate(func, arg, Members(rows, key, k)).Ok?
    ensures TotalOf(func, arg, rows, key, ks) == SumOfSums(rows, key, ks, Share(func, arg))
    decreases ks
  {
    if ks == [] {
    } else {
      TotalIsSums(func, arg, rows, key, ks[..|ks| - 1]);
      AggregateIsSum(func, arg, Members(rows, key, ks[|ks| - 1]));
    }
  }

  // The groups' counts add up to the whole table's count, the groups' sums to the
  // whole table's sum, whichever column groups and whichever is summed.
  lemma GroupTotals<T>(func: string, arg: Option<T -> Value>, rows: seq<T>, key: T -> Value)
    requires func == "COUNT" || (func == "SUM" && arg.Some?)
    requires ApplyAggregate(func, arg, rows).Ok?
    ensures TotalOf(func, arg, rows, key, Groups(rows, key)) == AsNumber(ApplyAggregate(func, arg, rows))
  {
    forall k | k in Groups(rows, key) ensures ApplyAggregate(func, arg, Members(rows, key, k)).Ok? {
      if arg.Some? {
        forall v | v in Present(Members(rows, key, k), arg.value) ensures v in Present(rows, arg.value) {
          PresentInGroup(rows, key, k, arg.value, v);
        }
      }
    }
    TotalIsSums(func, arg, rows, key, Groups(rows, key));
    GroupSumsAddUp(rows, key, Share(func, arg));
    AggregateIsSum(func, arg, rows);
  }

  lemma {:induction false} PresentMembers<T>(rows: seq<T>, field: T -> Value, v: Value)
    ensures v in Present(rows, field) <==> !v.NullValue? && exists row :: row in rows && field(row) == v
  {
    if rows == [] {
    } else {
      PresentMembers(rows[..|rows| - 1], field, v);
      assert forall x :: x in rows <==> x in rows[..|rows| - 1] || x == rows[|rows| - 1];
    }
  }

  lemma PresentInGroup<T>(rows: seq<T>, key: T -> Value, k: Value, field: T -> Value, v: Value)
    requires v in Present(Members(rows, key, k), field)
    ensures v in Present(rows, field)
  {
    PresentMembers(Members(rows, key, k), field, v);
    var row :| row in Members(rows, key, k) && field(row) == v;
    GroupsPartition(rows, key, row, k);
    PresentMembers(rows, field, v);
  }

  // ------------------------------------------------------------------
  // Extremes of extremes
  // ------------------------------------------------------------------

  // Values of one type.
  predicate OneType(values: seq<Value>) {
    (forall v :: v in values ==> v.IntValue?) || (forall v :: v in values ==> v.TextValue?)
  }

  lemma TextFlip(a: string, b: string)
    ensures CompareText(a, b) == -CompareText(b, a) && (CompareText(a, b) == 0 <==> a == b)
  {
    Bytes.LexFlip(Utf8.CodePoints(a), Utf8.CodePoints(b));
    Bytes.LexEqual(Utf8.CodePoints(a), Utf8.CodePoints(b));
    Utf8.CodePointsInjective(a, b);
  }

  lemma TextTransitive(a: string, b: string, c: string)
    requires CompareText(a, b) <= 0 && CompareText(b, c) <= 0
    ensures CompareText(a, c) <= 0
  {
    Bytes.LexTransitive(Utf8.CodePoints(a), Utf8.CodePoints(b), Utf8.CodePoints(c));
  }

  // v <= w: numbers by size, texts by code points.
  ghost predicate AtMost(v: Value, w: Value) {
    || (v.IntValue? && w.IntValue? && v.i <= w.i)
    || (v.TextValue? && w.TextValue? && !TextLess(w.s, v.s))
  }

  // v is in the list and least in it, or greatest.
  ghost predicate IsBest(v: Value, values: seq<Value>, max: bool) {
    v in values && forall w :: w in values ==> if max then AtMost(w, v) else AtMost(v, w)
  }

  // Of two values of one type one is better exactly when it is not at most, or not at
  // least, the other.
  lemma BetterMeans(w: Value, v: Value, max: bool)
    requires OneType([w, v])
    ensures !Better(w, v, max) <==> if max then AtMost(w, v) else AtMost(v, w)
  {
    hide CompareText, TextLess;
    assert w in [w, v] && v in [w, v];
    if v.TextValue? {
      CompareTextMeans(w.s, v.s);
    }
  }

  // Not being better is transitive within a type, and both ways only for equals.
  lemma NotBetter(u: Value, v: Value, w: Value, max: bool)
    requires OneType([u, v, w])
    ensures !Better(u, v, max) && !Better(v, w, max) ==> !Better(u, w, max)
    ensures !Better(u, v, max) && !Better(v, u, max) ==> u == v
    ensures !Better(u, u, max) && (Better(u, v, max) ==> !Better(v, u, max))
  {
    hide CompareText;
    assert u in [u, v, w] && v in [u, v, w] && w in [u, v, w];
    if u.TextValue? {
      TextFlip(u.s, u.s);
      TextFlip(u.s, v.s);
      TextFlip(v.s, w.s);
      TextFlip(u.s, w.s);
      if max {
        if CompareText(u.s, v.s) <= 0 && CompareText(v.s, w.s) <= 0 {
          TextTransitive(u.s, v.s, w.s);
        }
      } else if CompareText(w.s, v.s) <= 0 && CompareText(v.s, u.s) <= 0 {
        TextTransitive(w.s, v.s, u.s);
      }
    }
  }

  lemma {:induction false} BestIsBest(values: seq<Value>, max: bool)
    requires values != [] && OneType(values)
    ensures IsBest(Best(values, max), values, max)
  {
    var last := values[|values| - 1];
    if |values| == 1 {
      NotBetter(last, last, last, max);
      BetterMeans(last, last, max);
    } else {
      var before := values[..|values| - 1];
      assert forall w :: w in before ==> w in values;
      BestIsBest(before, max);
      var b := Best(before, max);
      forall w | w in values ensures !Better(w, Best(values, max), max) {
        assert w in before || w == last;
        if w in before {
          BetterMeans(w, b, max);
        }
        NotBetter(w, b, last, max);
        NotBetter(last, b, w, max);
      }
      forall w | w in values
        ensures if max then AtMost(w, Best(values, max)) else AtMost(Best(values, max), w)
      {
        BetterMeans(w, Best(values, max), max);
      }
    }
  }

  lemma BestIsOne(u: Value, v: Value, values: seq<Value>, max: bool)
    requires IsBest(u, values, max) && IsBest(v, values, max) && OneType(values)
    ensures u == v
  {
    BetterMeans(u, v, max);
    BetterMeans(v, u, max);
    NotBetter(u, v, u, max);
  }

  // MIN or MAX.
  function Extreme(max: bool): string {
    if max then "MAX" else "MIN"
  }

  // An aggregate's column value.
  function AsValue(r: Result<AggValue>): Value {
    if r.Ok? && r.value.Plain? then r.value.v else NullValue
  }

  // What an aggregate returns for each of the groups ks.
  function GroupResults<T>(func: string, arg: T -> Value, rows: seq<T>, key: T -> Value, ks: seq<Value>): seq<Value> {
    if ks == [] then []
    else
      var last := ApplyAggregate(func, Some(arg), Members(rows, key, ks[|ks| - 1]));
      GroupResults(func, arg, rows, key, ks[..|ks| - 1]) + [AsValue(last)]
  }

  function Same(): Value -> Value {
    (v: Value) => v
  }

  // What MIN and MAX return for rows is their best value, or null.
  lemma MinMaxAggregate<T>(rows: seq<T>, field: T -> Value, max: bool)
    ensures ApplyAggregate(Extreme(max), Some(field), rows)
            == Ok(Plain(if Present(rows, field) == [] then NullValue else Best(Present(rows, field), max)))
  {
    assert "MIN" != "COUNT" && "MIN" != "SUM" && "MIN" != "AVG" && "MAX" != "COUNT" && "MAX" != "MIN";
  }

  // v is the best value of group k.
  predicate BestAt<T>(rows: seq<T>, key: T -> Value, k: Value, field: T -> Value, max: bool, v: Value) {
    var values := Present(Members(rows, key, k), field);
    values != [] && v == Best(values, max)
  }

  lemma BestAtIs<T>(rows: seq<T>, key: T -> Value, k: Value, field: T -> Value, max: bool, v: Value)
    requires !v.NullValue?
    ensures var values := Present(Members(rows, key, k), field);
      BestAt(rows, key, k, field, max, v) <==> v == if values == [] then NullValue else Best(values, max)
  {
  }

  // The group results that are not null are the groups' best values.
  lemma {:induction false} ResultsAreBests<T>(rows: seq<T>, key: T -> Value, ks: seq<Value>, field: T -> Value,
                                              max: bool, v: Value)
    ensures v in Present(GroupResults(Extreme(max), field, rows, key, ks), Same())
            <==> !v.NullValue? && exists k :: k in ks && BestAt(rows, key, k, field, max, v)
    decreases ks
  {
    hide Extreme, ApplyAggregate, BestAt;
    if ks == [] {
    } else {
      var before, k := ks[..|ks| - 1], ks[|ks| - 1];
      ResultsAreBests(rows, key, before, field, max, v);
      MinMaxAggregate(Members(rows, key, k), field, max);
      var results := GroupResults(Extreme(max), field, rows, key, before);
      var last := AsValue(ApplyAggregate(Extreme(max), Some(field), Members(rows, key, k)));
      assert (results + [last])[..|results|] == results;
      assert forall x :: x in ks <==> x in before || x == k;
      if !v.NullValue? {
        BestAtIs(rows, key, k, field, max, v);
      }
    }
  }

  // The best of a group is among all values.
  lemma BestOfGroup<T>(rows: seq<T>, key: T -> Value, k: Value, field: T -> Value, max: bool)
    requires OneType(Present(rows, field)) && Present(Members(rows, key, k), field) != []
    ensures Best(Present(Members(rows, key, k), field), max) in Present(rows, field)
    ensures IsBest(Best(Present(Members(rows, key, k), field), max), Present(Members(rows, key, k), field), max)
  {
    var values := Present(Members(rows, key, k), field);
    forall v | v in values ensures v in Present(rows, field) {
      PresentInGroup(rows, key, k, field, v);
    }
    BestIsBest(values, max);
  }

  // The best of all rows is the best of its group.
  lemma BestHasGroup<T>(rows: seq<T>, key: T -> Value, field: T -> Value, max: bool)
    requires OneType(Present(rows, field)) && Present(rows, field) != []
    ensures exists k :: k in Groups(rows, key) && BestAt(rows, key, k, field, max, Best(Present(rows, field), max))
  {
    var all := Present(rows, field);
    var m := Best(all, max);
    BestIsBest(all, max);
    PresentMembers(rows, field, m);
    var row :| row in rows && field(row) == m;
    var k := key(row);
    GroupsPartition(rows, key, row, k);
    PresentMembers(Members(rows, key, k), field, m);
    var values := Present(Members(rows, key, k), field);
    BestOfGroup(rows, key, k, field, max);
    BetterMeans(m, Best(values, max), max);
    BetterMeans(Best(values, max), m, max);
    NotBetter(m, Best(values, max), m, max);
    assert BestAt(rows, key, k, field, max, m);
  }

  // The MIN of the groups' MINs is the MIN of the table, and so for MAX: groups
  // without a value give null and are passed over.
  lemma ExtremeOfExtremes<T>(rows: seq<T>, key: T -> Value, field: T -> Value, max: bool)
    requires OneType(Present(rows, field))
    ensures ApplyAggregate(Extreme(max), Some(Same()), GroupResults(Extreme(max), field, rows, key, Groups(rows, key)))
            == ApplyAggregate(Extreme(max), Some(field), rows)
  {
    hide Extreme, ApplyAggregate, GroupResults, Groups;
    var ks, all := Groups(rows, key), Present(rows, field);
    var results := GroupResults(Extreme(max), field, rows, key, ks);
    var bests := Present(results, Same());
    MinMaxAggregate(rows, field, max);
    MinMaxAggregate(results, Same(), max);
    forall v | v in bests ensures v in all {
      ResultsAreBests(rows, key, ks, field, max, v);
      var k :| k in ks && BestAt(rows, key, k, field, max, v);
      BestOfGroup(rows, key, k, field, max);
    }
    assert bests == [] || bests[0] in all;
    if all == [] {
    } else {
      BestHasGroup(rows, key, field, max);
      ResultsAreBests(rows, key, ks, field, max, Best(all, max));
      BestIsBest(all, max);
      BestIsBest(bests, max);
      BestIsOne(Best(bests, max), Best(all, max), bests, max);
    }
  }

  // AVG is the SUM over the COUNT of the same column.
  lemma AverageIsSumOverCount<T>(rows: seq<T>, field: T -> Value)
    ensures var avg := ApplyAggregate("AVG", Some(field), rows);
      && (avg.Ok? <==> ApplyAggregate("SUM", Some(field), rows).Ok?)
      && (avg.Ok? ==> avg.value.Average? || avg.value == Plain(NullValue))
      && (avg.Ok? && avg.value.Average? ==>
            && avg.value.count > 0
            && ApplyAggregate("SUM", Some(field), rows) == Ok(Plain(IntValue(avg.value.sum)))
            && ApplyAggregate("COUNT", Some(field), rows) == Ok(Plain(IntValue(avg.value.count))))
  {
  }

  // ------------------------------------------------------------------
  // What the aggregates return
  // ------------------------------------------------------------------

  // MIN is at most and MAX at least every value of the column, and both are values of it.
  lemma ExtremesAre<T>(rows: seq<T>, field: T -> Value)
    requires (forall x :: x in rows ==> !field(x).TextValue?) || (forall x :: x in rows ==> !field(x).IntValue?)
    ensures forall func :: func in {"MIN", "MAX"} ==>
      var r := ApplyAggregate(func, Some(field), rows);
      && r.Ok? && r.value.Plain?
      && (r.value.v.NullValue? <==> forall x :: x in rows ==> field(x).NullValue?)
      && (!r.value.v.NullValue? ==> exists x :: x in rows && field(x) == r.value.v)
      && forall x :: x in rows && !field(x).NullValue? ==>
        if func == "MIN" then AtMost(r.value.v, field(x)) else AtMost(field(x), r.value.v)
  {
    hide ApplyAggregate, AtMost, Present;
    forall x ensures x in Present(rows, field) <==> !x.NullValue? && exists row :: row in rows && field(row) == x {
      PresentMembers(rows, field, x);
    }
    var values := Present(rows, field);
    assert OneType(values);
    assert values != [] ==> values[0] in values;
    MinMaxAggregate(rows, field, false);
    MinMaxAggregate(rows, field, true);
    if values != [] {
      BestIsBest(values, false);
      BestIsBest(values, true);
    }
  }

  // What a row adds to the sum of a column.
  function Amount<T>(field: T -> Value): T -> int {
    (row: T) => if field(row).IntValue? then field(row).i else 0
  }

  // COUNT counts rows, or the rows whose column is not null.
  lemma {:induction false} CountsAre<T>(rows: seq<T>, field: T -> Value)
    ensures ApplyAggregate("COUNT", None, rows) == Ok(Plain(IntValue(|rows|)))
    ensures ApplyAggregate("COUNT", Some(field), rows)
            == Ok(Plain(IntValue(|set i | 0 <= i < |rows| && !field(rows[i]).NullValue?|)))
  {
    if rows == [] {
    } else {
      var before, n := rows[..|rows| - 1], |rows| - 1;
      CountsAre(before, field);
      var few, more := set i | 0 <= i < n && !field(before[i]).NullValue?,
                       set i | 0 <= i < |rows| && !field(rows[i]).NullValue?;
      if field(rows[n]).NullValue? {
        assert more == few;
      } else {
        assert more == few + {n};
      }
    }
  }

  // SUM adds the numbers of the column up, and is null when there are none.
  lemma SumIs<T>(rows: seq<T>, field: T -> Value)
    requires forall x :: x in rows ==> !field(x).TextValue?
    ensures ApplyAggregate("SUM", Some(field), rows)
            == Ok(Plain(if forall x :: x in rows ==> field(x).NullValue? then NullValue
                        else IntValue(Sum(rows, Amount(field)))))
  {
    var values := Present(rows, field);
    forall v ensures v in values <==> !v.NullValue? && exists row :: row in rows && field(row) == v {
      PresentMembers(rows, field, v);
    }
    assert values != [] ==> values[0] in values;
    SumPresent(Some(field), rows);
    SameAmounts(rows, field);
  }

  lemma {:induction false} SameAmounts<T>(rows: seq<T>, field: T -> Value)
    requires forall x :: x in rows ==> !field(x).TextValue?
    ensures Sum(rows, Share("SUM", Some(field))) == Sum(rows, Amount(field))
  {
    if rows == [] {
    } else {
      assert rows[|rows| - 1] in rows;
      SameAmounts(rows[..|rows| - 1], field);
    }
  }

  // SUM and AVG of a text, and a function that is none of the five, are errors.
  lemma OtherAggregates<T>(func: string, rows: seq<T>, field: T -> Value, row: T)
    requires row in rows && !field(row).NullValue?
    ensures func in {"SUM", "AVG"} && field(row).TextValue? ==>
      ApplyAggregate(func, Some(field), rows) == Err(LogicalError)
    ensures func !in {"COUNT", "SUM", "MIN", "MAX", "AVG"} ==>
      ApplyAggregate(func, Some(field), rows) == Err(LogicalError)
  {
    PresentMembers(rows, field, field(row));
  }

  // Without GROUP BY all rows are one group, and an empty table is one too.
  lemma OneGroupOfAll(rows: seq<Row>)
    ensures OutputGroups(rows, ByColumn(None), false) == [NullValue] && Members(rows, ByColumn(None), NullValue) == rows
  {
    if rows == [] {
    } else {
      OneGroupOfAll(rows[..|rows| - 1]);
      assert rows[..|rows| - 1] + [rows[|rows| - 1]] == rows;
    }
  }

  // With GROUP BY an empty table has no group.
  lemma NoGroupOfNone<T>(key: T -> Value)
    ensures OutputGroups<T>([], key, true) == []
  {
  }
}
