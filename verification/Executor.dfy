// Running plans: rows pulled through operators, each a loop over its child's rows.
module Executor {
  import opened Wrappers
  import opened SqlAst
  import opened Evaluate
  import Grouping

  // What an operator yields: rows, then possibly an error in place of the next one.
  datatype Stream<+T> = Stream(rows: seq<T>, error: Option<Error>)

  datatype Plan =
    | Scan(table: string, columns: seq<string>)
    | Filter(condition: Expr, child: Plan)
    | Projection(items: seq<(string, Expr)>, child: Plan)
    | Sort(column: string, descending: bool, child: Plan)
    | Limit(count: nat, child: Plan)
    | JoinScans(leftKey: string, rightKey: string, left: Plan, right: Plan)

  // The rows scan returns, table by table.
  type Database = map<string, seq<Row>>

  // ------------------------------------------------------------------
  // Operators on streams
  // ------------------------------------------------------------------

  // One item before a stream.
  function Cons<T>(x: T, s: Stream<T>): Stream<T> {
    Stream([x] + s.rows, s.error)
  }

  // The rest of a stream.
  function Tail<T>(s: Stream<T>): Stream<T>
    requires s.rows != []
  {
    Stream(s.rows[1..], s.error)
  }

  // The rows that pass, up to the first one whose test fails with an error.
  function FilterStream<T>(s: Stream<T>, test: T -> Result<bool>): Stream<T>
    decreases |s.rows|
  {
    if s.rows == [] then s
    else
      match test(s.rows[0])
      case Err(e) => Stream([], Some(e))
      case Ok(b) =>
        var rest := FilterStream(Tail(s), test);
        if b then Cons(s.rows[0], rest) else rest
  }

  function MapStream<T, U>(s: Stream<T>, f: T -> Result<U>): Stream<U>
    decreases |s.rows|
  {
    if s.rows == [] then Stream([], s.error)
    else
      match f(s.rows[0])
      case Err(e) => Stream([], Some(e))
      case Ok(x) => Cons(x, MapStream(Tail(s), f))
  }

  // The first n rows; what comes behind them is never asked for.
  function Take<T>(s: Stream<T>, n: nat): Stream<T> {
    if n == 0 then Stream([], None)
    else if |s.rows| >= n then Stream(s.rows[..n], None)
    else s
  }

  // Sorting needs all rows first.
  function SortStream<T>(s: Stream<T>, key: T -> Value, descending: bool): Stream<T> {
    if s.error.Some? then Stream([], s.error) else Stream(StableSort(s.rows, key, descending), None)
  }

  // How many rows come before the first one an operator fails on.
  function Sound<T, U>(rows: seq<T>, f: T -> Result<U>): (n: nat)
    ensures n <= |rows| && (forall i :: 0 <= i < n ==> f(rows[i]).Ok?) && (n < |rows| ==> f(rows[n]).Err?)
  {
    if rows == [] || f(rows[0]).Err? then 0 else 1 + Sound(rows[1..], f)
  }

  // The error an operator ends with: that of the first row it fails on, else the
  // one of its source.
  function EndOf<T, U>(s: Stream<T>, f: T -> Result<U>): Option<Error> {
    var n := Sound(s.rows, f);
    if n < |s.rows| then Some(f(s.rows[n]).error) else s.error
  }

  // Rows already yielded, then the rest of a stream.
  function Yielded<T>(out: seq<T>, rest: Stream<T>): Stream<T> {
    Stream(out + rest.rows, rest.error)
  }

  // A filter keeps a row exactly when it passes and ends where a test fails...
  lemma FilterOne<T>(x: T, error: Option<Error>, test: T -> Result<bool>)
    ensures FilterStream(Stream([x], error), test) ==
            if test(x).Err? then Stream([], Some(test(x).error)) else Stream(if test(x).value then [x] else [], error)
  {
    var s := Stream([x], error);
    assert Tail(s).rows == [];
    if test(x).Ok? {
      assert FilterStream(Tail(s), test) == Tail(s);
    }
  }

  // ...and goes through rows in their order, each by itself.
  lemma {:induction false} FilterConcat<T>(a: seq<T>, b: seq<T>, error: Option<Error>, test: T -> Result<bool>)
    ensures var first := FilterStream(Stream(a, None), test);
      FilterStream(Stream(a + b, error), test) ==
      if first.error.Some? then first else Yielded(first.rows, FilterStream(Stream(b, error), test))
    decreases a
  {
    if a == [] {
      assert a + b == b;
      assert [] + FilterStream(Stream(b, error), test).rows == FilterStream(Stream(b, error), test).rows;
    } else {
      assert (a + b)[1..] == a[1..] + b;
      FilterConcat(a[1..], b, error, test);
    }
  }

  // A projection yields one row for each row before the first failure.
  lemma {:induction false} MapsEach<T, U>(s: Stream<T>, f: T -> Result<U>)
    ensures var r := MapStream(s, f);
      && |r.rows| == Sound(s.rows, f) && r.error == EndOf(s, f)
      && forall i :: 0 <= i < |r.rows| ==> f(s.rows[i]) == Ok(r.rows[i])
    decreases |s.rows|
  {
    if s.rows != [] && f(s.rows[0]).Ok? {
      MapsEach(Tail(s), f);
    }
  }

  // ------------------------------------------------------------------
  // Stable sort, nulls first
  // ------------------------------------------------------------------

  // Order of sort keys: null before everything, else by value.
  function CompareKeys(v: Value, w: Value): int {
    if v.NullValue? then (if w.NullValue? then 0 else -1)
    else if w.NullValue? then 1
    else Grouping.Compare(v, w)
  }

  // v must stand before w.
  predicate Precedes(v: Value, w: Value, descending: bool) {
    if descending then CompareKeys(v, w) > 0 else CompareKeys(v, w) < 0
  }

  function InsertSorted<T>(x: T, sorted: seq<T>, key: T -> Value, descending: bool): seq<T> {
    if sorted != [] && Precedes(key(sorted[0]), key(x), descending)
    then [sorted[0]] + InsertSorted(x, sorted[1..], key, descending)
    else [x] + sorted
  }

  function StableSort<T>(xs: seq<T>, key: T -> Value, descending: bool): seq<T> {
    if xs == [] then [] else InsertSorted(xs[0], StableSort(xs[1..], key, descending), key, descending)
  }

  // The items with a given key, in their order.
  function WithKey<T>(xs: seq<T>, key: T -> Value, v: Value): seq<T> {
    if xs == [] then [] else (if key(xs[0]) == v then [xs[0]] else []) + WithKey(xs[1..], key, v)
  }

  // Nothing in the list must stand before what stands before it.
  predicate Arranged<T>(xs: seq<T>, key: T -> Value, descending: bool) {
    forall i, j :: 0 <= i < j < |xs| ==> !Precedes(key(xs[j]), key(xs[i]), descending)
  }

  // v may stand before w: ascending, null before all and then by size or by code points;
  // descending, the other way round.
  ghost predicate MayPrecede(v: Value, w: Value, descending: bool) {
    if descending then w.NullValue? || Grouping.AtMost(w, v) else v.NullValue? || Grouping.AtMost(v, w)
  }

  ghost predicate IsSorted<T>(xs: seq<T>, key: T -> Value, descending: bool) {
    forall i, j :: 0 <= i < j < |xs| ==> MayPrecede(key(xs[i]), key(xs[j]), descending)
  }

  // Keys of one type or null.
  ghost predicate Comparable<T(!new)>(xs: seq<T>, key: T -> Value) {
    (forall x :: x in xs ==> !key(x).TextValue?) || (forall x :: x in xs ==> !key(x).IntValue?)
  }

  lemma KeyOrder(u: Value, v: Value, w: Value, descending: bool)
    requires (!u.TextValue? && !v.TextValue? && !w.TextValue?) || (!u.IntValue? && !v.IntValue? && !w.IntValue?)
    ensures !Precedes(u, v, descending) && !Precedes(v, w, descending) ==> !Precedes(u, w, descending)
    ensures Precedes(u, v, descending) ==> !Precedes(v, u, descending)
    ensures !Precedes(u, u, descending)
  {
    if u.TextValue? {
      Grouping.TextFlip(u.s, u.s);
    }
    if u.TextValue? && v.TextValue? {
      Grouping.TextFlip(u.s, v.s);
      if w.TextValue? {
        Grouping.NotBetter(u, v, w, descending);
      }
    }
  }

  lemma {:induction false} InsertMembers<T>(x: T, sorted: seq<T>, key: T -> Value, descending: bool)
    ensures forall y :: y in InsertSorted(x, sorted, key, descending) <==> y == x || y in sorted
  {
    if sorted != [] && Precedes(key(sorted[0]), key(x), descending) {
      InsertMembers(x, sorted[1..], key, descending);
      assert forall y :: y in sorted <==> y == sorted[0] || y in sorted[1..];
    }
  }

  lemma {:induction false} SortMembers<T>(xs: seq<T>, key: T -> Value, descending: bool)
    ensures forall y :: y in StableSort(xs, key, descending) <==> y in xs
  {
    if xs == [] {
    } else {
      SortMembers(xs[1..], key, descending);
      InsertMembers(xs[0], StableSort(xs[1..], key, descending), key, descending);
      assert forall y :: y in xs <==> y == xs[0] || y in xs[1..];
    }
  }

  lemma {:induction false} InsertKeepsOrder<T(!new)>(x: T, sorted: seq<T>, key: T -> Value, descending: bool)
    requires Arranged(sorted, key, descending) && Comparable([x] + sorted, key)
    ensures Arranged(InsertSorted(x, sorted, key, descending), key, descending)
  {
    hide Precedes;
    var all := [x] + sorted;
    assert x == all[0] && forall i :: 0 <= i < |sorted| ==> sorted[i] == all[i + 1] && sorted[i] in all;
    if sorted != [] && Precedes(key(sorted[0]), key(x), descending) {
      var rest := InsertSorted(x, sorted[1..], key, descending);
      assert forall y :: y in [x] + sorted[1..] ==> y in all;
      InsertKeepsOrder(x, sorted[1..], key, descending);
      InsertMembers(x, sorted[1..], key, descending);
      forall y | y in rest ensures !Precedes(key(y), key(sorted[0]), descending) {
        KeyOrder(key(sorted[0]), key(x), key(x), descending);
        if y != x {
          var j :| 0 <= j < |sorted[1..]| && sorted[1..][j] == y;
          assert sorted[j + 1] == y;
        }
      }
      SortedCons(sorted[0], rest, key, descending);
    } else if sorted != [] {
      forall y | y in sorted ensures !Precedes(key(y), key(x), descending) {
        var j :| 0 <= j < |sorted| && sorted[j] == y;
        assert sorted[j] in all && sorted[0] in all && x in all;
        if j > 0 {
          KeyOrder(key(y), key(sorted[0]), key(x), descending);
        }
      }
      SortedCons(x, sorted, key, descending);
    }
  }

  lemma SortedCons<T>(x: T, sorted: seq<T>, key: T -> Value, descending: bool)
    requires Arranged(sorted, key, descending) && forall y :: y in sorted ==> !Precedes(key(y), key(x), descending)
    ensures Arranged([x] + sorted, key, descending)
  {
    var all := [x] + sorted;
    forall i, j | 0 <= i < j < |all| ensures !Precedes(key(all[j]), key(all[i]), descending) {
      assert all[j] == sorted[j - 1];
      if i > 0 {
        assert all[i] == sorted[i - 1];
      }
    }
  }

  lemma {:induction false} InsertKeepsClass<T>(x: T, sorted: seq<T>, key: T -> Value, descending: bool, v: Value)
    ensures WithKey(InsertSorted(x, sorted, key, descending), key, v)
            == (if key(x) == v then [x] else []) + WithKey(sorted, key, v)
  {
    hide Precedes;
    if sorted != [] && Precedes(key(sorted[0]), key(x), descending) {
      var rest := InsertSorted(x, sorted[1..], key, descending);
      InsertKeepsClass(x, sorted[1..], key, descending, v);
      assert ([sorted[0]] + rest)[1..] == rest;
      SameKeyStays(v, descending);
    } else {
      assert ([x] + sorted)[1..] == sorted;
    }
  }

  lemma SameKeyStays(v: Value, descending: bool)
    ensures !Precedes(v, v, descending)
  {
    KeyOrder(v, v, v, descending);
  }

  lemma {:induction false} SortArranges<T(!new)>(xs: seq<T>, key: T -> Value, descending: bool, v: Value)
    requires Comparable(xs, key)
    ensures Arranged(StableSort(xs, key, descending), key, descending)
    ensures WithKey(StableSort(xs, key, descending), key, v) == WithKey(xs, key, v)
  {
    if xs == [] {
    } else {
      assert forall y :: y in xs[1..] ==> y in xs;
      SortArranges(xs[1..], key, descending, v);
      SortMembers(xs[1..], key, descending);
      InsertKeepsOrder(xs[0], StableSort(xs[1..], key, descending), key, descending);
      InsertKeepsClass(xs[0], StableSort(xs[1..], key, descending), key, descending, v);
    }
  }

  lemma PrecedesMeans(v: Value, w: Value, descending: bool)
    requires (!v.TextValue? && !w.TextValue?) || (!v.IntValue? && !w.IntValue?)
    ensures !Precedes(w, v, descending) <==> MayPrecede(v, w, descending)
  {
    if !v.NullValue? && !w.NullValue? {
      Grouping.BetterMeans(w, v, descending);
    }
  }

  // The sort puts keys in order, nulls first (last when descending), and keeps the
  // items of each key, all of them, in the order they came.
  lemma SortIsStable<T(!new)>(xs: seq<T>, key: T -> Value, descending: bool, v: Value)
    requires Comparable(xs, key)
    ensures IsSorted(StableSort(xs, key, descending), key, descending)
    ensures WithKey(StableSort(xs, key, descending), key, v) == WithKey(xs, key, v)
    ensures forall x :: x in StableSort(xs, key, descending) <==> x in xs
  {
    hide StableSort, WithKey, Precedes, MayPrecede;
    SortArranges(xs, key, descending, v);
    SortMembers(xs, key, descending);
    var sorted := StableSort(xs, key, descending);
    forall i, j | 0 <= i < j < |sorted| ensures MayPrecede(key(sorted[i]), key(sorted[j]), descending) {
      assert sorted[i] in xs && sorted[j] in xs;
      PrecedesMeans(key(sorted[i]), key(sorted[j]), descending);
    }
  }

  // ORDER BY yields all rows of its source, sorted, or the source's error and no row.
  lemma SortStreamIs<T(!new)>(s: Stream<T>, key: T -> Value, descending: bool, v: Value)
    requires Comparable(s.rows, key)
    ensures var r := SortStream(s, key, descending);
      && r.error == s.error
      && (s.error.Some? ==> r.rows == [])
      && (s.error.None? ==> IsSorted(r.rows, key, descending) && WithKey(r.rows, key, v) == WithKey(s.rows, key, v))
  {
    SortIsStable(s.rows, key, descending, v);
  }

  // LIMIT yields the first n rows and, once it has them, no error of what comes behind.
  lemma LimitIs<T>(s: Stream<T>, n: nat)
    ensures var r := Take(s, n);
      if n <= |s.rows| then |r.rows| == n && r.rows <= s.rows && r.error == None else r == s
  {
  }

  // ------------------------------------------------------------------
  // Plans
  // ------------------------------------------------------------------

  // A projected value: what a column or a scalar function gives.
  function ScalarWith(e: Expr, read: Reader): Result<Value> {
    match EvalWith(e, read)
    case Err(x) => Err(x)
    case Ok(Scalar(v)) => Ok(v)
    case Ok(Truth(_)) => Err(LogicalError)
  }

  // The output row: each item's value under its label.
  function ProjectWith(items: seq<(string, Expr)>, read: Reader): Result<Row> {
    if items == [] then Ok(map[])
    else
      var (name, e) := items[|items| - 1];
      match ProjectWith(items[..|items| - 1], read)
      case Err(x) => Err(x)
      case Ok(out) =>
        match ScalarWith(e, read)
        case Err(x) => Err(x)
        case Ok(v) => Ok(out[name := v])
  }

  // A column item reads its column, LENGTH counts characters, and no other call is one.
  lemma ScalarIs(e: Expr, read: Reader)
    ensures e.Column? ==> ScalarWith(e, read) == read(e.col)
    ensures e.Func? && e.name == "LENGTH" && e.arg.Some? ==>
      ScalarWith(e, read) == match read(e.arg.value)
                             case Err(x) => Err(x)
                             case Ok(NullValue) => Ok(NullValue)
                             case Ok(TextValue(s)) => Ok(IntValue(|s|))
                             case Ok(IntValue(i)) => Ok(IntValue(DecimalLength(i)))
    ensures e.Func? && (e.name != "LENGTH" || e.arg.None?) ==> ScalarWith(e, read) == Err(LogicalError)
  {
    hide LengthOf;
    if e.Func? && e.arg.Some? && read(e.arg.value).Ok? {
      LengthMeans(read(e.arg.value).value);
    }
  }

  // Item i fails and none before it does.
  ghost predicate FailsFirst(items: seq<(string, Expr)>, read: Reader, i: nat) {
    && i < |items| && ScalarWith(items[i].1, read).Err?
    && forall j :: 0 <= j < i ==> ScalarWith(items[j].1, read).Ok?
  }

  // An output row has every item's value under its label and nothing else; the first
  // item that fails gives the error.
  lemma {:induction false} ProjectIs(items: seq<(string, Expr)>, read: Reader)
    requires forall i, j :: 0 <= i < j < |items| ==> items[i].0 != items[j].0
    ensures var r := ProjectWith(items, read);
      && (r.Ok? ==>
            && (forall c :: c in r.value <==> exists i :: 0 <= i < |items| && items[i].0 == c)
            && forall i :: 0 <= i < |items| ==> ScalarWith(items[i].1, read) == Ok(r.value[items[i].0]))
      && (r.Err? ==> exists i: nat :: FailsFirst(items, read, i) && ScalarWith(items[i].1, read) == Err(r.error))
  {
    hide ScalarWith;
    if items == [] {
    } else {
      var before, n := items[..|items| - 1], |items| - 1;
      assert forall i :: 0 <= i < n ==> before[i] == items[i];
      ProjectIs(before, read);
      var r := ProjectWith(items, read);
      if ProjectWith(before, read).Err? {
        var i: nat :| FailsFirst(before, read, i) && ScalarWith(before[i].1, read) == Err(r.error);
        assert FailsFirst(items, read, i);
      } else if r.Err? {
        assert FailsFirst(items, read, n);
      }
    }
  }

  // A row whose columns can also be named table.column.
  function Qualify(row: Row, table: string): Row {
    row + QualifiedNames(row, table, row.Keys)
  }

  // The values of some columns under their table.column names.
  function QualifiedNames(row: Row, table: string, cols: set<string>): Row {
    var names := set k | k in cols :: table + "." + k;
    map q | q in names && |q| > |table| && q[|table| + 1..] in row :: row[q[|table| + 1..]]
  }

  function QualifyAll(rows: seq<Row>, table: string): (r: seq<Row>)
    ensures |r| == |rows|
  {
    seq(|rows|, i requires 0 <= i < |rows| => Qualify(rows[i], table))
  }

  predicate Joins(l: Row, r: Row, leftKey: string, rightKey: string) {
    Grouping.Field(l, leftKey) == Grouping.Field(r, rightKey) && !Grouping.Field(l, leftKey).NullValue?
  }

  // One left row merged with each right row it joins.
  function JoinRow(l: Row, rs: seq<Row>, leftKey: string, rightKey: string): seq<Row> {
    if rs == [] then []
    else (if Joins(l, rs[0], leftKey, rightKey) then [l + rs[0]] else []) + JoinRow(l, rs[1..], leftKey, rightKey)
  }

  function JoinRows(ls: seq<Row>, rs: seq<Row>, leftKey: string, rightKey: string): seq<Row> {
    if ls == [] then [] else JoinRow(ls[0], rs, leftKey, rightKey) + JoinRows(ls[1..], rs, leftKey, rightKey)
  }

  function ScanRows(table: string, db: Database): Stream<Row> {
    if table in db then Stream(db[table], None) else Stream([], Some(StorageError))
  }

  // What the operators do with a row, as functions.
  function Test(e: Expr): Row -> Result<bool> {
    (row: Row) => Matches(e, row)
  }

  function Project(items: seq<(string, Expr)>): Row -> Result<Row> {
    (row: Row) => ProjectWith(items, RowReader(row))
  }

  function SortKey(col: string): Row -> Value {
    (row: Row) => Grouping.Field(row, col)
  }

  function Rows(plan: Plan, db: Database): Stream<Row> {
    match plan
    case Scan(table, _) => ScanRows(table, db)
    case Filter(e, child) => FilterStream(Rows(child, db), Test(e))
    case Projection(items, child) => MapStream(Rows(child, db), Project(items))
    case Limit(n, child) => Take(Rows(child, db), n)
    case Sort(col, descending, child) => SortStream(Rows(child, db), SortKey(col), descending)
    case JoinScans(lk, rk, left, right) =>
      if !left.Scan? || !right.Scan? then Stream([], Some(LogicalError))
      else
        var ls, rs := Rows(left, db), Rows(right, db);
        if ls.error.Some? then Stream([], ls.error)
        else if rs.error.Some? then Stream([], rs.error)
        else Stream(JoinRows(QualifyAll(ls.rows, left.table), QualifyAll(rs.rows, right.table), lk, rk), None)
  }

  // ------------------------------------------------------------------
  // The loops
  // ------------------------------------------------------------------

  // One more row of a filter, or its error.
  lemma FilterStep<T>(all: Stream<T>, out: seq<T>, left: seq<T>, error: Option<Error>, test: T -> Result<bool>)
    requires left != [] && all == Yielded(out, FilterStream(Stream(left, error), test))
    ensures test(left[0]).Err? ==> all == Stream(out, Some(test(left[0]).error))
    ensures test(left[0]).Ok? ==>
      all == Yielded(if test(left[0]).value then out + [left[0]] else out, FilterStream(Stream(left[1..], error), test))
  {
    if test(left[0]).Ok? {
      var rest := FilterStream(Stream(left[1..], error), test);
      assert out + ([left[0]] + rest.rows) == out + [left[0]] + rest.rows;
    }
  }

  method RunFilter(s: Stream<Row>, e: Expr) returns (r: Stream<Row>)
    ensures r == FilterStream(s, Test(e))
  {
    hide FilterStream, Matches;
    ghost var test := Test(e);
    var out: seq<Row> := [];
    var rows := s.rows;
    NothingYielded(FilterStream(s, test));
    while rows != []
      invariant FilterStream(s, test) == Yielded(out, FilterStream(Stream(rows, s.error), test))
      decreases |rows|
    {
      FilterStep(FilterStream(s, test), out, rows, s.error, test);
      var passes := Matches(e, rows[0]);
      if passes.Err? {
        return Stream(out, Some(passes.error));
      }
      if passes.value {
        out := out + [rows[0]];
      }
      rows := rows[1..];
    }
    AllFiltered(out, s.error, test);
    return Stream(out, s.error);
  }

  lemma NothingYielded<T>(s: Stream<T>)
    ensures Yielded([], s) == s
  {
    assert [] + s.rows == s.rows;
  }

  lemma AllFiltered<T>(out: seq<T>, error: Option<Error>, test: T -> Result<bool>)
    ensures Yielded(out, FilterStream(Stream([], error), test)) == Stream(out, error)
  {
  }

  lemma AllMapped<T, U>(out: seq<U>, error: Option<Error>, f: T -> Result<U>)
    ensures Yielded(out, MapStream(Stream([], error), f)) == Stream(out, error)
  {
  }

  // One more row of a projection, or its error.
  lemma YieldStep<T, U>(all: Stream<U>, out: seq<U>, left: seq<T>, error: Option<Error>, f: T -> Result<U>)
    requires left != [] && all == Yielded(out, MapStream(Stream(left, error), f))
    ensures f(left[0]).Err? ==> all == Stream(out, Some(f(left[0]).error))
    ensures f(left[0]).Ok? ==> all == Yielded(out + [f(left[0]).value], MapStream(Stream(left[1..], error), f))
  {
    if f(left[0]).Ok? {
      var rest := MapStream(Stream(left[1..], error), f);
      assert out + ([f(left[0]).value] + rest.rows) == out + [f(left[0]).value] + rest.rows;
    }
  }

  method RunProjection(s: Stream<Row>, items: seq<(string, Expr)>) returns (r: Stream<Row>)
    ensures r == MapStream(s, Project(items))
  {
    hide MapStream, ProjectWith;
    ghost var f := Project(items);
    var out: seq<Row> := [];
    var rows := s.rows;
    NothingYielded(MapStream(s, f));
    while rows != []
      invariant MapStream(s, f) == Yielded(out, MapStream(Stream(rows, s.error), f))
      decreases |rows|
    {
      YieldStep(MapStream(s, f), out, rows, s.error, f);
      var projected := ProjectWith(items, RowReader(rows[0]));
      if projected.Err? {
        return Stream(out, Some(projected.error));
      }
      out := out + [projected.value];
      rows := rows[1..];
    }
    AllMapped(out, s.error, f);
    return Stream(out, s.error);
  }

  // Stops as soon as it has the count.
  method RunLimit<T>(s: Stream<T>, count: nat) returns (r: Stream<T>)
    ensures r == Take(s, count)
    ensures r == if count <= |s.rows| then Stream(s.rows[..count], None) else s
  {
    if count == 0 {
      return Stream([], None);
    }
    var out: seq<T> := [];
    for i := 0 to |s.rows|
      invariant i < count && out == s.rows[..i]
    {
      out := out + [s.rows[i]];
      if i + 1 >= count {
        return Stream(out, None);
      }
    }
    return Stream(out, s.error);
  }

  method RunJoin(ls: seq<Row>, rs: seq<Row>, leftKey: string, rightKey: string) returns (out: seq<Row>)
    ensures out == JoinRows(ls, rs, leftKey, rightKey)
  {
    out := [];
    var left := ls;
    while left != []
      invariant JoinRows(ls, rs, leftKey, rightKey) == out + JoinRows(left, rs, leftKey, rightKey)
      decreases |left|
    {
      ghost var before, more := out, JoinRow(left[0], rs, leftKey, rightKey);
      out := RunJoinRow(out, left[0], rs, leftKey, rightKey);
      ghost var rest := JoinRows(left[1..], rs, leftKey, rightKey);
      assert before + (more + rest) == before + more + rest;
      left := left[1..];
    }
  }

  // The inner loop, over the right rows.
  method RunJoinRow(before: seq<Row>, lr: Row, rs: seq<Row>, leftKey: string, rightKey: string) returns (out: seq<Row>)
    ensures out == before + JoinRow(lr, rs, leftKey, rightKey)
  {
    out := before;
    var right := rs;
    while right != []
      invariant before + JoinRow(lr, rs, leftKey, rightKey) == out + JoinRow(lr, right, leftKey, rightKey)
      decreases |right|
    {
      ghost var was := out;
      if Joins(lr, right[0], leftKey, rightKey) {
        out := out + [lr + right[0]];
        ghost var rest := JoinRow(lr, right[1..], leftKey, rightKey);
        assert was + ([lr + right[0]] + rest) == out + rest;
      } else {
        assert [] + JoinRow(lr, right[1..], leftKey, rightKey) == JoinRow(lr, right[1..], leftKey, rightKey);
      }
      right := right[1..];
    }
  }

  // Adds the table.column names one by one.
  method RunQualify(row: Row, table: string) returns (out: Row)
    ensures out == Qualify(row, table)
  {
    hide QualifiedNames;
    out := row;
    var todo := row.Keys;
    ghost var done: set<string> := {};
    NoNames(row, table);
    while todo != {}
      invariant todo + done == row.Keys && out == row + QualifiedNames(row, table, done)
      decreases |todo|
    {
      var col :| col in todo;
      QualifiedOneMore(row, table, done, col);
      out := out[table + "." + col := row[col]];
      done := done + {col};
      todo := todo - {col};
    }
    assert done == row.Keys;
  }

  lemma NoNames(row: Row, table: string)
    ensures row + QualifiedNames(row, table, {}) == row
  {
  }

  lemma QualifiedOneMore(row: Row, table: string, cols: set<string>, col: string)
    requires col in row && cols <= row.Keys
    ensures row + QualifiedNames(row, table, cols + {col})
            == (row + QualifiedNames(row, table, cols))[table + "." + col := row[col]]
  {
    var q := table + "." + col;
    assert q[|table| + 1..] == col;
    var few, more := QualifiedNames(row, table, cols), QualifiedNames(row, table, cols + {col});
    forall k | k in cols ensures (table + "." + k)[|table| + 1..] == k {
    }
    forall x ensures x in more <==> x in few || x == q {
    }
    assert more == few[q := row[col]];
  }

  method Run(plan: Plan, db: Database) returns (s: Stream<Row>)
    ensures s == Rows(plan, db)
  {
    match plan {
      case Scan(table, _) =>
        s := ScanRows(table, db);
      case Filter(e, child) =>
        var rows := Run(child, db);
        s := RunFilter(rows, e);
      case Projection(items, child) =>
        var rows := Run(child, db);
        s := RunProjection(rows, items);
      case Limit(n, child) =>
        var rows := Run(child, db);
        s := RunLimit(rows, n);
      case Sort(col, descending, child) =>
        var rows := Run(child, db);
        s := SortStream(rows, SortKey(col), descending);
      case JoinScans(lk, rk, left, right) =>
        if !left.Scan? || !right.Scan? {
          return Stream([], Some(LogicalError));
        }
        var ls := Run(left, db);
        if ls.error.Some? {
          return Stream([], ls.error);
        }
        var rs := Run(right, db);
        if rs.error.Some? {
          return Stream([], rs.error);
        }
        var lq := RunQualifyAll(ls.rows, left.table);
        var rq := RunQualifyAll(rs.rows, right.table);
        var joined := RunJoin(lq, rq, lk, rk);
        s := Stream(joined, None);
    }
  }

  method RunQualifyAll(rows: seq<Row>, table: string) returns (out: seq<Row>)
    ensures out == QualifyAll(rows, table)
  {
    hide Qualify;
    out := [];
    for i := 0 to |rows|
      invariant |out| == i && forall j :: 0 <= j < i ==> out[j] == Qualify(rows[j], table)
    {
      var row := RunQualify(rows[i], table);
      out := out + [row];
    }
  }
}
