// What a SELECT that is not grouped means, said over rows of its tables, and that
// the bound and executed plan gives exactly that.
module SelectMeaning {
  import opened Wrappers
  import opened SqlAst
  import opened Evaluate
  import opened Executor
  import opened Planner
  import Grouping

  // One row of each table in the FROM clause.
  type Env = seq<Row>

  predicate NoDot(s: string) {
    '.' !in s
  }

  // Table and column names are identifiers.
  ghost predicate CatalogOk(cat: Catalog) {
    forall t :: t in cat ==> NoDot(t) && forall c :: c in cat[t] ==> NoDot(c)
  }

  ghost predicate RowOk(row: Row, cols: seq<string>) {
    forall c :: c in row <==> c in cols
  }

  // Every table is there, and its rows have its columns.
  ghost predicate DatabaseOk(db: Database, cat: Catalog) {
    forall t :: t in cat ==> t in db && forall row :: row in db[t] ==> RowOk(row, cat[t])
  }

  // ------------------------------------------------------------------
  // The meaning
  // ------------------------------------------------------------------

  function Tables(stmt: Select): seq<string> {
    if stmt.join.Some? then [stmt.table, stmt.join.value.table] else [stmt.table]
  }

  // Whether a reference names a column of a table.
  predicate Owns(table: string, cat: Catalog, ref: ColumnRef) {
    table in cat && ref.name in cat[table] && (ref.table.None? || ref.table.value == table)
  }

  // Which of the tables a reference names a column of.
  function OwnerOf(tables: seq<string>, cat: Catalog, ref: ColumnRef): (owner: Option<nat>)
    ensures owner.Some? ==> owner.value < |tables|
  {
    if tables == [] then None
    else if Owns(tables[0], cat, ref) then Some(0)
    else
      match OwnerOf(tables[1..], cat, ref)
      case None => None
      case Some(i) => Some(i + 1)
  }

  // The owner table's value.
  function EnvReader(tables: seq<string>, cat: Catalog, env: Env): Reader {
    (ref: ColumnRef) =>
      match OwnerOf(tables, cat, ref)
      case Some(i) => if i < |env| && ref.name in env[i] then Ok(env[i][ref.name]) else Err(LogicalError)
      case None => Err(LogicalError)
  }

  function ValueIn(tables: seq<string>, cat: Catalog, env: Env, ref: ColumnRef): Value {
    match EnvReader(tables, cat, env)(ref)
    case Ok(v) => v
    case Err(_) => NullValue
  }

  function Singles(rows: seq<Row>): (r: seq<Env>)
    ensures |r| == |rows|
  {
    seq(|rows|, i requires 0 <= i < |rows| => [rows[i]])
  }

  // The ON condition: both columns are equal and not null.
  predicate OnHolds(tables: seq<string>, cat: Catalog, join: Join, env: Env) {
    var v := ValueIn(tables, cat, env, join.left);
    v == ValueIn(tables, cat, env, join.right) && !v.NullValue?
  }

  // The pairs of rows the ON condition holds for, left rows first.
  function PairsWith(l: Row, rs: seq<Row>, tables: seq<string>, cat: Catalog, join: Join): seq<Env> {
    if rs == [] then []
    else
      (if OnHolds(tables, cat, join, [l, rs[0]]) then [[l, rs[0]]] else []) + PairsWith(l, rs[1..], tables, cat, join)
  }

  function Pairs(ls: seq<Row>, rs: seq<Row>, tables: seq<string>, cat: Catalog, join: Join): seq<Env> {
    if ls == [] then [] else PairsWith(ls[0], rs, tables, cat, join) + Pairs(ls[1..], rs, tables, cat, join)
  }

  function Source(stmt: Select, cat: Catalog, db: Database): seq<Env>
    requires forall t :: t in Tables(stmt) ==> t in db
  {
    assert stmt.table == Tables(stmt)[0];
    match stmt.join
    case None => Singles(db[stmt.table])
    case Some(join) =>
      assert join.table == Tables(stmt)[1];
      Pairs(db[stmt.table], db[join.table], Tables(stmt), cat, join)
  }

  // The WHERE test, the projection and the ORDER BY key, over the tables' rows.
  function EnvTest(e: Expr, tables: seq<string>, cat: Catalog): Env -> Result<bool> {
    (env: Env) => MatchesWith(e, EnvReader(tables, cat, env))
  }

  function EnvProject(items: seq<(string, Expr)>, tables: seq<string>, cat: Catalog): Env -> Result<Row> {
    (env: Env) => ProjectWith(items, EnvReader(tables, cat, env))
  }

  function EnvKey(col: string, tables: seq<string>, cat: Catalog): Env -> Value {
    (env: Env) => ValueIn(tables, cat, env, ColumnRef(col, None))
  }

  // The rows WHERE lets through.
  function Qualifying(stmt: Select, cat: Catalog, db: Database): Stream<Env>
    requires forall t :: t in Tables(stmt) ==> t in db
  {
    var source := Stream(Source(stmt, cat, db), None);
    if stmt.where.None? then source else FilterStream(source, EnvTest(stmt.where.value, Tables(stmt), cat))
  }

  function SortedEnvs(stmt: Select, cat: Catalog, s: Stream<Env>): Stream<Env> {
    if stmt.orderBy.None? then s
    else SortStream(s, EnvKey(stmt.orderBy.value.column, Tables(stmt), cat), stmt.orderBy.value.descending)
  }

  // limit(project(sort(filter(source))))
  function Meaning(stmt: Select, cat: Catalog, db: Database, items: seq<(string, Expr)>): Stream<Row>
    requires forall t :: t in Tables(stmt) ==> t in db
  {
    var ts := Tables(stmt);
    var projected := MapStream(SortedEnvs(stmt, cat, Qualifying(stmt, cat, db)), EnvProject(items, ts, cat));
    if stmt.limit.None? then projected else Take(projected, stmt.limit.value)
  }

  // ------------------------------------------------------------------
  // Names in merged rows
  // ------------------------------------------------------------------

  lemma {:induction false} BeforeDotOf(t: string, c: string)
    requires NoDot(t)
    ensures BeforeDot(t + "." + c) == t
  {
    if t == "" {
      assert t + "." + c == "." + c;
    } else {
      assert (t + "." + c)[1..] == t[1..] + "." + c;
      BeforeDotOf(t[1..], c);
    }
  }

  // A qualified name says its table and its column.
  lemma DotSplits(t: string, c: string, u: string, d: string)
    requires NoDot(t) && NoDot(u)
    ensures t + "." + c == u + "." + d <==> t == u && c == d
  {
    if t + "." + c == u + "." + d {
      BeforeDotOf(t, c);
      BeforeDotOf(u, d);
      assert (t + "." + c)[|t| + 1..] == c && (u + "." + d)[|u| + 1..] == d;
    }
  }

  lemma HasDot(t: string, c: string)
    ensures '.' in t + "." + c
  {
    assert (t + "." + c)[|t|] == '.';
  }

  // What a qualified row holds under a bare and under a qualified name.
  lemma QualifiedBare(row: Row, table: string, c: string)
    requires NoDot(c)
    ensures c in Qualify(row, table) <==> c in row
    ensures c in row ==> Qualify(row, table)[c] == row[c]
  {
    forall k | k in row.Keys ensures table + "." + k != c {
      HasDot(table, k);
    }
  }

  lemma QualifiedFull(row: Row, table: string, u: string, c: string)
    requires NoDot(table) && NoDot(u) && forall k :: k in row ==> NoDot(k)
    ensures u + "." + c in Qualify(row, table) <==> u == table && c in row
    ensures u == table && c in row ==> Qualify(row, table)[u + "." + c] == row[c]
  {
    var q := u + "." + c;
    HasDot(u, c);
    assert q !in row;
    assert q[|u| + 1..] == c;
    if u == table && c in row {
      assert q in (set k | k in row.Keys :: table + "." + k);
    }
    forall k | k in row.Keys ensures table + "." + k == q <==> table == u && k == c {
      DotSplits(table, k, u, c);
    }
  }

  // The row the executor makes of one row of each table.
  function Merge(tables: seq<string>, env: Env): Row {
    if |tables| == 2 == |env| then Qualify(env[0], tables[0]) + Qualify(env[1], tables[1])
    else if |env| == 1 then env[0] else map[]
  }

  ghost predicate EnvOk(tables: seq<string>, cat: Catalog, env: Env) {
    |env| == |tables| && forall i :: 0 <= i < |env| ==> tables[i] in cat && RowOk(env[i], cat[tables[i]])
  }

  // The tables of a statement the theorem is about: one, or two different ones.
  predicate TablesOk(tables: seq<string>) {
    |tables| == 1 || (|tables| == 2 && tables[0] != tables[1])
  }

  function ScopeOf(tables: seq<string>, cat: Catalog): Scope
    requires forall t :: t in tables ==> t in cat
  {
    Scope(tables, map t | t in tables :: cat[t])
  }

  lemma OwnersOfTwo(tables: seq<string>, scope: Scope, name: string)
    requires |tables| <= 2
    ensures Owners(tables, scope, name) ==
      (if |tables| > 0 && HasColumn(scope, tables[0], name) then [tables[0]] else [])
      + (if |tables| > 1 && HasColumn(scope, tables[1], name) then [tables[1]] else [])
  {
    if |tables| == 2 {
      assert tables[1..] == [tables[1]] && [tables[1]][1..] == [];
    } else if |tables| == 1 {
      assert tables[1..] == [];
    }
  }

  lemma OwnerOfTwo(tables: seq<string>, cat: Catalog, ref: ColumnRef)
    requires |tables| <= 2
    ensures OwnerOf(tables, cat, ref) ==
      if |tables| > 0 && Owns(tables[0], cat, ref) then Some(0)
      else if |tables| > 1 && Owns(tables[1], cat, ref) then Some(1) else None
  {
    if |tables| == 2 {
      assert tables[1..] == [tables[1]] && [tables[1]][1..] == [];
    } else if |tables| == 1 {
      assert tables[1..] == [];
    }
  }

  // Each name the binder accepts reads its owner table's value from the merged row.
  lemma NameReadsOwner(tables: seq<string>, cat: Catalog, env: Env, ref: ColumnRef)
    requires CatalogOk(cat) && TablesOk(tables) && EnvOk(tables, cat, env)
    requires Resolve(ScopeOf(tables, cat), ref).Ok? && (|tables| == 1 ==> ref.table.None?)
    ensures OwnerOf(tables, cat, ref).Some?
    ensures var i := OwnerOf(tables, cat, ref).value;
      && ref.name in env[i] && KeyOf(ref) in Merge(tables, env)
      && Merge(tables, env)[KeyOf(ref)] == env[i][ref.name]
  {
    OwnersOfTwo(tables, ScopeOf(tables, cat), ref.name);
    OwnerOfTwo(tables, cat, ref);
    var i := OwnerOf(tables, cat, ref).value;
    if |tables| == 2 {
      MergedName(tables, cat, env, ref, i);
    }
  }

  lemma MergedBare(l: Row, r: Row, t0: string, t1: string, c: string)
    requires NoDot(c)
    ensures var m := Qualify(l, t0) + Qualify(r, t1);
      && (c in m <==> c in l || c in r)
      && (c in r ==> m[c] == r[c]) && (c in l && c !in r ==> m[c] == l[c])
  {
    hide Qualify;
    QualifiedBare(l, t0, c);
    QualifiedBare(r, t1, c);
  }

  lemma MergedFull(l: Row, r: Row, t0: string, t1: string, u: string, c: string)
    requires NoDot(t0) && NoDot(t1) && t0 != t1 && NoDot(u)
    requires (forall k :: k in l ==> NoDot(k)) && (forall k :: k in r ==> NoDot(k))
    ensures var m := Qualify(l, t0) + Qualify(r, t1);
      && (u == t0 && c in l ==> u + "." + c in m && m[u + "." + c] == l[c])
      && (u == t1 && c in r ==> u + "." + c in m && m[u + "." + c] == r[c])
  {
    hide Qualify, NoDot;
    QualifiedFull(l, t0, u, c);
    QualifiedFull(r, t1, u, c);
  }

  lemma EnvNames(tables: seq<string>, cat: Catalog, env: Env, i: nat)
    requires CatalogOk(cat) && EnvOk(tables, cat, env) && i < |env|
    ensures NoDot(tables[i]) && forall k :: k in env[i] ==> NoDot(k)
  {
    hide NoDot;
    assert RowOk(env[i], cat[tables[i]]);
  }

  lemma MergedName(tables: seq<string>, cat: Catalog, env: Env, ref: ColumnRef, i: nat)
    requires CatalogOk(cat) && |tables| == 2 && tables[0] != tables[1] && EnvOk(tables, cat, env)
    requires i < 2 && ref.name in env[i]
    requires if ref.table.Some? then ref.table.value == tables[i] else ref.name !in env[1 - i]
    ensures KeyOf(ref) in Merge(tables, env) && Merge(tables, env)[KeyOf(ref)] == env[i][ref.name]
  {
    hide Qualify, CatalogOk, NoDot;
    EnvNames(tables, cat, env, 0);
    EnvNames(tables, cat, env, 1);
    if ref.table.None? {
      MergedBare(env[0], env[1], tables[0], tables[1], ref.name);
    } else {
      MergedFull(env[0], env[1], tables[0], tables[1], tables[i], ref.name);
    }
  }

  // In a query over one table a name the binder accepts can be read from a row
  // exactly when it is not qualified.
  lemma QualifiedNameFails(tables: seq<string>, cat: Catalog, env: Env, ref: ColumnRef)
    requires CatalogOk(cat) && |tables| == 1 && EnvOk(tables, cat, env) && Resolve(ScopeOf(tables, cat), ref).Ok?
    ensures RowReader(Merge(tables, env))(ref).Ok? <==> ref.table.None?
  {
    if ref.table.None? {
      NameReadsOwner(tables, cat, env, ref);
    } else {
      HasDot(ref.table.value, ref.name);
      EnvNames(tables, cat, env, 0);
    }
  }

  // Such a statement: SELECT t.c FROM t binds for every column c of every table t, and
  // its plan fails on the first row.
  lemma QualifiedNameBinds(t: string, c: string, cat: Catalog, db: Database)
    requires CatalogOk(cat) && DatabaseOk(db, cat) && t in cat && c in cat[t]
    ensures var stmt := Select(Some([Column(ColumnRef(c, Some(t)))]), t, None, None, None, None, None);
      && IsPlain(stmt) && SelectPlan(stmt, cat).Ok?
      && (db[t] != [] ==> Rows(SelectPlan(stmt, cat).value, db) == Stream([], Some(LogicalError)))
  {
    var ref := ColumnRef(c, Some(t));
    var items := Labelled([Column(ref)]);
    assert items == [(LabelOf(Column(ref)), Column(ref))];
    if db[t] != [] {
      var row := db[t][0];
      assert row in db[t] && [row] != [];
      assert ScopeOf([t], cat) == Scope([t], map[t := cat[t]]);
      QualifiedNameFails([t], cat, [row], ref);
      assert items[..0] == [] && ProjectWith(items, RowReader(row)) == Err(LogicalError);
    }
  }

  // ------------------------------------------------------------------
  // Operators on merged rows
  // ------------------------------------------------------------------

  function MergeAll(tables: seq<string>, envs: seq<Env>): (r: seq<Row>)
    ensures |r| == |envs|
  {
    seq(|envs|, i requires 0 <= i < |envs| => Merge(tables, envs[i]))
  }

  function Merged(tables: seq<string>, s: Stream<Env>): Stream<Row> {
    Stream(MergeAll(tables, s.rows), s.error)
  }

  lemma MergeStep(tables: seq<string>, envs: seq<Env>)
    requires envs != []
    ensures MergeAll(tables, envs) == [Merge(tables, envs[0])] + MergeAll(tables, envs[1..])
    ensures MergeAll(tables, envs)[1..] == MergeAll(tables, envs[1..])
  {
  }

  lemma MergeConcat(tables: seq<string>, a: seq<Env>, b: seq<Env>)
    ensures MergeAll(tables, a + b) == MergeAll(tables, a) + MergeAll(tables, b)
  {
  }

  // Filtering merged rows is merging filtered rows.
  lemma {:induction false} FilterMerged(tables: seq<string>, s: Stream<Env>, p: Row -> Result<bool>,
                                        q: Env -> Result<bool>)
    requires forall i :: 0 <= i < |s.rows| ==> p(Merge(tables, s.rows[i])) == q(s.rows[i])
    ensures FilterStream(Merged(tables, s), p) == Merged(tables, FilterStream(s, q))
    ensures forall env :: env in FilterStream(s, q).rows ==> env in s.rows
    decreases |s.rows|
  {
    if s.rows == [] {
    } else {
      MergeStep(tables, s.rows);
      FilterMerged(tables, Tail(s), p, q);
      assert Tail(Merged(tables, s)) == Merged(tables, Tail(s));
      var rest := FilterStream(Tail(s), q);
      MergeConcat(tables, [s.rows[0]], rest.rows);
      assert MergeAll(tables, [s.rows[0]]) == [Merge(tables, s.rows[0])];
      assert forall env :: env in s.rows[1..] ==> env in s.rows;
    }
  }

  lemma {:induction false} MapMerged(tables: seq<string>, s: Stream<Env>, f: Row -> Result<Row>, g: Env -> Result<Row>)
    requires forall i :: 0 <= i < |s.rows| ==> f(Merge(tables, s.rows[i])) == g(s.rows[i])
    ensures MapStream(Merged(tables, s), f) == MapStream(s, g)
    decreases |s.rows|
  {
    if s.rows == [] {
    } else {
      MergeStep(tables, s.rows);
      MapMerged(tables, Tail(s), f, g);
      assert Tail(Merged(tables, s)) == Merged(tables, Tail(s));
    }
  }

  lemma {:induction false} InsertMerged(tables: seq<string>, x: Env, sorted: seq<Env>, k: Row -> Value,
                                          l: Env -> Value, descending: bool)
    requires k(Merge(tables, x)) == l(x)
    requires forall i :: 0 <= i < |sorted| ==> k(Merge(tables, sorted[i])) == l(sorted[i])
    ensures InsertSorted(Merge(tables, x), MergeAll(tables, sorted), k, descending)
            == MergeAll(tables, InsertSorted(x, sorted, l, descending))
    decreases sorted
  {
    MergeConcat(tables, [x], sorted);
    assert MergeAll(tables, [x]) == [Merge(tables, x)];
    if sorted == [] {
    } else {
      MergeStep(tables, sorted);
      InsertMerged(tables, x, sorted[1..], k, l, descending);
      var rest := InsertSorted(x, sorted[1..], l, descending);
      MergeConcat(tables, [sorted[0]], rest);
      assert MergeAll(tables, [sorted[0]]) == [Merge(tables, sorted[0])];
    }
  }

  lemma {:induction false} SortMerged(tables: seq<string>, envs: seq<Env>, k: Row -> Value, l: Env -> Value,
                                      descending: bool)
    requires forall env :: env in envs ==> k(Merge(tables, env)) == l(env)
    ensures StableSort(MergeAll(tables, envs), k, descending) == MergeAll(tables, StableSort(envs, l, descending))
  {
    if envs == [] {
    } else {
      MergeStep(tables, envs);
      assert forall env :: env in envs[1..] ==> env in envs;
      SortMerged(tables, envs[1..], k, l, descending);
      var sorted := StableSort(envs[1..], l, descending);
      SortMembers(envs[1..], l, descending);
      forall i | 0 <= i < |sorted| ensures k(Merge(tables, sorted[i])) == l(sorted[i]) {
        assert sorted[i] in sorted;
      }
      assert envs[0] in envs;
      InsertMerged(tables, envs[0], sorted, k, l, descending);
    }
  }

  // ------------------------------------------------------------------
  // Readers agree
  // ------------------------------------------------------------------

  lemma {:induction false} RefsResolve(e: Expr, scope: Scope, c: ColumnRef)
    requires ExprOk(e, scope) && c in Refs(e)
    ensures Resolve(scope, c).Ok?
  {
    match e
    case Compare(_, l, r) =>
      if c in Refs(l) {
        RefsResolve(l, scope, c);
      } else {
        RefsResolve(r, scope, c);
      }
    case Logic(_, l, r) =>
      if c in Refs(l) {
        RefsResolve(l, scope, c);
      } else {
        RefsResolve(r, scope, c);
      }
    case _ =>
  }

  // References without a table, in a statement over one table.
  predicate Bare(e: Expr) {
    forall c :: c in Refs(e) ==> c.table.None?
  }

  lemma ReaderAgrees(tables: seq<string>, cat: Catalog, env: Env, e: Expr)
    requires CatalogOk(cat) && TablesOk(tables) && EnvOk(tables, cat, env) && ExprOk(e, ScopeOf(tables, cat))
    requires |tables| == 1 ==> Bare(e)
    ensures EvalWith(e, RowReader(Merge(tables, env))) == EvalWith(e, EnvReader(tables, cat, env))
  {
    forall c | c in Refs(e) ensures RowReader(Merge(tables, env))(c) == EnvReader(tables, cat, env)(c) {
      RefsResolve(e, ScopeOf(tables, cat), c);
      NameReadsOwner(tables, cat, env, c);
    }
    EvalAgrees(e, RowReader(Merge(tables, env)), EnvReader(tables, cat, env));
  }

  predicate ItemsOk(items: seq<(string, Expr)>, tables: seq<string>, cat: Catalog)
    requires forall t :: t in tables ==> t in cat
  {
    forall i :: 0 <= i < |items| ==> ExprOk(items[i].1, ScopeOf(tables, cat)) && (|tables| == 1 ==> Bare(items[i].1))
  }

  lemma {:induction false} ItemsAgree(tables: seq<string>, cat: Catalog, env: Env, items: seq<(string, Expr)>)
    requires CatalogOk(cat) && TablesOk(tables) && EnvOk(tables, cat, env) && ItemsOk(items, tables, cat)
    ensures ProjectWith(items, RowReader(Merge(tables, env))) == ProjectWith(items, EnvReader(tables, cat, env))
  {
    if items == [] {
    } else {
      ItemsAgree(tables, cat, env, items[..|items| - 1]);
      ReaderAgrees(tables, cat, env, items[|items| - 1].1);
    }
  }

  // ------------------------------------------------------------------
  // The source
  // ------------------------------------------------------------------

  ghost predicate AllOk(tables: seq<string>, cat: Catalog, envs: seq<Env>) {
    forall env :: env in envs ==> EnvOk(tables, cat, env)
  }

  // The ON keys a plan uses: one of each table, naming the columns ON names.
  ghost predicate Oriented(join: Join, tables: seq<string>, cat: Catalog, leftKey: string, rightKey: string)
    requires forall t :: t in tables ==> t in cat
  {
    var scope := ScopeOf(tables, cat);
    || (Resolve(scope, join.left) == Ok(leftKey) && Resolve(scope, join.right) == Ok(rightKey)
        && OwnerOf(tables, cat, join.left) == Some(0) && OwnerOf(tables, cat, join.right) == Some(1))
    || (Resolve(scope, join.left) == Ok(rightKey) && Resolve(scope, join.right) == Ok(leftKey)
        && OwnerOf(tables, cat, join.left) == Some(1) && OwnerOf(tables, cat, join.right) == Some(0))
  }

  // A resolved name under a join is its owner's qualified name.
  lemma ResolvedName(tables: seq<string>, cat: Catalog, ref: ColumnRef)
    requires CatalogOk(cat) && |tables| == 2 && tables[0] != tables[1] && (forall t :: t in tables ==> t in cat)
    requires Resolve(ScopeOf(tables, cat), ref).Ok?
    ensures OwnerOf(tables, cat, ref).Some?
    ensures var t := tables[OwnerOf(tables, cat, ref).value];
      && Resolve(ScopeOf(tables, cat), ref) == Ok(t + "." + ref.name) && ref.name in cat[t]
      && BeforeDot(t + "." + ref.name) == t
  {
    OwnersOfTwo(tables, ScopeOf(tables, cat), ref.name);
    OwnerOfTwo(tables, cat, ref);
    BeforeDotOf(tables[OwnerOf(tables, cat, ref).value], ref.name);
  }

  // The value a side's row has under its qualified join key.
  lemma SideValue(tables: seq<string>, cat: Catalog, env: Env, ref: ColumnRef, i: nat)
    requires CatalogOk(cat) && |tables| == 2 && EnvOk(tables, cat, env) && i < 2
    requires OwnerOf(tables, cat, ref) == Some(i) && ref.name in cat[tables[i]]
    ensures Grouping.Field(Qualify(env[i], tables[i]), tables[i] + "." + ref.name) == ValueIn(tables, cat, env, ref)
  {
    EnvNames(tables, cat, env, i);
    assert RowOk(env[i], cat[tables[i]]);
    QualifiedFull(env[i], tables[i], tables[i], ref.name);
  }

  lemma OnIsJoins(tables: seq<string>, cat: Catalog, join: Join, env: Env, leftKey: string, rightKey: string)
    requires CatalogOk(cat) && |tables| == 2 && tables[0] != tables[1] && EnvOk(tables, cat, env)
    requires Oriented(join, tables, cat, leftKey, rightKey)
    ensures Joins(Qualify(env[0], tables[0]), Qualify(env[1], tables[1]), leftKey, rightKey)
            == OnHolds(tables, cat, join, env)
  {
    hide Qualify, EnvReader;
    ResolvedName(tables, cat, join.left);
    ResolvedName(tables, cat, join.right);
    if OwnerOf(tables, cat, join.left) == Some(0) {
      SideValue(tables, cat, env, join.left, 0);
      SideValue(tables, cat, env, join.right, 1);
    } else {
      SideValue(tables, cat, env, join.left, 1);
      SideValue(tables, cat, env, join.right, 0);
    }
  }

  lemma PairOk(tables: seq<string>, cat: Catalog, l: Row, r: Row)
    requires |tables| == 2 && tables[0] in cat && tables[1] in cat && RowOk(l, cat[tables[0]])
    requires RowOk(r, cat[tables[1]])
    ensures EnvOk(tables, cat, [l, r])
  {
  }

  lemma {:induction false} JoinRowMeaning(tables: seq<string>, cat: Catalog, join: Join, l: Row, rs: seq<Row>,
                                            leftKey: string, rightKey: string)
    requires CatalogOk(cat) && |tables| == 2 && tables[0] != tables[1] && (forall t :: t in tables ==> t in cat)
    requires RowOk(l, cat[tables[0]]) && (forall r :: r in rs ==> RowOk(r, cat[tables[1]]))
    requires Oriented(join, tables, cat, leftKey, rightKey)
    ensures var envs := PairsWith(l, rs, tables, cat, join);
      && JoinRow(Qualify(l, tables[0]), QualifyAll(rs, tables[1]), leftKey, rightKey) == MergeAll(tables, envs)
      && AllOk(tables, cat, envs)
    decreases rs
  {
    hide Qualify, Oriented, OnHolds, Joins;
    if rs == [] {
    } else {
      PairOk(tables, cat, l, rs[0]);
      OnIsJoins(tables, cat, join, [l, rs[0]], leftKey, rightKey);
      assert forall r :: r in rs[1..] ==> r in rs;
      JoinRowMeaning(tables, cat, join, l, rs[1..], leftKey, rightKey);
      assert QualifyAll(rs, tables[1])[1..] == QualifyAll(rs[1..], tables[1]);
      var rest := PairsWith(l, rs[1..], tables, cat, join);
      MergeConcat(tables, [[l, rs[0]]], rest);
      MergeConcat(tables, [], rest);
      assert MergeAll(tables, [[l, rs[0]]]) == [Qualify(l, tables[0]) + Qualify(rs[0], tables[1])];
    }
  }

  lemma {:induction false} JoinMeaning(tables: seq<string>, cat: Catalog, join: Join, ls: seq<Row>, rs: seq<Row>,
                                         leftKey: string, rightKey: string)
    requires CatalogOk(cat) && |tables| == 2 && tables[0] != tables[1] && (forall t :: t in tables ==> t in cat)
    requires (forall l :: l in ls ==> RowOk(l, cat[tables[0]])) && (forall r :: r in rs ==> RowOk(r, cat[tables[1]]))
    requires Oriented(join, tables, cat, leftKey, rightKey)
    ensures var envs := Pairs(ls, rs, tables, cat, join);
      && JoinRows(QualifyAll(ls, tables[0]), QualifyAll(rs, tables[1]), leftKey, rightKey) == MergeAll(tables, envs)
      && AllOk(tables, cat, envs)
    decreases ls
  {
    hide Qualify, Oriented, JoinRow, PairsWith;
    if ls == [] {
    } else {
      JoinRowMeaning(tables, cat, join, ls[0], rs, leftKey, rightKey);
      assert forall l :: l in ls[1..] ==> l in ls;
      JoinMeaning(tables, cat, join, ls[1..], rs, leftKey, rightKey);
      assert QualifyAll(ls, tables[0])[1..] == QualifyAll(ls[1..], tables[0]);
      MergeConcat(tables, PairsWith(ls[0], rs, tables, cat, join), Pairs(ls[1..], rs, tables, cat, join));
    }
  }

  lemma ScopeBuilt(stmt: Select, cat: Catalog)
    requires CatalogOk(cat) && TablesOk(Tables(stmt)) && BuildScope(stmt, cat).Ok?
    ensures forall t :: t in Tables(stmt) ==> t in cat
    ensures var (source, scope) := BuildScope(stmt, cat).value;
      && scope == ScopeOf(Tables(stmt), cat)
      && (stmt.join.None? ==> source == Scan(stmt.table, cat[stmt.table]))
      && (stmt.join.Some? ==>
            && source.JoinScans? && source.left == Scan(stmt.table, cat[stmt.table])
            && source.right == Scan(stmt.join.value.table, cat[stmt.join.value.table])
            && Oriented(stmt.join.value, Tables(stmt), cat, source.leftKey, source.rightKey))
  {
    var ts := Tables(stmt);
    assert stmt.table in cat;
    assert ScopeOf(ts, cat).byTable == BuildScope(stmt, cat).value.1.byTable;
    if stmt.join.Some? {
      var join := stmt.join.value;
      assert ts[1] == join.table;
      ResolvedName(ts, cat, join.left);
      ResolvedName(ts, cat, join.right);
    }
  }

  // The rows the source yields are the merged rows of its meaning.
  lemma SourceMeaning(stmt: Select, cat: Catalog, db: Database)
    requires CatalogOk(cat) && DatabaseOk(db, cat) && TablesOk(Tables(stmt)) && BuildScope(stmt, cat).Ok?
    ensures forall t :: t in Tables(stmt) ==> t in cat && t in db
    ensures var envs := Source(stmt, cat, db);
      && Rows(BuildScope(stmt, cat).value.0, db) == Merged(Tables(stmt), Stream(envs, None))
      && AllOk(Tables(stmt), cat, envs)
  {
    hide DatabaseOk, Oriented, JoinRows, Pairs, Singles;
    ScopeBuilt(stmt, cat);
    var ts := Tables(stmt);
    TableRows(stmt, cat, db);
    if stmt.join.Some? {
      var source := BuildScope(stmt, cat).value.0;
      assert ts[0] in cat && ts[1] in cat;
      JoinMeaning(ts, cat, stmt.join.value, db[ts[0]], db[ts[1]], source.leftKey, source.rightKey);
    } else {
      SinglesMeaning(ts, cat, db[stmt.table]);
    }
  }

  lemma TableRows(stmt: Select, cat: Catalog, db: Database)
    requires DatabaseOk(db, cat) && forall t :: t in Tables(stmt) ==> t in cat
    ensures forall t :: t in Tables(stmt) ==> t in db && forall row :: row in db[t] ==> RowOk(row, cat[t])
  {
  }

  lemma SinglesMeaning(tables: seq<string>, cat: Catalog, rows: seq<Row>)
    requires |tables| == 1 && tables[0] in cat && forall row :: row in rows ==> RowOk(row, cat[tables[0]])
    ensures MergeAll(tables, Singles(rows)) == rows && AllOk(tables, cat, Singles(rows))
  {
  }

  // ------------------------------------------------------------------
  // The plan means the statement
  // ------------------------------------------------------------------

  // Statements whose FROM and WHERE mean what they say: two different tables, or one
  // table and no qualified names.
  predicate SourceIntended(stmt: Select) {
    TablesOk(Tables(stmt)) && (stmt.join.None? && stmt.where.Some? ==> Bare(stmt.where.value))
  }

  // And so do their projections.
  predicate Intended(stmt: Select) {
    && SourceIntended(stmt)
    && (stmt.join.None? && stmt.projections.Some? ==>
          forall i :: 0 <= i < |stmt.projections.value| ==> Bare(stmt.projections.value[i]))
  }

  lemma FilterMeaning(tables: seq<string>, cat: Catalog, s: Stream<Env>, e: Expr)
    requires CatalogOk(cat) && TablesOk(tables) && AllOk(tables, cat, s.rows) && (forall t :: t in tables ==> t in cat)
    requires ExprOk(e, ScopeOf(tables, cat)) && (|tables| == 1 ==> Bare(e))
    ensures var filtered := FilterStream(s, EnvTest(e, tables, cat));
      && FilterStream(Merged(tables, s), Test(e)) == Merged(tables, filtered)
      && AllOk(tables, cat, filtered.rows)
  {
    var p, q := Test(e), EnvTest(e, tables, cat);
    forall i | 0 <= i < |s.rows| ensures p(Merge(tables, s.rows[i])) == q(s.rows[i]) {
      assert s.rows[i] in s.rows;
      ReaderAgrees(tables, cat, s.rows[i], e);
    }
    FilterMerged(tables, s, p, q);
  }

  lemma SortMeaning(tables: seq<string>, cat: Catalog, s: Stream<Env>, col: string, descending: bool)
    requires CatalogOk(cat) && TablesOk(tables) && AllOk(tables, cat, s.rows) && (forall t :: t in tables ==> t in cat)
    requires ResolveName(ScopeOf(tables, cat), col).Ok?
    ensures var sorted := SortStream(s, EnvKey(col, tables, cat), descending);
      && SortStream(Merged(tables, s), SortKey(col), descending) == Merged(tables, sorted)
      && AllOk(tables, cat, sorted.rows)
  {
    var ref := ColumnRef(col, None);
    var k, l := SortKey(col), EnvKey(col, tables, cat);
    forall env | env in s.rows ensures k(Merge(tables, env)) == l(env) {
      NameReadsOwner(tables, cat, env, ref);
    }
    SortMerged(tables, s.rows, k, l, descending);
    SortMembers(s.rows, l, descending);
  }

  lemma ProjectMeaning(tables: seq<string>, cat: Catalog, s: Stream<Env>, items: seq<(string, Expr)>)
    requires CatalogOk(cat) && TablesOk(tables) && AllOk(tables, cat, s.rows) && (forall t :: t in tables ==> t in cat)
    requires ItemsOk(items, tables, cat)
    ensures MapStream(Merged(tables, s), Project(items))
            == MapStream(s, EnvProject(items, tables, cat))
  {
    var f, g := Project(items), EnvProject(items, tables, cat);
    forall i | 0 <= i < |s.rows| ensures f(Merge(tables, s.rows[i])) == g(s.rows[i]) {
      assert s.rows[i] in s.rows;
      ItemsAgree(tables, cat, s.rows[i], items);
    }
    MapMerged(tables, s, f, g);
  }

  // SELECT * lists columns the scope resolves.
  lemma {:induction false} StarOk(ts: seq<string>, tables: seq<string>, cat: Catalog)
    requires TablesOk(tables) && (forall t :: t in tables ==> t in cat) && (forall t :: t in ts ==> t in tables)
    ensures ItemsOk(AllColumns(ScopeOf(tables, cat), ts), tables, cat)
    decreases ts
  {
    if ts == [] {
    } else {
      assert ts[0] in ts && forall t :: t in ts[1..] ==> t in ts;
      StarOk(ts[1..], tables, cat);
      var scope := ScopeOf(tables, cat);
      var cols := TableColumns(ts[0], scope.byTable[ts[0]], |tables| > 1);
      forall i | 0 <= i < |cols| ensures ExprOk(cols[i].1, scope) && (|tables| == 1 ==> Bare(cols[i].1)) {
        OwnersOfTwo(tables, scope, scope.byTable[ts[0]][i]);
      }
    }
  }

  lemma ItemsAreOk(stmt: Select, cat: Catalog)
    requires Intended(stmt) && (forall t :: t in Tables(stmt) ==> t in cat)
    requires ProjectionItems(stmt, ScopeOf(Tables(stmt), cat)).Ok?
    ensures ItemsOk(ProjectionItems(stmt, ScopeOf(Tables(stmt), cat)).value, Tables(stmt), cat)
  {
    if stmt.projections.None? {
      StarOk(Tables(stmt), Tables(stmt), cat);
    }
  }

  // The filtered source yields the merged rows WHERE lets through.
  lemma FilteredMeaning(stmt: Select, cat: Catalog, db: Database)
    requires CatalogOk(cat) && DatabaseOk(db, cat) && SourceIntended(stmt) && BuildScope(stmt, cat).Ok?
    requires stmt.where.Some? ==> ExprOk(stmt.where.value, BuildScope(stmt, cat).value.1)
    ensures forall t :: t in Tables(stmt) ==> t in cat && t in db
    ensures BuildScope(stmt, cat).value.1 == ScopeOf(Tables(stmt), cat)
    ensures Rows(Filtered(stmt, BuildScope(stmt, cat).value.0), db) == Merged(Tables(stmt), Qualifying(stmt, cat, db))
    ensures AllOk(Tables(stmt), cat, Qualifying(stmt, cat, db).rows)
  {
    hide ExprOk, Source, FilterStream, DatabaseOk, CatalogOk, AllOk, Bare;
    ScopeBuilt(stmt, cat);
    SourceMeaning(stmt, cat, db);
    if stmt.where.Some? {
      FilterMeaning(Tables(stmt), cat, Stream(Source(stmt, cat, db), None), stmt.where.value);
    }
  }

  lemma SortedMeaning(stmt: Select, cat: Catalog, db: Database, node: Plan, s: Stream<Env>)
    requires CatalogOk(cat) && TablesOk(Tables(stmt)) && (forall t :: t in Tables(stmt) ==> t in cat)
    requires Rows(node, db) == Merged(Tables(stmt), s) && AllOk(Tables(stmt), cat, s.rows)
    requires stmt.orderBy.Some? ==> ResolveName(ScopeOf(Tables(stmt), cat), stmt.orderBy.value.column).Ok?
    ensures Rows(Sorted(stmt, node), db) == Merged(Tables(stmt), SortedEnvs(stmt, cat, s))
    ensures AllOk(Tables(stmt), cat, SortedEnvs(stmt, cat, s).rows)
  {
    hide CatalogOk, AllOk, ResolveName;
    if stmt.orderBy.Some? {
      SortMeaning(Tables(stmt), cat, s, stmt.orderBy.value.column, stmt.orderBy.value.descending);
    }
  }

  // The main result: what the bound plan yields, rows and errors alike, is the
  // limit of the projection of the stable sort of the filter of the source.
  lemma PlanMeansSelect(stmt: Select, cat: Catalog, db: Database)
    requires CatalogOk(cat) && DatabaseOk(db, cat) && IsPlain(stmt) && Intended(stmt) && SelectPlan(stmt, cat).Ok?
    ensures forall t :: t in Tables(stmt) ==> t in cat && t in db
    ensures ProjectionItems(stmt, ScopeOf(Tables(stmt), cat)).Ok?
    ensures Rows(SelectPlan(stmt, cat).value, db)
            == Meaning(stmt, cat, db, ProjectionItems(stmt, ScopeOf(Tables(stmt), cat)).value)
  {
    hide ExprOk, ProjectionItems, Qualifying, SortedEnvs, MapStream, Take, Filtered, Sorted, DatabaseOk, CatalogOk,
         AllOk, Bare;
    var ts := Tables(stmt);
    FilteredMeaning(stmt, cat, db);
    ItemsAreOk(stmt, cat);
    var items := ProjectionItems(stmt, ScopeOf(ts, cat)).value;
    var node := Filtered(stmt, BuildScope(stmt, cat).value.0);
    SortedMeaning(stmt, cat, db, node, Qualifying(stmt, cat, db));
    var sorted := SortedEnvs(stmt, cat, Qualifying(stmt, cat, db));
    ProjectMeaning(ts, cat, sorted, items);
    assert Rows(Projection(items, Sorted(stmt, node)), db) == MapStream(sorted, EnvProject(items, ts, cat));
  }

  // The ON condition may be written either way round.
  lemma EitherOnOrder(stmt: Select, cat: Catalog)
    requires CatalogOk(cat) && stmt.join.Some? && TablesOk(Tables(stmt))
    ensures var j := stmt.join.value;
      BuildScope(stmt.(join := Some(Join(j.table, j.right, j.left))), cat) == BuildScope(stmt, cat)
  {
    var j := stmt.join.value;
    if stmt.table in cat && j.table in cat {
      var ts := Tables(stmt);
      var scope := Scope(ts, map[stmt.table := cat[stmt.table]][j.table := cat[j.table]]);
      assert scope == ScopeOf(ts, cat);
      if Resolve(scope, j.left).Ok? && Resolve(scope, j.right).Ok? {
        ResolvedName(ts, cat, j.left);
        ResolvedName(ts, cat, j.right);
        KeyedEitherWay(Resolve(scope, j.left).value, Resolve(scope, j.right).value, ts[0], ts[1]);
      }
    }
  }

  lemma KeyedEitherWay(k1: string, k2: string, t: string, u: string)
    requires t != u
    ensures var a, b := map[BeforeDot(k1) := k1][BeforeDot(k2) := k2], map[BeforeDot(k2) := k2][BeforeDot(k1) := k1];
      (a.Keys == {t, u} <==> b.Keys == {t, u}) && (a.Keys == {t, u} ==> a == b)
  {
    var a, b := map[BeforeDot(k1) := k1][BeforeDot(k2) := k2], map[BeforeDot(k2) := k2][BeforeDot(k1) := k1];
    assert a.Keys == b.Keys == {BeforeDot(k1), BeforeDot(k2)};
    if a.Keys == {t, u} {
      assert t in a.Keys && u in a.Keys;
    }
  }
}
