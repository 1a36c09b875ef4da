// The grammar as a relation between token lists and trees, without a cursor, and
// soundness: everything the parser returns is derived from exactly the tokens it
// consumed.
module SqlGrammar {
  import opened Wrappers
  import opened SqlAst
  import opened SqlWords
  import opened SqlParser
  import opened SqlPrinter
  import opened SqlPrecedence
  import opened SqlStatements

  // ------------------------------------------------------------------
  // Expressions
  // ------------------------------------------------------------------

  // A call: a function name in any case, and a star or a column in parentheses.
  ghost predicate CallDerives(ts: seq<Token>, name: string, arg: Option<ColumnRef>) {
    && |ts| >= 4 && ts[0].kind == Ident && AnyCase(ts[0].value, name) && FunctionName(name)
    && ts[1] == OPEN && ts[|ts| - 1] == CLOSE
    && match arg
       case None => |ts| == 4 && ts[2].kind == Star
       case Some(col) => ts[2..|ts| - 1] == ColumnTokens(col)
  }

  ghost predicate LiteralDerives(t: Token, l: Literal) {
    match l
    case IntLit(i) => t.kind == Int && IsNumber(t.value) && ReadInt(t.value) == i
    case StrLit(s) => t == Token(Str, s)
    case NullLit => t == Token(Keyword, "NULL")
  }

  // A column, a literal or a call.
  ghost predicate LeafDerives(ts: seq<Token>, e: Expr) {
    match e
    case Column(col) => ts == ColumnTokens(col)
    case Lit(l) => |ts| == 1 && LiteralDerives(ts[0], l)
    case Func(name, arg) => CallDerives(ts, name, arg)
    case _ => false
  }

  // The token list is an expression of that level, with at most that many parentheses
  // inside one another: OR over AND over comparisons over primaries, operators of one
  // level grouped to the left, comparisons not chained.
  ghost predicate Derives(ts: seq<Token>, e: Expr, level: nat, depth: nat)
    requires level <= PRIMARY_LEVEL
    decreases |ts|, PRIMARY_LEVEL - level
  {
    || (level == PRIMARY_LEVEL && LeafDerives(ts, e))
    || (level == PRIMARY_LEVEL && |ts| >= 2 && ts[0] == OPEN && ts[|ts| - 1] == CLOSE && depth > 0
        && Derives(ts[1..|ts| - 1], e, OR_LEVEL, depth - 1))
    || (level < PRIMARY_LEVEL && Derives(ts, e, level + 1, depth))
    || (level < PRIMARY_LEVEL && exists k: nat :: JoinedAt(ts, e, level, depth, k))
  }

  // An operator of the level at k, between its operands.
  ghost predicate JoinedAt(ts: seq<Token>, e: Expr, level: nat, depth: nat, k: nat)
    requires level < PRIMARY_LEVEL
    decreases |ts|, 0
  {
    && IsCompound(e) && LevelOf(e) == level && (e.Compare? ==> ComparisonSign(e.cmp))
    && k < |ts| && ts[k] == Sign(e)
    && Derives(ts[..k], e.left, LeftLevel(e), depth) && Derives(ts[k + 1..], e.right, RightLevel(e), depth)
  }

  // An operator between its operands.
  lemma Joined(a: seq<Token>, b: seq<Token>, e: Expr, depth: nat)
    requires IsCompound(e) && (e.Compare? ==> ComparisonSign(e.cmp))
    requires Derives(a, e.left, LeftLevel(e), depth) && Derives(b, e.right, RightLevel(e), depth)
    ensures Derives(a + [Sign(e)] + b, e, LevelOf(e), depth)
  {
    hide LeafDerives;
    var ts := a + [Sign(e)] + b;
    assert ts[..|a|] == a && ts[|a|] == Sign(e) && ts[|a| + 1..] == b;
    assert JoinedAt(ts, e, LevelOf(e), depth, |a|);
  }

  lemma Raised(ts: seq<Token>, e: Expr, level: nat, depth: nat)
    requires level < PRIMARY_LEVEL && Derives(ts, e, level + 1, depth)
    ensures Derives(ts, e, level, depth)
  {
  }

  lemma Parenthesised(ts: seq<Token>, e: Expr, depth: nat)
    requires Derives(ts, e, OR_LEVEL, depth)
    ensures Derives([OPEN] + ts + [CLOSE], e, PRIMARY_LEVEL, depth + 1)
  {
    var all := [OPEN] + ts + [CLOSE];
    assert all[1..|all| - 1] == ts;
  }

  lemma {:induction false} Deeper(ts: seq<Token>, e: Expr, level: nat, depth: nat, more: nat)
    requires level <= PRIMARY_LEVEL && depth <= more && Derives(ts, e, level, depth)
    ensures Derives(ts, e, level, more)
    decreases |ts|, PRIMARY_LEVEL - level
  {
    hide LeafDerives;
    if level == PRIMARY_LEVEL {
      if !LeafDerives(ts, e) {
        Deeper(ts[1..|ts| - 1], e, OR_LEVEL, depth - 1, more - 1);
      }
    } else if Derives(ts, e, level + 1, depth) {
      Deeper(ts, e, level + 1, depth, more);
    } else {
      var k: nat :| JoinedAt(ts, e, level, depth, k);
      Deeper(ts[..k], e.left, LeftLevel(e), depth, more);
      Deeper(ts[k + 1..], e.right, RightLevel(e), depth, more);
      assert JoinedAt(ts, e, level, more, k);
    }
  }

  // The minimal spelling of an expression is one of its derivations.
  lemma {:induction false} MinimalDerives(e: Expr, level: nat)
    requires level <= PRIMARY_LEVEL && ProperExpr(e)
    ensures Derives(Minimal(e, level), e, level, Depth(e, level))
    decreases e, PRIMARY_LEVEL - level
  {
    hide Derives, ProperColumn, IsName;
    if !IsCompound(e) {
      LeafMinimal(e);
      RaisedTo(Tokens(e), e, PRIMARY_LEVEL, level, 0);
    } else {
      var l, r := Minimal(e.left, LeftLevel(e)), Minimal(e.right, RightLevel(e));
      var own := Depth(e, LevelOf(e));
      MinimalDerives(e.left, LeftLevel(e));
      MinimalDerives(e.right, RightLevel(e));
      Deeper(l, e.left, LeftLevel(e), Depth(e.left, LeftLevel(e)), own);
      Deeper(r, e.right, RightLevel(e), Depth(e.right, RightLevel(e)), own);
      Joined(l, r, e, own);
      if level <= LevelOf(e) {
        RaisedTo(Own(e), e, LevelOf(e), level, own);
      } else {
        RaisedTo(Own(e), e, LevelOf(e), OR_LEVEL, own);
        Parenthesised(Own(e), e, own);
        RaisedTo([OPEN] + Own(e) + [CLOSE], e, PRIMARY_LEVEL, level, own + 1);
      }
    }
  }

  lemma LeafMinimal(e: Expr)
    requires !IsCompound(e) && ProperExpr(e)
    ensures Derives(Tokens(e), e, PRIMARY_LEVEL, 0)
  {
    match e
    case Column(_) =>
    case Lit(l) =>
      if l.IntLit? {
        ReadShowInt(l.i);
      }
    case Func(name, arg) =>
      FunctionIsName(name);
      var ts := Tokens(e);
      if arg.Some? {
        assert ts[2..|ts| - 1] == ColumnTokens(arg.value);
      }
  }

  lemma {:induction false} RaisedTo(ts: seq<Token>, e: Expr, from: nat, level: nat, depth: nat)
    requires level <= from <= PRIMARY_LEVEL && Derives(ts, e, from, depth)
    ensures Derives(ts, e, level, depth)
    decreases from
  {
    hide Derives;
    if from == level {
    } else {
      Raised(ts, e, from - 1, depth);
      RaisedTo(ts, e, from - 1, level, depth);
    }
  }

  // ------------------------------------------------------------------
  // The parser's expressions are derived
  // ------------------------------------------------------------------

  // A span of a span, and a span cut in two.
  lemma Span(ts: seq<Token>, b: nat, e: nat, i: nat, j: nat)
    requires b <= e <= |ts| && i <= j <= e - b
    ensures ts[b..e][i..j] == ts[b + i..b + j]
  {
    var s, x, y := ts[b..e], ts[b..e][i..j], ts[b + i..b + j];
    forall k | 0 <= k < |x| ensures x[k] == y[k] {
      assert x[k] == s[i + k] && y[k] == ts[b + i + k];
    }
  }

  lemma Cut(ts: seq<Token>, i: nat, k: nat, j: nat)
    requires i <= k <= j <= |ts|
    ensures ts[i..j] == ts[i..k] + ts[k..j]
  {
  }

  lemma ColumnSound(ts: seq<Token>, c: Cursor)
    requires InRange(ts, c)
    ensures var r := ParseColumnRef(ts, c); r.Ok? ==> ts[c.i..r.value.1.i] == ColumnTokens(r.value.0)
  {
  }

  lemma CallSound(ts: seq<Token>, c: Cursor)
    requires InRange(ts, c) && AtCall(ts, c.i)
    ensures var r := ParseFunc(ts, c);
      r.Ok? ==> r.value.0.Func? && CallDerives(ts[c.i..r.value.1.i], r.value.0.name, r.value.0.arg)
  {
    hide ParseColumnRef, ColumnTokens, IsFunction, Upper, AnyCase, FunctionName;
    var r := ParseFunc(ts, c);
    UpperIsAnyCase(ts[c.i].value, Upper(ts[c.i].value));
    VocabularyIs(Upper(ts[c.i].value));
    if r.Ok? && ts[c.i + 2].kind != Star {
      var d := Step(Step(c));
      ColumnSound(ts, d);
      var f := ParseColumnRef(ts, d).value.1;
      Span(ts, c.i, r.value.1.i, 2, f.i - c.i);
    }
  }

  // The parentheses that may still be opened.
  function Left(c: Cursor): nat {
    if c.depth <= MAX_EXPR_DEPTH then MAX_EXPR_DEPTH - c.depth else 0
  }

  // The result of parsing from c is derived from the tokens up to its cursor.
  ghost predicate Derived(ts: seq<Token>, c: Cursor, r: Result<(Expr, Cursor)>, level: nat)
    requires InRange(ts, c) && level <= PRIMARY_LEVEL
  {
    r.Ok? ==>
      InRange(ts, r.value.1) && c.i <= r.value.1.i && Derives(ts[c.i..r.value.1.i], r.value.0, level, Left(c))
  }

  lemma {:induction false} PrimarySound(ts: seq<Token>, c: Cursor)
    requires InRange(ts, c)
    ensures Derived(ts, c, ParsePrimary(ts, c), PRIMARY_LEVEL)
    decreases |ts| - c.i, 0
  {
    if ts[c.i] == OPEN {
      if c.depth < MAX_EXPR_DEPTH {
        OrSound(ts, LeftAt(c));
        hide Derives, ParseOr;
        ParenSound(ts, c);
      }
    } else if AtCall(ts, c.i) {
      CallSound(ts, c);
      hide ParseFunc, CallDerives;
    } else if ts[c.i].kind == Ident {
      ColumnSound(ts, c);
      hide ParseColumnRef, ColumnTokens;
    }
  }

  lemma Enclosed(ts: seq<Token>, i: nat, j: nat)
    requires i < j < |ts| && ts[i] == OPEN && ts[j] == CLOSE
    ensures ts[i..j + 1] == [OPEN] + ts[i + 1..j] + [CLOSE]
  {
  }

  lemma ParenSound(ts: seq<Token>, c: Cursor)
    requires InRange(ts, c) && ts[c.i] == OPEN && c.depth < MAX_EXPR_DEPTH
    requires Derived(ts, LeftAt(c), ParseOr(ts, LeftAt(c)), OR_LEVEL)
    ensures Derived(ts, c, ParsePrimary(ts, c), PRIMARY_LEVEL)
  {
    hide Derives, ParseOr;
    var r := ParseOr(ts, LeftAt(c));
    if r.Ok? && ts[r.value.1.i] == CLOSE {
      var j := r.value.1.i;
      Enclosed(ts, c.i, j);
      Parenthesised(ts[c.i + 1..j], r.value.0, Left(LeftAt(c)));
    }
  }

  lemma JoinedSpan(ts: seq<Token>, i: nat, k: nat, j: nat, e: Expr, depth: nat)
    requires i <= k < j <= |ts| && IsCompound(e) && (e.Compare? ==> ComparisonSign(e.cmp)) && ts[k] == Sign(e)
    requires Derives(ts[i..k], e.left, LeftLevel(e), depth) && Derives(ts[k + 1..j], e.right, RightLevel(e), depth)
    ensures Derives(ts[i..j], e, LevelOf(e), depth)
  {
    hide Derives;
    Joined(ts[i..k], ts[k + 1..j], e, depth);
    assert ts[i..j] == ts[i..k] + [ts[k]] + ts[k + 1..j];
  }

  lemma {:induction false} ComparisonSound(ts: seq<Token>, c: Cursor)
    requires InRange(ts, c)
    ensures Derived(ts, c, ParseComparison(ts, c), COMPARISON_LEVEL)
    decreases |ts| - c.i, 1
  {
    hide Derives, ParsePrimary;
    PrimarySound(ts, c);
    var left := ParsePrimary(ts, c);
    if left.Ok? {
      var (l, d) := left.value;
      Raised(ts[c.i..d.i], l, COMPARISON_LEVEL, Left(c));
      if ts[d.i].kind == Op && IsComparison(ts[d.i].value) {
        PrimarySound(ts, Step(d));
        var right := ParsePrimary(ts, Step(d));
        if right.Ok? {
          JoinedSpan(ts, c.i, d.i, right.value.1.i, Compare(ts[d.i].value, l, right.value.0), Left(c));
        }
      }
    }
  }

  lemma {:induction false} AndRestSound(ts: seq<Token>, left: Expr, c: Cursor, from: nat)
    requires InRange(ts, c) && from <= c.i && Derives(ts[from..c.i], left, AND_LEVEL, Left(c))
    ensures var r := AndRest(ts, left, c); r.Ok? ==> Derives(ts[from..r.value.1.i], r.value.0, AND_LEVEL, Left(c))
    decreases |ts| - c.i, 2
  {
    hide Derives, ParseComparison;
    if ts[c.i] == Token(Keyword, "AND") && c.terms + 1 <= MAX_EXPR_TERMS {
      var next := Step(c).(terms := c.terms + 1);
      ComparisonSound(ts, next);
      var right := ParseComparison(ts, next);
      if right.Ok? {
        var e := Logic(And, left, right.value.0);
        JoinedSpan(ts, from, c.i, right.value.1.i, e, Left(c));
        AndRestSound(ts, e, right.value.1, from);
      }
    }
  }

  lemma {:induction false} AndSound(ts: seq<Token>, c: Cursor)
    requires InRange(ts, c)
    ensures Derived(ts, c, ParseAnd(ts, c), AND_LEVEL)
    decreases |ts| - c.i, 3
  {
    hide Derives, ParseComparison, AndRest;
    ComparisonSound(ts, c);
    var left := ParseComparison(ts, c);
    if left.Ok? {
      Raised(ts[c.i..left.value.1.i], left.value.0, AND_LEVEL, Left(c));
      AndRestSound(ts, left.value.0, left.value.1, c.i);
    }
  }

  lemma {:induction false} OrRestSound(ts: seq<Token>, left: Expr, c: Cursor, from: nat)
    requires InRange(ts, c) && from <= c.i && Derives(ts[from..c.i], left, OR_LEVEL, Left(c))
    ensures var r := OrRest(ts, left, c); r.Ok? ==> Derives(ts[from..r.value.1.i], r.value.0, OR_LEVEL, Left(c))
    decreases |ts| - c.i, 4
  {
    hide Derives, ParseAnd;
    if ts[c.i] == Token(Keyword, "OR") && c.terms + 1 <= MAX_EXPR_TERMS {
      var next := Step(c).(terms := c.terms + 1);
      AndSound(ts, next);
      var right := ParseAnd(ts, next);
      if right.Ok? {
        var e := Logic(Or, left, right.value.0);
        JoinedSpan(ts, from, c.i, right.value.1.i, e, Left(c));
        OrRestSound(ts, e, right.value.1, from);
      }
    }
  }

  // An expression the parser returns is derived from exactly the tokens it consumed.
  lemma {:induction false} OrSound(ts: seq<Token>, c: Cursor)
    requires InRange(ts, c)
    ensures Derived(ts, c, ParseOr(ts, c), OR_LEVEL)
    decreases |ts| - c.i, 5
  {
    hide Derives, ParseAnd, OrRest;
    AndSound(ts, c);
    var left := ParseAnd(ts, c);
    if left.Ok? {
      Raised(ts[c.i..left.value.1.i], left.value.0, OR_LEVEL, Left(c));
      OrRestSound(ts, left.value.0, left.value.1, c.i);
    }
  }

  // ------------------------------------------------------------------
  // Statements
  // ------------------------------------------------------------------

  // Elements with commas between them.
  ghost predicate ListDerives<T>(ts: seq<Token>, xs: seq<T>, one: (seq<Token>, T) -> bool)
    decreases |xs|
  {
    || (|xs| == 1 && one(ts, xs[0]))
    || (|xs| > 1 && exists k ::
          && 0 <= k < |ts| && ts[k] == COMMA
          && ListDerives(ts[..k], xs[..|xs| - 1], one) && one(ts[k + 1..], xs[|xs| - 1]))
  }

  lemma ListMore<T>(ts: seq<Token>, i: nat, k: nat, j: nat, xs: seq<T>, x: T, one: (seq<Token>, T) -> bool)
    requires i <= k < j <= |ts| && ts[k] == COMMA && ListDerives(ts[i..k], xs, one) && one(ts[k + 1..j], x)
    ensures ListDerives(ts[i..j], xs + [x], one)
  {
    var all, ys := ts[i..j], xs + [x];
    assert all[..k - i] == ts[i..k] && all[k - i] == COMMA && all[k - i + 1..] == ts[k + 1..j];
    assert ys[..|ys| - 1] == xs;
  }

  // A name and a type in any case.
  ghost predicate DefDerives(ts: seq<Token>, d: ColumnDef) {
    && |ts| == 2 && ts[0] == Name(d.name)
    && ts[1].kind == Ident && AnyCase(ts[1].value, d.colType) && TypeName(d.colType)
  }

  ghost predicate ValueDerives(ts: seq<Token>, l: Literal) {
    |ts| == 1 && LiteralDerives(ts[0], l)
  }

  // A call or a column.
  ghost predicate ItemDerives(ts: seq<Token>, e: Expr) {
    (e.Column? || e.Func?) && LeafDerives(ts, e)
  }

  ghost predicate ProjectionsDerive(ts: seq<Token>, p: Option<seq<Expr>>) {
    match p
    case None => |ts| == 1 && ts[0].kind == Star
    case Some(es) => ListDerives(ts, es, ItemDerives)
  }

  ghost predicate WhereDerives(ts: seq<Token>, w: Option<Expr>) {
    match w
    case None => ts == []
    case Some(e) => ts != [] && ts[0] == Word("WHERE") && Derives(ts[1..], e, OR_LEVEL, 100)
  }

  // Ascending with ASC or nothing.
  ghost predicate OrderDerives(ts: seq<Token>, order: Option<OrderBy>) {
    match order
    case None => ts == []
    case Some(o) =>
      var head := [Word("ORDER"), Word("BY"), Name(o.column)];
      if o.descending then ts == head + [Word("DESC")] else ts == head || ts == head + [Word("ASC")]
  }

  ghost predicate LimitDerives(ts: seq<Token>, limit: Option<nat>) {
    match limit
    case None => ts == []
    case Some(n) =>
      && |ts| == 2 && ts[0] == Word("LIMIT")
      && ts[1].kind == Int && IsNumber(ts[1].value) && ReadInt(ts[1].value) == n
  }

  // Where the clauses of a SELECT stand: each starts where the one before it ends.
  datatype Cuts = Cuts(from: nat, join: nat, where: nat, group: nat, order: nat, limit: nat)

  ghost predicate SelectAt(ts: seq<Token>, i: nat, j: nat, s: Select, c: Cuts) {
    && i + 1 <= c.from && c.from + 2 == c.join <= c.where <= c.group <= c.order <= c.limit <= j <= |ts|
    && ts[i] == Word("SELECT") && ProjectionsDerive(ts[i + 1..c.from], s.projections)
    && ts[c.from] == Word("FROM") && ts[c.from + 1] == Name(s.table)
    && ts[c.join..c.where] == JoinTokens(s.join)
    && WhereDerives(ts[c.where..c.group], s.where)
    && ts[c.group..c.order] == GroupTokens(s.groupBy)
    && OrderDerives(ts[c.order..c.limit], s.orderBy)
    && LimitDerives(ts[c.limit..j], s.limit)
  }

  // The tokens from i up to j are the statement.
  ghost predicate StatementDerives(ts: seq<Token>, i: nat, j: nat, stmt: Statement)
    requires i <= j <= |ts|
  {
    match stmt
    case CreateTable(table, ds) =>
      && i + 5 <= j && ts[i..i + 4] == [Word("CREATE"), Word("TABLE"), Name(table), OPEN] && ts[j - 1] == CLOSE
      && ListDerives(ts[i + 4..j - 1], ds, DefDerives)
    case Insert(table, ls) =>
      && i + 6 <= j && ts[i..i + 5] == [Word("INSERT"), Word("INTO"), Name(table), Word("VALUES"), OPEN]
      && ts[j - 1] == CLOSE
      && ListDerives(ts[i + 5..j - 1], ls, ValueDerives)
    case Query(s) => exists c :: SelectAt(ts, i, j, s, c)
  }

  // ------------------------------------------------------------------
  // The parser's statements are derived
  // ------------------------------------------------------------------

  lemma DefSound(ts: seq<Token>, c: Cursor)
    requires InRange(ts, c)
    ensures var r := ParseColumnDef(ts, c); r.Ok? ==> DefDerives(ts[c.i..r.value.1.i], r.value.0)
  {
  }

  lemma {:induction false} DefsRestSound(ts: seq<Token>, defs: seq<ColumnDef>, c: Cursor, from: nat)
    requires InRange(ts, c) && from <= c.i && ListDerives(ts[from..c.i], defs, DefDerives)
    ensures var r := ColumnDefsRest(ts, defs, c); r.Ok? ==> ListDerives(ts[from..r.value.1.i], r.value.0, DefDerives)
    decreases |ts| - c.i
  {
    hide ParseColumnDef, ListDerives, DefDerives;
    if !AtPunct(ts, c, ",") {
    } else {
      DefSound(ts, Step(c));
      var r := ParseColumnDef(ts, Step(c));
      if r.Ok? {
        ListMore(ts, from, c.i, r.value.1.i, defs, r.value.0, DefDerives);
        DefsRestSound(ts, defs + [r.value.0], r.value.1, from);
      }
    }
  }

  lemma DefsSound(ts: seq<Token>, c: Cursor)
    requires InRange(ts, c)
    ensures var r := ParseColumnDefs(ts, c); r.Ok? ==> ListDerives(ts[c.i..r.value.1.i], r.value.0, DefDerives)
  {
    hide ParseColumnDef, ColumnDefsRest, DefDerives;
    DefSound(ts, c);
    var r := ParseColumnDef(ts, c);
    if r.Ok? {
      assert ListDerives(ts[c.i..r.value.1.i], [r.value.0], DefDerives);
      DefsRestSound(ts, [r.value.0], r.value.1, c.i);
    }
  }

  lemma ValueSound(ts: seq<Token>, c: Cursor)
    requires InRange(ts, c)
    ensures var r := ParseLiteral(ts, c); r.Ok? ==> ValueDerives(ts[c.i..r.value.1.i], r.value.0)
  {
  }

  lemma {:induction false} ValuesRestSound(ts: seq<Token>, values: seq<Literal>, c: Cursor, from: nat)
    requires InRange(ts, c) && from <= c.i && ListDerives(ts[from..c.i], values, ValueDerives)
    ensures var r := LiteralsRest(ts, values, c); r.Ok? ==> ListDerives(ts[from..r.value.1.i], r.value.0, ValueDerives)
    decreases |ts| - c.i
  {
    hide ParseLiteral, ListDerives, ValueDerives;
    if !AtPunct(ts, c, ",") {
    } else {
      ValueSound(ts, Step(c));
      var r := ParseLiteral(ts, Step(c));
      if r.Ok? {
        ListMore(ts, from, c.i, r.value.1.i, values, r.value.0, ValueDerives);
        ValuesRestSound(ts, values + [r.value.0], r.value.1, from);
      }
    }
  }

  lemma ValuesSound(ts: seq<Token>, c: Cursor)
    requires InRange(ts, c)
    ensures var r := ParseLiterals(ts, c); r.Ok? ==> ListDerives(ts[c.i..r.value.1.i], r.value.0, ValueDerives)
  {
    hide ParseLiteral, LiteralsRest, ValueDerives;
    ValueSound(ts, c);
    var r := ParseLiteral(ts, c);
    if r.Ok? {
      assert ListDerives(ts[c.i..r.value.1.i], [r.value.0], ValueDerives);
      ValuesRestSound(ts, [r.value.0], r.value.1, c.i);
    }
  }

  lemma ItemSound(ts: seq<Token>, c: Cursor)
    requires InRange(ts, c)
    ensures var r := ParseItem(ts, c); r.Ok? ==> ItemDerives(ts[c.i..r.value.1.i], r.value.0)
  {
    hide ParseFunc, ParseColumnRef, CallDerives, ColumnTokens;
    if AtCall(ts, c.i) {
      CallSound(ts, c);
    } else {
      ColumnSound(ts, c);
    }
  }

  lemma {:induction false} ItemsRestSound(ts: seq<Token>, items: seq<Expr>, c: Cursor, from: nat)
    requires InRange(ts, c) && from <= c.i && ListDerives(ts[from..c.i], items, ItemDerives)
    ensures var r := ItemsRest(ts, items, c); r.Ok? ==> ListDerives(ts[from..r.value.1.i], r.value.0, ItemDerives)
    decreases |ts| - c.i
  {
    hide ParseItem, ListDerives, ItemDerives;
    if !AtPunct(ts, c, ",") {
    } else {
      ItemSound(ts, Step(c));
      var r := ParseItem(ts, Step(c));
      if r.Ok? {
        ListMore(ts, from, c.i, r.value.1.i, items, r.value.0, ItemDerives);
        ItemsRestSound(ts, items + [r.value.0], r.value.1, from);
      }
    }
  }

  lemma ProjectionsSound(ts: seq<Token>, c: Cursor)
    requires InRange(ts, c)
    ensures var r := ParseProjections(ts, c); r.Ok? ==> ProjectionsDerive(ts[c.i..r.value.1.i], r.value.0)
  {
    hide ParseItem, ItemsRest, ItemDerives;
    if ts[c.i].kind != Star {
      ItemSound(ts, c);
      var r := ParseItem(ts, c);
      if r.Ok? {
        assert ListDerives(ts[c.i..r.value.1.i], [r.value.0], ItemDerives);
        ItemsRestSound(ts, [r.value.0], r.value.1, c.i);
      }
    }
  }

  lemma JoinSpan(ts: seq<Token>, i: nat, c3: nat, j: nat, join: Join)
    requires i + 3 <= c3 < j <= |ts|
    requires ts[i] == Word("JOIN") && ts[i + 1] == Name(join.table) && ts[i + 2] == Word("ON")
    requires ts[i + 3..c3] == ColumnTokens(join.left) && ts[c3] == Token(Op, "=")
    requires ts[c3 + 1..j] == ColumnTokens(join.right)
    ensures ts[i..j] == JoinTokens(Some(join))
  {
    hide ColumnTokens, Word, Name;
    assert ts[i..i + 3] == [Word("JOIN"), Name(join.table), Word("ON")];
    Cut(ts, i, i + 3, c3);
    assert ts[c3..c3 + 1] == [Token(Op, "=")];
    Cut(ts, i, c3, c3 + 1);
    Cut(ts, i, c3 + 1, j);
  }

  lemma JoinSound(ts: seq<Token>, c: Cursor)
    requires InRange(ts, c)
    ensures var r := JoinClause(ts, c); r.Ok? ==> ts[c.i..r.value.1.i] == JoinTokens(r.value.0)
  {
    hide ParseColumnRef, ColumnTokens;
    var r := JoinClause(ts, c);
    if r.Ok? && AtWord(ts, c, "JOIN") {
      hide JoinTokens;
      var c2 := Step(Step(Step(c)));
      ColumnSound(ts, c2);
      var c3 := ParseColumnRef(ts, c2).value.1;
      ColumnSound(ts, Step(c3));
      JoinSpan(ts, c.i, c3.i, r.value.1.i, r.value.0.value);
    }
  }

  lemma WhereSound(ts: seq<Token>, c: Cursor)
    requires InRange(ts, c)
    ensures var r := WhereClause(ts, c); r.Ok? ==> WhereDerives(ts[c.i..r.value.1.i], r.value.0)
  {
    hide ParseOr, Derives;
    var r := WhereClause(ts, c);
    if r.Ok? && AtWord(ts, c, "WHERE") {
      OrSound(ts, Step(c));
      Deeper(ts[c.i + 1..r.value.1.i], r.value.0.value, OR_LEVEL, Left(c), MAX_EXPR_DEPTH);
      Span(ts, c.i, r.value.1.i, 1, r.value.1.i - c.i);
    }
  }

  lemma GroupSound(ts: seq<Token>, c: Cursor)
    requires InRange(ts, c)
    ensures var r := GroupClause(ts, c); r.Ok? ==> ts[c.i..r.value.1.i] == GroupTokens(r.value.0)
  {
  }

  lemma OrderSound(ts: seq<Token>, c: Cursor)
    requires InRange(ts, c)
    ensures var r := OrderClause(ts, c); r.Ok? ==> OrderDerives(ts[c.i..r.value.1.i], r.value.0)
  {
  }

  lemma LimitSound(ts: seq<Token>, c: Cursor)
    requires InRange(ts, c)
    ensures var r := LimitClause(ts, c); r.Ok? ==> LimitDerives(ts[c.i..r.value.1.i], r.value.0)
  {
  }

  lemma CreateSound(ts: seq<Token>, c: Cursor)
    requires InRange(ts, c)
    ensures var r := ParseCreate(ts, c); r.Ok? ==> StatementDerives(ts, c.i, r.value.1.i, r.value.0)
  {
    hide ParseColumnDefs, ListDerives, DefDerives;
    if ParseCreate(ts, c).Ok? {
      DefsSound(ts, Step(Step(Step(Step(c)))));
    }
  }

  lemma InsertSound(ts: seq<Token>, c: Cursor)
    requires InRange(ts, c)
    ensures var r := ParseInsert(ts, c); r.Ok? ==> StatementDerives(ts, c.i, r.value.1.i, r.value.0)
  {
    hide ParseLiterals, ListDerives, ValueDerives;
    if ParseInsert(ts, c).Ok? {
      ValuesSound(ts, Step(Step(Step(Step(Step(c))))));
    }
  }

  // The cursors between the clauses of a SELECT that parses.
  lemma SelectCursors(ts: seq<Token>, c: Cursor) returns (c2: Cursor, c5: Cursor, c6: Cursor, c7: Cursor, c8: Cursor)
    requires InRange(ts, c) && ParseSelect(ts, c).Ok?
    ensures InRange(ts, c2) && InRange(ts, c5) && InRange(ts, c6) && InRange(ts, c7) && InRange(ts, c8)
    ensures var (stmt, c9) := ParseSelect(ts, c).value;
      && stmt.Query? && InRange(ts, Step(c)) && InRange(ts, Step(c2)) && InRange(ts, Step(Step(c2)))
      && ts[c.i] == Word("SELECT") && ParseProjections(ts, Step(c)) == Ok((stmt.select.projections, c2))
      && ts[c2.i] == Word("FROM") && ts[c2.i + 1] == Name(stmt.select.table)
      && JoinClause(ts, Step(Step(c2))) == Ok((stmt.select.join, c5))
      && WhereClause(ts, c5) == Ok((stmt.select.where, c6))
      && GroupClause(ts, c6) == Ok((stmt.select.groupBy, c7)) && OrderClause(ts, c7) == Ok((stmt.select.orderBy, c8))
      && LimitClause(ts, c8) == Ok((stmt.select.limit, c9))
  {
    hide ParseProjections, JoinClause, WhereClause, GroupClause, OrderClause, LimitClause;
    c2 := ParseProjections(ts, Step(c)).value.1;
    c5 := JoinClause(ts, Step(Step(c2))).value.1;
    c6 := WhereClause(ts, c5).value.1;
    c7 := GroupClause(ts, c6).value.1;
    c8 := OrderClause(ts, c7).value.1;
  }

  lemma SelectSound(ts: seq<Token>, c: Cursor)
    requires InRange(ts, c)
    ensures var r := ParseSelect(ts, c); r.Ok? ==> StatementDerives(ts, c.i, r.value.1.i, r.value.0)
  {
    hide ParseSelect, ParseProjections, JoinClause, WhereClause, GroupClause, OrderClause, LimitClause,
         ProjectionsDerive, JoinTokens, WhereDerives, GroupTokens, OrderDerives, LimitDerives;
    if ParseSelect(ts, c).Ok? {
      var c2, c5, c6, c7, c8 := SelectCursors(ts, c);
      var (stmt, c9) := ParseSelect(ts, c).value;
      ProjectionsSound(ts, Step(c));
      JoinSound(ts, Step(Step(c2)));
      WhereSound(ts, c5);
      GroupSound(ts, c6);
      OrderSound(ts, c7);
      LimitSound(ts, c8);
      assert SelectAt(ts, c.i, c9.i, stmt.select, Cuts(c2.i, c2.i + 2, c5.i, c6.i, c7.i, c8.i));
    }
  }

  // A statement the parser returns is derived from exactly the tokens it consumed, but
  // for a semicolon behind it, and then comes the end.
  lemma StatementSound(ts: seq<Token>, c: Cursor)
    requires InRange(ts, c) && ParseStatement(ts, c).Ok?
    ensures var (stmt, d) := ParseStatement(ts, c).value;
      && c.i < d.i && ts[d.i].kind == Eof
      && (|| StatementDerives(ts, c.i, d.i, stmt)
          || (ts[d.i - 1] == Token(Punct, ";") && StatementDerives(ts, c.i, d.i - 1, stmt)))
  {
    hide ParseCreate, ParseInsert, ParseSelect, StatementDerives;
    if AtWord(ts, c, "CREATE") {
      CreateSound(ts, c);
    } else if AtWord(ts, c, "INSERT") {
      InsertSound(ts, c);
    } else {
      SelectSound(ts, c);
    }
  }
}
