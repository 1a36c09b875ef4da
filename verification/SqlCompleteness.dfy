// Completeness of the parser: whatever the grammar derives, within the caps, is parsed.
// With soundness, the parser accepts exactly the grammar, which is unambiguous.
module SqlCompleteness {
  import opened Wrappers
  import opened SqlAst
  import opened SqlWords
  import opened SqlLexer
  import opened SqlParser
  import opened SqlPrinter
  import opened SqlPrecedence
  import opened SqlStatements
  import opened SqlGrammar

  // ------------------------------------------------------------------
  // Expressions
  // ------------------------------------------------------------------

  // A token that does not continue an expression of a level.
  predicate Stops(t: Token, level: nat) {
    && Ends(t) && (level <= COMPARISON_LEVEL ==> t.kind != Op)
    && (level <= AND_LEVEL ==> t != Token(Keyword, "AND")) && (level == OR_LEVEL ==> t != Token(Keyword, "OR"))
  }

  // The tokens from c up to j are an expression within the caps.
  ghost predicate Phrase(ts: seq<Token>, c: Cursor, j: nat, e: Expr, level: nat) {
    && InRange(ts, c) && c.i < j < |ts| && level <= PRIMARY_LEVEL
    && Derives(ts[c.i..j], e, level, Left(c)) && c.terms + Terms(e) <= MAX_EXPR_TERMS
  }

  function Reached(c: Cursor, j: nat, e: Expr): Cursor {
    Cursor(j, c.depth, c.terms + Terms(e))
  }

  lemma {:induction false} NotEmpty(ts: seq<Token>, e: Expr, level: nat, depth: nat)
    requires level <= PRIMARY_LEVEL && Derives(ts, e, level, depth)
    ensures ts != []
    decreases PRIMARY_LEVEL - level
  {
    if level == PRIMARY_LEVEL {
    } else if Derives(ts, e, level + 1, depth) {
      NotEmpty(ts, e, level + 1, depth);
    }
  }

  lemma InSpan(ts: seq<Token>, i: nat, j: nat, k: nat)
    requires i <= j <= |ts| && k < j - i
    ensures ts[i..j][k] == ts[i + k]
  {
  }

  lemma LeafComplete(ts: seq<Token>, c: Cursor, j: nat, e: Expr)
    requires InRange(ts, c) && c.i < j < |ts| && LeafDerives(ts[c.i..j], e) && Ends(ts[j])
    ensures ParsePrimary(ts, c) == Ok((e, c.(i := j)))
  {
    match e
    case Column(col) => ColumnComplete(ts, c, j, col);
    case Lit(l) =>
      assert ts[c.i..j][0] == ts[c.i];
    case Func(name, arg) =>
      CallComplete(ts, c, j, name, arg);
      CallIsPrimary(ts, c);
  }

  lemma CallIsPrimary(ts: seq<Token>, c: Cursor)
    requires InRange(ts, c) && AtCall(ts, c.i)
    ensures ParsePrimary(ts, c) == ParseFunc(ts, c)
  {
    hide ParseFunc, ParseOr;
  }

  lemma ColumnComplete(ts: seq<Token>, c: Cursor, j: nat, col: ColumnRef)
    requires InRange(ts, c) && c.i < j < |ts| && ts[c.i..j] == ColumnTokens(col) && Ends(ts[j])
    ensures ParsePrimary(ts, c) == Ok((Column(col), c.(i := j)))
    ensures !AtCall(ts, c.i) && ParseColumnRef(ts, c) == Ok((col, c.(i := j)))
  {
    hide Upper, IsFunction, ParseFunc, ParseOr;
    ColumnParses(ts, c, col);
    assert ts[c.i..j][0] == ts[c.i] && (j > c.i + 1 ==> ts[c.i..j][1] == ts[c.i + 1]);
  }

  lemma CallComplete(ts: seq<Token>, c: Cursor, j: nat, name: string, arg: Option<ColumnRef>)
    requires InRange(ts, c) && c.i < j < |ts| && CallDerives(ts[c.i..j], name, arg)
    ensures AtCall(ts, c.i) && ParseFunc(ts, c) == Ok((Func(name, arg), c.(i := j)))
  {
    hide Upper, IsFunction, ParseFunc, ColumnTokens, AnyCase, FunctionName;
    var all := ts[c.i..j];
    UpperIsAnyCase(ts[c.i].value, name);
    VocabularyIs(name);
    assert all[0] == ts[c.i] && all[1] == ts[c.i + 1] && all[2] == ts[c.i + 2] && all[|all| - 1] == ts[j - 1];
    if arg.Some? {
      Span(ts, c.i, j, 2, |all| - 1);
      CallOfColumn(ts, c, j, arg.value);
    } else {
      CallOfStar(ts, c);
    }
  }

  lemma CallOfStar(ts: seq<Token>, c: Cursor)
    requires InRange(ts, c) && c.i + 4 < |ts| && ts[c.i].kind == Ident && ts[c.i + 1] == OPEN
    requires ts[c.i + 2].kind == Star && ts[c.i + 3] == CLOSE
    ensures ParseFunc(ts, c) == Ok((Func(Upper(ts[c.i].value), None), c.(i := c.i + 4)))
  {
    hide Upper, ParseColumnRef;
  }

  lemma CallOfColumn(ts: seq<Token>, c: Cursor, j: nat, col: ColumnRef)
    requires InRange(ts, c) && c.i + 3 <= j < |ts| && ts[c.i].kind == Ident && ts[c.i + 1] == OPEN
    requires ts[c.i + 2..j - 1] == ColumnTokens(col) && ts[j - 1] == CLOSE
    ensures ParseFunc(ts, c) == Ok((Func(Upper(ts[c.i].value), Some(col)), c.(i := j)))
  {
    hide Upper, ParseColumnRef, ColumnTokens;
    var d := Step(Step(c));
    ColumnParses(ts, d, col);
    FirstIsName(col);
    assert ts[d.i..j - 1][0] == ts[d.i];
  }

  lemma FirstIsName(col: ColumnRef)
    ensures ColumnTokens(col) != [] && ColumnTokens(col)[0].kind == Ident
  {
  }

  lemma {:induction false} PrimaryComplete(ts: seq<Token>, c: Cursor, j: nat, e: Expr)
    requires Phrase(ts, c, j, e, PRIMARY_LEVEL) && Stops(ts[j], PRIMARY_LEVEL)
    ensures ParsePrimary(ts, c) == Ok((e, Reached(c, j, e)))
    decreases j - c.i, 0
  {
    hide LeafDerives, ParsePrimary, ParseOr, Derives, Terms;
    if LeafDerives(ts[c.i..j], e) {
      LeafComplete(ts, c, j, e);
      LeafHasNoTerms(ts[c.i..j], e);
    } else {
      ParenPhrase(ts, c, j, e);
      OrComplete(ts, LeftAt(c), j - 1, e);
      ParenDone(ts, c, e, Reached(LeftAt(c), j - 1, e));
    }
  }

  lemma ParenPhrase(ts: seq<Token>, c: Cursor, j: nat, e: Expr)
    requires Phrase(ts, c, j, e, PRIMARY_LEVEL) && !LeafDerives(ts[c.i..j], e)
    ensures ts[c.i] == OPEN && ts[j - 1] == CLOSE && c.depth < MAX_EXPR_DEPTH
    ensures Phrase(ts, LeftAt(c), j - 1, e, OR_LEVEL) && Stops(ts[j - 1], OR_LEVEL)
  {
    hide LeafDerives, Derives, Terms;
    var all := ts[c.i..j];
    Inside(all, e, Left(c));
    InSpan(ts, c.i, j, 0);
    InSpan(ts, c.i, j, |all| - 1);
    Span(ts, c.i, j, 1, |all| - 1);
    NotEmpty(ts[c.i + 1..j - 1], e, OR_LEVEL, Left(c) - 1);
  }

  lemma Inside(ts: seq<Token>, e: Expr, depth: nat)
    requires Derives(ts, e, PRIMARY_LEVEL, depth) && !LeafDerives(ts, e)
    ensures |ts| >= 2 && ts[0] == OPEN && ts[|ts| - 1] == CLOSE && depth > 0
    ensures Derives(ts[1..|ts| - 1], e, OR_LEVEL, depth - 1)
  {
    hide LeafDerives;
  }

  lemma LeafHasNoTerms(ts: seq<Token>, e: Expr)
    requires LeafDerives(ts, e)
    ensures Terms(e) == 0
  {
  }

  lemma {:induction false} ComparisonComplete(ts: seq<Token>, c: Cursor, j: nat, e: Expr)
    requires Phrase(ts, c, j, e, COMPARISON_LEVEL) && Stops(ts[j], COMPARISON_LEVEL)
    ensures ParseComparison(ts, c) == Ok((e, Reached(c, j, e)))
    decreases j - c.i, 1
  {
    hide ParsePrimary, Derives;
    if Derives(ts[c.i..j], e, PRIMARY_LEVEL, Left(c)) {
      PrimaryComplete(ts, c, j, e);
    } else {
      var k := Split(ts, c, j, e, COMPARISON_LEVEL);
      PrimaryComplete(ts, c, k, e.left);
      PrimaryComplete(ts, Step(Reached(c, k, e.left)), j, e.right);
    }
  }

  // Where the operator of a joined expression stands.
  lemma Split(ts: seq<Token>, c: Cursor, j: nat, e: Expr, level: nat) returns (k: nat)
    requires level < PRIMARY_LEVEL && Phrase(ts, c, j, e, level) && !Derives(ts[c.i..j], e, level + 1, Left(c))
    ensures c.i < k < j - 1 && IsCompound(e) && LevelOf(e) == level && (e.Compare? ==> ComparisonSign(e.cmp))
    ensures ts[k] == Sign(e) && Phrase(ts, c, k, e.left, LeftLevel(e))
    ensures Derives(ts[k + 1..j], e.right, RightLevel(e), Left(c))
    ensures c.terms + Terms(e.left) + (if e.Logic? then 1 else 0) + Terms(e.right) <= MAX_EXPR_TERMS
    ensures Terms(e) == Terms(e.left) + (if e.Logic? then 1 else 0) + Terms(e.right)
  {
    hide Derives;
    var all := ts[c.i..j];
    var n := JoinFound(all, e, level, Left(c));
    k := c.i + n;
    Span(ts, c.i, j, 0, n);
    Span(ts, c.i, j, n + 1, |all|);
    assert all[..n] == all[0..n] && all[n + 1..] == all[n + 1..|all|] && all[n] == ts[k];
    NotEmpty(ts[c.i..k], e.left, LeftLevel(e), Left(c));
    NotEmpty(ts[k + 1..j], e.right, RightLevel(e), Left(c));
  }

  lemma JoinFound(ts: seq<Token>, e: Expr, level: nat, depth: nat) returns (n: nat)
    requires level < PRIMARY_LEVEL && Derives(ts, e, level, depth) && !Derives(ts, e, level + 1, depth)
    ensures IsCompound(e) && LevelOf(e) == level && (e.Compare? ==> ComparisonSign(e.cmp))
    ensures n < |ts| && ts[n] == Sign(e)
    ensures Derives(ts[..n], e.left, LeftLevel(e), depth) && Derives(ts[n + 1..], e.right, RightLevel(e), depth)
  {
    hide LeafDerives, JoinedAt;
    n :| JoinedAt(ts, e, level, depth, n);
    JoinMeans(ts, e, level, depth, n);
  }

  lemma JoinMeans(ts: seq<Token>, e: Expr, level: nat, depth: nat, n: nat)
    requires level < PRIMARY_LEVEL && JoinedAt(ts, e, level, depth, n)
    ensures IsCompound(e) && LevelOf(e) == level && (e.Compare? ==> ComparisonSign(e.cmp))
    ensures n < |ts| && ts[n] == Sign(e)
    ensures Derives(ts[..n], e.left, LeftLevel(e), depth) && Derives(ts[n + 1..], e.right, RightLevel(e), depth)
  {
    hide Derives;
  }

  lemma AndGoesOn(ts: seq<Token>, l: Expr, c: Cursor, r: Expr, d: Cursor)
    requires InRange(ts, c) && ts[c.i] == Token(Keyword, "AND") && c.terms < MAX_EXPR_TERMS
    requires InRange(ts, Step(c)) && ParseComparison(ts, Step(c).(terms := c.terms + 1)) == Ok((r, d))
    ensures AndRest(ts, l, c) == AndRest(ts, Logic(And, l, r), d)
  {
    hide ParseComparison;
  }

  lemma OrGoesOn(ts: seq<Token>, l: Expr, c: Cursor, r: Expr, d: Cursor)
    requires InRange(ts, c) && ts[c.i] == Token(Keyword, "OR") && c.terms < MAX_EXPR_TERMS
    requires InRange(ts, Step(c)) && ParseAnd(ts, Step(c).(terms := c.terms + 1)) == Ok((r, d))
    ensures OrRest(ts, l, c) == OrRest(ts, Logic(Or, l, r), d)
  {
    hide ParseAnd;
  }

  // The AND loop arrives at e with the tokens up to j read.
  lemma {:induction false} AndArrives(ts: seq<Token>, c: Cursor, j: nat, e: Expr)
    requires Phrase(ts, c, j, e, AND_LEVEL) && Stops(ts[j], COMPARISON_LEVEL)
    ensures ParseAnd(ts, c) == AndRest(ts, e, Reached(c, j, e))
    decreases j - c.i, 2
  {
    hide ParseComparison, AndRest, Derives;
    if Derives(ts[c.i..j], e, COMPARISON_LEVEL, Left(c)) {
      ComparisonComplete(ts, c, j, e);
    } else {
      var k := Split(ts, c, j, e, AND_LEVEL);
      AndArrives(ts, c, k, e.left);
      var d := Reached(c, k, e.left);
      var next := Step(d).(terms := d.terms + 1);
      ComparisonComplete(ts, next, j, e.right);
      AndGoesOn(ts, e.left, d, e.right, Reached(next, j, e.right));
    }
  }

  lemma {:induction false} AndComplete(ts: seq<Token>, c: Cursor, j: nat, e: Expr)
    requires Phrase(ts, c, j, e, AND_LEVEL) && Stops(ts[j], AND_LEVEL)
    ensures ParseAnd(ts, c) == Ok((e, Reached(c, j, e)))
    decreases j - c.i, 3
  {
    AndArrives(ts, c, j, e);
  }

  lemma {:induction false} OrArrives(ts: seq<Token>, c: Cursor, j: nat, e: Expr)
    requires Phrase(ts, c, j, e, OR_LEVEL) && Stops(ts[j], AND_LEVEL)
    ensures ParseOr(ts, c) == OrRest(ts, e, Reached(c, j, e))
    decreases j - c.i, 4
  {
    hide ParseAnd, OrRest, Derives;
    if Derives(ts[c.i..j], e, AND_LEVEL, Left(c)) {
      AndComplete(ts, c, j, e);
    } else {
      var k := Split(ts, c, j, e, OR_LEVEL);
      OrArrives(ts, c, k, e.left);
      var d := Reached(c, k, e.left);
      var next := Step(d).(terms := d.terms + 1);
      AndComplete(ts, next, j, e.right);
      OrGoesOn(ts, e.left, d, e.right, Reached(next, j, e.right));
    }
  }

  // Completeness: an expression the grammar derives, within the caps and followed by a
  // token that does not continue it, is what the parser returns, and no token more.
  lemma {:induction false} OrComplete(ts: seq<Token>, c: Cursor, j: nat, e: Expr)
    requires Phrase(ts, c, j, e, OR_LEVEL) && Stops(ts[j], OR_LEVEL)
    ensures ParseOr(ts, c) == Ok((e, Reached(c, j, e)))
    decreases j - c.i, 5
  {
    OrArrives(ts, c, j, e);
  }

  // So the grammar is unambiguous.
  lemma Unambiguous(ts: seq<Token>, e: Expr, f: Expr)
    requires Derives(ts, e, OR_LEVEL, MAX_EXPR_DEPTH) && Terms(e) <= MAX_EXPR_TERMS
    requires Derives(ts, f, OR_LEVEL, MAX_EXPR_DEPTH) && Terms(f) <= MAX_EXPR_TERMS
    ensures e == f
  {
    var all, c := ts + [Token(Eof, "")], Cursor(0, 0, 0);
    NotEmpty(ts, e, OR_LEVEL, MAX_EXPR_DEPTH);
    assert all[0..|ts|] == ts;
    OrComplete(all, c, |ts|, e);
    OrComplete(all, c, |ts|, f);
  }

  // ------------------------------------------------------------------
  // Lists
  // ------------------------------------------------------------------

  lemma ItemComplete(ts: seq<Token>, c: Cursor, j: nat, e: Expr)
    requires InRange(ts, c) && c.i < j < |ts| && ItemDerives(ts[c.i..j], e) && Ends(ts[j])
    ensures ParseItem(ts, c) == Ok((e, c.(i := j)))
  {
    hide ParseFunc, ParseColumnRef, ParsePrimary, CallDerives, ColumnTokens;
    if e.Column? {
      ColumnComplete(ts, c, j, e.col);
    } else {
      CallComplete(ts, c, j, e.name, e.arg);
    }
  }

  // A list of more than one element is a shorter one, a comma and an element.
  lemma ListSplit<T>(ts: seq<Token>, i: nat, j: nat, xs: seq<T>, one: (seq<Token>, T) -> bool) returns (k: nat)
    requires i <= j <= |ts| && ListDerives(ts[i..j], xs, one) && |xs| > 1
    ensures i <= k < j && ts[k] == COMMA
    ensures ListDerives(ts[i..k], xs[..|xs| - 1], one) && one(ts[k + 1..j], xs[|xs| - 1])
  {
    hide ListDerives;
    var all := ts[i..j];
    var n := CommaFound(all, xs, one);
    k := i + n;
    Span(ts, i, j, 0, n);
    Span(ts, i, j, n + 1, |all|);
    assert all[..n] == all[0..n] && all[n + 1..] == all[n + 1..|all|];
  }

  lemma CommaFound<T>(ts: seq<Token>, xs: seq<T>, one: (seq<Token>, T) -> bool) returns (n: nat)
    requires ListDerives(ts, xs, one) && |xs| > 1
    ensures n < |ts| && ts[n] == COMMA && ListDerives(ts[..n], xs[..|xs| - 1], one) && one(ts[n + 1..], xs[|xs| - 1])
  {
    n :| && 0 <= n < |ts| && ts[n] == COMMA
         && ListDerives(ts[..n], xs[..|xs| - 1], one) && one(ts[n + 1..], xs[|xs| - 1]);
  }

  lemma NextItem(ts: seq<Token>, es: seq<Expr>, e: Expr, c: Cursor, j: nat)
    requires InRange(ts, c) && ts[c.i] == COMMA && c.i < j < |ts| && Ends(ts[j])
    requires ItemDerives(ts[c.i + 1..j], e)
    ensures ItemsRest(ts, es, c) == ItemsRest(ts, es + [e], c.(i := j))
  {
    hide ParseItem, LeafDerives;
    ItemNotEmpty(ts[c.i + 1..j], e);
    ItemComplete(ts, Step(c), j, e);
  }

  // The loop over further items arrives at es with the tokens up to j read.
  lemma {:induction false} ItemsArrive(ts: seq<Token>, c: Cursor, j: nat, es: seq<Expr>)
    requires InRange(ts, c) && c.i <= j < |ts| && ListDerives(ts[c.i..j], es, ItemDerives) && Ends(ts[j])
    ensures c.i < j
    ensures var first := ParseItem(ts, c);
      first.Ok? && ItemsRest(ts, [first.value.0], first.value.1) == ItemsRest(ts, es, c.(i := j))
    decreases |es|
  {
    hide ParseItem, LeafDerives;
    if |es| == 1 {
      ItemNotEmpty(ts[c.i..j], es[0]);
      ItemComplete(ts, c, j, es[0]);
      assert es == [es[0]];
    } else {
      var k := ListSplit(ts, c.i, j, es, ItemDerives);
      var before, last := es[..|es| - 1], es[|es| - 1];
      ItemsArrive(ts, c, k, before);
      NextItem(ts, before, last, c.(i := k), j);
      assert before + [last] == es;
    }
  }

  lemma ItemNotEmpty(ts: seq<Token>, e: Expr)
    requires ItemDerives(ts, e)
    ensures ts != []
  {
  }

  lemma ProjectionsComplete(ts: seq<Token>, c: Cursor, j: nat, p: Option<seq<Expr>>)
    requires InRange(ts, c) && c.i <= j < |ts| && ProjectionsDerive(ts[c.i..j], p) && Closes(ts[j])
    ensures ParseProjections(ts, c) == Ok((p, c.(i := j)))
  {
    hide ParseItem, LeafDerives;
    match p
    case None =>
      assert ts[c.i..j][0] == ts[c.i];
    case Some(es) =>
      ItemsArrive(ts, c, j, es);
      FirstNoStar(ts, c);
  }

  lemma FirstNoStar(ts: seq<Token>, c: Cursor)
    requires InRange(ts, c) && ParseItem(ts, c).Ok?
    ensures ts[c.i].kind != Star
  {
  }

  lemma NextValue(ts: seq<Token>, ls: seq<Literal>, l: Literal, c: Cursor, j: nat)
    requires InRange(ts, c) && ts[c.i] == COMMA && c.i < j < |ts|
    requires ValueDerives(ts[c.i + 1..j], l)
    ensures LiteralsRest(ts, ls, c) == LiteralsRest(ts, ls + [l], c.(i := j))
  {
    hide ParseLiteral, ValueDerives;
    ValueComplete(ts, Step(c), j, l);
  }

  lemma {:induction false} ValuesArrive(ts: seq<Token>, c: Cursor, j: nat, ls: seq<Literal>)
    requires InRange(ts, c) && c.i <= j < |ts| && ListDerives(ts[c.i..j], ls, ValueDerives)
    ensures c.i < j
    ensures var first := ParseLiteral(ts, c);
      first.Ok? && LiteralsRest(ts, [first.value.0], first.value.1) == LiteralsRest(ts, ls, c.(i := j))
    decreases |ls|
  {
    hide ParseLiteral, ValueDerives;
    if |ls| == 1 {
      ValueComplete(ts, c, j, ls[0]);
      assert ls == [ls[0]];
    } else {
      var k := ListSplit(ts, c.i, j, ls, ValueDerives);
      var before, last := ls[..|ls| - 1], ls[|ls| - 1];
      ValuesArrive(ts, c, k, before);
      NextValue(ts, before, last, c.(i := k), j);
      assert before + [last] == ls;
    }
  }

  lemma ValueComplete(ts: seq<Token>, c: Cursor, j: nat, l: Literal)
    requires InRange(ts, c) && c.i <= j < |ts| && ValueDerives(ts[c.i..j], l)
    ensures c.i < j && ParseLiteral(ts, c) == Ok((l, c.(i := j)))
  {
    assert ts[c.i..j][0] == ts[c.i];
  }

  lemma NextDef(ts: seq<Token>, ds: seq<ColumnDef>, d: ColumnDef, c: Cursor, j: nat)
    requires InRange(ts, c) && ts[c.i] == COMMA && c.i < j < |ts|
    requires DefDerives(ts[c.i + 1..j], d)
    ensures ColumnDefsRest(ts, ds, c) == ColumnDefsRest(ts, ds + [d], c.(i := j))
  {
    hide ParseColumnDef, DefDerives;
    DefComplete(ts, Step(c), j, d);
  }

  lemma {:induction false} DefsArrive(ts: seq<Token>, c: Cursor, j: nat, ds: seq<ColumnDef>)
    requires InRange(ts, c) && c.i <= j < |ts| && ListDerives(ts[c.i..j], ds, DefDerives)
    ensures c.i < j
    ensures var first := ParseColumnDef(ts, c);
      first.Ok? && ColumnDefsRest(ts, [first.value.0], first.value.1) == ColumnDefsRest(ts, ds, c.(i := j))
    decreases |ds|
  {
    hide ParseColumnDef, DefDerives;
    if |ds| == 1 {
      DefComplete(ts, c, j, ds[0]);
      assert ds == [ds[0]];
    } else {
      var k := ListSplit(ts, c.i, j, ds, DefDerives);
      var before, last := ds[..|ds| - 1], ds[|ds| - 1];
      DefsArrive(ts, c, k, before);
      NextDef(ts, before, last, c.(i := k), j);
      assert before + [last] == ds;
    }
  }

  lemma DefComplete(ts: seq<Token>, c: Cursor, j: nat, d: ColumnDef)
    requires InRange(ts, c) && c.i <= j < |ts| && DefDerives(ts[c.i..j], d)
    ensures c.i < j && ParseColumnDef(ts, c) == Ok((d, c.(i := j)))
  {
    hide Upper, IsColumnType, AnyCase, TypeName;
    UpperIsAnyCase(ts[c.i..j][1].value, d.colType);
    VocabularyIs(d.colType);
    assert ts[c.i..j][0] == ts[c.i] && ts[c.i..j][1] == ts[c.i + 1];
  }

  // ------------------------------------------------------------------
  // Clauses
  // ------------------------------------------------------------------

  lemma JoinComplete(ts: seq<Token>, c: Cursor, j: nat, join: Option<Join>)
    requires InRange(ts, c) && c.i <= j < |ts| && ts[c.i..j] == JoinTokens(join) && Later(ts[j], 1)
    ensures JoinClause(ts, c) == Ok((join, c.(i := j)))
  {
    hide JoinTokens, ClauseOf;
    LaterToken(ts[j], 1);
    if join.Some? {
      var m := JoinCut(ts, c.i, j, join.value);
      JoinStands(ts, c, m, j, join.value);
    } else {
      NoJoinTokens();
    }
  }

  lemma NoJoinTokens()
    ensures JoinTokens(None) == []
  {
  }

  // Where the equals sign of a JOIN stands.
  lemma JoinCut(ts: seq<Token>, i: nat, j: nat, join: Join) returns (m: nat)
    requires i <= j <= |ts| && ts[i..j] == JoinTokens(Some(join))
    ensures i + 3 <= m < j && ts[i..i + 3] == [Word("JOIN"), Name(join.table), Word("ON")]
    ensures ts[i + 3..m] == ColumnTokens(join.left) && ts[m] == Token(Op, "=")
    ensures ts[m + 1..j] == ColumnTokens(join.right)
  {
    hide ColumnTokens, Word, Name;
    var n := |ColumnTokens(join.left)|;
    m := i + 3 + n;
    FourParts([Word("JOIN"), Name(join.table), Word("ON")], ColumnTokens(join.left), Token(Op, "="),
              ColumnTokens(join.right));
    Span(ts, i, j, 0, 3);
    Span(ts, i, j, 3, 3 + n);
    InSpan(ts, i, j, 3 + n);
    Span(ts, i, j, 4 + n, j - i);
  }

  lemma FourParts(a: seq<Token>, b: seq<Token>, t: Token, c: seq<Token>)
    ensures var all := a + b + [t] + c;
      && all[0..|a|] == a && all[|a|..|a| + |b|] == b && all[|a| + |b|] == t
      && all[|a| + |b| + 1..|all|] == c && |all| == |a| + |b| + 1 + |c|
  {
  }

  lemma JoinStands(ts: seq<Token>, c: Cursor, m: nat, j: nat, join: Join)
    requires InRange(ts, c) && c.i + 3 <= m < j < |ts| && Ends(ts[j])
    requires ts[c.i..c.i + 3] == [Word("JOIN"), Name(join.table), Word("ON")]
    requires ts[c.i + 3..m] == ColumnTokens(join.left) && ts[m] == Token(Op, "=")
    requires ts[m + 1..j] == ColumnTokens(join.right)
    ensures JoinClause(ts, c) == Ok((Some(join), c.(i := j)))
  {
    hide ParseColumnRef, ColumnTokens;
    var head := ts[c.i..c.i + 3];
    assert head[0] == ts[c.i] && head[1] == ts[c.i + 1] && head[2] == ts[c.i + 2];
    ColumnParses(ts, c.(i := c.i + 3), join.left);
    ColumnParses(ts, c.(i := m + 1), join.right);
  }

  lemma WhereComplete(ts: seq<Token>, c: Cursor, j: nat, w: Option<Expr>)
    requires InRange(ts, c) && c.i <= j < |ts| && WhereDerives(ts[c.i..j], w) && Later(ts[j], 2)
    requires c.depth == 0 && (w.Some? ==> c.terms + Terms(w.value) <= MAX_EXPR_TERMS)
    ensures WhereClause(ts, c) == Ok((w, Cursor(j, 0, c.terms + if w.Some? then Terms(w.value) else 0)))
  {
    hide ParseOr, Derives, ClauseOf, Terms;
    LaterToken(ts[j], 2);
    if w.Some? {
      var all := ts[c.i..j];
      assert all[0] == ts[c.i];
      Span(ts, c.i, j, 1, |all|);
      assert all[1..] == all[1..|all|];
      NotEmpty(ts[c.i + 1..j], w.value, OR_LEVEL, MAX_EXPR_DEPTH);
      OrComplete(ts, Step(c), j, w.value);
    }
  }

  lemma GroupComplete(ts: seq<Token>, c: Cursor, j: nat, g: Option<string>)
    requires InRange(ts, c) && c.i <= j < |ts| && ts[c.i..j] == GroupTokens(g) && Later(ts[j], 3)
    ensures GroupClause(ts, c) == Ok((g, c.(i := j)))
  {
    LaterToken(ts[j], 3);
    if g.Some? {
      InSpan(ts, c.i, j, 0);
      InSpan(ts, c.i, j, 1);
      InSpan(ts, c.i, j, 2);
    }
  }

  lemma OrderComplete(ts: seq<Token>, c: Cursor, j: nat, order: Option<OrderBy>)
    requires InRange(ts, c) && c.i <= j < |ts| && OrderDerives(ts[c.i..j], order) && Later(ts[j], 4)
    ensures OrderClause(ts, c) == Ok((order, c.(i := j)))
  {
    hide ClauseOf;
    LaterToken(ts[j], 4);
    if order.Some? {
      var all := ts[c.i..j];
      InSpan(ts, c.i, j, 0);
      InSpan(ts, c.i, j, 1);
      InSpan(ts, c.i, j, 2);
      if |all| == 4 {
        InSpan(ts, c.i, j, 3);
      }
    }
  }

  lemma LimitComplete(ts: seq<Token>, c: Cursor, j: nat, limit: Option<nat>)
    requires InRange(ts, c) && c.i <= j < |ts| && LimitDerives(ts[c.i..j], limit) && Later(ts[j], 5)
    ensures LimitClause(ts, c) == Ok((limit, c.(i := j)))
  {
    LaterToken(ts[j], 5);
    if limit.Some? {
      InSpan(ts, c.i, j, 0);
      InSpan(ts, c.i, j, 1);
    }
  }

  // ------------------------------------------------------------------
  // Statements
  // ------------------------------------------------------------------

  // The AND and OR a statement holds.
  function Operators(stmt: Statement): nat {
    if stmt.Query? && stmt.select.where.Some? then Terms(stmt.select.where.value) else 0
  }

  // Each clause is nothing or opens with its keyword, so it may stand behind the ones
  // before it.
  lemma ClausesInTurn(ts: seq<Token>, i: nat, j: nat, s: Select, c: Cuts)
    requires j < |ts| && SelectAt(ts, i, j, s, c) && Later(ts[j], 5)
    ensures Later(ts[c.limit], 4) && Later(ts[c.order], 3) && Later(ts[c.group], 2) && Later(ts[c.where], 1)
  {
    hide ColumnTokens, Derives, ListDerives;
    Opens(ts, c.limit, j, 5);
    Opens(ts, c.order, c.limit, 4);
    Opens(ts, c.group, c.order, 3);
    Opens(ts, c.where, c.group, 2);
  }

  lemma Opens(ts: seq<Token>, i: nat, j: nat, n: nat)
    requires i <= j < |ts| && Later(ts[j], n) && n > 0 && (ts[i..j] == [] || ClauseOf(ts[i..j][0]) == n)
    ensures Later(ts[i], n - 1)
  {
    hide ClauseOf;
    if i < j {
      assert ts[i..j][0] == ts[i];
    }
  }

  lemma SelectComplete(ts: seq<Token>, c: Cursor, j: nat, s: Select, cuts: Cuts)
    requires InRange(ts, c) && j < |ts| && SelectAt(ts, c.i, j, s, cuts) && Later(ts[j], 5)
    requires c.depth == 0 == c.terms && Operators(Query(s)) <= MAX_EXPR_TERMS
    ensures ParseSelect(ts, c) == Ok((Query(s), Cursor(j, 0, Operators(Query(s)))))
  {
    hide ParseSelect, ParseProjections, JoinClause, WhereClause, GroupClause, OrderClause, LimitClause, Later, Terms,
         ProjectionsDerive, JoinTokens, WhereDerives, GroupTokens, OrderDerives, LimitDerives, Take;
    ClausesInTurn(ts, c.i, j, s, cuts);
    FromCloses(ts[cuts.from..]);
    ProjectionsComplete(ts, Step(c), cuts.from, s.projections);
    JoinComplete(ts, c.(i := cuts.join), cuts.where, s.join);
    WhereComplete(ts, c.(i := cuts.where), cuts.group, s.where);
    var n := Operators(Query(s));
    GroupComplete(ts, Cursor(cuts.group, 0, n), cuts.order, s.groupBy);
    OrderComplete(ts, Cursor(cuts.order, 0, n), cuts.limit, s.orderBy);
    LimitComplete(ts, Cursor(cuts.limit, 0, n), j, s.limit);
    HeadParses(ts, c, cuts.from, s.table);
    SelectSteps(ts, c, s, c.(i := cuts.from), c.(i := cuts.where), Cursor(cuts.group, 0, n), Cursor(cuts.order, 0, n),
                Cursor(cuts.limit, 0, n), Cursor(j, 0, n));
  }

  lemma HeadParses(ts: seq<Token>, c: Cursor, from: nat, table: string)
    requires InRange(ts, c) && c.i < from && from + 2 < |ts|
    requires ts[c.i] == Word("SELECT") && ts[from] == Word("FROM") && ts[from + 1] == Name(table)
    ensures Take(ts, c, Keyword, Some("SELECT")) == Ok(("SELECT", Step(c)))
    ensures Take(ts, c.(i := from), Keyword, Some("FROM")) == Ok(("FROM", c.(i := from + 1)))
    ensures Take(ts, c.(i := from + 1), Ident, None) == Ok((table, c.(i := from + 2)))
  {
  }

  lemma DefsComplete(ts: seq<Token>, c: Cursor, j: nat, ds: seq<ColumnDef>)
    requires InRange(ts, c) && c.i <= j < |ts| && ListDerives(ts[c.i..j], ds, DefDerives) && ts[j] == CLOSE
    ensures ParseColumnDefs(ts, c) == Ok((ds, c.(i := j)))
  {
    hide ParseColumnDef, ListDerives, DefDerives;
    DefsArrive(ts, c, j, ds);
  }

  lemma ValuesComplete(ts: seq<Token>, c: Cursor, j: nat, ls: seq<Literal>)
    requires InRange(ts, c) && c.i <= j < |ts| && ListDerives(ts[c.i..j], ls, ValueDerives) && ts[j] == CLOSE
    ensures ParseLiterals(ts, c) == Ok((ls, c.(i := j)))
  {
    hide ParseLiteral, ListDerives, ValueDerives;
    ValuesArrive(ts, c, j, ls);
  }

  lemma CreateComplete(ts: seq<Token>, c: Cursor, j: nat, table: string, ds: seq<ColumnDef>)
    requires InRange(ts, c) && c.i <= j < |ts| && StatementDerives(ts, c.i, j, CreateTable(table, ds))
    ensures ParseCreate(ts, c) == Ok((CreateTable(table, ds), c.(i := j)))
  {
    hide ParseCreate, ParseColumnDefs, ListDerives, DefDerives;
    DefsComplete(ts, c.(i := c.i + 4), j - 1, ds);
    CreateStands(ts, c, j, table, ds);
  }

  lemma CreateStands(ts: seq<Token>, c: Cursor, j: nat, table: string, ds: seq<ColumnDef>)
    requires InRange(ts, c) && c.i + 5 <= j < |ts| && ts[j - 1] == CLOSE
    requires ts[c.i..c.i + 4] == [Word("CREATE"), Word("TABLE"), Name(table), OPEN]
    requires ParseColumnDefs(ts, c.(i := c.i + 4)) == Ok((ds, c.(i := j - 1)))
    ensures ParseCreate(ts, c) == Ok((CreateTable(table, ds), c.(i := j)))
  {
    hide ParseColumnDefs, Take;
    TakesAt(ts, c, 4, 0);
    TakesAt(ts, c, 4, 1);
    TakesAt(ts, c, 4, 2);
    TakesAt(ts, c, 4, 3);
    Takes(ts, c.(i := j - 1));
  }

  lemma InsertComplete(ts: seq<Token>, c: Cursor, j: nat, table: string, ls: seq<Literal>)
    requires InRange(ts, c) && c.i <= j < |ts| && StatementDerives(ts, c.i, j, Insert(table, ls))
    ensures ParseInsert(ts, c) == Ok((Insert(table, ls), c.(i := j)))
  {
    hide ParseInsert, ParseLiterals, ListDerives, ValueDerives;
    ValuesComplete(ts, c.(i := c.i + 5), j - 1, ls);
    InsertStands(ts, c, j, table, ls);
  }

  lemma InsertStands(ts: seq<Token>, c: Cursor, j: nat, table: string, ls: seq<Literal>)
    requires InRange(ts, c) && c.i + 6 <= j < |ts| && ts[j - 1] == CLOSE
    requires ts[c.i..c.i + 5] == [Word("INSERT"), Word("INTO"), Name(table), Word("VALUES"), OPEN]
    requires ParseLiterals(ts, c.(i := c.i + 5)) == Ok((ls, c.(i := j - 1)))
    ensures ParseInsert(ts, c) == Ok((Insert(table, ls), c.(i := j)))
  {
    hide ParseLiterals, Take;
    TakesAt(ts, c, 5, 0);
    TakesAt(ts, c, 5, 1);
    TakesAt(ts, c, 5, 2);
    TakesAt(ts, c, 5, 3);
    TakesAt(ts, c, 5, 4);
    Takes(ts, c.(i := j - 1));
  }

  lemma Takes(ts: seq<Token>, c: Cursor)
    requires InRange(ts, c) && ts[c.i].kind != Eof && c.i + 1 < |ts|
    ensures var t := ts[c.i];
      && Take(ts, c, t.kind, Some(t.value)) == Ok((t.value, Step(c)))
      && Take(ts, c, t.kind, None) == Ok((t.value, Step(c)))
  {
  }

  // The same for a token of a span.
  lemma TakesAt(ts: seq<Token>, c: Cursor, n: nat, k: nat)
    requires InRange(ts, c) && k < n && c.i + n < |ts| && ts[c.i..c.i + n][k].kind != Eof
    ensures var t, d := ts[c.i..c.i + n][k], c.(i := c.i + k);
      && Take(ts, d, t.kind, Some(t.value)) == Ok((t.value, Step(d)))
      && Take(ts, d, t.kind, None) == Ok((t.value, Step(d)))
  {
    InSpan(ts, c.i, c.i + n, k);
    Takes(ts, c.(i := c.i + k));
  }

  // The end of the tokens, or a semicolon before it, stands at j.
  predicate EndsAt(ts: seq<Token>, j: nat) {
    && j < |ts|
    && (ts[j] == Token(Eof, "") || (ts[j] == Token(Punct, ";") && j + 1 < |ts| && ts[j + 1] == Token(Eof, "")))
  }

  // The grammar derives the statement from the tokens in front of the end, and it keeps
  // the cap on its operators.
  ghost predicate Accepted(ts: seq<Token>, stmt: Statement, j: nat) {
    EndsAt(ts, j) && StatementDerives(ts, 0, j, stmt) && Operators(stmt) <= 500
  }

  lemma StatementComplete(ts: seq<Token>, stmt: Statement, j: nat)
    requires Terminated(ts) && Accepted(ts, stmt, j)
    ensures var r := ParseStatement(ts, Cursor(0, 0, 0)); r.Ok? && r.value.0 == stmt
  {
    hide ParseCreate, ParseInsert, ParseSelect, StatementDerives, Terms;
    var c := Cursor(0, 0, 0);
    Opening(ts, j, stmt);
    match stmt
    case CreateTable(table, ds) => CreateComplete(ts, c, j, table, ds);
    case Insert(table, ls) => InsertComplete(ts, c, j, table, ls);
    case Query(s) => QueryComplete(ts, c, j, s);
  }

  lemma Opening(ts: seq<Token>, j: nat, stmt: Statement)
    requires j <= |ts| && StatementDerives(ts, 0, j, stmt)
    ensures j > 0 && ts[0] == Word(match stmt case CreateTable(_, _) => "CREATE" case Insert(_, _) => "INSERT"
                                   case Query(_) => "SELECT")
  {
    hide ListDerives, ProjectionsDerive, JoinTokens, WhereDerives, GroupTokens, OrderDerives, LimitDerives;
  }

  lemma QueryComplete(ts: seq<Token>, c: Cursor, j: nat, s: Select)
    requires InRange(ts, c) && c.i <= j && EndsAt(ts, j) && StatementDerives(ts, c.i, j, Query(s))
    requires c.depth == 0 == c.terms && Operators(Query(s)) <= MAX_EXPR_TERMS
    ensures ParseSelect(ts, c) == Ok((Query(s), Cursor(j, 0, Operators(Query(s)))))
  {
    hide SelectAt, ParseSelect, Terms;
    var cuts :| SelectAt(ts, c.i, j, s, cuts);
    SelectComplete(ts, c, j, s, cuts);
  }

  lemma {:induction false} ItemsCount(ts: seq<Token>, items: seq<Expr>, c: Cursor)
    requires InRange(ts, c)
    ensures var r := ItemsRest(ts, items, c); r.Ok? ==> r.value.1.terms == c.terms
    decreases |ts| - c.i
  {
    if !AtPunct(ts, c, ",") {
    } else if ParseItem(ts, Step(c)).Ok? {
      var (item, d) := ParseItem(ts, Step(c)).value;
      ItemsCount(ts, items + [item], d);
    }
  }

  lemma ProjectionsCount(ts: seq<Token>, c: Cursor)
    requires InRange(ts, c)
    ensures var r := ParseProjections(ts, c); r.Ok? ==> r.value.1.terms == c.terms
  {
    hide ParseFunc, ParseColumnRef, ItemsRest;
    if ts[c.i].kind != Star && ParseItem(ts, c).Ok? {
      var (item, d) := ParseItem(ts, c).value;
      ItemsCount(ts, [item], d);
    }
  }

  lemma JoinCounts(ts: seq<Token>, c: Cursor)
    requires InRange(ts, c)
    ensures var r := JoinClause(ts, c); r.Ok? ==> r.value.1.terms == c.terms
  {
    hide ParseColumnRef;
  }

  // What the parser returns keeps the cap on operators.
  lemma SelectTerms(ts: seq<Token>, c: Cursor)
    requires InRange(ts, c) && AllProper(ts) && c.terms == 0
    ensures var r := ParseSelect(ts, c); r.Ok? ==> Operators(r.value.0) <= MAX_EXPR_TERMS
  {
    hide ParseSelect, ParseProjections, JoinClause, GroupClause, OrderClause, LimitClause, ParseOr, Terms, ProperExpr;
    if ParseSelect(ts, c).Ok? {
      var c2, c5, c6, c7, c8 := SelectCursors(ts, c);
      ProjectionsCount(ts, Step(c));
      JoinCounts(ts, Step(Step(c2)));
      if AtWord(ts, c5, "WHERE") {
        OrIsProper(ts, Step(c5));
      }
    }
  }

  lemma StatementTerms(ts: seq<Token>, c: Cursor)
    requires InRange(ts, c) && AllProper(ts) && c.terms == 0
    ensures var r := ParseStatement(ts, c); r.Ok? ==> Operators(r.value.0) <= MAX_EXPR_TERMS
  {
    hide ParseSelect, ParseColumnDefs, ParseLiterals, Terms, Take;
    SelectTerms(ts, c);
  }

  lemma {:induction false} LexEnds(s: string, k: nat)
    requires k < |Lex(s)| && Lex(s)[k].kind == Eof
    ensures Lex(s)[k] == Token(Eof, "")
    decreases |s|
  {
    if s != "" {
      var (t, n) := Next(s);
      if t.None? {
        LexEnds(s[n..], k);
      } else if k > 0 {
        LexEnds(s[n..], k - 1);
      }
    }
  }

  // The main result: a text parses to a statement exactly when the grammar derives the
  // statement from its tokens and the caps are kept.
  lemma ParseExact(sql: string, stmt: Statement)
    ensures InRange(Lex(sql), Cursor(0, 0, 0))
    ensures var r := ParseStatement(Lex(sql), Cursor(0, 0, 0));
      (r.Ok? && r.value.0 == stmt) <==> exists j :: Accepted(Lex(sql), stmt, j)
  {
    hide ParseStatement, StatementDerives, Terms, Lex;
    var ts, c := Lex(sql), Cursor(0, 0, 0);
    var r := ParseStatement(ts, c);
    if r.Ok? && r.value.0 == stmt {
      var d := r.value.1;
      StatementSound(ts, c);
      LexEnds(sql, d.i);
      LexProper(sql);
      StatementTerms(ts, c);
      assert Accepted(ts, stmt, d.i) || Accepted(ts, stmt, d.i - 1);
    }
    if j :| Accepted(ts, stmt, j) {
      StatementComplete(ts, stmt, j);
    }
  }
}
