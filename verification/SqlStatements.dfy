// Whole statements: the tokens of any well-formed statement parse back to it.
module SqlStatements {
  import opened Wrappers
  import opened SqlAst
  import opened SqlParser
  import opened SqlPrinter
  import opened SqlPrecedence

  const COMMA := Token(Punct, ",")

  function Word(w: string): Token {
    Token(Keyword, w)
  }

  function Name(s: string): Token {
    Token(Ident, s)
  }

  // ------------------------------------------------------------------
  // The tokens of a statement
  // ------------------------------------------------------------------

  function DefTokens(d: ColumnDef): seq<Token> {
    [Name(d.name), Name(d.colType)]
  }

  function MoreDefs(ds: seq<ColumnDef>): seq<Token> {
    if ds == [] then [] else [COMMA] + DefTokens(ds[0]) + MoreDefs(ds[1..])
  }

  function MoreLiterals(ls: seq<Literal>): seq<Token> {
    if ls == [] then [] else [COMMA] + [LiteralToken(ls[0])] + MoreLiterals(ls[1..])
  }

  function MoreItems(es: seq<Expr>): seq<Token> {
    if es == [] then [] else [COMMA] + Tokens(es[0]) + MoreItems(es[1..])
  }

  function ProjectionTokens(p: Option<seq<Expr>>): seq<Token> {
    match p
    case None => [Token(Star, "*")]
    case Some(es) => if es == [] then [] else Tokens(es[0]) + MoreItems(es[1..])
  }

  function JoinTokens(j: Option<Join>): seq<Token> {
    match j
    case None => []
    case Some(join) =>
      [Word("JOIN"), Name(join.table), Word("ON")] + ColumnTokens(join.left)
      + [Token(Op, "=")] + ColumnTokens(join.right)
  }

  function WhereTokens(w: Option<Expr>): seq<Token> {
    match w
    case None => []
    case Some(e) => [Word("WHERE")] + Minimal(e, OR_LEVEL)
  }

  function GroupTokens(g: Option<string>): seq<Token> {
    match g
    case None => []
    case Some(col) => [Word("GROUP"), Word("BY"), Name(col)]
  }

  function OrderTokens(order: Option<OrderBy>): seq<Token> {
    match order
    case None => []
    case Some(o) => [Word("ORDER"), Word("BY"), Name(o.column)] + if o.descending then [Word("DESC")] else []
  }

  function LimitTokens(l: Option<nat>): seq<Token> {
    match l
    case None => []
    case Some(n) => [Word("LIMIT"), Token(Int, ShowNat(n))]
  }

  function SelectTokens(s: Select): seq<Token> {
    [Word("SELECT")] + (ProjectionTokens(s.projections) + ([Word("FROM"), Name(s.table)] + (JoinTokens(s.join)
    + (WhereTokens(s.where) + (GroupTokens(s.groupBy) + (OrderTokens(s.orderBy) + LimitTokens(s.limit)))))))
  }

  function StatementTokens(stmt: Statement): seq<Token> {
    match stmt
    case CreateTable(table, ds) =>
      if ds == [] then []
      else
        [Word("CREATE"), Word("TABLE"), Name(table), OPEN] + (DefTokens(ds[0]) + (MoreDefs(ds[1..]) + [CLOSE]))
    case Insert(table, ls) =>
      if ls == [] then []
      else
        [Word("INSERT"), Word("INTO"), Name(table), Word("VALUES"), OPEN]
        + ([LiteralToken(ls[0])] + (MoreLiterals(ls[1..]) + [CLOSE]))
    case Query(s) => SelectTokens(s)
  }

  // Statements of the grammar.
  predicate WellFormed(stmt: Statement) {
    match stmt
    case CreateTable(_, ds) => ds != [] && forall i :: 0 <= i < |ds| ==> IsColumnType(ds[i].colType)
    case Insert(_, ls) => ls != []
    case Query(s) =>
      && (s.projections.Some? ==>
            s.projections.value != [] && forall i :: 0 <= i < |s.projections.value| ==> IsItem(s.projections.value[i]))
      && (s.where.Some? ==> ProperExpr(s.where.value) && Depth(s.where.value, OR_LEVEL) <= MAX_EXPR_DEPTH
                            && Terms(s.where.value) <= MAX_EXPR_TERMS)
  }

  predicate IsItem(e: Expr) {
    e.Column? || (e.Func? && IsFunction(e.name))
  }

  // ------------------------------------------------------------------
  // What stands at the cursor
  // ------------------------------------------------------------------

  // The rest of the tokens, from the cursor on.
  ghost predicate Here(ts: seq<Token>, c: Cursor, a: seq<Token>) {
    InRange(ts, c) && ts[c.i..] == a
  }

  function Past(c: Cursor, a: seq<Token>): Cursor {
    c.(i := c.i + |a|)
  }

  lemma Passed(ts: seq<Token>, c: Cursor, a: seq<Token>, rest: seq<Token>)
    requires Here(ts, c, a + rest) && rest != []
    ensures InRange(ts, c) && c.i + |a| < |ts| && ts[c.i..c.i + |a|] == a && Here(ts, Past(c, a), rest)
    ensures ts[c.i + |a|] == rest[0]
  {
    assert ts[c.i..][..|a|] == a && ts[c.i..][|a|..] == rest;
    assert ts[c.i + |a|..] == ts[c.i..][|a|..];
    assert ts[c.i..c.i + |a|] == ts[c.i..][..|a|];
    assert ts[c.i + |a|] == ts[c.i..][|a|];
  }

  lemma TakeParses(ts: seq<Token>, c: Cursor, t: Token, rest: seq<Token>)
    requires Here(ts, c, [t] + rest) && rest != [] && t.kind != Eof
    ensures InRange(ts, c) && InRange(ts, Step(c)) && ts[c.i] == t && Here(ts, Step(c), rest)
    ensures Take(ts, c, t.kind, Some(t.value)) == Ok((t.value, Step(c)))
    ensures Take(ts, c, t.kind, None) == Ok((t.value, Step(c)))
  {
    Passed(ts, c, [t], rest);
    assert ts[c.i..c.i + 1][0] == t;
  }

  lemma ColumnHere(ts: seq<Token>, c: Cursor, col: ColumnRef, rest: seq<Token>)
    requires Here(ts, c, ColumnTokens(col) + rest) && rest != [] && Ends(rest[0])
    ensures ParseColumnRef(ts, c) == Ok((col, Past(c, ColumnTokens(col)))) && Here(ts, Past(c, ColumnTokens(col)), rest)
  {
    hide ParseColumnRef;
    Passed(ts, c, ColumnTokens(col), rest);
    ColumnParses(ts, c, col);
  }

  lemma LiteralHere(ts: seq<Token>, c: Cursor, l: Literal, rest: seq<Token>)
    requires Here(ts, c, [LiteralToken(l)] + rest) && rest != []
    ensures ParseLiteral(ts, c) == Ok((l, Step(c))) && Here(ts, Step(c), rest)
  {
    hide ShowInt, ReadInt, IsNumber;
    TakeParses(ts, c, LiteralToken(l), rest);
    if l.IntLit? {
      ReadShowInt(l.i);
    }
  }

  // A column or a call in a SELECT list.
  lemma ItemHere(ts: seq<Token>, c: Cursor, e: Expr, rest: seq<Token>)
    requires IsItem(e) && Here(ts, c, Tokens(e) + rest) && rest != [] && Ends(rest[0])
    requires c.depth <= MAX_EXPR_DEPTH && c.terms <= MAX_EXPR_TERMS
    ensures ParseItem(ts, c) == Ok((e, Past(c, Tokens(e)))) && Here(ts, Past(c, Tokens(e)), rest)
  {
    Passed(ts, c, Tokens(e), rest);
    if e.Column? {
      ColumnItem(ts, c, e.col, rest);
    } else {
      CallItem(ts, c, e);
    }
  }

  lemma ColumnItem(ts: seq<Token>, c: Cursor, col: ColumnRef, rest: seq<Token>)
    requires Here(ts, c, ColumnTokens(col) + rest) && rest != [] && Ends(rest[0])
    ensures ParseItem(ts, c) == Ok((Column(col), Past(c, ColumnTokens(col))))
  {
    hide ParseColumnRef, ParseFunc, IsFunction, Upper;
    ColumnHere(ts, c, col, rest);
    Passed(ts, c, ColumnTokens(col), rest);
    SqlPrinter.At(ts, c.i, ColumnTokens(col), 0);
    if col.table.Some? {
      SqlPrinter.At(ts, c.i, ColumnTokens(col), 1);
    }
  }

  // A call that parses as a primary parses as an item.
  lemma CallItem(ts: seq<Token>, c: Cursor, e: Expr)
    requires e.Func? && IsFunction(e.name) && InRange(ts, c) && Spelled(ts, c.i, e) && c.i + |Tokens(e)| < |ts|
    requires c.depth <= MAX_EXPR_DEPTH && c.terms <= MAX_EXPR_TERMS
    ensures ParseItem(ts, c) == Ok((e, Past(c, Tokens(e))))
  {
    hide ParsePrimary, ParseFunc, Tokens, IsFunction, Upper, Expected, IsName;
    PrimaryFunc(ts, c, e.name, e.arg);
    LeafExpected(c, e);
    CallStarts(ts, c, e);
    CallIsPrimary(ts, c);
  }

  lemma CallStarts(ts: seq<Token>, c: Cursor, e: Expr)
    requires e.Func? && IsFunction(e.name) && InRange(ts, c) && Spelled(ts, c.i, e) && c.i + |Tokens(e)| < |ts|
    ensures AtCall(ts, c.i)
  {
    hide IsFunction, Upper, IsName;
    FunctionIsName(e.name);
    FuncTokens(e.name, e.arg);
    SqlPrinter.At(ts, c.i, Tokens(e), 0);
    SqlPrinter.At(ts, c.i, Tokens(e), 1);
  }

  lemma CallIsPrimary(ts: seq<Token>, c: Cursor)
    requires InRange(ts, c) && AtCall(ts, c.i)
    ensures ParsePrimary(ts, c) == ParseFunc(ts, c) == ParseItem(ts, c)
  {
    hide ParseFunc, IsFunction, Upper;
  }

  // ------------------------------------------------------------------
  // Lists
  // ------------------------------------------------------------------

  // What may follow a list or an item of one.
  predicate Closes(t: Token) {
    Ends(t) && t != COMMA
  }

  lemma Regrouped(a: Token, b: seq<Token>, c: seq<Token>, rest: seq<Token>)
    ensures [a] + b + c + rest == [a] + (b + (c + rest))
  {
  }

  lemma CommaFirst(more: seq<Token>, rest: seq<Token>)
    requires rest != [] && Ends(rest[0]) && (more == [] || more[0] == COMMA)
    ensures more + rest != [] && Ends((more + rest)[0])
  {
  }

  lemma ItemStep(ts: seq<Token>, done: seq<Expr>, e: Expr, c: Cursor, after: seq<Token>)
    requires IsItem(e) && Here(ts, c, [COMMA] + (Tokens(e) + after)) && after != [] && Ends(after[0])
    requires c.depth <= MAX_EXPR_DEPTH && c.terms <= MAX_EXPR_TERMS
    ensures InRange(ts, c) && Here(ts, Past(Step(c), Tokens(e)), after)
    ensures ItemsRest(ts, done, c) == ItemsRest(ts, done + [e], Past(Step(c), Tokens(e)))
  {
    hide ParseItem, Tokens, Here, Take, Ends, IsItem;
    TakeParses(ts, c, COMMA, Tokens(e) + after);
    ItemHere(ts, Step(c), e, after);
  }

  lemma NoItemsHere(ts: seq<Token>, done: seq<Expr>, c: Cursor, rest: seq<Token>)
    requires Here(ts, c, MoreItems([]) + rest) && rest != [] && Closes(rest[0])
    ensures ItemsRest(ts, done, c) == Ok((done, Past(c, MoreItems([])))) && Here(ts, Past(c, MoreItems([])), rest)
  {
    Passed(ts, c, MoreItems([]), rest);
  }

  lemma ItemsSplit(es: seq<Expr>, rest: seq<Token>)
    requires es != [] && rest != [] && Ends(rest[0])
    ensures var more := MoreItems(es[1..]);
      && MoreItems(es) + rest == [COMMA] + (Tokens(es[0]) + (more + rest))
      && |MoreItems(es)| == 1 + |Tokens(es[0])| + |more|
      && more + rest != [] && Ends((more + rest)[0])
  {
    hide Tokens, Ends;
    Regrouped(COMMA, Tokens(es[0]), MoreItems(es[1..]), rest);
    CommaFirst(MoreItems(es[1..]), rest);
  }

  lemma {:induction false} ItemsHere(ts: seq<Token>, done: seq<Expr>, es: seq<Expr>, c: Cursor, rest: seq<Token>)
    requires Here(ts, c, MoreItems(es) + rest) && rest != [] && Closes(rest[0])
    requires (forall i :: 0 <= i < |es| ==> IsItem(es[i]))
    requires c.depth <= MAX_EXPR_DEPTH && c.terms <= MAX_EXPR_TERMS
    ensures ItemsRest(ts, done, c) == Ok((done + es, Past(c, MoreItems(es)))) && Here(ts, Past(c, MoreItems(es)), rest)
    decreases es
  {
    hide Tokens, Here, IsItem, MoreItems, ItemsRest, Ends;
    if es == [] {
      NoItemsHere(ts, done, c, rest);
      assert done + es == done;
    } else {
      var more := MoreItems(es[1..]);
      ItemsSplit(es, rest);
      ItemStep(ts, done, es[0], c, more + rest);
      ItemsHere(ts, done + [es[0]], es[1..], Past(Step(c), Tokens(es[0])), rest);
      assert done + [es[0]] + es[1..] == done + es;
    }
  }

  lemma {:induction false} LiteralsHere(ts: seq<Token>, done: seq<Literal>, ls: seq<Literal>, c: Cursor,
                                        rest: seq<Token>)
    requires Here(ts, c, MoreLiterals(ls) + rest) && rest != [] && Closes(rest[0])
    ensures LiteralsRest(ts, done, c) == Ok((done + ls, Past(c, MoreLiterals(ls))))
    ensures Here(ts, Past(c, MoreLiterals(ls)), rest)
    decreases ls
  {
    hide ParseLiteral, LiteralToken, Here, Take, Ends;
    Passed(ts, c, MoreLiterals(ls), rest);
    if ls == [] {
      assert done + ls == done;
    } else {
      var more := MoreLiterals(ls[1..]);
      Regrouped(COMMA, [LiteralToken(ls[0])], more, rest);
      TakeParses(ts, c, COMMA, [LiteralToken(ls[0])] + (more + rest));
      LiteralHere(ts, Step(c), ls[0], more + rest);
      LiteralsHere(ts, done + [ls[0]], ls[1..], Step(Step(c)), rest);
      assert done + [ls[0]] + ls[1..] == done + ls;
    }
  }

  lemma TypeIsUpper(t: string)
    requires IsColumnType(t)
    ensures Upper(t) == t
  {
    assert forall i :: 0 <= i < |t| ==> 'A' <= t[i] <= 'Z';
    UpperCase(t);
  }

  lemma DefHere(ts: seq<Token>, c: Cursor, d: ColumnDef, rest: seq<Token>)
    requires Here(ts, c, DefTokens(d) + rest) && rest != [] && IsColumnType(d.colType)
    ensures ParseColumnDef(ts, c) == Ok((d, Step(Step(c)))) && Here(ts, Step(Step(c)), rest)
  {
    hide Upper, IsColumnType, Take;
    assert DefTokens(d) + rest == [Name(d.name)] + ([Name(d.colType)] + rest);
    TakeParses(ts, c, Name(d.name), [Name(d.colType)] + rest);
    TakeParses(ts, Step(c), Name(d.colType), rest);
    TypeIsUpper(d.colType);
  }

  lemma {:induction false} DefsHere(ts: seq<Token>, done: seq<ColumnDef>, ds: seq<ColumnDef>, c: Cursor,
                                    rest: seq<Token>)
    requires Here(ts, c, MoreDefs(ds) + rest) && rest != [] && Closes(rest[0])
    requires forall i :: 0 <= i < |ds| ==> IsColumnType(ds[i].colType)
    ensures ColumnDefsRest(ts, done, c) == Ok((done + ds, Past(c, MoreDefs(ds))))
    ensures Here(ts, Past(c, MoreDefs(ds)), rest)
    decreases ds
  {
    hide ParseColumnDef, DefTokens, IsColumnType, Here, Take, Ends;
    Passed(ts, c, MoreDefs(ds), rest);
    if ds == [] {
      assert done + ds == done;
    } else {
      var more := MoreDefs(ds[1..]);
      Regrouped(COMMA, DefTokens(ds[0]), more, rest);
      TakeParses(ts, c, COMMA, DefTokens(ds[0]) + (more + rest));
      DefHere(ts, Step(c), ds[0], more + rest);
      TwoTokens(ds[0]);
      DefsHere(ts, done + [ds[0]], ds[1..], Step(Step(Step(c))), rest);
      assert done + [ds[0]] + ds[1..] == done + ds;
    }
  }

  lemma TwoTokens(d: ColumnDef)
    ensures |DefTokens(d)| == 2
  {
  }

  // ------------------------------------------------------------------
  // Clauses
  // ------------------------------------------------------------------

  // The place of the clause a keyword opens; 0 for other words.
  function ClauseOf(t: Token): nat {
    if t == Word("JOIN") then 1 else if t == Word("WHERE") then 2 else if t == Word("GROUP") then 3
    else if t == Word("ORDER") then 4 else if t == Word("LIMIT") then 5 else 0
  }

  // A token that may stand behind clause n: it opens a later clause or ends the
  // statement.
  predicate Later(t: Token, n: nat) {
    t == Token(Eof, "") || t == Token(Punct, ";") || ClauseOf(t) > n
  }

  lemma LaterToken(t: Token, n: nat)
    requires Later(t, n)
    ensures Ends(t) && t.kind != Op && t != COMMA && t.kind != Star && t.kind != Ident
    ensures t != Word("AND") && t != Word("OR") && t != Word("ASC") && t != Word("DESC")
    ensures (n >= 1 ==> t != Word("JOIN")) && (n >= 2 ==> t != Word("WHERE")) && (n >= 3 ==> t != Word("GROUP"))
    ensures (n >= 4 ==> t != Word("ORDER")) && (n >= 5 ==> t != Word("LIMIT"))
  {
  }

  lemma JoinHere(ts: seq<Token>, c: Cursor, j: Option<Join>, rest: seq<Token>)
    requires Here(ts, c, JoinTokens(j) + rest) && rest != [] && Later(rest[0], 1)
    ensures JoinClause(ts, c) == Ok((j, Past(c, JoinTokens(j)))) && Here(ts, Past(c, JoinTokens(j)), rest)
  {
    Passed(ts, c, JoinTokens(j), rest);
    LaterToken(rest[0], 1);
    if j.Some? {
      JoinParses(ts, c, j.value, rest);
    }
  }

  lemma JoinParses(ts: seq<Token>, c: Cursor, join: Join, rest: seq<Token>)
    requires Here(ts, c, JoinTokens(Some(join)) + rest) && rest != [] && Ends(rest[0])
    ensures JoinClause(ts, c) == Ok((Some(join), Past(c, JoinTokens(Some(join)))))
  {
    hide Take, ParseColumnRef, ColumnTokens, Here, Ends;
    var ls, rs, eq := ColumnTokens(join.left), ColumnTokens(join.right), Token(Op, "=");
    var fromRight := rs + rest;
    var fromLeft := ls + ([eq] + fromRight);
    JoinSplits(join, rest);
    TakeParses(ts, c, Word("JOIN"), [Name(join.table)] + ([Word("ON")] + fromLeft));
    TakeParses(ts, Step(c), Name(join.table), [Word("ON")] + fromLeft);
    TakeParses(ts, Step(Step(c)), Word("ON"), fromLeft);
    var c3 := Step(Step(Step(c)));
    EqualsEnds(eq, fromRight);
    ColumnHere(ts, c3, join.left, [eq] + fromRight);
    TakeParses(ts, Past(c3, ls), eq, fromRight);
    ColumnHere(ts, Step(Past(c3, ls)), join.right, rest);
  }

  lemma EqualsEnds(eq: Token, rest: seq<Token>)
    requires eq == Token(Op, "=")
    ensures Ends(([eq] + rest)[0])
  {
  }

  lemma JoinSplits(join: Join, rest: seq<Token>)
    ensures var ls, rs := ColumnTokens(join.left), ColumnTokens(join.right);
      && JoinTokens(Some(join)) + rest
         == [Word("JOIN")] + ([Name(join.table)] + ([Word("ON")] + (ls + ([Token(Op, "=")] + (rs + rest)))))
      && |JoinTokens(Some(join))| == 4 + |ls| + |rs|
  {
    hide ColumnTokens;
  }

  lemma WhereHere(ts: seq<Token>, c: Cursor, w: Option<Expr>, rest: seq<Token>)
    requires Here(ts, c, WhereTokens(w) + rest) && rest != [] && Later(rest[0], 2) && c.depth == 0 == c.terms
    requires w.Some? ==> ProperExpr(w.value) && Terms(w.value) <= MAX_EXPR_TERMS
    requires w.Some? ==> Depth(w.value, OR_LEVEL) <= MAX_EXPR_DEPTH
    ensures WhereClause(ts, c).Ok? && WhereClause(ts, c).value.0 == w
    ensures var d := WhereClause(ts, c).value.1; d.depth == 0 && d.terms <= MAX_EXPR_TERMS && Here(ts, d, rest)
  {
    hide ParseOr, ProperExpr, Minimal, Depth, Terms;
    Passed(ts, c, WhereTokens(w), rest);
    LaterToken(rest[0], 2);
    if w.Some? {
      var e := w.value;
      assert WhereTokens(w) + rest == [Word("WHERE")] + (Minimal(e, OR_LEVEL) + rest);
      TakeParses(ts, c, Word("WHERE"), Minimal(e, OR_LEVEL) + rest);
      ExprHere(ts, Step(c), e, rest);
    }
  }

  lemma ExprHere(ts: seq<Token>, c: Cursor, e: Expr, rest: seq<Token>)
    requires Here(ts, c, Minimal(e, OR_LEVEL) + rest) && rest != [] && Later(rest[0], 2) && c.depth == 0 == c.terms
    requires ProperExpr(e) && Depth(e, OR_LEVEL) <= MAX_EXPR_DEPTH && Terms(e) <= MAX_EXPR_TERMS
    ensures ParseOr(ts, c) == Ok((e, After(c, e, OR_LEVEL))) && Here(ts, After(c, e, OR_LEVEL), rest)
  {
    hide ParseOr, ProperExpr, Minimal, Depth, Terms, Later, ClauseOf;
    Passed(ts, c, Minimal(e, OR_LEVEL), rest);
    LaterToken(rest[0], 2);
    MinimalParses(ts, c, e, OR_LEVEL);
    assert OrRest(ts, e, After(c, e, OR_LEVEL)) == Ok((e, After(c, e, OR_LEVEL)));
  }

  lemma GroupHere(ts: seq<Token>, c: Cursor, g: Option<string>, rest: seq<Token>)
    requires Here(ts, c, GroupTokens(g) + rest) && rest != [] && Later(rest[0], 3)
    ensures GroupClause(ts, c) == Ok((g, Past(c, GroupTokens(g)))) && Here(ts, Past(c, GroupTokens(g)), rest)
  {
    hide Take, Later, ClauseOf;
    Passed(ts, c, GroupTokens(g), rest);
    LaterToken(rest[0], 3);
    if g.Some? {
      assert GroupTokens(g) + rest == [Word("GROUP")] + ([Word("BY")] + ([Name(g.value)] + rest));
      TakeParses(ts, c, Word("GROUP"), [Word("BY")] + ([Name(g.value)] + rest));
      TakeParses(ts, Step(c), Word("BY"), [Name(g.value)] + rest);
      TakeParses(ts, Step(Step(c)), Name(g.value), rest);
    }
  }

  lemma OrderHere(ts: seq<Token>, c: Cursor, o: Option<OrderBy>, rest: seq<Token>)
    requires Here(ts, c, OrderTokens(o) + rest) && rest != [] && Later(rest[0], 4)
    ensures OrderClause(ts, c) == Ok((o, Past(c, OrderTokens(o)))) && Here(ts, Past(c, OrderTokens(o)), rest)
  {
    hide Take;
    Passed(ts, c, OrderTokens(o), rest);
    LaterToken(rest[0], 4);
    if o.Some? {
      OrderParses(ts, c, o.value, rest);
    }
  }

  lemma OrderParses(ts: seq<Token>, c: Cursor, o: OrderBy, rest: seq<Token>)
    requires Here(ts, c, OrderTokens(Some(o)) + rest) && rest != [] && Later(rest[0], 4)
    ensures OrderClause(ts, c) == Ok((Some(o), Past(c, OrderTokens(Some(o)))))
  {
    hide Take, Here, Later;
    var d := Step(Step(Step(c)));
    OrderSplits(o, rest);
    if o.descending {
      OrderHead(ts, c, o.column, [Word("DESC")] + rest);
      TakeParses(ts, d, Word("DESC"), rest);
    } else {
      OrderHead(ts, c, o.column, rest);
      LaterToken(rest[0], 4);
    }
  }

  lemma OrderSplits(o: OrderBy, rest: seq<Token>)
    ensures OrderTokens(Some(o)) + rest
            == [Word("ORDER"), Word("BY"), Name(o.column)] + if o.descending then [Word("DESC")] + rest else rest
    ensures |OrderTokens(Some(o))| == if o.descending then 4 else 3
  {
  }

  lemma OrderHead(ts: seq<Token>, c: Cursor, col: string, tail: seq<Token>)
    requires Here(ts, c, [Word("ORDER"), Word("BY"), Name(col)] + tail) && tail != []
    ensures InRange(ts, c) && AtWord(ts, c, "ORDER") && Here(ts, Step(Step(Step(c))), tail)
    ensures ts[c.i + 3] == tail[0]
    ensures Take(ts, Step(c), Keyword, Some("BY")) == Ok(("BY", Step(Step(c))))
    ensures Take(ts, Step(Step(c)), Ident, None) == Ok((col, Step(Step(Step(c)))))
  {
    hide Take, Here;
    Passed(ts, c, [Word("ORDER"), Word("BY"), Name(col)], tail);
    assert [Word("ORDER"), Word("BY"), Name(col)] + tail == [Word("ORDER")] + ([Word("BY")] + ([Name(col)] + tail));
    TakeParses(ts, c, Word("ORDER"), [Word("BY")] + ([Name(col)] + tail));
    TakeParses(ts, Step(c), Word("BY"), [Name(col)] + tail);
    TakeParses(ts, Step(Step(c)), Name(col), tail);
  }

  lemma LimitHere(ts: seq<Token>, c: Cursor, l: Option<nat>, rest: seq<Token>)
    requires Here(ts, c, LimitTokens(l) + rest) && rest != [] && Later(rest[0], 5)
    ensures LimitClause(ts, c) == Ok((l, Past(c, LimitTokens(l)))) && Here(ts, Past(c, LimitTokens(l)), rest)
  {
    hide Take, ShowNat, ReadInt, IsNumber, ClauseOf;
    Passed(ts, c, LimitTokens(l), rest);
    LaterToken(rest[0], 5);
    if l.Some? {
      LimitParses(ts, c, l.value, rest);
    }
  }

  lemma LimitParses(ts: seq<Token>, c: Cursor, n: nat, rest: seq<Token>)
    requires Here(ts, c, LimitTokens(Some(n)) + rest)
    ensures InRange(ts, c) && LimitClause(ts, c) == Ok((Some(n), Past(c, LimitTokens(Some(n)))))
  {
    hide Take, ShowNat, ReadInt, IsNumber, Here;
    var t := Token(Int, ShowNat(n));
    assert LimitTokens(Some(n)) + rest == [Word("LIMIT")] + ([t] + rest);
    TakeParses(ts, c, Word("LIMIT"), [t] + rest);
    TakeParses(ts, Step(c), t, rest);
    ReadShowInt(n);
  }

  lemma ProjectionsHere(ts: seq<Token>, c: Cursor, p: Option<seq<Expr>>, rest: seq<Token>)
    requires Here(ts, c, ProjectionTokens(p) + rest) && rest != [] && Closes(rest[0]) && c.depth == 0 == c.terms
    requires p.Some? ==> p.value != [] && forall i :: 0 <= i < |p.value| ==> IsItem(p.value[i])
    ensures InRange(ts, c) && ParseProjections(ts, c) == Ok((p, Past(c, ProjectionTokens(p))))
    ensures Here(ts, Past(c, ProjectionTokens(p)), rest)
  {
    hide Here, Take, Closes, IsItem;
    if p.None? {
      TakeParses(ts, c, Token(Star, "*"), rest);
    } else {
      ListHere(ts, c, p.value, rest);
    }
  }

  lemma ListHere(ts: seq<Token>, c: Cursor, es: seq<Expr>, rest: seq<Token>)
    requires Here(ts, c, ProjectionTokens(Some(es)) + rest) && rest != [] && Closes(rest[0]) && c.depth == 0 == c.terms
    requires es != [] && forall i :: 0 <= i < |es| ==> IsItem(es[i])
    ensures ParseProjections(ts, c) == Ok((Some(es), Past(c, ProjectionTokens(Some(es)))))
    ensures Here(ts, Past(c, ProjectionTokens(Some(es))), rest)
  {
    hide ParseItem, ItemsRest, Tokens, MoreItems, Here, Take, Ends, IsItem, ProjectionTokens;
    var more := MoreItems(es[1..]);
    ListSplits(es, rest);
    Passed(ts, c, ProjectionTokens(Some(es)), rest);
    ItemHere(ts, c, es[0], more + rest);
    ItemsHere(ts, [es[0]], es[1..], Past(c, Tokens(es[0])), rest);
    assert [es[0]] + es[1..] == es;
    NoStar(ts, c, es[0], more + rest);
  }

  lemma ListSplits(es: seq<Expr>, rest: seq<Token>)
    requires es != [] && rest != [] && Ends(rest[0])
    ensures var more := MoreItems(es[1..]);
      && ProjectionTokens(Some(es)) + rest == Tokens(es[0]) + (more + rest)
      && |ProjectionTokens(Some(es))| == |Tokens(es[0])| + |more|
      && more + rest != [] && Ends((more + rest)[0])
  {
    hide Tokens, Ends;
    CommaFirst(MoreItems(es[1..]), rest);
  }

  lemma NoStar(ts: seq<Token>, c: Cursor, e: Expr, rest: seq<Token>)
    requires Here(ts, c, Tokens(e) + rest) && rest != [] && IsItem(e)
    ensures ts[c.i].kind != Star
  {
    hide Ends, IsFunction;
    Passed(ts, c, Tokens(e), rest);
    SqlPrinter.At(ts, c.i, Tokens(e), 0);
  }

  // ------------------------------------------------------------------
  // Statements
  // ------------------------------------------------------------------

  // The first token behind clauses already read.
  lemma FirstLater(clause: seq<Token>, rest: seq<Token>, n: nat)
    requires rest != [] && Later(rest[0], n + 1) && (clause == [] || ClauseOf(clause[0]) == n + 1)
    ensures clause + rest != [] && Later((clause + rest)[0], n)
  {
  }

  // What may stand behind a statement.
  predicate IsTail(tail: seq<Token>) {
    tail == [Token(Eof, "")] || tail == [Token(Punct, ";"), Token(Eof, "")]
  }

  lemma SelectSplits(s: Select, tail: seq<Token>)
    requires IsTail(tail)
    ensures var l := LimitTokens(s.limit) + tail;
      var o := OrderTokens(s.orderBy) + l;
      var g := GroupTokens(s.groupBy) + o;
      var w := WhereTokens(s.where) + g;
      var j := JoinTokens(s.join) + w;
      && SelectTokens(s) + tail
         == [Word("SELECT")] + (ProjectionTokens(s.projections) + ([Word("FROM")] + ([Name(s.table)] + j)))
      && l != [] && o != [] && g != [] && w != [] && j != []
      && Later(l[0], 4) && Later(o[0], 3) && Later(g[0], 2) && Later(w[0], 1) && Later(tail[0], 5)
  {
    hide Minimal, ColumnTokens, ProjectionTokens;
    var l := LimitTokens(s.limit) + tail;
    FirstLater(LimitTokens(s.limit), tail, 4);
    var o := OrderTokens(s.orderBy) + l;
    FirstLater(OrderTokens(s.orderBy), l, 3);
    var g := GroupTokens(s.groupBy) + o;
    FirstLater(GroupTokens(s.groupBy), o, 2);
    FirstLater(WhereTokens(s.where), g, 1);
    Regroup7(ProjectionTokens(s.projections), s.table, JoinTokens(s.join), WhereTokens(s.where), GroupTokens(s.groupBy),
             OrderTokens(s.orderBy), LimitTokens(s.limit), tail);
  }

  lemma Regroup7(p: seq<Token>, table: string, j: seq<Token>, w: seq<Token>, g: seq<Token>, o: seq<Token>,
                 l: seq<Token>, tail: seq<Token>)
    ensures [Word("SELECT")] + (p + ([Word("FROM"), Name(table)] + (j + (w + (g + (o + l)))))) + tail
            == [Word("SELECT")] + (p + ([Word("FROM")] + ([Name(table)] + (j + (w + (g + (o + (l + tail))))))))
  {
    assert (o + l) + tail == o + (l + tail);
    assert (g + (o + l)) + tail == g + (o + (l + tail));
    assert (w + (g + (o + l))) + tail == w + (g + (o + (l + tail)));
    assert (j + (w + (g + (o + l)))) + tail == j + (w + (g + (o + (l + tail))));
    TableFirst(p, table, j + (w + (g + (o + l))), tail);
  }

  lemma TableFirst(p: seq<Token>, table: string, all: seq<Token>, tail: seq<Token>)
    ensures [Word("SELECT")] + (p + ([Word("FROM"), Name(table)] + all)) + tail
            == [Word("SELECT")] + (p + ([Word("FROM")] + ([Name(table)] + (all + tail))))
  {
  }

  lemma SelectHere(ts: seq<Token>, c: Cursor, s: Select, tail: seq<Token>)
    requires Here(ts, c, SelectTokens(s) + tail) && IsTail(tail) && WellFormed(Query(s)) && c.depth == 0 == c.terms
    ensures ParseSelect(ts, c).Ok? && ParseSelect(ts, c).value.0 == Query(s)
    ensures Here(ts, ParseSelect(ts, c).value.1, tail)
  {
    hide Here, Take, ParseSelect, SelectTokens, ProjectionTokens, JoinTokens, WhereTokens, GroupTokens, OrderTokens,
         LimitTokens;
    hide Later, IsTail;
    hide ParseProjections, JoinClause, WhereClause, GroupClause, OrderClause, LimitClause, ProperExpr, Depth, Terms;
    var l := LimitTokens(s.limit) + tail;
    var o := OrderTokens(s.orderBy) + l;
    var g := GroupTokens(s.groupBy) + o;
    var w := WhereTokens(s.where) + g;
    var j := JoinTokens(s.join) + w;
    SelectSplits(s, tail);
    var p := [Word("FROM")] + ([Name(s.table)] + j);
    TakeParses(ts, c, Word("SELECT"), ProjectionTokens(s.projections) + p);
    FromCloses(p);
    ProjectionsHere(ts, Step(c), s.projections, p);
    var c2 := Past(Step(c), ProjectionTokens(s.projections));
    TakeParses(ts, c2, Word("FROM"), [Name(s.table)] + j);
    TakeParses(ts, Step(c2), Name(s.table), j);
    var c4 := Step(Step(c2));
    JoinHere(ts, c4, s.join, w);
    var c5 := Past(c4, JoinTokens(s.join));
    WhereHere(ts, c5, s.where, g);
    var c6 := WhereClause(ts, c5).value.1;
    GroupHere(ts, c6, s.groupBy, o);
    var c7 := Past(c6, GroupTokens(s.groupBy));
    OrderHere(ts, c7, s.orderBy, l);
    var c8 := Past(c7, OrderTokens(s.orderBy));
    TailNotEmpty(tail);
    LimitHere(ts, c8, s.limit, tail);
    SelectSteps(ts, c, s, c2, c5, c6, c7, c8, Past(c8, LimitTokens(s.limit)));
  }

  lemma SelectSteps(ts: seq<Token>, c: Cursor, s: Select, c2: Cursor, c5: Cursor, c6: Cursor, c7: Cursor, c8: Cursor,
                    c9: Cursor)
    requires InRange(ts, c) && InRange(ts, Step(c)) && InRange(ts, c2) && InRange(ts, Step(c2))
    requires InRange(ts, Step(Step(c2)))
    requires InRange(ts, c5) && InRange(ts, c6) && InRange(ts, c7) && InRange(ts, c8)
    requires Take(ts, c, Keyword, Some("SELECT")) == Ok(("SELECT", Step(c)))
    requires ParseProjections(ts, Step(c)) == Ok((s.projections, c2))
    requires Take(ts, c2, Keyword, Some("FROM")) == Ok(("FROM", Step(c2)))
    requires Take(ts, Step(c2), Ident, None) == Ok((s.table, Step(Step(c2))))
    requires JoinClause(ts, Step(Step(c2))) == Ok((s.join, c5)) && WhereClause(ts, c5) == Ok((s.where, c6))
    requires GroupClause(ts, c6) == Ok((s.groupBy, c7)) && OrderClause(ts, c7) == Ok((s.orderBy, c8))
    requires LimitClause(ts, c8) == Ok((s.limit, c9))
    ensures ParseSelect(ts, c) == Ok((Query(s), c9))
  {
    hide Take, ParseProjections, JoinClause, WhereClause, GroupClause, OrderClause, LimitClause;
  }

  lemma TailNotEmpty(tail: seq<Token>)
    requires IsTail(tail)
    ensures tail != []
  {
  }

  lemma FromCloses(p: seq<Token>)
    requires p != [] && p[0] == Word("FROM")
    ensures Closes(p[0])
  {
  }

  // The column definitions in parentheses.
  lemma ColumnsHere(ts: seq<Token>, c: Cursor, ds: seq<ColumnDef>, rest: seq<Token>)
    requires ds != [] && (forall i :: 0 <= i < |ds| ==> IsColumnType(ds[i].colType))
    requires rest != [] && Closes(rest[0]) && Here(ts, c, DefTokens(ds[0]) + (MoreDefs(ds[1..]) + rest))
    ensures InRange(ts, c) && ParseColumnDefs(ts, c) == Ok((ds, Past(Step(Step(c)), MoreDefs(ds[1..]))))
    ensures Here(ts, Past(Step(Step(c)), MoreDefs(ds[1..])), rest)
  {
    hide Here, Take, DefTokens, MoreDefs, IsColumnType, ParseColumnDef, ColumnDefsRest, Closes;
    DefHere(ts, c, ds[0], MoreDefs(ds[1..]) + rest);
    DefsHere(ts, [ds[0]], ds[1..], Step(Step(c)), rest);
    assert [ds[0]] + ds[1..] == ds;
    Passed(ts, c, DefTokens(ds[0]), MoreDefs(ds[1..]) + rest);
  }

  lemma CreateSteps(ts: seq<Token>, c: Cursor, table: string, ds: seq<ColumnDef>, d: Cursor)
    requires var c2 := Step(Step(c));
      var c4 := Step(Step(c2));
      && InRange(ts, c) && InRange(ts, c4) && InRange(ts, d)
      && Take(ts, c, Keyword, Some("CREATE")) == Ok(("CREATE", Step(c)))
      && Take(ts, Step(c), Keyword, Some("TABLE")) == Ok(("TABLE", c2))
      && Take(ts, c2, Ident, None) == Ok((table, Step(c2))) && Take(ts, Step(c2), Punct, Some("(")) == Ok(("(", c4))
      && ParseColumnDefs(ts, c4) == Ok((ds, d)) && Take(ts, d, Punct, Some(")")) == Ok((")", Step(d)))
    ensures ParseCreate(ts, c) == Ok((CreateTable(table, ds), Step(d)))
  {
    hide Take, ParseColumnDefs;
  }

  lemma CreateHere(ts: seq<Token>, c: Cursor, table: string, ds: seq<ColumnDef>, tail: seq<Token>)
    requires Here(ts, c, StatementTokens(CreateTable(table, ds)) + tail) && IsTail(tail)
    requires WellFormed(CreateTable(table, ds))
    ensures ParseCreate(ts, c).Ok? && ParseCreate(ts, c).value.0 == CreateTable(table, ds)
    ensures Here(ts, ParseCreate(ts, c).value.1, tail)
  {
    hide Here, Take, DefTokens, MoreDefs, IsColumnType, ParseColumnDefs, ParseCreate, StatementTokens, Closes, IsTail;
    var first := DefTokens(ds[0]) + (MoreDefs(ds[1..]) + ([CLOSE] + tail));
    CreateSplits(table, ds, tail);
    TakeParses(ts, c, Word("CREATE"), [Word("TABLE")] + ([Name(table)] + ([OPEN] + first)));
    TakeParses(ts, Step(c), Word("TABLE"), [Name(table)] + ([OPEN] + first));
    TakeParses(ts, Step(Step(c)), Name(table), [OPEN] + first);
    var c3 := Step(Step(Step(c)));
    TwoTokens(ds[0]);
    TakeParses(ts, c3, OPEN, first);
    CloseCloses([CLOSE] + tail);
    ColumnsHere(ts, Step(c3), ds, [CLOSE] + tail);
    TailNotEmpty(tail);
    var d := Past(Step(Step(Step(c3))), MoreDefs(ds[1..]));
    TakeParses(ts, d, CLOSE, tail);
    CreateSteps(ts, c, table, ds, d);
  }

  lemma CloseCloses(p: seq<Token>)
    requires p != [] && p[0] == CLOSE
    ensures Closes(p[0])
  {
  }

  lemma CreateSplits(table: string, ds: seq<ColumnDef>, tail: seq<Token>)
    requires ds != []
    ensures var more := MoreDefs(ds[1..]) + ([CLOSE] + tail);
      StatementTokens(CreateTable(table, ds)) + tail
      == [Word("CREATE")] + ([Word("TABLE")] + ([Name(table)] + ([OPEN] + (DefTokens(ds[0]) + more))))
  {
    hide DefTokens, MoreDefs;
    FourFirst(Word("CREATE"), Word("TABLE"), Name(table), OPEN, DefTokens(ds[0]), MoreDefs(ds[1..]), tail);
  }

  lemma FourFirst(a: Token, b: Token, c: Token, d: Token, e: seq<Token>, f: seq<Token>, tail: seq<Token>)
    ensures [a, b, c, d] + (e + (f + [CLOSE])) + tail == [a] + ([b] + ([c] + ([d] + (e + (f + ([CLOSE] + tail))))))
  {
    assert (f + [CLOSE]) + tail == f + ([CLOSE] + tail);
    assert (e + (f + [CLOSE])) + tail == e + (f + ([CLOSE] + tail));
  }

  // The values in parentheses.
  lemma ValuesHere(ts: seq<Token>, c: Cursor, ls: seq<Literal>, rest: seq<Token>)
    requires ls != [] && rest != [] && Closes(rest[0])
    requires Here(ts, c, [LiteralToken(ls[0])] + (MoreLiterals(ls[1..]) + rest))
    ensures InRange(ts, c) && ParseLiterals(ts, c) == Ok((ls, Past(Step(c), MoreLiterals(ls[1..]))))
    ensures Here(ts, Past(Step(c), MoreLiterals(ls[1..])), rest)
  {
    hide Here, Take, LiteralToken, MoreLiterals, ParseLiteral, LiteralsRest, Closes;
    LiteralHere(ts, c, ls[0], MoreLiterals(ls[1..]) + rest);
    LiteralsHere(ts, [ls[0]], ls[1..], Step(c), rest);
    assert [ls[0]] + ls[1..] == ls;
    Passed(ts, c, [LiteralToken(ls[0])], MoreLiterals(ls[1..]) + rest);
  }

  // The grammar's steps put together.
  lemma InsertSteps(ts: seq<Token>, c: Cursor, table: string, ls: seq<Literal>, d: Cursor)
    requires var c2 := Step(Step(c));
      var c5 := Step(Step(Step(c2)));
      && InRange(ts, c) && InRange(ts, c5) && InRange(ts, d)
      && Take(ts, c, Keyword, Some("INSERT")) == Ok(("INSERT", Step(c)))
      && Take(ts, Step(c), Keyword, Some("INTO")) == Ok(("INTO", c2))
      && Take(ts, c2, Ident, None) == Ok((table, Step(c2)))
      && Take(ts, Step(c2), Keyword, Some("VALUES")) == Ok(("VALUES", Step(Step(c2))))
      && Take(ts, Step(Step(c2)), Punct, Some("(")) == Ok(("(", c5))
      && ParseLiterals(ts, c5) == Ok((ls, d)) && Take(ts, d, Punct, Some(")")) == Ok((")", Step(d)))
    ensures ParseInsert(ts, c) == Ok((Insert(table, ls), Step(d)))
  {
    hide Take, ParseLiterals;
  }

  lemma InsertHere(ts: seq<Token>, c: Cursor, table: string, ls: seq<Literal>, tail: seq<Token>)
    requires Here(ts, c, StatementTokens(Insert(table, ls)) + tail) && IsTail(tail) && ls != []
    ensures ParseInsert(ts, c).Ok? && ParseInsert(ts, c).value.0 == Insert(table, ls)
    ensures Here(ts, ParseInsert(ts, c).value.1, tail)
  {
    hide Here, Take, LiteralToken, MoreLiterals, ParseLiterals, ParseInsert, StatementTokens, Closes, IsTail;
    var first := [LiteralToken(ls[0])] + (MoreLiterals(ls[1..]) + ([CLOSE] + tail));
    InsertSplits(table, ls, tail);
    TakeParses(ts, c, Word("INSERT"), [Word("INTO")] + ([Name(table)] + ([Word("VALUES")] + ([OPEN] + first))));
    TakeParses(ts, Step(c), Word("INTO"), [Name(table)] + ([Word("VALUES")] + ([OPEN] + first)));
    TakeParses(ts, Step(Step(c)), Name(table), [Word("VALUES")] + ([OPEN] + first));
    var c3 := Step(Step(Step(c)));
    TakeParses(ts, c3, Word("VALUES"), [OPEN] + first);
    TakeParses(ts, Step(c3), OPEN, first);
    CloseCloses([CLOSE] + tail);
    ValuesHere(ts, Step(Step(c3)), ls, [CLOSE] + tail);
    TailNotEmpty(tail);
    var d := Past(Step(Step(Step(c3))), MoreLiterals(ls[1..]));
    TakeParses(ts, d, CLOSE, tail);
    InsertSteps(ts, c, table, ls, d);
  }

  lemma InsertSplits(table: string, ls: seq<Literal>, tail: seq<Token>)
    requires ls != []
    ensures var list := [OPEN] + ([LiteralToken(ls[0])] + (MoreLiterals(ls[1..]) + ([CLOSE] + tail)));
      StatementTokens(Insert(table, ls)) + tail
        == [Word("INSERT")] + ([Word("INTO")] + ([Name(table)] + ([Word("VALUES")] + list)))
  {
    hide LiteralToken, MoreLiterals;
    var e, f := [LiteralToken(ls[0])], MoreLiterals(ls[1..]);
    FourFirst(Word("INTO"), Name(table), Word("VALUES"), OPEN, e, f, tail);
    assert [Word("INSERT"), Word("INTO"), Name(table), Word("VALUES"), OPEN] + (e + (f + [CLOSE])) + tail
           == [Word("INSERT")] + ([Word("INTO"), Name(table), Word("VALUES"), OPEN] + (e + (f + [CLOSE])) + tail);
  }

  // The main result: the tokens of a well-formed statement, with or without a
  // semicolon, parse to that statement.
  lemma StatementComesBack(stmt: Statement, tail: seq<Token>)
    requires WellFormed(stmt) && IsTail(tail)
    ensures var ts, c := StatementTokens(stmt) + tail, Cursor(0, 0, 0);
      InRange(ts, c) && ParseStatement(ts, c).Ok? && ParseStatement(ts, c).value.0 == stmt
  {
    hide StatementTokens, ParseCreate, ParseInsert, ParseSelect, IsTail, WellFormed;
    var ts, c := StatementTokens(stmt) + tail, Cursor(0, 0, 0);
    TailEnds(StatementTokens(stmt), tail);
    FirstWord(stmt, tail);
    assert ts[0..] == ts;
    match stmt
    case CreateTable(table, ds) =>
      CreateHere(ts, c, table, ds, tail);
      TailParses(ts, ParseCreate(ts, c).value.1, tail);
    case Insert(table, ls) =>
      HasValues(table, ls);
      InsertHere(ts, c, table, ls, tail);
      TailParses(ts, ParseInsert(ts, c).value.1, tail);
    case Query(s) =>
      QueryTokens(s);
      SelectHere(ts, c, s, tail);
      TailParses(ts, ParseSelect(ts, c).value.1, tail);
  }

  lemma HasValues(table: string, ls: seq<Literal>)
    requires WellFormed(Insert(table, ls))
    ensures ls != []
  {
  }

  lemma QueryTokens(s: Select)
    ensures StatementTokens(Query(s)) == SelectTokens(s)
  {
  }

  lemma TailEnds(a: seq<Token>, tail: seq<Token>)
    requires IsTail(tail)
    ensures Terminated(a + tail)
  {
    assert (a + tail)[|a + tail| - 1] == tail[|tail| - 1];
  }

  lemma FirstWord(stmt: Statement, tail: seq<Token>)
    requires WellFormed(stmt)
    ensures var ts := StatementTokens(stmt) + tail;
      ts != [] && ts[0] == Word(match stmt case CreateTable(_, _) => "CREATE" case Insert(_,
          _) => "INSERT" case Query(_) => "SELECT")
  {
  }

  lemma TailParses(ts: seq<Token>, d: Cursor, tail: seq<Token>)
    requires Here(ts, d, tail) && IsTail(tail)
    ensures InRange(ts, d) && InRange(ts, if AtPunct(ts, d, ";") then Step(d) else d)
    ensures ts[(if AtPunct(ts, d, ";") then Step(d) else d).i].kind == Eof
  {
    assert ts[d.i] == tail[0];
    if |tail| == 2 {
      assert ts[d.i + 1] == tail[1];
    }
  }
}
