// The texts of statements: a text parses to a statement exactly when it is written as
// tokens the grammar derives it from, and every statement has such a text.
module SqlText {
  import opened Wrappers
  import opened SqlAst
  import opened SqlWords
  import opened SqlLexer
  import opened SqlParser
  import opened SqlPrinter
  import opened SqlPrecedence
  import opened SqlStatements
  import opened SqlGrammar
  import opened SqlCompleteness

  // ------------------------------------------------------------------
  // Texts that parse
  // ------------------------------------------------------------------

  // The text is written as tokens the grammar derives the statement from, up to the end or
  // a semicolon before it, and keeps the caps.
  ghost predicate IsTextOf(text: string, stmt: Statement) {
    exists ts, j :: WrittenAs(text, ts) && Accepted(ts + [Token(Eof, "")], stmt, j)
  }

  // The main result: a text parses to a statement exactly when it is a text of it.
  lemma TextExact(text: string, stmt: Statement)
    ensures InRange(Lex(text), Cursor(0, 0, 0))
    ensures var r := ParseStatement(Lex(text), Cursor(0, 0, 0));
      (r.Ok? && r.value.0 == stmt) <==> IsTextOf(text, stmt)
  {
    hide ParseStatement, Accepted, WrittenAs, Lex;
    ParseExact(text, stmt);
    var all := Lex(text);
    var ts := all[..|all| - 1];
    LexEnds(text, |all| - 1);
    assert all == ts + [Token(Eof, "")];
    LexExact(text, ts);
    if us, j :| WrittenAs(text, us) && Accepted(us + [Token(Eof, "")], stmt, j) {
      LexExact(text, us);
    }
  }

  // Any text written as the tokens of a well-formed statement, with or without a
  // semicolon, parses to it: whatever blanks it has and in whatever case its words are.
  lemma TextParses(text: string, stmt: Statement)
    requires WellFormed(stmt)
    requires WrittenAs(text, StatementTokens(stmt)) || WrittenAs(text, StatementTokens(stmt) + [Token(Punct, ";")])
    ensures InRange(Lex(text), Cursor(0, 0, 0))
    ensures var r := ParseStatement(Lex(text), Cursor(0, 0, 0)); r.Ok? && r.value.0 == stmt
  {
    hide ParseStatement, WrittenAs, WellFormed, StatementTokens, Lex;
    var ts := StatementTokens(stmt);
    LexExact(text, ts);
    LexExact(text, ts + [Token(Punct, ";")]);
    assert ts + [Token(Punct, ";")] + [Token(Eof, "")] == ts + [Token(Punct, ";"), Token(Eof, "")];
    if WrittenAs(text, ts) {
      StatementComesBack(stmt, [Token(Eof, "")]);
    } else {
      StatementComesBack(stmt, [Token(Punct, ";"), Token(Eof, "")]);
    }
  }

  // ------------------------------------------------------------------
  // A text of every statement
  // ------------------------------------------------------------------

  // A name, in any case none of the reserved words.
  ghost predicate NameText(s: string) {
    IsWord(s) && forall u :: AnyCase(s, u) ==> !Reserved(u)
  }

  ghost predicate ColumnText(c: ColumnRef) {
    NameText(c.name) && (c.table.Some? ==> NameText(c.table.value))
  }

  predicate LiteralText(l: Literal) {
    l.StrLit? ==> '\'' !in l.s
  }

  ghost predicate ExprText(e: Expr) {
    match e
    case Column(c) => ColumnText(c)
    case Lit(l) => LiteralText(l)
    case Compare(op, l, r) => ComparisonSign(op) && ExprText(l) && ExprText(r)
    case Logic(_, l, r) => ExprText(l) && ExprText(r)
    case Func(name, arg) => FunctionName(name) && (arg.Some? ==> ColumnText(arg.value))
  }

  // The names of a statement can be written as names, its strings between quotes.
  ghost predicate HasText(stmt: Statement) {
    match stmt
    case CreateTable(table, ds) => NameText(table) && forall i :: 0 <= i < |ds| ==> NameText(ds[i].name)
    case Insert(table, ls) => NameText(table) && forall i :: 0 <= i < |ls| ==> LiteralText(ls[i])
    case Query(s) =>
      && NameText(s.table)
      && (s.projections.Some? ==> forall i :: 0 <= i < |s.projections.value| ==> ExprText(s.projections.value[i]))
      && (s.join.Some? ==> NameText(s.join.value.table) && ColumnText(s.join.value.left)
                           && ColumnText(s.join.value.right))
      && (s.where.Some? ==> ExprText(s.where.value)) && (s.groupBy.Some? ==> NameText(s.groupBy.value))
      && (s.orderBy.Some? ==> NameText(s.orderBy.value.column))
  }

  function ColumnWords(c: ColumnRef): seq<string> {
    match c.table
    case None => [c.name]
    case Some(t) => [t, ".", c.name]
  }

  function LeafWords(e: Expr): seq<string> {
    match e
    case Column(c) => ColumnWords(c)
    case Lit(l) => [ShowLiteral(l)]
    case Func(name, arg) => [name, "("] + (if arg.None? then ["*"] else ColumnWords(arg.value)) + [")"]
    case _ => []
  }

  // An expression with no more parentheses than it needs.
  function ExprWords(e: Expr, level: nat): seq<string>
    decreases e, 1
  {
    if !IsCompound(e) then LeafWords(e)
    else if level <= LevelOf(e) then OwnWords(e)
    else ["("] + OwnWords(e) + [")"]
  }

  function OwnWords(e: Expr): seq<string>
    requires IsCompound(e)
    decreases e, 0
  {
    var sign := match e case Compare(op, _, _) => op case Logic(op, _, _) => if op == And then "AND" else "OR";
    ExprWords(e.left, LeftLevel(e)) + [sign] + ExprWords(e.right, RightLevel(e))
  }

  function MoreDefWords(ds: seq<ColumnDef>): seq<string> {
    if ds == [] then [] else [","] + [ds[0].name, ds[0].colType] + MoreDefWords(ds[1..])
  }

  function MoreLiteralWords(ls: seq<Literal>): seq<string> {
    if ls == [] then [] else [","] + [ShowLiteral(ls[0])] + MoreLiteralWords(ls[1..])
  }

  function MoreItemWords(es: seq<Expr>): seq<string> {
    if es == [] then [] else [","] + LeafWords(es[0]) + MoreItemWords(es[1..])
  }

  function ProjectionWords(p: Option<seq<Expr>>): seq<string> {
    match p
    case None => ["*"]
    case Some(es) => if es == [] then [] else LeafWords(es[0]) + MoreItemWords(es[1..])
  }

  function JoinWords(join: Option<Join>): seq<string> {
    match join
    case None => []
    case Some(j) => ["JOIN", j.table, "ON"] + ColumnWords(j.left) + ["="] + ColumnWords(j.right)
  }

  function WhereWords(where: Option<Expr>): seq<string> {
    if where.None? then [] else ["WHERE"] + ExprWords(where.value, OR_LEVEL)
  }

  function GroupWords(group: Option<string>): seq<string> {
    if group.None? then [] else ["GROUP", "BY", group.value]
  }

  function OrderWords(order: Option<OrderBy>): seq<string> {
    match order
    case None => []
    case Some(o) => ["ORDER", "BY", o.column] + if o.descending then ["DESC"] else []
  }

  function LimitWords(limit: Option<nat>): seq<string> {
    if limit.None? then [] else ["LIMIT", ShowNat(limit.value)]
  }

  function SelectWords(s: Select): seq<string> {
    ["SELECT"] + (ProjectionWords(s.projections) + (["FROM", s.table] + (JoinWords(s.join) + (WhereWords(s.where)
    + (GroupWords(s.groupBy) + (OrderWords(s.orderBy) + LimitWords(s.limit)))))))
  }

  function StatementWords(stmt: Statement): seq<string> {
    match stmt
    case CreateTable(table, ds) =>
      if ds == [] then []
      else ["CREATE", "TABLE", table, "("] + ([ds[0].name, ds[0].colType] + (MoreDefWords(ds[1..]) + [")"]))
    case Insert(table, ls) =>
      if ls == [] then []
      else ["INSERT", "INTO", table, "VALUES", "("] + ([ShowLiteral(ls[0])] + (MoreLiteralWords(ls[1..]) + [")"]))
    case Query(s) => SelectWords(s)
  }

  // Words with a blank behind each.
  function Spaced(ws: seq<string>): string {
    if ws == [] then "" else ws[0] + (" " + Spaced(ws[1..]))
  }

  function StatementText(stmt: Statement): string {
    Spaced(StatementWords(stmt))
  }

  // w is a text of the token when a blank follows.
  ghost predicate WordOf(t: Token, w: string) {
    w != "" && !Blank(w[0]) && forall rest: string :: rest != "" && rest[0] == ' ' ==> Writes(t, w, rest)
  }

  // Word for word the tokens.
  ghost predicate Parallel(ws: seq<string>, ts: seq<Token>) {
    |ws| == |ts| && forall i :: 0 <= i < |ws| ==> WordOf(ts[i], ws[i])
  }

  lemma ParallelBoth(a: seq<string>, x: seq<Token>, b: seq<string>, y: seq<Token>)
    requires Parallel(a, x) && Parallel(b, y)
    ensures Parallel(a + b, x + y)
  {
    hide WordOf;
  }

  lemma {:induction false} SpacedWritten(ws: seq<string>, ts: seq<Token>)
    requires Parallel(ws, ts)
    ensures WrittenAs(Spaced(ws), ts)
    decreases ws
  {
    hide Writes;
    if ws == [] {
    } else {
      SpacedWritten(ws[1..], ts[1..]);
      var w, rest := ws[0], " " + Spaced(ws[1..]);
      var text := w + rest;
      assert rest[1..] == Spaced(ws[1..]);
      assert text[..|w|] == w && text[|w|..] == rest;
      assert WordOf(ts[0], w);
      assert Starts(text, ts, |w|);
    }
  }

  // ------------------------------------------------------------------
  // The words are the tokens
  // ------------------------------------------------------------------

  lemma CapitalsAreOwnCase(w: string)
    requires forall i :: 0 <= i < |w| ==> 'A' <= w[i] <= 'Z'
    ensures forall u :: AnyCase(w, u) <==> u == w
  {
  }

  lemma ReservedWord(w: string)
    requires Reserved(w)
    ensures WordOf(Token(Keyword, w), w)
  {
    assert forall i :: 0 <= i < |w| ==> 'A' <= w[i] <= 'Z';
    CapitalsAreOwnCase(w);
  }

  lemma NameWord(s: string)
    requires NameText(s)
    ensures WordOf(Token(Ident, s), s)
  {
  }

  // Function and type names are names, written as they are.
  lemma KnownName(s: string)
    requires FunctionName(s) || TypeName(s)
    ensures NameText(s)
  {
    assert forall i :: 0 <= i < |s| ==> 'A' <= s[i] <= 'Z';
    CapitalsAreOwnCase(s);
  }

  lemma SignWord(t: Token)
    requires (t.kind == Op && ComparisonSign(t.value)) || t == Token(Star, "*")
             || (t.kind == Punct && (t.value == "(" || t.value == ")" || t.value == "," || t.value == "."))
    ensures WordOf(t, t.value)
  {
  }

  lemma LiteralWord(l: Literal)
    requires LiteralText(l)
    ensures WordOf(LiteralToken(l), ShowLiteral(l))
  {
    match l
    case IntLit(i) => NumberWord(i);
    case StrLit(s) => assert ShowLiteral(l)[0] == '\'';
    case NullLit => ReservedWord("NULL");
  }

  lemma NumberWord(i: int)
    ensures WordOf(Token(Int, ShowInt(i)), ShowInt(i))
  {
    ReadShowInt(i);
    var w := ShowInt(i);
    forall k | 1 <= k < |w| ensures Figure(w[k]) {
      assert w[1..][k - 1] == w[k];
    }
  }

  lemma ColumnParallel(c: ColumnRef)
    requires ColumnText(c)
    ensures Parallel(ColumnWords(c), ColumnTokens(c))
  {
    hide WordOf;
    NameWord(c.name);
    if c.table.Some? {
      NameWord(c.table.value);
      SignWord(Token(Punct, "."));
    }
  }

  lemma LeafParallel(e: Expr)
    requires !IsCompound(e) && ExprText(e)
    ensures Parallel(LeafWords(e), Tokens(e))
  {
    hide WordOf, NameText, FunctionName, ColumnText, ColumnWords, ColumnTokens, LiteralToken, ShowLiteral;
    match e
    case Column(c) => ColumnParallel(c);
    case Lit(l) => LiteralWord(l);
    case Func(name, arg) => CallParallel(name, arg);
  }

  lemma CallParallel(name: string, arg: Option<ColumnRef>)
    requires ExprText(Func(name, arg))
    ensures Parallel(LeafWords(Func(name, arg)), Tokens(Func(name, arg)))
  {
    hide WordOf, NameText, FunctionName, ColumnText, ColumnWords, ColumnTokens;
    KnownName(name);
    NameWord(name);
    SignWord(OPEN);
    SignWord(CLOSE);
    SignWord(Token(Star, "*"));
    assert Parallel([name, "("], [Token(Ident, name), OPEN]) && Parallel([")"], [CLOSE]);
    var words, tokens := if arg.None? then ["*"] else ColumnWords(arg.value),
                         if arg.None? then [Token(Star, "*")] else ColumnTokens(arg.value);
    if arg.Some? {
      ColumnParallel(arg.value);
    }
    assert Parallel(words, tokens);
    hide Parallel;
    ParallelBoth([name, "("], [Token(Ident, name), OPEN], words, tokens);
    ParallelBoth([name, "("] + words, [Token(Ident, name), OPEN] + tokens, [")"], [CLOSE]);
  }

  // A word between words.
  lemma ParallelThree(a: seq<string>, x: seq<Token>, w: string, t: Token, b: seq<string>, y: seq<Token>)
    requires Parallel(a, x) && WordOf(t, w) && Parallel(b, y)
    ensures Parallel(a + [w] + b, x + [t] + y)
  {
    hide WordOf;
  }

  lemma {:induction false} ExprParallel(e: Expr, level: nat)
    requires ExprText(e)
    ensures Parallel(ExprWords(e, level), Minimal(e, level))
    decreases e
  {
    hide WordOf, Parallel, Tokens, LeafWords;
    if !IsCompound(e) {
      LeafParallel(e);
    } else {
      ExprParallel(e.left, LeftLevel(e));
      ExprParallel(e.right, RightLevel(e));
      var sign := Sign(e).value;
      if e.Compare? {
        SignWord(Sign(e));
      } else {
        ReservedWord(sign);
      }
      ParallelThree(ExprWords(e.left, LeftLevel(e)), Minimal(e.left, LeftLevel(e)), sign, Sign(e),
                    ExprWords(e.right, RightLevel(e)), Minimal(e.right, RightLevel(e)));
      ParallelParens(OwnWords(e), Own(e));
    }
  }

  lemma ParallelParens(a: seq<string>, x: seq<Token>)
    requires Parallel(a, x)
    ensures Parallel(["("] + a + [")"], [OPEN] + x + [CLOSE])
  {
    hide WordOf;
    SignWord(OPEN);
    SignWord(CLOSE);
  }

  lemma DefParallel(d: ColumnDef)
    requires NameText(d.name) && TypeName(d.colType)
    ensures Parallel([d.name, d.colType], DefTokens(d))
  {
    hide WordOf, NameText;
    KnownName(d.colType);
    NameWord(d.name);
    NameWord(d.colType);
  }

  lemma CommaParallel(a: seq<string>, x: seq<Token>, b: seq<string>, y: seq<Token>)
    requires Parallel(a, x) && Parallel(b, y)
    ensures Parallel([","] + a + b, [COMMA] + x + y)
  {
    hide WordOf;
    SignWord(COMMA);
  }

  lemma {:induction false} DefsParallel(ds: seq<ColumnDef>)
    requires forall i :: 0 <= i < |ds| ==> NameText(ds[i].name) && TypeName(ds[i].colType)
    ensures Parallel(MoreDefWords(ds), MoreDefs(ds))
  {
    hide WordOf, NameText, DefTokens;
    if ds == [] {
    } else {
      DefParallel(ds[0]);
      DefsParallel(ds[1..]);
      CommaParallel([ds[0].name, ds[0].colType], DefTokens(ds[0]), MoreDefWords(ds[1..]), MoreDefs(ds[1..]));
    }
  }

  lemma {:induction false} LiteralsParallel(ls: seq<Literal>)
    requires forall i :: 0 <= i < |ls| ==> LiteralText(ls[i])
    ensures Parallel(MoreLiteralWords(ls), MoreLiterals(ls))
  {
    hide WordOf, LiteralText, LiteralToken, ShowLiteral;
    if ls == [] {
    } else {
      LiteralWord(ls[0]);
      LiteralsParallel(ls[1..]);
      CommaParallel([ShowLiteral(ls[0])], [LiteralToken(ls[0])], MoreLiteralWords(ls[1..]), MoreLiterals(ls[1..]));
    }
  }

  lemma {:induction false} ItemsParallel(es: seq<Expr>)
    requires forall i :: 0 <= i < |es| ==> !IsCompound(es[i]) && ExprText(es[i])
    ensures Parallel(MoreItemWords(es), MoreItems(es))
  {
    hide WordOf, ExprText, Tokens, LeafWords;
    if es == [] {
    } else {
      LeafParallel(es[0]);
      ItemsParallel(es[1..]);
      CommaParallel(LeafWords(es[0]), Tokens(es[0]), MoreItemWords(es[1..]), MoreItems(es[1..]));
    }
  }

  lemma CreateParallel(table: string, ds: seq<ColumnDef>)
    requires WellFormed(CreateTable(table, ds)) && HasText(CreateTable(table, ds))
    ensures Parallel(StatementWords(CreateTable(table, ds)), StatementTokens(CreateTable(table, ds)))
  {
    hide WordOf, NameText, DefTokens, Reserved;
    forall i | 0 <= i < |ds| ensures TypeName(ds[i].colType) {
      VocabularyIs(ds[i].colType);
    }
    ReservedWord("CREATE");
    ReservedWord("TABLE");
    NameWord(table);
    SignWord(OPEN);
    SignWord(CLOSE);
    DefParallel(ds[0]);
    DefsParallel(ds[1..]);
    var head, first, more := [Word("CREATE"), Word("TABLE"), Name(table), OPEN], DefTokens(ds[0]), MoreDefs(ds[1..]);
    var words, moreWords := [ds[0].name, ds[0].colType], MoreDefWords(ds[1..]);
    assert Parallel(["CREATE", "TABLE", table, "("], head) && Parallel([")"], [CLOSE]);
    ParallelBoth(moreWords, more, [")"], [CLOSE]);
    ParallelBoth(words, first, moreWords + [")"], more + [CLOSE]);
    ParallelBoth(["CREATE", "TABLE", table, "("], head, words + (moreWords + [")"]), first + (more + [CLOSE]));
  }

  lemma InsertParallel(table: string, ls: seq<Literal>)
    requires ls != [] && HasText(Insert(table, ls))
    ensures Parallel(StatementWords(Insert(table, ls)), StatementTokens(Insert(table, ls)))
  {
    hide WordOf, NameText, LiteralToken, ShowLiteral, LiteralText, Reserved;
    ReservedWord("INSERT");
    ReservedWord("INTO");
    ReservedWord("VALUES");
    NameWord(table);
    SignWord(OPEN);
    SignWord(CLOSE);
    LiteralWord(ls[0]);
    LiteralsParallel(ls[1..]);
    var head := [Word("INSERT"), Word("INTO"), Name(table), Word("VALUES"), OPEN];
    var first, more := [LiteralToken(ls[0])], MoreLiterals(ls[1..]);
    var words, moreWords := [ShowLiteral(ls[0])], MoreLiteralWords(ls[1..]);
    assert Parallel(["INSERT", "INTO", table, "VALUES", "("], head) && Parallel([")"], [CLOSE]);
    ParallelBoth(moreWords, more, [")"], [CLOSE]);
    ParallelBoth(words, first, moreWords + [")"], more + [CLOSE]);
    ParallelBoth(["INSERT", "INTO", table, "VALUES", "("], head, words + (moreWords + [")"]), first + (more + [CLOSE]));
  }

  lemma ProjectionParallel(p: Option<seq<Expr>>)
    requires p.Some? ==> forall i :: 0 <= i < |p.value| ==> !IsCompound(p.value[i]) && ExprText(p.value[i])
    ensures Parallel(ProjectionWords(p), ProjectionTokens(p))
  {
    hide WordOf, ExprText, LeafWords, Tokens;
    if p.None? {
      SignWord(Token(Star, "*"));
    } else if p.value != [] {
      var es := p.value;
      LeafParallel(es[0]);
      ItemsParallel(es[1..]);
      ParallelBoth(LeafWords(es[0]), Tokens(es[0]), MoreItemWords(es[1..]), MoreItems(es[1..]));
    }
  }

  lemma JoinParallel(join: Option<Join>)
    requires join.Some? ==> NameText(join.value.table) && ColumnText(join.value.left) && ColumnText(join.value.right)
    ensures Parallel(JoinWords(join), JoinTokens(join))
  {
    hide WordOf, NameText, ColumnText, ColumnWords, ColumnTokens, Reserved;
    if join.Some? {
      var j := join.value;
      ReservedWord("JOIN");
      ReservedWord("ON");
      NameWord(j.table);
      SignWord(Token(Op, "="));
      ColumnParallel(j.left);
      ColumnParallel(j.right);
      var words, head := ["JOIN", j.table, "ON"], [Word("JOIN"), Name(j.table), Word("ON")];
      assert Parallel(words, head);
      ParallelBoth(words, head, ColumnWords(j.left), ColumnTokens(j.left));
      ParallelThree(words + ColumnWords(j.left), head + ColumnTokens(j.left), "=", Token(Op, "="),
                    ColumnWords(j.right), ColumnTokens(j.right));
    }
  }

  lemma WhereParallel(where: Option<Expr>)
    requires where.Some? ==> ExprText(where.value)
    ensures Parallel(WhereWords(where), WhereTokens(where))
  {
    hide WordOf, ExprText, ExprWords, Minimal, Reserved;
    if where.Some? {
      ReservedWord("WHERE");
      ExprParallel(where.value, OR_LEVEL);
      assert Parallel(["WHERE"], [Word("WHERE")]);
      ParallelBoth(["WHERE"], [Word("WHERE")], ExprWords(where.value, OR_LEVEL), Minimal(where.value, OR_LEVEL));
    }
  }

  lemma TailParallel(group: Option<string>, order: Option<OrderBy>, limit: Option<nat>)
    requires (group.Some? ==> NameText(group.value)) && (order.Some? ==> NameText(order.value.column))
    ensures Parallel(GroupWords(group), GroupTokens(group)) && Parallel(OrderWords(order), OrderTokens(order))
    ensures Parallel(LimitWords(limit), LimitTokens(limit))
  {
    hide WordOf, NameText, Reserved;
    ReservedWord("GROUP");
    ReservedWord("ORDER");
    ReservedWord("BY");
    ReservedWord("DESC");
    ReservedWord("LIMIT");
    if group.Some? {
      NameWord(group.value);
    }
    if order.Some? {
      NameWord(order.value.column);
    }
    if limit.Some? {
      NumberWord(limit.value);
    }
  }

  lemma SelectParallel(s: Select)
    requires WellFormed(Query(s)) && HasText(Query(s))
    ensures Parallel(SelectWords(s), SelectTokens(s))
  {
    hide WordOf, NameText, ExprText, ColumnText, Reserved, ProjectionWords, ProjectionTokens, JoinWords, JoinTokens,
         WhereWords, WhereTokens, GroupWords, GroupTokens, OrderWords, OrderTokens, LimitWords, LimitTokens;
    ProjectionParallel(s.projections);
    JoinParallel(s.join);
    WhereParallel(s.where);
    TailParallel(s.groupBy, s.orderBy, s.limit);
    ReservedWord("SELECT");
    ReservedWord("FROM");
    NameWord(s.table);
    assert Parallel(["SELECT"], [Word("SELECT")]) && Parallel(["FROM", s.table], [Word("FROM"), Name(s.table)]);
    hide Parallel;
    var w5, t5 := OrderWords(s.orderBy) + LimitWords(s.limit), OrderTokens(s.orderBy) + LimitTokens(s.limit);
    ParallelBoth(OrderWords(s.orderBy), OrderTokens(s.orderBy), LimitWords(s.limit), LimitTokens(s.limit));
    ParallelBoth(GroupWords(s.groupBy), GroupTokens(s.groupBy), w5, t5);
    var w4, t4 := GroupWords(s.groupBy) + w5, GroupTokens(s.groupBy) + t5;
    ParallelBoth(WhereWords(s.where), WhereTokens(s.where), w4, t4);
    var w3, t3 := WhereWords(s.where) + w4, WhereTokens(s.where) + t4;
    ParallelBoth(JoinWords(s.join), JoinTokens(s.join), w3, t3);
    var w2, t2 := JoinWords(s.join) + w3, JoinTokens(s.join) + t3;
    ParallelBoth(["FROM", s.table], [Word("FROM"), Name(s.table)], w2, t2);
    var w1, t1 := ["FROM", s.table] + w2, [Word("FROM"), Name(s.table)] + t2;
    ParallelBoth(ProjectionWords(s.projections), ProjectionTokens(s.projections), w1, t1);
    ParallelBoth(["SELECT"], [Word("SELECT")], ProjectionWords(s.projections) + w1,
                 ProjectionTokens(s.projections) + t1);
  }

  // The text of a statement, its words written out, is read as its tokens and parses to
  // it.
  lemma StatementTextParses(stmt: Statement)
    requires WellFormed(stmt) && HasText(stmt)
    ensures Lex(StatementText(stmt)) == StatementTokens(stmt) + [Token(Eof, "")]
    ensures InRange(Lex(StatementText(stmt)), Cursor(0, 0, 0))
    ensures var r := ParseStatement(Lex(StatementText(stmt)), Cursor(0, 0, 0)); r.Ok? && r.value.0 == stmt
  {
    hide ParseStatement, Parallel, SelectWords, SelectTokens, Spaced, Lex, WrittenAs;
    match stmt {
      case CreateTable(table, ds) => CreateParallel(table, ds);
      case Insert(table, ls) => InsertParallel(table, ls);
      case Query(s) => SelectParallel(s);
    }
    SpacedWritten(StatementWords(stmt), StatementTokens(stmt));
    LexExact(StatementText(stmt), StatementTokens(stmt));
    TextParses(StatementText(stmt), stmt);
  }

  // ASCII text with numbers Python converts gives the statement it is a text of, or a
  // parse error if it is no statement's.
  method Parse(sql: string) returns (r: Result<Statement>)
    ensures InRange(Lex(sql), Cursor(0, 0, 0))
    ensures var spec := ParseStatement(Lex(sql), Cursor(0, 0, 0));
      r == if spec.Ok? then Ok(spec.value.0) else Err(ParseError)
    ensures forall stmt :: r == Ok(stmt) <==> IsTextOf(sql, stmt)
  {
    hide Lex, ParseStatement, IsTextOf;
    var tokens := Tokenize(sql);
    LexProper(sql);
    forall k | 0 <= k < |tokens| && tokens[k].kind == Int ensures IsNumber(tokens[k].value) {
      assert Proper(tokens[k]);
    }
    forall stmt
      ensures var spec := ParseStatement(Lex(sql), Cursor(0, 0, 0));
        (spec.Ok? && spec.value.0 == stmt) <==> IsTextOf(sql, stmt)
    {
      TextExact(sql, stmt);
    }
    var parser := new Parser(tokens);
    r := parser.Statement();
  }
}
