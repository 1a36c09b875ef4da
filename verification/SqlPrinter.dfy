// The fully parenthesised expression printer, which lexing and parsing undo.
module SqlPrinter {
  import opened Wrappers
  import opened SqlAst
  import opened SqlLexer
  import opened SqlParser

  function ShowColumn(c: ColumnRef): string {
    match c.table
    case None => c.name
    case Some(t) => t + "." + c.name
  }

  function ShowLiteral(l: Literal): string {
    match l
    case StrLit(s) => "'" + s + "'"
    case NullLit => "NULL"
    case IntLit(i) => ShowInt(i)
  }

  function ShowOp(op: BoolOp): string {
    if op == And then "AND" else "OR"
  }

  function Show(e: Expr): string {
    match e
    case Column(c) => ShowColumn(c)
    case Lit(l) => ShowLiteral(l)
    case Compare(op, l, r) => "(" + Show(l) + " " + op + " " + Show(r) + ")"
    case Logic(op, l, r) => "(" + Show(l) + " " + ShowOp(op) + " " + Show(r) + ")"
    case Func(name, arg) => name + "(" + (if arg.None? then "*" else ShowColumn(arg.value)) + ")"
  }

  // ------------------------------------------------------------------
  // Expressions the parser builds
  // ------------------------------------------------------------------

  predicate ProperColumn(c: ColumnRef) {
    IsName(c.name) && (c.table.Some? ==> IsName(c.table.value))
  }

  // Names are names, strings hold no quote, operators and functions are known.
  predicate ProperExpr(e: Expr) {
    match e
    case Column(c) => ProperColumn(c)
    case Lit(l) => l.StrLit? ==> '\'' !in l.s
    case Compare(op, l, r) => IsComparison(op) && ProperExpr(l) && ProperExpr(r)
    case Logic(op, l, r) => ProperExpr(l) && ProperExpr(r)
    case Func(name, arg) => IsFunction(name) && (arg.Some? ==> ProperColumn(arg.value))
  }

  // How deep comparisons, ANDs and ORs nest.
  function Nesting(e: Expr): nat {
    match e
    case Compare(_, l, r) => 1 + Max(Nesting(l), Nesting(r))
    case Logic(_, l, r) => 1 + Max(Nesting(l), Nesting(r))
    case _ => 0
  }

  function Max(a: nat, b: nat): nat {
    if a < b then b else a
  }

  // How many ANDs and ORs there are.
  function Terms(e: Expr): nat {
    match e
    case Compare(_, l, r) => Terms(l) + Terms(r)
    case Logic(_, l, r) => Terms(l) + 1 + Terms(r)
    case _ => 0
  }

  // ------------------------------------------------------------------
  // The tokens of a printed expression
  // ------------------------------------------------------------------

  const OPEN := Token(Punct, "(")
  const CLOSE := Token(Punct, ")")

  function ColumnTokens(c: ColumnRef): seq<Token> {
    match c.table
    case None => [Token(Ident, c.name)]
    case Some(t) => [Token(Ident, t), Token(Punct, "."), Token(Ident, c.name)]
  }

  function LiteralToken(l: Literal): Token {
    match l
    case StrLit(s) => Token(Str, s)
    case NullLit => Token(Keyword, "NULL")
    case IntLit(i) => Token(Int, ShowInt(i))
  }

  function Tokens(e: Expr): (r: seq<Token>)
    ensures r != []
  {
    match e
    case Column(c) => ColumnTokens(c)
    case Lit(l) => [LiteralToken(l)]
    case Compare(op, l, r) => [OPEN] + Tokens(l) + [Token(Op, op)] + Tokens(r) + [CLOSE]
    case Logic(op, l, r) => [OPEN] + Tokens(l) + [Token(Keyword, ShowOp(op))] + Tokens(r) + [CLOSE]
    case Func(name, arg) =>
      [Token(Ident, name), OPEN] + (if arg.None? then [Token(Star, "*")] else ColumnTokens(arg.value)) + [CLOSE]
  }

  lemma UpperCase(s: string)
    requires forall i :: 0 <= i < |s| ==> 'A' <= s[i] <= 'Z'
    ensures Upper(s) == s && forall i :: 0 <= i < |s| ==> IsWordChar(s[i])
  {
  }

  lemma KeywordShape(k: string)
    requires IsKeyword(k)
    ensures k != "" && k[0] != 'M' && (k[0] == 'C' || k[0] == 'S' ==> |k| == 6) && (k[0] == 'L' ==> |k| == 5)
    ensures k[0] == 'A' ==> |k| == 3 && k[1] != 'V'
  {
  }

  lemma FunctionShape(f: string)
    requires IsFunction(f)
    ensures |f| >= 3 && forall i :: 0 <= i < |f| ==> 'A' <= f[i] <= 'Z'
    ensures f[0] in "CSMAL" && (f[0] == 'C' ==> |f| == 5) && (f[0] == 'S' ==> |f| == 3)
    ensures (f[0] == 'A' ==> f[1] == 'V') && (f[0] == 'L' ==> |f| == 6)
  {
  }

  // Function names are identifiers in upper case.
  lemma FunctionIsName(f: string)
    requires IsFunction(f)
    ensures IsName(f) && Upper(f) == f
  {
    FunctionShape(f);
    UpperCase(f);
    if IsKeyword(f) {
      KeywordShape(f);
    }
  }

  lemma LexName(w: string, rest: string)
    requires IsName(w) && Breaks(rest)
    ensures Lex(w + rest) == [Token(Ident, w)] + Lex(rest)
  {
    LexWord(w, rest);
  }

  lemma LexKeyword(w: string, rest: string)
    requires IsKeyword(w) && w != "" && (forall i :: 0 <= i < |w| ==> 'A' <= w[i] <= 'Z') && Breaks(rest)
    ensures Lex(w + rest) == [Token(Keyword, w)] + Lex(rest)
  {
    UpperCase(w);
    LexWord(w, rest);
  }

  lemma LexColumn(c: ColumnRef, rest: string)
    requires ProperColumn(c) && Breaks(rest)
    ensures Lex(ShowColumn(c) + rest) == ColumnTokens(c) + Lex(rest)
  {
    hide Lex, IsName;
    LexName(c.name, rest);
    if c.table.Some? {
      var t := c.table.value;
      assert ShowColumn(c) + rest == t + (['.'] + (c.name + rest));
      LexName(t, ['.'] + (c.name + rest));
      LexPunct('.', c.name + rest);
    }
  }

  lemma LexLiteral(l: Literal, rest: string)
    requires (l.StrLit? ==> '\'' !in l.s) && Breaks(rest)
    ensures Lex(ShowLiteral(l) + rest) == [LiteralToken(l)] + Lex(rest)
  {
    match l
    case StrLit(s) => LexString(s, rest);
    case NullLit => LexKeyword("NULL", rest);
    case IntLit(i) =>
      ReadShowInt(i);
      LexNumber(ShowInt(i), rest);
  }

  lemma LexCall(name: string, inner: string, ts: seq<Token>, rest: string)
    requires IsName(name) && Lex(inner + ([')'] + rest)) == ts + Lex([')'] + rest)
    ensures Lex(name + "(" + inner + ")" + rest) == [Token(Ident, name), OPEN] + ts + [CLOSE] + Lex(rest)
  {
    hide Lex, IsName;
    var tail := [')'] + rest;
    assert name + "(" + inner + ")" + rest == name + (['('] + (inner + tail));
    LexName(name, ['('] + (inner + tail));
    LexPunct('(', inner + tail);
    LexPunct(')', rest);
  }

  lemma LexFunc(name: string, arg: Option<ColumnRef>, rest: string)
    requires IsFunction(name) && (arg.Some? ==> ProperColumn(arg.value))
    ensures Lex(Show(Func(name, arg)) + rest) == Tokens(Func(name, arg)) + Lex(rest)
  {
    hide Lex, IsName, Upper;
    FunctionIsName(name);
    if arg.None? {
      LexStar([')'] + rest);
      LexCall(name, "*", [Token(Star, "*")], rest);
    } else {
      LexColumn(arg.value, [')'] + rest);
      LexCall(name, ShowColumn(arg.value), ColumnTokens(arg.value), rest);
    }
  }

  // An operator word or sign between blanks.
  predicate Infix(sign: string, t: Token) {
    (IsComparison(sign) && t == Token(Op, sign)) || (sign in {"AND", "OR"} && t == Token(Keyword, sign))
  }

  lemma LexInfix(sign: string, t: Token, rest: string)
    requires Infix(sign, t)
    ensures Lex(" " + (sign + (" " + rest))) == [t] + Lex(rest)
  {
    hide Lex;
    LexSpace(sign + (" " + rest));
    if IsComparison(sign) {
      LexOperator(sign, rest);
    } else {
      LexKeyword(sign, " " + rest);
      LexSpace(rest);
    }
  }

  // What stands behind the left and the right operand of a printed pair.
  function AfterRight(rest: string): string {
    [')'] + rest
  }

  function AfterLeft(sign: string, r: string, rest: string): string {
    " " + (sign + (" " + (r + AfterRight(rest))))
  }

  lemma Regroup(l: string, sign: string, r: string, rest: string)
    ensures "(" + l + " " + sign + " " + r + ")" + rest == ['('] + (l + AfterLeft(sign, r, rest))
  {
  }

  lemma Chain<T>(a: seq<T>, b: seq<T>, c: seq<T>, d: seq<T>, e: seq<T>, rest: seq<T>)
    ensures a + (b + (c + (d + (e + rest)))) == a + b + c + d + e + rest
  {
  }

  lemma LexPair(l: string, ls: seq<Token>, sign: string, t: Token, r: string, rs: seq<Token>, rest: string)
    requires Infix(sign, t)
    requires Lex(l + AfterLeft(sign, r, rest)) == ls + Lex(AfterLeft(sign, r, rest))
    requires Lex(r + AfterRight(rest)) == rs + Lex(AfterRight(rest))
    ensures Lex("(" + l + " " + sign + " " + r + ")" + rest) == [OPEN] + ls + [t] + rs + [CLOSE] + Lex(rest)
  {
    hide Lex, Infix;
    Regroup(l, sign, r, rest);
    LexPunct('(', l + AfterLeft(sign, r, rest));
    LexInfix(sign, t, r + AfterRight(rest));
    LexPunct(')', rest);
    Chain([OPEN], ls, [t], rs, [CLOSE], Lex(rest));
  }

  // Lexing a printed expression gives its tokens, then those of what follows.
  lemma {:induction false} LexShown(e: Expr, rest: string)
    requires ProperExpr(e) && Breaks(rest)
    ensures Lex(Show(e) + rest) == Tokens(e) + Lex(rest)
    decreases e
  {
    hide Lex;
    match e
    case Column(c) => LexColumn(c, rest);
    case Lit(l) => LexLiteral(l, rest);
    case Func(name, arg) => LexFunc(name, arg, rest);
    case Compare(op, l, r) =>
      LexShown(l, AfterLeft(op, Show(r), rest));
      LexShown(r, AfterRight(rest));
      LexPair(Show(l), Tokens(l), op, Token(Op, op), Show(r), Tokens(r), rest);
    case Logic(op, l, r) =>
      LexShown(l, AfterLeft(ShowOp(op), Show(r), rest));
      LexShown(r, AfterRight(rest));
      LexPair(Show(l), Tokens(l), ShowOp(op), Token(Keyword, ShowOp(op)), Show(r), Tokens(r), rest);
  }

  // ------------------------------------------------------------------
  // Parsing the tokens
  // ------------------------------------------------------------------

  // The tokens at i and on are those of e.
  ghost predicate Spelled(ts: seq<Token>, i: nat, e: Expr) {
    i + |Tokens(e)| <= |ts| && ts[i..i + |Tokens(e)|] == Tokens(e)
  }

  // A token that may stand behind an operand: it starts no call and no qualified name.
  predicate Ends(t: Token) {
    t.value != "(" && t != Token(Punct, ".")
  }

  predicate Allowed(c: Cursor, e: Expr) {
    c.depth + Nesting(e) <= MAX_EXPR_DEPTH && c.terms + Terms(e) <= MAX_EXPR_TERMS
  }

  // The parser's result for a printed expression: the expression, if it is within
  // the caps.
  function Expected(c: Cursor, e: Expr): Result<(Expr, Cursor)> {
    if Allowed(c, e) then Ok((e, Cursor(c.i + |Tokens(e)|, c.depth, c.terms + Terms(e)))) else Err(ParseError)
  }

  lemma {:induction false} PrimaryUndoesShow(ts: seq<Token>, c: Cursor, e: Expr)
    requires InRange(ts, c) && ProperExpr(e) && Spelled(ts, c.i, e) && c.depth <= MAX_EXPR_DEPTH
    requires c.terms <= MAX_EXPR_TERMS
    requires c.i + |Tokens(e)| < |ts| && Ends(ts[c.i + |Tokens(e)|])
    ensures ParsePrimary(ts, c) == Expected(c, e)
    decreases e, 1
  {
    hide ParsePrimary, Spelled, Expected;
    match e
    case Column(col) => PrimaryColumn(ts, c, col);
    case Lit(l) => PrimaryLiteral(ts, c, l);
    case Func(name, arg) => PrimaryFunc(ts, c, name, arg);
    case Compare(op, l, r) =>
      OperandsParse(ts, c, l, Token(Op, op), r, e);
      ParenCompare(ts, c, op, l, r);
    case Logic(op, l, r) =>
      OperandsParse(ts, c, l, Token(Keyword, ShowOp(op)), r, e);
      ParenLogic(ts, c, op, l, r);
  }

  // Where the left and the right operand of a printed pair start.
  function LeftAt(c: Cursor): Cursor {
    Cursor(c.i + 1, c.depth + 1, c.terms)
  }

  function RightAt(c: Cursor, l: Expr, t: Token): Cursor {
    Cursor(c.i + 2 + |Tokens(l)|, c.depth + 1, c.terms + Terms(l) + if t.kind == Keyword then 1 else 0)
  }

  lemma {:induction false} OperandsParse(ts: seq<Token>, c: Cursor, l: Expr, t: Token, r: Expr, e: Expr)
    requires InRange(ts, c) && c.depth <= MAX_EXPR_DEPTH && c.terms <= MAX_EXPR_TERMS
    requires (e.Compare? || e.Logic?) && e.left == l && e.right == r && ProperExpr(l) && ProperExpr(r) && Ends(t)
    requires Spelled(ts, c.i, e) && Tokens(e) == [OPEN] + Tokens(l) + [t] + Tokens(r) + [CLOSE]
    requires c.i + |Tokens(e)| < |ts|
    ensures Operands(ts, c, l, t, r)
    decreases e, 0
  {
    hide ParsePrimary, Expected, Nesting, Terms, ProperExpr, Tokens, Allowed;
    PairSpelled(ts, c.i, Tokens(l), t, Tokens(r));
    var left, right := LeftAt(c), RightAt(c, l, t);
    if c.depth < MAX_EXPR_DEPTH {
      PrimaryUndoesShow(ts, left, l);
      if Allowed(left, l) && right.terms <= MAX_EXPR_TERMS {
        PrimaryUndoesShow(ts, right, r);
      }
    }
  }

  lemma PairSpelled(ts: seq<Token>, i: nat, ls: seq<Token>, t: Token, rs: seq<Token>)
    requires var all := [OPEN] + ls + [t] + rs + [CLOSE]; i + |all| <= |ts| && ts[i..i + |all|] == all
    ensures var m := i + 1 + |ls|;
      var k := m + 1 + |rs|;
      && k < |ts| && ts[i] == OPEN && ts[m] == t && ts[k] == CLOSE
      && ts[i + 1..m] == ls && ts[m + 1..k] == rs
  {
    var all := [OPEN] + ls + [t] + rs + [CLOSE];
    At(ts, i, all, 0);
    At(ts, i, all, 1 + |ls|);
    At(ts, i, all, 2 + |ls| + |rs|);
    forall k | 0 <= k < |ls| ensures ts[i + 1 + k] == ls[k] {
      At(ts, i, all, 1 + k);
    }
    forall k | 0 <= k < |rs| ensures ts[i + 2 + |ls| + k] == rs[k] {
      At(ts, i, all, 2 + |ls| + k);
    }
  }

  // A printed pair behind its opening parenthesis, its operands parsed.
  ghost predicate Operands(ts: seq<Token>, c: Cursor, l: Expr, t: Token, r: Expr) {
    var left, right := LeftAt(c), RightAt(c, l, t);
    var k := right.i + |Tokens(r)|;
    && InRange(ts, c) && k < |ts| && ts[c.i] == OPEN && ts[right.i - 1] == t && ts[k] == CLOSE
    && c.terms <= MAX_EXPR_TERMS && c.depth <= MAX_EXPR_DEPTH
    && (c.depth < MAX_EXPR_DEPTH ==> ParsePrimary(ts, left) == Expected(left, l))
    && (c.depth < MAX_EXPR_DEPTH && Allowed(left, l) && right.terms <= MAX_EXPR_TERMS ==>
          ParsePrimary(ts, right) == Expected(right, r))
  }

  // How single steps of the grammar go.
  lemma CompareStep(ts: seq<Token>, a: Cursor, op: string, l: Expr, b: Cursor, r: Expr, d: Cursor)
    requires InRange(ts, a) && ParsePrimary(ts, a) == Ok((l, b)) && ts[b.i] == Token(Op, op) && IsComparison(op)
    requires InRange(ts, Step(b)) && ParsePrimary(ts, Step(b)) == Ok((r, d))
    ensures ParseComparison(ts, a) == Ok((Compare(op, l, r), d))
  {
  }

  lemma CompareFails(ts: seq<Token>, a: Cursor, op: string, l: Expr, b: Cursor)
    requires InRange(ts, a) && ParsePrimary(ts, a) == Ok((l, b)) && ts[b.i] == Token(Op, op) && IsComparison(op)
    requires InRange(ts, Step(b)) && ParsePrimary(ts, Step(b)) == Err(ParseError)
    ensures ParseComparison(ts, a) == Err(ParseError)
  {
  }

  lemma AndStep(ts: seq<Token>, a: Cursor, l: Expr, b: Cursor, r: Expr, d: Cursor)
    requires InRange(ts, a) && ParseComparison(ts, a) == Ok((l, b)) && ts[b.i] == Token(Keyword, "AND")
    requires b.terms < MAX_EXPR_TERMS
    requires InRange(ts, Step(b)) && ParseComparison(ts, Step(b).(terms := b.terms + 1)) == Ok((r, d))
    requires ts[d.i] == CLOSE
    ensures ParseAnd(ts, a) == Ok((Logic(And, l, r), d))
  {
    hide ParsePrimary, ParseComparison, ParseOr, OrRest;
    assert AndRest(ts, Logic(And, l, r), d) == Ok((Logic(And, l, r), d));
  }

  lemma AndFails(ts: seq<Token>, a: Cursor, l: Expr, b: Cursor)
    requires InRange(ts, a) && ParseComparison(ts, a) == Ok((l, b)) && ts[b.i] == Token(Keyword, "AND")
    requires InRange(ts, Step(b))
    requires b.terms < MAX_EXPR_TERMS ==> ParseComparison(ts, Step(b).(terms := b.terms + 1)) == Err(ParseError)
    ensures ParseAnd(ts, a) == Err(ParseError)
  {
    hide ParseComparison;
  }

  lemma NoAnd(ts: seq<Token>, a: Cursor, l: Expr, b: Cursor)
    requires InRange(ts, a) && ParseComparison(ts, a) == Ok((l, b)) && ts[b.i] != Token(Keyword, "AND")
    ensures ParseAnd(ts, a) == Ok((l, b))
  {
  }

  lemma OrStep(ts: seq<Token>, a: Cursor, l: Expr, b: Cursor, r: Expr, d: Cursor)
    requires InRange(ts, a) && ParseAnd(ts, a) == Ok((l, b)) && ts[b.i] == Token(Keyword, "OR")
    requires b.terms < MAX_EXPR_TERMS
    requires InRange(ts, Step(b)) && ParseAnd(ts, Step(b).(terms := b.terms + 1)) == Ok((r, d)) && ts[d.i] == CLOSE
    ensures ParseOr(ts, a) == Ok((Logic(Or, l, r), d))
  {
    hide ParseAnd;
    assert OrRest(ts, Logic(Or, l, r), d) == Ok((Logic(Or, l, r), d));
  }

  lemma OrFails(ts: seq<Token>, a: Cursor, l: Expr, b: Cursor)
    requires InRange(ts, a) && ParseAnd(ts, a) == Ok((l, b)) && ts[b.i] == Token(Keyword, "OR")
    requires InRange(ts, Step(b))
    requires b.terms < MAX_EXPR_TERMS ==> ParseAnd(ts, Step(b).(terms := b.terms + 1)) == Err(ParseError)
    ensures ParseOr(ts, a) == Err(ParseError)
  {
    hide ParseAnd;
  }

  lemma NoOr(ts: seq<Token>, a: Cursor, l: Expr, b: Cursor)
    requires InRange(ts, a) && ParseAnd(ts, a) == Ok((l, b)) && ts[b.i] != Token(Keyword, "OR")
    ensures ParseOr(ts, a) == Ok((l, b))
  {
  }

  // A failure inside fails all the way up.
  lemma FailsUp(ts: seq<Token>, a: Cursor)
    requires InRange(ts, a)
    ensures ParsePrimary(ts, a) == Err(ParseError) ==> ParseComparison(ts, a) == Err(ParseError)
    ensures ParseComparison(ts, a) == Err(ParseError) ==> ParseAnd(ts, a) == Err(ParseError)
    ensures ParseAnd(ts, a) == Err(ParseError) ==> ParseOr(ts, a) == Err(ParseError)
  {
  }

  // The cursor behind the tokens of an expression.
  function Behind(c: Cursor, e: Expr): Cursor {
    Cursor(c.i + |Tokens(e)|, c.depth, c.terms + Terms(e))
  }

  // A parenthesised comparison or logical pair that parsed up to f.
  lemma ParenDone(ts: seq<Token>, c: Cursor, e: Expr, f: Cursor)
    requires InRange(ts, c) && ts[c.i] == OPEN && c.depth < MAX_EXPR_DEPTH && InRange(ts, LeftAt(c)) && InRange(ts, f)
    requires ParseOr(ts, LeftAt(c)) == Ok((e, f)) && ts[f.i] == CLOSE
    ensures ParsePrimary(ts, c) == Ok((e, Cursor(f.i + 1, c.depth, f.terms)))
  {
    hide ParseOr;
  }

  lemma ParenFails(ts: seq<Token>, c: Cursor)
    requires InRange(ts, c) && ts[c.i] == OPEN && InRange(ts, LeftAt(c))
    requires c.depth < MAX_EXPR_DEPTH ==> ParseOr(ts, LeftAt(c)) == Err(ParseError)
    ensures ParsePrimary(ts, c) == Err(ParseError)
  {
    hide ParseOr;
  }

  lemma CompareAllowed(ts: seq<Token>, c: Cursor, op: string, l: Expr, r: Expr)
    requires IsComparison(op) && Operands(ts, c, l, Token(Op, op), r) && c.depth < MAX_EXPR_DEPTH
    requires Allowed(LeftAt(c), l) && Allowed(RightAt(c, l, Token(Op, op)), r)
    ensures var d := Cursor(c.i + |Tokens(l)| + |Tokens(r)| + 3, c.depth, c.terms + Terms(l) + Terms(r));
      ParsePrimary(ts, c) == Ok((Compare(op, l, r), d))
  {
    hide ParsePrimary, ParseComparison, ParseAnd, AndRest, ParseOr, OrRest, Tokens, Terms, Nesting;
    var e, left, right := Compare(op, l, r), LeftAt(c), RightAt(c, l, Token(Op, op));
    CompareStep(ts, left, op, l, Behind(left, l), r, Behind(right, r));
    NoAnd(ts, left, e, Behind(right, r));
    NoOr(ts, left, e, Behind(right, r));
    ParenDone(ts, c, e, Behind(right, r));
  }

  lemma CompareRefused(ts: seq<Token>, c: Cursor, op: string, l: Expr, r: Expr)
    requires IsComparison(op) && Operands(ts, c, l, Token(Op, op), r)
    requires c.depth < MAX_EXPR_DEPTH ==> !Allowed(LeftAt(c), l) || !Allowed(RightAt(c, l, Token(Op, op)), r)
    ensures ParsePrimary(ts, c) == Err(ParseError)
  {
    hide ParsePrimary, ParseComparison, ParseAnd, AndRest, ParseOr, OrRest, Tokens, Nesting;
    var left := LeftAt(c);
    FailsUp(ts, left);
    if c.depth < MAX_EXPR_DEPTH && Allowed(left, l) {
      CompareFails(ts, left, op, l, Behind(left, l));
    }
    ParenFails(ts, c);
  }

  lemma ParenCompare(ts: seq<Token>, c: Cursor, op: string, l: Expr, r: Expr)
    requires IsComparison(op) && Operands(ts, c, l, Token(Op, op), r)
    ensures ParsePrimary(ts, c) == Expected(c, Compare(op, l, r))
  {
    hide ParsePrimary, Operands, IsComparison;
    if c.depth < MAX_EXPR_DEPTH && Allowed(LeftAt(c), l) && Allowed(RightAt(c, l, Token(Op, op)), r) {
      CompareAllowed(ts, c, op, l, r);
    } else {
      CompareRefused(ts, c, op, l, r);
    }
    assert |Tokens(Compare(op, l, r))| == |Tokens(l)| + |Tokens(r)| + 3;
  }

  // An operand before a logical operator is a comparison by itself.
  lemma OperandAlone(ts: seq<Token>, c: Cursor, e: Expr)
    requires InRange(ts, c) && ParsePrimary(ts, c) == Expected(c, e)
    requires Allowed(c, e) ==> c.i + |Tokens(e)| < |ts| && ts[c.i + |Tokens(e)|].kind != Op
    ensures ParseComparison(ts, c) == Expected(c, e)
  {
    hide ParsePrimary, Tokens, Nesting, Terms;
  }

  lemma ParenLogic(ts: seq<Token>, c: Cursor, op: BoolOp, l: Expr, r: Expr)
    requires Operands(ts, c, l, Token(Keyword, ShowOp(op)), r)
    ensures ParsePrimary(ts, c) == Expected(c, Logic(op, l, r))
  {
    hide ParsePrimary, ParseComparison, ParseAnd, AndRest, ParseOr, OrRest, Tokens;
    var left, right := LeftAt(c), RightAt(c, l, Token(Keyword, ShowOp(op)));
    if c.depth < MAX_EXPR_DEPTH {
      OperandAlone(ts, left, l);
      FailsUp(ts, left);
      if Allowed(left, l) {
        if right.terms <= MAX_EXPR_TERMS {
          OperandAlone(ts, right, r);
        }
        if op == And {
          ParenAnd(ts, c, l, r);
        } else {
          ParenOr(ts, c, l, r);
        }
        return;
      }
    }
    ParenFails(ts, c);
  }

  lemma PairSizes(e: Expr)
    requires e.Logic?
    ensures |Tokens(e)| == |Tokens(e.left)| + |Tokens(e.right)| + 3
    ensures Terms(e) == Terms(e.left) + 1 + Terms(e.right) && Nesting(e) == 1 + Max(Nesting(e.left), Nesting(e.right))
  {
  }

  lemma ParenAnd(ts: seq<Token>, c: Cursor, l: Expr, r: Expr)
    requires Operands(ts, c, l, Token(Keyword, "AND"), r) && c.depth < MAX_EXPR_DEPTH && Allowed(LeftAt(c), l)
    requires ParseComparison(ts, LeftAt(c)) == Expected(LeftAt(c), l)
    requires var right := RightAt(c, l, Token(Keyword, "AND"));
      right.terms <= MAX_EXPR_TERMS ==> ParseComparison(ts, right) == Expected(right, r)
    ensures ParsePrimary(ts, c) == Expected(c, Logic(And, l, r))
  {
    hide ParsePrimary, ParseComparison, ParseAnd, AndRest, ParseOr, OrRest, Tokens, Terms, Nesting;
    var e, left, right := Logic(And, l, r), LeftAt(c), RightAt(c, l, Token(Keyword, "AND"));
    PairSizes(e);
    if Allowed(right, r) {
      AndStep(ts, left, l, Behind(left, l), r, Behind(right, r));
      NoOr(ts, left, e, Behind(right, r));
      ParenDone(ts, c, e, Behind(right, r));
    } else {
      AndFails(ts, left, l, Behind(left, l));
      FailsUp(ts, left);
      ParenFails(ts, c);
    }
  }

  lemma ParenOr(ts: seq<Token>, c: Cursor, l: Expr, r: Expr)
    requires Operands(ts, c, l, Token(Keyword, "OR"), r) && c.depth < MAX_EXPR_DEPTH && Allowed(LeftAt(c), l)
    requires ParseComparison(ts, LeftAt(c)) == Expected(LeftAt(c), l)
    requires var right := RightAt(c, l, Token(Keyword, "OR"));
      right.terms <= MAX_EXPR_TERMS ==> ParseComparison(ts, right) == Expected(right, r)
    ensures ParsePrimary(ts, c) == Expected(c, Logic(Or, l, r))
  {
    hide ParsePrimary, ParseComparison, ParseAnd, AndRest, ParseOr, OrRest, Tokens, Terms, Nesting;
    var e, left, right := Logic(Or, l, r), LeftAt(c), RightAt(c, l, Token(Keyword, "OR"));
    PairSizes(e);
    NoAnd(ts, left, l, Behind(left, l));
    if Allowed(right, r) {
      NoAnd(ts, right, r, Behind(right, r));
      OrStep(ts, left, l, Behind(left, l), r, Behind(right, r));
      ParenDone(ts, c, e, Behind(right, r));
    } else {
      if right.terms <= MAX_EXPR_TERMS {
        FailsUp(ts, right);
      }
      OrFails(ts, left, l, Behind(left, l));
      ParenFails(ts, c);
    }
  }

  lemma At<T>(ts: seq<T>, i: nat, s: seq<T>, k: nat)
    requires i + |s| <= |ts| && ts[i..i + |s|] == s && k < |s|
    ensures ts[i + k] == s[k]
  {
    assert ts[i..i + |s|][k] == ts[i + k];
  }

  lemma ColumnParses(ts: seq<Token>, c: Cursor, col: ColumnRef)
    requires InRange(ts, c) && c.i + |ColumnTokens(col)| < |ts|
    requires ts[c.i..c.i + |ColumnTokens(col)|] == ColumnTokens(col)
    requires Ends(ts[c.i + |ColumnTokens(col)|])
    ensures ParseColumnRef(ts, c) == Ok((col, c.(i := c.i + |ColumnTokens(col)|)))
  {
    At(ts, c.i, ColumnTokens(col), 0);
    if col.table.Some? {
      At(ts, c.i, ColumnTokens(col), 1);
      At(ts, c.i, ColumnTokens(col), 2);
    }
  }

  // A column, literal or call meets no cap.
  lemma LeafExpected(c: Cursor, e: Expr)
    requires (e.Column? || e.Lit? || e.Func?) && c.depth <= MAX_EXPR_DEPTH && c.terms <= MAX_EXPR_TERMS
    ensures Expected(c, e) == Ok((e, c.(i := c.i + |Tokens(e)|)))
  {
    hide Tokens;
  }

  lemma PrimaryColumn(ts: seq<Token>, c: Cursor, col: ColumnRef)
    requires InRange(ts, c) && Spelled(ts, c.i, Column(col)) && c.depth <= MAX_EXPR_DEPTH && c.terms <= MAX_EXPR_TERMS
    requires c.i + |ColumnTokens(col)| < |ts| && Ends(ts[c.i + |ColumnTokens(col)|])
    ensures ParsePrimary(ts, c) == Expected(c, Column(col))
  {
    hide ParseOr, ParseLiteral, IsFunction, Upper, Expected;
    LeafExpected(c, Column(col));
    ColumnParses(ts, c, col);
    At(ts, c.i, ColumnTokens(col), 0);
    if col.table.Some? {
      At(ts, c.i, ColumnTokens(col), 1);
    }
  }

  lemma PrimaryLiteral(ts: seq<Token>, c: Cursor, l: Literal)
    requires InRange(ts, c) && Spelled(ts, c.i, Lit(l)) && c.depth <= MAX_EXPR_DEPTH && c.terms <= MAX_EXPR_TERMS
    ensures ParsePrimary(ts, c) == Expected(c, Lit(l))
  {
    hide ParseOr, ParseFunc, ParseColumnRef, IsFunction, Upper, ShowInt, ReadInt, IsNumber, Expected;
    LeafExpected(c, Lit(l));
    At(ts, c.i, [LiteralToken(l)], 0);
    if l.IntLit? {
      ReadShowInt(l.i);
    }
  }

  lemma PrimaryFunc(ts: seq<Token>, c: Cursor, name: string, arg: Option<ColumnRef>)
    requires InRange(ts, c) && Spelled(ts, c.i, Func(name, arg)) && c.depth <= MAX_EXPR_DEPTH
    requires c.terms <= MAX_EXPR_TERMS
    requires IsFunction(name) && c.i + |Tokens(Func(name, arg))| < |ts|
    ensures ParsePrimary(ts, c) == Expected(c, Func(name, arg))
  {
    hide IsName, Upper, ParsePrimary, IsFunction, Tokens, ColumnTokens, Expected;
    LeafExpected(c, Func(name, arg));
    FunctionIsName(name);
    FuncTokens(name, arg);
    if arg.None? {
      PrimaryStar(ts, c, name);
    } else {
      PrimaryCall(ts, c, name, arg.value);
    }
  }

  lemma FuncTokens(name: string, arg: Option<ColumnRef>)
    ensures var inner := if arg.None? then [Token(Star, "*")] else ColumnTokens(arg.value);
      Tokens(Func(name, arg)) == [Token(Ident, name), OPEN] + inner + [CLOSE]
          && |Tokens(Func(name, arg))| == 3 + |inner|
  {
  }

  lemma PrimaryStar(ts: seq<Token>, c: Cursor, name: string)
    requires InRange(ts, c) && c.i + 4 < |ts|
    requires ts[c.i..c.i + 4] == [Token(Ident, name), OPEN] + [Token(Star, "*")] + [CLOSE]
    requires IsFunction(name) && Upper(name) == name
    ensures ParsePrimary(ts, c) == Ok((Func(name, None), c.(i := c.i + 4)))
  {
    hide Upper, IsFunction, ParsePrimary;
    FuncSpelled(ts, c.i, Token(Ident, name), [Token(Star, "*")]);
    At(ts, c.i + 2, [Token(Star, "*")], 0);
    CallStar(ts, c, name);
  }

  lemma PrimaryCall(ts: seq<Token>, c: Cursor, name: string, col: ColumnRef)
    requires InRange(ts, c) && c.i + 3 + |ColumnTokens(col)| < |ts| && IsFunction(name) && Upper(name) == name
    requires ts[c.i..c.i + 3 + |ColumnTokens(col)|] == [Token(Ident, name), OPEN] + ColumnTokens(col) + [CLOSE]
    ensures ParsePrimary(ts, c) == Ok((Func(name, Some(col)), c.(i := c.i + 3 + |ColumnTokens(col)|)))
  {
    hide Upper, IsFunction, ParsePrimary, ParseColumnRef;
    var inner := ColumnTokens(col);
    FuncSpelled(ts, c.i, Token(Ident, name), inner);
    ColumnParses(ts, Step(Step(c)), col);
    At(ts, c.i + 2, inner, 0);
    CallColumn(ts, c, name, col);
  }

  lemma FuncSpelled(ts: seq<Token>, i: nat, name: Token, inner: seq<Token>)
    requires i + 3 + |inner| <= |ts| && ts[i..i + 3 + |inner|] == [name, OPEN] + inner + [CLOSE]
    ensures ts[i] == name && ts[i + 1] == OPEN && ts[i + 2..i + 2 + |inner|] == inner && ts[i + 2 + |inner|] == CLOSE
  {
    var s := [name, OPEN] + inner + [CLOSE];
    At(ts, i, s, 0);
    At(ts, i, s, 1);
    At(ts, i, s, 2 + |inner|);
    forall k | 0 <= k < |inner| ensures ts[i + 2 + k] == inner[k] {
      At(ts, i, s, 2 + k);
    }
  }

  lemma CallStar(ts: seq<Token>, c: Cursor, name: string)
    requires InRange(ts, c) && c.i + 4 < |ts| && IsFunction(name) && Upper(name) == name
    requires ts[c.i] == Token(Ident, name) && ts[c.i + 1] == OPEN && ts[c.i + 2].kind == Star && ts[c.i + 3] == CLOSE
    ensures ParsePrimary(ts, c) == Ok((Func(name, None), c.(i := c.i + 4)))
  {
    hide Upper, IsFunction, ParseOr, ParseColumnRef, ParseLiteral;
  }

  lemma CallColumn(ts: seq<Token>, c: Cursor, name: string, col: ColumnRef)
    requires InRange(ts, c) && IsFunction(name) && Upper(name) == name
    requires var d := Step(Step(c));
      var f := d.(i := d.i + |ColumnTokens(col)|);
      && InRange(ts, f) && ParseColumnRef(ts, d) == Ok((col, f)) && ts[f.i] == CLOSE
    requires ts[c.i] == Token(Ident, name) && ts[c.i + 1] == OPEN && ts[c.i + 2].kind == Ident
    ensures ParsePrimary(ts, c) == Ok((Func(name, Some(col)), c.(i := c.i + 3 + |ColumnTokens(col)|)))
  {
    hide Upper, IsFunction, ParseColumnRef, ColumnTokens;
  }

  // Parsing undoes printing: an expression within the caps comes back whole, with
  // only the end marker left; any other is refused.
  lemma ParseUndoesShow(e: Expr)
    requires ProperExpr(e)
    ensures var ts := Lex(Show(e));
      && InRange(ts, Cursor(0, 0, 0)) && |ts| == |Tokens(e)| + 1
      && ParseOr(ts, Cursor(0, 0, 0)) == Expected(Cursor(0, 0, 0), e)
  {
    hide ParsePrimary, ParseComparison, ParseAnd, AndRest, ParseOr, OrRest, Tokens;
    var ts, c := Lex(Show(e)), Cursor(0, 0, 0);
    LexShown(e, "");
    LexEnd();
    assert Show(e) + "" == Show(e);
    assert ts == Tokens(e) + [Token(Eof, "")];
    assert ts[0..|Tokens(e)|] == Tokens(e);
    PrimaryUndoesShow(ts, c, e);
    OperandAlone(ts, c, e);
    FailsUp(ts, c);
    if Allowed(c, e) {
      NoAnd(ts, c, e, Behind(c, e));
      NoOr(ts, c, e, Behind(c, e));
    }
  }

  // ------------------------------------------------------------------
  // Whatever the parser builds is printable
  // ------------------------------------------------------------------

  ghost predicate AllProper(ts: seq<Token>) {
    forall i :: 0 <= i < |ts| ==> Proper(ts[i])
  }

  // A result is a proper expression whose ANDs and ORs were all counted.
  predicate Sound(c: Cursor, r: Result<(Expr, Cursor)>) {
    r.Ok? ==>
      && ProperExpr(r.value.0)
      && r.value.1.terms == c.terms + Terms(r.value.0) && r.value.1.terms <= MAX_EXPR_TERMS
  }

  lemma ColumnIsProper(ts: seq<Token>, c: Cursor)
    requires InRange(ts, c) && AllProper(ts)
    ensures var r := ParseColumnRef(ts, c); r.Ok? ==> ProperColumn(r.value.0)
  {
    hide IsName;
    var r := ParseColumnRef(ts, c);
    if r.Ok? {
      assert Proper(ts[c.i]) && (ts[c.i + 1] == Token(Punct, ".") ==> Proper(ts[c.i + 2]));
    }
  }

  lemma {:induction false} PrimaryIsProper(ts: seq<Token>, c: Cursor)
    requires InRange(ts, c) && AllProper(ts) && c.terms <= MAX_EXPR_TERMS
    ensures Sound(c, ParsePrimary(ts, c))
    decreases |ts| - c.i, 0
  {
    hide ParseColumnRef, ProperColumn, ParseOr, IsName;
    if ts[c.i] == OPEN {
      if c.depth < MAX_EXPR_DEPTH {
        OrIsProper(ts, LeftAt(c));
      }
    } else if AtCall(ts, c.i) {
      if ts[c.i + 1] == OPEN && ts[c.i + 2].kind != Star {
        ColumnIsProper(ts, Step(Step(c)));
      }
    } else if ts[c.i].kind == Ident {
      ColumnIsProper(ts, c);
    } else {
      assert Proper(ts[c.i]);
    }
  }

  lemma {:induction false} ComparisonIsProper(ts: seq<Token>, c: Cursor)
    requires InRange(ts, c) && AllProper(ts) && c.terms <= MAX_EXPR_TERMS
    ensures Sound(c, ParseComparison(ts, c))
    decreases |ts| - c.i, 1
  {
    hide ParsePrimary;
    PrimaryIsProper(ts, c);
    var r := ParsePrimary(ts, c);
    if r.Ok? && ts[r.value.1.i].kind == Op && IsComparison(ts[r.value.1.i].value) {
      PrimaryIsProper(ts, Step(r.value.1));
    }
  }

  lemma {:induction false} AndRestIsProper(ts: seq<Token>, left: Expr, c: Cursor, from: Cursor)
    requires InRange(ts, c) && AllProper(ts) && Sound(from, Ok((left, c)))
    ensures Sound(from, AndRest(ts, left, c))
    decreases |ts| - c.i, 2
  {
    hide ParseComparison;
    if ts[c.i] == Token(Keyword, "AND") && c.terms < MAX_EXPR_TERMS {
      var d := Step(c).(terms := c.terms + 1);
      ComparisonIsProper(ts, d);
      var r := ParseComparison(ts, d);
      if r.Ok? {
        AndRestIsProper(ts, Logic(And, left, r.value.0), r.value.1, from);
      }
    }
  }

  lemma {:induction false} AndIsProper(ts: seq<Token>, c: Cursor)
    requires InRange(ts, c) && AllProper(ts) && c.terms <= MAX_EXPR_TERMS
    ensures Sound(c, ParseAnd(ts, c))
    decreases |ts| - c.i, 3
  {
    hide ParseComparison, AndRest;
    ComparisonIsProper(ts, c);
    var r := ParseComparison(ts, c);
    if r.Ok? {
      AndRestIsProper(ts, r.value.0, r.value.1, c);
    }
  }

  lemma {:induction false} OrRestIsProper(ts: seq<Token>, left: Expr, c: Cursor, from: Cursor)
    requires InRange(ts, c) && AllProper(ts) && Sound(from, Ok((left, c)))
    ensures Sound(from, OrRest(ts, left, c))
    decreases |ts| - c.i, 4
  {
    hide ParseAnd;
    if ts[c.i] == Token(Keyword, "OR") && c.terms < MAX_EXPR_TERMS {
      var d := Step(c).(terms := c.terms + 1);
      AndIsProper(ts, d);
      var r := ParseAnd(ts, d);
      if r.Ok? {
        OrRestIsProper(ts, Logic(Or, left, r.value.0), r.value.1, from);
      }
    }
  }

  lemma {:induction false} OrIsProper(ts: seq<Token>, c: Cursor)
    requires InRange(ts, c) && AllProper(ts) && c.terms <= MAX_EXPR_TERMS
    ensures Sound(c, ParseOr(ts, c))
    decreases |ts| - c.i, 5
  {
    hide ParseAnd, OrRest;
    AndIsProper(ts, c);
    var r := ParseAnd(ts, c);
    if r.Ok? {
      OrRestIsProper(ts, r.value.0, r.value.1, c);
    }
  }

  // The main result: any expression the parser builds from any text, printed,
  // lexed and parsed again, comes back exactly when it nests no deeper than the
  // parenthesis cap; otherwise the parser refuses the printed form.
  lemma PrintedComesBack(sql: string, c: Cursor)
    requires InRange(Lex(sql), c) && c.terms == 0 && ParseOr(Lex(sql), c).Ok?
    ensures var e := ParseOr(Lex(sql), c).value.0;
      var again := ParseOr(Lex(Show(e)), Cursor(0, 0, 0));
      if Nesting(e) <= MAX_EXPR_DEPTH then again.Ok? && again.value.0 == e && Lex(Show(e))[again.value.1.i].kind == Eof
      else again == Err(ParseError)
  {
    hide ParseOr, Nesting;
    LexProper(sql);
    OrIsProper(Lex(sql), c);
    ParseUndoesShow(ParseOr(Lex(sql), c).value.0);
  }
}
