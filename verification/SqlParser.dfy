// The expression grammar as functions on a token list and a cursor, and the parser
// object whose methods follow it.
module SqlParser {
  import opened Wrappers
  import opened SqlAst

  const MAX_EXPR_DEPTH := 100
  const MAX_EXPR_TERMS := 500

  // The next token, how many parentheses are open, how many AND and OR were read.
  datatype Cursor = Cursor(i: nat, depth: nat, terms: nat)

  // A token list that ends with the end marker.
  predicate Terminated(ts: seq<Token>) {
    ts != [] && ts[|ts| - 1].kind == Eof
  }

  predicate InRange(ts: seq<Token>, c: Cursor) {
    Terminated(ts) && c.i < |ts|
  }

  function Step(c: Cursor): Cursor {
    c.(i := c.i + 1)
  }

  // A function name right before an opening parenthesis.
  predicate AtCall(ts: seq<Token>, i: nat)
    requires Terminated(ts) && i < |ts|
  {
    ts[i].kind == Ident && IsFunction(Upper(ts[i].value)) && ts[i + 1].value == "("
  }

  function ParseColumnRef(ts: seq<Token>, c: Cursor): (r: Result<(ColumnRef, Cursor)>)
    requires InRange(ts, c)
    ensures r.Ok? ==> InRange(ts, r.value.1) && c.i < r.value.1.i && r.value.1 == c.(i := r.value.1.i)
  {
    if ts[c.i].kind != Ident then Err(ParseError)
    else
      var first := ts[c.i].value;
      var d := Step(c);
      if ts[d.i] != Token(Punct, ".") then Ok((ColumnRef(first, None), d))
      else if ts[d.i + 1].kind != Ident then Err(ParseError)
      else Ok((ColumnRef(ts[d.i + 1].value, Some(first)), Step(Step(d))))
  }

  function ParseFunc(ts: seq<Token>, c: Cursor): (r: Result<(Expr, Cursor)>)
    requires InRange(ts, c)
    ensures r.Ok? ==> InRange(ts, r.value.1) && c.i < r.value.1.i && r.value.1 == c.(i := r.value.1.i)
  {
    if ts[c.i].kind != Ident || ts[c.i + 1] != Token(Punct, "(") then Err(ParseError)
    else
      var name := Upper(ts[c.i].value);
      var d := Step(Step(c));
      if ts[d.i].kind == Star then
        if ts[d.i + 1] != Token(Punct, ")") then Err(ParseError) else Ok((Func(name, None), Step(Step(d))))
      else
        match ParseColumnRef(ts, d)
        case Err(e) => Err(e)
        case Ok((col, f)) => if ts[f.i] != Token(Punct, ")") then Err(ParseError)
                             else Ok((Func(name, Some(col)), Step(f)))
  }

  function ParseLiteral(ts: seq<Token>, c: Cursor): (r: Result<(Literal, Cursor)>)
    requires InRange(ts, c)
    ensures r.Ok? ==> InRange(ts, r.value.1) && r.value.1 == Step(c)
  {
    var t := ts[c.i];
    if t.kind == Int && IsNumber(t.value) then Ok((IntLit(ReadInt(t.value)), Step(c)))
    else if t.kind == Str then Ok((StrLit(t.value), Step(c)))
    else if t == Token(Keyword, "NULL") then Ok((NullLit, Step(c)))
    else Err(ParseError)
  }

  function ParseOr(ts: seq<Token>, c: Cursor): (r: Result<(Expr, Cursor)>)
    requires InRange(ts, c)
    ensures r.Ok? ==> InRange(ts, r.value.1) && c.i < r.value.1.i && r.value.1.depth == c.depth
    decreases |ts| - c.i, 5
  {
    match ParseAnd(ts, c)
    case Err(e) => Err(e)
    case Ok((left, d)) => OrRest(ts, left, d)
  }

  // The loop of or_expr: more terms after the left operand.
  function OrRest(ts: seq<Token>, left: Expr, c: Cursor): (r: Result<(Expr, Cursor)>)
    requires InRange(ts, c)
    ensures r.Ok? ==> InRange(ts, r.value.1) && c.i <= r.value.1.i && r.value.1.depth == c.depth
    decreases |ts| - c.i, 4
  {
    if ts[c.i] != Token(Keyword, "OR") then Ok((left, c))
    else if c.terms + 1 > MAX_EXPR_TERMS then Err(ParseError)
    else
      match ParseAnd(ts, Step(c).(terms := c.terms + 1))
      case Err(e) => Err(e)
      case Ok((right, d)) => OrRest(ts, Logic(Or, left, right), d)
  }

  function ParseAnd(ts: seq<Token>, c: Cursor): (r: Result<(Expr, Cursor)>)
    requires InRange(ts, c)
    ensures r.Ok? ==> InRange(ts, r.value.1) && c.i < r.value.1.i && r.value.1.depth == c.depth
    decreases |ts| - c.i, 3
  {
    match ParseComparison(ts, c)
    case Err(e) => Err(e)
    case Ok((left, d)) => AndRest(ts, left, d)
  }

  function AndRest(ts: seq<Token>, left: Expr, c: Cursor): (r: Result<(Expr, Cursor)>)
    requires InRange(ts, c)
    ensures r.Ok? ==> InRange(ts, r.value.1) && c.i <= r.value.1.i && r.value.1.depth == c.depth
    decreases |ts| - c.i, 2
  {
    if ts[c.i] != Token(Keyword, "AND") then Ok((left, c))
    else if c.terms + 1 > MAX_EXPR_TERMS then Err(ParseError)
    else
      match ParseComparison(ts, Step(c).(terms := c.terms + 1))
      case Err(e) => Err(e)
      case Ok((right, d)) => AndRest(ts, Logic(And, left, right), d)
  }

  function ParseComparison(ts: seq<Token>, c: Cursor): (r: Result<(Expr, Cursor)>)
    requires InRange(ts, c)
    ensures r.Ok? ==> InRange(ts, r.value.1) && c.i < r.value.1.i && r.value.1.depth == c.depth
    decreases |ts| - c.i, 1
  {
    match ParsePrimary(ts, c)
    case Err(e) => Err(e)
    case Ok((left, d)) =>
      if ts[d.i].kind != Op || !IsComparison(ts[d.i].value) then Ok((left, d))
      else
        match ParsePrimary(ts, Step(d))
        case Err(e) => Err(e)
        case Ok((right, f)) => Ok((Compare(ts[d.i].value, left, right), f))
  }

  function ParsePrimary(ts: seq<Token>, c: Cursor): (r: Result<(Expr, Cursor)>)
    requires InRange(ts, c)
    ensures r.Ok? ==> InRange(ts, r.value.1) && c.i < r.value.1.i && r.value.1.depth == c.depth
    decreases |ts| - c.i, 0
  {
    if ts[c.i] == Token(Punct, "(") then
      if c.depth >= MAX_EXPR_DEPTH then Err(ParseError)
      else
        match ParseOr(ts, Step(c).(depth := c.depth + 1))
        case Err(e) => Err(e)
        case Ok((e, d)) => if ts[d.i] != Token(Punct, ")") then Err(ParseError) else Ok((e, Step(d).(depth := c.depth)))
    else if AtCall(ts, c.i) then ParseFunc(ts, c)
    else if ts[c.i].kind == Ident then
      match ParseColumnRef(ts, c)
      case Err(e) => Err(e)
      case Ok((col, d)) => Ok((Column(col), d))
    else
      match ParseLiteral(ts, c)
      case Err(e) => Err(e)
      case Ok((lit, d)) => Ok((Lit(lit), d))
  }

  // ------------------------------------------------------------------
  // Statements
  // ------------------------------------------------------------------

  // One token of a kind, and of a given text if there is one.
  function Take(ts: seq<Token>, c: Cursor, kind: Kind, value: Option<string>): (r: Result<(string, Cursor)>)
    requires InRange(ts, c) && kind != Eof
    ensures r.Ok? ==> InRange(ts, r.value.1) && r.value.1 == Step(c)
  {
    if ts[c.i].kind == kind && (value.None? || ts[c.i].value == value.value) then Ok((ts[c.i].value, Step(c)))
    else Err(ParseError)
  }

  // A result whose cursor is in range and further on.
  ghost predicate Moves<T>(ts: seq<Token>, c: Cursor, r: Result<(T, Cursor)>) {
    r.Ok? ==> InRange(ts, r.value.1) && c.i < r.value.1.i
  }

  ghost predicate Stays<T>(ts: seq<Token>, c: Cursor, r: Result<(T, Cursor)>) {
    r.Ok? ==> InRange(ts, r.value.1) && c.i <= r.value.1.i
  }

  predicate AtWord(ts: seq<Token>, c: Cursor, word: string)
    requires InRange(ts, c)
  {
    ts[c.i] == Token(Keyword, word)
  }

  predicate AtPunct(ts: seq<Token>, c: Cursor, mark: string)
    requires InRange(ts, c)
  {
    ts[c.i] == Token(Punct, mark)
  }

  function ParseColumnDef(ts: seq<Token>, c: Cursor): (r: Result<(ColumnDef, Cursor)>)
    requires InRange(ts, c)
    ensures Moves(ts, c, r)
  {
    var (name, d) :- Take(ts, c, Ident, None);
    var (colType, e) :- Take(ts, d, Ident, None);
    if IsColumnType(Upper(colType)) then Ok((ColumnDef(name, Upper(colType)), e)) else Err(ParseError)
  }

  function ColumnDefsRest(ts: seq<Token>, defs: seq<ColumnDef>, c: Cursor): (r: Result<(seq<ColumnDef>, Cursor)>)
    requires InRange(ts, c)
    ensures Stays(ts, c, r)
    decreases |ts| - c.i
  {
    if !AtPunct(ts, c, ",") then Ok((defs, c))
    else
      var (def, d) :- ParseColumnDef(ts, Step(c));
      ColumnDefsRest(ts, defs + [def], d)
  }

  function ParseColumnDefs(ts: seq<Token>, c: Cursor): (r: Result<(seq<ColumnDef>, Cursor)>)
    requires InRange(ts, c)
    ensures Moves(ts, c, r)
  {
    var (first, d) :- ParseColumnDef(ts, c);
    ColumnDefsRest(ts, [first], d)
  }

  function ParseCreate(ts: seq<Token>, c: Cursor): (r: Result<(Statement, Cursor)>)
    requires InRange(ts, c)
    ensures Moves(ts, c, r)
  {
    var (_, c1) :- Take(ts, c, Keyword, Some("CREATE"));
    var (_, c2) :- Take(ts, c1, Keyword, Some("TABLE"));
    var (table, c3) :- Take(ts, c2, Ident, None);
    var (_, c4) :- Take(ts, c3, Punct, Some("("));
    var (defs, c5) :- ParseColumnDefs(ts, c4);
    var (_, c6) :- Take(ts, c5, Punct, Some(")"));
    Ok((CreateTable(table, defs), c6))
  }

  function LiteralsRest(ts: seq<Token>, values: seq<Literal>, c: Cursor): (r: Result<(seq<Literal>, Cursor)>)
    requires InRange(ts, c)
    ensures Stays(ts, c, r)
    decreases |ts| - c.i
  {
    if !AtPunct(ts, c, ",") then Ok((values, c))
    else
      var (value, d) :- ParseLiteral(ts, Step(c));
      LiteralsRest(ts, values + [value], d)
  }

  function ParseLiterals(ts: seq<Token>, c: Cursor): (r: Result<(seq<Literal>, Cursor)>)
    requires InRange(ts, c)
    ensures Moves(ts, c, r)
  {
    var (first, d) :- ParseLiteral(ts, c);
    LiteralsRest(ts, [first], d)
  }

  function ParseInsert(ts: seq<Token>, c: Cursor): (r: Result<(Statement, Cursor)>)
    requires InRange(ts, c)
    ensures Moves(ts, c, r)
  {
    var (_, c1) :- Take(ts, c, Keyword, Some("INSERT"));
    var (_, c2) :- Take(ts, c1, Keyword, Some("INTO"));
    var (table, c3) :- Take(ts, c2, Ident, None);
    var (_, c4) :- Take(ts, c3, Keyword, Some("VALUES"));
    var (_, c5) :- Take(ts, c4, Punct, Some("("));
    var (values, c6) :- ParseLiterals(ts, c5);
    var (_, c7) :- Take(ts, c6, Punct, Some(")"));
    Ok((Insert(table, values), c7))
  }

  function ParseItem(ts: seq<Token>, c: Cursor): (r: Result<(Expr, Cursor)>)
    requires InRange(ts, c)
    ensures Moves(ts, c, r)
  {
    if AtCall(ts, c.i) then ParseFunc(ts, c)
    else
      var (col, d) :- ParseColumnRef(ts, c);
      Ok((Column(col), d))
  }

  function ItemsRest(ts: seq<Token>, items: seq<Expr>, c: Cursor): (r: Result<(seq<Expr>, Cursor)>)
    requires InRange(ts, c)
    ensures Stays(ts, c, r)
    decreases |ts| - c.i
  {
    if !AtPunct(ts, c, ",") then Ok((items, c))
    else
      var (item, d) :- ParseItem(ts, Step(c));
      ItemsRest(ts, items + [item], d)
  }

  // None for *.
  function ParseProjections(ts: seq<Token>, c: Cursor): (r: Result<(Option<seq<Expr>>, Cursor)>)
    requires InRange(ts, c)
    ensures Moves(ts, c, r)
  {
    if ts[c.i].kind == Star then Ok((None, Step(c)))
    else
      var (first, d) :- ParseItem(ts, c);
      var (items, e) :- ItemsRest(ts, [first], d);
      Ok((Some(items), e))
  }

  function JoinClause(ts: seq<Token>, c: Cursor): (r: Result<(Option<Join>, Cursor)>)
    requires InRange(ts, c)
    ensures Stays(ts, c, r)
  {
    if !AtWord(ts, c, "JOIN") then Ok((None, c))
    else
      var (table, c1) :- Take(ts, Step(c), Ident, None);
      var (_, c2) :- Take(ts, c1, Keyword, Some("ON"));
      var (left, c3) :- ParseColumnRef(ts, c2);
      var (_, c4) :- Take(ts, c3, Op, Some("="));
      var (right, c5) :- ParseColumnRef(ts, c4);
      Ok((Some(Join(table, left, right)), c5))
  }

  function WhereClause(ts: seq<Token>, c: Cursor): (r: Result<(Option<Expr>, Cursor)>)
    requires InRange(ts, c)
    ensures Stays(ts, c, r)
  {
    if !AtWord(ts, c, "WHERE") then Ok((None, c))
    else
      var (e, d) :- ParseOr(ts, Step(c));
      Ok((Some(e), d))
  }

  function GroupClause(ts: seq<Token>, c: Cursor): (r: Result<(Option<string>, Cursor)>)
    requires InRange(ts, c)
    ensures Stays(ts, c, r)
  {
    if !AtWord(ts, c, "GROUP") then Ok((None, c))
    else
      var (_, c1) :- Take(ts, Step(c), Keyword, Some("BY"));
      var (col, c2) :- Take(ts, c1, Ident, None);
      Ok((Some(col), c2))
  }

  function OrderClause(ts: seq<Token>, c: Cursor): (r: Result<(Option<OrderBy>, Cursor)>)
    requires InRange(ts, c)
    ensures Stays(ts, c, r)
  {
    if !AtWord(ts, c, "ORDER") then Ok((None, c))
    else
      var (_, c1) :- Take(ts, Step(c), Keyword, Some("BY"));
      var (col, c2) :- Take(ts, c1, Ident, None);
      if AtWord(ts, c2, "ASC") then Ok((Some(OrderBy(col, false)), Step(c2)))
      else if AtWord(ts, c2, "DESC") then Ok((Some(OrderBy(col, true)), Step(c2)))
      else Ok((Some(OrderBy(col, false)), c2))
  }

  function LimitClause(ts: seq<Token>, c: Cursor): (r: Result<(Option<nat>, Cursor)>)
    requires InRange(ts, c)
    ensures Stays(ts, c, r)
  {
    if !AtWord(ts, c, "LIMIT") then Ok((None, c))
    else
      var (text, d) :- Take(ts, Step(c), Int, None);
      if IsNumber(text) && ReadInt(text) >= 0 then Ok((Some(ReadInt(text)), d)) else Err(ParseError)
  }

  function ParseSelect(ts: seq<Token>, c: Cursor): (r: Result<(Statement, Cursor)>)
    requires InRange(ts, c)
    ensures Moves(ts, c, r)
  {
    var (_, c1) :- Take(ts, c, Keyword, Some("SELECT"));
    var (projections, c2) :- ParseProjections(ts, c1);
    var (_, c3) :- Take(ts, c2, Keyword, Some("FROM"));
    var (table, c4) :- Take(ts, c3, Ident, None);
    var (join, c5) :- JoinClause(ts, c4);
    var (where, c6) :- WhereClause(ts, c5);
    var (groupBy, c7) :- GroupClause(ts, c6);
    var (orderBy, c8) :- OrderClause(ts, c7);
    var (limit, c9) :- LimitClause(ts, c8);
    Ok((Query(Select(projections, table, join, where, groupBy, orderBy, limit)), c9))
  }

  // A whole statement: one of three kinds, an optional semicolon, the end.
  function ParseStatement(ts: seq<Token>, c: Cursor): (r: Result<(Statement, Cursor)>)
    requires InRange(ts, c)
    ensures Moves(ts, c, r) && (r.Ok? ==> ts[r.value.1.i].kind == Eof)
  {
    var (stmt, d) :- if AtWord(ts, c, "CREATE") then ParseCreate(ts, c)
                     else if AtWord(ts, c, "INSERT") then ParseInsert(ts, c)
                     else if AtWord(ts, c, "SELECT") then ParseSelect(ts, c)
                     else Err(ParseError);
    var e := if AtPunct(ts, d, ";") then Step(d) else d;
    if ts[e.i].kind == Eof then Ok((stmt, e)) else Err(ParseError)
  }

  // ------------------------------------------------------------------
  // The parser object
  // ------------------------------------------------------------------

  class Parser {
    const tokens: seq<Token>
    var i: nat
    var depth: nat    // open parentheses
    var terms: nat    // AND and OR read so far

    // The cursor is on a token: parsing never runs off the list.
    ghost predicate Valid()
      reads this
    {
      InRange(tokens, Cur()) && forall k :: 0 <= k < |tokens| && tokens[k].kind == Int ==> IsNumber(tokens[k].value)
    }

    ghost function Cur(): Cursor
      reads this
    {
      Cursor(i, depth, terms)
    }

    // What a method that parses returned and where it left the cursor, by the grammar.
    ghost predicate Follows<T>(spec: Result<(T, Cursor)>, r: Result<T>)
      reads this
    {
      match spec
      case Ok((x, c)) => r == Ok(x) && Cur() == c
      case Err(e) => r == Err(ParseError)
    }

    constructor (tokens: seq<Token>)
      requires Terminated(tokens)
      requires forall k :: 0 <= k < |tokens| && tokens[k].kind == Int ==> IsNumber(tokens[k].value)
      ensures Valid() && this.tokens == tokens && Cur() == Cursor(0, 0, 0)
    {
      this.tokens, i, depth, terms := tokens, 0, 0, 0;
    }

    predicate At(kind: Kind, value: string)
      requires InRange(tokens, Cursor(i, depth, terms))
      reads this
    {
      tokens[i] == Token(kind, value)
    }

    method Advance() returns (tok: Token)
      requires Valid() && tokens[i].kind != Eof
      modifies this`i
      ensures Valid() && i == old(i) + 1 && tok == tokens[old(i)]
    {
      tok := tokens[i];
      i := i + 1;
    }

    // The text of the current token, which must be of that kind.
    method Expect(kind: Kind, value: Option<string>) returns (r: Result<string>)
      requires Valid() && kind != Eof
      modifies this`i
      ensures Valid()
      ensures r == if tokens[old(i)].kind == kind && (value.None? || tokens[old(i)].value == value.value)
                   then Ok(tokens[old(i)].value) else Err(ParseError)
      ensures i == if r.Ok? then old(i) + 1 else old(i)
      ensures Follows(Take(tokens, old(Cur()), kind, value), r)
    {
      if tokens[i].kind != kind || (value.Some? && tokens[i].value != value.value) {
        return Err(ParseError);
      }
      var tok := Advance();
      return Ok(tok.value);
    }

    method ColumnReference() returns (r: Result<ColumnRef>)
      requires Valid()
      modifies this`i
      ensures Valid() && Follows(ParseColumnRef(tokens, old(Cur())), r)
    {
      var first := Expect(Ident, None);
      if first.Err? {
        return Err(ParseError);
      }
      if At(Punct, ".") {
        var _ := Advance();
        var col := Expect(Ident, None);
        if col.Err? {
          return Err(ParseError);
        }
        return Ok(ColumnRef(col.value, Some(first.value)));
      }
      return Ok(ColumnRef(first.value, None));
    }

    method FuncCall() returns (r: Result<Expr>)
      requires Valid()
      modifies this`i
      ensures Valid() && Follows(ParseFunc(tokens, old(Cur())), r)
    {
      var nameTok := Expect(Ident, None);
      if nameTok.Err? {
        return Err(ParseError);
      }
      var open := Expect(Punct, Some("("));
      if open.Err? {
        return Err(ParseError);
      }
      var arg := None;
      if tokens[i].kind == Star {
        var _ := Advance();
      } else {
        var col := ColumnReference();
        if col.Err? {
          return Err(ParseError);
        }
        arg := Some(col.value);
      }
      var close := Expect(Punct, Some(")"));
      if close.Err? {
        return Err(ParseError);
      }
      return Ok(Func(Upper(nameTok.value), arg));
    }

    method LiteralValue() returns (r: Result<Literal>)
      requires Valid()
      modifies this`i
      ensures Valid() && Follows(ParseLiteral(tokens, old(Cur())), r)
    {
      var t := tokens[i];
      if t.kind == Int {
        var _ := Advance();
        return Ok(IntLit(ReadInt(t.value)));
      }
      if t.kind == Str {
        var _ := Advance();
        return Ok(StrLit(t.value));
      }
      if At(Keyword, "NULL") {
        var _ := Advance();
        return Ok(NullLit);
      }
      return Err(ParseError);
    }

    // One statement and nothing behind it. Any token list ending with the end
    // marker gives a tree or a parse error.
    method Statement() returns (r: Result<Statement>)
      requires Valid()
      modifies this
      ensures Valid() && Follows(ParseStatement(tokens, old(Cur())), r)
      ensures r.Err? ==> r == Err(ParseError)
    {
      hide ParseCreate, ParseInsert, ParseSelect;
      if At(Keyword, "CREATE") {
        r := CreateStatement();
      } else if At(Keyword, "INSERT") {
        r := InsertStatement();
      } else if At(Keyword, "SELECT") {
        r := SelectStatement();
      } else {
        r := Err(ParseError);
      }
      if r.Err? {
        return;
      }
      if At(Punct, ";") {
        var _ := Advance();
      }
      if tokens[i].kind != Eof {
        return Err(ParseError);
      }
    }

    method CreateStatement() returns (r: Result<Statement>)
      requires Valid()
      modifies this
      ensures Valid() && Follows(ParseCreate(tokens, old(Cur())), r)
    {
      hide ParseColumnDefs, IsNumber, Take;
      var _ :- Expect(Keyword, Some("CREATE"));
      var _ :- Expect(Keyword, Some("TABLE"));
      var table :- Expect(Ident, None);
      var _ :- Expect(Punct, Some("("));
      var columns :- ColumnDefinitions();
      var _ :- Expect(Punct, Some(")"));
      return Ok(CreateTable(table, columns));
    }

    // One or more, separated by commas.
    method ColumnDefinitions() returns (r: Result<seq<ColumnDef>>)
      requires Valid()
      modifies this`i
      ensures Valid() && Follows(ParseColumnDefs(tokens, old(Cur())), r)
    {
      hide ParseColumnDef, IsNumber;
      var first :- ColumnDefinition();
      var columns := [first];
      ghost var from := Cur();
      while At(Punct, ",")
        invariant Valid() && i >= from.i && depth == old(depth) && terms == old(terms)
        invariant ColumnDefsRest(tokens, [first], from) == ColumnDefsRest(tokens, columns, Cur())
        decreases |tokens| - i
      {
        var _ := Advance();
        var column :- ColumnDefinition();
        columns := columns + [column];
      }
      return Ok(columns);
    }

    method ColumnDefinition() returns (r: Result<ColumnDef>)
      requires Valid()
      modifies this`i
      ensures Valid() && Follows(ParseColumnDef(tokens, old(Cur())), r)
    {
      var name :- Expect(Ident, None);
      var colType :- Expect(Ident, None);
      if !IsColumnType(Upper(colType)) {
        return Err(ParseError);
      }
      return Ok(ColumnDef(name, Upper(colType)));
    }

    method InsertStatement() returns (r: Result<Statement>)
      requires Valid()
      modifies this
      ensures Valid() && Follows(ParseInsert(tokens, old(Cur())), r)
    {
      hide ParseLiterals, IsNumber, Take;
      var _ :- Expect(Keyword, Some("INSERT"));
      var _ :- Expect(Keyword, Some("INTO"));
      var table :- Expect(Ident, None);
      var _ :- Expect(Keyword, Some("VALUES"));
      var _ :- Expect(Punct, Some("("));
      var values :- LiteralValues();
      var _ :- Expect(Punct, Some(")"));
      return Ok(Insert(table, values));
    }

    method LiteralValues() returns (r: Result<seq<Literal>>)
      requires Valid()
      modifies this`i
      ensures Valid() && Follows(ParseLiterals(tokens, old(Cur())), r)
    {
      hide ParseLiteral, IsNumber;
      var first :- LiteralValue();
      var values := [first];
      ghost var from := Cur();
      while At(Punct, ",")
        invariant Valid() && i >= from.i && depth == old(depth) && terms == old(terms)
        invariant LiteralsRest(tokens, [first], from) == LiteralsRest(tokens, values, Cur())
        decreases |tokens| - i
      {
        var _ := Advance();
        var value :- LiteralValue();
        values := values + [value];
      }
      return Ok(values);
    }

    method SelectStatement() returns (r: Result<Statement>)
      requires Valid()
      modifies this
      ensures Valid() && Follows(ParseSelect(tokens, old(Cur())), r)
    {
      hide ParseProjections, JoinClause, WhereClause, GroupClause, OrderClause, LimitClause, IsNumber, Take;
      var _ :- Expect(Keyword, Some("SELECT"));
      var projections :- Projections();
      var _ :- Expect(Keyword, Some("FROM"));
      var table :- Expect(Ident, None);
      var join :- Joined();
      var where :- Filter();
      var groupBy :- Grouping();
      var orderBy :- Ordering();
      var limit :- Limit();
      return Ok(Query(Select(projections, table, join, where, groupBy, orderBy, limit)));
    }

    method Projections() returns (r: Result<Option<seq<Expr>>>)
      requires Valid()
      modifies this`i
      ensures Valid() && Follows(ParseProjections(tokens, old(Cur())), r)
    {
      hide ParseItem, IsNumber;
      if tokens[i].kind == Star {
        var _ := Advance();
        return Ok(None);
      }
      var first :- SelectItem();
      var items := [first];
      ghost var from := Cur();
      while At(Punct, ",")
        invariant Valid() && i >= from.i && depth == old(depth) && terms == old(terms)
        invariant ItemsRest(tokens, [first], from) == ItemsRest(tokens, items, Cur())
        decreases |tokens| - i
      {
        var _ := Advance();
        var item :- SelectItem();
        items := items + [item];
      }
      return Ok(Some(items));
    }

    method SelectItem() returns (r: Result<Expr>)
      requires Valid()
      modifies this`i
      ensures Valid() && Follows(ParseItem(tokens, old(Cur())), r)
    {
      if AtCall(tokens, i) {
        r := FuncCall();
        return;
      }
      var col :- ColumnReference();
      return Ok(Column(col));
    }

    method Joined() returns (r: Result<Option<Join>>)
      requires Valid()
      modifies this`i
      ensures Valid() && Follows(JoinClause(tokens, old(Cur())), r)
    {
      hide ParseColumnRef, IsNumber, Take, Terminated, Stays, Moves;
      if !At(Keyword, "JOIN") {
        return Ok(None);
      }
      var _ := Advance();
      var table :- Expect(Ident, None);
      var _ :- Expect(Keyword, Some("ON"));
      var left :- ColumnReference();
      var _ :- Expect(Op, Some("="));
      var right :- ColumnReference();
      return Ok(Some(Join(table, left, right)));
    }

    method Filter() returns (r: Result<Option<Expr>>)
      requires Valid()
      modifies this
      ensures Valid() && Follows(WhereClause(tokens, old(Cur())), r)
    {
      if !At(Keyword, "WHERE") {
        return Ok(None);
      }
      var _ := Advance();
      var e :- Expression();
      return Ok(Some(e));
    }

    method Grouping() returns (r: Result<Option<string>>)
      requires Valid()
      modifies this`i
      ensures Valid() && Follows(GroupClause(tokens, old(Cur())), r)
    {
      if !At(Keyword, "GROUP") {
        return Ok(None);
      }
      var _ := Advance();
      var _ :- Expect(Keyword, Some("BY"));
      var col :- Expect(Ident, None);
      return Ok(Some(col));
    }

    method Ordering() returns (r: Result<Option<OrderBy>>)
      requires Valid()
      modifies this`i
      ensures Valid() && Follows(OrderClause(tokens, old(Cur())), r)
    {
      if !At(Keyword, "ORDER") {
        return Ok(None);
      }
      var _ := Advance();
      var _ :- Expect(Keyword, Some("BY"));
      var column :- Expect(Ident, None);
      var descending := false;
      if At(Keyword, "ASC") {
        var _ := Advance();
      } else if At(Keyword, "DESC") {
        var _ := Advance();
        descending := true;
      }
      return Ok(Some(OrderBy(column, descending)));
    }

    method Limit() returns (r: Result<Option<nat>>)
      requires Valid()
      modifies this`i
      ensures Valid() && Follows(LimitClause(tokens, old(Cur())), r)
    {
      if !At(Keyword, "LIMIT") {
        return Ok(None);
      }
      var _ := Advance();
      var text :- Expect(Int, None);
      var n := ReadInt(text);
      if n < 0 {
        return Err(ParseError);
      }
      return Ok(Some(n));
    }

    method Expression() returns (r: Result<Expr>)
      requires Valid()
      modifies this
      ensures Valid() && Follows(ParseOr(tokens, old(Cur())), r)
      decreases |tokens| - i, 6
    {
      r := OrExpr();
    }

    method OrExpr() returns (r: Result<Expr>)
      requires Valid()
      modifies this
      ensures Valid() && Follows(ParseOr(tokens, old(Cur())), r)
      decreases |tokens| - i, 5
    {
      r := AndExpr();
      if r.Err? {
        return;
      }
      var left := r.value;
      while At(Keyword, "OR")
        invariant Valid() && i > old(i) && ParseOr(tokens, old(Cur())) == OrRest(tokens, left, Cur())
        decreases |tokens| - i
      {
        var _ := Advance();
        var counted := CountTerm();
        if !counted {
          return Err(ParseError);
        }
        r := AndExpr();
        if r.Err? {
          return;
        }
        left := Logic(Or, left, r.value);
      }
      return Ok(left);
    }

    method AndExpr() returns (r: Result<Expr>)
      requires Valid()
      modifies this
      ensures Valid() && Follows(ParseAnd(tokens, old(Cur())), r)
      decreases |tokens| - i, 3
    {
      r := Comparison();
      if r.Err? {
        return;
      }
      var left := r.value;
      while At(Keyword, "AND")
        invariant Valid() && i > old(i) && ParseAnd(tokens, old(Cur())) == AndRest(tokens, left, Cur())
        decreases |tokens| - i
      {
        var _ := Advance();
        var counted := CountTerm();
        if !counted {
          return Err(ParseError);
        }
        r := Comparison();
        if r.Err? {
          return;
        }
        left := Logic(And, left, r.value);
      }
      return Ok(left);
    }

    // Counts one AND or OR; false when there are too many.
    method CountTerm() returns (ok: bool)
      modifies this`terms
      ensures terms == old(terms) + 1 && ok == (terms <= MAX_EXPR_TERMS)
    {
      terms := terms + 1;
      ok := terms <= MAX_EXPR_TERMS;
    }

    method Comparison() returns (r: Result<Expr>)
      requires Valid()
      modifies this
      ensures Valid() && Follows(ParseComparison(tokens, old(Cur())), r)
      decreases |tokens| - i, 1
    {
      r := Primary();
      if r.Err? {
        return;
      }
      if tokens[i].kind == Op && IsComparison(tokens[i].value) {
        var left := r.value;
        var op := Advance();
        r := Primary();
        if r.Ok? {
          r := Ok(Compare(op.value, left, r.value));
        }
      }
    }

    method Primary() returns (r: Result<Expr>)
      requires Valid()
      modifies this
      ensures Valid() && Follows(ParsePrimary(tokens, old(Cur())), r)
      decreases |tokens| - i, 0
    {
      if At(Punct, "(") {
        if depth >= MAX_EXPR_DEPTH {
          return Err(ParseError);
        }
        depth := depth + 1;
        var _ := Advance();
        r := Expression();
        if r.Err? {
          return;
        }
        var close := Expect(Punct, Some(")"));
        if close.Err? {
          return Err(ParseError);
        }
        depth := depth - 1;
        return;
      }
      if tokens[i].kind == Ident {
        if AtCall(tokens, i) {
          r := FuncCall();
          return;
        }
        var col := ColumnReference();
        return if col.Ok? then Ok(Column(col.value)) else Err(ParseError);
      }
      if tokens[i].kind == Int || tokens[i].kind == Str || At(Keyword, "NULL") {
        var lit := LiteralValue();
        return if lit.Ok? then Ok(Lit(lit.value)) else Err(ParseError);
      }
      return Err(ParseError);
    }
  }
}
