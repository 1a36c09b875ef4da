// Tokens and syntax trees of the SQL subset.
module SqlAst {
  import opened Wrappers

  datatype Kind = Keyword | Ident | Int | Str | Op | Punct | Star | Eof | Bad

  datatype Token = Token(kind: Kind, value: string)

  datatype ColumnRef = ColumnRef(name: string, table: Option<string>)

  datatype Literal = IntLit(i: int) | StrLit(s: string) | NullLit

  datatype BoolOp = And | Or

  // arg is None for COUNT(*).
  datatype Expr =
    | Column(col: ColumnRef)
    | Lit(lit: Literal)
    | Compare(cmp: string, left: Expr, right: Expr)
    | Logic(op: BoolOp, left: Expr, right: Expr)
    | Func(name: string, arg: Option<ColumnRef>)

  datatype OrderBy = OrderBy(column: string, descending: bool)

  datatype Join = Join(table: string, left: ColumnRef, right: ColumnRef)

  // projections is None for SELECT *.
  datatype Select = Select(projections: Option<seq<Expr>>, table: string, join: Option<Join>, where: Option<Expr>,
                           groupBy: Option<string>, orderBy: Option<OrderBy>, limit: Option<nat>)

  datatype ColumnDef = ColumnDef(name: string, colType: string)

  datatype Statement =
    | CreateTable(table: string, columns: seq<ColumnDef>)
    | Insert(table: string, values: seq<Literal>)
    | Query(select: Select)

  const KEYWORDS := {
    "CREATE", "TABLE", "INSERT", "INTO", "VALUES", "SELECT", "FROM", "WHERE", "ORDER", "BY", "ASC", "DESC",
    "LIMIT", "AND", "OR", "NULL", "JOIN", "ON", "GROUP" }

  const COMPARISONS := { "=", "!=", "<", "<=", ">", ">=" }
  const COLUMN_TYPES := { "INT", "TEXT" }
  const FUNCTIONS := { "COUNT", "SUM", "MIN", "MAX", "AVG", "LENGTH" }

  predicate IsFunction(s: string) {
    s in FUNCTIONS
  }

  predicate IsColumnType(s: string) {
    s in COLUMN_TYPES
  }

  predicate IsKeyword(s: string) {
    s in KEYWORDS
  }

  predicate IsComparison(s: string) {
    s in COMPARISONS
  }

  predicate IsSpace(c: char) {
    c == ' ' || '\t' <= c <= '\r' || 0x1C <= c as int <= 0x1F
  }

  predicate IsDigit(c: char) {
    '0' <= c <= '9'
  }

  predicate IsAlpha(c: char) {
    'a' <= c <= 'z' || 'A' <= c <= 'Z'
  }

  predicate IsWordStart(c: char) {
    IsAlpha(c) || c == '_'
  }

  predicate IsWordChar(c: char) {
    IsWordStart(c) || IsDigit(c)
  }

  function UpperChar(c: char): (d: char)
    ensures IsWordChar(d) <==> IsWordChar(c)
  {
    if 'a' <= c <= 'z' then (c as int - 32) as char else c
  }

  function Upper(s: string): (r: string)
    ensures |r| == |s|
  {
    seq(|s|, i requires 0 <= i < |s| => UpperChar(s[i]))
  }

  // A word that the lexer reads as an identifier.
  predicate IsName(s: string) {
    s != "" && IsWordStart(s[0]) && (forall i :: 0 <= i < |s| ==> IsWordChar(s[i])) && !IsKeyword(Upper(s))
  }

  // ------------------------------------------------------------------
  // Decimal numbers
  // ------------------------------------------------------------------

  predicate AllDigits(s: string) {
    forall i :: 0 <= i < |s| ==> IsDigit(s[i])
  }

  function ShowNat(n: nat): (r: string)
    ensures r != "" && AllDigits(r)
  {
    var d := [('0' as int + n % 10) as char];
    if n < 10 then d else ShowNat(n / 10) + d
  }

  function ReadNat(s: string): nat
    requires AllDigits(s)
  {
    if s == "" then 0 else 10 * ReadNat(s[..|s| - 1]) + (s[|s| - 1] as int - '0' as int)
  }

  lemma {:induction false} ReadShowNat(n: nat)
    ensures ReadNat(ShowNat(n)) == n
  {
    var d := [('0' as int + n % 10) as char];
    if n < 10 {
      assert d[..0] == "";
    } else {
      ReadShowNat(n / 10);
      assert ShowNat(n)[..|ShowNat(n)| - 1] == ShowNat(n / 10);
    }
  }

  function ShowInt(n: int): string {
    if n < 0 then "-" + ShowNat(-n) else ShowNat(n)
  }

  predicate IsNumber(s: string) {
    s != "" && AllDigits(s[1..]) && (IsDigit(s[0]) || (s[0] == '-' && |s| > 1))
  }

  // Python's int of a token's text.
  function ReadInt(s: string): int
    requires IsNumber(s)
  {
    if s[0] == '-' then 0 - ReadNat(s[1..]) else ReadNat(s)
  }

  lemma ReadShowInt(n: int)
    ensures IsNumber(ShowInt(n)) && ReadInt(ShowInt(n)) == n
  {
    if n < 0 {
      ReadShowNat(-n);
      assert ShowInt(n)[1..] == ShowNat(-n);
    } else {
      ReadShowNat(n);
    }
  }
}
