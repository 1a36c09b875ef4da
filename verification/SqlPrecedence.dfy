// Precedence: expressions written with no more parentheses than needed parse back.
// OR binds weakest, then AND, then comparisons; AND and OR associate to the left.
module SqlPrecedence {
  import opened Wrappers
  import opened SqlAst
  import opened SqlParser
  import opened SqlPrinter

  const OR_LEVEL := 0
  const AND_LEVEL := 1
  const COMPARISON_LEVEL := 2
  const PRIMARY_LEVEL := 3

  predicate IsCompound(e: Expr) {
    e.Compare? || e.Logic?
  }

  // How tightly an expression's operator binds.
  function LevelOf(e: Expr): nat {
    match e
    case Logic(op, _, _) => if op == Or then OR_LEVEL else AND_LEVEL
    case Compare(_, _, _) => COMPARISON_LEVEL
    case _ => PRIMARY_LEVEL
  }

  function Sign(e: Expr): Token
    requires IsCompound(e)
  {
    match e
    case Compare(op, _, _) => Token(Op, op)
    case Logic(op, _, _) => Token(Keyword, ShowOp(op))
  }

  // The levels the operands of an operator may have without parentheses.
  function LeftLevel(e: Expr): nat {
    if e.Compare? then PRIMARY_LEVEL else LevelOf(e)
  }

  function RightLevel(e: Expr): nat {
    if LevelOf(e) < PRIMARY_LEVEL then LevelOf(e) + 1 else PRIMARY_LEVEL
  }

  // An expression's tokens where an expression of the given level is wanted:
  // parentheses only around weaker operators.
  function Minimal(e: Expr, level: nat): (r: seq<Token>)
    ensures r != []
    decreases e, 1
  {
    if !IsCompound(e) then Tokens(e)
    else if level <= LevelOf(e) then Own(e)
    else [OPEN] + Own(e) + [CLOSE]
  }

  function Own(e: Expr): (r: seq<Token>)
    requires IsCompound(e)
    ensures r != []
    decreases e, 0
  {
    Minimal(e.left, LeftLevel(e)) + [Sign(e)] + Minimal(e.right, RightLevel(e))
  }

  // How deep those parentheses nest.
  function Depth(e: Expr, level: nat): nat {
    if !IsCompound(e) then 0
    else
      var own := Max(Depth(e.left, LeftLevel(e)), Depth(e.right, RightLevel(e)));
      if level <= LevelOf(e) then own else own + 1
  }

  // The tokens at c and on are those of e at a level, within the caps, and what
  // follows does not continue it.
  ghost predicate Written(ts: seq<Token>, c: Cursor, e: Expr, level: nat) {
    && InRange(ts, c) && ProperExpr(e) && level <= PRIMARY_LEVEL
    && c.depth + Depth(e, level) <= MAX_EXPR_DEPTH && c.terms + Terms(e) <= MAX_EXPR_TERMS
    && c.i + |Minimal(e, level)| < |ts| && ts[c.i..c.i + |Minimal(e, level)|] == Minimal(e, level)
    && var next := ts[c.i + |Minimal(e, level)|];
      && Ends(next) && (level <= COMPARISON_LEVEL ==> next.kind != Op)
      && (level == OR_LEVEL ==> next != Token(Keyword, "AND"))
  }

  function After(c: Cursor, e: Expr, level: nat): Cursor {
    Cursor(c.i + |Minimal(e, level)|, c.depth, c.terms + Terms(e))
  }

  // What the grammar's function for a level makes of it: the expression, or for
  // the two loops the loop with the expression as its left operand so far.
  ghost predicate Parses(ts: seq<Token>, c: Cursor, e: Expr, level: nat)
    requires InRange(ts, c) && InRange(ts, After(c, e, level))
  {
    var d := After(c, e, level);
    if level == OR_LEVEL then ParseOr(ts, c) == OrRest(ts, e, d)
    else if level == AND_LEVEL then ParseAnd(ts, c) == AndRest(ts, e, d)
    else if level == COMPARISON_LEVEL then ParseComparison(ts, c) == Ok((e, d))
    else ParsePrimary(ts, c) == Ok((e, d))
  }

  // Where no operator of the level itself is involved, the next level decides.
  lemma LevelUp(ts: seq<Token>, c: Cursor, e: Expr, level: nat)
    requires level < PRIMARY_LEVEL && LevelOf(e) != level
    requires Written(ts, c, e, level)
    ensures Written(ts, c, e, level + 1) && After(c, e, level + 1) == After(c, e, level)
  {
    hide ProperExpr, Tokens, Own, Terms;
  }

  lemma StepDown(ts: seq<Token>, c: Cursor, e: Expr, level: nat)
    requires level < PRIMARY_LEVEL && Written(ts, c, e, level)
    requires InRange(ts, c) && After(c, e, level + 1) == After(c, e, level) && InRange(ts, After(c, e, level))
    requires Parses(ts, c, e, level + 1)
    ensures Parses(ts, c, e, level)
  {
    hide Minimal, ProperExpr, Depth, Terms, ParsePrimary;
  }

  // Order of the proof: towards the level of e, once through parentheses.
  function Rank(e: Expr, level: nat): int {
    if level > LevelOf(e) then 10 - level else LevelOf(e) - level
  }

  // Every expression, written with minimal parentheses where a level is wanted, is
  // what the grammar reads there.
  lemma {:induction false} MinimalParses(ts: seq<Token>, c: Cursor, e: Expr, level: nat)
    requires Written(ts, c, e, level)
    ensures InRange(ts, After(c, e, level)) && Parses(ts, c, e, level)
    decreases e, Rank(e, level)
  {
    hide ParsePrimary, ParseComparison, ParseAnd, AndRest, ParseOr, OrRest;
    hide ProperExpr, Tokens, Own, Minimal, Depth, Terms, Parses, Written;
    InRangeAfter(ts, c, e, level);
    if level < PRIMARY_LEVEL && LevelOf(e) != level {
      LevelUp(ts, c, e, level);
      MinimalParses(ts, c, e, level + 1);
      StepDown(ts, c, e, level);
    } else if level == PRIMARY_LEVEL && IsCompound(e) {
      InParens(ts, c, e);
      MinimalParses(ts, LeftAt(c), e, OR_LEVEL);
      Unwrap(ts, c, e);
    } else if IsCompound(e) {
      OperandsWritten(ts, c, e);
      MinimalParses(ts, c, e.left, LeftLevel(e));
      MinimalParses(ts, RightStart(c, e), e.right, RightLevel(e));
      OwnParses(ts, c, e);
    } else {
      LeafParses(ts, c, e);
    }
  }

  lemma InRangeAfter(ts: seq<Token>, c: Cursor, e: Expr, level: nat)
    requires Written(ts, c, e, level)
    ensures InRange(ts, c) && level <= PRIMARY_LEVEL && InRange(ts, After(c, e, level))
  {
  }

  lemma LeafParses(ts: seq<Token>, c: Cursor, e: Expr)
    requires !IsCompound(e) && Written(ts, c, e, PRIMARY_LEVEL)
    ensures InRange(ts, c) && InRange(ts, After(c, e, PRIMARY_LEVEL)) && Parses(ts, c, e, PRIMARY_LEVEL)
  {
    hide ParsePrimary, Tokens, ProperExpr;
    PrimaryUndoesShow(ts, c, e);
  }

  // Behind the opening parenthesis the expression stands at the weakest level.
  lemma InParens(ts: seq<Token>, c: Cursor, e: Expr)
    requires IsCompound(e) && Written(ts, c, e, PRIMARY_LEVEL)
    ensures ts[c.i] == OPEN && c.depth < MAX_EXPR_DEPTH
    ensures Written(ts, LeftAt(c), e, OR_LEVEL)
    ensures var d := After(LeftAt(c), e, OR_LEVEL);
      InRange(ts, d) && ts[d.i] == CLOSE && After(c, e, PRIMARY_LEVEL) == Step(d).(depth := c.depth)
  {
    hide ProperExpr, Terms, Own;
    var own := Own(e);
    var all := [OPEN] + own + [CLOSE];
    assert |all| == |own| + 2;
    SqlPrinter.At(ts, c.i, all, 0);
    SqlPrinter.At(ts, c.i, all, |own| + 1);
    forall k | 0 <= k < |own| ensures ts[c.i + 1 + k] == own[k] {
      SqlPrinter.At(ts, c.i, all, 1 + k);
    }
  }

  lemma Unwrap(ts: seq<Token>, c: Cursor, e: Expr)
    requires InRange(ts, c) && ts[c.i] == OPEN && c.depth < MAX_EXPR_DEPTH && InRange(ts, LeftAt(c)) && IsCompound(e)
    requires var d := After(LeftAt(c), e, OR_LEVEL);
      && InRange(ts, d) && ts[d.i] == CLOSE && After(c, e, PRIMARY_LEVEL) == Step(d).(depth := c.depth)
      && InRange(ts, After(c, e, PRIMARY_LEVEL)) && Parses(ts, LeftAt(c), e, OR_LEVEL)
    ensures Parses(ts, c, e, PRIMARY_LEVEL)
  {
    hide ParsePrimary, ParseOr, ParseAnd, Minimal, Terms;
    var d := After(LeftAt(c), e, OR_LEVEL);
    assert OrRest(ts, e, d) == Ok((e, d));
    ParenDone(ts, c, e, d);
  }

  // Where the right operand starts.
  function RightStart(c: Cursor, e: Expr): Cursor
    requires IsCompound(e)
  {
    Cursor(c.i + |Minimal(e.left, LeftLevel(e))| + 1, c.depth, c.terms + Terms(e.left) + if e.Logic? then 1 else 0)
  }

  lemma Between(ts: seq<Token>, i: nat, ls: seq<Token>, t: Token, rs: seq<Token>)
    requires i + |ls| + 1 + |rs| <= |ts| && ts[i..i + |ls| + 1 + |rs|] == ls + [t] + rs
    ensures ts[i..i + |ls|] == ls && ts[i + |ls|] == t && ts[i + |ls| + 1..i + |ls| + 1 + |rs|] == rs
  {
    var all := ls + [t] + rs;
    SqlPrinter.At(ts, i, all, |ls|);
    forall k | 0 <= k < |ls| ensures ts[i + k] == ls[k] {
      SqlPrinter.At(ts, i, all, k);
    }
    forall k | 0 <= k < |rs| ensures ts[i + |ls| + 1 + k] == rs[k] {
      SqlPrinter.At(ts, i, all, |ls| + 1 + k);
    }
  }

  lemma OwnIs(e: Expr)
    requires IsCompound(e)
    ensures Minimal(e, LevelOf(e)) == Minimal(e.left, LeftLevel(e)) + [Sign(e)] + Minimal(e.right, RightLevel(e))
    ensures |Minimal(e, LevelOf(e))| == |Minimal(e.left, LeftLevel(e))| + 1 + |Minimal(e.right, RightLevel(e))|
    ensures Terms(e) == Terms(e.left) + Terms(e.right) + if e.Logic? then 1 else 0
    ensures Depth(e.left, LeftLevel(e)) <= Depth(e, LevelOf(e)) && Depth(e.right, RightLevel(e)) <= Depth(e, LevelOf(e))
  {
  }

  lemma OperandsProper(e: Expr)
    requires IsCompound(e) && ProperExpr(e)
    ensures ProperExpr(e.left) && ProperExpr(e.right)
  {
    hide IsName, IsComparison;
  }

  lemma OperandsWritten(ts: seq<Token>, c: Cursor, e: Expr)
    requires IsCompound(e) && Written(ts, c, e, LevelOf(e))
    ensures Written(ts, c, e.left, LeftLevel(e)) && Written(ts, RightStart(c, e), e.right, RightLevel(e))
    ensures ts[RightStart(c, e).i - 1] == Sign(e)
    ensures After(RightStart(c, e), e.right, RightLevel(e)) == After(c, e, LevelOf(e))
  {
    hide ProperExpr, Minimal, Terms, Depth, Sign, Ends;
    var ls, rs := Minimal(e.left, LeftLevel(e)), Minimal(e.right, RightLevel(e));
    OwnIs(e);
    OperandsProper(e);
    Between(ts, c.i, ls, Sign(e), rs);
    SignEnds(e);
  }

  lemma SignEnds(e: Expr)
    requires IsCompound(e) && ProperExpr(e)
    ensures Ends(Sign(e)) && (e.Logic? ==> Sign(e).kind != Op)
    ensures (LevelOf(e) == OR_LEVEL ==> Sign(e) != Token(Keyword, "AND"))
  {
  }

  // Two operands and the operator between them.
  lemma OwnParses(ts: seq<Token>, c: Cursor, e: Expr)
    requires IsCompound(e) && Written(ts, c, e, LevelOf(e))
    requires var left, right := After(c, e.left, LeftLevel(e)), RightStart(c, e);
      && InRange(ts, c) && InRange(ts, left) && InRange(ts, right) && InRange(ts, After(right, e.right, RightLevel(e)))
      && ts[right.i - 1] == Sign(e) && After(right, e.right, RightLevel(e)) == After(c, e, LevelOf(e))
      && Parses(ts, c, e.left, LeftLevel(e)) && Parses(ts, right, e.right, RightLevel(e))
    ensures InRange(ts, After(c, e, LevelOf(e))) && Parses(ts, c, e, LevelOf(e))
  {
    hide ParsePrimary, Minimal, Depth;
  }

  // The main result: with minimal parentheses, within the caps, an expression
  // parses back from its tokens, so it groups as the levels say.
  lemma MinimalComesBack(e: Expr)
    requires ProperExpr(e) && Depth(e, OR_LEVEL) <= MAX_EXPR_DEPTH && Terms(e) <= MAX_EXPR_TERMS
    ensures var ts, c := Minimal(e, OR_LEVEL) + [Token(Eof, "")], Cursor(0, 0, 0);
      InRange(ts, c) && ParseOr(ts, c) == Ok((e, After(c, e, OR_LEVEL)))
  {
    hide ParseOr, ParseAnd, AndRest, Minimal, ProperExpr, Depth, Terms;
    var m, c := Minimal(e, OR_LEVEL), Cursor(0, 0, 0);
    var ts := m + [Token(Eof, "")];
    assert ts[0..|m|] == m && ts[|m|] == Token(Eof, "");
    assert Written(ts, c, e, OR_LEVEL);
    MinimalParses(ts, c, e, OR_LEVEL);
    assert OrRest(ts, e, After(c, e, OR_LEVEL)) == Ok((e, After(c, e, OR_LEVEL)));
  }
}
