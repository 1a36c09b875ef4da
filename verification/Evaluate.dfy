// Evaluating WHERE expressions against a row, and when coercing unknown to false
// inside AND and OR is exact.
module Evaluate {
  import opened Wrappers
  import opened SqlAst
  import opened TextOrder
  import Bytes
  import Utf8

  type Row = map<string, Value>

  // What evaluation yields: a column value, or the bool of a comparison or of an
  // AND or OR.
  datatype Result3 = Scalar(v: Value) | Truth(b: bool)

  function KeyOf(c: ColumnRef): string {
    match c.table
    case None => c.name
    case Some(t) => t + "." + c.name
  }

  function LiteralValue(l: Literal): Value {
    match l
    case IntLit(i) => IntValue(i)
    case StrLit(s) => TextValue(s)
    case NullLit => NullValue
  }

  // Python's truth of a value.
  function Truthy(x: Result3): bool {
    match x
    case Truth(b) => b
    case Scalar(IntValue(i)) => i != 0
    case Scalar(TextValue(s)) => s != ""
    case Scalar(NullValue) => false
  }

  // A value as Python compares it as a number: bools are 0 and 1.
  function NumberOf(x: Result3): Option<int> {
    match x
    case Truth(b) => Some(if b then 1 else 0)
    case Scalar(IntValue(i)) => Some(i)
    case _ => None
  }

  // Order of strings by code point: -1, 0 or 1.
  function CompareText(a: string, b: string): int {
    Bytes.LexCompare(Utf8.CodePoints(a), Utf8.CodePoints(b))
  }

  lemma CompareTextMeans(a: string, b: string)
    ensures CompareText(a, b) < 0 <==> TextLess(a, b)
    ensures CompareText(a, b) == 0 <==> a == b
    ensures CompareText(a, b) > 0 <==> TextLess(b, a)
  {
    CompareIsLess(a, b);
  }

  function Ordered(op: string, c: int): bool {
    if op == "=" then c == 0
    else if op == "!=" then c != 0
    else if op == "<" then c < 0
    else if op == "<=" then c <= 0
    else if op == ">" then c > 0
    else c >= 0
  }

  // A comparison: null when an operand is null; ordering a number against a string
  // is an error.
  function CompareValues(op: string, a: Result3, b: Result3): Result<Result3> {
    if a == Scalar(NullValue) || b == Scalar(NullValue) then Ok(Scalar(NullValue))
    else
      var m, n := NumberOf(a), NumberOf(b);
      if m.Some? && n.Some? then Ok(Truth(Ordered(op, m.value - n.value)))
      else if m.None? && n.None? then Ok(Truth(Ordered(op, CompareText(a.v.s, b.v.s))))
      else if op == "=" then Ok(Truth(false))
      else if op == "!=" then Ok(Truth(true))
      else Err(LogicalError)
  }

  function LengthOf(v: Value): Value {
    match v
    case NullValue => NullValue
    case TextValue(s) => IntValue(|s|)
    case IntValue(i) => IntValue(|ShowInt(i)|)
  }

  // Where a column reference finds its value.
  type Reader = ColumnRef -> Result<Value>

  function RowReader(row: Row): Reader {
    (c: ColumnRef) => if KeyOf(c) in row then Ok(row[KeyOf(c)]) else Err(LogicalError)
  }

  function EvalWith(e: Expr, read: Reader): Result<Result3> {
    match e
    case Lit(l) => Ok(Scalar(LiteralValue(l)))
    case Column(c) =>
      (match read(c)
       case Ok(v) => Ok(Scalar(v))
       case Err(x) => Err(x))
    case Func(name, arg) =>
      if name != "LENGTH" || arg.None? then Err(LogicalError)
      else
        (match read(arg.value)
         case Ok(v) => Ok(Scalar(LengthOf(v)))
         case Err(x) => Err(x))
    case Compare(op, l, r) =>
      (match EvalWith(l, read)
       case Err(x) => Err(x)
       case Ok(a) =>
         match EvalWith(r, read)
         case Err(x) => Err(x)
         case Ok(b) => CompareValues(op, a, b))
    case Logic(op, l, r) =>
      (match EvalWith(l, read)
       case Err(x) => Err(x)
       case Ok(a) =>
         if Truthy(a) == (op == Or) then Ok(Truth(op == Or))
         else
           match EvalWith(r, read)
           case Err(x) => Err(x)
           case Ok(b) => Ok(Truth(Truthy(b))))
  }

  function Eval(e: Expr, row: Row): Result<Result3> {
    EvalWith(e, RowReader(row))
  }

  // What Python calls false: false, null, 0 and the empty string.
  predicate Falsy(x: Result3) {
    x == Truth(false) || x == Scalar(NullValue) || x == Scalar(IntValue(0)) || x == Scalar(TextValue(""))
  }

  // AND and OR of any operands: the right one is evaluated only when the left one does not
  // decide, and an error in an evaluated one is the error of the whole.
  lemma LogicIs(op: BoolOp, l: Expr, r: Expr, read: Reader)
    ensures var a, b := EvalWith(l, read), EvalWith(r, read);
      EvalWith(Logic(op, l, r), read) ==
        if a.Err? then a
        else if op == And && Falsy(a.value) then Ok(Truth(false))
        else if op == Or && !Falsy(a.value) then Ok(Truth(true))
        else if b.Err? then b
        else Ok(Truth(!Falsy(b.value)))
  {
  }

  // Comparisons across types: truth values count as 1 and 0, a number and a text are
  // different, and ordering them is an error; with null any comparison is null.
  lemma MixedIs(op: string, i: int, s: string, b: bool, x: Result3)
    requires x != Scalar(NullValue)
    ensures CompareValues(op, x, Scalar(NullValue)) == CompareValues(op, Scalar(NullValue), x) == Ok(Scalar(NullValue))
    ensures var one := if b then Scalar(IntValue(1)) else Scalar(IntValue(0));
      && CompareValues(op, Truth(b), x) == CompareValues(op, one, x)
      && CompareValues(op, x, Truth(b)) == CompareValues(op, x, one)
    ensures CompareValues(op, Scalar(IntValue(i)), Scalar(TextValue(s)))
            == CompareValues(op, Scalar(TextValue(s)), Scalar(IntValue(i)))
            == if op == "=" then Ok(Truth(false)) else if op == "!=" then Ok(Truth(true)) else Err(LogicalError)
  {
    hide CompareText, Ordered;
  }

  // Whether a predicate is true, not just truthy.
  function MatchesWith(e: Expr, read: Reader): Result<bool> {
    match EvalWith(e, read)
    case Err(x) => Err(x)
    case Ok(v) => Ok(v == Truth(true))
  }

  // Whether a row passes a WHERE predicate.
  function Matches(e: Expr, row: Row): Result<bool> {
    MatchesWith(e, RowReader(row))
  }

  // The columns an expression reads.
  function Refs(e: Expr): set<ColumnRef> {
    match e
    case Lit(_) => {}
    case Column(c) => {c}
    case Func(_, arg) => if arg.Some? then {arg.value} else {}
    case Compare(_, l, r) => Refs(l) + Refs(r)
    case Logic(_, l, r) => Refs(l) + Refs(r)
  }

  // Readers that agree on an expression's columns evaluate it alike.
  lemma {:induction false} EvalAgrees(e: Expr, f: Reader, g: Reader)
    requires forall c :: c in Refs(e) ==> f(c) == g(c)
    ensures EvalWith(e, f) == EvalWith(e, g)
  {
    match e
    case Compare(_, l, r) =>
      EvalAgrees(l, f, g);
      EvalAgrees(r, f, g);
    case Logic(_, l, r) =>
      EvalAgrees(l, f, g);
      EvalAgrees(r, f, g);
    case _ =>
  }

  // ------------------------------------------------------------------
  // Three-valued logic, section 8.12 of ISO/IEC 9075:1992
  // ------------------------------------------------------------------

  datatype Logic3 = True | False | Unknown

  function And3(a: Logic3, b: Logic3): Logic3 {
    if a == False || b == False then False else if a == Unknown || b == Unknown then Unknown else True
  }

  function Or3(a: Logic3, b: Logic3): Logic3 {
    if a == True || b == True then True else if a == Unknown || b == Unknown then Unknown else False
  }

  // The types of operands; null has every type.
  datatype OperandType = Number | Text | Boolean | Null

  function TypeOfValue(v: Value): OperandType {
    match v
    case IntValue(_) => Number
    case TextValue(_) => Text
    case NullValue => Null
  }

  // The value of a column in a row, under its bare or qualified name.
  function ColumnIn(c: ColumnRef, row: Row): Option<Value> {
    var name := if c.table.Some? then c.table.value + "." + c.name else c.name;
    if name in row then Some(row[name]) else None
  }

  // The characters a number takes in decimal, with its sign.
  function DecimalLength(i: int): nat
    decreases if i < 0 then 1 else 0, i
  {
    if i < 0 then 1 + DecimalLength(-i) else if i < 10 then 1 else DecimalLength(i / 10) + 1
  }

  lemma {:induction false} ShownLength(n: nat)
    ensures |ShowNat(n)| == DecimalLength(n)
  {
    if n < 10 {
    } else {
      ShownLength(n / 10);
    }
  }

  // LENGTH is the number of characters of a text or of a number's decimal form, and null
  // for null.
  lemma LengthMeans(v: Value)
    ensures LengthOf(v) == match v
                           case NullValue => NullValue
                           case TextValue(s) => IntValue(|s|)
                           case IntValue(i) => IntValue(DecimalLength(i))
  {
    if v.IntValue? {
      ShownLength(if v.i < 0 then -v.i else v.i);
    }
  }

  // What AND and OR take: a truth value, or null for an unknown one.
  predicate IsTruth(t: Option<OperandType>) {
    t == Some(Boolean) || t == Some(Null)
  }

  // The type of an expression, if it has one: a scalar, a comparison of two
  // operands of one type, or AND or OR of truth values.
  function TypeOf(e: Expr, row: Row): Option<OperandType> {
    match e
    case Lit(l) => Some(match l case IntLit(_) => Number case StrLit(_) => Text case NullLit => Null)
    case Column(c) => if ColumnIn(c, row).Some? then Some(TypeOfValue(ColumnIn(c, row).value)) else None
    case Func(name, arg) =>
      if name == "LENGTH" && arg.Some? && ColumnIn(arg.value, row).Some?
      then Some(if ColumnIn(arg.value, row) == Some(NullValue) then Null else Number)
      else None
    case Compare(op, l, r) =>
      var t, u := TypeOf(l, row), TypeOf(r, row);
      if t.Some? && u.Some? && (t == u || t.value == Null || u.value == Null) then Some(Boolean) else None
    case Logic(_, l, r) => if IsTruth(TypeOf(l, row)) && IsTruth(TypeOf(r, row)) then Some(Boolean) else None
  }

  // A type-correct predicate.
  predicate WhereTree(e: Expr, row: Row) {
    IsTruth(TypeOf(e, row))
  }

  // a < b for two known values of one type: numbers by size, texts by code points, false
  // before true.
  ghost predicate Less(a: Result3, b: Result3) {
    || (a.Truth? && b.Truth? && !a.b && b.b)
    || (a.Scalar? && b.Scalar? && a.v.IntValue? && b.v.IntValue? && a.v.i < b.v.i)
    || (a.Scalar? && b.Scalar? && a.v.TextValue? && b.v.TextValue? && TextLess(a.v.s, b.v.s))
  }

  // The truth value the standard gives a comparison of values.
  ghost function Compare3(op: string, a: Option<Result3>, b: Option<Result3>): Logic3 {
    if a.None? || b.None? then Unknown
    else
      var x, y := a.value, b.value;
      var holds :=
        match op
        case "=" => x == y
        case "!=" => x != y
        case "<" => Less(x, y)
        case "<=" => Less(x, y) || x == y
        case ">" => Less(y, x)
        case _ => Less(y, x) || x == y;
      if holds then True else False
  }

  function Known(v: Value): Option<Result3> {
    if v.NullValue? then None else Some(Scalar(v))
  }

  function OfTruth(t: Logic3): Option<Result3> {
    match t
    case True => Some(Truth(true))
    case False => Some(Truth(false))
    case Unknown => None
  }

  function TruthOf(x: Option<Result3>): Logic3 {
    if x == Some(Truth(true)) then True else if x == Some(Truth(false)) then False else Unknown
  }

  // The value the standard gives an expression, None when it is null or unknown.
  ghost function Standard(e: Expr, row: Row): Option<Result3> {
    match e
    case Lit(IntLit(i)) => Some(Scalar(IntValue(i)))
    case Lit(StrLit(s)) => Some(Scalar(TextValue(s)))
    case Lit(NullLit) => None
    case Column(c) => if ColumnIn(c, row).Some? then Known(ColumnIn(c, row).value) else None
    case Func(_, arg) =>
      if arg.None? then None
      else
        (match ColumnIn(arg.value, row)
         case Some(TextValue(s)) => Some(Scalar(IntValue(|s|)))
         case Some(IntValue(i)) => Some(Scalar(IntValue(DecimalLength(i))))
         case _ => None)
    case Compare(op, l, r) => OfTruth(Compare3(op, Standard(l, row), Standard(r, row)))
    case Logic(op, l, r) =>
      var a, b := TruthOf(Standard(l, row)), TruthOf(Standard(r, row));
      OfTruth(if op == And then And3(a, b) else Or3(a, b))
  }

  // The truth value the standard gives a predicate.
  ghost function Meaning(e: Expr, row: Row): Logic3 {
    TruthOf(Standard(e, row))
  }

  // ------------------------------------------------------------------
  // When the simplification is exact
  // ------------------------------------------------------------------

  function Shown(x: Option<Result3>): Result3 {
    match x
    case Some(v) => v
    case None => Scalar(NullValue)
  }

  // An AND or OR whose meaning is unknown.
  ghost predicate UnknownLogic(e: Expr, row: Row) {
    e.Logic? && Meaning(e, row) == Unknown
  }

  // No comparison in e, at any depth, has an unknown AND or OR for an operand.
  ghost predicate OperandsKnown(e: Expr, row: Row) {
    match e
    case Compare(_, l, r) =>
      OperandsKnown(l, row) && OperandsKnown(r, row) && !UnknownLogic(l, row) && !UnknownLogic(r, row)
    case Logic(_, l, r) => OperandsKnown(l, row) && OperandsKnown(r, row)
    case _ => true
  }

  predicate HasType(x: Result3, t: OperandType) {
    match t
    case Number => x.Scalar? && x.v.IntValue?
    case Text => x.Scalar? && x.v.TextValue?
    case Boolean => x.Truth?
    case Null => false
  }

  // Values of one type compare as the standard says, with null for unknown.
  lemma CompareAgrees(op: string, a: Option<Result3>, b: Option<Result3>, t: OperandType, u: OperandType)
    requires (a.Some? ==> HasType(a.value, t)) && (b.Some? ==> HasType(b.value, u))
    requires t == u || t == Null || u == Null
    ensures CompareValues(op, Shown(a), Shown(b)) == Ok(Shown(OfTruth(Compare3(op, a, b))))
  {
    hide CompareText, TextLess;
    if a.Some? && b.Some? && a.value.Scalar? && b.value.Scalar? && a.value.v.TextValue? && b.value.v.TextValue? {
      CompareTextMeans(a.value.v.s, b.value.v.s);
    }
  }

  // What TypedEval says of an expression.
  ghost predicate Agrees(e: Expr, row: Row)
    requires TypeOf(e, row).Some?
  {
    && (Standard(e, row).Some? ==> HasType(Standard(e, row).value, TypeOf(e, row).value))
    && Eval(e, row) == Ok(if e.Logic? then Truth(Meaning(e, row) == True) else Shown(Standard(e, row)))
  }

  lemma ScalarAgrees(e: Expr, row: Row)
    requires TypeOf(e, row).Some? && !e.Compare? && !e.Logic?
    ensures Agrees(e, row)
  {
    if e.Func? {
      hide LengthOf;
      LengthMeans(row[KeyOf(e.arg.value)]);
    }
  }

  lemma ComparisonAgrees(e: Expr, row: Row)
    requires TypeOf(e, row).Some? && e.Compare? && TypeOf(e.left, row).Some? && TypeOf(e.right, row).Some?
    requires Agrees(e.left, row) && !UnknownLogic(e.left, row)
    requires Agrees(e.right, row) && !UnknownLogic(e.right, row)
    ensures Agrees(e, row)
  {
    var op, a, b := e.cmp, Standard(e.left, row), Standard(e.right, row);
    CompareAgrees(op, a, b, TypeOf(e.left, row).value, TypeOf(e.right, row).value);
    assert Eval(e, row) == CompareValues(op, Shown(a), Shown(b)) by {
      hide CompareValues, Compare3;
    }
    assert Standard(e, row) == OfTruth(Compare3(op, a, b));
  }

  lemma LogicAgrees(e: Expr, row: Row)
    requires TypeOf(e, row).Some? && e.Logic? && TypeOf(e.left, row).Some? && TypeOf(e.right, row).Some?
    requires Agrees(e.left, row) && Agrees(e.right, row)
    ensures Agrees(e, row)
  {
    hide CompareValues, Compare3, LengthOf, LiteralValue, TypeOfValue, Known, KeyOf;
  }

  // A typed expression evaluates without error to the value the standard gives it,
  // but for AND and OR, which give false for unknown.
  lemma {:induction false} TypedEval(e: Expr, row: Row)
    requires TypeOf(e, row).Some? && OperandsKnown(e, row)
    ensures Standard(e, row).Some? ==> HasType(Standard(e, row).value, TypeOf(e, row).value)
    ensures Eval(e, row) == Ok(if e.Logic? then Truth(Meaning(e, row) == True) else Shown(Standard(e, row)))
  {
    hide Standard, Eval, HasType, UnknownLogic;
    match e
    case Compare(_, l, r) =>
      TypedEval(l, row);
      TypedEval(r, row);
      ComparisonAgrees(e, row);
    case Logic(_, l, r) =>
      TypedEval(l, row);
      TypedEval(r, row);
      LogicAgrees(e, row);
    case _ =>
      ScalarAgrees(e, row);
  }

  // Where no comparison takes an unknown AND or OR, a row passes WHERE exactly when
  // three-valued logic gives true.
  lemma WhereIsThreeValued(e: Expr, row: Row)
    requires WhereTree(e, row) && OperandsKnown(e, row)
    ensures Matches(e, row) == Ok(Meaning(e, row) == True)
  {
    TypedEval(e, row);
  }

  // The value of an AND or OR is the standard's exactly when that is not unknown.
  lemma LogicExact(e: Expr, row: Row)
    requires WhereTree(e, row) && OperandsKnown(e, row) && e.Logic?
    ensures Eval(e, row) == Ok(Shown(Standard(e, row))) <==> Meaning(e, row) != Unknown
  {
    TypedEval(e, row);
  }

  // The value of a comparison is the standard's exactly when neither operand is an
  // unknown AND or OR, or the other one is null anyway.
  lemma ComparisonExact(e: Expr, row: Row)
    requires e.Compare? && TypeOf(e, row).Some? && OperandsKnown(e.left, row) && OperandsKnown(e.right, row)
    ensures Eval(e, row) == Ok(Shown(Standard(e, row)))
      <==> (&& (UnknownLogic(e.left, row) ==> !e.right.Logic? && Standard(e.right, row) == None)
            && (UnknownLogic(e.right, row) ==> !e.left.Logic? && Standard(e.left, row) == None))
  {
    TypedEval(e.left, row);
    TypedEval(e.right, row);
    if !UnknownLogic(e.left, row) && !UnknownLogic(e.right, row) {
      ComparisonAgrees(e, row);
    } else {
      hide Ordered, CompareText, LengthOf, LiteralValue, TypeOfValue, Known, OperandsKnown;
    }
  }

  // The condition is needed: an OR of unknowns, compared with a false comparison, is
  // unknown by the standard, yet the row passes.
  lemma LogicAsOperandDiffers(row: Row)
    ensures var unknown := Compare("=", Lit(NullLit), Lit(IntLit(1)));
      var no := Compare("=", Lit(IntLit(1)), Lit(IntLit(2)));
      var e := Compare("=", Logic(Or, unknown, unknown), no);
      && WhereTree(e, row) && Matches(e, row) == Ok(true)
      && UnknownLogic(e.left, row) && Meaning(e, row) == Unknown
  {
    var unknown := Compare("=", Lit(NullLit), Lit(IntLit(1)));
    var no := Compare("=", Lit(IntLit(1)), Lit(IntLit(2)));
    assert Eval(unknown, row) == Ok(Scalar(NullValue));
    assert Standard(Lit(NullLit), row) == None && Standard(unknown, row) == None;
    assert Eval(no, row) == Ok(Truth(false)) && Standard(no, row) == Some(Truth(false));
    assert Eval(Logic(Or, unknown, unknown), row) == Ok(Truth(false));
    assert Meaning(Logic(Or, unknown, unknown), row) == Unknown;
    assert TypeOf(unknown, row) == Some(Boolean) && TypeOf(no, row) == Some(Boolean);
  }
}
