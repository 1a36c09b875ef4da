// The vocabulary of the SQL subset and how its tokens are written, word by word and
// character by character.
module SqlWords {
  import opened SqlAst

  predicate Blank(c: char) {
    c as int == 32 || 9 <= c as int <= 13 || 28 <= c as int <= 31
  }

  predicate Figure(c: char) {
    '0' <= c <= '9'
  }

  predicate LetterOrBar(c: char) {
    'a' <= c <= 'z' || 'A' <= c <= 'Z' || c == '_'
  }

  // A character that may go on a word.
  predicate Wordly(c: char) {
    LetterOrBar(c) || Figure(c)
  }

  // The reserved words.
  predicate Reserved(w: string) {
    || w == "CREATE" || w == "TABLE" || w == "INSERT" || w == "INTO" || w == "VALUES" || w == "SELECT" || w == "FROM"
    || w == "WHERE" || w == "ORDER" || w == "BY" || w == "ASC" || w == "DESC" || w == "LIMIT" || w == "AND"
    || w == "OR" || w == "NULL" || w == "JOIN" || w == "ON" || w == "GROUP"
  }

  // w is the capital word u with each letter as it is or small.
  predicate AnyCase(w: string, u: string) {
    |w| == |u| && forall i :: 0 <= i < |w| ==>
      if 'a' <= w[i] <= 'z' then w[i] as int == u[i] as int + 32 else w[i] == u[i]
  }

  predicate FunctionName(s: string) {
    s == "COUNT" || s == "SUM" || s == "MIN" || s == "MAX" || s == "AVG" || s == "LENGTH"
  }

  predicate TypeName(s: string) {
    s == "INT" || s == "TEXT"
  }

  predicate ComparisonSign(s: string) {
    s == "=" || s == "!=" || s == "<" || s == "<=" || s == ">" || s == ">="
  }

  // The lexer's and the parser's sets hold these words and no others.
  lemma VocabularyIs(s: string)
    ensures IsKeyword(s) <==> Reserved(s)
    ensures IsFunction(s) <==> FunctionName(s)
    ensures IsColumnType(s) <==> TypeName(s)
    ensures IsComparison(s) <==> ComparisonSign(s)
  {
  }

  // Upper-casing finds the capital word.
  lemma UpperIsAnyCase(w: string, u: string)
    ensures AnyCase(w, u) <==> Upper(w) == u
  {
    if AnyCase(w, u) {
      forall i | 0 <= i < |w| ensures Upper(w)[i] == u[i] {
      }
    }
  }

  // ------------------------------------------------------------------
  // How tokens are written
  // ------------------------------------------------------------------

  predicate IsWord(w: string) {
    w != "" && !Figure(w[0]) && forall i :: 0 <= i < |w| ==> Wordly(w[i])
  }

  // w writes the token and the text behind it does not go on with it.
  ghost predicate Writes(t: Token, w: string, rest: string) {
    match t.kind
    case Keyword => Reserved(t.value) && AnyCase(w, t.value) && (rest != "" ==> !Wordly(rest[0]))
    case Ident =>
      && w == t.value && IsWord(w) && (forall u :: AnyCase(w, u) ==> !Reserved(u))
      && (rest != "" ==> !Wordly(rest[0]))
    case Int =>
      && w == t.value && w != "" && (Figure(w[0]) || (w[0] == '-' && |w| > 1))
      && (forall i :: 1 <= i < |w| ==> Figure(w[i])) && (rest == "" || !Figure(rest[0]))
    case Str => w == "'" + t.value + "'" && '\'' !in t.value
    case Op =>
      && w == t.value && ComparisonSign(w)
      && ((w == "<" || w == ">") && rest != "" ==> rest[0] != '=')
    case Punct => w == t.value && (w == "(" || w == ")" || w == "," || w == "." || w == ";")
    case Star => w == t.value == "*"
    case Bad => w == t.value && (Unclosed(w, rest) || (|w| == 1 && Stray(w[0], rest)))
    case Eof => false
  }

  // A string without its closing quote, up to the end.
  predicate Unclosed(w: string, rest: string) {
    w != "" && w[0] == '\'' && '\'' !in w[1..] && rest == ""
  }

  // A character that starts no token.
  predicate Stray(c: char, rest: string) {
    && !Blank(c) && !LetterOrBar(c) && !Figure(c) && c !in {'\'', '(', ')', ',', '.', ';', '*', '=', '<', '>'}
    && (c == '!' && rest != "" ==> rest[0] != '=') && (c == '-' && rest != "" ==> !Figure(rest[0]))
  }

  // The text is the tokens' texts in order, with any blanks between them.
  ghost predicate WrittenAs(text: string, ts: seq<Token>)
    decreases |text|
  {
    if text == "" then ts == []
    else if Blank(text[0]) then WrittenAs(text[1..], ts)
    else exists n :: Starts(text, ts, n)
  }

  // The first n characters are the first token.
  ghost predicate Starts(text: string, ts: seq<Token>, n: int)
    decreases |text|, 0
  {
    0 < n <= |text| && ts != [] && Writes(ts[0], text[..n], text[n..]) && WrittenAs(text[n..], ts[1..])
  }
}
