// The lexer: SQL text to tokens.
module SqlLexer {
  import opened Wrappers
  import opened SqlAst
  import opened SqlWords

  // ------------------------------------------------------------------
  // One token
  // ------------------------------------------------------------------

  // The end of the run of digits that starts at i.
  function DigitsEnd(s: string, i: nat): (n: nat)
    requires i <= |s|
    ensures i <= n <= |s|
    ensures AllDigits(s[i..n]) && (n < |s| ==> !IsDigit(s[n]))
    decreases |s| - i
  {
    if i < |s| && IsDigit(s[i]) then
      var n := DigitsEnd(s, i + 1);
      assert s[i..n] == [s[i]] + s[i + 1..n];
      n
    else i
  }

  function WordEnd(s: string, i: nat): (n: nat)
    requires i <= |s|
    ensures i <= n <= |s|
    ensures (forall k :: i <= k < n ==> IsWordChar(s[k])) && (n < |s| ==> !IsWordChar(s[n]))
    decreases |s| - i
  {
    if i < |s| && IsWordChar(s[i]) then WordEnd(s, i + 1) else i
  }

  // The next quote at or behind i, or the end.
  function QuoteEnd(s: string, i: nat): (n: nat)
    requires i <= |s|
    ensures i <= n <= |s|
    ensures (forall k :: i <= k < n ==> s[k] != '\'') && (n < |s| ==> s[n] == '\'')
    decreases |s| - i
  {
    if i < |s| && s[i] != '\'' then QuoteEnd(s, i + 1) else i
  }

  function WordToken(word: string): Token {
    if IsKeyword(Upper(word)) then Token(Keyword, Upper(word)) else Token(Ident, word)
  }

  // The longest operator s starts with.
  function OperatorAt(s: string): (r: string)
    ensures |r| <= |s| && (r == "" || IsComparison(r))
  {
    if "!=" <= s then "!="
    else if "<=" <= s then "<="
    else if ">=" <= s then ">="
    else if "=" <= s then "="
    else if "<" <= s then "<"
    else if ">" <= s then ">"
    else ""
  }

  // The first token of s, none for a blank, and how many characters it takes.
  function Next(s: string): (r: (Option<Token>, nat))
    requires s != ""
    ensures 0 < r.1 <= |s|
  {
    var c := s[0];
    if IsSpace(c) then (None, 1)
    else if c == '\'' then
      var n := QuoteEnd(s, 1);
      if n == |s| then (Some(Token(Bad, s)), n) else (Some(Token(Str, s[1..n])), n + 1)
    else if IsDigit(c) || (c == '-' && |s| > 1 && IsDigit(s[1])) then
      var n := DigitsEnd(s, 1);
      (Some(Token(Int, s[..n])), n)
    else if IsWordStart(c) then
      var n := WordEnd(s, 0);
      (Some(WordToken(s[..n])), n)
    else if c == '*' then (Some(Token(Star, "*")), 1)
    else if c in "(),.;" then (Some(Token(Punct, [c])), 1)
    else
      var op := OperatorAt(s);
      if op != "" then (Some(Token(Op, op)), |op|) else (Some(Token(Bad, [c])), 1)
  }

  // All tokens of s, the end marker last.
  function Lex(s: string): (r: seq<Token>)
    ensures r != [] && r[|r| - 1].kind == Eof
    decreases |s|
  {
    if s == "" then [Token(Eof, "")]
    else
      var (t, n) := Next(s);
      var rest := Lex(s[n..]);
      match t
      case Some(token) => [token] + rest
      case None => rest
  }

  // ------------------------------------------------------------------
  // The loops
  // ------------------------------------------------------------------

  method Tokenize(sql: string) returns (tokens: seq<Token>)
    ensures tokens == Lex(sql)
    ensures tokens != [] && tokens[|tokens| - 1] == Token(Eof, "") && WrittenAs(sql, tokens[..|tokens| - 1])
  {
    hide Lex, WrittenAs;
    tokens := [];
    var i, n := 0, |sql|;
    assert sql[0..] == sql;
    while i < n
      invariant 0 <= i <= n && Lex(sql) == tokens + Lex(sql[i..])
    {
      LexStep(sql, i, tokens);
      var c := sql[i];
      if IsSpace(c) {
        i := i + 1;
      } else {
        var tok: Token;
        if c == '\'' {
          tok, i := ReadString(sql, i);
        } else if IsDigit(c) || (c == '-' && i + 1 < n && IsDigit(sql[i + 1])) {
          tok, i := ReadNumber(sql, i);
        } else if IsWordStart(c) {
          tok, i := ReadWord(sql, i);
        } else {
          tok, i := ReadSymbol(sql, i);
        }
        tokens := tokens + [tok];
      }
    }
    LexEnd();
    assert sql[n..] == "";
    LexExact(sql, tokens);
    tokens := tokens + [Token(Eof, "")];
  }

  lemma LexStep(sql: string, i: nat, tokens: seq<Token>)
    requires i < |sql|
    ensures var (t, m) := Next(sql[i..]);
      && i + m <= |sql|
      && tokens + Lex(sql[i..]) == (if t.Some? then tokens + [t.value] else tokens) + Lex(sql[i + m..])
  {
    assert sql[i..][Next(sql[i..]).1..] == sql[i + Next(sql[i..]).1..];
  }

  lemma LexEnd()
    ensures Lex("") == [Token(Eof, "")]
  {
  }

  method ReadSymbol(sql: string, i: nat) returns (tok: Token, j: nat)
    requires i < |sql| && !IsSpace(sql[i]) && sql[i] != '\'' && !IsDigit(sql[i]) && !IsWordStart(sql[i])
    requires sql[i] != '-' || i + 1 == |sql| || !IsDigit(sql[i + 1])
    ensures i < j <= |sql| && (Some(tok), j - i) == Next(sql[i..])
    ensures Writes(tok, sql[i..j], sql[j..])
  {
    FirstWrites(sql, i);
    hide Writes;
    var c := sql[i];
    assert c == sql[i..][0] && (i + 1 < |sql| ==> sql[i..][1] == sql[i + 1]);
    if c == '*' {
      return Token(Star, "*"), i + 1;
    }
    if c in "(),.;" {
      return Token(Punct, [c]), i + 1;
    }
    var op := OperatorAt(sql[i..]);
    if op != "" {
      return Token(Op, op), i + |op|;
    }
    return Token(Bad, [c]), i + 1;
  }

  method ReadString(sql: string, start: nat) returns (tok: Token, i: nat)
    requires start < |sql| && sql[start] == '\''
    ensures start < i <= |sql| && (Some(tok), i - start) == Next(sql[start..])
    ensures Writes(tok, sql[start..i], sql[i..])
  {
    FirstWrites(sql, start);
    hide Writes;
    ghost var s := sql[start..];
    i := start + 1;
    while i < |sql| && sql[i] != '\''
      invariant start < i <= |sql| && QuoteEnd(s, 1) == QuoteEnd(s, i - start)
    {
      assert s[i - start] == sql[i];
      i := i + 1;
    }
    if i >= |sql| {
      return Token(Bad, sql[start..]), |sql|;
    }
    assert s[i - start] == sql[i] && s[1..i - start] == sql[start + 1..i];
    return Token(Str, sql[start + 1..i]), i + 1;
  }

  method ReadNumber(sql: string, start: nat) returns (tok: Token, i: nat)
    requires start < |sql|
    requires (IsDigit(sql[start]) || (sql[start] == '-' && start + 1 < |sql| && IsDigit(sql[start + 1])))
    ensures start < i <= |sql| && (Some(tok), i - start) == Next(sql[start..])
    ensures Writes(tok, sql[start..i], sql[i..])
  {
    FirstWrites(sql, start);
    hide Writes;
    ghost var s := sql[start..];
    i := start + 1;
    while i < |sql| && IsDigit(sql[i])
      invariant start < i <= |sql| && DigitsEnd(s, 1) == DigitsEnd(s, i - start)
    {
      assert s[i - start] == sql[i];
      i := i + 1;
    }
    assert i < |sql| ==> s[i - start] == sql[i];
    assert s[..i - start] == sql[start..i];
    tok := Token(Int, sql[start..i]);
  }

  method ReadWord(sql: string, start: nat) returns (tok: Token, i: nat)
    requires start < |sql| && IsWordStart(sql[start])
    ensures start < i <= |sql| && (Some(tok), i - start) == Next(sql[start..])
    ensures Writes(tok, sql[start..i], sql[i..])
  {
    FirstWrites(sql, start);
    hide Writes;
    ghost var s := sql[start..];
    i := start;
    while i < |sql| && IsWordChar(sql[i])
      invariant start <= i <= |sql| && WordEnd(s, 0) == WordEnd(s, i - start)
    {
      assert s[i - start] == sql[i];
      i := i + 1;
    }
    assert i < |sql| ==> s[i - start] == sql[i];
    assert s[..i - start] == sql[start..i];
    var word := sql[start..i];
    var upper := Upper(word);
    if IsKeyword(upper) {
      return Token(Keyword, upper), i;
    }
    return Token(Ident, word), i;
  }

  // ------------------------------------------------------------------
  // What the lexer makes of token texts
  // ------------------------------------------------------------------

  // Every token is what its kind promises.
  predicate Proper(t: Token) {
    match t.kind
    case Ident => IsName(t.value)
    case Int => IsNumber(t.value)
    case Str => '\'' !in t.value
    case Op => IsComparison(t.value)
    case Keyword => IsKeyword(t.value)
    case _ => true
  }

  lemma NextProper(s: string)
    requires s != ""
    ensures Next(s).0.Some? ==> Proper(Next(s).0.value)
  {
    var c := s[0];
    if !IsSpace(c) && c != '\'' && (IsDigit(c) || (c == '-' && |s| > 1 && IsDigit(s[1]))) {
      var n := DigitsEnd(s, 1);
      assert s[..n][1..] == s[1..n];
      if c == '-' {
        assert n > 1;
      }
    }
  }

  lemma {:induction false} LexProper(s: string)
    ensures forall i :: 0 <= i < |Lex(s)| ==> Proper(Lex(s)[i])
    decreases |s|
  {
    if s == "" {
    } else {
      NextProper(s);
      LexProper(s[Next(s).1..]);
    }
  }

  // The text a token stands for: itself, a quoted string, or a keyword in any case.
  predicate TextOf(t: Token, text: string) {
    match t.kind
    case Str => text == "'" + t.value + "'"
    case Keyword => Upper(text) == t.value
    case Eof => false
    case _ => text == t.value
  }

  // The text is exactly the texts of the tokens, in order, with blanks between.
  ghost predicate Spells(s: string, ts: seq<Token>)
    decreases |s|
  {
    if s == "" then ts == [Token(Eof, "")]
    else
      || (IsSpace(s[0]) && Spells(s[1..], ts))
      || (exists n :: 0 < n <= |s| && ts != [] && TextOf(ts[0], s[..n]) && Spells(s[n..], ts[1..]))
  }

  lemma NextText(s: string)
    requires s != ""
    ensures var (t, n) := Next(s); if t.Some? then TextOf(t.value, s[..n]) else IsSpace(s[0]) && n == 1
  {
    var (t, n) := Next(s);
    if t.Some? && t.value.kind == Str {
      assert s[..n] == [s[0]] + s[1..n - 1] + [s[n - 1]];
    }
  }

  // Nothing is lost and nothing made up: the tokens spell the text.
  lemma {:induction false} LexSpells(s: string)
    ensures Spells(s, Lex(s))
    decreases |s|
  {
    if s == "" {
    } else {
      var (t, n) := Next(s);
      NextText(s);
      LexSpells(s[n..]);
      if t.Some? {
        assert Lex(s)[1..] == Lex(s[n..]);
      }
    }
  }

  // A text that ends a word or a number.
  predicate Breaks(rest: string) {
    rest == "" || rest[0] in " ()."
  }

  lemma LexFirst(text: string, rest: string, t: Token)
    requires text != "" && Next(text + rest) == (Some(t), |text|)
    ensures Lex(text + rest) == [t] + Lex(rest)
  {
    assert (text + rest)[|text|..] == rest;
  }

  lemma LexSpace(rest: string)
    ensures Lex(" " + rest) == Lex(rest)
  {
    assert (" " + rest)[1..] == rest;
  }

  lemma {:induction false} WordRun(w: string, rest: string, i: nat)
    requires i <= |w| && (forall k :: i <= k < |w| ==> IsWordChar(w[k])) && (rest == "" || !IsWordChar(rest[0]))
    ensures WordEnd(w + rest, i) == |w|
    decreases |w| - i
  {
    if i == |w| {
    } else {
      WordRun(w, rest, i + 1);
    }
  }

  lemma LexWord(w: string, rest: string)
    requires w != "" && IsWordStart(w[0]) && (forall k :: 0 <= k < |w| ==> IsWordChar(w[k])) && Breaks(rest)
    ensures Lex(w + rest) == [WordToken(w)] + Lex(rest)
  {
    WordRun(w, rest, 0);
    assert (w + rest)[..|w|] == w;
    LexFirst(w, rest, WordToken(w));
  }

  lemma {:induction false} DigitRun(w: string, rest: string, i: nat)
    requires i <= |w| && (forall k :: i <= k < |w| ==> IsDigit(w[k])) && (rest == "" || !IsDigit(rest[0]))
    ensures DigitsEnd(w + rest, i) == |w|
    decreases |w| - i
  {
    if i == |w| {
    } else {
      DigitRun(w, rest, i + 1);
    }
  }

  lemma LexNumber(w: string, rest: string)
    requires IsNumber(w) && Breaks(rest)
    ensures Lex(w + rest) == [Token(Int, w)] + Lex(rest)
  {
    assert forall k :: 1 <= k < |w| ==> w[k] == w[1..][k - 1];
    DigitRun(w, rest, 1);
    assert (w + rest)[..|w|] == w;
    LexFirst(w, rest, Token(Int, w));
  }

  lemma {:induction false} QuoteRun(w: string, rest: string, i: nat)
    requires i <= |w| && (forall k :: i <= k < |w| ==> w[k] != '\'')
    ensures QuoteEnd(w + "'" + rest, i) == |w|
    decreases |w| - i
  {
    if i == |w| {
    } else {
      QuoteRun(w, rest, i + 1);
    }
  }

  lemma LexString(w: string, rest: string)
    requires '\'' !in w
    ensures Lex("'" + w + "'" + rest) == [Token(Str, w)] + Lex(rest)
  {
    var text := "'" + w + "'";
    assert forall k :: 1 <= k < |"'" + w| ==> ("'" + w)[k] == w[k - 1];
    QuoteRun("'" + w, rest, 1);
    assert text + rest == ("'" + w) + "'" + rest;
    assert (text + rest)[1..|w| + 1] == w;
    LexFirst(text, rest, Token(Str, w));
  }

  lemma LexPunct(c: char, rest: string)
    requires c in "(),.;"
    ensures Lex([c] + rest) == [Token(Punct, [c])] + Lex(rest)
  {
    LexFirst([c], rest, Token(Punct, [c]));
  }

  lemma LexStar(rest: string)
    ensures Lex("*" + rest) == [Token(Star, "*")] + Lex(rest)
  {
    LexFirst("*", rest, Token(Star, "*"));
  }

  lemma LexOperator(op: string, rest: string)
    requires IsComparison(op)
    ensures Lex(op + (" " + rest)) == [Token(Op, op)] + Lex(rest)
  {
    var s := op + (" " + rest);
    assert |s| > |op| && s[|op|] == ' ' && s[0] == op[0];
    assert OperatorAt(s) == op;
    LexFirst(op, " " + rest, Token(Op, op));
    LexSpace(rest);
  }

  // ------------------------------------------------------------------
  // The lexer reads what is written
  // ------------------------------------------------------------------

  // A word of letters, figures and bars, read as a keyword or a name.
  lemma WordWritten(w: string)
    requires IsWord(w)
    ensures WordToken(w).kind == Keyword ==> Reserved(WordToken(w).value) && AnyCase(w, WordToken(w).value)
    ensures WordToken(w).kind != Keyword ==>
      WordToken(w) == Token(Ident, w) && forall u :: AnyCase(w, u) ==> !Reserved(u)
  {
    UpperIsAnyCase(w, Upper(w));
    VocabularyIs(Upper(w));
    forall u | AnyCase(w, u) ensures u == Upper(w) {
      UpperIsAnyCase(w, u);
    }
  }

  lemma AnyCaseIsWord(w: string, u: string)
    requires Reserved(u) && AnyCase(w, u)
    ensures IsWord(w)
  {
    forall i | 0 <= i < |w| ensures LetterOrBar(w[i]) {
      assert 'A' <= u[i] <= 'Z';
    }
  }

  lemma NextWord(text: string, n: nat)
    requires 0 < n <= |text| && IsWord(text[..n]) && (n < |text| ==> !Wordly(text[n]))
    ensures Next(text) == (Some(WordToken(text[..n])), n)
  {
    hide Upper, IsKeyword;
    var w, rest := text[..n], text[n..];
    assert text == w + rest && text[0] == w[0];
    WordRun(w, rest, 0);
  }

  lemma NextNumber(text: string, n: nat)
    requires 0 < n <= |text| && (Figure(text[0]) || (text[0] == '-' && n > 1))
    requires (forall i :: 1 <= i < n ==> Figure(text[i])) && (n == |text| || !Figure(text[n]))
    ensures Next(text) == (Some(Token(Int, text[..n])), n)
  {
    var w, rest := text[..n], text[n..];
    assert text == w + rest;
    DigitRun(w, rest, 1);
  }

  lemma NextString(text: string, n: nat)
    requires 1 < n <= |text| && text[0] == '\'' == text[n - 1] && '\'' !in text[1..n - 1]
    ensures Next(text) == (Some(Token(Str, text[1..n - 1])), n)
  {
    var w, rest := text[..n - 1], text[n..];
    assert text == w + "'" + rest;
    forall k | 1 <= k < |w| ensures w[k] != '\'' {
      assert text[1..n - 1][k - 1] == w[k];
    }
    QuoteRun(w, rest, 1);
  }

  lemma Quoted(text: string, n: nat, v: string)
    requires 0 < n <= |text| && text[..n] == "'" + v + "'"
    ensures n > 1 && text[0] == '\'' == text[n - 1] && text[1..n - 1] == v
  {
    var w := text[..n];
    assert |w| == |v| + 2 && w[0] == '\'' == w[n - 1];
    assert text[1..n - 1] == w[1..n - 1] == v;
  }

  lemma {:induction false} NoQuote(text: string, i: nat)
    requires i <= |text| && '\'' !in text[i..]
    ensures QuoteEnd(text, i) == |text|
    decreases |text| - i
  {
    if i == |text| {
    } else {
      assert text[i..][0] == text[i] && text[i + 1..] == text[i..][1..];
      NoQuote(text, i + 1);
    }
  }

  lemma PunctIs(c: char)
    ensures c in "(),.;" <==> c == '(' || c == ')' || c == ',' || c == '.' || c == ';'
  {
    var all := "(),.;";
    assert all[0] == '(' && all[1] == ')' && all[2] == ',' && all[3] == '.' && all[4] == ';';
  }

  // The longest operator a text starts with, by its first two characters.
  lemma OperatorBy(text: string)
    requires text != ""
    ensures var c, more := text[0], |text| > 1 && text[1] == '=';
      OperatorAt(text) == if c == '!' then (if more then "!=" else "")
                          else if c == '<' then (if more then "<=" else "<")
                          else if c == '>' then (if more then ">=" else ">")
                          else if c == '=' then "=" else ""
  {
    assert text[..1] == [text[0]];
    if |text| > 1 {
      assert text[..2] == [text[0], text[1]];
    }
  }

  lemma NextOperator(text: string, n: nat, t: Token)
    requires 0 < n <= |text| && t.kind == Op && Writes(t, text[..n], text[n..])
    ensures Next(text) == (Some(t), n)
  {
    hide OperatorAt;
    var w, rest := text[..n], text[n..];
    assert text[0] == w[0] && (n > 1 ==> text[1] == w[1]) && (rest != "" ==> text[n] == rest[0]);
    OperatorBy(text);
  }

  lemma NextPunct(text: string, n: nat, t: Token)
    requires 0 < n <= |text| && Writes(t, text[..n], text[n..]) && t.kind in {Punct, Star}
    ensures Next(text) == (Some(t), n)
  {
    hide OperatorAt;
    var w := text[..n];
    assert w == [text[0]];
    PunctIs(text[0]);
  }

  lemma NextStray(text: string)
    requires text != "" && Stray(text[0], text[1..])
    ensures Next(text) == (Some(Token(Bad, [text[0]])), 1)
  {
    hide OperatorAt;
    assert |text| > 1 ==> text[1..][0] == text[1];
    PunctIs(text[0]);
    OperatorBy(text);
  }

  lemma NextBad(text: string, n: nat, t: Token)
    requires 0 < n <= |text| && Writes(t, text[..n], text[n..]) && t.kind == Bad
    ensures Next(text) == (Some(t), n)
  {
    hide Next, Stray;
    var w, rest := text[..n], text[n..];
    assert text == w + rest && text[0] == w[0] && t == Token(Bad, w);
    if Unclosed(w, rest) {
      assert rest == "" && text == w;
      NextUnclosed(text);
    } else {
      assert |w| == 1 && Stray(w[0], rest);
      assert w == [text[0]] && rest == text[1..];
      NextStray(text);
    }
  }

  lemma NextUnclosed(text: string)
    requires Unclosed(text, "")
    ensures Next(text) == (Some(Token(Bad, text)), |text|)
  {
    NoQuote(text, 1);
  }

  // What is written is what the lexer reads first.
  lemma NextIsWritten(text: string, n: nat, t: Token)
    requires 0 < n <= |text| && Writes(t, text[..n], text[n..])
    ensures Next(text) == (Some(t), n)
  {
    hide Next, WordToken, IsKeyword;
    var w, rest := text[..n], text[n..];
    match t.kind
    case Keyword =>
      AnyCaseIsWord(w, t.value);
      WordWritten(w);
      NextWord(text, n);
      UpperIsAnyCase(w, t.value);
      UpperIsAnyCase(w, WordToken(w).value);
    case Ident =>
      WordWritten(w);
      NextWord(text, n);
    case Int => NextNumber(text, n);
    case Str =>
      Quoted(text, n, t.value);
      NextString(text, n);
    case Op => NextOperator(text, n, t);
    case Bad => NextBad(text, n, t);
    case _ => NextPunct(text, n, t);
  }

  // What the lexer reads first is written there.
  lemma NextWrites(text: string)
    requires text != "" && Next(text).0.Some?
    ensures var (t, n) := Next(text); Writes(t.value, text[..n], text[n..])
  {
    hide Next, Writes;
    var c := text[0];
    if c == '\'' {
      QuotedWrites(text);
    } else if IsDigit(c) || (c == '-' && |text| > 1 && IsDigit(text[1])) {
      NumberWrites(text);
    } else if IsWordStart(c) {
      WordWrites(text);
    } else {
      SignWrites(text);
    }
  }

  lemma QuotedWrites(text: string)
    requires text != "" && text[0] == '\''
    ensures var (t, n) := Next(text); t.Some? && Writes(t.value, text[..n], text[n..])
  {
    var n := QuoteEnd(text, 1);
    if n == |text| {
      assert text[..n] == text && text[n..] == "";
    } else {
      assert text[..n + 1] == "'" + text[1..n] + "'";
    }
  }

  lemma NumberWrites(text: string)
    requires text != "" && (IsDigit(text[0]) || (text[0] == '-' && |text| > 1 && IsDigit(text[1])))
    ensures var (t, n) := Next(text); t.Some? && Writes(t.value, text[..n], text[n..])
  {
    var n := DigitsEnd(text, 1);
    var w := text[..n];
    forall i | 1 <= i < |w| ensures Figure(w[i]) {
      assert text[1..n][i - 1] == w[i];
    }
  }

  lemma WordWrites(text: string)
    requires text != "" && IsWordStart(text[0])
    ensures var (t, n) := Next(text); t.Some? && Writes(t.value, text[..n], text[n..])
  {
    hide WordToken;
    WordWritten(text[..WordEnd(text, 0)]);
  }

  lemma SignWrites(text: string)
    requires text != "" && !IsDigit(text[0]) && !IsWordStart(text[0]) && text[0] != '\'' && Next(text).0.Some?
    requires text[0] == '-' && |text| > 1 ==> !IsDigit(text[1])
    ensures var (t, n) := Next(text); Writes(t.value, text[..n], text[n..])
  {
    hide OperatorAt;
    var n := Next(text).1;
    assert text[..1] == [text[0]] && (|text| > 1 ==> text[1..][0] == text[1]);
    PunctIs(text[0]);
    OperatorBy(text);
    if n == 2 {
      assert text[..2] == [text[0], text[1]];
    }
  }

  // The same anywhere in a text.
  lemma FirstWrites(sql: string, i: nat)
    requires i < |sql|
    ensures var (t, m) := Next(sql[i..]);
      i + m <= |sql| && (t.Some? ==> Writes(t.value, sql[i..i + m], sql[i + m..]))
  {
    hide Next, Writes;
    var m := Next(sql[i..]).1;
    assert sql[i..][..m] == sql[i..i + m] && sql[i..][m..] == sql[i + m..];
    if Next(sql[i..]).0.Some? {
      NextWrites(sql[i..]);
    }
  }

  // The main result about the lexer: a text is read as some tokens exactly when it is
  // written as them. Words are the nineteen, in any letter case, and names are all others.
  lemma {:induction false} LexExact(text: string, ts: seq<Token>)
    ensures WrittenAs(text, ts) <==> Lex(text) == ts + [Token(Eof, "")]
    decreases |text|
  {
    hide Next, Writes;
    if text == "" {
      assert ts == [] <==> ts + [Token(Eof, "")] == [Token(Eof, "")];
    } else {
      SpaceIsBlank(text);
      var (t, n) := Next(text);
      if t.None? {
        LexExact(text[1..], ts);
      } else {
        NextWrites(text);
        LexExact(text[n..], if ts == [] then [] else ts[1..]);
        FirstAndRest(t.value, Lex(text[n..]), ts);
        if k :| Starts(text, ts, k) {
          NextIsWritten(text, k, ts[0]);
        }
        if ts != [] && ts[0] == t.value && Lex(text[n..]) == ts[1..] + [Token(Eof, "")] {
          assert Starts(text, ts, n);
        }
      }
    }
  }

  lemma SpaceIsBlank(text: string)
    requires text != ""
    ensures Blank(text[0]) <==> Next(text).0.None?
    ensures Next(text).0.None? ==> Next(text).1 == 1
  {
  }

  lemma FirstAndRest(t: Token, more: seq<Token>, ts: seq<Token>)
    requires more != []
    ensures [t] + more == ts + [Token(Eof, "")]
      <==> ts != [] && ts[0] == t && more == ts[1..] + [Token(Eof, "")]
  {
    if ts != [] {
      assert ts + [Token(Eof, "")] == [ts[0]] + (ts[1..] + [Token(Eof, "")]);
      if [t] + more == ts + [Token(Eof, "")] {
        assert ([t] + more)[0] == t && ([t] + more)[1..] == more;
      }
    } else {
      assert |[t] + more| == 1 + |more| > |ts + [Token(Eof, "")]|;
    }
  }
}
