/** The argv grammar of the machine-local launch command: quotes group literal text, a backslash
    escapes whitespace, quotes and backslashes, and unquoted shell operators are refused. */
module LaunchParser {

  import opened Wrappers
  import opened Text
  import opened LaunchCommand

  predicate IsQuote(c: char) { c == '\'' || c == '"' }

  const OPERATORS: set<char> := {';', '&', '|', '<', '>', '(', ')', '$', '`', '\r', '\n'}

  /** Does a backslash inside quotes `q` take `next` with it? */
  predicate EscapesInside(q: char, s: string) {
    |s| > 1 && s[0] == '\\' && (s[1] == q || s[1] == '\\')
  }

  /** Does a backslash outside quotes take the next character with it? */
  predicate EscapesOutside(s: string) {
    |s| > 1 && s[0] == '\\' && (IsSpace(s[1]) || IsQuote(s[1]) || s[1] == '\\')
  }

  function Flush(token: Option<string>): seq<string> {
    if token.Some? then [token.value] else []
  }

  function Begun(token: Option<string>): string {
    if token.Some? then token.value else ""
  }

  /** The tokens from here on: `token` is the one begun, `quote` the quote it stands in. Failure is an
      open quote at the end, or a shell operator outside quotes. */
  function Lex(s: string, token: Option<string>, quote: Option<char>): Option<seq<string>> {
    if s == [] then
      if quote.Some? then None else Some(Flush(token))
    else if quote.Some? then
      if s[0] == quote.value then Lex(s[1..], Some(Begun(token)), None)
      else if EscapesInside(quote.value, s) then Lex(s[2..], Some(Begun(token) + [s[1]]), quote)
      else Lex(s[1..], Some(Begun(token) + [s[0]]), quote)
    else if IsSpace(s[0]) then
      match Lex(s[1..], None, None)
      case Some(tokens) => Some(Flush(token) + tokens)
      case None => None
    else if IsQuote(s[0]) then Lex(s[1..], Some(Begun(token)), Some(s[0]))
    else if EscapesOutside(s) then Lex(s[2..], Some(Begun(token) + [s[1]]), None)
    else if s[0] != '\\' && s[0] in OPERATORS then None
    else Lex(s[1..], Some(Begun(token) + [s[0]]), None)
  }

  /** The first token names a program: it is there, not empty, and not an option. */
  predicate NamesProgram(tokens: seq<string>) {
    tokens != [] && tokens[0] != "" && tokens[0][0] != '-'
  }

  function Parse(source: string): Result<seq<string>, LaunchError> {
    match Lex(source, None, None)
    case Some(tokens) => if NamesProgram(tokens) then Ok(tokens) else Err(AgentUnavailable)
    case None => Err(AgentUnavailable)
  }

  /** Tokens already finished, followed by those still to come. */
  function Resume(tokens: seq<string>, rest: Option<seq<string>>): Option<seq<string>> {
    if rest.Some? then Some(tokens + rest.value) else None
  }

  /** The source's loop over the characters. */
  method ParseTrustedLaunchCommand(source: string) returns (r: Result<seq<string>, LaunchError>)
    ensures r == Parse(source)
  {
    var tokens: seq<string> := [];
    var token := "";
    var tokenStarted := false;
    var quote: Option<char> := None;
    var i := 0;
    assert source[0..] == source;
    ResumeEmpty(Lex(source, None, None));
    while i < |source|
      invariant i <= |source|
      invariant !tokenStarted ==> token == ""
      invariant quote.Some? ==> tokenStarted
      invariant Lex(source, None, None)
                == Resume(tokens, Lex(source[i..], if tokenStarted then Some(token) else None, quote))
    {
      var ch := source[i];
      ghost var s := source[i..];
      assert s[0] == ch && s[1..] == source[i + 1..];
      assert i + 1 < |source| ==> s[1] == source[i + 1] && s[2..] == source[i + 2..];
      if quote.Some? {
        if ch == quote.value {
          quote := None;
        } else if ch == '\\' && i + 1 < |source| && (source[i + 1] == quote.value || source[i + 1] == '\\') {
          token := token + [source[i + 1]];
          i := i + 1;
        } else {
          token := token + [ch];
        }
      } else if IsSpace(ch) {
        if tokenStarted {
          ResumeFlush(tokens, token, Lex(source[i + 1..], None, None));
          tokens := tokens + [token];
          token := "";
          tokenStarted := false;
        } else {
          ResumeNothing(tokens, Lex(source[i + 1..], None, None));
        }
      } else if ch == '\'' || ch == '"' {
        quote := Some(ch);
        tokenStarted := true;
      } else if ch == '\\' && i + 1 < |source|
                && (IsSpace(source[i + 1]) || source[i + 1] == '\'' || source[i + 1] == '"' || source[i + 1] == '\\') {
        token := token + [source[i + 1]];
        tokenStarted := true;
        i := i + 1;
      } else if ch != '\\' && ch in OPERATORS {
        return Err(AgentUnavailable);
      } else {
        token := token + [ch];
        tokenStarted := true;
      }
      i := i + 1;
    }
    assert source[i..] == [];
    if quote.Some? {
      return Err(AgentUnavailable);
    }
    if tokenStarted {
      tokens := tokens + [token];
    } else {
      assert tokens + [] == tokens;
    }
    if |tokens| == 0 || tokens[0] == "" || tokens[0][0] == '-' {
      return Err(AgentUnavailable);
    }
    r := Ok(tokens);
  }

  lemma ResumeEmpty(rest: Option<seq<string>>)
    ensures Resume([], rest) == rest
  {
    if rest.Some? { assert [] + rest.value == rest.value; }
  }

  lemma ResumeFlush(tokens: seq<string>, token: string, rest: Option<seq<string>>)
    ensures Resume(tokens, match rest case Some(r) => Some(Flush(Some(token)) + r) case None => None)
            == Resume(tokens + [token], rest)
  {
    if rest.Some? { assert tokens + ([token] + rest.value) == tokens + [token] + rest.value; }
  }

  lemma ResumeNothing(tokens: seq<string>, rest: Option<seq<string>>)
    ensures Resume(tokens, match rest case Some(r) => Some(Flush(None) + r) case None => None)
            == Resume(tokens, rest)
  {
    if rest.Some? { assert [] + rest.value == rest.value; }
  }

  // ---- the printer and the round trip -------------------------------------------------------

  function EscapedText(token: string): string {
    if token == [] then ""
    else (if token[0] == '\\' || token[0] == '\'' then ['\\', token[0]] else [token[0]]) + EscapedText(token[1..])
  }

  function PrintToken(token: string): string { "'" + EscapedText(token) + "'" }

  function PrintTokens(tokens: seq<string>): (r: seq<string>)
    ensures |r| == |tokens|
  {
    if tokens == [] then [] else [PrintToken(tokens[0])] + PrintTokens(tokens[1..])
  }

  function Print(tokens: seq<string>): string { JoinSpaced(PrintTokens(tokens)) }

  lemma {:induction false} LexEscaped(text: string, before: string, tail: string)
    ensures Lex(EscapedText(text) + "'" + tail, Some(before), Some('\''))
            == Lex(tail, Some(before + text), None)
  {
    var s := EscapedText(text) + "'" + tail;
    if text == [] {
      assert s[1..] == tail && before + text == before;
    } else {
      var more := EscapedText(text[1..]) + "'" + tail;
      LexEscaped(text[1..], before + [text[0]], tail);
      assert before + [text[0]] + text[1..] == before + text;
      if text[0] == '\\' || text[0] == '\'' {
        assert s == ['\\', text[0]] + more && s[2..] == more;
      } else {
        assert s == [text[0]] + more && s[1..] == more;
      }
    }
  }

  lemma LexPrinted(token: string, tail: string)
    ensures Lex(PrintToken(token) + tail, None, None) == Lex(tail, Some(token), None)
  {
    var s := PrintToken(token) + tail;
    assert s[1..] == EscapedText(token) + "'" + tail;
    LexEscaped(token, "", tail);
    assert "" + token == token;
  }

  /** A space ends the token begun; so does the end of the text. */
  lemma LexSpace(token: string, more: string, tokens: seq<string>)
    requires Lex(more, None, None) == Some(tokens)
    ensures Lex(" " + more, Some(token), None) == Some([token] + tokens)
    ensures Lex("", Some(token), None) == Some([token])
  {
    assert (" " + more)[1..] == more;
  }

  lemma {:induction false} LexPrint(tokens: seq<string>)
    ensures Lex(Print(tokens), None, None) == Some(tokens)
  {
    if tokens != [] {
      var more := Print(tokens[1..]);
      LexPrint(tokens[1..]);
      LexSpace(tokens[0], more, tokens[1..]);
      assert tokens == [tokens[0]] + tokens[1..];
      PrintFirst(tokens);
      if |tokens| == 1 {
        LexPrinted(tokens[0], "");
        assert tokens == [tokens[0]];
      } else {
        LexPrinted(tokens[0], " " + more);
      }
    }
  }

  lemma PrintFirst(tokens: seq<string>)
    requires tokens != []
    ensures Print(tokens) == PrintToken(tokens[0]) + (if |tokens| == 1 then "" else " " + Print(tokens[1..]))
  {
    assert PrintTokens(tokens)[1..] == PrintTokens(tokens[1..]);
  }

  /** Parsing what was printed gives the tokens back exactly when the first can name a program. */
  lemma PrintRoundTrip(tokens: seq<string>)
    ensures Parse(Print(tokens)) == Ok(tokens) <==> NamesProgram(tokens)
  {
    LexPrint(tokens);
  }

  /** Any accepted command can be rewritten in the printer's form without changing its tokens. */
  lemma Canonical(source: string)
    ensures Parse(source).Ok? ==> Parse(Print(Parse(source).value)) == Parse(source)
  {
    if Parse(source).Ok? { PrintRoundTrip(Parse(source).value); }
  }

  // ---- what is accepted ---------------------------------------------------------------------

  /** Do the quotes pair up, reading from inside `quote`? */
  predicate Balanced(s: string, quote: Option<char>) {
    if s == [] then quote.None?
    else if quote.Some? then
      if s[0] == quote.value then Balanced(s[1..], None)
      else if EscapesInside(quote.value, s) then Balanced(s[2..], quote)
      else Balanced(s[1..], quote)
    else if EscapesOutside(s) then Balanced(s[2..], None)
    else Balanced(s[1..], if IsQuote(s[0]) then Some(s[0]) else None)
  }

  /** The characters that stand outside quotes and are not escaped, in order. */
  function Bare(s: string, quote: Option<char>): string {
    if s == [] then ""
    else if quote.Some? then
      if s[0] == quote.value then Bare(s[1..], None)
      else if EscapesInside(quote.value, s) then Bare(s[2..], quote)
      else Bare(s[1..], quote)
    else if EscapesOutside(s) then Bare(s[2..], None)
    else if IsQuote(s[0]) then Bare(s[1..], Some(s[0]))
    else [s[0]] + Bare(s[1..], None)
  }

  /** An operator character that is not also whitespace; a line break separates tokens instead. */
  predicate NoOperator(bare: string) {
    forall i :: 0 <= i < |bare| ==>
      bare[i] !in {';', '&', '|', '<', '>', '(', ')', '$', '`', '\r', '\n'} || IsSpace(bare[i])
  }

  lemma {:induction false} LexAccepts(s: string, token: Option<string>, quote: Option<char>)
    ensures Lex(s, token, quote).Some? <==> Balanced(s, quote) && NoOperator(Bare(s, quote))
    decreases |s|
  {
    if s != [] {
      if quote.Some? {
        if s[0] == quote.value { LexAccepts(s[1..], Some(Begun(token)), None); }
        else if EscapesInside(quote.value, s) { LexAccepts(s[2..], Some(Begun(token) + [s[1]]), quote); }
        else { LexAccepts(s[1..], Some(Begun(token) + [s[0]]), quote); }
      } else if IsSpace(s[0]) {
        LexAccepts(s[1..], None, None);
        BareCons(s[0], Bare(s[1..], None));
      } else if IsQuote(s[0]) {
        LexAccepts(s[1..], Some(Begun(token)), Some(s[0]));
      } else if EscapesOutside(s) {
        LexAccepts(s[2..], Some(Begun(token) + [s[1]]), None);
      } else {
        BareCons(s[0], Bare(s[1..], None));
        if s[0] == '\\' || s[0] !in OPERATORS { LexAccepts(s[1..], Some(Begun(token) + [s[0]]), None); }
      }
    }
  }

  lemma BareCons(c: char, rest: string)
    ensures NoOperator([c] + rest) <==> (c !in OPERATORS || IsSpace(c)) && NoOperator(rest)
  {
    if NoOperator([c] + rest) {
      forall i | 0 <= i < |rest| ensures rest[i] !in OPERATORS || IsSpace(rest[i]) {
        assert ([c] + rest)[i + 1] == rest[i];
      }
      assert ([c] + rest)[0] == c;
    }
  }

  /** A command is accepted exactly when its quotes pair up, no shell operator stands outside them
      unescaped, and its first token names a program. */
  lemma AcceptedExactly(source: string)
    ensures Parse(source).Ok?
            <==> Balanced(source, None) && NoOperator(Bare(source, None))
                 && (Lex(source, None, None).Some? ==> NamesProgram(Lex(source, None, None).value))
  {
    LexAccepts(source, None, None);
  }

  // ---- what the tokens are ------------------------------------------------------------------

  /** One written unit of a command: whitespace between tokens, a character of a token as it may be
      written outside quotes or inside them, or a quote that opens or closes. */
  datatype Lexeme =
    | Gap(c: char)
    | Unquoted(c: char)
    | Escape(c: char)
    | Opens(q: char)
    | Closes(q: char)
    | Inside(c: char)
    | EscapeInside(c: char)

  function TextOf(x: Lexeme): string {
    match x
    case Gap(c) => [c]
    case Unquoted(c) => [c]
    case Escape(c) => ['\\', c]
    case Opens(q) => [q]
    case Closes(q) => [q]
    case Inside(c) => [c]
    case EscapeInside(c) => ['\\', c]
  }

  /** What the unit adds to its token. */
  function ValueOf(x: Lexeme): string {
    match x
    case Gap(_) => ""
    case Unquoted(c) => [c]
    case Escape(c) => [c]
    case Opens(_) => ""
    case Closes(_) => ""
    case Inside(c) => [c]
    case EscapeInside(c) => [c]
  }

  function Written(xs: seq<Lexeme>): string {
    if xs == [] then "" else TextOf(xs[0]) + Written(xs[1..])
  }

  /** May the unit stand here, inside `quote` or outside, with `rest` written after it? A backslash may
      stand for itself when it could not escape what follows. */
  predicate Fits(x: Lexeme, quote: Option<char>, rest: string) {
    match x
    case Gap(c) => quote.None? && IsSpace(c)
    case Unquoted(c) =>
      && quote.None? && !IsSpace(c) && !IsQuote(c) && (c == '\\' || c !in OPERATORS)
      && (c == '\\' && rest != "" ==> !IsSpace(rest[0]) && !IsQuote(rest[0]) && rest[0] != '\\')
    case Escape(c) => quote.None? && (IsSpace(c) || IsQuote(c) || c == '\\')
    case Opens(q) => quote.None? && IsQuote(q)
    case Closes(q) => quote == Some(q)
    case Inside(c) =>
      && quote.Some? && c != quote.value
      && (c == '\\' && rest != "" ==> rest[0] != quote.value && rest[0] != '\\')
    case EscapeInside(c) => quote.Some? && (c == quote.value || c == '\\')
  }

  function QuoteAfter(x: Lexeme, quote: Option<char>): Option<char> {
    if x.Opens? then Some(x.q) else if x.Closes? then None else quote
  }

  /** Units that may follow one another from here, every quote closed. */
  predicate WellWritten(xs: seq<Lexeme>, quote: Option<char>) {
    if xs == [] then quote.None?
    else Fits(xs[0], quote, Written(xs[1..])) && WellWritten(xs[1..], QuoteAfter(xs[0], quote))
  }

  /** How many units come before the first whitespace. */
  function WordLength(xs: seq<Lexeme>): (n: nat)
    ensures n <= |xs|
  {
    if xs == [] || xs[0].Gap? then 0 else 1 + WordLength(xs[1..])
  }

  function WordOf(xs: seq<Lexeme>): string {
    if xs == [] then "" else ValueOf(xs[0]) + WordOf(xs[1..])
  }

  /** The tokens: the stretches between whitespace, each the values of its units in order. */
  function Tokens(xs: seq<Lexeme>): seq<string>
    decreases |xs|
  {
    if xs == [] then []
    else if xs[0].Gap? then Tokens(xs[1..])
    else [WordOf(xs[..WordLength(xs)])] + Tokens(xs[WordLength(xs)..])
  }

  /** The tokens when one has begun already. */
  function TokensFrom(token: Option<string>, xs: seq<Lexeme>): seq<string> {
    if token.None? then Tokens(xs)
    else [token.value + WordOf(xs[..WordLength(xs)])] + Tokens(xs[WordLength(xs)..])
  }

  lemma TokensGap(token: Option<string>, xs: seq<Lexeme>)
    requires xs != [] && xs[0].Gap?
    ensures TokensFrom(token, xs) == Flush(token) + Tokens(xs[1..])
  {
    if token.Some? {
      assert xs[..0] == [] && xs[0..] == xs && token.value + "" == token.value;
    } else {
      assert [] + Tokens(xs[1..]) == Tokens(xs[1..]);
    }
  }

  lemma TokensUnit(token: Option<string>, xs: seq<Lexeme>)
    requires xs != [] && !xs[0].Gap?
    ensures TokensFrom(token, xs) == TokensFrom(Some(Begun(token) + ValueOf(xs[0])), xs[1..])
  {
    var n, v := WordLength(xs[1..]), ValueOf(xs[0]);
    assert xs[..n + 1][1..] == xs[1..][..n] && xs[n + 1..] == xs[1..][n..];
    var more := WordOf(xs[1..][..n]);
    assert WordOf(xs[..n + 1]) == v + more;
    assert Begun(token) + (v + more) == (Begun(token) + v) + more;
    if token.None? { assert "" + (v + more) == v + more; }
  }

  /** One unit moves the lexer on. */
  lemma LexUnit(x: Lexeme, rest: string, token: Option<string>, quote: Option<char>)
    requires Fits(x, quote, rest) && !x.Gap? && (quote.Some? ==> IsQuote(quote.value))
    ensures Lex(TextOf(x) + rest, token, quote)
         == Lex(rest, Some(Begun(token) + ValueOf(x)), QuoteAfter(x, quote))
  {
    var s := TextOf(x) + rest;
    assert Begun(token) + "" == Begun(token);
    if x.Escape? || x.EscapeInside? {
      assert s[2..] == rest;
    } else {
      assert s[1..] == rest;
      assert |s| > 1 ==> s[1] == rest[0];
    }
  }

  lemma LexGap(c: char, rest: string, token: Option<string>)
    requires IsSpace(c)
    ensures Lex([c] + rest, token, None)
         == match Lex(rest, None, None)
            case Some(tokens) => Some(Flush(token) + tokens)
            case None => None
  {
    assert ([c] + rest)[1..] == rest;
  }

  /** However the characters of the tokens are written, bare, escaped, in either kind of quotes or a
      mixture, and whatever whitespace stands between and around them, the tokens are read back. */
  lemma {:induction false} WrittenIsRead(xs: seq<Lexeme>, token: Option<string>, quote: Option<char>)
    requires WellWritten(xs, quote) && (quote.Some? ==> IsQuote(quote.value))
    ensures Lex(Written(xs), token, quote) == Some(TokensFrom(token, xs))
    decreases |xs|
  {
    if xs == [] {
      assert WordOf([]) == "" && xs[..0] == [] && xs[0..] == [];
      if token.Some? { assert token.value + "" == token.value && [token.value] + Tokens([]) == [token.value]; }
    } else if xs[0].Gap? {
      WrittenIsRead(xs[1..], None, None);
      LexGap(xs[0].c, Written(xs[1..]), token);
      TokensGap(token, xs);
    } else {
      var begun := Some(Begun(token) + ValueOf(xs[0]));
      WrittenIsRead(xs[1..], begun, QuoteAfter(xs[0], quote));
      LexUnit(xs[0], Written(xs[1..]), token, quote);
      TokensUnit(token, xs);
    }
  }

  /** The units an accepted text is written in. */
  lemma {:induction false} AcceptedIsWritten(s: string, token: Option<string>, quote: Option<char>)
    returns (xs: seq<Lexeme>)
    requires Lex(s, token, quote).Some?
    ensures Written(xs) == s && WellWritten(xs, quote)
    decreases |s|
  {
    if s == [] {
      xs := [];
    } else {
      var x := FirstUnit(s, quote);
      var n := |TextOf(x)|;
      UnitFits(s, token, quote);
      var rest;
      if x.Gap? {
        rest := AcceptedIsWritten(s[n..], None, None);
      } else {
        rest := AcceptedIsWritten(s[n..], Some(Begun(token) + ValueOf(x)), QuoteAfter(x, quote));
      }
      xs := [x] + rest;
      assert xs[1..] == rest;
    }
  }

  function FirstUnit(s: string, quote: Option<char>): Lexeme
    requires s != ""
  {
    if quote.Some? then
      if s[0] == quote.value then Closes(s[0])
      else if EscapesInside(quote.value, s) then EscapeInside(s[1])
      else Inside(s[0])
    else if IsSpace(s[0]) then Gap(s[0])
    else if IsQuote(s[0]) then Opens(s[0])
    else if EscapesOutside(s) then Escape(s[1])
    else Unquoted(s[0])
  }

  lemma UnitFits(s: string, token: Option<string>, quote: Option<char>)
    requires s != "" && Lex(s, token, quote).Some?
    ensures var x := FirstUnit(s, quote);
            var n := |TextOf(x)|;
            && n <= |s| && s == TextOf(x) + s[n..] && Fits(x, quote, s[n..])
            && (if x.Gap? then Lex(s[n..], None, None).Some?
                else Lex(s[n..], Some(Begun(token) + ValueOf(x)), QuoteAfter(x, quote)).Some?)
  {
    assert Begun(token) + "" == Begun(token);
    UnitText(s, quote);
    if |s| > 1 { assert s[1..][0] == s[1]; }
  }

  lemma UnitText(s: string, quote: Option<char>)
    requires s != ""
    ensures var n := |TextOf(FirstUnit(s, quote))|; n <= |s| && s == TextOf(FirstUnit(s, quote)) + s[n..]
  {
    var x := FirstUnit(s, quote);
    if x.Escape? || x.EscapeInside? {
      assert s == ['\\', s[1]] + s[2..];
    } else {
      assert s == [s[0]] + s[1..];
    }
  }

  /** A command is accepted with the given tokens exactly when some way of writing them gives it, and
      the first names a program. */
  lemma TokensExactly(source: string, tokens: seq<string>)
    ensures Parse(source) == Ok(tokens)
            <==> && tokens != [] && tokens[0] != "" && tokens[0][0] != '-'
                 && exists xs: seq<Lexeme> ::
                      WellWritten(xs, None) && Written(xs) == source && Tokens(xs) == tokens
  {
    if Lex(source, None, None).Some? {
      var xs := AcceptedIsWritten(source, None, None);
      WrittenIsRead(xs, None, None);
    }
    forall xs: seq<Lexeme> | WellWritten(xs, None) && Written(xs) == source
      ensures Lex(source, None, None) == Some(Tokens(xs))
    {
      WrittenIsRead(xs, None, None);
    }
  }
}
