/** What the CSS rewriting does to a style, said of the text itself: strings, urls, comments and
    parentheses as they are written, where a style is cut, and what a marker looks like. */
module StyleTexts {

  import opened Css
  import opened CssScan
  import opened Text

  // ---- strings, urls, comments, parentheses -------------------------------------------------

  /** Text that may stand between quotes `q`: every such quote and every backslash has a backslash in
      front of it. */
  predicate StringBody(q: Quote, s: string) {
    if s == "" then true
    else if s[0] == '\\' then |s| >= 2 && StringBody(q, s[2..])
    else s[0] != q && StringBody(q, s[1..])
  }

  lemma {:induction false} StringBodyRuns(q: Quote, d: nat, body: string)
    requires StringBody(q, body)
    ensures Solid(Str(q), d, body) && RunState(Str(q), body) == Str(q) && RunDepth(Str(q), d, body) == d
    decreases |body|
  {
    if body != "" {
      if body[0] == '\\' {
        assert body[1..][1..] == body[2..];
        StringBodyRuns(q, d, body[2..]);
        assert Solid(StrEsc(q), d, body[1..]);
      } else {
        StringBodyRuns(q, d, body[1..]);
      }
    }
  }

  lemma StringRuns(st: State, q: Quote, d: nat, body: string)
    requires Open(st) && StringBody(q, body)
    ensures Solid(st, d, [q] + body) && RunState(st, [q] + body) == Str(q) && RunDepth(st, d, [q] + body) == d
    ensures var t := [q] + body + [q]; Solid(st, d, t) && RunState(st, t) == Sep && RunDepth(st, d, t) == d
  {
    StringBodyRuns(q, d, body);
    assert ([q] + body)[1..] == body;
    Last(Str(q), d, [q]);
    SolidFollows(st, d, [q] + body, [q]);
  }

  /** A string is copied and kept in one piece, with whatever semicolons, parentheses and comment marks
      it holds; the reading goes on outside it, at the same depth. */
  lemma StringWhole(st: State, q: Quote, d: nat, body: string, rest: string)
    requires Open(st) && StringBody(q, body)
    ensures var t := [q] + body + [q];
            && Strip(st, t + rest) == t + Strip(Sep, rest)
            && Split(st, d, t + rest) == Glue(t, Split(Sep, d, rest))
  {
    var t := [q] + body + [q];
    StringRuns(st, q, d, body);
    SolidCopied(st, d, t, rest);
    SolidUnsplit(st, d, t, rest);
  }

  /** A string that never closes is kept whole, to the end. */
  lemma StringUnclosed(st: State, q: Quote, d: nat, body: string)
    requires Open(st) && StringBody(q, body)
    ensures Strip(st, [q] + body) == [q] + body && Split(st, d, [q] + body) == [[q] + body]
  {
    var t := [q] + body;
    StringRuns(st, q, d, body);
    SolidUnsplit(st, d, t, "");
    assert t + "" == t;
    NoCommentSolid(st, d, t);
    StripFixed(st, t);
  }

  lemma {:induction false} NoCommentSolid(st: State, d: nat, s: string)
    requires Solid(st, d, s)
    ensures NoComment(st, s)
    decreases |s|
  {
    if s != "" { NoCommentSolid(Next(st, s[0]), Nest(st, d, s[0]), s[1..]); }
  }

  /** Text that may stand in an unquoted url: every closing paren and every backslash has a backslash in
      front of it. */
  predicate UrlBodyText(s: string) {
    if s == "" then true
    else if s[0] == '\\' then |s| >= 2 && UrlBodyText(s[2..])
    else s[0] != ')' && UrlBodyText(s[1..])
  }

  /** No quote comes first, whitespace aside. */
  predicate Unquoted(s: string) { TrimStart(s) == "" || !IsQuote(TrimStart(s)[0]) }

  lemma {:induction false} UrlBodyRuns(st: State, d: nat, body: string)
    requires (st.Gap? && Unquoted(body)) || st.Url?
    requires UrlBodyText(body)
    ensures Solid(st, d, body) && RunDepth(st, d, body) == d
    ensures RunState(st, body).Gap? || RunState(st, body).Url?
    decreases |body|
  {
    if body != "" {
      if body[0] == '\\' {
        assert body[1..][1..] == body[2..];
        UrlBodyRuns(Url, d, body[2..]);
        assert Solid(UrlEsc, d, body[1..]);
      } else {
        UrlBodyRuns(Next(st, body[0]), d, body[1..]);
      }
    }
  }

  lemma UrlRuns(open: string, d: nat, body: string)
    requires |open| == 4 && UrlNameAt(open, 0) && UrlBodyText(body) && Unquoted(body)
    ensures Solid(Sep, d, open + body)
    ensures var t := open + body + ")"; Solid(Sep, d, t) && RunState(Sep, t) == Sep && RunDepth(Sep, d, t) == d
  {
    UrlOpening(d, open);
    UrlBodyRuns(Gap, d + 1, body);
    SolidFollows(Sep, d, open, body);
    Last(RunState(Gap, body), d + 1, ")");
    SolidFollows(Sep, d, open + body, ")");
  }

  /** An unquoted url, in any letter case, is copied and kept in one piece, with whatever semicolons,
      quotes, parens and comment marks it holds. */
  lemma UrlKeptWhole(open: string, d: nat, body: string, rest: string)
    requires |open| == 4 && UrlNameAt(open, 0) && UrlBodyText(body) && Unquoted(body)
    ensures var t := open + body + ")";
            && Strip(Sep, t + rest) == t + Strip(Sep, rest)
            && Split(Sep, d, t + rest) == Glue(t, Split(Sep, d, rest))
  {
    var t := open + body + ")";
    UrlRuns(open, d, body);
    SolidCopied(Sep, d, t, rest);
    SolidUnsplit(Sep, d, t, rest);
  }

  predicate NameChar(c: char) { 'a' <= c <= 'z' || 'A' <= c <= 'Z' || '0' <= c <= '9' || c == '_' || c == '-' }

  /** A longer name that ends in `url` opens an ordinary parenthesis; after anything else, an unquoted url
      may begin. */
  lemma LongerNameIsNoUrl(c: char, open: string, d: nat)
    requires |open| == 4 && UrlNameAt(open, 0)
    ensures NameChar(c) && c != 'u' && c != 'U' ==>
              RunState(Sep, [c] + open) == Sep && RunDepth(Sep, d, [c] + open) == d + 1
    ensures !NameChar(c) && !IsQuote(c) ==> Next(Sep, c) == Sep
  {
    var s := [c] + open;
    assert s[1..] == open && open[1..][1..] == open[2..] && open[2..][1..] == open[3..] && open[3..][1..] == "";
    assert RunState(Sep, "") == Sep && RunDepth(Sep, d + 1, "") == d + 1;
    if NameChar(c) && c != 'u' && c != 'U' {
      assert Next(Sep, c) == Ident && Nest(Sep, d, c) == d;
      assert RunState(Ident, open[3..]) == Sep && RunDepth(Ident, d, open[3..]) == d + 1;
      assert RunState(Ident, open[2..]) == Sep && RunDepth(Ident, d, open[2..]) == d + 1;
      assert RunState(Ident, open[1..]) == Sep && RunDepth(Ident, d, open[1..]) == d + 1;
    }
  }

  lemma {:induction false} GapRuns(d: nat, gap: string)
    requires AllSpace(gap)
    ensures Solid(Gap, d, gap) && RunState(Gap, gap) == Gap && RunDepth(Gap, d, gap) == d
  {
    if gap != "" { GapRuns(d, gap[1..]); }
  }

  lemma QuotedUrlRuns(open: string, gap: string, q: Quote, d: nat, body: string)
    requires |open| == 4 && UrlNameAt(open, 0) && AllSpace(gap) && StringBody(q, body)
    ensures var t := open + gap + ([q] + body + [q]);
            Solid(Sep, d, t) && RunState(Sep, t) == Sep && RunDepth(Sep, d, t) == d + 1
  {
    var quoted := [q] + body + [q];
    UrlOpening(d, open);
    GapRuns(d + 1, gap);
    SolidFollows(Sep, d, open, gap);
    StringBodyRuns(q, d + 1, body);
    assert ([q] + body)[1..] == body;
    Last(Str(q), d + 1, [q]);
    SolidFollows(Gap, d + 1, [q] + body, [q]);
    SolidFollows(Sep, d, open + gap, quoted);
  }

  /** A quoted url is a string in parentheses: closing parens, semicolons and comment marks inside the
      quotes are text, and the first paren after them closes. */
  lemma QuotedUrlWhole(open: string, gap: string, q: Quote, d: nat, body: string, rest: string)
    requires |open| == 4 && UrlNameAt(open, 0) && AllSpace(gap) && StringBody(q, body)
    ensures var t := open + gap + ([q] + body + [q]) + ")";
            && Strip(Sep, t + rest) == t + Strip(Sep, rest)
            && Split(Sep, d, t + rest) == Glue(t, Split(Sep, d, rest))
  {
    var inner := open + gap + ([q] + body + [q]);
    QuotedUrlRuns(open, gap, q, d, body);
    Last(Sep, d + 1, ")");
    SolidFollows(Sep, d, inner, ")");
    SolidCopied(Sep, d, inner + ")", rest);
    SolidUnsplit(Sep, d, inner + ")", rest);
  }

  /** A comment close stands nowhere in the text. */
  predicate NoClose(s: string) { forall i :: 0 <= i < |s| - 1 ==> !(s[i] == '*' && s[i + 1] == '/') }

  lemma {:induction false} CloseFound(text: string, rest: string)
    requires NoClose(text)
    ensures AfterComment(text + "*/" + rest) == rest
  {
    var s := text + "*/" + rest;
    if text == "" {
      assert s[2..] == rest;
    } else {
      assert s[1..] == text[1..] + "*/" + rest;
      assert |text| > 1 ==> s[1] == text[1];
      assert forall i :: 0 <= i < |text[1..]| ==> text[1..][i] == text[i + 1];
      CloseFound(text[1..], rest);
    }
  }

  lemma {:induction false} NoCloseFound(text: string)
    requires NoClose(text)
    ensures AfterComment(text) == ""
  {
    if |text| >= 2 {
      assert forall i :: 0 <= i < |text[1..]| ==> text[1..][i] == text[i + 1];
      NoCloseFound(text[1..]);
    }
  }

  /** Outside strings and urls a comment becomes one space, up to its first close; one that never closes
      takes the rest with it. */
  lemma CommentGone(st: State, text: string, rest: string)
    requires Open(st) && NoClose(text)
    ensures Strip(st, "/*" + (text + "*/" + rest)) == " " + Strip(Sep, rest)
    ensures Strip(st, "/*" + text) == " "
  {
    CloseFound(text, rest);
    NoCloseFound(text);
    assert ("/*" + (text + "*/" + rest))[2..] == text + "*/" + rest;
    assert ("/*" + text)[2..] == text;
    assert " " + Strip(Sep, "") == " ";
  }

  /** A character that starts nothing: no quote, paren, semicolon or slash. */
  predicate Ordinary(c: char) { !IsQuote(c) && c !in {'(', ')', ';', '/'} }

  lemma {:induction false} OrdinaryRuns(st: State, d: nat, a: string)
    requires Open(st) && forall i :: 0 <= i < |a| ==> Ordinary(a[i]) || (d > 0 && a[i] == ';')
    ensures Solid(st, d, a) && Open(RunState(st, a)) && RunDepth(st, d, a) == d
    decreases |a|
  {
    if a != "" { OrdinaryRuns(Next(st, a[0]), d, a[1..]); }
  }

  /** Ordinary text is copied and never cut. */
  lemma OrdinaryWhole(st: State, d: nat, a: string, rest: string)
    requires Open(st) && forall i :: 0 <= i < |a| ==> Ordinary(a[i])
    ensures Strip(st, a + rest) == a + Strip(RunState(st, a), rest)
    ensures Split(st, d, a + rest) == Glue(a, Split(RunState(st, a), d, rest))
    ensures Open(RunState(st, a))
  {
    OrdinaryRuns(st, d, a);
    SolidCopied(st, d, a, rest);
    SolidUnsplit(st, d, a, rest);
  }

  /** A slash that no star follows is kept. */
  lemma SlashKept(st: State, d: nat, rest: string)
    requires Open(st) && (rest != "" ==> rest[0] != '*')
    ensures Strip(st, "/" + rest) == "/" + Strip(Sep, rest)
    ensures Split(st, d, "/" + rest) == Glue("/", Split(Sep, d, rest))
  {
    assert ("/" + rest)[1..] == rest;
  }

  lemma ParensRuns(st: State, d: nat, inner: string)
    requires Open(st) && !st.URL? && forall i :: 0 <= i < |inner| ==> Ordinary(inner[i]) || inner[i] == ';'
    ensures var t := "(" + inner + ")"; Solid(st, d, t) && RunState(st, t) == Sep && RunDepth(st, d, t) == d
  {
    var begun := "(" + inner;
    Last(st, d, "(");
    OrdinaryRuns(Sep, d + 1, inner);
    SolidFollows(st, d, "(", inner);
    Last(RunState(st, begun), d + 1, ")");
    SolidFollows(st, d, begun, ")");
  }

  /** Text in parentheses is copied and kept in one piece, its semicolons included. */
  lemma ParensWhole(st: State, d: nat, inner: string, rest: string)
    requires Open(st) && !st.URL? && forall i :: 0 <= i < |inner| ==> Ordinary(inner[i]) || inner[i] == ';'
    ensures var t := "(" + inner + ")";
            && Strip(st, t + rest) == t + Strip(Sep, rest)
            && Split(st, d, t + rest) == Glue(t, Split(Sep, d, rest))
  {
    var t := "(" + inner + ")";
    ParensRuns(st, d, inner);
    SolidCopied(st, d, t, rest);
    SolidUnsplit(st, d, t, rest);
  }

  // ---- where a style is cut -----------------------------------------------------------------

  /** Joining the pieces of any text with semicolons gives the text back: only semicolons are cut out. */
  lemma {:induction false} SplitJoined(st: State, d: nat, s: string)
    ensures JoinSemi(Split(st, d, s)) == s
    decreases |s|
  {
    if s != "" {
      assert s == [s[0]] + s[1..];
      if SplitsAt(st, d, s[0]) {
        SplitJoined(Sep, 0, s[1..]);
        JoinEmptyFirst(Split(Sep, 0, s[1..]));
      } else {
        var ps := Split(Next(st, s[0]), Nest(st, d, s[0]), s[1..]);
        SplitJoined(Next(st, s[0]), Nest(st, d, s[0]), s[1..]);
        JoinGlued(s[0], ps);
      }
    }
  }

  lemma JoinEmptyFirst(ps: seq<string>)
    requires ps != []
    ensures JoinSemi([""] + ps) == ";" + JoinSemi(ps)
  {
    assert ([""] + ps)[1..] == ps;
    assert "" + ";" == ";";
  }

  lemma JoinGlued(c: char, ps: seq<string>)
    requires ps != []
    ensures JoinSemi(Glue([c], ps)) == [c] + JoinSemi(ps)
  {
    assert Glue([c], ps)[1..] == ps[1..];
    if |ps| > 1 {
      assert ([c] + ps[0]) + ";" + JoinSemi(ps[1..]) == [c] + (ps[0] + ";" + JoinSemi(ps[1..]));
    }
  }

  /** The character at `i` is a semicolon outside strings, unquoted urls and parentheses. */
  predicate OutsideSemicolon(st: State, d: nat, s: string, i: nat) {
    i < |s| && s[i] == ';' && Open(RunState(st, s[..i])) && RunDepth(st, d, s[..i]) == 0
  }

  /** The pieces, joined with semicolons, have one of them at `i`. */
  predicate CutAt(ps: seq<string>, i: nat) {
    |ps| > 1 && (i == |ps[0]| || (i > |ps[0]| && CutAt(ps[1..], i - |ps[0]| - 1)))
  }

  /** A style is cut exactly at its semicolons outside strings, unquoted urls and parentheses. */
  lemma {:induction false} CutsExactly(st: State, d: nat, s: string, i: nat)
    requires i < |s|
    ensures CutAt(Split(st, d, s), i) <==> OutsideSemicolon(st, d, s, i)
    decreases |s|
  {
    if i > 0 { assert s[..i][1..] == s[1..][..i - 1] && s[..i][0] == s[0]; }
    if SplitsAt(st, d, s[0]) {
      var ps := Split(Sep, 0, s[1..]);
      assert ([""] + ps)[1..] == ps;
      if i > 0 { CutsExactly(Sep, 0, s[1..], i - 1); }
    } else {
      var ps := Split(Next(st, s[0]), Nest(st, d, s[0]), s[1..]);
      assert Glue([s[0]], ps)[1..] == ps[1..];
      if i > 0 { CutsExactly(Next(st, s[0]), Nest(st, d, s[0]), s[1..], i - 1); }
    }
  }

  // ---- declarations and markers -------------------------------------------------------------

  /** The declarations are the trimmed pieces, in order, those that are blank left out. */
  lemma NonBlankExactly(a: seq<string>, b: seq<string>, p: string)
    ensures NonBlank(a + b) == NonBlank(a) + NonBlank(b)
    ensures NonBlank([p]) == if AllSpace(p) then [] else [Trim(p)]
  {
    NonBlankConcat(a, b);
    BlankExactly(p);
    assert [p][1..] == [];
  }

  lemma BlankExactly(p: string)
    ensures Trim(p) == "" <==> AllSpace(p)
  {
    var front, back := TrimTakesSpace(p);
    if Trim(p) == "" {
      assert p == front + back;
    } else {
      assert p[|front|] == Trim(p)[0];
    }
  }

  lemma {:induction false} NonBlankConcat(a: seq<string>, b: seq<string>)
    ensures NonBlank(a + b) == NonBlank(a) + NonBlank(b)
  {
    if a == [] {
      assert a + b == b;
    } else {
      var first := if Trim(a[0]) == "" then [] else [Trim(a[0])];
      assert (a + b)[1..] == a[1..] + b;
      NonBlankConcat(a[1..], b);
      assert first + (NonBlank(a[1..]) + NonBlank(b)) == (first + NonBlank(a[1..])) + NonBlank(b);
    }
  }

  predicate Letter(c: char, lower: char, upper: char) { c == lower || c == upper }

  /** The word `important` in whatever letter case. */
  predicate SaysImportant(w: string) {
    && |w| == 9
    && Letter(w[0], 'i', 'I') && Letter(w[1], 'm', 'M') && Letter(w[2], 'p', 'P') && Letter(w[3], 'o', 'O')
    && Letter(w[4], 'r', 'R') && Letter(w[5], 't', 'T') && Letter(w[6], 'a', 'A') && Letter(w[7], 'n', 'N')
    && Letter(w[8], 't', 'T')
  }

  lemma EndsExactly(d: string)
    requires |d| >= 9
    ensures EndsImportant(d) <==> SaysImportant(d[|d| - 9..])
  {
    var w := d[|d| - 9..];
    assert forall k :: 0 <= k < 9 ==> w[k] == d[|d| - 9 + k];
    WordLetters(w);
  }

  lemma WordLetters(w: string)
    requires |w| == 9
    ensures SaysImportant(w) <==> forall k :: 0 <= k < 9 ==> w[k] == IMPORTANT[k] || w[k] == CAPITALS[k]
  {
    if forall k :: 0 <= k < 9 ==> w[k] == IMPORTANT[k] || w[k] == CAPITALS[k] {
      assert SaysImportant(w);
    }
  }

  /** A declaration is marked exactly when it ends in an exclamation mark, any whitespace, and the word,
      in any letter case. */
  lemma MarkedExactly(d: string)
    ensures Marked(d) <==> exists front: string, gap: string, word: string ::
              d == front + "!" + gap + word && AllSpace(gap) && SaysImportant(word)
  {
    if Marked(d) {
      var word, before := d[|d| - 9..], BeforeWord(d);
      var gap := EndTaken(d[..|d| - 9]);
      EndsExactly(d);
      assert before == before[..|before| - 1] + "!";
      assert d == before[..|before| - 1] + "!" + gap + word;
    }
    forall front: string, gap: string, word: string |
        d == front + "!" + gap + word && AllSpace(gap) && SaysImportant(word)
      ensures Marked(d)
    {
      MarkerRead(d, front + "!", gap, word);
    }
  }

  lemma MarkerRead(d: string, bang: string, gap: string, word: string)
    requires bang != "" && bang[|bang| - 1] == '!' && AllSpace(gap) && SaysImportant(word) && d == bang + gap + word
    ensures Marked(d)
  {
    assert d[|d| - 9..] == word && d[..|d| - 9] == bang + gap;
    EndsExactly(d);
    SpaceTaken(bang, gap);
  }

  lemma {:induction false} SpaceTaken(a: string, gap: string)
    requires (a != "" ==> !IsSpace(a[|a| - 1])) && AllSpace(gap)
    ensures TrimEnd(a + gap) == a
  {
    if gap == "" {
      assert a + gap == a;
    } else {
      assert (a + gap)[..|a + gap| - 1] == a + gap[..|gap| - 1];
      SpaceTaken(a, gap[..|gap| - 1]);
    }
  }

  /** Every declaration keeps its text, and gets a marker exactly if it has none. */
  lemma TextKept(css: string)
    ensures var before, after := Declarations(Strip(Sep, css)), Declarations(Importantify(css));
            && |after| == |before|
            && forall i :: 0 <= i < |before| ==>
                 after[i] == if Marked(before[i]) then before[i] else before[i] + " !important"
  {
    DeclarationsMarked(css);
  }
}
