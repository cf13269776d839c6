/** The source's own loops over a style. They decide about a whole `url(...)` at its first letter and
    skip it, and are proved to compute what the character automaton of `Css` says. */
module CssScan {

  import opened Css
  import opened Text
  import opened Wrappers

  // ---- scanning an unquoted url -------------------------------------------------------------

  function SkipSpaces(css: string, j: nat): (k: nat)
    requires j <= |css|
    ensures j <= k <= |css|
    decreases |css| - j
  {
    if j < |css| && IsSpace(css[j]) then SkipSpaces(css, j + 1) else j
  }

  /** After whitespace, a quote follows. */
  predicate QuotedAt(css: string, j: nat)
    requires j <= |css|
  {
    var k := SkipSpaces(css, j);
    k < |css| && IsQuote(css[k])
  }

  predicate Spells(c: char, lower: char, upper: char) { c == lower || c == upper }

  predicate UrlNameAt(css: string, i: nat) {
    && i + 4 <= |css|
    && Spells(css[i], 'u', 'U') && Spells(css[i + 1], 'r', 'R') && Spells(css[i + 2], 'l', 'L')
    && css[i + 3] == '('
  }

  /** An unquoted url starts at `i`: the name is not the end of a longer name, and no quote follows. */
  predicate UrlAt(css: string, i: nat) {
    UrlNameAt(css, i) && !(i > 0 && WordChar(css[i - 1])) && !QuotedAt(css, i + 4)
  }

  /** Where an unquoted url ends: past its closing paren, or at the end of the text. */
  function UrlTail(css: string, st: State, j: nat): (end: nat)
    requires j <= |css| && InUrl(st) && (st.Gap? ==> !QuotedAt(css, j))
    ensures j <= end <= |css| && (end < |css| ==> end > j && css[end - 1] == ')')
    decreases |css| - j
  {
    if j == |css| then j
    else if Next(st, css[j]).Sep? then j + 1
    else UrlTail(css, Next(st, css[j]), j + 1)
  }

  method ScanUnquotedUrl(css: string, i: nat) returns (end: Option<nat>)
    requires i < |css|
    ensures end.Some? <==> UrlAt(css, i)
    ensures end.Some? ==> end.value == UrlTail(css, Gap, i + 4)
  {
    if !UrlNameAt(css, i) || (i > 0 && WordChar(css[i - 1])) { return None; }
    var j := i + 4;
    while j < |css| && IsSpace(css[j])
      invariant i + 4 <= j <= |css|
      invariant SkipSpaces(css, i + 4) == SkipSpaces(css, j)
      invariant !QuotedAt(css, j) ==> UrlTail(css, Gap, i + 4) == UrlTail(css, Gap, j)
    {
      j := j + 1;
    }
    if j < |css| && (css[j] == '"' || css[j] == '\'') { return None; }
    ghost var from := j;
    while j < |css| && css[j] != ')'
      invariant from <= j <= |css| + 1
      invariant UrlTail(css, Gap, from)
             == if j == from then UrlTail(css, Gap, from)
                else if j <= |css| then UrlTail(css, Url, j) else |css|
      decreases |css| + 1 - j
    {
      if css[j] == '\\' { j := j + 1; }
      j := j + 1;
    }
    end := Some(if j < |css| then j + 1 else |css|);
  }

  // ---- the automaton agrees with the look-ahead ---------------------------------------------

  /** A solid stretch is copied whole. */
  lemma {:induction false} SolidCopied(st: State, d: nat, a: string, b: string)
    requires Solid(st, d, a)
    requires a != "" && b != "" ==> a[|a| - 1] != '/'
    ensures Strip(st, a + b) == a + Strip(RunState(st, a), b)
    decreases |a|
  {
    if a == "" {
      assert a + b == b;
    } else {
      var rest, end := a[1..], Strip(RunState(st, a), b);
      SolidCopied(Next(st, a[0]), Nest(st, d, a[0]), rest, b);
      StripStep(st, a + b, rest + b);
      Reassociate(a, rest, end);
    }
  }

  lemma Reassociate(a: string, rest: string, end: string)
    requires a != "" && rest == a[1..]
    ensures [a[0]] + (rest + end) == a + end
  {
  }

  lemma StripStep(st: State, s: string, rest: string)
    requires s != "" && rest == s[1..] && !CommentAt(st, s)
    ensures Strip(st, s) == [s[0]] + Strip(Next(st, s[0]), rest)
  {
  }

  /** A solid stretch is kept in one piece. */
  lemma {:induction false} SolidUnsplit(st: State, d: nat, a: string, b: string)
    requires Solid(st, d, a)
    ensures Split(st, d, a + b) == Glue(a, Split(RunState(st, a), RunDepth(st, d, a), b))
    decreases |a|
  {
    if a == "" {
      var ps := Split(st, d, b);
      assert a + b == b && a + ps[0] == ps[0];
      assert [ps[0]] + ps[1..] == ps;
    } else {
      var st', d', rest := Next(st, a[0]), Nest(st, d, a[0]), a[1..];
      SolidUnsplit(st', d', rest, b);
      SplitStep(st, d, a + b, rest + b);
      assert a == [a[0]] + rest;
      GlueTwice([a[0]], rest, Split(RunState(st', rest), RunDepth(st', d', rest), b));
    }
  }

  lemma SplitStep(st: State, d: nat, s: string, rest: string)
    requires s != "" && rest == s[1..] && !SplitsAt(st, d, s[0])
    ensures Split(st, d, s) == Glue([s[0]], Split(Next(st, s[0]), Nest(st, d, s[0]), rest))
  {
  }

  lemma GlueTwice(p: string, q: string, ps: seq<string>)
    requires ps != []
    ensures Glue(p, Glue(q, ps)) == Glue(p + q, ps)
  {
    assert p + (q + ps[0]) == (p + q) + ps[0];
  }

  /** The rest of an unquoted url is solid, and leads back to a separator one paren out. */
  lemma {:induction false} UrlBody(css: string, st: State, d: nat, j: nat, end: nat)
    requires j <= |css| && InUrl(st) && (st.Gap? ==> !QuotedAt(css, j)) && end == UrlTail(css, st, j)
    ensures Solid(st, d + 1, css[j..end])
    ensures end < |css| ==> RunState(st, css[j..end]) == Sep && RunDepth(st, d + 1, css[j..end]) == d
    decreases |css| - j
  {
    var body := css[j..end];
    if j < |css| {
      if Next(st, css[j]).Sep? {
        Last(st, d + 1, body);
      } else {
        assert body[1..] == css[j + 1..end];
        UrlBody(css, Next(st, css[j]), d, j + 1, end);
      }
    }
  }

  lemma UrlOpening(d: nat, s: string)
    requires |s| == 4 && UrlNameAt(s, 0)
    ensures Solid(Sep, d, s) && RunState(Sep, s) == Gap && RunDepth(Sep, d, s) == d + 1
  {
    var s1 := s[1..];
    var s2 := s1[1..];
    var s3 := s2[1..];
    Last(URL, d, s3);
    assert Solid(UR, d, s2) && RunState(UR, s2) == Gap && RunDepth(UR, d, s2) == d + 1;
    assert Solid(U, d, s1) && RunState(U, s1) == Gap && RunDepth(U, d, s1) == d + 1;
  }

  lemma Last(st: State, d: nat, s: string)
    requires |s| == 1 && !SplitsAt(st, d, s[0])
    ensures Solid(st, d, s) && RunState(st, s) == Next(st, s[0]) && RunDepth(st, d, s) == Nest(st, d, s[0])
  {
    assert s[1..] == "";
    assert RunState(Next(st, s[0]), "") == Next(st, s[0]);
    assert RunDepth(Next(st, s[0]), Nest(st, d, s[0]), "") == Nest(st, d, s[0]);
    assert Solid(Next(st, s[0]), Nest(st, d, s[0]), "");
  }

  lemma UrlSolid(css: string, d: nat, i: nat, end: nat)
    requires UrlAt(css, i) && end == UrlTail(css, Gap, i + 4)
    ensures Solid(Sep, d, css[i..end])
    ensures end < |css| ==> RunState(Sep, css[i..end]) == Sep && RunDepth(Sep, d, css[i..end]) == d
  {
    UrlOpening(d, css[i..i + 4]);
    UrlBody(css, Gap, d, i + 4, end);
    assert css[i..end] == css[i..i + 4] + css[i + 4..end];
    SolidFollows(Sep, d, css[i..i + 4], css[i + 4..end]);
  }

  /** From a separator, a whole unquoted url is copied and kept in one piece. */
  lemma UrlWhole(css: string, d: nat, i: nat, end: nat)
    requires UrlAt(css, i) && end == UrlTail(css, Gap, i + 4)
    ensures Strip(Sep, css[i..]) == css[i..end] + Strip(Sep, css[end..])
    ensures Split(Sep, d, css[i..]) == Glue(css[i..end], Split(Sep, d, css[end..]))
  {
    var a, b := css[i..end], css[end..];
    UrlSolid(css, d, i, end);
    assert css[i..] == a + b;
    assert end < |css| ==> a[|a| - 1] == css[end - 1];
    SolidCopied(Sep, d, a, b);
    SolidUnsplit(Sep, d, a, b);
  }

  /** Where a reading that has already looked ahead may stand at `i`: a `url(` being spelled must
      turn out to be quoted, and a separator is what the source's look-behind takes for one. */
  predicate InStep(css: string, st: State, quote: Option<Quote>, i: nat) {
    && i < |css|
    && (quote == if st.Str? then Some(st.q) else None)
    && (Open(st) ==> (st.Sep? <==> !(i > 0 && WordChar(css[i - 1]))))
    && (st.U? ==> i >= 1 && Spells(css[i - 1], 'u', 'U') && (UrlNameAt(css, i - 1) ==> QuotedAt(css, i + 3)))
    && (st.UR? ==> i >= 2 && Spells(css[i - 2], 'u', 'U') && Spells(css[i - 1], 'r', 'R')
                   && (UrlNameAt(css, i - 2) ==> QuotedAt(css, i + 2)))
    && (st.URL? ==> i >= 3 && Spells(css[i - 3], 'u', 'U') && Spells(css[i - 2], 'r', 'R')
                    && Spells(css[i - 1], 'l', 'L') && (UrlNameAt(css, i - 3) ==> QuotedAt(css, i + 1)))
    && (st.Gap? ==> QuotedAt(css, i))
    && !st.Url? && !st.UrlEsc? && !st.StrEsc?
  }

  function NextQuote(quote: Option<Quote>, c: char): Option<Quote> {
    if quote.Some? then (if c == quote.value then None else quote)
    else if IsQuote(c) then Some(c) else None
  }

  function NextDepth(quote: Option<Quote>, depth: nat, c: char): nat {
    if quote.None? && c == '(' then depth + 1
    else if quote.None? && c == ')' then (if depth == 0 then 0 else depth - 1)
    else depth
  }

  /** A character that neither escapes nor starts a url moves loop and automaton alike. */
  lemma PlainCharacter(css: string, st: State, quote: Option<Quote>, d: nat, i: nat)
    requires InStep(css, st, quote, i)
    requires if quote.Some? then css[i] != '\\' else !UrlAt(css, i)
    ensures i + 1 < |css| ==> InStep(css, Next(st, css[i]), NextQuote(quote, css[i]), i + 1)
    ensures NextDepth(quote, d, css[i]) == Nest(st, d, css[i])
  {
  }

  /** An escape inside a string, whatever it escapes. */
  lemma EscapeInStep(css: string, st: State, quote: Option<Quote>, i: nat)
    requires InStep(css, st, quote, i) && quote.Some?
    ensures st == Str(quote.value)
    ensures i + 2 < |css| ==> InStep(css, st, quote, i + 2)
  {
  }

  /** After a url, a comment or a semicolon. */
  lemma SeparatorInStep(css: string, i: nat)
    requires i < |css| && i > 0 && !WordChar(css[i - 1])
    ensures InStep(css, Sep, None, i)
  {
  }

  /** Outside strings, a comment, a semicolon or a url finds the automaton outside everything. */
  lemma AtTopLevel(css: string, st: State, i: nat)
    requires InStep(css, st, None, i)
    ensures css[i] == ';' || css[i] == '/' ==> Open(st)
    ensures UrlAt(css, i) ==> st.Sep?
  {
  }

  /** The text from `i` on; nothing once `i` is past the end. */
  function From(css: string, i: nat): string { if i <= |css| then css[i..] else "" }

  /** Where reading goes on after a comment: past its close, or past the end. */
  function AfterEnd(css: string, end: Option<nat>): nat {
    if end.None? then |css| + 1 else end.value + 2
  }

  method FindCommentEnd(css: string, from: nat) returns (end: Option<nat>)
    requires from <= |css|
    ensures end.Some? ==> from <= end.value && end.value + 2 <= |css| && css[end.value + 1] == '/'
    ensures AfterComment(css[from..]) == From(css, AfterEnd(css, end))
  {
    var j := from;
    while j + 1 < |css|
      invariant from <= j <= |css|
      invariant AfterComment(css[from..]) == AfterComment(css[j..])
    {
      if css[j] == '*' && css[j + 1] == '/' {
        assert css[j..][2..] == css[j + 2..];
        return Some(j);
      }
      assert css[j..][1..] == css[j + 1..];
      j := j + 1;
    }
    end := None;
  }

  /** What is written, then what the rest strips to. */
  ghost predicate Stripping(total: string, css: string, out: string, st: State, i: nat) {
    total == out + Strip(st, From(css, i))
  }

  lemma StripCharacter(total: string, css: string, out: string, st: State, i: nat)
    requires i < |css| && Stripping(total, css, out, st, i) && !CommentAt(st, css[i..])
    ensures Stripping(total, css, out + [css[i]], Next(st, css[i]), i + 1)
  {
    var rest := Strip(Next(st, css[i]), css[i + 1..]);
    assert css[i..][1..] == css[i + 1..];
    StripStep(st, css[i..], css[i + 1..]);
    assert (out + [css[i]]) + rest == out + ([css[i]] + rest);
  }

  lemma StripEscape(total: string, css: string, out: string, q: Quote, i: nat)
    requires i < |css| && Stripping(total, css, out, Str(q), i) && css[i] == '\\'
    ensures Stripping(total, css, out + [css[i]] + (if i + 1 < |css| then [css[i + 1]] else ""), Str(q), i + 2)
  {
    StripCharacter(total, css, out, Str(q), i);
    if i + 1 < |css| {
      StripCharacter(total, css, out + [css[i]], StrEsc(q), i + 1);
    } else {
      assert out + [css[i]] + "" == out + [css[i]];
    }
  }

  lemma StripComment(total: string, css: string, out: string, st: State, i: nat, next: nat)
    requires i < |css| && Stripping(total, css, out, st, i) && CommentAt(st, css[i..])
    requires From(css, next) == AfterComment(css[i + 2..])
    ensures Stripping(total, css, out + " ", Sep, next)
  {
    var rest := Strip(Sep, From(css, next));
    assert css[i..][2..] == css[i + 2..];
    assert (out + " ") + rest == out + (" " + rest);
  }

  lemma StripUrl(total: string, css: string, out: string, i: nat, end: nat)
    requires Stripping(total, css, out, Sep, i) && UrlAt(css, i) && end == UrlTail(css, Gap, i + 4)
    ensures Stripping(total, css, out + css[i..end], Sep, end)
  {
    UrlWhole(css, 0, i, end);
    var rest := Strip(Sep, css[end..]);
    assert (out + css[i..end]) + rest == out + (css[i..end] + rest);
  }

  /** Where reading outside an escape goes on: past a whole unquoted url, or past one character. */
  function After(css: string, quote: Option<Quote>, i: nat): (next: nat)
    requires i < |css|
    ensures i < next <= |css|
  {
    if quote.None? && UrlAt(css, i) then UrlTail(css, Gap, i + 4) else i + 1
  }

  /** The automaton after as much. */
  function StateAfter(css: string, st: State, quote: Option<Quote>, i: nat): State
    requires i < |css|
  {
    if quote.None? && UrlAt(css, i) then Sep else Next(st, css[i])
  }

  method SkipUrl(css: string, quote: Option<Quote>, i: nat) returns (next: nat)
    requires i < |css|
    ensures next == After(css, quote, i)
  {
    next := i + 1;
    if quote.None? {
      var end := ScanUnquotedUrl(css, i);
      if end.Some? { next := end.value; }
    }
  }

  lemma StaysInStep(css: string, st: State, quote: Option<Quote>, i: nat)
    requires InStep(css, st, quote, i) && (quote.Some? ==> css[i] != '\\')
    ensures var next := After(css, quote, i);
            next < |css| ==> InStep(css, StateAfter(css, st, quote, i), NextQuote(quote, css[i]), next)
  {
    if quote.None? && UrlAt(css, i) {
      var next := After(css, quote, i);
      if next < |css| { SeparatorInStep(css, next); }
    } else {
      PlainCharacter(css, st, quote, 0, i);
    }
  }

  lemma StripAdvance(total: string, css: string, out: string, st: State, quote: Option<Quote>, i: nat)
    requires InStep(css, st, quote, i) && (quote.Some? ==> css[i] != '\\')
    requires Stripping(total, css, out, st, i) && !CommentAt(st, css[i..])
    ensures Stripping(total, css, out + css[i..After(css, quote, i)],
             StateAfter(css, st, quote, i), After(css, quote, i))
  {
    if quote.None? && UrlAt(css, i) {
      AtTopLevel(css, st, i);
      StripUrl(total, css, out, i, After(css, quote, i));
    } else {
      StripCharacter(total, css, out, st, i);
      assert css[i..i + 1] == [css[i]];
    }
  }

  lemma EndStrip(total: string, css: string, out: string, st: State, i: nat)
    requires i >= |css| && Stripping(total, css, out, st, i)
    ensures total == out
  {
    assert From(css, i) == "" && Strip(st, "") == "" && out + "" == out;
  }

  method StripComments(css: string) returns (out: string)
    ensures out == Strip(Sep, css)
  {
    out := "";
    var quote: Option<Quote> := None;
    var i := 0;
    ghost var st, total := Sep, Strip(Sep, css);
    assert From(css, 0) == css && out + total == total;
    while i < |css|
      invariant Stripping(total, css, out, st, i)
      invariant i < |css| ==> InStep(css, st, quote, i)
      decreases |css| - i
    {
      var c := css[i];
      if quote.Some? && c == '\\' {
        EscapeInStep(css, st, quote, i);
        StripEscape(total, css, out, quote.value, i);
        out := out + [c] + (if i + 1 < |css| then [css[i + 1]] else "");
        i := i + 2;
        continue;
      }
      if quote.None? && c == '/' && i + 1 < |css| && css[i + 1] == '*' {
        AtTopLevel(css, st, i);
        var end := FindCommentEnd(css, i + 2);
        StripComment(total, css, out, st, i, AfterEnd(css, end));
        i := AfterEnd(css, end);
        out := out + " ";
        st := Sep;
        if i < |css| { SeparatorInStep(css, i); }
        continue;
      }
      var next := SkipUrl(css, quote, i);
      StripAdvance(total, css, out, st, quote, i);
      StaysInStep(css, st, quote, i);
      out := out + css[i..next];
      st, quote := StateAfter(css, st, quote, i), NextQuote(quote, c);
      i := next;
    }
    EndStrip(total, css, out, st, i);
  }

  /** The text of the piece being read: from `start` to `i`, or to the end. */
  function Piece(css: string, start: nat, i: nat): string
    requires start <= i && start <= |css|
  {
    if i <= |css| then css[start..i] else css[start..]
  }

  /** The pieces pushed, then the one being read, then what the rest splits into. */
  ghost predicate SoFar(total: seq<string>, css: string, decls: seq<string>, start: nat, st: State, d: nat, i: nat) {
    && start <= i && start <= |css|
    && total == decls + Glue(Piece(css, start, i), Split(st, d, From(css, i)))
  }

  lemma Adjacent(css: string, i: nat, j: nat, k: nat)
    requires i <= j <= k <= |css|
    ensures css[i..j] + css[j..k] == css[i..k]
  {
  }

  lemma SplitCharacter(total: seq<string>, css: string, decls: seq<string>, start: nat, st: State, d: nat, i: nat)
    requires i < |css| && SoFar(total, css, decls, start, st, d, i) && !SplitsAt(st, d, css[i])
    ensures SoFar(total, css, decls, start, Next(st, css[i]), Nest(st, d, css[i]), i + 1)
  {
    assert css[i..][1..] == css[i + 1..];
    SplitStep(st, d, css[i..], css[i + 1..]);
    GlueTwice(css[start..i], [css[i]], Split(Next(st, css[i]), Nest(st, d, css[i]), css[i + 1..]));
    Adjacent(css, start, i, i + 1);
    assert css[i..i + 1] == [css[i]];
  }

  lemma SplitEscape(total: seq<string>, css: string, decls: seq<string>, start: nat, q: Quote, d: nat, i: nat)
    requires i < |css| && SoFar(total, css, decls, start, Str(q), d, i) && css[i] == '\\'
    ensures SoFar(total, css, decls, start, Str(q), d, i + 2)
  {
    SplitCharacter(total, css, decls, start, Str(q), d, i);
    EscapedCharacter(total, css, decls, start, q, d, i + 1);
  }

  lemma EscapedCharacter(total: seq<string>, css: string, decls: seq<string>, start: nat, q: Quote, d: nat, i: nat)
    requires i <= |css| && SoFar(total, css, decls, start, StrEsc(q), d, i)
    ensures SoFar(total, css, decls, start, Str(q), d, i + 1)
  {
    if i < |css| {
      SplitCharacter(total, css, decls, start, StrEsc(q), d, i);
    } else {
      assert css[start..i] == css[start..];
      assert Split(StrEsc(q), d, "") == [""] == Split(Str(q), d, "");
    }
  }

  lemma SplitSemicolon(total: seq<string>, css: string, decls: seq<string>, start: nat, st: State, i: nat)
    requires i < |css| && SoFar(total, css, decls, start, st, 0, i) && SplitsAt(st, 0, css[i])
    ensures SoFar(total, css, decls + [css[start..i]], i + 1, Sep, 0, i + 1)
  {
    var rest := Split(Sep, 0, css[i + 1..]);
    assert css[i..][1..] == css[i + 1..];
    assert Split(st, 0, css[i..]) == [""] + rest;
    PushPiece(decls, css[start..i], rest);
  }

  lemma PushPiece(decls: seq<string>, p: string, rest: seq<string>)
    requires rest != []
    ensures decls + Glue(p, [""] + rest) == (decls + [p]) + Glue("", rest)
  {
    assert "" + rest[0] == rest[0] && [rest[0]] + rest[1..] == rest;
    assert p + "" == p && ([""] + rest)[1..] == rest;
  }

  lemma SplitUrl(total: seq<string>, css: string, decls: seq<string>, start: nat, d: nat, i: nat, end: nat)
    requires SoFar(total, css, decls, start, Sep, d, i) && UrlAt(css, i) && end == UrlTail(css, Gap, i + 4)
    ensures SoFar(total, css, decls, start, Sep, d, end)
  {
    UrlWhole(css, d, i, end);
    GlueTwice(css[start..i], css[i..end], Split(Sep, d, css[end..]));
    Adjacent(css, start, i, end);
  }

  lemma SplitAdvance(total: seq<string>, css: string, decls: seq<string>, start: nat,
                     st: State, quote: Option<Quote>, d: nat, i: nat)
    requires InStep(css, st, quote, i) && (quote.Some? ==> css[i] != '\\')
    requires SoFar(total, css, decls, start, st, d, i) && !SplitsAt(st, d, css[i])
    ensures SoFar(total, css, decls, start, StateAfter(css, st, quote, i), NextDepth(quote, d, css[i]),
                  After(css, quote, i))
  {
    if quote.None? && UrlAt(css, i) {
      AtTopLevel(css, st, i);
      SplitUrl(total, css, decls, start, d, i, After(css, quote, i));
    } else {
      PlainCharacter(css, st, quote, d, i);
      SplitCharacter(total, css, decls, start, st, d, i);
    }
  }

  lemma BeginSplit(css: string)
    ensures SoFar(Split(Sep, 0, css), css, [], 0, Sep, 0, 0)
  {
    var ps := Split(Sep, 0, css);
    assert css[0..] == css;
    assert css[0..0] + ps[0] == ps[0] && [ps[0]] + ps[1..] == ps;
  }

  lemma EndSplit(total: seq<string>, css: string, decls: seq<string>, start: nat, st: State, d: nat, i: nat)
    requires i >= |css| && SoFar(total, css, decls, start, st, d, i)
    ensures total == decls + [css[start..]]
  {
    assert Split(st, d, "") == [""];
    assert css[start..] + "" == css[start..];
    assert i == |css| ==> css[start..i] == css[start..];
  }

  method SplitDeclarations(css: string) returns (decls: seq<string>)
    ensures decls == Split(Sep, 0, css)
  {
    decls := [];
    var start, depth, i := 0, 0, 0;
    var quote: Option<Quote> := None;
    ghost var st, total := Sep, Split(Sep, 0, css);
    BeginSplit(css);
    while i < |css|
      invariant depth >= 0 && SoFar(total, css, decls, start, st, depth, i)
      invariant i < |css| ==> InStep(css, st, quote, i)
      decreases |css| - i
    {
      var c := css[i];
      if quote.Some? && c == '\\' {
        EscapeInStep(css, st, quote, i);
        SplitEscape(total, css, decls, start, quote.value, depth, i);
        i := i + 2;
        continue;
      }
      if quote.None? && c == ';' && depth == 0 {
        AtTopLevel(css, st, i);
        SplitSemicolon(total, css, decls, start, st, i);
        st := Sep;
        decls := decls + [css[start..i]];
        start := i + 1;
        if i + 1 < |css| { SeparatorInStep(css, i + 1); }
        i := i + 1;
        continue;
      }
      var next := SkipUrl(css, quote, i);
      SplitAdvance(total, css, decls, start, st, quote, depth, i);
      StaysInStep(css, st, quote, i);
      st, quote, depth := StateAfter(css, st, quote, i), NextQuote(quote, c), NextDepth(quote, depth, c);
      i := next;
    }
    EndSplit(total, css, decls, start, st, depth, i);
    decls := decls + [css[start..]];
  }

  method ImportantifyStyle(css: string) returns (r: string)
    ensures r == Importantify(css)
  {
    var stripped := StripComments(css);
    var decls := SplitDeclarations(stripped);
    r := JoinSemi(MarkAll(NonBlank(decls)));
  }
}
