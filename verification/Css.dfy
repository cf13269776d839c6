/** The template runtime's CSS rewriting: comment stripping and `!important` insertion, with the
    quote, `url(...)` and parenthesis state both of them track.

    The reading here is a character automaton that never looks ahead; `CssScan` proves that the
    source's look-ahead loops compute it. */
module Css {

  import opened Text

  // ---- the automaton ------------------------------------------------------------------------

  /** What the characters read so far amount to. `Sep` and `Ident`: outside everything, after a
      separator or after a name character. `U`, `UR`, `URL`: the start of a name spelling `url`.
      `Gap`: after `url(` and whitespace only. `Url`: inside an unquoted url. `Str`: in a string. */
  datatype State =
    | Sep | Ident | U | UR | URL
    | Gap | Url | UrlEsc
    | Str(q: Quote) | StrEsc(q: Quote)

  predicate IsQuote(c: char) { c == '\'' || c == '"' }

  type Quote = c: char | IsQuote(c) witness '"'

  /** A character the class `[a-z0-9_-]` matches, ignoring case. */
  predicate WordChar(c: char) {
    'a' <= c <= 'z' || 'A' <= c <= 'Z' || '0' <= c <= '9' || c == '_' || c == '-'
  }

  /** Outside strings and outside `url(...)`. */
  predicate Open(st: State) { st.Sep? || st.Ident? || st.U? || st.UR? || st.URL? }

  predicate InUrl(st: State) { st.Gap? || st.Url? || st.UrlEsc? }

  function Next(st: State, c: char): State {
    match st
    case Str(q) => if c == '\\' then StrEsc(q) else if c == q then Sep else Str(q)
    case StrEsc(q) => Str(q)
    case Gap =>
      if IsSpace(c) then Gap else if IsQuote(c) then Str(c)
      else if c == ')' then Sep else if c == '\\' then UrlEsc else Url
    case Url => if c == ')' then Sep else if c == '\\' then UrlEsc else Url
    case UrlEsc => Url
    case _ =>
      if IsQuote(c) then Str(c)
      else if st.URL? && c == '(' then Gap
      else if st.Sep? && (c == 'u' || c == 'U') then U
      else if st.U? && (c == 'r' || c == 'R') then UR
      else if st.UR? && (c == 'l' || c == 'L') then URL
      else if WordChar(c) then Ident
      else Sep
  }

  /** The paren depth after one character. */
  function Nest(st: State, d: nat, c: char): nat {
    if Open(st) && c == '(' then d + 1
    else if (Open(st) || st.Gap? || st.Url?) && c == ')' then (if d == 0 then 0 else d - 1)
    else d
  }

  function RunState(st: State, s: string): State
    decreases |s|
  {
    if s == "" then st else RunState(Next(st, s[0]), s[1..])
  }

  function RunDepth(st: State, d: nat, s: string): nat
    decreases |s|
  {
    if s == "" then d else RunDepth(Next(st, s[0]), Nest(st, d, s[0]), s[1..])
  }

  // ---- comments -----------------------------------------------------------------------------

  predicate CommentAt(st: State, s: string) { Open(st) && |s| >= 2 && s[0] == '/' && s[1] == '*' }

  /** What follows the first comment close in `s`; nothing when the comment never closes. */
  function AfterComment(s: string): (rest: string)
    ensures |rest| <= |s|
  {
    if |s| < 2 then "" else if s[0] == '*' && s[1] == '/' then s[2..] else AfterComment(s[1..])
  }

  /** `s` with every comment outside strings and urls replaced by one space. */
  function Strip(st: State, s: string): string
    decreases |s|
  {
    if s == "" then ""
    else if CommentAt(st, s) then " " + Strip(Sep, AfterComment(s[2..]))
    else [s[0]] + Strip(Next(st, s[0]), s[1..])
  }

  predicate NoComment(st: State, s: string)
    decreases |s|
  {
    s == "" || (!CommentAt(st, s) && NoComment(Next(st, s[0]), s[1..]))
  }

  /** What `Strip` returns holds no comment, whatever is unclosed in it. */
  lemma {:induction false} StripLeavesNoComment(st: State, s: string)
    ensures NoComment(st, Strip(st, s))
    decreases |s|
  {
    if s == "" {
    } else if CommentAt(st, s) {
      var rest := Strip(Sep, AfterComment(s[2..]));
      StripLeavesNoComment(Sep, AfterComment(s[2..]));
      assert (" " + rest)[1..] == rest;
    } else {
      var rest := Strip(Next(st, s[0]), s[1..]);
      StripLeavesNoComment(Next(st, s[0]), s[1..]);
      assert ([s[0]] + rest)[1..] == rest;
    }
  }

  /** A string is left as it is exactly when it holds no comment. */
  lemma {:induction false} StripFixed(st: State, s: string)
    ensures Strip(st, s) == s <==> NoComment(st, s)
    decreases |s|
  {
    if s == "" {
    } else if CommentAt(st, s) {
      assert Strip(st, s)[0] == ' ';
    } else {
      StripFixed(Next(st, s[0]), s[1..]);
      assert s == [s[0]] + s[1..];
    }
  }

  /** Stripping comments twice is stripping them once, on every string. */
  lemma StripIdempotent(css: string)
    ensures Strip(Sep, Strip(Sep, css)) == Strip(Sep, css)
  {
    StripLeavesNoComment(Sep, css);
    StripFixed(Sep, Strip(Sep, css));
  }

  // ---- declarations -------------------------------------------------------------------------

  /** `p` written before the first of the pieces. */
  function Glue(p: string, pieces: seq<string>): (r: seq<string>)
    requires pieces != []
    ensures |r| == |pieces|
  {
    [p + pieces[0]] + pieces[1..]
  }

  predicate SplitsAt(st: State, d: nat, c: char) { Open(st) && d == 0 && c == ';' }

  /** The pieces between the semicolons that stand outside strings, urls and parens. */
  function Split(st: State, d: nat, s: string): (pieces: seq<string>)
    ensures pieces != []
    decreases |s|
  {
    if s == "" then [""]
    else if SplitsAt(st, d, s[0]) then [""] + Split(Sep, 0, s[1..])
    else Glue([s[0]], Split(Next(st, s[0]), Nest(st, d, s[0]), s[1..]))
  }

  function NonBlank(pieces: seq<string>): (ds: seq<string>)
    ensures forall i :: 0 <= i < |ds| ==> ds[i] != "" && Trim(ds[i]) == ds[i]
  {
    if pieces == [] then []
    else
      var d := Trim(pieces[0]);
      TrimFixed(d);
      (if d == "" then [] else [d]) + NonBlank(pieces[1..])
  }

  /** The non-empty top-level declarations of a comment-free style. */
  function Declarations(css: string): seq<string> { NonBlank(Split(Sep, 0, css)) }

  // ---- markers ------------------------------------------------------------------------------

  const IMPORTANT := "important"
  const CAPITALS := "IMPORTANT"

  /** The word `important`, in any case, ends the declaration. */
  predicate EndsImportant(d: string) {
    && |d| >= 9
    && forall k :: 0 <= k < 9 ==> d[|d| - 9 + k] == IMPORTANT[k] || d[|d| - 9 + k] == CAPITALS[k]
  }

  /** What stands before the trailing word `important` and the whitespace in front of it. */
  function BeforeWord(d: string): (r: string)
    requires |d| >= 9
    ensures |r| < |d|
  {
    TrimEnd(d[..|d| - 9])
  }

  /** The pattern `!\s*important$`, ignoring case. */
  predicate Marked(d: string) {
    EndsImportant(d) && BeforeWord(d) != "" && BeforeWord(d)[|BeforeWord(d)| - 1] == '!'
  }

  /** How many markers end the declaration. */
  function TrailingMarkers(d: string): nat
    decreases |d|
  {
    if Marked(d) then
      var front := BeforeWord(d);
      1 + TrailingMarkers(TrimEnd(front[..|front| - 1]))
    else 0
  }

  function Mark(d: string): string { if Marked(d) then d else d + " !important" }

  function MarkAll(ds: seq<string>): (r: seq<string>)
    ensures |r| == |ds|
    ensures forall i :: 0 <= i < |ds| ==> r[i] == Mark(ds[i])
  {
    if ds == [] then [] else [Mark(ds[0])] + MarkAll(ds[1..])
  }

  lemma FreshMark(d: string)
    ensures EndsImportant(d + " !important") && BeforeWord(d + " !important") == d + " !"
    ensures Marked(d + " !important")
  {
    var m := d + " !important";
    assert m[..|m| - 9] == d + " !";
    assert m[|m| - 9..] == IMPORTANT;
    forall k | 0 <= k < 9 ensures m[|m| - 9 + k] == IMPORTANT[k] { assert m[|m| - 9 + k] == m[|m| - 9..][k]; }
  }

  lemma TrailingStep(d: string, front: string)
    requires Marked(d) && front == BeforeWord(d)
    ensures TrailingMarkers(d) == 1 + TrailingMarkers(TrimEnd(front[..|front| - 1]))
  {
  }

  lemma TrimEndSpace(d: string)
    requires d != "" ==> !IsSpace(d[|d| - 1])
    ensures TrimEnd(d + " ") == d
  {
    assert (d + " ")[..|d + " "| - 1] == d;
  }

  /** A marked declaration ends in at least one marker, exactly one if it had at most one. */
  lemma MarkedOnce(d: string)
    requires Trim(d) == d
    ensures TrailingMarkers(Mark(d)) == if TrailingMarkers(d) == 0 then 1 else TrailingMarkers(d)
  {
    if Marked(d) {
      TrailingStep(d, BeforeWord(d));
    } else {
      FreshMark(d);
      var front := d + " !";
      assert front[..|front| - 1] == d + " ";
      TrailingStep(d + " !important", front);
      TrimEndSpace(d);
    }
  }

  lemma {:induction false} MarkAllTwice(ds: seq<string>)
    ensures MarkAll(MarkAll(ds)) == MarkAll(ds)
  {
    if ds != [] {
      MarkAllTwice(ds[1..]);
      if !Marked(ds[0]) { FreshMark(ds[0]); }
    }
  }

  function JoinSemi(ds: seq<string>): string {
    if ds == [] then "" else if |ds| == 1 then ds[0] else ds[0] + ";" + JoinSemi(ds[1..])
  }

  function Importantify(css: string): string {
    JoinSemi(MarkAll(Declarations(Strip(Sep, css))))
  }

  // ---- pieces and their reassembly ----------------------------------------------------------

  /** Read from the given state, `s` holds neither a comment nor a top-level semicolon. */
  predicate Solid(st: State, d: nat, s: string)
    decreases |s|
  {
    s == ""
    || (!CommentAt(st, s) && !SplitsAt(st, d, s[0])
        && Solid(Next(st, s[0]), Nest(st, d, s[0]), s[1..]))
  }

  /** Read from the given state, `s` is solid and ends outside strings, urls and parens. */
  predicate Closed(st: State, d: nat, s: string) {
    Solid(st, d, s) && Open(RunState(st, s)) && RunDepth(st, d, s) == 0
  }

  /** Solid pieces, all but the last of them closed: what joining with semicolons can be undone on. */
  predicate Pieces(st: State, d: nat, ps: seq<string>)
    decreases |ps|
  {
    ps != [] ==>
      && Solid(st, d, ps[0])
      && (|ps| > 1 ==> Closed(st, d, ps[0]))
      && Pieces(Sep, 0, ps[1..])
  }

  lemma {:induction false} SplitGivesPieces(st: State, d: nat, s: string)
    requires NoComment(st, s)
    ensures Pieces(st, d, Split(st, d, s))
    ensures Split(st, d, s)[0] <= s
    decreases |s|
  {
    if s == "" {
    } else if SplitsAt(st, d, s[0]) {
      SplitGivesPieces(Sep, 0, s[1..]);
      assert Next(st, ';') == Sep;
    } else {
      var ps := Split(Next(st, s[0]), Nest(st, d, s[0]), s[1..]);
      SplitGivesPieces(Next(st, s[0]), Nest(st, d, s[0]), s[1..]);
      var p := [s[0]] + ps[0];
      assert p[1..] == ps[0];
      assert Split(st, d, s)[1..] == ps[1..];
    }
  }

  lemma JoinAfterEmpty(st: State, d: nat, ps: seq<string>, rest: string)
    requires |ps| > 1 && ps[0] == "" && Closed(st, d, "") && rest == JoinSemi(ps[1..])
    requires NoComment(Sep, rest) && Split(Sep, 0, rest) == ps[1..]
    ensures NoComment(st, JoinSemi(ps)) && Split(st, d, JoinSemi(ps)) == ps
  {
    var s := ";" + rest;
    assert JoinSemi(ps) == s && s[1..] == rest;
    assert Next(st, ';') == Sep;
    assert ps == [""] + ps[1..];
  }

  /** Joining pieces with semicolons brings in no comment, and splitting gives the pieces back. */
  lemma {:induction false} JoinUndone(st: State, d: nat, ps: seq<string>)
    requires ps != [] && Pieces(st, d, ps)
    ensures NoComment(st, JoinSemi(ps)) && Split(st, d, JoinSemi(ps)) == ps
    decreases |ps|, |ps[0]|
  {
    var p := ps[0];
    if p == "" {
      if |ps| == 1 {
        assert ps == [""];
      } else {
        JoinUndone(Sep, 0, ps[1..]);
        JoinAfterEmpty(st, d, ps, JoinSemi(ps[1..]));
      }
    } else {
      var tail := [p[1..]] + ps[1..];
      assert tail[1..] == ps[1..];
      JoinUndone(Next(st, p[0]), Nest(st, d, p[0]), tail);
      JoinHead(ps, p[0], tail);
      JoinAfterCharacter(st, d, ps, tail, JoinSemi(ps));
    }
  }

  lemma JoinAfterCharacter(st: State, d: nat, ps: seq<string>, tail: seq<string>, s: string)
    requires ps != [] && ps[0] != "" && tail == [ps[0][1..]] + ps[1..] && Solid(st, d, ps[0])
    requires s != "" && s[0] == ps[0][0] && NoComment(Next(st, s[0]), s[1..])
    requires |s| >= 2 ==> s[1] == (if |ps[0]| >= 2 then ps[0][1] else ';')
    requires Split(Next(st, s[0]), Nest(st, d, s[0]), s[1..]) == tail
    ensures NoComment(st, s) && Split(st, d, s) == ps
  {
    assert !CommentAt(st, s);
    assert [s[0]] + ps[0][1..] == ps[0];
    assert ps == Glue([s[0]], tail);
  }

  lemma JoinHead(ps: seq<string>, c: char, tail: seq<string>)
    requires ps != [] && ps[0] != "" && c == ps[0][0] && tail == [ps[0][1..]] + ps[1..]
    ensures JoinSemi(ps) == [c] + JoinSemi(tail) && JoinSemi(ps)[0] == c && JoinSemi(ps)[1..] == JoinSemi(tail)
    ensures |JoinSemi(ps)| >= 2 ==> JoinSemi(ps)[1] == (if |ps[0]| >= 2 then ps[0][1] else ';')
  {
    var p := ps[0];
    assert p == [c] + p[1..];
    assert tail[1..] == ps[1..];
    if |ps| == 1 {
      assert JoinSemi(tail) == p[1..];
    } else {
      assert JoinSemi(tail) == p[1..] + ";" + JoinSemi(ps[1..]);
    }
  }

  // ---- trimming and marking keep pieces -----------------------------------------------------

  /** Leading whitespace outside everything changes nothing about how the rest reads. */
  lemma {:induction false} TrimStartKeeps(s: string)
    ensures Solid(Sep, 0, s) ==> Solid(Sep, 0, TrimStart(s))
    ensures Closed(Sep, 0, s) ==> Closed(Sep, 0, TrimStart(s))
  {
    if s != "" && IsSpace(s[0]) {
      assert Next(Sep, s[0]) == Sep && Nest(Sep, 0, s[0]) == 0;
      TrimStartKeeps(s[1..]);
    }
  }

  lemma {:induction false} SolidSnoc(st: State, d: nat, s: string)
    requires s != ""
    ensures RunState(st, s) == Next(RunState(st, s[..|s| - 1]), s[|s| - 1])
    ensures RunDepth(st, d, s)
         == Nest(RunState(st, s[..|s| - 1]), RunDepth(st, d, s[..|s| - 1]), s[|s| - 1])
    ensures Solid(st, d, s) ==> Solid(st, d, s[..|s| - 1])
    decreases |s|
  {
    var init := s[..|s| - 1];
    if |s| == 1 {
      assert init == "" && s[1..] == "";
      assert RunState(Next(st, s[0]), "") == Next(st, s[0]);
    } else {
      assert s[1..][..|s[1..]| - 1] == init[1..];
      SolidSnoc(Next(st, s[0]), Nest(st, d, s[0]), s[1..]);
      assert s[1..][|s[1..]| - 1] == s[|s| - 1] && init[0] == s[0];
      assert CommentAt(st, init) ==> CommentAt(st, s);
    }
  }

  /** A space keeps the depth, and only an open state is open after one. */
  lemma SpaceStep(st: State, d: nat, c: char)
    requires IsSpace(c)
    ensures Nest(st, d, c) == d && (Open(Next(st, c)) ==> Open(st))
  {
  }

  lemma {:induction false} TrimEndKeeps(s: string)
    ensures Solid(Sep, 0, s) ==> Solid(Sep, 0, TrimEnd(s))
    ensures Closed(Sep, 0, s) ==> Closed(Sep, 0, TrimEnd(s))
  {
    if s != "" && IsSpace(s[|s| - 1]) {
      var init := s[..|s| - 1];
      SolidSnoc(Sep, 0, s);
      SpaceStep(RunState(Sep, init), RunDepth(Sep, 0, init), s[|s| - 1]);
      TrimEndKeeps(init);
    }
  }

  /** The characters of the marker ` !important`. */
  predicate MarkChar(c: char) { c == ' ' || c == '!' || 'a' <= c <= 'z' }

  /** Marker characters cannot open, close or split anything. */
  lemma {:induction false} MarkSuffix(st: State, d: nat, m: string)
    requires forall i :: 0 <= i < |m| ==> MarkChar(m[i])
    ensures Solid(st, d, m) && RunDepth(st, d, m) == d
    ensures Open(st) ==> Open(RunState(st, m))
    decreases |m|
  {
    if m != "" { MarkSuffix(Next(st, m[0]), Nest(st, d, m[0]), m[1..]); }
  }

  lemma {:induction false} SolidFollows(st: State, d: nat, a: string, b: string)
    requires Solid(st, d, a) && Solid(RunState(st, a), RunDepth(st, d, a), b)
    requires a != "" && b != "" ==> a[|a| - 1] != '/' || b[0] != '*'
    ensures Solid(st, d, a + b)
    ensures RunState(st, a + b) == RunState(RunState(st, a), b)
    ensures RunDepth(st, d, a + b) == RunDepth(RunState(st, a), RunDepth(st, d, a), b)
    decreases |a|
  {
    if a == "" {
      assert a + b == b;
    } else {
      assert (a + b)[1..] == a[1..] + b;
      SolidFollows(Next(st, a[0]), Nest(st, d, a[0]), a[1..], b);
      assert |a| >= 2 ==> (a + b)[1] == a[1];
      assert |a| == 1 ==> b == "" || (a + b)[1] == b[0];
    }
  }

  lemma MarkKeeps(p: string)
    ensures Solid(Sep, 0, p) ==> Solid(Sep, 0, Mark(p))
    ensures Closed(Sep, 0, p) ==> Closed(Sep, 0, Mark(p))
  {
    if Solid(Sep, 0, p) { SuffixKeeps(p, " !important"); }
  }

  lemma SuffixKeeps(p: string, m: string)
    requires Solid(Sep, 0, p)
    requires m != "" && m[0] == ' ' && forall i :: 0 <= i < |m| ==> MarkChar(m[i])
    ensures Solid(Sep, 0, p + m) && (Closed(Sep, 0, p) ==> Closed(Sep, 0, p + m))
  {
    MarkSuffix(RunState(Sep, p), RunDepth(Sep, 0, p), m);
    SolidFollows(Sep, 0, p, m);
  }

  /** Trimming, dropping and marking pieces leaves pieces. */
  lemma {:induction false} MarkedPieces(ps: seq<string>)
    requires Pieces(Sep, 0, ps)
    ensures Pieces(Sep, 0, MarkAll(NonBlank(ps)))
  {
    if ps != [] {
      MarkedPieces(ps[1..]);
      var p := Trim(ps[0]);
      TrimStartKeeps(ps[0]);
      TrimEndKeeps(TrimStart(ps[0]));
      MarkKeeps(p);
      var rest := MarkAll(NonBlank(ps[1..]));
      if p != "" {
        var ds := [p] + NonBlank(ps[1..]);
        assert NonBlank(ps) == ds && ds[1..] == NonBlank(ps[1..]);
        assert MarkAll(ds) == [Mark(p)] + rest;
        assert ([Mark(p)] + rest)[1..] == rest;
      } else {
        assert NonBlank(ps) == NonBlank(ps[1..]);
      }
    }
  }

  lemma {:induction false} NonBlankFixed(ds: seq<string>)
    requires forall i :: 0 <= i < |ds| ==> ds[i] != "" && Trim(ds[i]) == ds[i]
    ensures NonBlank(ds) == ds
  {
    if ds != [] {
      NonBlankFixed(ds[1..]);
      assert ds == [ds[0]] + ds[1..];
    }
  }

  lemma MarkTrimmed(d: string)
    requires d != "" && Trim(d) == d
    ensures Mark(d) != "" && Trim(Mark(d)) == Mark(d)
  {
    if !Marked(d) {
      var m := d + " !important";
      assert m[0] == d[0] && m[|m| - 1] == 't';
      TrimFixed(m);
    }
  }

  /** The rewritten style holds no comment, and its declarations are exactly the original ones,
      in order, each marked. */
  lemma DeclarationsMarked(css: string)
    ensures Strip(Sep, Importantify(css)) == Importantify(css)
    ensures Declarations(Importantify(css)) == MarkAll(Declarations(Strip(Sep, css)))
  {
    var t := Strip(Sep, css);
    var ds := Declarations(t);
    var ms := MarkAll(ds);
    StripLeavesNoComment(Sep, css);
    SplitGivesPieces(Sep, 0, t);
    MarkedPieces(Split(Sep, 0, t));
    if ms == [] {
      assert Split(Sep, 0, "") == [""];
      assert Trim("") == "";
    } else {
      JoinUndone(Sep, 0, ms);
      StripFixed(Sep, JoinSemi(ms));
      forall i | 0 <= i < |ms| ensures ms[i] != "" && Trim(ms[i]) == ms[i] { MarkTrimmed(ds[i]); }
      NonBlankFixed(ms);
    }
  }

  /** Rewriting a style twice is rewriting it once, on every string. */
  lemma ImportantifyIdempotent(css: string)
    ensures Importantify(Importantify(css)) == Importantify(css)
  {
    DeclarationsMarked(css);
    MarkAllTwice(Declarations(Strip(Sep, css)));
  }

  /** Every declaration of the rewritten style ends in a marker, and in one only unless the
      original already ended in several. */
  lemma EveryDeclarationMarked(css: string)
    ensures var before, after := Declarations(Strip(Sep, css)), Declarations(Importantify(css));
            && |after| == |before|
            && forall i :: 0 <= i < |before| ==>
                 var was := TrailingMarkers(before[i]);
                 TrailingMarkers(after[i]) == if was == 0 then 1 else was
  {
    DeclarationsMarked(css);
    var before := Declarations(Strip(Sep, css));
    forall i | 0 <= i < |before|
      ensures TrailingMarkers(Mark(before[i]))
           == if TrailingMarkers(before[i]) == 0 then 1 else TrailingMarkers(before[i])
    {
      MarkedOnce(before[i]);
    }
  }
}
