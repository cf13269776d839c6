/** Windows argument quoting: the encoder for one native argument, the backslash and quote rules of
    `CommandLineToArgvW` it must survive, and PowerShell's single-quoted strings around both. */
module WindowsQuoting {

  import opened Wrappers
  import opened Text

  // ---- how a native program splits its argument line ----------------------------------------

  predicate IsBlank(c: char) { c == ' ' || c == '\t' }

  function BackslashRun(s: string): (k: nat)
    ensures k <= |s|
  {
    if s != [] && s[0] == '\\' then 1 + BackslashRun(s[1..]) else 0
  }

  function Backslashes(k: nat): (r: string)
    ensures |r| == k && forall i :: 0 <= i < k ==> r[i] == '\\'
  {
    seq(k, _ => '\\')
  }

  /** What one step of reading yields: the text it adds, the characters it takes, and whether what
      follows is inside quotes. */
  datatype Chunk = Chunk(text: string, taken: nat, quoted: bool)

  /** An even run of backslashes before a quote is halved and the quote delimits; an odd run is
      halved and the quote is literal; two quotes inside quotes are one literal quote; other
      backslashes are literal. */
  function ChunkOf(s: string, quoted: bool): (c: Chunk)
    requires s != ""
    ensures 0 < c.taken <= |s|
  {
    var k := BackslashRun(s);
    if k < |s| && s[k] == '"' then
      if k % 2 == 1 then Chunk(Backslashes(k / 2) + "\"", k + 1, quoted)
      else if quoted && k + 1 < |s| && s[k + 1] == '"' then Chunk(Backslashes(k / 2) + "\"", k + 2, true)
      else Chunk(Backslashes(k / 2), k + 1, !quoted)
    else if k > 0 then Chunk(Backslashes(k), k, quoted)
    else Chunk([s[0]], 1, quoted)
  }

  /** One argument read from the front of `s`, and what follows it. */
  function ReadArg(s: string, quoted: bool): (r: (string, string))
    ensures |r.1| <= |s|
    ensures s != [] && (quoted || !IsBlank(s[0])) ==> |r.1| < |s|
    decreases |s|
  {
    if s == [] || (!quoted && IsBlank(s[0])) then ("", s)
    else
      var c := ChunkOf(s, quoted);
      var (v, rest) := ReadArg(s[c.taken..], c.quoted);
      (c.text + v, rest)
  }

  /** The whole argument line. */
  function ParseArgs(s: string): seq<string>
    decreases |s|
  {
    if s == [] then []
    else if IsBlank(s[0]) then ParseArgs(s[1..])
    else
      var (v, rest) := ReadArg(s, false);
      [v] + ParseArgs(rest)
  }

  // ---- the encoder --------------------------------------------------------------------------

  predicate PlainArg(value: string) {
    value != "" && forall i :: 0 <= i < |value| ==> !IsSpace(value[i]) && value[i] != '"'
  }

  /** The text between the quotes, with `pending` backslashes seen and not yet written. */
  function QuotedBody(value: string, pending: nat): string {
    if value == [] then Backslashes(2 * pending)
    else if value[0] == '\\' then QuotedBody(value[1..], pending + 1)
    else if value[0] == '"' then Backslashes(2 * pending + 1) + "\"" + QuotedBody(value[1..], 0)
    else Backslashes(pending) + [value[0]] + QuotedBody(value[1..], 0)
  }

  function NativeArg(value: string): string {
    if PlainArg(value) then value else "\"" + QuotedBody(value, 0) + "\""
  }

  /** What one character adds to the text written, and the backslashes pending after it. */
  function BodyPiece(c: char, pending: nat): (string, nat) {
    if c == '\\' then ("", pending + 1)
    else if c == '"' then (Backslashes(pending * 2 + 1) + "\"", 0)
    else (Backslashes(pending) + [c], 0)
  }

  lemma BodyStep(total: string, arg: string, value: string, i: nat, pending: nat)
    requires i < |value| && total == arg + QuotedBody(value[i..], pending)
    ensures var (piece, after) := BodyPiece(value[i], pending);
            total == (arg + piece) + QuotedBody(value[i + 1..], after)
  {
    assert value[i..][0] == value[i] && value[i..][1..] == value[i + 1..];
    assert arg + "" == arg;
  }

  /** The source's loop over the characters. */
  method WindowsNativeArg(value: string) returns (arg: string)
    ensures arg == NativeArg(value)
  {
    if value != "" && forall i :: 0 <= i < |value| ==> !IsSpace(value[i]) && value[i] != '"' {
      return value;
    }
    arg := "\"";
    var backslashes := 0;
    ghost var total := "\"" + QuotedBody(value, 0);
    assert value[0..] == value;
    for i := 0 to |value|
      invariant total == arg + QuotedBody(value[i..], backslashes)
    {
      BodyStep(total, arg, value, i, backslashes);
      if value[i] == '\\' {
        backslashes := backslashes + 1;
        assert arg + "" == arg;
      } else if value[i] == '"' {
        arg := arg + (Backslashes(backslashes * 2 + 1) + "\"");
        backslashes := 0;
      } else {
        arg := arg + (Backslashes(backslashes) + [value[i]]);
        backslashes := 0;
      }
    }
    arg := arg + Backslashes(backslashes * 2) + "\"";
  }

  // ---- the round trip -----------------------------------------------------------------------

  /** A run is found whole when something else follows it. */
  lemma {:induction false} RunOf(run: string, rest: string)
    requires forall i :: 0 <= i < |run| ==> run[i] == '\\'
    requires rest == [] || rest[0] != '\\'
    ensures BackslashRun(run + rest) == |run|
  {
    if run == [] {
      assert run + rest == rest;
    } else {
      assert (run + rest)[1..] == run[1..] + rest;
      RunOf(run[1..], rest);
    }
  }

  /** What can follow an argument in a joined line. */
  predicate EndsArg(tail: string) { tail == [] || tail[0] == ' ' }

  /** One step of reading, the rest being read already. */
  lemma ReadStep(s: string, quoted: bool, c: Chunk, v: string, rest: string)
    requires s != "" && (quoted || !IsBlank(s[0])) && c == ChunkOf(s, quoted)
    requires ReadArg(s[c.taken..], c.quoted) == (v, rest)
    ensures ReadArg(s, quoted) == (c.text + v, rest)
  {
  }

  /** An even run before the closing quote: half the backslashes, and the argument ends. */
  lemma ReadClose(k: nat, tail: string)
    requires EndsArg(tail)
    ensures ReadArg(Backslashes(2 * k) + ("\"" + tail), true) == (Backslashes(k), tail)
  {
    var s := Backslashes(2 * k) + ("\"" + tail);
    RunOf(Backslashes(2 * k), "\"" + tail);
    assert s[2 * k + 1..] == tail;
    assert ReadArg(tail, false) == ("", tail);
    ReadStep(s, true, Chunk(Backslashes(k), 2 * k + 1, false), "", tail);
    assert Backslashes(k) + "" == Backslashes(k);
  }

  /** An odd run before a quote: half the backslashes, then the quote itself. */
  lemma ReadEscapedQuote(s: string, run: string, text: string, k: nat, more: string, v: string, rest: string)
    requires run == Backslashes(2 * k + 1) && text == Backslashes(k) + "\""
    requires s == run + ("\"" + more) && ReadArg(more, true) == (v, rest)
    ensures ReadArg(s, true) == (text + v, rest)
  {
    QuoteAfter(s, run, more);
    OddChunk(s, k, text);
    ReadStep(s, true, Chunk(text, 2 * k + 2, true), v, rest);
  }

  lemma OddChunk(s: string, k: nat, text: string)
    requires BackslashRun(s) == 2 * k + 1 < |s| && s[2 * k + 1] == '"' && text == Backslashes(k) + "\""
    ensures ChunkOf(s, true) == Chunk(text, 2 * k + 2, true)
  {
    assert (2 * k + 1) / 2 == k;
  }

  lemma QuoteAfter(s: string, run: string, more: string)
    requires s == run + ("\"" + more) && forall i :: 0 <= i < |run| ==> run[i] == '\\'
    ensures BackslashRun(s) == |run| < |s| && s[|run|] == '"' && s[|run| + 1..] == more
  {
    RunOf(run, "\"" + more);
  }

  lemma ReadOrdinary(s: string, quoted: bool, v: string, rest: string)
    requires s != "" && s[0] != '\\' && s[0] != '"' && (quoted || !IsBlank(s[0]))
    requires ReadArg(s[1..], quoted) == (v, rest)
    ensures ReadArg(s, quoted) == ([s[0]] + v, rest)
  {
    assert BackslashRun(s) == 0;
    ReadStep(s, quoted, Chunk([s[0]], 1, quoted), v, rest);
  }

  lemma LiteralRun(s: string, k: nat, here: string, quoted: bool, v: string, rest: string)
    requires k > 0 && s == Backslashes(k) + here && ReadArg(here, quoted) == (v, rest)
    requires here != "" ==> here[0] != '\\' && here[0] != '"'
    ensures ReadArg(s, quoted) == (Backslashes(k) + v, rest)
  {
    RunOf(Backslashes(k), here);
    assert s[k..] == here && s[0] == '\\';
    assert k < |s| ==> s[k] == here[0];
    ReadStep(s, quoted, Chunk(Backslashes(k), k, quoted), v, rest);
  }

  /** A run before any other character is literal. */
  lemma ReadLiteral(s: string, k: nat, c: char, more: string, v: string, rest: string)
    requires c != '\\' && c != '"'
    requires s == Backslashes(k) + ([c] + more) && ReadArg(more, true) == (v, rest)
    ensures ReadArg(s, true) == (Backslashes(k) + [c] + v, rest)
  {
    var here := [c] + more;
    assert here[1..] == more;
    ReadOrdinary(here, true, v, rest);
    Associate(Backslashes(k), [c], v);
    if k == 0 {
      assert s == here && Backslashes(k) + ([c] + v) == [c] + v;
    } else {
      LiteralRun(s, k, here, true, [c] + v, rest);
    }
  }

  lemma {:induction false} ReadQuotedBody(value: string, pending: nat, tail: string)
    requires EndsArg(tail)
    ensures ReadArg(QuotedBody(value, pending) + ("\"" + tail), true) == (Backslashes(pending) + value, tail)
    decreases |value|
  {
    if value == [] {
      ReadClose(pending, tail);
      assert Backslashes(pending) + value == Backslashes(pending);
    } else if value[0] == '\\' {
      ReadQuotedBody(value[1..], pending + 1, tail);
      RunGrows(pending, value);
    } else {
      ReadQuotedBody(value[1..], 0, tail);
      assert Backslashes(0) + value[1..] == value[1..];
      Regroup(Backslashes(pending), value);
      ReadQuotedStep(value, pending, tail);
    }
  }

  lemma ReadQuotedStep(value: string, pending: nat, tail: string)
    requires value != [] && value[0] != '\\'
    requires ReadArg(QuotedBody(value[1..], 0) + ("\"" + tail), true) == (value[1..], tail)
    ensures ReadArg(QuotedBody(value, pending) + ("\"" + tail), true)
            == (Backslashes(pending) + [value[0]] + value[1..], tail)
  {
    var s := QuotedBody(value, pending) + ("\"" + tail);
    var more := QuotedBody(value[1..], 0) + ("\"" + tail);
    if value[0] == '"' {
      BodyQuote(value, pending, "\"" + tail);
      var run, text := Backslashes(2 * pending + 1), Backslashes(pending) + "\"";
      ReadEscapedQuote(s, run, text, pending, more, value[1..], tail);
    } else {
      BodyOther(value, pending, "\"" + tail);
      ReadLiteral(s, pending, value[0], more, value[1..], tail);
    }
  }

  lemma Regroup(p: string, value: string)
    requires value != []
    ensures p + value == p + [value[0]] + value[1..]
  {
  }

  lemma RunGrows(k: nat, value: string)
    requires value != [] && value[0] == '\\'
    ensures Backslashes(k) + value == Backslashes(k + 1) + value[1..]
  {
  }

  lemma BodyQuote(value: string, pending: nat, end: string)
    requires value != [] && value[0] == '"'
    ensures QuotedBody(value, pending) + end
            == Backslashes(2 * pending + 1) + ("\"" + (QuotedBody(value[1..], 0) + end))
  {
  }

  lemma BodyOther(value: string, pending: nat, end: string)
    requires value != [] && value[0] != '"' && value[0] != '\\'
    ensures QuotedBody(value, pending) + end
            == Backslashes(pending) + ([value[0]] + (QuotedBody(value[1..], 0) + end))
  {
  }

  /** A string of plain characters split after its leading backslashes. */
  lemma RunSplit(value: string, tail: string, k: nat)
    requires k == BackslashRun(value)
    ensures value == Backslashes(k) + value[k..]
    ensures value + tail == Backslashes(k) + (value[k..] + tail)
    ensures k < |value| ==> value[k] != '\\'
  {
    LeadingRun(value);
    RunStops(value);
    Associate(Backslashes(k), value[k..], tail);
  }

  lemma FirstSplit(value: string, tail: string)
    requires value != ""
    ensures value == [value[0]] + value[1..] && (value + tail)[0] == value[0]
    ensures (value + tail)[1..] == value[1..] + tail
  {
  }

  lemma {:induction false} ReadPlain(value: string, tail: string, s: string)
    requires EndsArg(tail) && s == value + tail
    requires forall i :: 0 <= i < |value| ==> !IsSpace(value[i]) && value[i] != '"'
    ensures ReadArg(s, false) == (value, tail)
    decreases |value|
  {
    if value == [] {
      assert s == tail;
    } else if value[0] == '\\' {
      var k := BackslashRun(value);
      var here := value[k..] + tail;
      RunSplit(value, tail, k);
      ReadPlain(value[k..], tail, here);
      LiteralRun(s, k, here, false, value[k..], tail);
    } else {
      FirstSplit(value, tail);
      ReadPlain(value[1..], tail, s[1..]);
      ReadOrdinary(s, false, value[1..], tail);
    }
  }

  lemma {:induction false} RunStops(value: string)
    ensures BackslashRun(value) < |value| ==> value[BackslashRun(value)] != '\\'
  {
    if value != [] && value[0] == '\\' { RunStops(value[1..]); }
  }

  lemma {:induction false} LeadingRun(value: string)
    ensures value == Backslashes(BackslashRun(value)) + value[BackslashRun(value)..]
  {
    if value != [] && value[0] == '\\' {
      LeadingRun(value[1..]);
      assert value == "\\" + value[1..];
    }
  }

  lemma OpenQuote(more: string)
    ensures ReadArg("\"" + more, false) == ReadArg(more, true)
  {
    var s := "\"" + more;
    assert BackslashRun(s) == 0 && s[1..] == more;
    var (v, rest) := ReadArg(more, true);
    ReadStep(s, false, Chunk(Backslashes(0), 1, true), v, rest);
    assert Backslashes(0) + v == v;
  }

  lemma ReadNativeArg(value: string, tail: string)
    requires EndsArg(tail)
    ensures ReadArg(NativeArg(value) + tail, false) == (value, tail)
  {
    if PlainArg(value) {
      ReadPlain(value, tail, value + tail);
    } else {
      var more := QuotedBody(value, 0) + ("\"" + tail);
      assert NativeArg(value) + tail == "\"" + more;
      OpenQuote(more);
      ReadQuotedBody(value, 0, tail);
      assert Backslashes(0) + value == value;
    }
  }

  function NativeArgs(args: seq<string>): (r: seq<string>)
    ensures |r| == |args|
  {
    if args == [] then [] else [NativeArg(args[0])] + NativeArgs(args[1..])
  }

  function ArgumentLine(args: seq<string>): string { JoinSpaced(NativeArgs(args)) }

  lemma NativeArgStarts(value: string)
    ensures NativeArg(value) != "" && !IsBlank(NativeArg(value)[0])
  {
  }

  /** Every argument list survives being encoded, joined with spaces and split again. */
  lemma {:induction false} ArgumentLineRoundTrip(args: seq<string>)
    ensures ParseArgs(ArgumentLine(args)) == args
  {
    if args != [] {
      var rest := NativeArgs(args[1..]);
      var tail := if |args| == 1 then "" else " " + JoinSpaced(rest);
      assert NativeArgs(args)[1..] == rest;
      assert ArgumentLine(args) == NativeArg(args[0]) + tail;
      NativeArgStarts(args[0]);
      ReadNativeArg(args[0], tail);
      assert (NativeArg(args[0]) + tail)[0] == NativeArg(args[0])[0];
      ArgumentLineRoundTrip(args[1..]);
      if |args| > 1 { assert tail[1..] == JoinSpaced(rest); }
      assert args == [args[0]] + args[1..];
    }
  }

  // ---- PowerShell's single-quoted strings ---------------------------------------------------

  /** The Unicode quotes PowerShell reads as a single quote. */
  const CURLY: set<char> := {'\U{2018}', '\U{2019}', '\U{201A}', '\U{201B}'}
  const STRAIGHT: set<char> := {'\''}

  predicate IsPsQuote(c: char) { c in CURLY + STRAIGHT }

  /** The rest of a single-quoted string after its opening quote: any two quotes in a row stand for
      the second, and a lone quote ends the string. */
  function ReadPsBody(s: string): (r: Option<(string, string)>)
    ensures r.Some? ==> |r.value.1| < |s|
  {
    if s == [] then None
    else if IsPsQuote(s[0]) then
      if |s| > 1 && IsPsQuote(s[1]) then
        match ReadPsBody(s[2..])
        case Some((v, rest)) => Some(([s[1]] + v, rest))
        case None => None
      else Some(("", s[1..]))
    else
      match ReadPsBody(s[1..])
      case Some((v, rest)) => Some(([s[0]] + v, rest))
      case None => None
  }

  function ReadPsString(s: string): (r: Option<(string, string)>)
    ensures r.Some? ==> |r.value.1| < |s|
  {
    if s != [] && IsPsQuote(s[0]) then ReadPsBody(s[1..]) else None
  }

  function Doubled(value: string): string {
    if value == [] then ""
    else (if value[0] == '\'' then "''" else [value[0]]) + Doubled(value[1..])
  }

  function PowershellQuote(value: string): string { "'" + Doubled(value) + "'" }

  predicate NoCurly(value: string) { forall i :: 0 <= i < |value| ==> value[i] !in CURLY }

  lemma ReadClosing(s: string, tail: string)
    requires s == ['\''] + tail && (tail == [] || !IsPsQuote(tail[0]))
    ensures ReadPsBody(s) == Some(([], tail))
  {
    assert s[1..] == tail;
  }

  lemma ReadOneBack(s: string, value: string, tail: string, more: string)
    requires value != [] && NoCurly(value) && ReadPsBody(more) == Some((value[1..], tail))
    requires s == (if value[0] == '\'' then "''" else [value[0]]) + more
    ensures ReadPsBody(s) == Some((value, tail))
  {
    assert value == [value[0]] + value[1..];
    if value[0] == '\'' {
      assert s[1..][1..] == more && s[2..] == more;
    } else {
      assert s[1..] == more;
    }
  }

  lemma {:induction false} ReadDoubled(value: string, tail: string)
    requires NoCurly(value) && (tail == [] || !IsPsQuote(tail[0]))
    ensures ReadPsBody(Doubled(value) + "'" + tail) == Some((value, tail))
  {
    if value == [] {
      assert Doubled(value) + "'" + tail == ['\''] + tail;
      ReadClosing(['\''] + tail, tail);
    } else {
      ReadDoubled(value[1..], tail);
      var more := Doubled(value[1..]) + "'" + tail;
      var c := if value[0] == '\'' then "''" else [value[0]];
      assert Doubled(value) + "'" + tail == c + more;
      ReadOneBack(c + more, value, tail, more);
    }
  }

  lemma ReadPowershellQuote(value: string, tail: string)
    requires NoCurly(value) && (tail == [] || !IsPsQuote(tail[0]))
    ensures ReadPsString(PowershellQuote(value) + tail) == Some((value, tail))
  {
    assert (PowershellQuote(value) + tail)[1..] == Doubled(value) + "'" + tail;
    ReadDoubled(value, tail);
  }

  // Counting quotes shows that nothing but the absence of curly quotes can save the round trip.

  lemma {:induction false} PsBodyCounts(s: string)
    requires ReadPsBody(s).Some?
    ensures var (v, rest) := ReadPsBody(s).value;
            Count(s, CURLY + STRAIGHT) == 2 * Count(v, CURLY + STRAIGHT) + 1 + Count(rest, CURLY + STRAIGHT)
  {
    var k := CURLY + STRAIGHT;
    if IsPsQuote(s[0]) {
      if |s| > 1 && IsPsQuote(s[1]) {
        PsBodyCounts(s[2..]);
        assert s[1..][1..] == s[2..];
        var (v, rest) := ReadPsBody(s[2..]).value;
        assert ([s[1]] + v)[1..] == v;
      }
    } else {
      PsBodyCounts(s[1..]);
      var (v, rest) := ReadPsBody(s[1..]).value;
      assert ([s[0]] + v)[1..] == v;
    }
  }

  lemma {:induction false} DoubledCounts(value: string)
    ensures Count(Doubled(value), CURLY + STRAIGHT) == Count(value, CURLY + STRAIGHT) + Count(value, STRAIGHT)
  {
    if value != [] {
      DoubledCounts(value[1..]);
      var k := CURLY + STRAIGHT;
      var d := Doubled(value[1..]);
      if value[0] == '\'' {
        assert ("''" + d)[1..] == "'" + d && ("'" + d)[1..] == d;
      } else {
        assert ([value[0]] + d)[1..] == d;
      }
    }
  }

  /** Reading a PowerShell-quoted string gives it back exactly when it holds no curly quote. */
  lemma PowershellQuoteExact(value: string)
    ensures ReadPsString(PowershellQuote(value)) == Some((value, "")) <==> NoCurly(value)
  {
    if NoCurly(value) {
      ReadPowershellQuote(value, "");
      assert PowershellQuote(value) + "" == PowershellQuote(value);
    }
    if ReadPsString(PowershellQuote(value)) == Some((value, "")) {
      QuotesOnlyStraight(value, value);
    }
  }

  /** If reading the quoted `value` leaves a string with as many quotes as `value`, none was curly. */
  lemma QuotesOnlyStraight(value: string, read: string)
    requires ReadPsString(PowershellQuote(value)) == Some((read, ""))
    requires Count(read, CURLY + STRAIGHT) == Count(value, CURLY + STRAIGHT)
    ensures NoCurly(value)
  {
    PsStringCounts(PowershellQuote(value));
    QuotedCounts(value);
    CountZero(value, CURLY);
  }

  lemma PsStringCounts(s: string)
    requires ReadPsString(s).Some?
    ensures var (v, rest) := ReadPsString(s).value;
            Count(s, CURLY + STRAIGHT) == 2 * Count(v, CURLY + STRAIGHT) + 2 + Count(rest, CURLY + STRAIGHT)
  {
    PsBodyCounts(s[1..]);
  }

  /** A quoted text holds two quotes for each of its own, but only one for each that is curly. */
  lemma QuotedCounts(value: string)
    ensures Count(PowershellQuote(value), CURLY + STRAIGHT) + Count(value, CURLY)
         == 2 * Count(value, CURLY + STRAIGHT) + 2
  {
    var k := CURLY + STRAIGHT;
    CountConcat("'" + Doubled(value), "'", k);
    CountConcat("'", Doubled(value), k);
    assert "'"[1..] == "";
    DoubledCounts(value);
    CountSplit(value, CURLY, STRAIGHT);
  }

  // ---- both encodings together --------------------------------------------------------------

  /** Characters that mean nothing to the argument splitter, so that splitting only moves them. */
  predicate Inert(k: set<char>) { {' ', '\t', '"', '\\'} !! k }

  lemma BackslashesCount(n: nat, k: set<char>)
    requires Inert(k)
    ensures Count(Backslashes(n), k) == 0
  {
    CountZero(Backslashes(n), k);
  }

  function TotalCount(args: seq<string>, k: set<char>): nat {
    if args == [] then 0 else Count(args[0], k) + TotalCount(args[1..], k)
  }

  lemma ChunkCounts(s: string, quoted: bool, k: set<char>)
    requires Inert(k) && s != ""
    ensures var c := ChunkOf(s, quoted); Count(s, k) == Count(c.text, k) + Count(s[c.taken..], k)
  {
    var n := BackslashRun(s);
    LeadingRun(s);
    BackslashesCount(n, k);
    CountConcat(Backslashes(n), s[n..], k);
    if n < |s| && s[n] == '"' {
      QuoteChunkCounts(s, quoted, k, n);
    } else if n == 0 {
      assert [s[0]][1..] == "";
    }
  }

  lemma QuoteChunkCounts(s: string, quoted: bool, k: set<char>, n: nat)
    requires Inert(k) && n < |s| && n == BackslashRun(s) && s[n] == '"'
    ensures var c := ChunkOf(s, quoted); Count(s[n..], k) == Count(c.text, k) + Count(s[c.taken..], k)
  {
    assert s[n..][1..] == s[n + 1..];
    BackslashesCount(n / 2, k);
    CountConcat(Backslashes(n / 2), "\"", k);
    assert "\""[1..] == "" && Count("\"", k) == 0;
    if n + 1 < |s| && s[n + 1] == '"' { assert s[n + 1..][1..] == s[n + 2..]; }
  }

  lemma {:induction false} ReadArgCounts(s: string, quoted: bool, k: set<char>)
    requires Inert(k)
    ensures Count(s, k) == Count(ReadArg(s, quoted).0, k) + Count(ReadArg(s, quoted).1, k)
    decreases |s|
  {
    if s != [] && (quoted || !IsBlank(s[0])) {
      var c := ChunkOf(s, quoted);
      ChunkCounts(s, quoted, k);
      ReadArgCounts(s[c.taken..], c.quoted, k);
      CountConcat(c.text, ReadArg(s[c.taken..], c.quoted).0, k);
    }
  }

  lemma {:induction false} ParseArgsCounts(s: string, k: set<char>)
    requires Inert(k)
    ensures TotalCount(ParseArgs(s), k) == Count(s, k)
    decreases |s|
  {
    if s == [] {
    } else if IsBlank(s[0]) {
      ParseArgsCounts(s[1..], k);
    } else {
      var (v, rest) := ReadArg(s, false);
      ReadArgCounts(s, false, k);
      ParseArgsCounts(rest, k);
      assert ([v] + ParseArgs(rest))[1..] == ParseArgs(rest);
    }
  }

  predicate NoneCurly(args: seq<string>) { forall i :: 0 <= i < |args| ==> NoCurly(args[i]) }

  lemma {:induction false} CurlyInLine(args: seq<string>)
    ensures NoneCurly(args) <==> TotalCount(args, CURLY) == 0
  {
    if args != [] {
      CurlyInLine(args[1..]);
      CountZero(args[0], CURLY);
      if TotalCount(args, CURLY) == 0 {
        forall i | 0 <= i < |args| ensures NoCurly(args[i]) {
          if i > 0 { assert args[i] == args[1..][i - 1]; }
        }
      }
    }
  }

  /** The argument list a native program receives when PowerShell passes it the quoted line. */
  function Delivered(args: seq<string>): Option<seq<string>> {
    match ReadPsString(PowershellQuote(ArgumentLine(args)))
    case Some((line, rest)) => if rest == "" then Some(ParseArgs(line)) else None
    case None => None
  }

  lemma LineCurly(args: seq<string>)
    ensures NoCurly(ArgumentLine(args)) <==> NoneCurly(args)
  {
    ArgumentLineRoundTrip(args);
    ParseArgsCounts(ArgumentLine(args), CURLY);
    CurlyInLine(args);
    CountZero(ArgumentLine(args), CURLY);
  }

  /** The argument list arrives intact exactly when no argument holds a curly quote. */
  lemma DeliveredExactly(args: seq<string>)
    ensures Delivered(args) == Some(args) <==> NoneCurly(args)
  {
    var line := ArgumentLine(args);
    LineCurly(args);
    PowershellQuoteExact(line);
    ArgumentLineRoundTrip(args);
    if Delivered(args) == Some(args) {
      var (read, rest) := ReadPsString(PowershellQuote(line)).value;
      ParseArgsCounts(read, CURLY + STRAIGHT);
      ParseArgsCounts(line, CURLY + STRAIGHT);
      QuotesOnlyStraight(line, read);
    }
  }
}
