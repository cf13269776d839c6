/** The launch command for each shell, and what that shell reads back from it: the POSIX quoting
    rules of the Shell Command Language, and PowerShell's reading of its own script. */
module LaunchCommand {

  import opened Wrappers
  import opened Text
  import opened WindowsQuoting

  datatype LaunchError = InvalidIntent | AgentUnavailable | UnsupportedShell
  datatype ExecutableKind = Native | PowershellScript | CmdScript

  const MAX_PORTABLE_POSIX_ARGUMENT_BYTES: nat := 30_000
  const MAX_PORTABLE_POSIX_COMMAND_BYTES: nat := 32_000
  const MAX_WINDOWS_COMMAND_LINE: nat := 32_700

  // ---- POSIX --------------------------------------------------------------------------------

  /** Characters that, unquoted, call for rules beyond quoting and field splitting. */
  predicate IsShellSpecial(c: char) {
    c in {'|', '&', ';', '<', '>', '(', ')', '$', '`', '"', '*', '?', '[', ']', '#', '~', '=', '%',
          '{', '}', '!', '\n', '\0'}
  }

  /** The words of a command, by sections 2.2.1, 2.2.2 and 2.3 of the POSIX.1-2017 Shell Command
      Language: a backslash keeps the next character literal (a backslash-newline disappears), single
      quotes keep everything up to the next one, and unquoted blanks delimit. A command that needs
      any other rule, or that is incomplete, has no words here. `word` is the word begun, if any. */
  function ShellWords(s: string, word: Option<string>, quoted: bool): Option<seq<string>> {
    if s == [] then
      if quoted then None else Some(if word.Some? then [word.value] else [])
    else
      var sofar := if word.Some? then word.value else "";
      if quoted then
        if s[0] == '\'' then ShellWords(s[1..], Some(sofar), false)
        else if s[0] == '\0' then None
        else ShellWords(s[1..], Some(sofar + [s[0]]), true)
      else if s[0] == ' ' || s[0] == '\t' then
        match ShellWords(s[1..], None, false)
        case Some(words) => Some((if word.Some? then [word.value] else []) + words)
        case None => None
      else if s[0] == '\'' then ShellWords(s[1..], Some(sofar), true)
      else if s[0] == '\\' then
        if |s| == 1 || s[1] == '\0' then None
        else if s[1] == '\n' then ShellWords(s[2..], word, false)
        else ShellWords(s[2..], Some(sofar + [s[1]]), false)
      else if IsShellSpecial(s[0]) then None
      else ShellWords(s[1..], Some(sofar + [s[0]]), false)
  }

  function EscapedQuotes(value: string): string {
    if value == [] then ""
    else (if value[0] == '\'' then "'\\''" else [value[0]]) + EscapedQuotes(value[1..])
  }

  function PosixQuote(value: string): string { "'" + EscapedQuotes(value) + "'" }

  function PosixQuoteAll(tokens: seq<string>): (r: seq<string>)
    ensures |r| == |tokens|
  {
    if tokens == [] then [] else [PosixQuote(tokens[0])] + PosixQuoteAll(tokens[1..])
  }

  predicate NoNul(value: string) { forall i :: 0 <= i < |value| ==> value[i] != '\0' }

  lemma QuoteCloses(s: string, word: string)
    requires s != "" && s[0] == '\''
    ensures ShellWords(s, Some(word), true) == ShellWords(s[1..], Some(word), false)
  {
  }

  /** Quotes closed, an escaped quote, and quotes opened again. */
  lemma QuoteEscaped(s: string, more: string, word: string)
    requires s == "'\\''" + more
    ensures ShellWords(s, Some(word), true) == ShellWords(more, Some(word + "'"), true)
  {
    var outside := s[1..];
    var reopened := outside[2..];
    assert outside == "\\''" + more && reopened == "'" + more && reopened[1..] == more;
    QuoteCloses(s, word);
    assert ShellWords(outside, Some(word), false) == ShellWords(reopened, Some(word + "'"), false);
  }

  lemma QuoteKeeps(s: string, word: string)
    requires s != "" && s[0] != '\''
    ensures ShellWords(s, Some(word), true)
         == if s[0] == '\0' then None else ShellWords(s[1..], Some(word + [s[0]]), true)
  {
  }

  lemma EscapedSplit(value: string, tail: string)
    requires value != ""
    ensures EscapedQuotes(value) + "'" + tail
         == (if value[0] == '\'' then "'\\''" else [value[0]]) + (EscapedQuotes(value[1..]) + "'" + tail)
  {
    var front, rest := if value[0] == '\'' then "'\\''" else [value[0]], EscapedQuotes(value[1..]);
    Associate(front, rest, "'");
    Associate(front, rest + "'", tail);
  }

  lemma NoNulSplit(value: string)
    requires value != ""
    ensures NoNul(value) <==> value[0] != '\0' && NoNul(value[1..])
  {
    assert forall i :: 0 < i < |value| ==> value[i] == value[1..][i - 1];
  }

  /** Inside quotes, the escaped text of `value` adds exactly `value` to the word, and only a NUL can
      stop it. */
  lemma {:induction false} InsideQuotes(value: string, before: string, tail: string, s: string)
    requires s == EscapedQuotes(value) + "'" + tail
    ensures ShellWords(s, Some(before), true)
            == if NoNul(value) then ShellWords(tail, Some(before + value), false) else None
    decreases |value|
  {
    if value == [] {
      QuoteCloses(s, before);
      assert s[1..] == tail && before + value == before;
    } else {
      var more := EscapedQuotes(value[1..]) + "'" + tail;
      EscapedSplit(value, tail);
      NoNulSplit(value);
      InsideQuotes(value[1..], before + [value[0]], tail, more);
      assert before + [value[0]] + value[1..] == before + value;
      if value[0] == '\'' {
        QuoteEscaped(s, more, before);
      } else {
        assert s[1..] == more;
        QuoteKeeps(s, before);
      }
    }
  }

  lemma QuotedToken(value: string, tail: string)
    ensures ShellWords(PosixQuote(value) + tail, None, false)
            == if NoNul(value) then ShellWords(tail, Some(value), false) else None
  {
    var s := PosixQuote(value) + tail;
    assert s[1..] == EscapedQuotes(value) + "'" + tail;
    InsideQuotes(value, "", tail, s[1..]);
    assert "" + value == value;
  }

  lemma SpaceDelimits(word: string, rest: string)
    ensures ShellWords(" " + rest, Some(word), false)
            == match ShellWords(rest, None, false)
               case Some(words) => Some([word] + words)
               case None => None
  {
    assert (" " + rest)[1..] == rest;
  }

  predicate NoneNul(tokens: seq<string>) { forall i :: 0 <= i < |tokens| ==> NoNul(tokens[i]) }

  lemma JoinedFirst(tokens: seq<string>)
    requires tokens != []
    ensures var quoted := PosixQuoteAll(tokens);
            JoinSpaced(quoted)
            == PosixQuote(tokens[0]) + (if |tokens| == 1 then "" else " " + JoinSpaced(PosixQuoteAll(tokens[1..])))
  {
    var quoted, rest := PosixQuoteAll(tokens), PosixQuoteAll(tokens[1..]);
    assert quoted[0] == PosixQuote(tokens[0]) && quoted[1..] == rest;
    JoinFirst(quoted, rest);
  }

  lemma JoinFirst(parts: seq<string>, rest: seq<string>)
    requires parts != [] && rest == parts[1..]
    ensures JoinSpaced(parts) == parts[0] + (if |parts| == 1 then "" else " " + JoinSpaced(rest))
  {
    Associate(parts[0], " ", JoinSpaced(rest));
    assert parts[0] + "" == parts[0];
  }

  lemma NoneNulSplit(tokens: seq<string>)
    requires tokens != []
    ensures NoneNul(tokens) <==> NoNul(tokens[0]) && NoneNul(tokens[1..])
  {
    assert forall i :: 0 < i < |tokens| ==> tokens[i] == tokens[1..][i - 1];
  }

  /** The joined quoted tokens are split back into exactly the tokens, unless one holds a NUL, which
      no command can carry. */
  lemma {:induction false} PosixRoundTrip(tokens: seq<string>)
    ensures ShellWords(JoinSpaced(PosixQuoteAll(tokens)), None, false)
            == if NoneNul(tokens) then Some(tokens) else None
  {
    if tokens != [] {
      var more := JoinSpaced(PosixQuoteAll(tokens[1..]));
      PosixRoundTrip(tokens[1..]);
      JoinedFirst(tokens);
      NoneNulSplit(tokens);
      assert tokens == [tokens[0]] + tokens[1..];
      if |tokens| == 1 {
        QuotedToken(tokens[0], "");
        assert tokens == [tokens[0]];
      } else {
        QuotedToken(tokens[0], " " + more);
        SpaceDelimits(tokens[0], more);
      }
    }
  }

  predicate TokensFit(tokens: seq<string>) {
    forall i :: 0 <= i < |tokens| ==> Utf8Length(tokens[i]) <= MAX_PORTABLE_POSIX_ARGUMENT_BYTES
  }

  /** The POSIX leg of preparing a launch. */
  function PreparePosix(executable: string, args: seq<string>): Result<string, LaunchError> {
    var tokens := [executable] + args;
    var command := JoinSpaced(PosixQuoteAll(tokens));
    if !TokensFit(tokens) then Err(InvalidIntent)
    else if Utf8Length(command) > MAX_PORTABLE_POSIX_COMMAND_BYTES then Err(InvalidIntent)
    else Ok(command)
  }

  lemma {:induction false} QuotedLength(value: string)
    ensures Utf8Length(PosixQuote(value)) == Utf8Length(value) + 3 * Count(value, {'\''}) + 2
  {
    EscapedLength(value);
    Utf8LengthConcat("'" + EscapedQuotes(value), "'");
    Utf8LengthConcat("'", EscapedQuotes(value));
    assert "'"[1..] == "";
  }

  lemma FourBytes()
    ensures Utf8Length("'\\''") == 4
  {
    assert "'\\''"[1..] == "\\''" && "\\''"[1..] == "''" && "''"[1..] == "'" && "'"[1..] == "";
  }

  lemma {:induction false} EscapedLength(value: string)
    ensures Utf8Length(EscapedQuotes(value)) == Utf8Length(value) + 3 * Count(value, {'\''})
  {
    if value != [] {
      EscapedLength(value[1..]);
      var e := EscapedQuotes(value[1..]);
      if value[0] == '\'' {
        Utf8LengthConcat("'\\''", e);
        FourBytes();
      } else {
        assert ([value[0]] + e)[1..] == e;
      }
    }
  }

  /** The bytes of the command: each token's own, three more for each quote in it, its two quotes, and
      a space between tokens. */
  function CommandBytes(tokens: seq<string>): nat {
    if tokens == [] then 0
    else Utf8Length(tokens[0]) + 3 * Count(tokens[0], {'\''}) + 2
         + (if |tokens| == 1 then 0 else 1 + CommandBytes(tokens[1..]))
  }

  lemma {:induction false} CommandLength(tokens: seq<string>)
    ensures Utf8Length(JoinSpaced(PosixQuoteAll(tokens))) == CommandBytes(tokens)
  {
    if tokens != [] {
      QuotedLength(tokens[0]);
      if |tokens| > 1 {
        var rest := JoinSpaced(PosixQuoteAll(tokens[1..]));
        CommandLength(tokens[1..]);
        assert PosixQuoteAll(tokens)[1..] == PosixQuoteAll(tokens[1..]);
        Utf8LengthConcat(PosixQuote(tokens[0]) + " ", rest);
        Utf8LengthConcat(PosixQuote(tokens[0]), " ");
        assert " "[1..] == "";
      }
    }
  }

  /** A launch is refused exactly when a token or the whole command is too long, and a command that is
      produced is read by the shell as the executable followed by the arguments. */
  lemma PosixLaunch(executable: string, args: seq<string>)
    requires NoneNul([executable] + args)
    ensures PreparePosix(executable, args).Ok?
            <==> TokensFit([executable] + args)
                 && CommandBytes([executable] + args) <= MAX_PORTABLE_POSIX_COMMAND_BYTES
    ensures PreparePosix(executable, args).Ok? ==>
              ShellWords(PreparePosix(executable, args).value, None, false) == Some([executable] + args)
  {
    CommandLength([executable] + args);
    PosixRoundTrip([executable] + args);
  }

  // ---- PowerShell ---------------------------------------------------------------------------

  const START: string := "$ntAgent = Start-Process -FilePath "
  const ARGUMENT_LIST: string := " -ArgumentList "
  const FINISH: string := " -NoNewWindow" + " -Wait -PassThru ; " + "$global:LASTEXITCODE = $ntAgent.ExitCode"

  function PowershellQuoteAll(parts: seq<string>): (r: seq<string>)
    ensures |r| == |parts|
  {
    if parts == [] then [] else [PowershellQuote(parts[0])] + PowershellQuoteAll(parts[1..])
  }

  function NativeScript(executable: string, args: seq<string>): string {
    START + PowershellQuote(executable)
    + (if args == [] then "" else ARGUMENT_LIST + PowershellQuote(ArgumentLine(args)))
    + FINISH
  }

  function PowershellInvocation(
      executable: string, kind: ExecutableKind, args: seq<string>): Result<string, LaunchError>
  {
    if kind.CmdScript? then Err(UnsupportedShell)
    else if kind.PowershellScript? then Ok("& " + JoinSpaced(PowershellQuoteAll([executable] + args)))
    else if Utf16Length(executable) + Utf16Length(ArgumentLine(args)) + 2 > MAX_WINDOWS_COMMAND_LINE then
      Err(InvalidIntent)
    else Ok(NativeScript(executable, args))
  }

  /** What PowerShell starts when it runs the native script: the file named by the first quoted
      string, with the arguments the started program splits out of the second. */
  function ReadNativeScript(s: string): Option<(string, seq<string>)> {
    if !(START <= s) then None
    else
      match ReadPsString(s[|START|..])
      case None => None
      case Some((executable, rest)) =>
        if !(ARGUMENT_LIST <= rest) then (if rest == FINISH then Some((executable, [])) else None)
        else
          match ReadPsString(rest[|ARGUMENT_LIST|..])
          case None => None
          case Some((line, end)) => if end == FINISH then Some((executable, ParseArgs(line))) else None
  }

  /** The words of an `&` invocation: quoted strings separated by single spaces. */
  function ReadPsWords(s: string): Option<seq<string>>
    decreases |s|
  {
    match ReadPsString(s)
    case None => None
    case Some((word, rest)) =>
      if rest == "" then Some([word])
      else if rest[0] != ' ' then None
      else
        match ReadPsWords(rest[1..])
        case Some(words) => Some([word] + words)
        case None => None
  }

  function ReadScriptInvocation(s: string): Option<seq<string>> {
    if "& " <= s then ReadPsWords(s[2..]) else None
  }

  lemma {:induction false} PsWordsRoundTrip(parts: seq<string>)
    requires parts != [] && NoneCurly(parts)
    ensures ReadPsWords(JoinSpaced(PowershellQuoteAll(parts))) == Some(parts)
  {
    var s := JoinSpaced(PowershellQuoteAll(parts));
    var rest := PowershellQuoteAll(parts[1..]);
    var tail := if |parts| == 1 then "" else " " + JoinSpaced(rest);
    assert PowershellQuoteAll(parts)[1..] == rest;
    assert s == PowershellQuote(parts[0]) + tail;
    ReadPowershellQuote(parts[0], tail);
    assert parts == [parts[0]] + parts[1..];
    if |parts| > 1 {
      assert tail[0] == ' ' && tail[1..] == JoinSpaced(rest);
      PsWordsRoundTrip(parts[1..]);
    } else {
      assert parts == [parts[0]];
    }
  }

  lemma {:induction false} PsWordsCounts(s: string)
    requires ReadPsWords(s).Some?
    ensures var words := ReadPsWords(s).value;
            Count(s, CURLY + STRAIGHT) == 2 * TotalCount(words, CURLY + STRAIGHT) + 2 * |words|
    decreases |s|
  {
    var (word, rest) := ReadPsString(s).value;
    PsStringCounts(s);
    if rest == "" {
      assert [word][1..] == [];
    } else {
      PsWordsCounts(rest[1..]);
      var words := ReadPsWords(rest[1..]).value;
      assert ([word] + words)[1..] == words;
    }
  }

  lemma {:induction false} JoinedCounts(parts: seq<string>)
    ensures Count(JoinSpaced(PowershellQuoteAll(parts)), CURLY + STRAIGHT) + TotalCount(parts, CURLY)
         == 2 * TotalCount(parts, CURLY + STRAIGHT) + 2 * |parts|
  {
    if parts != [] {
      var k, quoted, more := CURLY + STRAIGHT, PowershellQuote(parts[0]), PowershellQuoteAll(parts[1..]);
      QuotedCounts(parts[0]);
      JoinedCounts(parts[1..]);
      assert PowershellQuoteAll(parts)[1..] == more;
      if |parts| > 1 {
        CountConcat(quoted + " ", JoinSpaced(more), k);
        CountConcat(quoted, " ", k);
        assert " "[1..] == "";
      }
    }
  }

  /** The words of an invocation are read back exactly when none holds a curly quote. */
  lemma PsWordsExact(parts: seq<string>)
    requires parts != []
    ensures ReadPsWords(JoinSpaced(PowershellQuoteAll(parts))) == Some(parts) <==> NoneCurly(parts)
  {
    var s := JoinSpaced(PowershellQuoteAll(parts));
    if NoneCurly(parts) { PsWordsRoundTrip(parts); }
    if ReadPsWords(s) == Some(parts) {
      PsWordsCounts(s);
      JoinedCounts(parts);
      CurlyInLine(parts);
    }
  }

  lemma DropPrefix(a: string, b: string)
    ensures a <= a + b && (a + b)[|a|..] == b
  {
  }

  lemma Separators()
    ensures START != "" && ARGUMENT_LIST[0] == ' ' == FINISH[0]
    ensures !(ARGUMENT_LIST <= FINISH)
  {
    assert ARGUMENT_LIST[2] == 'A';
    assert FINISH[2] == " -NoNewWindow"[2];
  }

  lemma PlainScriptRead(quoted: string, executable: string)
    requires ReadPsString(quoted + FINISH) == Some((executable, FINISH))
    ensures ReadNativeScript(START + (quoted + FINISH)) == Some((executable, []))
  {
    Separators();
    DropPrefix(START, quoted + FINISH);
  }

  lemma ArgumentScriptRead(quoted: string, line: string, executable: string, text: string)
    requires var after := ARGUMENT_LIST + (line + FINISH);
             ReadPsString(quoted + after) == Some((executable, after))
    requires ReadPsString(line + FINISH) == Some((text, FINISH))
    ensures ReadNativeScript(START + (quoted + (ARGUMENT_LIST + (line + FINISH))))
         == Some((executable, ParseArgs(text)))
  {
    DropPrefix(START, quoted + (ARGUMENT_LIST + (line + FINISH)));
    DropPrefix(ARGUMENT_LIST, line + FINISH);
  }

  lemma ScriptShape(executable: string, args: seq<string>)
    ensures NativeScript(executable, args)
         == START + (PowershellQuote(executable)
                     + (if args == [] then FINISH else ARGUMENT_LIST + (PowershellQuote(ArgumentLine(args)) + FINISH)))
  {
    var quoted, line := PowershellQuote(executable), PowershellQuote(ArgumentLine(args));
    if args == [] {
      assert START + quoted + "" == START + quoted;
      Associate(START, quoted, FINISH);
    } else {
      Associate(START + quoted, ARGUMENT_LIST + line, FINISH);
      Associate(ARGUMENT_LIST, line, FINISH);
      Associate(START, quoted, ARGUMENT_LIST + (line + FINISH));
    }
  }

  lemma NativeScriptRead(executable: string, args: seq<string>)
    requires NoCurly(executable) && NoneCurly(args)
    ensures ReadNativeScript(NativeScript(executable, args)) == Some((executable, args))
  {
    var quoted := PowershellQuote(executable);
    ScriptShape(executable, args);
    if args == [] {
      ReadPowershellQuote(executable, FINISH);
      PlainScriptRead(quoted, executable);
    } else {
      var line := PowershellQuote(ArgumentLine(args));
      LineCurly(args);
      ReadPowershellQuote(executable, ARGUMENT_LIST + (line + FINISH));
      ReadPowershellQuote(ArgumentLine(args), FINISH);
      ArgumentScriptRead(quoted, line, executable, ArgumentLine(args));
      ArgumentLineRoundTrip(args);
    }
  }

  function Quotes(s: string): nat { Count(s, CURLY + STRAIGHT) }

  /** The quotes of a script's text after its opening, by what is read from it. */
  lemma ArgumentReadQuotes(s: string, option: string, rest: string, executable: string, line: string, end: string)
    requires ReadPsString(s) == Some((executable, option + rest)) && ReadPsString(rest) == Some((line, end))
    ensures Quotes(s) == 2 * Quotes(executable) + 2 + Quotes(option) + 2 * TotalCount(ParseArgs(line), CURLY + STRAIGHT)
                         + 2 + Quotes(end)
  {
    PsStringCounts(s);
    PsStringCounts(rest);
    CountConcat(option, rest, CURLY + STRAIGHT);
    ParseArgsCounts(line, CURLY + STRAIGHT);
  }

  lemma PlainReadQuotes(s: string, executable: string, end: string)
    requires ReadPsString(s) == Some((executable, end))
    ensures Quotes(s) == 2 * Quotes(executable) + 2 + Quotes(end)
  {
    PsStringCounts(s);
  }

  lemma NativeReadQuotes(s: string, executable: string, args: seq<string>, option: string, end: string)
    requires option == ARGUMENT_LIST && end == FINISH
    requires ReadNativeScript(START + s) == Some((executable, args))
    ensures Quotes(s) == 2 * Quotes(executable) + 2 + Quotes(end)
            + (if args == [] && ReadPsString(s) == Some((executable, end)) then 0
               else Quotes(option) + 2 * TotalCount(args, CURLY + STRAIGHT) + 2)
  {
    DropPrefix(START, s);
    var rest := ReadPsString(s).value.1;
    if option <= rest {
      assert rest == option + rest[|option|..];
      var (line, _) := ReadPsString(rest[|option|..]).value;
      ArgumentReadQuotes(s, option, rest[|option|..], executable, line, end);
      Separators();
    } else {
      PlainReadQuotes(s, executable, end);
    }
  }

  /** The quotes written: two for each of the texts' own, one for each that is curly. */
  lemma QuotesWritten(executable: string, args: seq<string>, option: string, end: string)
    ensures Quotes(PowershellQuote(executable) + end) + Count(executable, CURLY)
         == 2 * Quotes(executable) + 2 + Quotes(end)
    ensures Quotes(PowershellQuote(executable) + (option + (PowershellQuote(ArgumentLine(args)) + end)))
            + Count(executable, CURLY) + Count(ArgumentLine(args), CURLY)
         == 2 * Quotes(executable) + 2 + Quotes(option) + 2 * TotalCount(args, CURLY + STRAIGHT) + 2 + Quotes(end)
  {
    var k, quoted, line := CURLY + STRAIGHT, PowershellQuote(executable), PowershellQuote(ArgumentLine(args));
    QuotedCounts(executable);
    QuotedCounts(ArgumentLine(args));
    ArgumentLineRoundTrip(args);
    ParseArgsCounts(ArgumentLine(args), k);
    CountConcat(quoted, end, k);
    CountConcat(quoted, option + (line + end), k);
    CountConcat(option, line + end, k);
    CountConcat(line, end, k);
  }

  /** The script carries executable and arguments unchanged exactly when none holds a curly quote. */
  lemma NativeScriptExact(executable: string, args: seq<string>)
    ensures ReadNativeScript(NativeScript(executable, args)) == Some((executable, args))
            <==> NoCurly(executable) && NoneCurly(args)
  {
    if NoCurly(executable) && NoneCurly(args) { NativeScriptRead(executable, args); }
    if ReadNativeScript(NativeScript(executable, args)) == Some((executable, args)) {
      NativeReadUncurly(executable, args, ARGUMENT_LIST, FINISH);
    }
  }

  lemma NativeReadUncurly(executable: string, args: seq<string>, option: string, end: string)
    requires option == ARGUMENT_LIST && end == FINISH
    requires ReadNativeScript(NativeScript(executable, args)) == Some((executable, args))
    ensures NoCurly(executable) && NoneCurly(args)
  {
    var line := ArgumentLine(args);
    var body := PowershellQuote(executable) + (if args == [] then end else option + (PowershellQuote(line) + end));
    ScriptShape(executable, args);
    NativeReadQuotes(body, executable, args, option, end);
    QuotesWritten(executable, args, option, end);
    CountZero(executable, CURLY);
    CountZero(line, CURLY);
    LineCurly(args);
  }

  /** The PowerShell leg of preparing a launch. */
  function PreparePowershell(
      executable: string, kind: ExecutableKind, args: seq<string>): Result<string, LaunchError>
  {
    Limited(PowershellInvocation(executable, kind, args))
  }

  function Limited(script: Result<string, LaunchError>): Result<string, LaunchError> {
    if script.Ok? && Utf16Length(script.value) > MAX_WINDOWS_COMMAND_LINE then Err(InvalidIntent) else script
  }

  /** The UTF-16 units of a quoted text: its own, one more for each quote in it, and its two quotes. */
  function QuotedUnits(value: string): nat { Utf16Length(value) + Count(value, {'\''}) + 2 }

  function WordUnits(parts: seq<string>): nat {
    if parts == [] then 0
    else QuotedUnits(parts[0]) + (if |parts| == 1 then 0 else 1 + WordUnits(parts[1..]))
  }

  function ScriptUnits(executable: string, kind: ExecutableKind, args: seq<string>): nat {
    if kind.PowershellScript? then 2 + WordUnits([executable] + args)
    else
      107 + QuotedUnits(executable) + (if args == [] then 0 else 15 + QuotedUnits(ArgumentLine(args)))
  }

  lemma {:induction false} DoubledUnits(value: string)
    ensures Utf16Length(Doubled(value)) == Utf16Length(value) + Count(value, {'\''})
  {
    if value != [] {
      var d := Doubled(value[1..]);
      DoubledUnits(value[1..]);
      assert ([value[0]] + d)[1..] == d;
      assert ("''" + d)[1..] == "'" + d && ("'" + d)[1..] == d;
    }
  }

  lemma QuotedScriptUnits(value: string)
    ensures Utf16Length(PowershellQuote(value)) == QuotedUnits(value)
  {
    DoubledUnits(value);
    Utf16LengthConcat("'" + Doubled(value), "'");
    Utf16LengthConcat("'", Doubled(value));
    assert "'"[1..] == "";
  }

  lemma {:induction false} WordsLength(parts: seq<string>)
    ensures Utf16Length(JoinSpaced(PowershellQuoteAll(parts))) == WordUnits(parts)
  {
    if parts != [] {
      var rest := JoinSpaced(PowershellQuoteAll(parts[1..]));
      QuotedScriptUnits(parts[0]);
      if |parts| > 1 {
        WordsLength(parts[1..]);
        assert PowershellQuoteAll(parts)[1..] == PowershellQuoteAll(parts[1..]);
        Utf16LengthConcat(PowershellQuote(parts[0]) + " ", rest);
        Utf16LengthConcat(PowershellQuote(parts[0]), " ");
        assert " "[1..] == "";
      }
    }
  }

  lemma ScriptLength(executable: string, kind: ExecutableKind, args: seq<string>)
    requires PowershellInvocation(executable, kind, args).Ok?
    ensures Utf16Length(PowershellInvocation(executable, kind, args).value) == ScriptUnits(executable, kind, args)
  {
    if kind.PowershellScript? {
      WordsLength([executable] + args);
      CallLength(JoinSpaced(PowershellQuoteAll([executable] + args)));
    } else {
      NativeLength(executable, args);
    }
  }

  lemma CallLength(words: string)
    ensures Utf16Length("& " + words) == 2 + Utf16Length(words)
  {
    Utf16LengthConcat("& ", words);
    assert "& "[1..] == " " && " "[1..] == "";
  }

  lemma NativeLength(executable: string, args: seq<string>)
    ensures Utf16Length(NativeScript(executable, args)) == ScriptUnits(executable, Native, args)
  {
    QuotedScriptUnits(executable);
    QuotedScriptUnits(ArgumentLine(args));
    FixedPlain();
    PiecesLength(START, PowershellQuote(executable), ARGUMENT_LIST, PowershellQuote(ArgumentLine(args)), FINISH);
  }

  /** One code unit for each character. */
  predicate Plain(s: string) { forall i :: 0 <= i < |s| ==> s[i] as int < 0x10000 }

  lemma FixedPlain()
    ensures Plain(START) && Plain(ARGUMENT_LIST) && Plain(FINISH)
  {
    forall i | 0 <= i < |START| ensures START[i] as int < 0x10000 {}
    forall i | 0 <= i < |ARGUMENT_LIST| ensures ARGUMENT_LIST[i] as int < 0x10000 {}
    FinishPlain();
  }

  lemma FinishPlain()
    ensures Plain(FINISH)
  {
    var window, wait, exit := " -NoNewWindow", " -Wait -PassThru ; ", "$global:LASTEXITCODE = $ntAgent.ExitCode";
    forall i | 0 <= i < |window| ensures window[i] as int < 0x10000 {}
    forall i | 0 <= i < |wait| ensures wait[i] as int < 0x10000 {}
    forall i | 0 <= i < |exit| ensures exit[i] as int < 0x10000 {}
    assert FINISH == window + wait + exit;
  }

  lemma PiecesLength(a: string, b: string, c: string, d: string, e: string)
    requires Plain(a) && Plain(c) && Plain(e)
    ensures Utf16Length(a + b + (c + d) + e) == |a| + Utf16Length(b) + |c| + Utf16Length(d) + |e|
    ensures Utf16Length(a + b + "" + e) == |a| + Utf16Length(b) + |e|
  {
    PlainUnits(a);
    PlainUnits(c);
    PlainUnits(e);
    Utf16LengthConcat(c, d);
    FourLengths(a, b, c + d, e);
    FourLengths(a, b, "", e);
  }

  lemma FourLengths(a: string, b: string, c: string, d: string)
    ensures Utf16Length(a + b + c + d) == Utf16Length(a) + Utf16Length(b) + Utf16Length(c) + Utf16Length(d)
  {
    Utf16LengthConcat(a, b);
    Utf16LengthConcat(a + b, c);
    Utf16LengthConcat(a + b + c, d);
  }

  lemma {:induction false} PlainUnits(s: string)
    requires Plain(s)
    ensures Utf16Length(s) == |s|
  {
    if s != [] { PlainUnits(s[1..]); }
  }

  /** No batch shim, and neither the native command line nor the script too long. */
  predicate PowershellFits(executable: string, kind: ExecutableKind, args: seq<string>) {
    && !kind.CmdScript?
    && (kind.Native? ==> Utf16Length(executable) + Utf16Length(ArgumentLine(args)) + 2 <= MAX_WINDOWS_COMMAND_LINE)
    && ScriptUnits(executable, kind, args) <= MAX_WINDOWS_COMMAND_LINE
  }

  /** A launch is refused exactly when it does not fit. One that is produced reaches the program with
      its executable and arguments intact exactly when none of them holds a curly quote, which
      PowerShell reads as its own. */
  lemma PowershellLaunch(executable: string, kind: ExecutableKind, args: seq<string>)
    ensures var r := PreparePowershell(executable, kind, args);
            && (r.Ok? <==> PowershellFits(executable, kind, args))
            && (r.Err? ==> r.error == if kind.CmdScript? then UnsupportedShell else InvalidIntent)
            && (r.Ok? ==>
                  (Delivers(r.value, executable, kind, args) <==> NoCurly(executable) && NoneCurly(args)))
  {
    PowershellRefusal(executable, kind, args);
    PowershellReads(executable, kind, args);
  }

  /** What PowerShell starts when it runs the script. */
  predicate Delivers(script: string, executable: string, kind: ExecutableKind, args: seq<string>) {
    if kind.PowershellScript? then ReadScriptInvocation(script) == Some([executable] + args)
    else ReadNativeScript(script) == Some((executable, args))
  }

  lemma PowershellRefusal(executable: string, kind: ExecutableKind, args: seq<string>)
    ensures var r := PreparePowershell(executable, kind, args);
            && (r.Ok? <==> PowershellFits(executable, kind, args))
            && (r.Err? ==> r.error == if kind.CmdScript? then UnsupportedShell else InvalidIntent)
            && (r.Ok? ==> r == PowershellInvocation(executable, kind, args))
  {
    var script := PowershellInvocation(executable, kind, args);
    var units := ScriptUnits(executable, kind, args);
    if script.Ok? { ScriptLength(executable, kind, args); }
    LimitedExactly(script, units);
  }

  lemma LimitedExactly(script: Result<string, LaunchError>, units: nat)
    requires script.Ok? ==> Utf16Length(script.value) == units
    ensures Limited(script).Ok? <==> script.Ok? && units <= MAX_WINDOWS_COMMAND_LINE
    ensures Limited(script).Err? ==> Limited(script).error == if script.Err? then script.error else InvalidIntent
    ensures Limited(script).Ok? ==> Limited(script) == script
  {
  }

  lemma PowershellReads(executable: string, kind: ExecutableKind, args: seq<string>)
    ensures var r := PowershellInvocation(executable, kind, args);
            r.Ok? ==> (Delivers(r.value, executable, kind, args) <==> NoCurly(executable) && NoneCurly(args))
  {
    if kind.PowershellScript? {
      DropPrefix("& ", JoinSpaced(PowershellQuoteAll([executable] + args)));
      PsWordsExact([executable] + args);
      NoneCurlyHead(executable, args);
    } else if kind.Native? {
      NativeScriptExact(executable, args);
    }
  }

  lemma NoneCurlyHead(executable: string, args: seq<string>)
    ensures NoneCurly([executable] + args) <==> NoCurly(executable) && NoneCurly(args)
  {
    var all := [executable] + args;
    assert all[0] == executable;
    if NoneCurly(all) {
      forall i | 0 <= i < |args| ensures NoCurly(args[i]) { assert all[i + 1] == args[i]; }
    }
  }
}
