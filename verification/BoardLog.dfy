/** The board log: one JSON entry per line, oldest first, in a current file and one rotated
    generation; appended with rotation, read newest first. */
module BoardLog {

  import opened Text
  import opened Wrappers

  /** A JavaScript string: a sequence of UTF-16 code units. */
  newtype CodeUnit = u: int | 0 <= u < 0x10000

  type JsString = seq<CodeUnit>

  /** A finite JavaScript number: `mantissa` times two to the power of `exponent`. */
  datatype Double = Double(mantissa: int, exponent: int)

  function PowerOfTwo(n: nat): (p: nat)
    ensures p >= 1
  {
    if n == 0 then 1 else 2 * PowerOfTwo(n - 1)
  }

  function Magnitude(m: int): nat { if m < 0 then -m else m }

  /** At most 53 significant bits, inside the range of a double, and written in lowest terms. */
  predicate IsDouble(x: Double) {
    && (x.mantissa % 2 == 0 ==> x == Double(0, 0))
    && Magnitude(x.mantissa) < 0x20_0000_0000_0000
    && -1074 <= x.exponent <= 1023
    && (x.exponent > 971 ==> Magnitude(x.mantissa) < PowerOfTwo(1024 - x.exponent))
  }

  type JsNumber = x: Double | IsDouble(x) witness Double(0, 0)

  predicate IsInteger(x: JsNumber) { x.exponent >= 0 }

  function IntegerValue(x: JsNumber): int
    requires IsInteger(x)
  {
    x.mantissa * PowerOfTwo(x.exponent)
  }

  const TEXT_MAX: nat := 16384
  const ENTRY_MAX_BYTES: nat := 1024 * 1024
  const LOG_MAX_BYTES: nat := 1024 * 1024
  const DEFAULT_CAP: nat := 500
  const MAX_PER_COMMENT: nat := 20
  const MAX_BLOB_BYTES: nat := 4 * 1024 * 1024
  const MAX_TOTAL_BYTES: nat := 64 * 1024 * 1024
  const ELLIPSIS: CodeUnit := 0x2026

  const EVENT_TYPES: set<string> := {
    "card-created", "card-moved", "column-added", "column-renamed", "column-deleted",
    "member-assigned", "member-unassigned", "due-set", "due-cleared", "priority-set",
    "priority-cleared", "agent-message", "agent-read-cookies"
  }

  // ---- entries ------------------------------------------------------------------------------

  datatype MediaKind = File | Image | Audio | Video

  datatype Attachment = Attachment(
    id: string, ref: string, displayName: string, kind: MediaKind,
    mimeType: Option<string>, bytes: JsNumber, sha256: string)

  datatype EntryKind = Comment | Event

  datatype BoardEvent = BoardEvent(
    name: string, from: Option<JsString>, to: Option<JsString>, title: Option<JsString>)

  datatype Entry = Entry(
    id: JsString, ts: JsNumber, authorName: JsString, authorColor: JsString, kind: EntryKind,
    nodeId: Option<JsString>, text: Option<JsString>, event: Option<BoardEvent>,
    attachments: Option<seq<Attachment>>, sessionId: Option<string>, issues: Option<string>)

  /** `JSON.stringify` and `JSON.parse` on entries. */
  datatype Codec = Codec(stringify: Entry -> string, parse: string -> Option<Entry>)

  /** What JSON guarantees: a document is one line without outer whitespace and parses back. */
  ghost predicate Lawful(json: Codec) {
    forall e: Entry :: Document(json, e)
  }

  ghost predicate Document(json: Codec, e: Entry) {
    var s := json.stringify(e);
    s != "" && '\n' !in s && Trim(s) == s && json.parse(s) == Some(e)
  }

  predicate IsUuidChar(c: char) { 'a' <= c <= 'f' || 'A' <= c <= 'F' || '0' <= c <= '9' || c == '-' }

  predicate IsUuid(s: string) { |s| == 36 && forall i :: 0 <= i < 36 ==> IsUuidChar(s[i]) }

  predicate IsDigest(s: string) {
    |s| == 64 && forall i :: 0 <= i < 64 ==> '0' <= s[i] <= '9' || 'a' <= s[i] <= 'f'
  }

  predicate Printable(s: string) { forall i :: 0 <= i < |s| ==> s[i] >= ' ' && s[i] as int != 0x7F }

  predicate ValidAttachment(a: Attachment) {
    && IsUuid(a.id)
    && a.ref == ".nodeterm/board-attachments/" + a.id + ".bin"
    && a.displayName != "" && Utf8Length(a.displayName) <= 240 && Printable(a.displayName)
    && '/' !in a.displayName && '\\' !in a.displayName
    && (a.mimeType.Some? ==>
          a.mimeType.value != "" && Utf8Length(a.mimeType.value) <= 128 && Printable(a.mimeType.value))
    && IsInteger(a.bytes) && 0 <= IntegerValue(a.bytes) <= MAX_BLOB_BYTES
    && IsDigest(a.sha256)
  }

  predicate ValidEvent(v: BoardEvent) {
    && v.name in EVENT_TYPES
    && (v.from.Some? ==> |v.from.value| <= 512)
    && (v.to.Some? ==> |v.to.value| <= 512)
    && (v.title.Some? ==> |v.title.value| <= 512)
  }

  /** The shape check a parsed line must pass. */
  predicate ValidEntry(json: Codec, e: Entry) {
    && 0 < |e.id| <= 128
    && e.ts.mantissa >= 0
    && 0 < |e.authorName| <= 160 && |e.authorColor| <= 64
    && (e.text.Some? ==> |e.text.value| <= TEXT_MAX + 1)
    && (e.attachments.Some? ==> |e.attachments.value| <= MAX_PER_COMMENT)
    && (e.sessionId.Some? ==> IsUuid(e.sessionId.value))
    && (e.event.Some? ==> ValidEvent(e.event.value))
    && Utf8Length(json.stringify(e)) <= ENTRY_MAX_BYTES
  }

  function Clamp(e: Entry): Entry {
    if e.text.None? || |e.text.value| <= TEXT_MAX then e
    else e.(text := Some(e.text.value[..TEXT_MAX] + [ELLIPSIS]))
  }

  /** A long text keeps its first 16384 code units and gets an ellipsis; nothing else changes, and a text
      that is not longer stays as it is. A clamped entry is within the limit the parser applies, and
      clamping again changes nothing. */
  lemma ClampTwice(e: Entry)
    ensures Clamp(Clamp(e)) == Clamp(e)
    ensures Clamp(e).(text := e.text) == e
    ensures e.text.Some? && |e.text.value| > 16384 ==>
              && Clamp(e).text.Some? && |Clamp(e).text.value| == 16385
              && Clamp(e).text.value[16384] == 0x2026
              && forall i :: 0 <= i < 16384 ==> Clamp(e).text.value[i] == e.text.value[i]
    ensures e.text.Some? && |e.text.value| <= 16384 ==> Clamp(e) == e
    ensures Clamp(e).text.Some? ==> |Clamp(e).text.value| <= TEXT_MAX + 1
    ensures Clamp(e) != e ==> Clamp(e).text.Some? && |Clamp(e).text.value| == TEXT_MAX + 1
  {
    if e.text.Some? && |e.text.value| > TEXT_MAX {
      var t := e.text.value[..TEXT_MAX] + [ELLIPSIS];
      assert t[..TEXT_MAX] == e.text.value[..TEXT_MAX];
    }
  }

  function BuildLine(json: Codec, e: Entry): string { json.stringify(Clamp(e)) + "\n" }

  predicate AllValid(attachments: seq<Attachment>) {
    forall i :: 0 <= i < |attachments| ==> ValidAttachment(attachments[i])
  }

  function TotalBytes(attachments: seq<Attachment>): int
    requires AllValid(attachments)
  {
    if attachments == [] then 0
    else TotalBytes(attachments[..|attachments| - 1]) + IntegerValue(attachments[|attachments| - 1].bytes)
  }

  /** What an append accepts, leaving the attachment session aside. */
  predicate Acceptable(json: Codec, e: Entry) {
    && ValidEntry(json, e)
    && (e.attachments.Some? ==>
          && AllValid(e.attachments.value) && e.sessionId.Some?
          && TotalBytes(e.attachments.value) <= MAX_TOTAL_BYTES)
    && Utf8Length(BuildLine(json, e)) <= ENTRY_MAX_BYTES
  }

  /** What is wrong with an entry for an append to refuse it. */
  datatype Fault =
    | BadId | BadTime | BadAuthor | LongText | TooManyAttachments | BadSession | BadEvent | LongDocument
    | BadAttachment | NoSession | TooManyBytes | LongLine

  predicate LongerThan(s: Option<JsString>, n: nat) { s.Some? && |s.value| > n }

  /** The faults one by one, by the limits the source writes out. */
  predicate Has(json: Codec, e: Entry, fault: Fault) {
    match fault
    case BadId => |e.id| == 0 || |e.id| > 128
    case BadTime => e.ts.mantissa < 0
    case BadAuthor => |e.authorName| == 0 || |e.authorName| > 160 || |e.authorColor| > 64
    case LongText => LongerThan(e.text, 16385)
    case TooManyAttachments => e.attachments.Some? && |e.attachments.value| > 20
    case BadSession => e.sessionId.Some? && !IsUuid(e.sessionId.value)
    case BadEvent =>
      e.event.Some? && (e.event.value.name !in EVENT_TYPES || LongerThan(e.event.value.from, 512)
                        || LongerThan(e.event.value.to, 512) || LongerThan(e.event.value.title, 512))
    case LongDocument => Utf8Length(json.stringify(e)) > 1048576
    case BadAttachment => e.attachments.Some? && exists i :: 0 <= i < |e.attachments.value|
                                                             && !ValidAttachment(e.attachments.value[i])
    case NoSession => e.attachments.Some? && e.sessionId.None?
    case TooManyBytes =>
      e.attachments.Some? && AllValid(e.attachments.value) && TotalBytes(e.attachments.value) > 67108864
    case LongLine => Utf8Length(json.stringify(Clamp(e)) + "\n") > 1048576
  }

  /** An entry is refused exactly when one of these is wrong with it; a line that was written is skipped
      by a read for the first eight. */
  lemma RefusedExactly(json: Codec, e: Entry)
    ensures Acceptable(json, e) <==> forall fault :: !Has(json, e, fault)
    ensures ValidEntry(json, e) <==>
              && !Has(json, e, BadId) && !Has(json, e, BadTime) && !Has(json, e, BadAuthor) && !Has(json, e, LongText)
              && !Has(json, e, TooManyAttachments) && !Has(json, e, BadSession) && !Has(json, e, BadEvent)
              && !Has(json, e, LongDocument)
  {
    if forall fault :: !Has(json, e, fault) {
      assert !Has(json, e, BadId) && !Has(json, e, BadTime) && !Has(json, e, BadAuthor) && !Has(json, e, LongText);
      assert !Has(json, e, TooManyAttachments) && !Has(json, e, BadSession) && !Has(json, e, BadEvent);
      assert !Has(json, e, LongDocument) && !Has(json, e, BadAttachment) && !Has(json, e, NoSession);
      assert !Has(json, e, TooManyBytes) && !Has(json, e, LongLine);
    }
  }

  predicate NoneOf(s: string, chars: set<char>) { forall i :: 0 <= i < |s| ==> s[i] !in chars && s[i] >= ' ' }

  /** A well-formed attachment: a 36-character id of hexadecimal digits and dashes, the reference made of
      it, a name without slashes or control characters, a size of at most four mebibytes, and a digest
      of 64 lower-case hexadecimal digits. */
  lemma AttachmentExactly(a: Attachment)
    ensures ValidAttachment(a) <==>
              && |a.id| == 36 && (forall i :: 0 <= i < 36 ==> a.id[i] in "0123456789abcdefABCDEF-")
              && a.ref == ".nodeterm/board-attachments/" + a.id + ".bin"
              && 0 < Utf8Length(a.displayName) <= 240 && NoneOf(a.displayName, {'/', '\\', '\U{7F}'})
              && (a.mimeType.Some? ==> 0 < Utf8Length(a.mimeType.value) <= 128 && NoneOf(a.mimeType.value, {'\U{7F}'}))
              && IsInteger(a.bytes) && 0 <= IntegerValue(a.bytes) <= 4194304
              && |a.sha256| == 64 && (forall i :: 0 <= i < 64 ==> a.sha256[i] in "0123456789abcdef")
  {
    assert forall c: char :: IsUuidChar(c) <==> c in "0123456789abcdefABCDEF-";
    assert forall c: char :: ('0' <= c <= '9' || 'a' <= c <= 'f') <==> c in "0123456789abcdef";
  }

  /** The bytes of a list of attachments are counted once each. */
  lemma {:induction false} BytesAddUp(a: seq<Attachment>, b: seq<Attachment>)
    requires AllValid(a) && AllValid(b)
    ensures AllValid(a + b) && TotalBytes(a + b) == TotalBytes(a) + TotalBytes(b)
  {
    if b == [] {
      assert a + b == a;
    } else {
      assert (a + b)[..|a + b| - 1] == a + b[..|b| - 1];
      BytesAddUp(a, b[..|b| - 1]);
    }
  }

  /** An accepted comment loses text to the clamp only when it is exactly one code unit too long:
      anything longer is refused outright. */
  lemma ClampReachesOneLength(json: Codec, e: Entry)
    requires Acceptable(json, e)
    ensures Clamp(e) != e ==> e.text.Some? && |e.text.value| == TEXT_MAX + 1
  {
  }

  // ---- parsing ------------------------------------------------------------------------------

  /** `String.prototype.split('\n')`. */
  function SplitLines(s: string): (lines: seq<string>)
    ensures lines != []
  {
    if s == "" then [""]
    else if s[0] == '\n' then [""] + SplitLines(s[1..])
    else var rest := SplitLines(s[1..]); [[s[0]] + rest[0]] + rest[1..]
  }

  function ValidOnly(attachments: seq<Attachment>): (r: seq<Attachment>)
    ensures |r| <= |attachments|
    ensures |r| == |attachments| <==> AllValid(attachments)
    ensures AllValid(r)
  {
    if attachments == [] then []
    else
      var front, last := attachments[..|attachments| - 1], attachments[|attachments| - 1];
      assert attachments == front + [last];
      ValidOnly(front) + (if ValidAttachment(last) then [last] else [])
  }

  /** A parsed entry without its invalid attachment items, and with a note saying so. */
  function Sanitized(e: Entry): Entry {
    if e.attachments.None? || AllValid(e.attachments.value) then e
    else
      var kept := ValidOnly(e.attachments.value);
      var invalid := |e.attachments.value| - |kept|;
      e.(attachments := Some(kept),
         issues := Some(Decimal(invalid) + " attachment item" + (if invalid == 1 then "" else "s")
                        + " failed integrity validation."))
  }

  function ParseLine(json: Codec, line: string): Option<Entry> {
    var t := Trim(line);
    if t == "" then None
    else match json.parse(t)
         case None => None
         case Some(e) => if ValidEntry(json, e) then Some(Sanitized(e)) else None
  }

  function ParseEach(json: Codec, lines: seq<string>): seq<Entry> {
    if lines == [] then []
    else
      var last := ParseLine(json, lines[|lines| - 1]);
      ParseEach(json, lines[..|lines| - 1]) + (if last.Some? then [last.value] else [])
  }

  /** The entries of a raw log, oldest first. */
  function Entries(json: Codec, raw: string): seq<Entry> { ParseEach(json, SplitLines(raw)) }

  function Reverse<T>(s: seq<T>): (r: seq<T>)
    ensures |r| == |s|
  {
    if s == [] then [] else Reverse(s[1..]) + [s[0]]
  }

  function Take<T>(s: seq<T>, cap: Option<nat>): seq<T> {
    if cap.None? || |s| <= cap.value then s else s[..cap.value]
  }

  method ParseLines(json: Codec, raw: string, cap: Option<nat>) returns (entries: seq<Entry>)
    ensures entries == Take(Reverse(Entries(json, raw)), cap)
  {
    var lines := SplitLines(raw);
    var out: seq<Entry> := [];
    for i := 0 to |lines|
      invariant out == ParseEach(json, lines[..i])
    {
      assert lines[..i + 1][..i] == lines[..i];
      var t := Trim(lines[i]);
      if t != "" {
        var obj := json.parse(t);
        if obj.Some? && ValidEntry(json, obj.value) { out := out + [Sanitized(obj.value)]; }
      }
    }
    assert lines[..|lines|] == lines;
    entries := Take(Reverse(out), cap);
  }

  // ---- the log as text ----------------------------------------------------------------------

  /** The file holding the entries, oldest first. */
  function LogText(json: Codec, es: seq<Entry>): string {
    if es == [] then "" else json.stringify(es[0]) + "\n" + LogText(json, es[1..])
  }

  lemma {:induction false} LogTextConcat(json: Codec, a: seq<Entry>, b: seq<Entry>)
    ensures LogText(json, a + b) == LogText(json, a) + LogText(json, b)
  {
    if a == [] {
      assert a + b == b;
    } else {
      assert (a + b)[1..] == a[1..] + b;
      LogTextConcat(json, a[1..], b);
    }
  }

  lemma {:induction false} FirstLine(line: string, rest: string)
    requires '\n' !in line
    ensures SplitLines(line + "\n" + rest) == [line] + SplitLines(rest)
  {
    var s := line + "\n" + rest;
    if line == "" {
      assert s[1..] == rest;
    } else {
      assert s[1..] == line[1..] + "\n" + rest;
      FirstLine(line[1..], rest);
      assert [line[0]] + line[1..] == line;
    }
  }

  lemma {:induction false} ParseEachConcat(json: Codec, a: seq<string>, b: seq<string>)
    ensures ParseEach(json, a + b) == ParseEach(json, a) + ParseEach(json, b)
  {
    if b == [] {
      assert a + b == a;
    } else {
      assert (a + b)[..|a + b| - 1] == a + b[..|b| - 1];
      ParseEachConcat(json, a, b[..|b| - 1]);
    }
  }

  /** An entry the log may hold: it passes the parser unchanged. */
  predicate Loggable(json: Codec, e: Entry) {
    ValidEntry(json, e) && (e.attachments.Some? ==> AllValid(e.attachments.value))
  }

  predicate AllLoggable(json: Codec, es: seq<Entry>) {
    forall i :: 0 <= i < |es| ==> Loggable(json, es[i])
  }

  lemma OneLine(json: Codec, e: Entry)
    requires Document(json, e) && Loggable(json, e)
    ensures ParseEach(json, [json.stringify(e)]) == [e]
  {
    var s := json.stringify(e);
    assert [s][..0] == [] && ParseEach(json, []) == [];
    assert ParseLine(json, s) == Some(e);
  }

  lemma FirstEntry(json: Codec, e: Entry, rest: string)
    requires Document(json, e) && Loggable(json, e)
    ensures Entries(json, json.stringify(e) + "\n" + rest) == [e] + Entries(json, rest)
  {
    var s := json.stringify(e);
    FirstLine(s, rest);
    ParseEachConcat(json, [s], SplitLines(rest));
    OneLine(json, e);
  }

  lemma NoEntries(json: Codec)
    ensures Entries(json, "") == []
  {
    assert SplitLines("") == [""] && [""][..0] == [];
    assert ParseEach(json, []) == [];
    assert ParseLine(json, "") == None;
  }

  /** Reading back a file of loggable entries gives exactly those entries. */
  lemma {:induction false} LogRoundTrip(json: Codec, es: seq<Entry>)
    requires Lawful(json) && AllLoggable(json, es)
    ensures Entries(json, LogText(json, es)) == es
  {
    if es == [] {
      NoEntries(json);
    } else {
      assert Document(json, es[0]);
      FirstEntry(json, es[0], LogText(json, es[1..]));
      LogRoundTrip(json, es[1..]);
      assert es == [es[0]] + es[1..];
    }
  }

  /** What an append writes is loggable: the clamp cannot push an accepted entry out of shape. */
  lemma AcceptedIsLoggable(json: Codec, e: Entry)
    requires Acceptable(json, e)
    ensures Loggable(json, Clamp(e))
  {
    ClampTwice(e);
    Utf8LengthConcat(json.stringify(Clamp(e)), "\n");
  }

  /** A line that is no entry costs only itself: what stands before and after it is read. */
  lemma JunkSkipped(json: Codec, before: seq<Entry>, junk: string, after: seq<Entry>)
    requires Lawful(json) && AllLoggable(json, before) && AllLoggable(json, after) && '\n' !in junk
    requires Trim(junk) != "" ==>
               json.parse(Trim(junk)).None? || !ValidEntry(json, json.parse(Trim(junk)).value)
    ensures Entries(json, LogText(json, before) + (junk + "\n" + LogText(json, after))) == before + after
  {
    var rest := junk + "\n" + LogText(json, after);
    FirstLine(junk, LogText(json, after));
    LogRoundTrip(json, after);
    ParseEachConcat(json, [junk], SplitLines(LogText(json, after)));
    assert [junk][..0] == [] && ParseEach(json, []) == [];
    assert ParseLine(json, junk) == None;
    assert [] + after == after;
    TextThen(json, before, rest);
  }

  lemma {:induction false} TextThen(json: Codec, es: seq<Entry>, rest: string)
    requires Lawful(json) && AllLoggable(json, es)
    ensures Entries(json, LogText(json, es) + rest) == es + Entries(json, rest)
  {
    if es == [] {
      assert "" + rest == rest && [] + Entries(json, rest) == Entries(json, rest);
    } else {
      var more := LogText(json, es[1..]);
      assert Document(json, es[0]);
      TextThen(json, es[1..], rest);
      FirstEntry(json, es[0], more + rest);
      assert LogText(json, es) + rest == json.stringify(es[0]) + "\n" + (more + rest);
      assert [es[0]] + (es[1..] + Entries(json, rest)) == es + Entries(json, rest);
    }
  }

  /** The valid items are kept, in order, and no other. */
  lemma ValidOnlyExactly(a: seq<Attachment>, b: seq<Attachment>, x: Attachment)
    ensures ValidOnly(a + b) == ValidOnly(a) + ValidOnly(b)
    ensures ValidOnly([x]) == if ValidAttachment(x) then [x] else []
  {
    ValidOnlyConcat(a, b);
    assert [x][..0] == [] && ValidOnly([]) == [];
  }

  lemma {:induction false} ValidOnlyConcat(a: seq<Attachment>, b: seq<Attachment>)
    ensures ValidOnly(a + b) == ValidOnly(a) + ValidOnly(b)
  {
    if b == [] {
      assert a + b == a && ValidOnly(a) + [] == ValidOnly(a);
    } else {
      var init, last := b[..|b| - 1], b[|b| - 1];
      var end := if ValidAttachment(last) then [last] else [];
      ValidOnlyConcat(a, init);
      ValidOnlySnoc(a + b, a + init, last);
      assert (ValidOnly(a) + ValidOnly(init)) + end == ValidOnly(a) + (ValidOnly(init) + end);
    }
  }

  lemma ValidOnlySnoc(all: seq<Attachment>, front: seq<Attachment>, last: Attachment)
    requires all != [] && all[..|all| - 1] == front && all[|all| - 1] == last
    ensures ValidOnly(all) == ValidOnly(front) + (if ValidAttachment(last) then [last] else [])
  {
  }

  /** An entry with invalid attachment items is read without them and with a note that counts them, and
      is otherwise as it was logged; one without any is read as it is. */
  lemma InvalidItemsNoted(json: Codec, e: Entry)
    requires Document(json, e) && ValidEntry(json, e)
    ensures var read := ParseLine(json, json.stringify(e));
            && read.Some?
            && (e.attachments.None? || AllValid(e.attachments.value) ==> read.value == e)
            && (e.attachments.Some? && !AllValid(e.attachments.value) ==>
                  var dropped := |e.attachments.value| - |ValidOnly(e.attachments.value)|;
                  && dropped > 0
                  && read.value == e.(
                       attachments := Some(ValidOnly(e.attachments.value)),
                       issues := Some(Decimal(dropped)
                                      + (if dropped == 1 then " attachment item" else " attachment items")
                                      + " failed integrity validation.")))
  {
    if e.attachments.Some? && !AllValid(e.attachments.value) {
      var dropped := |e.attachments.value| - |ValidOnly(e.attachments.value)|;
      assert Decimal(dropped) + " attachment item" + (if dropped == 1 then "" else "s")
          == Decimal(dropped) + (if dropped == 1 then " attachment item" else " attachment items");
    }
  }

  // ---- two generations ----------------------------------------------------------------------

  datatype Log = Log(current: Option<string>, rotated: Option<string>)

  /** How the file calls of one rotation attempt come out. */
  datatype Rotation = Succeeds | StatFails | RemoveFails | RenameFails

  function RotateIfLarge(log: Log, incoming: nat, rotation: Rotation): Log {
    if log.current.None? || rotation.StatFails? then log
    else if Utf8Length(log.current.value) + incoming <= LOG_MAX_BYTES then log
    else match rotation
         case Succeeds => Log(None, log.current)
         case RenameFails => Log(log.current, None)
         case _ => log
  }

  function Content(file: Option<string>): string { if file.None? then "" else file.value }

  function AppendLine(log: Log, line: string, rotation: Rotation, written: bool): Log {
    var ready := RotateIfLarge(log, Utf8Length(line), rotation);
    if written then ready.(current := Some(Content(ready.current) + line)) else ready
  }

  /** A read of both generations at one moment; with no current file it does not look further. */
  function ReadAll(json: Codec, log: Log): seq<Entry> {
    if log.current.None? then []
    else Reverse(Entries(json, log.current.value)) + Reverse(Entries(json, Content(log.rotated)))
  }

  function Read(json: Codec, log: Log, cap: Option<nat>, all: bool): seq<Entry> {
    if all then ReadAll(json, log)
    else Take(ReadAll(json, log), Some(if cap.Some? then cap.value else DEFAULT_CAP))
  }

  /** A log beside everything ever accepted into it: the current file holds what was accepted from
      `mid` on, the rotated one what was accepted between `low` and `mid`. */
  datatype Trace = Trace(log: Log, history: seq<Entry>, low: nat, mid: nat)

  const EMPTY_TRACE := Trace(Log(None, None), [], 0, 0)

  datatype AppendOp = AppendOp(entry: Entry, rotation: Rotation, written: bool)

  function Step(json: Codec, t: Trace, op: AppendOp): Trace {
    if !Acceptable(json, op.entry) then t
    else
      var line := BuildLine(json, op.entry);
      var ready := RotateIfLarge(t.log, Utf8Length(line), op.rotation);
      Trace(AppendLine(t.log, line, op.rotation, op.written),
            if op.written then t.history + [Clamp(op.entry)] else t.history,
            if ready == t.log then t.low else t.mid,
            if ready.current.None? then |t.history| else t.mid)
  }

  function Run(json: Codec, ops: seq<AppendOp>): Trace {
    if ops == [] then EMPTY_TRACE else Step(json, Run(json, ops[..|ops| - 1]), ops[|ops| - 1])
  }

  ghost predicate Tracks(json: Codec, t: Trace) {
    && t.low <= t.mid <= |t.history|
    && AllLoggable(json, t.history)
    && (if t.log.current.None? then t.mid == |t.history|
        else t.log.current.value == LogText(json, t.history[t.mid..]))
    && (if t.log.rotated.None? then t.low == t.mid
        else t.log.rotated.value == LogText(json, t.history[t.low..t.mid]))
  }

  lemma StepTracks(json: Codec, t: Trace, op: AppendOp)
    requires Lawful(json) && Tracks(json, t)
    ensures Tracks(json, Step(json, t, op))
  {
    if Acceptable(json, op.entry) {
      var e := Clamp(op.entry);
      AcceptedIsLoggable(json, op.entry);
      var line := BuildLine(json, op.entry);
      var ready := RotateIfLarge(t.log, Utf8Length(line), op.rotation);
      var low := if ready == t.log then t.low else t.mid;
      var mid := if ready.current.None? then |t.history| else t.mid;
      var mov := Trace(ready, t.history, low, mid);
      RotateTracks(json, t, Utf8Length(line), op.rotation);
      if op.written { WriteTracks(json, mov, e); }
    }
  }

  lemma RotateTracks(json: Codec, t: Trace, incoming: nat, rotation: Rotation)
    requires Tracks(json, t)
    ensures var ready := RotateIfLarge(t.log, incoming, rotation);
            Tracks(json, Trace(ready, t.history, if ready == t.log then t.low else t.mid,
                               if ready.current.None? then |t.history| else t.mid))
  {
    assert t.history[t.mid..|t.history|] == t.history[t.mid..];
  }

  lemma WriteTracks(json: Codec, t: Trace, e: Entry)
    requires Tracks(json, t) && Loggable(json, e)
    ensures Tracks(json, t.(log := t.log.(current := Some(Content(t.log.current) + (json.stringify(e) + "\n"))),
                            history := t.history + [e]))
  {
    var history := t.history + [e];
    assert history[t.mid..] == t.history[t.mid..] + [e];
    assert history[t.low..t.mid] == t.history[t.low..t.mid];
    LogTextConcat(json, t.history[t.mid..], [e]);
    assert [e][1..] == [] && LogText(json, []) == "";
    assert LogText(json, [e]) == json.stringify(e) + "\n" + "";
    assert json.stringify(e) + "\n" + "" == json.stringify(e) + "\n";
    assert t.mid == |t.history| ==> t.history[t.mid..] == [];
  }

  /** In every run the two files hold consecutive stretches of the accepted entries, up to the
      newest one. */
  lemma {:induction false} RunTracks(json: Codec, ops: seq<AppendOp>)
    requires Lawful(json)
    ensures Tracks(json, Run(json, ops))
  {
    if ops != [] {
      RunTracks(json, ops[..|ops| - 1]);
      StepTracks(json, Run(json, ops[..|ops| - 1]), ops[|ops| - 1]);
    }
  }

  lemma {:induction false} ReverseConcat<T>(a: seq<T>, b: seq<T>)
    ensures Reverse(a + b) == Reverse(b) + Reverse(a)
  {
    if a == [] {
      assert a + b == b;
    } else {
      assert (a + b)[1..] == a[1..] + b;
      ReverseConcat(a[1..], b);
    }
  }

  /** A full read returns, newest first, every entry accepted since the older generation began,
      and nothing at all while the current file is missing. */
  lemma ReadIsNewestSuffix(json: Codec, t: Trace)
    requires Lawful(json) && Tracks(json, t)
    ensures ReadAll(json, t.log) == if t.log.current.None? then [] else Reverse(t.history[t.low..])
  {
    var newer, older := t.history[t.mid..], t.history[t.low..t.mid];
    if t.log.current.Some? {
      LogRoundTrip(json, newer);
      RotatedEntries(json, t);
      ReverseJoined(t.history, t.low, t.mid);
    }
  }

  lemma ReverseJoined(h: seq<Entry>, low: nat, mid: nat)
    requires low <= mid <= |h|
    ensures Reverse(h[mid..]) + Reverse(h[low..mid]) == Reverse(h[low..])
  {
    assert h[low..mid] + h[mid..] == h[low..];
    ReverseConcat(h[low..mid], h[mid..]);
  }

  lemma RotatedEntries(json: Codec, t: Trace)
    requires Lawful(json) && Tracks(json, t)
    ensures Entries(json, Content(t.log.rotated)) == t.history[t.low..t.mid]
  {
    var older := t.history[t.low..t.mid];
    LogRoundTrip(json, older);
    if t.log.rotated.None? { assert older == [] && LogText(json, older) == ""; }
  }

  // ---- reads that appends overlap -----------------------------------------------------------

  /** A read opens the two files one after the other, and appends may run in between. */
  function ReadAcross(json: Codec, first: Log, second: Log): seq<Entry> {
    if first.current.None? then []
    else Reverse(Entries(json, first.current.value)) + Reverse(Entries(json, Content(second.rotated)))
  }

  function RunFrom(json: Codec, t: Trace, ops: seq<AppendOp>): Trace {
    if ops == [] then t else Step(json, RunFrom(json, t, ops[..|ops| - 1]), ops[|ops| - 1])
  }

  lemma {:induction false} RunFromTracks(json: Codec, t: Trace, ops: seq<AppendOp>)
    requires Lawful(json) && Tracks(json, t)
    ensures Tracks(json, RunFrom(json, t, ops))
  {
    if ops != [] {
      RunFromTracks(json, t, ops[..|ops| - 1]);
      StepTracks(json, RunFrom(json, t, ops[..|ops| - 1]), ops[|ops| - 1]);
    }
  }

  /** Whatever appends run between the two opens, the read returns the entries of the current file
      at the first open and then those of the rotated file at the second. */
  lemma ReadAcrossRun(json: Codec, t: Trace, ops: seq<AppendOp>)
    requires Lawful(json) && Tracks(json, t) && t.log.current.Some?
    ensures var u := RunFrom(json, t, ops);
            && t.mid <= |t.history| && u.low <= u.mid <= |u.history|
            && ReadAcross(json, t.log, u.log)
               == Reverse(t.history[t.mid..]) + Reverse(u.history[u.low..u.mid])
  {
    RunFromTracks(json, t, ops);
    LogRoundTrip(json, t.history[t.mid..]);
    RotatedEntries(json, RunFrom(json, t, ops));
  }

  /** The append takes the rotated file away: there is too much for the current file, and the old
      generation is replaced, or removed with nothing put in its place. */
  predicate Rotates(json: Codec, log: Log, op: AppendOp) {
    && Acceptable(json, op.entry) && log.current.Some?
    && Utf8Length(log.current.value) + Utf8Length(BuildLine(json, op.entry)) > LOG_MAX_BYTES
    && (op.rotation.Succeeds? || (op.rotation.RenameFails? && log.rotated.Some?))
  }

  /** Some append of the run does. */
  predicate SomeRotates(json: Codec, t: Trace, ops: seq<AppendOp>) {
    ops != [] &&
      (SomeRotates(json, t, ops[..|ops| - 1])
       || Rotates(json, RunFrom(json, t, ops[..|ops| - 1]).log, ops[|ops| - 1]))
  }

  /** A file that exists holds at least one entry. */
  predicate NoEmptyFile(t: Trace) {
    && t.low <= t.mid <= |t.history|
    && (t.log.current.Some? <==> t.mid < |t.history|)
    && (t.log.rotated.Some? <==> t.low < t.mid)
  }

  lemma StepNoEmptyFile(json: Codec, t: Trace, op: AppendOp)
    requires NoEmptyFile(t)
    ensures NoEmptyFile(Step(json, t, op))
  {
  }

  lemma {:induction false} RunNoEmptyFile(json: Codec, t: Trace, ops: seq<AppendOp>)
    requires NoEmptyFile(t)
    ensures NoEmptyFile(RunFrom(json, t, ops))
  {
    if ops != [] {
      RunNoEmptyFile(json, t, ops[..|ops| - 1]);
      StepNoEmptyFile(json, RunFrom(json, t, ops[..|ops| - 1]), ops[|ops| - 1]);
    }
  }

  lemma RunIsRunFrom(json: Codec, ops: seq<AppendOp>)
    ensures Run(json, ops) == RunFrom(json, EMPTY_TRACE, ops)
  {
    if ops != [] { RunIsRunFrom(json, ops[..|ops| - 1]); }
  }

  /** Until an append rotates, the rotated file stays as it was; from then on it only ever holds
      entries that were in the current file at the start, or newer ones. */
  lemma {:induction false} RotatedMoves(json: Codec, t: Trace, ops: seq<AppendOp>)
    requires NoEmptyFile(t)
    ensures var u := RunFrom(json, t, ops);
            && t.history <= u.history && t.mid <= u.mid && NoEmptyFile(u)
            && (if SomeRotates(json, t, ops) then u.low >= t.mid
                else u.low == t.low && u.log.rotated == t.log.rotated
                     && (t.log.current.Some? ==> u.mid == t.mid && u.log.current.Some?))
  {
    RunNoEmptyFile(json, t, ops);
    if ops != [] {
      RotatedMoves(json, t, ops[..|ops| - 1]);
      StepMoves(json, RunFrom(json, t, ops[..|ops| - 1]), ops[|ops| - 1]);
    }
  }

  lemma StepMoves(json: Codec, t: Trace, op: AppendOp)
    requires NoEmptyFile(t)
    ensures var u := Step(json, t, op);
            && t.history <= u.history && t.mid <= u.mid && t.low <= u.low
            && (if Rotates(json, t.log, op) then u.low == t.mid
                else u.low == t.low && u.log.rotated == t.log.rotated
                     && (t.log.current.Some? ==> u.mid == t.mid && u.log.current.Some?))
  {
  }

  predicate Distinct(es: seq<Entry>) { forall i, j :: 0 <= i < j < |es| ==> es[i] != es[j] }

  lemma {:induction false} ReverseInjective<T>(a: seq<T>, b: seq<T>)
    ensures Reverse(a) == Reverse(b) ==> a == b
  {
    if a != [] && b != [] && Reverse(a) == Reverse(b) {
      var x, y := Reverse(a[1..]), Reverse(b[1..]);
      assert |x| == |y| && x == (x + [a[0]])[..|x|] && y == (y + [b[0]])[..|y|];
      assert (x + [a[0]])[|x|] == a[0] && (y + [b[0]])[|y|] == b[0];
      ReverseInjective(a[1..], b[1..]);
      assert a == [a[0]] + a[1..] && b == [b[0]] + b[1..];
    }
  }

  /** A read that appends overlap returns the full read of its beginning exactly when the rotated file
      held the same entries at both opens. If no entry was ever logged twice, that is when no append
      in between rotated, or there was no rotated file at either open. */
  lemma OverlappedReadExactly(json: Codec, before: seq<AppendOp>, between: seq<AppendOp>)
    requires Lawful(json) && Run(json, before).log.current.Some?
    ensures var t := Run(json, before);
            var u := RunFrom(json, t, between);
            var right := ReadAcross(json, t.log, u.log) == ReadAll(json, t.log);
            && t.low <= t.mid <= |t.history| && u.low <= u.mid <= |u.history|
            && (right <==> t.history[t.low..t.mid] == u.history[u.low..u.mid])
            && (!SomeRotates(json, t, between) ==> right)
            && (Distinct(u.history) ==>
                  (right <==> !SomeRotates(json, t, between) || (t.log.rotated.None? && u.log.rotated.None?)))
  {
    var t := Run(json, before);
    var u := RunFrom(json, t, between);
    RunTracks(json, before);
    RunIsRunFrom(json, before);
    RunNoEmptyFile(json, EMPTY_TRACE, before);
    ReadAcrossRun(json, t, between);
    ReadAcrossRun(json, t, []);
    RotatedMoves(json, t, between);
    var newer, older, other := Reverse(t.history[t.mid..]), t.history[t.low..t.mid], u.history[u.low..u.mid];
    SamePrefix(newer, Reverse(older), Reverse(other));
    ReverseInjective(older, other);
    SameSegment(t, u);
    if Distinct(u.history) { SegmentsApart(t, u); }
  }

  lemma SameSegment(t: Trace, u: Trace)
    requires NoEmptyFile(t) && NoEmptyFile(u) && t.history <= u.history
    ensures t.low == u.low && t.mid == u.mid ==> t.history[t.low..t.mid] == u.history[u.low..u.mid]
    ensures t.low == t.mid && u.low == u.mid ==> t.history[t.low..t.mid] == u.history[u.low..u.mid]
  {
  }

  lemma SamePrefix<T>(p: seq<T>, a: seq<T>, b: seq<T>)
    ensures p + a == p + b <==> a == b
  {
    assert (p + a)[|p|..] == a && (p + b)[|p|..] == b;
  }

  /** Of distinct entries, stretches that do not overlap are equal only when both are empty. */
  lemma SegmentsApart(t: Trace, u: Trace)
    requires NoEmptyFile(t) && NoEmptyFile(u) && t.history <= u.history && Distinct(u.history)
    ensures u.low >= t.mid && t.history[t.low..t.mid] == u.history[u.low..u.mid] ==> t.low == t.mid && u.low == u.mid
  {
    var older, other := t.history[t.low..t.mid], u.history[u.low..u.mid];
    if u.low >= t.mid && t.low < t.mid && u.low < u.mid {
      assert older[0] == u.history[t.low] && other[0] == u.history[u.low];
      assert older[0] != other[0];
    }
  }

  /** A capped read is the beginning of the full one, 500 entries long unless another cap is given
      or fewer exist. */
  lemma CappedReadIsPrefix(json: Codec, log: Log, cap: Option<nat>)
    ensures Read(json, log, cap, true) == ReadAll(json, log)
    ensures Read(json, log, cap, false) <= ReadAll(json, log)
    ensures |Read(json, log, cap, false)| == Min(if cap.Some? then cap.value else 500, |ReadAll(json, log)|)
  {
  }

  function Min(a: nat, b: nat): nat { if a <= b then a else b }

  // ---- sizes --------------------------------------------------------------------------------

  predicate RotationsSucceed(ops: seq<AppendOp>) {
    forall i :: 0 <= i < |ops| ==> ops[i].rotation.Succeeds?
  }

  predicate WritesSucceed(ops: seq<AppendOp>) { forall i :: 0 <= i < |ops| ==> ops[i].written }

  /** While rotations succeed, neither file ever exceeds one mebibyte. */
  lemma {:induction false} SizeBounded(json: Codec, ops: seq<AppendOp>)
    requires RotationsSucceed(ops)
    ensures var log := Run(json, ops).log;
            Utf8Length(Content(log.current)) <= LOG_MAX_BYTES && Utf8Length(Content(log.rotated)) <= LOG_MAX_BYTES
  {
    if ops != [] {
      var front, op := ops[..|ops| - 1], ops[|ops| - 1];
      SizeBounded(json, front);
      var log := Run(json, front).log;
      if Acceptable(json, op.entry) {
        var line := BuildLine(json, op.entry);
        var ready := RotateIfLarge(log, Utf8Length(line), op.rotation);
        Utf8LengthConcat(Content(ready.current), line);
      }
    }
  }

  /** The bytes a read would cover. */
  function Kept(log: Log): nat { Utf8Length(Content(log.current)) + Utf8Length(Content(log.rotated)) }

  /** While writes succeed, nothing is dropped before more than one mebibyte of newer entries is
      kept, whatever goes wrong in rotations. */
  lemma {:induction false} DropsOnlyWhenFull(json: Codec, ops: seq<AppendOp>)
    requires WritesSucceed(ops)
    ensures var t := Run(json, ops);
            && (t.low > 0 ==> Kept(t.log) > LOG_MAX_BYTES)
            && (t.log.current.None? ==> t == EMPTY_TRACE)
            && (t.log.rotated.Some? ==> Kept(t.log) > LOG_MAX_BYTES)
            && (t.low < t.mid ==> t.log.rotated.Some?)
            && t.low <= t.mid <= |t.history|
  {
    if ops != [] {
      var front, op := ops[..|ops| - 1], ops[|ops| - 1];
      DropsOnlyWhenFull(json, front);
      var log := Run(json, front).log;
      if Acceptable(json, op.entry) {
        var line := BuildLine(json, op.entry);
        var ready := RotateIfLarge(log, Utf8Length(line), op.rotation);
        Utf8LengthConcat(Content(ready.current), line);
      }
    }
  }
}
