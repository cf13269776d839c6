/** One lawful codec for log entries, and three entries that make a read and two rotations overlap.
    The codec writes an entry as a list of numbers; what matters is only that it keeps the laws
    `BoardLog` asks of JSON, so that they can be met. */
module BoardCodec {

  import opened BoardLog
  import opened Text
  import opened Wrappers

  // ---- numbers as text ----------------------------------------------------------------------

  function Digits(ns: seq<nat>): string {
    if ns == [] then "" else Decimal(ns[0]) + "," + Digits(ns[1..])
  }

  /** Digits up to a comma, read in only one way. */
  lemma CommaSplits(a: string, b: string, x: string, y: string)
    requires AllDigits(a) && AllDigits(b) && a + "," + x == b + "," + y
    ensures a == b && x == y
  {
    var s := a + "," + x;
    assert s[|a|] == ',' && s[|b|] == ',';
    assert forall i :: 0 <= i < |a| ==> s[i] == a[i];
    assert forall i :: 0 <= i < |b| ==> s[i] == b[i];
    assert |a| == |b|;
    assert s[..|a|] == a && s[..|b|] == b && s[|a| + 1..] == x && s[|b| + 1..] == y;
  }

  lemma {:induction false} DigitsInjective(a: seq<nat>, b: seq<nat>)
    requires Digits(a) == Digits(b)
    ensures a == b
  {
    if a != [] && b != [] {
      CommaSplits(Decimal(a[0]), Decimal(b[0]), Digits(a[1..]), Digits(b[1..]));
      assert NumeralValue(Decimal(a[0])) == NumeralValue(Decimal(b[0]));
      DigitsInjective(a[1..], b[1..]);
      assert a == [a[0]] + a[1..] && b == [b[0]] + b[1..];
    }
  }

  predicate DigitOrComma(c: char) { IsDigit(c) || c == ',' }

  lemma {:induction false} DigitsPlain(ns: seq<nat>)
    ensures forall i :: 0 <= i < |Digits(ns)| ==> DigitOrComma(Digits(ns)[i])
  {
    if ns != [] { DigitsPlain(ns[1..]); }
  }

  // ---- entries as numbers -------------------------------------------------------------------

  // Each encoding says where it ends: whatever numbers follow, only one value was written.

  function EncodeInt(i: int): seq<nat> { if i >= 0 then [0, i] else [1, -i] }

  function EncodeNumber(x: JsNumber): seq<nat> { EncodeInt(x.mantissa) + EncodeInt(x.exponent) }

  function EncodeUnits(s: JsString): seq<nat> {
    [|s|] + seq(|s|, i requires 0 <= i < |s| => s[i] as int)
  }

  function EncodeText(s: string): seq<nat> {
    [|s|] + seq(|s|, i requires 0 <= i < |s| => s[i] as int)
  }

  function EncodeOptional<T>(x: Option<T>, encode: T -> seq<nat>): seq<nat> {
    if x.None? then [0] else [1] + encode(x.value)
  }

  lemma SameLength(m: nat, a: seq<nat>, n: nat, b: seq<nat>, x: seq<nat>, y: seq<nat>)
    requires m == |a| && n == |b| && ([m] + a) + x == ([n] + b) + y
    ensures a == b && x == y
  {
    var s := ([m] + a) + x;
    assert s[0] == m == n;
    assert s[1..m + 1] == a && s[1..n + 1] == b && s[m + 1..] == x && s[n + 1..] == y;
  }

  lemma IntOnce(i: int, j: int, x: seq<nat>, y: seq<nat>)
    requires EncodeInt(i) + x == EncodeInt(j) + y
    ensures i == j && x == y
  {
    var s := EncodeInt(i) + x;
    assert s[0] == EncodeInt(i)[0] == EncodeInt(j)[0] && s[1] == EncodeInt(i)[1] == EncodeInt(j)[1];
    assert s[2..] == x && s[2..] == y;
  }

  lemma NumberOnce(a: JsNumber, b: JsNumber, x: seq<nat>, y: seq<nat>)
    requires EncodeNumber(a) + x == EncodeNumber(b) + y
    ensures a == b && x == y
  {
    assert EncodeInt(a.mantissa) + (EncodeInt(a.exponent) + x) == EncodeNumber(a) + x;
    assert EncodeInt(b.mantissa) + (EncodeInt(b.exponent) + y) == EncodeNumber(b) + y;
    IntOnce(a.mantissa, b.mantissa, EncodeInt(a.exponent) + x, EncodeInt(b.exponent) + y);
    IntOnce(a.exponent, b.exponent, x, y);
  }

  lemma UnitsOnce(a: JsString, b: JsString, x: seq<nat>, y: seq<nat>)
    requires EncodeUnits(a) + x == EncodeUnits(b) + y
    ensures a == b && x == y
  {
    var m, n := EncodeUnits(a)[1..], EncodeUnits(b)[1..];
    SameLength(|a|, m, |b|, n, x, y);
    assert forall i :: 0 <= i < |a| ==> a[i] as int == m[i] == n[i] == b[i] as int;
  }

  lemma TextOnce(a: string, b: string, x: seq<nat>, y: seq<nat>)
    requires EncodeText(a) + x == EncodeText(b) + y
    ensures a == b && x == y
  {
    var m, n := EncodeText(a)[1..], EncodeText(b)[1..];
    SameLength(|a|, m, |b|, n, x, y);
    assert forall i :: 0 <= i < |a| ==> a[i] as int == m[i] == n[i] == b[i] as int;
  }

  lemma OptionalOnce<T>(a: Option<T>, b: Option<T>, encode: T -> seq<nat>, x: seq<nat>, y: seq<nat>)
    requires EncodeOptional(a, encode) + x == EncodeOptional(b, encode) + y
    ensures a.Some? == b.Some?
    ensures if a.Some? then encode(a.value) + x == encode(b.value) + y else x == y
  {
    FrontOf(EncodeOptional(a, encode), x);
    FrontOf(EncodeOptional(b, encode), y);
    if a.Some? {
      assert EncodeOptional(a, encode)[1..] == encode(a.value);
      assert EncodeOptional(b, encode)[1..] == encode(b.value);
    } else {
      assert [] + x == x && [] + y == y;
    }
  }

  lemma FrontOf(a: seq<nat>, x: seq<nat>)
    requires a != []
    ensures (a + x)[0] == a[0] && (a + x)[1..] == a[1..] + x
  {
  }

  lemma OptionalUnitsOnce(a: Option<JsString>, b: Option<JsString>, x: seq<nat>, y: seq<nat>)
    requires EncodeOptional(a, EncodeUnits) + x == EncodeOptional(b, EncodeUnits) + y
    ensures a == b && x == y
  {
    OptionalOnce(a, b, EncodeUnits, x, y);
    if a.Some? { UnitsOnce(a.value, b.value, x, y); }
  }

  lemma OptionalTextOnce(a: Option<string>, b: Option<string>, x: seq<nat>, y: seq<nat>)
    requires EncodeOptional(a, EncodeText) + x == EncodeOptional(b, EncodeText) + y
    ensures a == b && x == y
  {
    OptionalOnce(a, b, EncodeText, x, y);
    if a.Some? { TextOnce(a.value, b.value, x, y); }
  }

  function EncodeEvent(v: BoardEvent): seq<nat> {
    EncodeText(v.name)
    + (EncodeOptional(v.from, EncodeUnits) + (EncodeOptional(v.to, EncodeUnits) + EncodeOptional(v.title, EncodeUnits)))
  }

  lemma Peel(a: seq<nat>, b: seq<nat>, x: seq<nat>)
    ensures (a + b) + x == a + (b + x)
  {
  }

  lemma EventOnce(a: BoardEvent, b: BoardEvent, x: seq<nat>, y: seq<nat>)
    requires EncodeEvent(a) + x == EncodeEvent(b) + y
    ensures a == b && x == y
  {
    var a3, b3 := EncodeOptional(a.title, EncodeUnits), EncodeOptional(b.title, EncodeUnits);
    var a2, b2 := EncodeOptional(a.to, EncodeUnits), EncodeOptional(b.to, EncodeUnits);
    var a1, b1 := EncodeOptional(a.from, EncodeUnits), EncodeOptional(b.from, EncodeUnits);
    Peel(EncodeText(a.name), a1 + (a2 + a3), x);
    Peel(EncodeText(b.name), b1 + (b2 + b3), y);
    TextOnce(a.name, b.name, (a1 + (a2 + a3)) + x, (b1 + (b2 + b3)) + y);
    Peel(a1, a2 + a3, x);
    Peel(b1, b2 + b3, y);
    OptionalUnitsOnce(a.from, b.from, (a2 + a3) + x, (b2 + b3) + y);
    Peel(a2, a3, x);
    Peel(b2, b3, y);
    OptionalUnitsOnce(a.to, b.to, a3 + x, b3 + y);
    OptionalUnitsOnce(a.title, b.title, x, y);
  }

  lemma HeadOnce(m: nat, a: seq<nat>, n: nat, b: seq<nat>, x: seq<nat>, y: seq<nat>)
    requires ([m] + a) + x == ([n] + b) + y
    ensures m == n && a + x == b + y
  {
    var s := ([m] + a) + x;
    assert s[0] == m == n;
    assert s[1..] == a + x && (([n] + b) + y)[1..] == b + y;
  }

  function KindCode(k: MediaKind): nat {
    match k
    case File => 0
    case Image => 1
    case Audio => 2
    case Video => 3
  }

  function AttachmentTail(a: Attachment): seq<nat> {
    [KindCode(a.kind)] + (EncodeOptional(a.mimeType, EncodeText) + (EncodeNumber(a.bytes) + EncodeText(a.sha256)))
  }

  function EncodeAttachment(a: Attachment): seq<nat> {
    EncodeText(a.id) + (EncodeText(a.ref) + (EncodeText(a.displayName) + AttachmentTail(a)))
  }

  lemma TailOnce(a: Attachment, b: Attachment, x: seq<nat>, y: seq<nat>)
    requires AttachmentTail(a) + x == AttachmentTail(b) + y
    ensures a.kind == b.kind && a.mimeType == b.mimeType && a.bytes == b.bytes && a.sha256 == b.sha256 && x == y
  {
    var a1, b1 := EncodeOptional(a.mimeType, EncodeText), EncodeOptional(b.mimeType, EncodeText);
    var a2, b2 := EncodeNumber(a.bytes), EncodeNumber(b.bytes);
    var a3, b3 := EncodeText(a.sha256), EncodeText(b.sha256);
    HeadOnce(KindCode(a.kind), a1 + (a2 + a3), KindCode(b.kind), b1 + (b2 + b3), x, y);
    Peel(a1, a2 + a3, x);
    Peel(b1, b2 + b3, y);
    OptionalTextOnce(a.mimeType, b.mimeType, (a2 + a3) + x, (b2 + b3) + y);
    Peel(a2, a3, x);
    Peel(b2, b3, y);
    NumberOnce(a.bytes, b.bytes, a3 + x, b3 + y);
    TextOnce(a.sha256, b.sha256, x, y);
  }

  lemma AttachmentOnce(a: Attachment, b: Attachment, x: seq<nat>, y: seq<nat>)
    requires EncodeAttachment(a) + x == EncodeAttachment(b) + y
    ensures a == b && x == y
  {
    var a1, b1 := EncodeText(a.ref), EncodeText(b.ref);
    var a2, b2 := EncodeText(a.displayName), EncodeText(b.displayName);
    var a3, b3 := AttachmentTail(a), AttachmentTail(b);
    Peel(EncodeText(a.id), a1 + (a2 + a3), x);
    Peel(EncodeText(b.id), b1 + (b2 + b3), y);
    TextOnce(a.id, b.id, (a1 + (a2 + a3)) + x, (b1 + (b2 + b3)) + y);
    Peel(a1, a2 + a3, x);
    Peel(b1, b2 + b3, y);
    TextOnce(a.ref, b.ref, (a2 + a3) + x, (b2 + b3) + y);
    Peel(a2, a3, x);
    Peel(b2, b3, y);
    TextOnce(a.displayName, b.displayName, a3 + x, b3 + y);
    TailOnce(a, b, x, y);
  }

  function EncodeEach(attachments: seq<Attachment>): seq<nat> {
    if attachments == [] then [0] else [1] + (EncodeAttachment(attachments[0]) + EncodeEach(attachments[1..]))
  }

  /** What follows the mark at the front of a list. */
  function EachRest(attachments: seq<Attachment>): seq<nat> {
    if attachments == [] then [] else EncodeAttachment(attachments[0]) + EncodeEach(attachments[1..])
  }

  lemma {:induction false} EachOnce(a: seq<Attachment>, b: seq<Attachment>, x: seq<nat>, y: seq<nat>)
    requires EncodeEach(a) + x == EncodeEach(b) + y
    ensures a == b && x == y
    decreases |a|
  {
    EachHead(a, b, x, y);
    if a != [] {
      EachStep(a, b, x, y);
      EachOnce(a[1..], b[1..], x, y);
      SameEnds(a, b);
    }
  }

  lemma SameEnds(a: seq<Attachment>, b: seq<Attachment>)
    requires a != [] && b != [] && a[0] == b[0] && a[1..] == b[1..]
    ensures a == b
  {
    assert a == [a[0]] + a[1..] && b == [b[0]] + b[1..];
  }

  lemma EachStep(a: seq<Attachment>, b: seq<Attachment>, x: seq<nat>, y: seq<nat>)
    requires a != [] && b != [] && EachRest(a) + x == EachRest(b) + y
    ensures a[0] == b[0] && EncodeEach(a[1..]) + x == EncodeEach(b[1..]) + y
  {
    FirstOnce(a[0], b[0], EncodeEach(a[1..]), EncodeEach(b[1..]), x, y);
  }

  lemma FirstOnce(a: Attachment, b: Attachment, p: seq<nat>, q: seq<nat>, x: seq<nat>, y: seq<nat>)
    requires (EncodeAttachment(a) + p) + x == (EncodeAttachment(b) + q) + y
    ensures a == b && p + x == q + y
  {
    Peel(EncodeAttachment(a), p, x);
    Peel(EncodeAttachment(b), q, y);
    AttachmentOnce(a, b, p + x, q + y);
  }

  lemma EachHead(a: seq<Attachment>, b: seq<Attachment>, x: seq<nat>, y: seq<nat>)
    requires EncodeEach(a) + x == EncodeEach(b) + y
    ensures a == [] <==> b == []
    ensures EachRest(a) + x == EachRest(b) + y
    ensures a == [] ==> x == y
  {
    assert [0] + [] == [0] && [] + x == x && [] + y == y;
    HeadOnce(if a == [] then 0 else 1, EachRest(a), if b == [] then 0 else 1, EachRest(b), x, y);
  }

  function EncodeBack(e: Entry): seq<nat> {
    EncodeOptional(e.event, EncodeEvent)
    + (EncodeOptional(e.attachments, EncodeEach)
       + (EncodeOptional(e.sessionId, EncodeText) + EncodeOptional(e.issues, EncodeText)))
  }

  function EncodeMiddle(e: Entry): seq<nat> {
    [if e.kind.Comment? then 0 else 1]
    + (EncodeOptional(e.nodeId, EncodeUnits) + (EncodeOptional(e.text, EncodeUnits) + EncodeBack(e)))
  }

  function EncodeEntry(e: Entry): seq<nat> {
    EncodeUnits(e.id)
    + (EncodeNumber(e.ts) + (EncodeUnits(e.authorName) + (EncodeUnits(e.authorColor) + EncodeMiddle(e))))
  }

  lemma BackOnce(a: Entry, b: Entry, x: seq<nat>, y: seq<nat>)
    requires EncodeBack(a) + x == EncodeBack(b) + y
    ensures a.event == b.event && a.attachments == b.attachments && a.sessionId == b.sessionId && a.issues == b.issues
  {
    var a0, b0 := EncodeOptional(a.event, EncodeEvent), EncodeOptional(b.event, EncodeEvent);
    var a1, b1 := EncodeOptional(a.attachments, EncodeEach), EncodeOptional(b.attachments, EncodeEach);
    var a2, b2 := EncodeOptional(a.sessionId, EncodeText), EncodeOptional(b.sessionId, EncodeText);
    var a3, b3 := EncodeOptional(a.issues, EncodeText), EncodeOptional(b.issues, EncodeText);
    Peel(a0, a1 + (a2 + a3), x);
    Peel(b0, b1 + (b2 + b3), y);
    OptionalOnce(a.event, b.event, EncodeEvent, (a1 + (a2 + a3)) + x, (b1 + (b2 + b3)) + y);
    if a.event.Some? { EventOnce(a.event.value, b.event.value, (a1 + (a2 + a3)) + x, (b1 + (b2 + b3)) + y); }
    Peel(a1, a2 + a3, x);
    Peel(b1, b2 + b3, y);
    OptionalOnce(a.attachments, b.attachments, EncodeEach, (a2 + a3) + x, (b2 + b3) + y);
    if a.attachments.Some? { EachOnce(a.attachments.value, b.attachments.value, (a2 + a3) + x, (b2 + b3) + y); }
    Peel(a2, a3, x);
    Peel(b2, b3, y);
    OptionalTextOnce(a.sessionId, b.sessionId, a3 + x, b3 + y);
    OptionalTextOnce(a.issues, b.issues, x, y);
  }

  lemma MiddleOnce(a: Entry, b: Entry, x: seq<nat>, y: seq<nat>)
    requires EncodeMiddle(a) + x == EncodeMiddle(b) + y
    ensures a.kind == b.kind && a.nodeId == b.nodeId && a.text == b.text && EncodeBack(a) + x == EncodeBack(b) + y
  {
    var a1, b1 := EncodeOptional(a.nodeId, EncodeUnits), EncodeOptional(b.nodeId, EncodeUnits);
    var a2, b2 := EncodeOptional(a.text, EncodeUnits), EncodeOptional(b.text, EncodeUnits);
    var a3, b3 := EncodeBack(a), EncodeBack(b);
    HeadOnce(if a.kind.Comment? then 0 else 1, a1 + (a2 + a3), if b.kind.Comment? then 0 else 1, b1 + (b2 + b3), x, y);
    Peel(a1, a2 + a3, x);
    Peel(b1, b2 + b3, y);
    OptionalUnitsOnce(a.nodeId, b.nodeId, (a2 + a3) + x, (b2 + b3) + y);
    Peel(a2, a3, x);
    Peel(b2, b3, y);
    OptionalUnitsOnce(a.text, b.text, a3 + x, b3 + y);
  }

  lemma EntryOnce(a: Entry, b: Entry)
    requires EncodeEntry(a) == EncodeEntry(b)
    ensures a == b
  {
    var a1, b1 := EncodeNumber(a.ts), EncodeNumber(b.ts);
    var a2, b2 := EncodeUnits(a.authorName), EncodeUnits(b.authorName);
    var a3, b3 := EncodeUnits(a.authorColor), EncodeUnits(b.authorColor);
    var a4, b4 := EncodeMiddle(a), EncodeMiddle(b);
    UnitsOnce(a.id, b.id, a1 + (a2 + (a3 + a4)), b1 + (b2 + (b3 + b4)));
    NumberOnce(a.ts, b.ts, a2 + (a3 + a4), b2 + (b3 + b4));
    UnitsOnce(a.authorName, b.authorName, a3 + a4, b3 + b4);
    UnitsOnce(a.authorColor, b.authorColor, a4, b4);
    assert a4 + [] == a4 && b4 + [] == b4;
    MiddleOnce(a, b, [], []);
    BackOnce(a, b, [], []);
  }

  // ---- the codec ----------------------------------------------------------------------------

  function Stringify(e: Entry): string { "[" + Digits(EncodeEntry(e)) + "]" }

  ghost function ParseBack(s: string): Option<Entry> {
    if exists e: Entry :: Stringify(e) == s then
      var e: Entry :| Stringify(e) == s;
      Some(e)
    else None
  }

  lemma StringifyInjective(a: Entry, b: Entry)
    requires Stringify(a) == Stringify(b)
    ensures a == b
  {
    var x, y := Digits(EncodeEntry(a)), Digits(EncodeEntry(b));
    assert Stringify(a)[1..|x| + 1] == x && Stringify(b)[1..|y| + 1] == y;
    DigitsInjective(EncodeEntry(a), EncodeEntry(b));
    EntryOnce(a, b);
  }

  /** The laws asked of JSON can be met. */
  lemma LawfulCodecExists() returns (json: Codec)
    ensures Lawful(json) && json.stringify == Stringify
  {
    json := Codec(Stringify, s => ParseBack(s));
    forall e: Entry ensures Document(json, e) {
      var s := Stringify(e);
      DigitsPlain(EncodeEntry(e));
      assert '\n' !in s;
      TrimFixed(s);
      StringifyInjective(e, ParseBack(s).value);
    }
  }

  // ---- a read that rotations overlap --------------------------------------------------------

  function Plain(e: Entry): AppendOp { AppendOp(e, Succeeds, true) }

  /** An entry that fills more than half of a log file. */
  predicate Large(json: Codec, e: Entry) {
    Acceptable(json, e) && Clamp(e) == e && 2 * Utf8Length(BuildLine(json, e)) > LOG_MAX_BYTES
  }

  lemma FirstLarge(json: Codec, e: Entry)
    requires Large(json, e)
    ensures Run(json, [Plain(e)]) == Trace(Log(Some(BuildLine(json, e)), None), [e], 0, 0)
  {
    var ops := [Plain(e)];
    assert ops[..0] == [];
    assert "" + BuildLine(json, e) == BuildLine(json, e);
  }

  /** With a large entry in the current file, another one rotates. */
  lemma NextLarge(json: Codec, t: Trace, e: Entry, f: Entry)
    requires Large(json, e) && Large(json, f) && t.log.current == Some(BuildLine(json, e))
    ensures Step(json, t, Plain(f))
         == Trace(Log(Some(BuildLine(json, f)), t.log.current), t.history + [f], t.mid, |t.history|)
  {
    assert "" + BuildLine(json, f) == BuildLine(json, f);
  }

  /** Where one, two and three large appends leave the log. */
  lemma LargeTraces(json: Codec, e: Entry, f: Entry, g: Entry)
    requires Large(json, e) && Large(json, f) && Large(json, g)
    ensures var t := Run(json, [Plain(e)]);
            var u, w := RunFrom(json, t, [Plain(f)]), RunFrom(json, t, [Plain(f), Plain(g)]);
            && t.log.current.Some? && t.history == [e] && t.low == 0 && t.mid == 0
            && u.history == [e, f] && u.low == 0 && u.mid == 1
            && w.history == [e, f, g] && w.low == 1 && w.mid == 2
  {
    var t := Run(json, [Plain(e)]);
    var one, two := [Plain(f)], [Plain(f), Plain(g)];
    FirstLarge(json, e);
    NextLarge(json, t, e, f);
    assert one[..0] == [] && RunFrom(json, t, []) == t;
    var u := RunFrom(json, t, one);
    NextLarge(json, u, f, g);
    assert two[..1] == one;
    assert [e] + [f] == [e, f] && [e, f] + [g] == [e, f, g];
  }

  /** One large append between the two opens: the only entry is returned twice. Two of them: a newer
      entry comes after an older one, and the newest is missing. */
  lemma LargeAppendsOverlap(json: Codec, e: Entry, f: Entry, g: Entry)
    requires Lawful(json) && Large(json, e) && Large(json, f) && Large(json, g)
    ensures var t := Run(json, [Plain(e)]);
            && t.log.current.Some? && ReadAll(json, t.log) == [e]
            && ReadAcross(json, t.log, RunFrom(json, t, [Plain(f)]).log) == [e, e]
            && ReadAcross(json, t.log, RunFrom(json, t, [Plain(f), Plain(g)]).log) == [e, f]
  {
    FirstEntryRead(json, e, f, g);
    OneRotation(json, e, f, g);
    TwoRotations(json, e, f, g);
  }

  lemma FirstEntryRead(json: Codec, e: Entry, f: Entry, g: Entry)
    requires Lawful(json) && Large(json, e) && Large(json, f) && Large(json, g)
    ensures var t := Run(json, [Plain(e)]);
            t.log.current.Some? && ReadAll(json, t.log) == [e]
  {
    LargeTraces(json, e, f, g);
    RunTracks(json, [Plain(e)]);
    ReadIsNewestSuffix(json, Run(json, [Plain(e)]));
    assert [e][0..] == [e];
    OneReversed(e);
  }

  lemma OneRotation(json: Codec, e: Entry, f: Entry, g: Entry)
    requires Lawful(json) && Large(json, e) && Large(json, f) && Large(json, g)
    ensures var t := Run(json, [Plain(e)]);
            ReadAcross(json, t.log, RunFrom(json, t, [Plain(f)]).log) == [e, e]
  {
    LargeTraces(json, e, f, g);
    RunTracks(json, [Plain(e)]);
    ReadAcrossRun(json, Run(json, [Plain(e)]), [Plain(f)]);
    assert [e][0..] == [e] && [e, f][0..1] == [e];
    OneReversed(e);
  }

  lemma TwoRotations(json: Codec, e: Entry, f: Entry, g: Entry)
    requires Lawful(json) && Large(json, e) && Large(json, f) && Large(json, g)
    ensures var t := Run(json, [Plain(e)]);
            ReadAcross(json, t.log, RunFrom(json, t, [Plain(f), Plain(g)]).log) == [e, f]
  {
    LargeTraces(json, e, f, g);
    RunTracks(json, [Plain(e)]);
    ReadAcrossRun(json, Run(json, [Plain(e)]), [Plain(f), Plain(g)]);
    assert [e][0..] == [e] && [e, f, g][1..2] == [f];
    OneReversed(e);
    OneReversed(f);
  }

  lemma OneReversed(e: Entry)
    ensures Reverse([e]) == [e]
  {
    assert [e][1..] == [] && Reverse<Entry>([]) == [];
  }

  // ---- such entries exist -------------------------------------------------------------------

  // In JSON too the id fills more than half of a log file: each unit takes three bytes there.
  const MANY: nat := 200000
  const UNIT: CodeUnit := 9999

  /** An entry that names a node with a very long id. */
  function LongEntry(n: JsNumber): Entry {
    Entry([65], n, [65], [], Comment, Some(seq(MANY, _ => UNIT)), None, None, None, None, None)
  }

  lemma {:induction false} DigitsConcat(a: seq<nat>, b: seq<nat>)
    ensures Digits(a + b) == Digits(a) + Digits(b)
  {
    if a == [] {
      assert a + b == b;
    } else {
      assert (a + b)[1..] == a[1..] + b;
      DigitsConcat(a[1..], b);
      Associate(Decimal(a[0]) + ",", Digits(a[1..]), Digits(b));
    }
  }

  function PowerOfTen(n: nat): (p: nat)
    ensures p >= 1
  {
    if n == 0 then 1 else 10 * PowerOfTen(n - 1)
  }

  lemma {:induction false} DecimalAtMost(n: nat, k: nat)
    requires k > 0 && n < PowerOfTen(k)
    ensures |Decimal(n)| <= k
  {
    if n >= 10 {
      assert k > 1 by { assert PowerOfTen(0) == 1; }
      DecimalAtMost(n / 10, k - 1);
    }
  }

  lemma {:induction false} DigitsAtMost(ns: seq<nat>)
    requires forall i :: 0 <= i < |ns| ==> ns[i] < PowerOfTen(6)
    ensures |Digits(ns)| <= 7 * |ns|
  {
    if ns != [] {
      DecimalAtMost(ns[0], 6);
      DigitsAtMost(ns[1..]);
    }
  }

  lemma {:induction false} DigitsOfUnits(k: nat, ns: seq<nat>)
    requires |ns| == k && forall i :: 0 <= i < k ==> ns[i] == 9999
    ensures |Digits(ns)| == 5 * k
  {
    if k > 0 {
      assert |Decimal(9)| == 1 && |Decimal(99)| == 2 && |Decimal(999)| == 3;
      DigitsOfUnits(k - 1, ns[1..]);
    }
  }

  lemma LongShape(n: JsNumber, pre: seq<nat>, units: seq<nat>, post: seq<nat>)
    requires n.mantissa >= 0 && n.exponent == 0
    requires pre == [1, 65, 0, n.mantissa, 0, 0, 1, 65, 0, 0, 1, MANY] && post == [0, 0, 0, 0, 0]
    requires |units| == MANY && forall i :: 0 <= i < MANY ==> units[i] == 9999
    ensures EncodeEntry(LongEntry(n)) == pre + units + post
  {
    var e := LongEntry(n);
    var node := e.nodeId.value;
    assert EncodeUnits(node) == [MANY] + units;
    assert EncodeUnits([65]) == [1, 65] && EncodeUnits([]) == [0];
    assert EncodeNumber(n) == [0, n.mantissa, 0, 0];
    assert EncodeBack(e) == [0, 0, 0, 0];
    assert EncodeMiddle(e) == [0] + (([1] + ([MANY] + units)) + ([0] + [0, 0, 0, 0]));
  }

  lemma {:induction false} AsciiBytes(s: string)
    requires forall i :: 0 <= i < |s| ==> (s[i] as int) < 0x80
    ensures Utf8Length(s) == |s|
  {
    if s != "" { AsciiBytes(s[1..]); }
  }

  lemma PartsLength(pre: seq<nat>, units: seq<nat>, post: seq<nat>)
    requires |pre| == 12 && |post| == 5 && |units| == MANY
    requires forall i :: 0 <= i < |pre| ==> pre[i] < 1000000
    requires forall i :: 0 <= i < |post| ==> post[i] < 1000000
    requires forall i :: 0 <= i < MANY ==> units[i] == 9999
    ensures 1000000 <= |Digits(pre + units + post)| <= 1000119
  {
    DigitsConcat(pre + units, post);
    DigitsConcat(pre, units);
    Million();
    DigitsAtMost(pre);
    DigitsAtMost(post);
    DigitsOfUnits(MANY, units);
  }

  lemma BracketedBytes(ns: seq<nat>)
    ensures Utf8Length("[" + Digits(ns) + "]") == |Digits(ns)| + 2
  {
    DigitsPlain(ns);
    AsciiBytes("[" + Digits(ns) + "]");
  }

  /** The numbers of a long entry: a few, then the node id, then a few. */
  lemma LongParts(n: JsNumber) returns (pre: seq<nat>, units: seq<nat>, post: seq<nat>)
    requires 0 <= n.mantissa < 1000000 && n.exponent == 0
    ensures |pre| == 12 && |post| == 5 && |units| == MANY
    ensures forall i :: 0 <= i < |pre| ==> pre[i] < 1000000
    ensures forall i :: 0 <= i < |post| ==> post[i] < 1000000
    ensures forall i :: 0 <= i < MANY ==> units[i] == 9999
    ensures EncodeEntry(LongEntry(n)) == pre + units + post
  {
    pre, post := [1, 65, 0, n.mantissa, 0, 0, 1, 65, 0, 0, 1, MANY], [0, 0, 0, 0, 0];
    units := seq(MANY, _ => 9999);
    LongShape(n, pre, units, post);
  }

  lemma LongLength(n: JsNumber)
    requires 0 <= n.mantissa < 1000000 && n.exponent == 0
    ensures 1000000 <= Utf8Length(Stringify(LongEntry(n))) <= 1000121
  {
    var pre, units, post := LongParts(n);
    PartsLength(pre, units, post);
    BracketedBytes(pre + units + post);
  }

  lemma Million()
    ensures PowerOfTen(6) == 1000000
  {
    assert PowerOfTen(3) == 1000;
    assert PowerOfTen(6) == 10 * (10 * (10 * PowerOfTen(3)));
  }

  lemma LongIsLarge(json: Codec, n: JsNumber)
    requires json.stringify == Stringify && 0 <= n.mantissa < 1000000 && n.exponent == 0
    ensures Large(json, LongEntry(n))
  {
    LongLength(n);
    Utf8LengthConcat(Stringify(LongEntry(n)), "\n");
    AsciiBytes("\n");
  }

  /** A log and two appends for which a read that they overlap goes wrong: after one append it
      returns the only entry twice, after two it returns a newer entry after an older one. */
  lemma OverlappedReadWitness() returns (json: Codec, e: Entry, f: Entry, g: Entry)
    ensures Lawful(json) && e != f && f != g && e != g
    ensures var t := Run(json, [Plain(e)]);
            && t.log.current.Some? && ReadAll(json, t.log) == [e]
            && ReadAcross(json, t.log, RunFrom(json, t, [Plain(f)]).log) == [e, e]
            && ReadAcross(json, t.log, RunFrom(json, t, [Plain(f), Plain(g)]).log) == [e, f]
  {
    json := LawfulCodecExists();
    e, f, g := LongEntry(Double(1, 0)), LongEntry(Double(3, 0)), LongEntry(Double(5, 0));
    assert e.ts != f.ts && f.ts != g.ts && e.ts != g.ts;
    LongIsLarge(json, Double(1, 0));
    LongIsLarge(json, Double(3, 0));
    LongIsLarge(json, Double(5, 0));
    LargeAppendsOverlap(json, e, f, g);
  }
}
