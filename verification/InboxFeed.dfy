/** The agent inbox feed: its events, the capped trim that protects each node's load-bearing
    events, and the resolutions that mark events settled. The main result is that trimming after
    every push is the same as trimming the whole history once. */
module InboxFeed {

  import opened Wrappers

  datatype InboxKind = Approval | Question | Finished

  datatype InboxEvent = InboxEvent(
    id: string,
    ts: nat,
    nodeId: string,
    kind: InboxKind,
    title: string,
    resolved: bool,
    interrupted: bool,
    options: seq<string>,
    pendingId: Option<string>)

  const INBOX_EVENTS_CAP: nat := 50

  /** An unresolved approval or question. */
  predicate IsOpenAsk(e: InboxEvent) { !e.resolved && !e.kind.Finished? }

  // ---- what the feed knows about each node --------------------------------------------------

  /** The two kinds of event a trim must not lose. */
  datatype Role = DoneRole | AskRole

  predicate Plays(e: InboxEvent, role: Role) {
    if role.DoneRole? then e.kind.Finished? else IsOpenAsk(e)
  }

  /** The nodes with an event of the given role. */
  function Nodes(h: seq<InboxEvent>, role: Role): set<string> {
    if h == [] then {} else (if Plays(h[0], role) then {h[0].nodeId} else {}) + Nodes(h[1..], role)
  }

  /** `e`, followed in the feed by `later`, is its node's newest event of the given role. */
  predicate NewestOf(e: InboxEvent, later: seq<InboxEvent>, role: Role) {
    Plays(e, role) && e.nodeId !in Nodes(later, role)
  }

  /** `e` is its node's newest done or newest unresolved ask. */
  predicate Protected(e: InboxEvent, later: seq<InboxEvent>) {
    NewestOf(e, later, DoneRole) || NewestOf(e, later, AskRole)
  }

  /** The trimmed feed: the newest `cap` events, and of the older ones only the protected. */
  function Trimmed(h: seq<InboxEvent>, cap: nat): seq<InboxEvent> {
    if |h| <= cap then h
    else (if Protected(h[0], h[1..]) then [h[0]] else []) + Trimmed(h[1..], cap)
  }

  function ResolveAsks(h: seq<InboxEvent>, n: string): (r: seq<InboxEvent>)
    ensures |r| == |h|
  {
    if h == [] then []
    else
      [if h[0].nodeId == n && IsOpenAsk(h[0]) then h[0].(resolved := true) else h[0]]
      + ResolveAsks(h[1..], n)
  }

  function AckDones(h: seq<InboxEvent>, n: string): (r: seq<InboxEvent>)
    ensures |r| == |h|
  {
    if h == [] then []
    else
      [if h[0].nodeId == n && h[0].kind.Finished? then h[0].(resolved := true) else h[0]]
      + AckDones(h[1..], n)
  }

  // ---- what a trim keeps --------------------------------------------------------------------

  ghost predicate Subsequence<T>(a: seq<T>, b: seq<T>) {
    if a == [] then true
    else b != [] && ((a[0] == b[0] && Subsequence(a[1..], b[1..])) || Subsequence(a, b[1..]))
  }

  /** The trim is an ordered subsequence of the history and ends with its newest `cap` events. */
  lemma {:induction false} TrimIsSubsequence(h: seq<InboxEvent>, cap: nat)
    ensures Subsequence(Trimmed(h, cap), h)
    ensures |h| >= cap ==> |Trimmed(h, cap)| >= cap && Last(Trimmed(h, cap), cap) == Last(h, cap)
    ensures |h| <= cap ==> Trimmed(h, cap) == h
  {
    TrimKeepsOrder(h, cap);
    if |h| >= cap {
      var older := TrimKeepsWindow(h, cap);
      LastOfConcat(older, Last(h, cap));
    }
  }

  lemma {:induction false} TrimKeepsOrder(h: seq<InboxEvent>, cap: nat)
    ensures Subsequence(Trimmed(h, cap), h)
  {
    if |h| <= cap {
      SubsequenceReflexive(h);
    } else {
      TrimKeepsOrder(h[1..], cap);
      var t := Trimmed(h[1..], cap);
      assert ([h[0]] + t)[1..] == t && [] + t == t;
    }
  }

  function Last<T>(s: seq<T>, k: nat): seq<T>
    requires k <= |s|
  {
    s[|s| - k..]
  }

  /** The window comes last in the trim; `older` is what the trim kept from before it. */
  lemma {:induction false} TrimKeepsWindow(h: seq<InboxEvent>, cap: nat) returns (older: seq<InboxEvent>)
    requires |h| >= cap
    ensures Trimmed(h, cap) == older + Last(h, cap)
  {
    older := [];
    if |h| > cap {
      var kept := if Protected(h[0], h[1..]) then [h[0]] else [];
      var rest := TrimKeepsWindow(h[1..], cap);
      older := kept + rest;
      LastOfTail(h, cap);
      Regroup(kept, rest, Last(h, cap));
    }
  }

  lemma LastOfTail<T>(s: seq<T>, k: nat)
    requires k < |s|
    ensures Last(s[1..], k) == Last(s, k)
  {
  }

  lemma LastOfConcat<T>(s: seq<T>, t: seq<T>)
    ensures Last(s + t, |t|) == t
  {
  }

  lemma Regroup<T>(a: seq<T>, b: seq<T>, c: seq<T>)
    ensures a + (b + c) == (a + b) + c
  {
  }

  lemma {:induction false} SubsequenceReflexive<T>(a: seq<T>)
    ensures Subsequence(a, a)
  {
    if a != [] { SubsequenceReflexive(a[1..]); }
  }

  lemma {:induction false} NodesExactly(h: seq<InboxEvent>, n: string)
    ensures n in Nodes(h, DoneRole) <==> exists x :: x in h && x.nodeId == n && x.kind.Finished?
    ensures n in Nodes(h, AskRole) <==> exists x :: x in h && x.nodeId == n && !x.kind.Finished? && !x.resolved
  {
    if h != [] {
      NodesExactly(h[1..], n);
      assert h[0] in h && forall x :: x in h ==> x == h[0] || x in h[1..];
    }
  }

  /** An event survives the trim exactly when it is among the newest `cap`, or is its node's newest
      finished card, or its node's newest unresolved ask; stated for one occurrence, with `pre` before
      it and `later` after it. */
  lemma TrimKeepsExactly(pre: seq<InboxEvent>, e: InboxEvent, later: seq<InboxEvent>, cap: nat)
    requires e !in pre && e !in later
    ensures e in Trimmed(pre + [e] + later, cap)
            <==> || |later| < cap
                 || (e.kind.Finished? && !exists x :: x in later && x.nodeId == e.nodeId && x.kind.Finished?)
                 || (!e.kind.Finished? && !e.resolved
                     && !exists x :: x in later && x.nodeId == e.nodeId && !x.kind.Finished? && !x.resolved)
  {
    TrimKeepsProtected(pre, e, later, cap);
    NodesExactly(later, e.nodeId);
  }

  lemma {:induction false} TrimKeepsProtected(pre: seq<InboxEvent>, e: InboxEvent, later: seq<InboxEvent>, cap: nat)
    requires e !in pre && e !in later
    ensures e in Trimmed(pre + [e] + later, cap) <==> |later| < cap || Protected(e, later)
  {
    var h := pre + [e] + later;
    if |h| <= cap {
      assert h[|pre|] == e;
    } else if pre == [] {
      assert h[0] == e && h[1..] == later;
      TrimOnlyKeeps(later, cap);
    } else {
      assert h[0] == pre[0] && h[1..] == pre[1..] + [e] + later;
      TrimKeepsProtected(pre[1..], e, later, cap);
      assert e != pre[0];
    }
  }

  lemma {:induction false} TrimOnlyKeeps(h: seq<InboxEvent>, cap: nat)
    ensures forall x :: x in Trimmed(h, cap) ==> x in h
  {
    if |h| > cap { TrimOnlyKeeps(h[1..], cap); }
  }

  /** Beyond the newest `cap` events a trim retains at most one done and one ask for each node. */
  lemma {:induction false} TrimLength(h: seq<InboxEvent>, cap: nat)
    ensures |Trimmed(h, cap)| <= cap + |Nodes(h, DoneRole)| + |Nodes(h, AskRole)|
  {
    if |h| > cap {
      TrimLength(h[1..], cap);
      NodesCard(h, DoneRole);
      NodesCard(h, AskRole);
    }
  }

  lemma NodesCard(h: seq<InboxEvent>, role: Role)
    requires h != []
    ensures |Nodes(h, role)| == |Nodes(h[1..], role)| + (if NewestOf(h[0], h[1..], role) then 1 else 0)
  {
    var x, rest := h[0].nodeId, Nodes(h[1..], role);
    if Plays(h[0], role) {
      CardGrows(rest, x);
      assert Nodes(h, role) == {x} + rest;
    } else {
      assert Nodes(h, role) == {} + rest;
    }
  }

  lemma CardGrows(s: set<string>, x: string)
    ensures |{x} + s| == if x in s then |s| else |s| + 1
  {
    if x in s { assert {x} + s == s; }
  }

  // ---- incremental trimming refines one-shot trimming ---------------------------------------

  /** `feed` is `hist` with some events dropped, none of them protected and none of them among the
      newest `cap`. */
  ghost predicate Covers(feed: seq<InboxEvent>, hist: seq<InboxEvent>, cap: nat) {
    if |hist| <= cap then feed == hist
    else
      || (feed != [] && feed[0] == hist[0] && Covers(feed[1..], hist[1..], cap))
      || (!Protected(hist[0], hist[1..]) && Covers(feed, hist[1..], cap))
  }

  lemma {:induction false} CoversNodes(feed: seq<InboxEvent>, hist: seq<InboxEvent>, cap: nat)
    requires Covers(feed, hist, cap)
    ensures forall role :: Nodes(feed, role) == Nodes(hist, role)
    ensures |hist| >= cap ==> |feed| >= cap
    ensures forall x :: x in feed ==> x in hist
  {
    if |hist| > cap {
      if feed != [] && feed[0] == hist[0] && Covers(feed[1..], hist[1..], cap) {
        CoversNodes(feed[1..], hist[1..], cap);
        assert forall x :: x in feed ==> x == feed[0] || x in feed[1..];
      } else {
        CoversNodes(feed, hist[1..], cap);
        assert !NewestOf(hist[0], hist[1..], DoneRole) && !NewestOf(hist[0], hist[1..], AskRole);
      }
    }
  }

  /** Whatever the feed dropped, trimming it and trimming the whole history agree. */
  lemma {:induction false} CoversTrim(feed: seq<InboxEvent>, hist: seq<InboxEvent>, cap: nat)
    requires Covers(feed, hist, cap)
    ensures Trimmed(feed, cap) == Trimmed(hist, cap)
  {
    if |hist| > cap {
      if feed != [] && feed[0] == hist[0] && Covers(feed[1..], hist[1..], cap) {
        CoversNodes(feed[1..], hist[1..], cap);
        CoversTrim(feed[1..], hist[1..], cap);
      } else {
        CoversTrim(feed, hist[1..], cap);
      }
    }
  }

  lemma {:induction false} TrimCovers(hist: seq<InboxEvent>, cap: nat)
    ensures Covers(Trimmed(hist, cap), hist, cap)
  {
    if |hist| > cap {
      TrimCovers(hist[1..], cap);
      var t := Trimmed(hist[1..], cap);
      if Protected(hist[0], hist[1..]) {
        assert Trimmed(hist, cap) == [hist[0]] + t;
        assert ([hist[0]] + t)[1..] == t;
      } else {
        assert Trimmed(hist, cap) == t;
      }
    }
  }

  lemma {:induction false} NodesAppend(a: seq<InboxEvent>, b: seq<InboxEvent>)
    ensures forall role :: Nodes(a + b, role) == Nodes(a, role) + Nodes(b, role)
  {
    if a == [] {
      assert a + b == b;
    } else {
      assert (a + b)[1..] == a[1..] + b;
      NodesAppend(a[1..], b);
    }
  }

  lemma {:induction false} CoversAppend(feed: seq<InboxEvent>, hist: seq<InboxEvent>, e: InboxEvent, cap: nat)
    requires Covers(feed, hist, cap)
    ensures Covers(feed + [e], hist + [e], cap)
  {
    if |hist| < cap {
    } else if hist == [] {
      TrimStep(e, cap);
    } else {
      assert (hist + [e])[1..] == hist[1..] + [e];
      NodesAppend(hist[1..], [e]);
      if feed != [] && feed[0] == hist[0] && (|hist| == cap || Covers(feed[1..], hist[1..], cap)) {
        assert (feed + [e])[1..] == feed[1..] + [e];
        CoversAppend(feed[1..], hist[1..], e, cap);
      } else {
        CoversAppend(feed, hist[1..], e, cap);
      }
    }
  }

  lemma TrimStep(e: InboxEvent, cap: nat)
    ensures Covers([e], [e], cap)
  {
    assert [e][1..] == [];
  }

  lemma {:induction false} ResolvedNodes(h: seq<InboxEvent>, n: string)
    ensures Nodes(ResolveAsks(h, n), DoneRole) == Nodes(h, DoneRole)
    ensures Nodes(ResolveAsks(h, n), AskRole) == Nodes(h, AskRole) - {n}
    ensures forall role :: Nodes(AckDones(h, n), role) == Nodes(h, role)
  {
    if h != [] { ResolvedNodes(h[1..], n); }
  }

  /** Resolving a node's asks, or acknowledging its dones, in the feed and in the history keeps the
      feed covering the history. */
  lemma {:induction false} CoversResolve(feed: seq<InboxEvent>, hist: seq<InboxEvent>, n: string, cap: nat)
    requires Covers(feed, hist, cap)
    ensures Covers(ResolveAsks(feed, n), ResolveAsks(hist, n), cap)
    ensures Covers(AckDones(feed, n), AckDones(hist, n), cap)
  {
    if |hist| > cap {
      ResolvedNodes(hist[1..], n);
      if feed != [] && feed[0] == hist[0] && Covers(feed[1..], hist[1..], cap) {
        CoversResolve(feed[1..], hist[1..], n, cap);
      } else {
        CoversResolve(feed, hist[1..], n, cap);
      }
    }
  }

  datatype FeedOp = Push(event: InboxEvent) | SettleAsks(node: string) | SettleDones(node: string)

  /** One step of the live feed: a push is followed by a trim. */
  function LiveStep(feed: seq<InboxEvent>, op: FeedOp): seq<InboxEvent> {
    match op
    case Push(e) => Trimmed(feed + [e], INBOX_EVENTS_CAP)
    case SettleAsks(n) => ResolveAsks(feed, n)
    case SettleDones(n) => AckDones(feed, n)
  }

  /** The same step on a feed that is never trimmed. */
  function WholeStep(hist: seq<InboxEvent>, op: FeedOp): seq<InboxEvent> {
    match op
    case Push(e) => hist + [e]
    case SettleAsks(n) => ResolveAsks(hist, n)
    case SettleDones(n) => AckDones(hist, n)
  }

  function LiveFeed(ops: seq<FeedOp>): seq<InboxEvent> {
    if ops == [] then [] else LiveStep(LiveFeed(ops[..|ops| - 1]), ops[|ops| - 1])
  }

  function WholeHistory(ops: seq<FeedOp>): seq<InboxEvent> {
    if ops == [] then [] else WholeStep(WholeHistory(ops[..|ops| - 1]), ops[|ops| - 1])
  }

  lemma CoversStep(feed: seq<InboxEvent>, hist: seq<InboxEvent>, op: FeedOp)
    requires Covers(feed, hist, INBOX_EVENTS_CAP)
    ensures Covers(LiveStep(feed, op), WholeStep(hist, op), INBOX_EVENTS_CAP)
    ensures op.Push? ==> LiveStep(feed, op) == Trimmed(WholeStep(hist, op), INBOX_EVENTS_CAP)
  {
    match op {
      case Push(e) =>
        CoversAppend(feed, hist, e, INBOX_EVENTS_CAP);
        CoversTrim(feed + [e], hist + [e], INBOX_EVENTS_CAP);
        TrimCovers(hist + [e], INBOX_EVENTS_CAP);
      case SettleAsks(n) => CoversResolve(feed, hist, n, INBOX_EVENTS_CAP);
      case SettleDones(n) => CoversResolve(feed, hist, n, INBOX_EVENTS_CAP);
    }
  }

  /** At every point of every run the feed covers the history, and after every push the live feed
      is the one-shot trim of everything ever pushed. */
  lemma {:induction false} IncrementalTrimIsOneShot(ops: seq<FeedOp>)
    ensures Covers(LiveFeed(ops), WholeHistory(ops), INBOX_EVENTS_CAP)
    ensures ops != [] && ops[|ops| - 1].Push? ==> LiveFeed(ops) == Trimmed(WholeHistory(ops), INBOX_EVENTS_CAP)
  {
    if ops != [] {
      var front := ops[..|ops| - 1];
      IncrementalTrimIsOneShot(front);
      CoversStep(LiveFeed(front), WholeHistory(front), ops[|ops| - 1]);
    }
  }

  // ---- the trim as the source writes it: protected events are found by id --------------------

  ghost predicate DistinctIds(h: seq<InboxEvent>) {
    forall i, j :: 0 <= i < j < |h| ==> h[i].id != h[j].id
  }

  /** The id of each node's newest event of a role; a later event overwrites an earlier one. */
  function Newest(h: seq<InboxEvent>, role: Role): map<string, string> {
    if h == [] then map[]
    else
      var front, e := Newest(h[..|h| - 1], role), h[|h| - 1];
      if Plays(e, role) then front[e.nodeId := e.id] else front
  }

  function ProtectedIds(h: seq<InboxEvent>): set<string> {
    Newest(h, DoneRole).Values + Newest(h, AskRole).Values
  }

  function KeepById(h: seq<InboxEvent>, ids: set<string>, cap: nat): seq<InboxEvent> {
    if |h| <= cap then h else (if h[0].id in ids then [h[0]] else []) + KeepById(h[1..], ids, cap)
  }

  function TrimById(h: seq<InboxEvent>, cap: nat): seq<InboxEvent> {
    KeepById(h, ProtectedIds(h), cap)
  }

  lemma {:induction false} NodesHas(h: seq<InboxEvent>, i: nat, role: Role)
    requires i < |h| && Plays(h[i], role)
    ensures h[i].nodeId in Nodes(h, role)
  {
    if i > 0 { NodesHas(h[1..], i - 1, role); }
  }

  lemma NodesSnoc(h: seq<InboxEvent>, e: InboxEvent, role: Role)
    ensures Nodes(h + [e], role) == Nodes(h, role) + (if Plays(e, role) then {e.nodeId} else {})
  {
    NodesAppend(h, [e]);
    assert [e][1..] == [];
    assert Nodes([e], role) == (if Plays(e, role) then {e.nodeId} else {}) + Nodes([], role);
  }

  lemma {:induction false} NewestAt(h: seq<InboxEvent>, n: string, role: Role) returns (i: nat)
    requires n in Newest(h, role)
    ensures i < |h| && h[i].id == Newest(h, role)[n] && h[i].nodeId == n && NewestOf(h[i], h[i + 1..], role)
  {
    var front, e := h[..|h| - 1], h[|h| - 1];
    if Plays(e, role) && e.nodeId == n {
      i := |h| - 1;
      assert h[i + 1..] == [];
    } else {
      i := NewestAt(front, n, role);
      assert h[i + 1..] == front[i + 1..] + [e];
      NodesSnoc(front[i + 1..], e, role);
    }
  }

  lemma {:induction false} NewestKeys(h: seq<InboxEvent>, role: Role)
    ensures Newest(h, role).Keys == Nodes(h, role)
  {
    if h != [] {
      var front, e := h[..|h| - 1], h[|h| - 1];
      assert h == front + [e];
      NewestKeys(front, role);
      NodesSnoc(front, e, role);
    }
  }

  /** When ids are distinct, an event holds its node's newest id exactly when it is the newest. */
  lemma NewestById(h: seq<InboxEvent>, k: nat, role: Role)
    requires DistinctIds(h) && k < |h|
    ensures h[k].id in Newest(h, role).Values <==> NewestOf(h[k], h[k + 1..], role)
  {
    var e := h[k];
    if e.id in Newest(h, role).Values {
      var n :| n in Newest(h, role) && Newest(h, role)[n] == e.id;
      var i := NewestAt(h, n, role);
      assert i == k;
    }
    if NewestOf(e, h[k + 1..], role) {
      NodesHas(h, k, role);
      NewestKeys(h, role);
      var i := NewestAt(h, e.nodeId, role);
      if i < k {
        assert h[i + 1..][k - i - 1] == e;
        NodesHas(h[i + 1..], k - i - 1, role);
      } else if k < i {
        assert h[k + 1..][i - k - 1] == h[i];
        NodesHas(h[k + 1..], i - k - 1, role);
      }
    }
  }

  lemma {:induction false} KeepByIdIsTrim(h: seq<InboxEvent>, k: nat, cap: nat)
    requires DistinctIds(h) && k <= |h|
    ensures KeepById(h[k..], ProtectedIds(h), cap) == Trimmed(h[k..], cap)
    decreases |h| - k
  {
    if |h| - k > cap {
      assert h[k..][1..] == h[k + 1..];
      NewestById(h, k, DoneRole);
      NewestById(h, k, AskRole);
      KeepByIdIsTrim(h, k + 1, cap);
    }
  }

  /** On a feed whose ids are distinct, protecting by id protects exactly the intended events. */
  lemma TrimByIdIsTrim(h: seq<InboxEvent>, cap: nat)
    requires DistinctIds(h)
    ensures TrimById(h, cap) == Trimmed(h, cap)
  {
    KeepByIdIsTrim(h, 0, cap);
    assert h[0..] == h;
  }

  lemma KeepByIdStep(h: seq<InboxEvent>, i: nat, ids: set<string>, cap: nat)
    requires i < |h|
    ensures KeepById(h[i..], ids, cap)
            == (if i >= |h| - cap || h[i].id in ids then [h[i]] else []) + KeepById(h[i + 1..], ids, cap)
  {
    assert h[i..] == [h[i]] + h[i + 1..];
    assert h[i..][1..] == h[i + 1..];
  }

  /** The source's two passes: one collects the newest id of each kind for each node, the other
      keeps the newest `cap` events and every protected older one. */
  method TrimInboxFeed(events: seq<InboxEvent>, cap: nat) returns (kept: seq<InboxEvent>)
    ensures kept == TrimById(events, cap)
    ensures DistinctIds(events) ==> kept == Trimmed(events, cap)
  {
    if |events| <= cap {
      kept := events;
    } else {
      var protectedIds := CollectProtectedIds(events);
      var windowStart := |events| - cap;
      kept := [];
      assert events[0..] == events;
      for i := 0 to |events|
        invariant TrimById(events, cap) == kept + KeepById(events[i..], protectedIds, cap)
      {
        KeepByIdStep(events, i, protectedIds, cap);
        if i >= windowStart || events[i].id in protectedIds {
          kept := kept + [events[i]];
        }
      }
    }
    if DistinctIds(events) { TrimByIdIsTrim(events, cap); }
  }

  method CollectProtectedIds(events: seq<InboxEvent>) returns (ids: set<string>)
    ensures ids == ProtectedIds(events)
  {
    var newestDoneId: map<string, string> := map[];
    var newestUnresolvedAskId: map<string, string> := map[];
    for k := 0 to |events|
      invariant newestDoneId == Newest(events[..k], DoneRole)
      invariant newestUnresolvedAskId == Newest(events[..k], AskRole)
    {
      var e := events[k];
      assert events[..k + 1][..k] == events[..k];
      if e.kind.Finished? {
        newestDoneId := newestDoneId[e.nodeId := e.id];
      } else if !e.resolved {
        newestUnresolvedAskId := newestUnresolvedAskId[e.nodeId := e.id];
      }
    }
    assert events[..|events|] == events;
    ids := newestDoneId.Values + newestUnresolvedAskId.Values;
  }
}
