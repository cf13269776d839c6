/** What holds after every run of mirror operations: the feed agrees with the node map, the last
    live edge agrees with the node's state, ids never repeat, and a pending question is held. */
module StatusInvariants {

  import opened Wrappers
  import opened Text
  import opened InboxFeed
  import opened StatusReducer
  import opened StatusMirror

  // ---- counting a node's open asks ----------------------------------------------------------

  /** The number of unresolved approvals and questions the feed holds for a node. */
  function OpenAsks(h: seq<InboxEvent>, n: string): nat {
    if h == [] then 0
    else (if h[0].nodeId == n && IsOpenAsk(h[0]) then 1 else 0) + OpenAsks(h[1..], n)
  }

  lemma {:induction false} OpenAsksNodes(h: seq<InboxEvent>, n: string)
    ensures n in Nodes(h, AskRole) <==> OpenAsks(h, n) > 0
  {
    if h != [] { OpenAsksNodes(h[1..], n); }
  }

  lemma {:induction false} OpenAsksAppend(h: seq<InboxEvent>, e: InboxEvent, n: string)
    ensures OpenAsks(h + [e], n) == OpenAsks(h, n) + (if e.nodeId == n && IsOpenAsk(e) then 1 else 0)
  {
    if h != [] {
      assert (h + [e])[1..] == h[1..] + [e];
      OpenAsksAppend(h[1..], e, n);
    }
  }

  /** Trimming cannot lose a node's only open ask. */
  lemma {:induction false} OpenAsksTrim(h: seq<InboxEvent>, n: string, cap: nat)
    requires OpenAsks(h, n) <= 1
    ensures OpenAsks(Trimmed(h, cap), n) == OpenAsks(h, n)
  {
    if |h| > cap {
      OpenAsksTrim(h[1..], n, cap);
      OpenAsksNodes(h[1..], n);
      var t := Trimmed(h[1..], cap);
      assert ([h[0]] + t)[1..] == t;
      assert [] + t == t;
    }
  }

  lemma {:induction false} OpenAsksResolve(h: seq<InboxEvent>, k: string, n: string)
    ensures OpenAsks(ResolveAsks(h, k), n) == if n == k then 0 else OpenAsks(h, n)
    ensures OpenAsks(AckDones(h, k), n) == OpenAsks(h, n)
  {
    if h != [] { OpenAsksResolve(h[1..], k, n); }
  }

  // ---- ids ----------------------------------------------------------------------------------

  /** Every numbered id in the feed carries a number the counter has already passed. */
  ghost predicate IdsUpTo(h: seq<InboxEvent>, seqNo: nat) {
    forall i :: 0 <= i < |h| ==>
      TrailingNumber(h[i].id).Some? ==> TrailingNumber(h[i].id).value <= seqNo
  }

  lemma FreshId(h: seq<InboxEvent>, ts: nat, seqNo: nat)
    requires IdsUpTo(h, seqNo)
    ensures TrailingNumber(EventId(ts, seqNo + 1)) == Some(seqNo + 1)
    ensures forall i :: 0 <= i < |h| ==> h[i].id != EventId(ts, seqNo + 1)
  {
    TrailingNumberOf(Decimal(ts), seqNo + 1);
  }

  /** The same events, up to the resolved flag. */
  ghost predicate SameIds(a: seq<InboxEvent>, b: seq<InboxEvent>) {
    |a| == |b| && forall i :: 0 <= i < |a| ==> a[i].id == b[i].id
  }

  lemma {:induction false} ResolveKeepsIds(h: seq<InboxEvent>, n: string)
    ensures SameIds(ResolveAsks(h, n), h) && SameIds(AckDones(h, n), h)
  {
    if h != [] {
      ResolveKeepsIds(h[1..], n);
      forall i | 0 <= i < |h| ensures ResolveAsks(h, n)[i].id == h[i].id && AckDones(h, n)[i].id == h[i].id {
        if i > 0 {
          assert ResolveAsks(h, n)[i] == ResolveAsks(h[1..], n)[i - 1];
          assert AckDones(h, n)[i] == AckDones(h[1..], n)[i - 1];
        }
      }
    }
  }

  lemma {:induction false} CoveredIds(feed: seq<InboxEvent>, hist: seq<InboxEvent>, cap: nat)
    requires Covers(feed, hist, cap) && DistinctIds(hist)
    ensures DistinctIds(feed)
  {
    if |hist| > cap {
      if feed != [] && feed[0] == hist[0] && Covers(feed[1..], hist[1..], cap) {
        CoveredIds(feed[1..], hist[1..], cap);
        CoversNodes(feed[1..], hist[1..], cap);
        forall j | 0 < j < |feed| ensures feed[0].id != feed[j].id {
          assert feed[j] == feed[1..][j - 1] && feed[j] in hist[1..];
          var k :| 0 <= k < |hist[1..]| && hist[1..][k] == feed[j];
          assert hist[k + 1] == feed[j];
        }
        forall i, j | 0 < i < j < |feed| ensures feed[i].id != feed[j].id {
          assert feed[1..][i - 1].id != feed[1..][j - 1].id;
        }
      } else {
        CoveredIds(feed, hist[1..], cap);
      }
    }
  }

  /** The feed is the history trimmed, ids are pairwise different, and the counter is past them. */
  ghost predicate FeedValid(m: Mirror) {
    && Covers(m.feed, m.history, INBOX_EVENTS_CAP)
    && DistinctIds(m.history)
    && IdsUpTo(m.history, m.seqNo)
  }

  ghost predicate AtMostOneAsk(m: Mirror) {
    forall n :: OpenAsks(m.feed, n) <= 1
  }

  lemma PushIds(h: seq<InboxEvent>, full: InboxEvent, seqNo: nat)
    requires DistinctIds(h) && IdsUpTo(h, seqNo) && full.id == EventId(full.ts, seqNo + 1)
    ensures DistinctIds(h + [full]) && IdsUpTo(h + [full], seqNo + 1)
  {
    FreshId(h, full.ts, seqNo);
  }

  lemma PushCount(feed: seq<InboxEvent>, e: InboxEvent, n: string)
    requires OpenAsks(feed, n) <= 1
    requires IsOpenAsk(e) ==> OpenAsks(feed, e.nodeId) == 0
    ensures OpenAsks(Trimmed(feed + [e], INBOX_EVENTS_CAP), n)
            == OpenAsks(feed, n) + (if n == e.nodeId && IsOpenAsk(e) then 1 else 0)
  {
    OpenAsksAppend(feed, e, n);
    OpenAsksTrim(feed + [e], n, INBOX_EVENTS_CAP);
  }

  /** A push keeps the feed the trim of its history. */
  lemma PushKeepsFeed(m: Mirror, e: InboxEvent)
    requires FeedValid(m)
    ensures FeedValid(PushInboxEvent(m, e))
    ensures PushInboxEvent(m, e).feed == Trimmed(PushInboxEvent(m, e).history, INBOX_EVENTS_CAP)
    ensures PushInboxEvent(m, e).feed
            == Trimmed(m.feed + [e.(id := EventId(e.ts, m.seqNo + 1))], INBOX_EVENTS_CAP)
  {
    var full := e.(id := EventId(e.ts, m.seqNo + 1));
    PushIds(m.history, full, m.seqNo);
    CoversStep(m.feed, m.history, Push(full));
    CoversAppend(m.feed, m.history, full, INBOX_EVENTS_CAP);
    CoveredIds(m.feed + [full], m.history + [full], INBOX_EVENTS_CAP);
    TrimByIdIsTrim(m.feed + [full], INBOX_EVENTS_CAP);
  }

  /** A push adds one open ask to its node if it is an ask, and changes no other count. */
  lemma PushAsks(m: Mirror, e: InboxEvent)
    requires FeedValid(m) && AtMostOneAsk(m)
    requires IsOpenAsk(e) ==> OpenAsks(m.feed, e.nodeId) == 0
    ensures forall n :: OpenAsks(PushInboxEvent(m, e).feed, n)
                        == OpenAsks(m.feed, n) + (if n == e.nodeId && IsOpenAsk(e) then 1 else 0)
  {
    var full := e.(id := EventId(e.ts, m.seqNo + 1));
    PushKeepsFeed(m, e);
    forall n ensures OpenAsks(PushInboxEvent(m, e).feed, n)
                     == OpenAsks(m.feed, n) + (if n == e.nodeId && IsOpenAsk(e) then 1 else 0)
    {
      PushCount(m.feed, full, n);
    }
  }

  lemma ResolveKeepsFeed(m: Mirror, k: string)
    requires FeedValid(m)
    ensures var m' := ResolveUnresolvedFor(m, k);
            FeedValid(m') && forall n :: OpenAsks(m'.feed, n) == if n == k then 0 else OpenAsks(m.feed, n)
    ensures var a := m.(feed := AckDones(m.feed, k), history := AckDones(m.history, k));
            FeedValid(a) && forall n :: OpenAsks(a.feed, n) == OpenAsks(m.feed, n)
  {
    CoversResolve(m.feed, m.history, k, INBOX_EVENTS_CAP);
    ResolveKeepsIds(m.history, k);
    forall n ensures OpenAsks(ResolveAsks(m.feed, k), n) == (if n == k then 0 else OpenAsks(m.feed, n))
                     && OpenAsks(AckDones(m.feed, k), n) == OpenAsks(m.feed, n)
    {
      OpenAsksResolve(m.feed, k, n);
    }
  }

  // ---- the last edge of a node --------------------------------------------------------------

  /** The last edge fired for a node, acknowledgements aside. */
  function LastEdge(edges: seq<Edge>, n: string): Option<EdgeEvent> {
    if edges == [] then None
    else
      var e := edges[|edges| - 1];
      if e.nodeId == n && !e.ack then Some(e.event) else LastEdge(edges[..|edges| - 1], n)
  }

  lemma LastEdgeAfterFire(m: Mirror, e: Edge)
    ensures forall n :: LastEdge(Fire(m, e).edges, n)
                        == if n == e.nodeId && !e.ack then Some(e.event) else LastEdge(m.edges, n)
  {
    assert Fire(m, e).edges[..|m.edges|] == m.edges;
  }

  /** The card a node's state calls for. A stranded node left a turn through a session start. */
  predicate CardFits(last: Option<EdgeEvent>, s: Option<AgentState>, stranded: bool) {
    match s
    case Some(Working) => last == Some(Start)
    case Some(Waiting) => last == Some(Update)
    case Some(Blocked) => last == Some(Update)
    case _ => stranded <==> last.Some? && last != Some(End)
  }

  /** The agreement of the three structures on one node. */
  predicate NodeAgrees(m: Mirror, n: string, stranded: set<string>) {
    && OpenAsks(m.feed, n) == (if NeedsYou(NodeState(m, n)) then 1 else 0)
    && CardFits(LastEdge(m.edges, n), NodeState(m, n), n in stranded)
    && (n in stranded ==> NodeState(m, n).None?)
  }

  ghost predicate Agreement(m: Mirror, stranded: set<string>) {
    FeedValid(m) && forall n :: NodeAgrees(m, n, stranded)
  }

  /** A session event other than an end resets a mid-turn node and leaves its card up; the node is
      stranded until it next enters a state. */
  predicate Strands(m: Mirror, op: Op, n: string) {
    && op.Record? && op.ev.nodeId == n && n != ""
    && op.ev.kind.SessionEvent? && op.ev.phase != Some(Ending) && Active(NodeState(m, n))
  }

  function OpNode(op: Op): set<string> {
    match op
    case Record(ev, _) => {ev.nodeId}
    case _ => {}
  }

  function StrandedAfter(m: Mirror, stranded: set<string>, op: Op): set<string> {
    (set n | n in stranded && NodeState(Apply(m, op), n).None?)
    + (set n | n in OpNode(op) && Strands(m, op, n))
  }

  function RunStranded(m: Mirror, ops: seq<Op>): set<string> {
    if ops == [] then {}
    else
      var front := ops[..|ops| - 1];
      StrandedAfter(RunOps(m, front), RunStranded(m, front), ops[|ops| - 1])
  }

  // ---- each stage of inbox production -------------------------------------------------------

  /** Nothing about other nodes changed. */
  ghost predicate OthersKept(m: Mirror, m': Mirror, n: string) {
    forall k :: k != n ==>
      && Lookup(m', k) == Lookup(m, k)
      && OpenAsks(m'.feed, k) == OpenAsks(m.feed, k)
      && LastEdge(m'.edges, k) == LastEdge(m.edges, k)
  }

  lemma SettleStage(m: Mirror, ev: AgentEvent, p: Option<AgentState>, s: Option<AgentState>)
    requires FeedValid(m)
    ensures var m' := SettleBefore(m, ev, p, s);
            && FeedValid(m') && OthersKept(m, m', ev.nodeId)
            && m'.nodes == m.nodes && m'.edges == m.edges && m'.broadcasts == m.broadcasts
            && OpenAsks(m'.feed, ev.nodeId)
               == if NeedsYou(p) && s != p then 0 else OpenAsks(m.feed, ev.nodeId)
  {
    ResolveKeepsFeed(m, ev.nodeId);
  }

  lemma {:induction false} NewestUnresolvedFound(h: seq<InboxEvent>, n: string)
    ensures NewestUnresolved(h, n).Some? <==> OpenAsks(h, n) > 0
  {
    if h != [] {
      assert h == h[..|h| - 1] + [h[|h| - 1]];
      OpenAsksAppend(h[..|h| - 1], h[|h| - 1], n);
      NewestUnresolvedFound(h[..|h| - 1], n);
    }
  }

  lemma NewAskStage(m: Mirror, n: string, ask: Ask, now: nat)
    requires FeedValid(m) && AtMostOneAsk(m) && !ask.kind.Finished?
    ensures var m' := PushInboxEvent(ResolveUnresolvedFor(Fire(m, AskEdge(n, ask, now)), n), AskCard(n, ask, now));
            && FeedValid(m') && OthersKept(m, m', n)
            && m'.nodes == m.nodes && m'.broadcasts == m.broadcasts
            && OpenAsks(m'.feed, n) == 1
            && LastEdge(m'.edges, n) == Some(Update)
  {
    LastEdgeAfterFire(m, AskEdge(n, ask, now));
    var m2 := Fire(m, AskEdge(n, ask, now));
    ResolveKeepsFeed(m2, n);
    var m3 := ResolveUnresolvedFor(m2, n);
    forall k ensures OpenAsks(m3.feed, k) <= 1 { assert OpenAsks(m.feed, k) <= 1; }
    PushKeepsFeed(m3, AskCard(n, ask, now));
    PushAsks(m3, AskCard(n, ask, now));
  }

  /** Raising an ask leaves the node exactly one open ask and an update as its last edge. */
  lemma RaiseStage(m: Mirror, ev: AgentEvent, p: Option<AgentState>, s: Option<AgentState>, now: nat)
    requires FeedValid(m) && AtMostOneAsk(m)
    requires p == s ==> LastEdge(m.edges, ev.nodeId) == Some(Update)
    ensures var m' := RaiseAsk(m, ev, p, s, now);
            && FeedValid(m') && OthersKept(m, m', ev.nodeId)
            && m'.nodes == m.nodes && m'.broadcasts == m.broadcasts
            && OpenAsks(m'.feed, ev.nodeId) == 1
            && LastEdge(m'.edges, ev.nodeId) == Some(Update)
  {
    var n, ask := ev.nodeId, AskOf(m, ev, s, now);
    var m1 := SweepStash(m, n, now);
    assert m1 == m.(stashes := m1.stashes);
    assert AtMostOneAsk(m1) && FeedValid(m1);
    if Reasserted(m, n, ask.title, now) {
      ReassertedStage(m, ev, p, s, now);
    } else {
      NewAskStage(m1, n, ask, now);
    }
  }

  lemma ReassertedStage(m: Mirror, ev: AgentEvent, p: Option<AgentState>, s: Option<AgentState>, now: nat)
    requires FeedValid(m) && AtMostOneAsk(m) && Reasserted(m, ev.nodeId, AskOf(m, ev, s, now).title, now)
    requires p == s ==> LastEdge(m.edges, ev.nodeId) == Some(Update)
    ensures var m' := RaiseAsk(m, ev, p, s, now);
            && m' == m.(edges := m'.edges, stashes := m'.stashes)
            && OthersKept(m, m', ev.nodeId)
            && OpenAsks(m'.feed, ev.nodeId) == 1
            && LastEdge(m'.edges, ev.nodeId) == Some(Update)
  {
    var n, ask := ev.nodeId, AskOf(m, ev, s, now);
    NewestUnresolvedFound(m.feed, n);
    assert OpenAsks(m.feed, n) <= 1;
    LastEdgeAfterFire(SweepStash(m, n, now), AskEdge(n, ask, now));
  }

  lemma FinishStage(m: Mirror, ev: AgentEvent, now: nat)
    requires FeedValid(m) && AtMostOneAsk(m)
    ensures var m' := FinishTurn(m, ev, now);
            && FeedValid(m') && OthersKept(m, m', ev.nodeId)
            && m'.nodes == m.nodes && m'.broadcasts == m.broadcasts
            && OpenAsks(m'.feed, ev.nodeId) == OpenAsks(m.feed, ev.nodeId)
            && LastEdge(m'.edges, ev.nodeId) == Some(End)
  {
    var edge := Edge(ev.nodeId, End, None, [], None, ev.interrupted, false, false, now);
    LastEdgeAfterFire(m, edge);
    var card := InboxEvent("", now, ev.nodeId, Finished, if ev.interrupted then "Stopped" else "Finished",
                           false, ev.interrupted, [], None);
    PushKeepsFeed(Fire(m, edge), card);
    PushAsks(Fire(m, edge), card);
  }

  /** What settling and the start edge leave behind before the new state is announced. */
  lemma OpenStage(m: Mirror, ev: AgentEvent, p: Option<AgentState>, s: Option<AgentState>, now: nat)
    requires FeedValid(m) && AtMostOneAsk(m)
    ensures var m' := StartEdge(SettleBefore(m, ev, p, s), ev, p, s, now);
            && FeedValid(m') && AtMostOneAsk(m') && OthersKept(m, m', ev.nodeId)
            && m'.nodes == m.nodes && m'.broadcasts == m.broadcasts
            && OpenAsks(m'.feed, ev.nodeId)
               == (if NeedsYou(p) && s != p then 0 else OpenAsks(m.feed, ev.nodeId))
            && LastEdge(m'.edges, ev.nodeId)
               == (if s == Some(Working) && p != Some(Working) then Some(Start) else LastEdge(m.edges, ev.nodeId))
  {
    SettleStage(m, ev, p, s);
    var m1 := SettleBefore(m, ev, p, s);
    LastEdgeAfterFire(m1, Edge(ev.nodeId, Start, None, [], None, false, false, false, now));
    forall n ensures OpenAsks(m1.feed, n) <= 1 { assert OpenAsks(m.feed, n) <= 1; }
  }

  /** What production owes: the feed in order, other nodes alone, and agreement about this one. */
  ghost predicate Produced(m: Mirror, m': Mirror, ev: AgentEvent, p: Option<AgentState>,
      s: Option<AgentState>, was: bool) {
    && FeedValid(m') && OthersKept(m, m', ev.nodeId)
    && m'.nodes == m.nodes && m'.broadcasts == m.broadcasts
    && OpenAsks(m'.feed, ev.nodeId) == (if NeedsYou(s) then 1 else 0)
    && CardFits(LastEdge(m'.edges, ev.nodeId), s,
                (was && s.None?) || (Active(p) && s.None? && ev.phase != Some(Ending)))
  }

  ghost predicate BeforeProduction(m: Mirror, ev: AgentEvent, p: Option<AgentState>, s: Option<AgentState>, was: bool) {
    && FeedValid(m) && AtMostOneAsk(m)
    && OpenAsks(m.feed, ev.nodeId) == (if NeedsYou(p) then 1 else 0)
    && CardFits(LastEdge(m.edges, ev.nodeId), p, was) && (was ==> p.None?)
    && (p != s && s.None? ==> ev.kind.SessionEvent?)
  }

  lemma AskProduced(m: Mirror, ev: AgentEvent, p: Option<AgentState>, s: Option<AgentState>, now: nat, was: bool)
    requires BeforeProduction(m, ev, p, s, was) && NeedsYou(s)
    ensures Produced(m, Produce(m, ev, p, s, now), ev, p, s, was)
  {
    OpenStage(m, ev, p, s, now);
    RaiseStage(StartEdge(SettleBefore(m, ev, p, s), ev, p, s, now), ev, p, s, now);
  }

  lemma FinishProduced(m: Mirror, ev: AgentEvent, p: Option<AgentState>, s: Option<AgentState>, now: nat, was: bool)
    requires BeforeProduction(m, ev, p, s, was) && s == Some(Done) && p != Some(Done)
    ensures Produced(m, Produce(m, ev, p, s, now), ev, p, s, was)
  {
    OpenStage(m, ev, p, s, now);
    FinishStage(StartEdge(SettleBefore(m, ev, p, s), ev, p, s, now), ev, now);
  }

  lemma EndedProduced(m: Mirror, ev: AgentEvent, p: Option<AgentState>, s: Option<AgentState>, now: nat, was: bool)
    requires BeforeProduction(m, ev, p, s, was)
    requires s.None? && Active(p) && ev.kind.SessionEvent? && ev.phase == Some(Ending)
    ensures Produced(m, Produce(m, ev, p, s, now), ev, p, s, was)
  {
    OpenStage(m, ev, p, s, now);
    LastEdgeAfterFire(StartEdge(SettleBefore(m, ev, p, s), ev, p, s, now),
                      Edge(ev.nodeId, End, None, [], None, false, false, false, now));
  }

  lemma RestProduced(m: Mirror, ev: AgentEvent, p: Option<AgentState>, s: Option<AgentState>, now: nat, was: bool)
    requires BeforeProduction(m, ev, p, s, was) && !NeedsYou(s) && (s == Some(Done) ==> p == Some(Done))
    requires !(s.None? && Active(p) && ev.kind.SessionEvent? && ev.phase == Some(Ending))
    ensures Produced(m, Produce(m, ev, p, s, now), ev, p, s, was)
  {
    OpenStage(m, ev, p, s, now);
  }

  /** From agreement about the node's previous state, production restores it about the next. */
  lemma ProduceStage(m: Mirror, ev: AgentEvent, p: Option<AgentState>, s: Option<AgentState>, now: nat, was: bool)
    requires BeforeProduction(m, ev, p, s, was)
    ensures Produced(m, Produce(m, ev, p, s, now), ev, p, s, was)
  {
    if NeedsYou(s) {
      AskProduced(m, ev, p, s, now, was);
    } else if s == Some(Done) && p != Some(Done) {
      FinishProduced(m, ev, p, s, now, was);
    } else if s.None? && Active(p) && ev.kind.SessionEvent? && ev.phase == Some(Ending) {
      EndedProduced(m, ev, p, s, now, was);
    } else {
      RestProduced(m, ev, p, s, now, was);
    }
  }

  // ---- each operation -----------------------------------------------------------------------

  /** Only a session event can take a node's state away. */
  lemma ReducerLosesStateOnlyAtBoundary(prev: Option<Entry>, ev: AgentEvent, now: nat)
    ensures ev.kind.SessionEvent? ==> ReduceEntry(prev, ev, now).state.None?
    ensures !ev.kind.SessionEvent? && ReduceEntry(prev, ev, now).state.None? ==> StateOf(prev).None?
  {
  }

  lemma AgreementGivesOneAsk(m: Mirror, stranded: set<string>)
    requires Agreement(m, stranded)
    ensures AtMostOneAsk(m)
  {
    forall n ensures OpenAsks(m.feed, n) <= 1 {
      assert NodeAgrees(m, n, stranded);
    }
  }

  lemma StrandedMembers(m: Mirror, stranded: set<string>, op: Op, n: string)
    ensures n in StrandedAfter(m, stranded, op)
            <==> (n in stranded && NodeState(Apply(m, op), n).None?) || Strands(m, op, n)
  {
  }

  /** What moving a node to its next entry does to that node, and that it leaves the others alone. */
  lemma TransitionEffect(m: Mirror, stranded: set<string>, ev: AgentEvent, next: Entry, now: nat)
    requires Agreement(m, stranded)
    requires next.state != NodeState(m, ev.nodeId) && next.state.None? ==> ev.kind.SessionEvent?
    ensures var n, p, s := ev.nodeId, NodeState(m, ev.nodeId), next.state;
            var m' := Produce(m.(nodes := m.nodes[n := next]), ev, p, s, now);
            && FeedValid(m')
            && OthersKept(m, m', n)
            && NodeState(m', n) == s
            && OpenAsks(m'.feed, n) == (if NeedsYou(s) then 1 else 0)
            && CardFits(LastEdge(m'.edges, n), s,
                        (n in stranded && s.None?) || (Active(p) && s.None? && ev.phase != Some(Ending)))
  {
    var n := ev.nodeId;
    AgreementGivesOneAsk(m, stranded);
    assert NodeAgrees(m, n, stranded);
    ProduceStage(m.(nodes := m.nodes[n := next]), ev, NodeState(m, n), next.state, now, n in stranded);
  }

  lemma RecordedEffect(m: Mirror, stranded: set<string>, ev: AgentEvent, now: nat)
    requires Agreement(m, stranded)
    ensures var m' := Recorded(m, ev, now);
            var n, p, s := ev.nodeId, NodeState(m, ev.nodeId), ReduceEntry(Lookup(m, ev.nodeId), ev, now).state;
            && FeedValid(m')
            && OthersKept(m, m', n)
            && NodeState(m', n) == s
            && OpenAsks(m'.feed, n) == (if NeedsYou(s) then 1 else 0)
            && CardFits(LastEdge(m'.edges, n), s,
                        (n in stranded && s.None?) || (Active(p) && s.None? && ev.phase != Some(Ending)))
  {
    var prev := Lookup(m, ev.nodeId);
    var next := ReduceEntry(prev, ev, now);
    ReducerLosesStateOnlyAtBoundary(prev, ev, now);
    TransitionEffect(m, stranded, Rewritten(ev, next), next, now);
  }

  lemma RecordAgreesAt(m: Mirror, stranded: set<string>, ev: AgentEvent, now: nat, k: string)
    requires Agreement(m, stranded)
    ensures NodeAgrees(RecordAgentEvent(m, ev, now), k, StrandedAfter(m, stranded, Record(ev, now)))
  {
    assert NodeAgrees(m, k, stranded);
    StrandedMembers(m, stranded, Record(ev, now), k);
    if k == ev.nodeId {
      RecordStrands(m, stranded, ev, now);
    } else {
      RecordKeepsOthers(m, stranded, ev, now, k);
    }
  }

  lemma RecordKeepsOthers(m: Mirror, stranded: set<string>, ev: AgentEvent, now: nat, k: string)
    requires Agreement(m, stranded) && k != ev.nodeId
    ensures var m' := RecordAgentEvent(m, ev, now);
            && Lookup(m', k) == Lookup(m, k)
            && OpenAsks(m'.feed, k) == OpenAsks(m.feed, k)
            && LastEdge(m'.edges, k) == LastEdge(m.edges, k)
  {
    if ev.nodeId != "" { RecordedEffect(m, stranded, ev, now); }
  }

  /** A node loses its state only at a session event; unless that ends a session in mid-turn, the
      node's card is then stranded. */
  lemma RecordStrands(m: Mirror, stranded: set<string>, ev: AgentEvent, now: nat)
    requires Agreement(m, stranded)
    ensures var n, m' := ev.nodeId, RecordAgentEvent(m, ev, now);
            var after := (n in stranded && NodeState(m', n).None?) || Strands(m, Record(ev, now), n);
            && OpenAsks(m'.feed, n) == (if NeedsYou(NodeState(m', n)) then 1 else 0)
            && CardFits(LastEdge(m'.edges, n), NodeState(m', n), after)
            && (after ==> NodeState(m', n).None?)
  {
    assert NodeAgrees(m, ev.nodeId, stranded);
    if ev.nodeId != "" {
      RecordedEffect(m, stranded, ev, now);
      ReducerLosesStateOnlyAtBoundary(Lookup(m, ev.nodeId), ev, now);
    }
  }

  lemma RecordAgrees(m: Mirror, stranded: set<string>, ev: AgentEvent, now: nat)
    requires Agreement(m, stranded)
    ensures Agreement(RecordAgentEvent(m, ev, now), StrandedAfter(m, stranded, Record(ev, now)))
  {
    var m', after := RecordAgentEvent(m, ev, now), StrandedAfter(m, stranded, Record(ev, now));
    RecordedEffect(m, stranded, ev, now);
    forall k ensures NodeAgrees(m', k, after) { RecordAgreesAt(m, stranded, ev, now, k); }
  }

  lemma ClearAgrees(m: Mirror, stranded: set<string>, n: string, now: nat)
    requires Agreement(m, stranded)
    ensures Agreement(ClearNode(m, n, now), StrandedAfter(m, stranded, Clear(n, now)))
  {
    var m' := ClearNode(m, n, now);
    var after := StrandedAfter(m, stranded, Clear(n, now));
    ResolveKeepsFeed(m, n);
    var m1 := DropStash(ResolveUnresolvedFor(m, n), n).(nodes := m.nodes - {n});
    LastEdgeAfterFire(m1, Edge(n, End, None, [], None, false, false, false, now));
    forall k ensures NodeAgrees(m', k, after) {
      assert NodeAgrees(m, k, stranded);
      assert Lookup(m', k) == if k == n then None else Lookup(m, k);
    }
  }

  lemma AckAgrees(m: Mirror, stranded: set<string>, n: string, now: nat)
    requires Agreement(m, stranded)
    ensures Agreement(AckDone(m, n, now), StrandedAfter(m, stranded, Acknowledge(n, now)))
  {
    var m' := AckDone(m, n, now);
    var after := StrandedAfter(m, stranded, Acknowledge(n, now));
    ResolveKeepsFeed(m, n);
    var m1 := m.(feed := AckDones(m.feed, n), history := AckDones(m.history, n));
    LastEdgeAfterFire(m1, Edge(n, End, None, [], None, false, false, true, now));
    forall k ensures NodeAgrees(m', k, after) {
      assert NodeAgrees(m, k, stranded);
      assert Lookup(m', k) == Lookup(m, k);
    }
  }

  lemma SweepNodeAgrees(m: Mirror, stranded: set<string>, n: string, now: nat, staleMs: nat)
    requires Agreement(m, stranded)
    ensures Agreement(SweepNode(m, n, now, staleMs), stranded)
    ensures forall k :: NodeState(SweepNode(m, n, now, staleMs), k).None? <==> NodeState(m, k).None?
  {
    var m' := SweepNode(m, n, now, staleMs);
    if IsStale(m, n, now, staleMs) {
      var m1 := m.(nodes := m.nodes[n := m.nodes[n].(state := Some(Done))]);
      LastEdgeAfterFire(m1, Edge(n, End, None, [], None, false, true, false, now));
      forall k ensures NodeAgrees(m', k, stranded) {
        assert NodeAgrees(m, k, stranded);
        if k != n { assert Lookup(m', k) == Lookup(m, k); }
      }
    }
  }

  lemma {:induction false} SweepAgrees(m: Mirror, stranded: set<string>, order: seq<string>, now: nat, staleMs: nat)
    requires Agreement(m, stranded)
    ensures Agreement(Sweep(m, order, now, staleMs), stranded)
    ensures forall k :: NodeState(Sweep(m, order, now, staleMs), k).None? <==> NodeState(m, k).None?
  {
    if order != [] {
      SweepAgrees(m, stranded, order[..|order| - 1], now, staleMs);
      SweepNodeAgrees(Sweep(m, order[..|order| - 1], now, staleMs), stranded, order[|order| - 1], now, staleMs);
    }
  }

  /** Every operation keeps the agreement. */
  lemma StepAgrees(m: Mirror, stranded: set<string>, op: Op)
    requires Agreement(m, stranded)
    ensures Agreement(Apply(m, op), StrandedAfter(m, stranded, op))
  {
    match op {
      case Record(ev, now) => RecordAgrees(m, stranded, ev, now);
      case Clear(n, now) => ClearAgrees(m, stranded, n, now);
      case Acknowledge(n, now) => AckAgrees(m, stranded, n, now);
      case SweepAll(order, now, staleMs) =>
        SweepAgrees(m, stranded, order, now, staleMs);
        forall k | k in stranded ensures NodeState(Apply(m, op), k).None? { assert NodeAgrees(m, k, stranded); }
        StrandedStays(m, stranded, op);
      case Picker(n, options, question, now) => StashAgrees(m, stranded, op);
      case Permission(n, title, now) => StashAgrees(m, stranded, op);
    }
  }

  lemma StrandedStays(m: Mirror, stranded: set<string>, op: Op)
    requires forall n :: n in stranded ==> NodeState(Apply(m, op), n).None?
    requires !op.Record?
    ensures StrandedAfter(m, stranded, op) == stranded
  {
  }

  lemma StashAgrees(m: Mirror, stranded: set<string>, op: Op)
    requires Agreement(m, stranded) && (op.Picker? || op.Permission?)
    ensures Agreement(Apply(m, op), StrandedAfter(m, stranded, op))
  {
    var after := StrandedAfter(m, stranded, op);
    forall k ensures NodeAgrees(Apply(m, op), k, after) {
      assert NodeAgrees(m, k, stranded);
      assert Lookup(Apply(m, op), k) == Lookup(m, k);
    }
  }

  /** The agreement holds after every run from an empty mirror. */
  lemma {:induction false} RunAgrees(ops: seq<Op>)
    ensures Agreement(RunOps(EMPTY, ops), RunStranded(EMPTY, ops))
  {
    if ops != [] {
      var front := ops[..|ops| - 1];
      RunAgrees(front);
      StepAgrees(RunOps(EMPTY, front), RunStranded(EMPTY, front), ops[|ops| - 1]);
    }
  }

  /** The feed holds exactly one unresolved ask for a node that is blocked or waiting, and none for
      any other node, after every run and in spite of trimming. */
  lemma FeedMatchesState(ops: seq<Op>, n: string)
    ensures OpenAsks(RunOps(EMPTY, ops).feed, n) == if NeedsYou(NodeState(RunOps(EMPTY, ops), n)) then 1 else 0
  {
    RunAgrees(ops);
    assert NodeAgrees(RunOps(EMPTY, ops), n, RunStranded(EMPTY, ops));
  }

  /** Live cards: a mid-turn node's last edge put its card up; any other node's card is down exactly
      when the node is not stranded. */
  lemma CardsMatchState(ops: seq<Op>, n: string)
    ensures var m := RunOps(EMPTY, ops);
            var last := LastEdge(m.edges, n);
            && (NodeState(m, n) == Some(Working) ==> last == Some(Start))
            && (NeedsYou(NodeState(m, n)) ==> last == Some(Update))
            && (!Active(NodeState(m, n)) ==>
                  (last.None? || last == Some(End) <==> n !in RunStranded(EMPTY, ops)))
  {
    RunAgrees(ops);
    assert NodeAgrees(RunOps(EMPTY, ops), n, RunStranded(EMPTY, ops));
  }

  /** A bare event of a node, everything optional absent. */
  function Plain(n: string, kind: EventKind, state: Option<AgentState>, phase: Option<SessionPhase>): AgentEvent {
    AgentEvent(n, "claude", None, kind, state, phase, false, false, false, false, false, None, "", None, None)
  }

  /** After every run the feed is the whole history while that has at most fifty events; a push leaves at
      most fifty, and one finished card and one open ask for each node besides. */
  lemma FeedBounded(ops: seq<Op>, e: InboxEvent)
    ensures var m := RunOps(EMPTY, ops);
            |m.history| <= 50 ==> m.feed == m.history
    ensures var m := PushInboxEvent(RunOps(EMPTY, ops), e);
            |m.feed| <= 50 + |Nodes(m.history, DoneRole)| + |Nodes(m.history, AskRole)|
  {
    var m := RunOps(EMPTY, ops);
    RunAgrees(ops);
    PushKeepsFeed(m, e);
    TrimLength(PushInboxEvent(m, e).history, INBOX_EVENTS_CAP);
  }

  /** The stranding happens: a turn starts, the session starts again, and the node has no state while
      its last edge still says that a turn is running. */
  lemma StrandedByRestart(n: string, t: nat, u: nat)
    requires n != ""
    ensures var ops := [Record(Plain(n, StateEvent, Some(Working), None), t),
                        Record(Plain(n, SessionEvent, None, Some(Starting)), u)];
            var m := RunOps(EMPTY, ops);
            NodeState(m, n) == None && n in RunStranded(EMPTY, ops) && LastEdge(m.edges, n) == Some(Start)
  {
    var turn := Record(Plain(n, StateEvent, Some(Working), None), t);
    var again := Record(Plain(n, SessionEvent, None, Some(Starting)), u);
    var first := Apply(EMPTY, turn);
    TurnThenRestart(n, t, u);
    assert [turn, again][..1] == [turn] && [turn][..0] == [];
    assert RunOps(EMPTY, [turn]) == first;
    StrandedMembers(first, RunStranded(EMPTY, [turn]), again, n);
    LastEdgeAfterFire(EMPTY, Edge(n, Start, None, [], None, false, false, false, t));
  }

  lemma TurnThenRestart(n: string, t: nat, u: nat)
    requires n != ""
    ensures var first := RecordAgentEvent(EMPTY, Plain(n, StateEvent, Some(Working), None), t);
            var again := Plain(n, SessionEvent, None, Some(Starting));
            && NodeState(first, n) == Some(Working)
            && first.edges == Fire(EMPTY, Edge(n, Start, None, [], None, false, false, false, t)).edges
            && NodeState(RecordAgentEvent(first, again, u), n) == None
            && RecordAgentEvent(first, again, u).edges == first.edges
  {
  }
}
