/** What the feed's cards, the edges and the broadcasts say: whether an ask is an approval or a question,
    its title, its options and its ticket, and what the other operations announce. */
module AskContents {

  import opened Wrappers
  import opened InboxFeed
  import opened StatusReducer
  import opened StatusMirror
  import opened StatusInvariants
  import opened HeldQuestion
  import opened MirrorRestart

  // ---- what an ask owes ---------------------------------------------------------------------

  /** Pending detail does not outlive a session boundary, a new turn, or the ask it was for. */
  predicate DetailOver(ev: AgentEvent, p: Option<AgentState>, s: Option<AgentState>) {
    || ev.kind.SessionEvent?
    || (ev.kind.StateEvent? && ev.state == Some(Working) && ev.newTurn)
    || ((p == Some(Blocked) || p == Some(Waiting)) && s != p)
  }

  /** Detail stashed for the node at most five minutes before. */
  predicate DetailPending(m: Mirror, ev: AgentEvent, p: Option<AgentState>, s: Option<AgentState>, now: nat) {
    !DetailOver(ev, p, s) && ev.nodeId in m.stashes && now <= m.stashes[ev.nodeId].at + 300_000
  }

  predicate PickerPending(m: Mirror, ev: AgentEvent, p: Option<AgentState>, s: Option<AgentState>, now: nat) {
    DetailPending(m, ev, p, s, now) && m.stashes[ev.nodeId].options != []
  }

  /** The first text that is not empty. */
  function FirstText(a: string, b: string, c: string): string { if a != "" then a else if b != "" then b else c }

  /** A picker's question, a permission's summary, the headline, or a stock phrase, in this order. */
  function TitleOwed(m: Mirror, ev: AgentEvent, p: Option<AgentState>, s: Option<AgentState>, now: nat): string {
    var pending := DetailPending(m, ev, p, s, now);
    if PickerPending(m, ev, p, s, now) then
      FirstText(m.stashes[ev.nodeId].question, ev.headline, "Waiting for input")
    else if s == Some(Waiting) then FirstText("", ev.headline, "Waiting for input")
    else FirstText(if pending then m.stashes[ev.nodeId].approvalTitle else "", ev.headline, "Needs approval")
  }

  /** The node's newest unresolved ask has this title and is younger than ten minutes. */
  predicate AlreadyAsked(m: Mirror, n: string, title: string, now: nat) {
    var ask := NewestUnresolved(m.feed, n);
    ask.Some? && ask.value.title == title && now < ask.value.ts + 600_000
  }

  datatype Owed = Owed(question: bool, title: string, options: seq<string>, ticket: Option<string>, known: bool)

  /** A question exactly when the state is waiting or a picker is pending; options are the picker's, and
      only an approval carries the event's ticket. */
  function AskOwed(m: Mirror, ev: AgentEvent, p: Option<AgentState>, s: Option<AgentState>, now: nat): Owed {
    var picker := PickerPending(m, ev, p, s, now);
    var question := s == Some(Waiting) || picker;
    var title := TitleOwed(m, ev, p, s, now);
    Owed(question, title, if picker then m.stashes[ev.nodeId].options else [],
         if question then None else ev.pendingId,
         !(NeedsYou(p) && s != p) && AlreadyAsked(m, ev.nodeId, title, now))
  }

  function KindOwed(owed: Owed): InboxKind { if owed.question then Question else Approval }

  // ---- production pays it -------------------------------------------------------------------

  lemma SettledStash(m: Mirror, ev: AgentEvent, p: Option<AgentState>, s: Option<AgentState>)
    ensures var m' := SettleBefore(m, ev, p, s);
            && (DetailOver(ev, p, s) ==> ev.nodeId !in m'.stashes)
            && (!DetailOver(ev, p, s) ==> m'.stashes == m.stashes)
            && (!(NeedsYou(p) && s != p) ==> m'.feed == m.feed && m'.history == m.history)
  {
  }

  lemma AskPaid(m: Mirror, ev: AgentEvent, p: Option<AgentState>, s: Option<AgentState>, now: nat)
    requires NeedsYou(s)
    ensures var m1, owed := StartEdge(SettleBefore(m, ev, p, s), ev, p, s, now), AskOwed(m, ev, p, s, now);
            AskOf(m1, ev, s, now) == Ask(KindOwed(owed), owed.title, owed.options, owed.ticket)
  {
    SettledStash(m, ev, p, s);
  }

  lemma {:induction false} ResolvedNone(h: seq<InboxEvent>, n: string)
    ensures NewestUnresolved(ResolveAsks(h, n), n) == None
  {
    OpenAsksResolve(h, n, n);
    NewestUnresolvedFound(ResolveAsks(h, n), n);
  }

  lemma KnownPaid(m: Mirror, ev: AgentEvent, p: Option<AgentState>, s: Option<AgentState>, now: nat)
    requires NeedsYou(s)
    ensures var m1, owed := StartEdge(SettleBefore(m, ev, p, s), ev, p, s, now), AskOwed(m, ev, p, s, now);
            Reasserted(m1, ev.nodeId, owed.title, now) == owed.known
  {
    SettledStash(m, ev, p, s);
    ResolvedNone(m.feed, ev.nodeId);
  }

  /** The card an ask puts into the feed is the node's newest unresolved one. */
  lemma CardIsNewest(m: Mirror, card: InboxEvent)
    requires FeedValid(m) && IsOpenAsk(card)
    ensures NewestUnresolved(PushInboxEvent(m, card).feed, card.nodeId)
         == Some(card.(id := EventId(card.ts, m.seqNo + 1)))
  {
    var full := card.(id := EventId(card.ts, m.seqNo + 1));
    PushKeepsFeed(m, card);
    NewestUnresolvedTrimmed(m.feed + [full], card.nodeId, INBOX_EVENTS_CAP);
    assert (m.feed + [full])[..|m.feed|] == m.feed;
  }

  ghost predicate AskShown(m: Mirror, m': Mirror, n: string, p: Option<AgentState>, s: Option<AgentState>,
                           owed: Owed, now: nat)
  {
    var edge := Edge(n, Update, Some(KindOwed(owed)), owed.options, owed.ticket, false, false, false, now);
    && m'.edges == m.edges + (if p != s || !owed.known then [edge] else [])
    && (owed.known ==> m'.feed == m.feed)
    && (!owed.known ==>
          NewestUnresolved(m'.feed, n)
          == Some(InboxEvent(EventId(now, m.seqNo + 1), now, n, KindOwed(owed), owed.title, false, false,
                             owed.options, owed.ticket)))
  }

  lemma NewAskShown(m: Mirror, n: string, ask: Ask, now: nat)
    requires FeedValid(m) && !ask.kind.Finished?
    ensures var m' := PushInboxEvent(ResolveUnresolvedFor(Fire(m, AskEdge(n, ask, now)), n), AskCard(n, ask, now));
            && m'.edges == m.edges + [AskEdge(n, ask, now)]
            && NewestUnresolved(m'.feed, n) == Some(AskCard(n, ask, now).(id := EventId(now, m.seqNo + 1)))
  {
    var m2 := Fire(m, AskEdge(n, ask, now));
    ResolveKeepsFeed(m2, n);
    CardIsNewest(ResolveUnresolvedFor(m2, n), AskCard(n, ask, now));
  }

  lemma RaiseShown(m: Mirror, ev: AgentEvent, p: Option<AgentState>, s: Option<AgentState>, now: nat, owed: Owed)
    requires FeedValid(m) && NeedsYou(s)
    requires AskOf(m, ev, s, now) == Ask(KindOwed(owed), owed.title, owed.options, owed.ticket)
    requires Reasserted(m, ev.nodeId, owed.title, now) == owed.known
    ensures AskShown(m, RaiseAsk(m, ev, p, s, now), ev.nodeId, p, s, owed, now)
  {
    var m1 := SweepStash(m, ev.nodeId, now);
    assert m1 == m.(stashes := m1.stashes) && FeedValid(m1);
    if !owed.known { NewAskShown(m1, ev.nodeId, AskOf(m, ev, s, now), now); }
  }

  lemma ProduceShown(m: Mirror, ev: AgentEvent, p: Option<AgentState>, s: Option<AgentState>, now: nat)
    requires FeedValid(m) && NeedsYou(s)
    ensures AskShown(m, Produce(m, ev, p, s, now), ev.nodeId, p, s, AskOwed(m, ev, p, s, now), now)
  {
    var m1, owed := StartEdge(SettleBefore(m, ev, p, s), ev, p, s, now), AskOwed(m, ev, p, s, now);
    AskPaid(m, ev, p, s, now);
    KnownPaid(m, ev, p, s, now);
    OpenedForAsk(m, ev, p, s, now);
    RaiseShown(m1, ev, p, s, now, owed);
    ShownFrom(m, m1, RaiseAsk(m1, ev, p, s, now), ev.nodeId, p, s, owed, now);
  }

  lemma OpenedForAsk(m: Mirror, ev: AgentEvent, p: Option<AgentState>, s: Option<AgentState>, now: nat)
    requires FeedValid(m) && NeedsYou(s)
    ensures var m1 := StartEdge(SettleBefore(m, ev, p, s), ev, p, s, now);
            && FeedValid(m1) && m1.edges == m.edges && m1.seqNo == m.seqNo
            && (AskOwed(m, ev, p, s, now).known ==> m1.feed == m.feed)
  {
    SettleStage(m, ev, p, s);
    SettledStash(m, ev, p, s);
  }

  lemma ShownFrom(m: Mirror, m1: Mirror, m': Mirror, n: string, p: Option<AgentState>, s: Option<AgentState>,
                  owed: Owed, now: nat)
    requires AskShown(m1, m', n, p, s, owed, now) && m1.edges == m.edges && m1.seqNo == m.seqNo
    requires owed.known ==> m1.feed == m.feed
    ensures AskShown(m, m', n, p, s, owed, now)
  {
  }

  /** The event as every consumer gets it: the end of a turn held for an answer reported as waiting. */
  function Reported(ev: AgentEvent, after: Entry): AgentEvent {
    if ev.kind.StateEvent? && ev.state == Some(Done) && after.awaitingInput && after.state == Some(Waiting)
    then ev.(state := Some(Waiting))
    else ev
  }

  /** What is owed does not depend on the node map, nor on how the end of a held turn is reported. */
  lemma OwedAsReported(m: Mirror, nodes: map<string, Entry>, ev: AgentEvent, ev': AgentEvent,
                       p: Option<AgentState>, s: Option<AgentState>, now: nat)
    requires ev' == ev || (ev.state == Some(Done) && ev' == ev.(state := Some(Waiting)))
    ensures AskOwed(m.(nodes := nodes), ev', p, s, now) == AskOwed(m, ev, p, s, now)
  {
    SamePending(m, nodes, ev, ev', p, s, now);
  }

  lemma SamePending(m: Mirror, nodes: map<string, Entry>, ev: AgentEvent, ev': AgentEvent,
                    p: Option<AgentState>, s: Option<AgentState>, now: nat)
    requires ev' == ev || (ev.state == Some(Done) && ev' == ev.(state := Some(Waiting)))
    ensures DetailPending(m.(nodes := nodes), ev', p, s, now) <==> DetailPending(m, ev, p, s, now)
    ensures PickerPending(m.(nodes := nodes), ev', p, s, now) <==> PickerPending(m, ev, p, s, now)
    ensures TitleOwed(m.(nodes := nodes), ev', p, s, now) == TitleOwed(m, ev, p, s, now)
  {
    assert DetailOver(ev', p, s) <==> DetailOver(ev, p, s);
  }

  /** Production, told of the transition as it was recorded. */
  lemma RecordedShown(m: Mirror, ev: AgentEvent, now: nat)
    requires FeedValid(m) && ev.nodeId != "" && NeedsYou(ReduceEntry(Lookup(m, ev.nodeId), ev, now).state)
    ensures var p, s := NodeState(m, ev.nodeId), ReduceEntry(Lookup(m, ev.nodeId), ev, now).state;
            AskShown(m, Recorded(m, ev, now), ev.nodeId, p, s, AskOwed(m, ev, p, s, now), now)
  {
    var p := NodeState(m, ev.nodeId);
    var next := ReduceEntry(Lookup(m, ev.nodeId), ev, now);
    var m1 := m.(nodes := m.nodes[ev.nodeId := next]);
    OwedAsReported(m, m1.nodes, ev, Rewritten(ev, next), p, next.state, now);
    ProduceShown(m1, Rewritten(ev, next), p, next.state, now);
  }

  lemma BroadcastOwed(m: Mirror, ev: AgentEvent, now: nat)
    requires ev.nodeId != ""
    ensures var after := ReduceEntry(Lookup(m, ev.nodeId), ev, now);
            var owed := AskOwed(m, ev, NodeState(m, ev.nodeId), after.state, now);
            Broadcast(m, ev, now)
            == if NeedsYou(after.state)
               then Reported(ev, after).(askKind := Some(if owed.question then AskQuestion else AskApproval),
                                         pendingId := if owed.question then None else ev.pendingId)
               else ev
  {
    var p := NodeState(m, ev.nodeId);
    var next := ReduceEntry(Lookup(m, ev.nodeId), ev, now);
    OwedAsReported(m, m.nodes, ev, Rewritten(ev, next), p, next.state, now);
    assert Rewritten(ev, next) == Reported(ev, next);
    assert m.(nodes := m.nodes) == m;
    if NeedsYou(next.state) { AskPaid(m, Rewritten(ev, next), p, next.state, now); }
  }

  /** Whenever an event leaves its node blocked or waiting, the feed and the edges say what is owed: a
      new card and an edge for a new ask, the edge alone when only the state changed, nothing for a
      repeated ask. */
  lemma AskSaysWhatIsOwed(m: Mirror, ev: AgentEvent, now: nat)
    requires FeedValid(m) && ev.nodeId != "" && NeedsYou(NodeState(RecordAgentEvent(m, ev, now), ev.nodeId))
    ensures var m' := RecordAgentEvent(m, ev, now);
            var p, s := NodeState(m, ev.nodeId), NodeState(m', ev.nodeId);
            AskShown(m, m', ev.nodeId, p, s, AskOwed(m, ev, p, s, now), now)
  {
    RecordedNodes(m, ev, now);
    RecordedShown(m, ev, now);
  }

  /** Every event is broadcast once, as it came, but for two things: an ask is classified as its card
      is, without a ticket if it is a question; and the end of a held turn is reported as waiting. */
  lemma BroadcastSaysWhatIsOwed(m: Mirror, ev: AgentEvent, now: nat)
    requires ev.nodeId != ""
    ensures var m' := RecordAgentEvent(m, ev, now);
            var p, s := NodeState(m, ev.nodeId), NodeState(m', ev.nodeId);
            var owed := AskOwed(m, ev, p, s, now);
            && ev.nodeId in m'.nodes
            && m'.broadcasts
               == m.broadcasts
                  + [if NeedsYou(s)
                     then Reported(ev, m'.nodes[ev.nodeId])
                          .(askKind := Some(if owed.question then AskQuestion else AskApproval),
                            pendingId := if owed.question then None else ev.pendingId)
                     else ev]
  {
    RecordedNodes(m, ev, now);
    BroadcastOwed(m, ev, now);
  }

  /** A picker shown just before: the ask is a question with its options, whatever state it came as. */
  lemma PickerThenAsk(m: Mirror, options: seq<string>, question: string, t: nat, ev: AgentEvent, now: nat)
    requires FeedValid(m) && ev.nodeId != "" && options != [] && question != "" && now <= t + 300_000
    requires var m1 := StashPicker(m, ev.nodeId, options, question, t);
             && !NeedsYou(NodeState(m, ev.nodeId))
             && NeedsYou(NodeState(RecordAgentEvent(m1, ev, now), ev.nodeId))
             && !(ev.state == Some(Working) && ev.newTurn) && !ev.kind.SessionEvent?
             && NewestUnresolved(m.feed, ev.nodeId).None?
    ensures var m' := RecordAgentEvent(StashPicker(m, ev.nodeId, options, question, t), ev, now);
            var card := NewestUnresolved(m'.feed, ev.nodeId);
            card.Some? && card.value.kind == Question && card.value.title == question
            && card.value.options == options && card.value.pendingId == None
  {
    var m1 := StashPicker(m, ev.nodeId, options, question, t);
    var p, s := NodeState(m, ev.nodeId), NodeState(RecordAgentEvent(m1, ev, now), ev.nodeId);
    PickerOwed(m1, ev, p, s, now, options, question);
    AskSaysWhatIsOwed(m1, ev, now);
  }

  lemma PickerOwed(m: Mirror, ev: AgentEvent, p: Option<AgentState>, s: Option<AgentState>, now: nat,
                   options: seq<string>, question: string)
    requires options != [] && question != "" && DetailPending(m, ev, p, s, now)
    requires m.stashes[ev.nodeId].options == options && m.stashes[ev.nodeId].question == question
    requires NewestUnresolved(m.feed, ev.nodeId).None?
    ensures AskOwed(m, ev, p, s, now) == Owed(true, question, options, None, false)
  {
  }

  /** A permission requested just before: the approval says what is to be approved, and carries the
      event's ticket. */
  lemma PermissionThenAsk(m: Mirror, title: string, t: nat, ev: AgentEvent, now: nat)
    requires FeedValid(m) && ev.nodeId != "" && title != "" && t <= now <= t + 300_000
    requires ev.nodeId in m.stashes ==> m.stashes[ev.nodeId].options == []
    requires var m1 := StashApproval(m, ev.nodeId, title, t);
             && !NeedsYou(NodeState(m, ev.nodeId))
             && NodeState(RecordAgentEvent(m1, ev, now), ev.nodeId) == Some(Blocked)
             && !(ev.state == Some(Working) && ev.newTurn) && !ev.kind.SessionEvent?
             && NewestUnresolved(m.feed, ev.nodeId).None?
    ensures var m' := RecordAgentEvent(StashApproval(m, ev.nodeId, title, t), ev, now);
            var card := NewestUnresolved(m'.feed, ev.nodeId);
            card.Some? && card.value.kind == Approval && card.value.title == title
            && card.value.options == [] && card.value.pendingId == ev.pendingId
  {
    var m1 := StashApproval(m, ev.nodeId, title, t);
    PermissionOwed(m1, ev, NodeState(m, ev.nodeId), now, title);
    AskSaysWhatIsOwed(m1, ev, now);
  }

  lemma PermissionOwed(m: Mirror, ev: AgentEvent, p: Option<AgentState>, now: nat, title: string)
    requires title != "" && DetailPending(m, ev, p, Some(Blocked), now)
    requires m.stashes[ev.nodeId].options == [] && m.stashes[ev.nodeId].approvalTitle == title
    requires NewestUnresolved(m.feed, ev.nodeId).None?
    ensures AskOwed(m, ev, p, Some(Blocked), now) == Owed(false, title, [], ev.pendingId, false)
  {
  }

  /** A permission requested within five minutes of a picker joins it: the picker stays, and is as fresh as
      the permission. An older picker is gone. */
  lemma PermissionJoinsPicker(m: Mirror, n: string, title: string, now: nat)
    requires n != "" && title != ""
    ensures var s := StashApproval(m, n, title, now).stashes;
            n in s && s[n].approvalTitle == title && s[n].at == now
            && if n in m.stashes && now <= m.stashes[n].at + 300_000
               then s[n].options == m.stashes[n].options && s[n].question == m.stashes[n].question
               else s[n].options == [] && s[n].question == ""
  {
  }

  // ---- the other announcements --------------------------------------------------------------

  lemma LastKept(h: seq<InboxEvent>, e: InboxEvent, cap: nat)
    requires cap > 0
    ensures var t := Trimmed(h + [e], cap); t != [] && t[|t| - 1] == e
  {
    if |h + [e]| >= cap {
      var older := TrimKeepsWindow(h + [e], cap);
      assert Last(h + [e], cap)[cap - 1] == e;
    }
  }

  lemma OpenedEdges(m: Mirror, ev: AgentEvent, p: Option<AgentState>, s: Option<AgentState>, now: nat)
    requires FeedValid(m)
    ensures var m1 := StartEdge(SettleBefore(m, ev, p, s), ev, p, s, now);
            && FeedValid(m1) && m1.seqNo == m.seqNo && |m1.feed| == |m.feed|
            && m1.edges == m.edges + (if s == Some(Working) && p != Some(Working)
                                      then [Edge(ev.nodeId, Start, None, [], None, false, false, false, now)] else [])
  {
    SettleStage(m, ev, p, s);
    assert m.edges + [] == m.edges;
  }

  lemma FinishedAnnounced(m: Mirror, ev: AgentEvent, now: nat)
    requires FeedValid(m)
    ensures var m', n := FinishTurn(m, ev, now), ev.nodeId;
            && m'.edges == m.edges + [Edge(n, End, None, [], None, ev.interrupted, false, false, now)]
            && m'.seqNo == m.seqNo + 1 && m'.feed != []
            && m'.feed[|m'.feed| - 1]
               == InboxEvent(EventId(now, m.seqNo + 1), now, n, Finished,
                             if ev.interrupted then "Stopped" else "Finished", false, ev.interrupted, [], None)
  {
    var card := InboxEvent("", now, ev.nodeId, Finished, if ev.interrupted then "Stopped" else "Finished",
                           false, ev.interrupted, [], None);
    var m2 := Fire(m, Edge(ev.nodeId, End, None, [], None, ev.interrupted, false, false, now));
    CardIsLast(m2, card);
    assert FinishTurn(m, ev, now) == PushInboxEvent(m2, card);
  }

  lemma CardIsLast(m: Mirror, card: InboxEvent)
    requires FeedValid(m)
    ensures var m' := PushInboxEvent(m, card);
            && m'.edges == m.edges && m'.seqNo == m.seqNo + 1 && m'.feed != []
            && m'.feed[|m'.feed| - 1] == card.(id := EventId(card.ts, m.seqNo + 1))
  {
    PushKeepsFeed(m, card);
    LastKept(m.feed, card.(id := EventId(card.ts, m.seqNo + 1)), INBOX_EVENTS_CAP);
  }

  /** A turn that ends is announced once, with a card that says how it ended. */
  lemma TurnEndAnnounced(m: Mirror, ev: AgentEvent, p: Option<AgentState>, s: Option<AgentState>, now: nat)
    requires FeedValid(m) && s == Some(Done) && p != Some(Done)
    ensures var m', n := Produce(m, ev, p, s, now), ev.nodeId;
            && m'.edges == m.edges + [Edge(n, End, None, [], None, ev.interrupted, false, false, now)]
            && m'.seqNo == m.seqNo + 1 && m'.feed != []
            && m'.feed[|m'.feed| - 1]
               == InboxEvent(EventId(now, m.seqNo + 1), now, n, Finished,
                             if ev.interrupted then "Stopped" else "Finished", false, ev.interrupted, [], None)
  {
    OpenedEdges(m, ev, p, s, now);
    FinishedAnnounced(StartEdge(SettleBefore(m, ev, p, s), ev, p, s, now), ev, now);
    assert m.edges + [] == m.edges;
  }

  /** Any other change that does not need the user adds no card, and announces a turn begun, a session
      ended in mid-turn, or nothing. */
  lemma OtherwiseAnnounced(m: Mirror, ev: AgentEvent, p: Option<AgentState>, s: Option<AgentState>, now: nat)
    requires FeedValid(m) && !NeedsYou(s) && (s == Some(Done) ==> p == Some(Done))
    ensures var m', n := Produce(m, ev, p, s, now), ev.nodeId;
            && m'.seqNo == m.seqNo && |m'.feed| == |m.feed|
            && m'.edges == m.edges + (
                 if s == Some(Working) && p != Some(Working) then
                   [Edge(n, Start, None, [], None, false, false, false, now)]
                 else if s.None? && p.Some? && p != Some(Done) && ev.kind.SessionEvent? && ev.phase == Some(Ending) then
                   [Edge(n, End, None, [], None, false, false, false, now)]
                 else [])
  {
    OpenedEdges(m, ev, p, s, now);
    assert m.edges + [] == m.edges;
  }

  /** An event that names no node is broadcast as it came and changes nothing. */
  lemma NodelessIsOnlyBroadcast(m: Mirror, ev: AgentEvent, now: nat)
    requires ev.nodeId == ""
    ensures RecordAgentEvent(m, ev, now) == m.(broadcasts := m.broadcasts + [ev])
  {
  }

  /** No operation but a sweep touches the entry of another node, and none its pending detail. */
  lemma OthersUntouched(m: Mirror, op: Op, k: string)
    requires match op
             case Record(ev, _) => ev.nodeId != k
             case SweepAll(_, _, _) => true
             case _ => op.node != k
    ensures !op.SweepAll? ==> Lookup(Apply(m, op), k) == Lookup(m, k)
    ensures k in Apply(m, op).stashes <==> k in m.stashes
    ensures k in m.stashes ==> Apply(m, op).stashes[k] == m.stashes[k]
  {
    match op
    case Record(ev, now) => RecordKeepsOtherStash(m, ev, now, k);
    case SweepAll(order, now, staleMs) => SweepKeepsStashes(m, order, now, staleMs);
    case _ =>
  }

  lemma RecordKeepsOtherStash(m: Mirror, ev: AgentEvent, now: nat, k: string)
    requires ev.nodeId != k
    ensures var m' := RecordAgentEvent(m, ev, now);
            && Lookup(m', k) == Lookup(m, k)
            && (k in m'.stashes <==> k in m.stashes) && (k in m.stashes ==> m'.stashes[k] == m.stashes[k])
  {
    if ev.nodeId != "" {
      var next := ReduceEntry(Lookup(m, ev.nodeId), ev, now);
      RecordedNodes(m, ev, now);
      ProduceKeepsOtherStash(m.(nodes := m.nodes[ev.nodeId := next]), Rewritten(ev, next),
                             NodeState(m, ev.nodeId), next.state, now, k);
    }
  }

  predicate SameDetail(m: Mirror, m': Mirror, k: string) {
    (k in m'.stashes <==> k in m.stashes) && (k in m.stashes ==> m'.stashes[k] == m.stashes[k])
  }

  lemma RaiseKeepsOtherStash(
      m: Mirror, ev: AgentEvent, p: Option<AgentState>, s: Option<AgentState>, now: nat, k: string)
    requires ev.nodeId != k
    ensures SameDetail(m, RaiseAsk(m, ev, p, s, now), k)
  {
    assert RaiseAsk(m, ev, p, s, now).stashes == SweepStash(m, ev.nodeId, now).stashes;
  }

  lemma SettleKeepsOtherStash(
      m: Mirror, ev: AgentEvent, p: Option<AgentState>, s: Option<AgentState>, now: nat, k: string)
    requires ev.nodeId != k
    ensures SameDetail(m, StartEdge(SettleBefore(m, ev, p, s), ev, p, s, now), k)
  {
  }

  lemma ProduceKeepsOtherStash(
      m: Mirror, ev: AgentEvent, p: Option<AgentState>, s: Option<AgentState>, now: nat, k: string)
    requires ev.nodeId != k
    ensures SameDetail(m, Produce(m, ev, p, s, now), k)
  {
    var m1 := StartEdge(SettleBefore(m, ev, p, s), ev, p, s, now);
    SettleKeepsOtherStash(m, ev, p, s, now, k);
    if NeedsYou(s) {
      RaiseKeepsOtherStash(m1, ev, p, s, now, k);
    } else {
      assert Produce(m, ev, p, s, now).stashes == m1.stashes;
    }
  }

  lemma {:induction false} SweepKeepsStashes(m: Mirror, order: seq<string>, now: nat, staleMs: nat)
    ensures Sweep(m, order, now, staleMs).stashes == m.stashes
  {
    if order != [] { SweepKeepsStashes(m, order[..|order| - 1], now, staleMs); }
  }

  // ---- clearing, acknowledging, sweeping ----------------------------------------------------

  lemma {:induction false} ResolvedExactly(h: seq<InboxEvent>, n: string, i: nat)
    requires i < |h|
    ensures ResolveAsks(h, n)[i]
         == h[i].(resolved := h[i].resolved || (h[i].nodeId == n && h[i].kind != Finished))
    ensures AckDones(h, n)[i]
         == h[i].(resolved := h[i].resolved || (h[i].nodeId == n && h[i].kind == Finished))
  {
    if i > 0 { ResolvedExactly(h[1..], n, i - 1); }
  }

  /** Clearing a node forgets it and its pending detail, settles its asks and no other card, and takes a
      live card down exactly when the node was in mid-turn. */
  lemma ClearedExactly(m: Mirror, n: string, now: nat)
    ensures var m' := ClearNode(m, n, now);
            && n !in m'.nodes && n !in m'.stashes && |m'.feed| == |m.feed|
            && (forall i :: 0 <= i < |m.feed| ==>
                  m'.feed[i] == m.feed[i].(resolved := m.feed[i].resolved
                                                       || (m.feed[i].nodeId == n && m.feed[i].kind != Finished)))
            && m'.edges == m.edges + (if n in m.nodes && m.nodes[n].state.Some? && m.nodes[n].state.value != Done
                                      then [Edge(n, End, None, [], None, false, false, false, now)] else [])
  {
    assert m.edges + [] == m.edges;
    forall i | 0 <= i < |m.feed|
      ensures ResolveAsks(m.feed, n)[i]
           == m.feed[i].(resolved := m.feed[i].resolved || (m.feed[i].nodeId == n && m.feed[i].kind != Finished))
    {
      ResolvedExactly(m.feed, n, i);
    }
  }

  /** Acknowledging marks the node's finished cards read and no other, and says so once, exactly when one
      was unread. */
  lemma AckedExactly(m: Mirror, n: string, now: nat)
    requires n != ""
    ensures var m' := AckDone(m, n, now);
            var unread := exists i :: 0 <= i < |m.feed|
                                      && m.feed[i].nodeId == n && m.feed[i].kind == Finished && !m.feed[i].resolved;
            && m'.nodes == m.nodes && m'.stashes == m.stashes && |m'.feed| == |m.feed|
            && (forall i :: 0 <= i < |m.feed| ==>
                  m'.feed[i] == m.feed[i].(resolved := m.feed[i].resolved
                                                       || (m.feed[i].nodeId == n && m.feed[i].kind == Finished)))
            && m'.edges == m.edges + (if unread then [Edge(n, End, None, [], None, false, false, true, now)] else [])
  {
    forall i | 0 <= i < |m.feed|
      ensures AckDones(m.feed, n)[i]
           == m.feed[i].(resolved := m.feed[i].resolved || (m.feed[i].nodeId == n && m.feed[i].kind == Finished))
    {
      ResolvedExactly(m.feed, n, i);
    }
  }

  /** A sweep takes exactly the nodes that have been working for longer than the limit to done, their
      evidence and age as they were, and takes their cards down; it adds no card to the feed. */
  lemma {:induction false} SweptExactly(m: Mirror, order: seq<string>, now: nat, staleMs: nat, n: string)
    ensures var m' := Sweep(m, order, now, staleMs);
            && m'.feed == m.feed && m'.seqNo == m.seqNo && m'.broadcasts == m.broadcasts
            && (n in m'.nodes <==> n in m.nodes)
            && (n in m.nodes ==>
                  var stale := n in order && m.nodes[n].state == Some(Working) && now - m.nodes[n].updatedAt > staleMs;
                  && m'.nodes[n] == m.nodes[n].(state := if stale then Some(Done) else m.nodes[n].state)
                  && (stale ==> Edge(n, End, None, [], None, false, true, false, now) in m'.edges))
            && m.edges <= m'.edges
  {
    if order != [] { SweptExactly(m, order[..|order| - 1], now, staleMs, n); }
  }
}
