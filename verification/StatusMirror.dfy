/** The agent status mirror as a value and its operations as steps on it: the node map, the inbox
    feed (with the history it was trimmed from), the live edges fired and the events broadcast.
    `MirrorService` holds the same state in mutable fields. */
module StatusMirror {

  import opened Wrappers
  import opened Text
  import opened InboxFeed
  import opened StatusReducer

  /** The pending detail for a node's next ask. No options: not a picker; "" : absent text. */
  datatype Stash = Stash(options: seq<string>, question: string, approvalTitle: string, at: nat)

  datatype EdgeEvent = Start | Update | End

  /** A main-state edge sent to the live surfaces. */
  datatype Edge = Edge(
    nodeId: string,
    event: EdgeEvent,
    kind: Option<InboxKind>,
    options: seq<string>,
    pendingId: Option<string>,
    interrupted: bool,
    stale: bool,
    ack: bool,
    ts: nat)

  datatype Mirror = Mirror(
    nodes: map<string, Entry>,
    stashes: map<string, Stash>,
    feed: seq<InboxEvent>,
    seqNo: nat,
    history: seq<InboxEvent>,
    edges: seq<Edge>,
    broadcasts: seq<AgentEvent>)

  const EMPTY: Mirror := Mirror(map[], map[], [], 0, [], [], [])

  const STASH_MAX_AGE_MS: nat := 300_000
  const QUESTION_DEDUP_WINDOW_MS: nat := 600_000

  function Lookup(m: Mirror, n: string): Option<Entry> {
    if n in m.nodes then Some(m.nodes[n]) else None
  }

  function NodeState(m: Mirror, n: string): Option<AgentState> { StateOf(Lookup(m, n)) }

  predicate NeedsYou(s: Option<AgentState>) { s == Some(Blocked) || s == Some(Waiting) }

  /** Mid-turn: working, or needing the user. */
  predicate Active(s: Option<AgentState>) { s.Some? && s != Some(Done) }

  // ---- feed and edge primitives -------------------------------------------------------------

  function EventId(ts: nat, seqNo: nat): string { Decimal(ts) + "-" + Decimal(seqNo) }

  function PushInboxEvent(m: Mirror, e: InboxEvent): Mirror {
    var full := e.(id := EventId(e.ts, m.seqNo + 1));
    m.(feed := TrimById(m.feed + [full], INBOX_EVENTS_CAP),
       history := m.history + [full],
       seqNo := m.seqNo + 1)
  }

  function ResolveUnresolvedFor(m: Mirror, n: string): Mirror {
    m.(feed := ResolveAsks(m.feed, n), history := ResolveAsks(m.history, n))
  }

  function Fire(m: Mirror, e: Edge): Mirror { m.(edges := m.edges + [e]) }

  function DropStash(m: Mirror, n: string): Mirror { m.(stashes := m.stashes - {n}) }

  function NewestUnresolved(h: seq<InboxEvent>, n: string): Option<InboxEvent> {
    if h == [] then None
    else
      var e := h[|h| - 1];
      if e.nodeId == n && IsOpenAsk(e) then Some(e) else NewestUnresolved(h[..|h| - 1], n)
  }

  // ---- inbox production ---------------------------------------------------------------------

  datatype Ask = Ask(kind: InboxKind, title: string, options: seq<string>, pendingId: Option<string>)

  predicate StashFresh(m: Mirror, n: string, now: nat) {
    n in m.stashes && now - m.stashes[n].at <= STASH_MAX_AGE_MS
  }

  /** What the node is asking: a fresh picker makes it a question whatever state was signalled. */
  function AskOf(m: Mirror, ev: AgentEvent, nextState: Option<AgentState>, now: nat): Ask {
    var stash := if StashFresh(m, ev.nodeId, now) then m.stashes[ev.nodeId] else Stash([], "", "", 0);
    var kind := if stash.options != [] || nextState == Some(Waiting) then Question else Approval;
    var own := if stash.options != [] then stash.question
               else if kind == Approval then stash.approvalTitle else "";
    var title := if own != "" then own
                 else if ev.headline != "" then ev.headline
                 else if kind == Approval then "Needs approval" else "Waiting for input";
    Ask(kind, title, stash.options, if kind == Approval then ev.pendingId else None)
  }

  /** A new turn or a session boundary drops the stash; leaving blocked or waiting settles the
      node's asks. */
  function SettleBefore(m: Mirror, ev: AgentEvent, prevState: Option<AgentState>,
      nextState: Option<AgentState>): Mirror {
    var boundary := ev.kind.SessionEvent? || (ev.kind.StateEvent? && ev.state == Some(Working) && ev.newTurn);
    var m1 := if boundary then DropStash(m, ev.nodeId) else m;
    if NeedsYou(prevState) && nextState != prevState
    then DropStash(ResolveUnresolvedFor(m1, ev.nodeId), ev.nodeId)
    else m1
  }

  function StartEdge(m: Mirror, ev: AgentEvent, prevState: Option<AgentState>, nextState: Option<AgentState>,
      now: nat): Mirror {
    if nextState == Some(Working) && prevState != Some(Working)
    then Fire(m, Edge(ev.nodeId, Start, None, [], None, false, false, false, now))
    else m
  }

  /** An unresolved ask with this title, younger than the window, makes the ask a re-assertion. */
  predicate Reasserted(m: Mirror, n: string, title: string, now: nat) {
    var dup := NewestUnresolved(m.feed, n);
    dup.Some? && dup.value.title == title && now - dup.value.ts < QUESTION_DEDUP_WINDOW_MS
  }

  function AskEdge(n: string, ask: Ask, now: nat): Edge {
    Edge(n, Update, Some(ask.kind), ask.options, ask.pendingId, false, false, false, now)
  }

  function AskCard(n: string, ask: Ask, now: nat): InboxEvent {
    InboxEvent("", now, n, ask.kind, ask.title, false, false, ask.options, ask.pendingId)
  }

  /** A stale stash is dropped when it is read. */
  function SweepStash(m: Mirror, n: string, now: nat): Mirror {
    if n in m.stashes && !StashFresh(m, n, now) then DropStash(m, n) else m
  }

  /** The edge fires when the state or the ask changed; a new ask settles every older one. */
  function RaiseAsk(m: Mirror, ev: AgentEvent, prevState: Option<AgentState>, nextState: Option<AgentState>,
      now: nat): Mirror {
    var n, ask := ev.nodeId, AskOf(m, ev, nextState, now);
    var m1 := SweepStash(m, n, now);
    if !Reasserted(m, n, ask.title, now) then
      PushInboxEvent(ResolveUnresolvedFor(Fire(m1, AskEdge(n, ask, now)), n), AskCard(n, ask, now))
    else if prevState != nextState then Fire(m1, AskEdge(n, ask, now))
    else m1
  }

  function FinishTurn(m: Mirror, ev: AgentEvent, now: nat): Mirror {
    PushInboxEvent(
      Fire(m, Edge(ev.nodeId, End, None, [], None, ev.interrupted, false, false, now)),
      InboxEvent("", now, ev.nodeId, Finished, if ev.interrupted then "Stopped" else "Finished",
                 false, ev.interrupted, [], None))
  }

  function EndMidTurn(m: Mirror, ev: AgentEvent, now: nat): Mirror {
    Fire(m, Edge(ev.nodeId, End, None, [], None, false, false, false, now))
  }

  /** Feed and edges from the transition the reducer computed. */
  function Produce(m: Mirror, ev: AgentEvent, prevState: Option<AgentState>, nextState: Option<AgentState>,
      now: nat): Mirror {
    var m1 := StartEdge(SettleBefore(m, ev, prevState, nextState), ev, prevState, nextState, now);
    if NeedsYou(nextState) then RaiseAsk(m1, ev, prevState, nextState, now)
    else if nextState == Some(Done) && prevState != Some(Done) then FinishTurn(m1, ev, now)
    else if nextState.None? && Active(prevState) && ev.kind.SessionEvent? && ev.phase == Some(Ending) then
      EndMidTurn(m1, ev, now)
    else m1
  }

  // ---- the operations -----------------------------------------------------------------------

  /** The event every consumer acts on: a held question is reported as waiting, not done. */
  function Rewritten(ev: AgentEvent, next: Entry): AgentEvent {
    if ev.kind.StateEvent? && ev.state == Some(Done) && next.awaitingInput && next.state == Some(Waiting)
    then ev.(state := Some(Waiting))
    else ev
  }

  /** What kind of ask the node's card was tagged with, when the node needs the user. */
  function Classified(m: Mirror, ev: AgentEvent, prevState: Option<AgentState>, nextState: Option<AgentState>,
      now: nat): Option<InboxKind> {
    if NeedsYou(nextState)
    then Some(AskOf(StartEdge(SettleBefore(m, ev, prevState, nextState), ev, prevState, nextState, now),
                    ev, nextState, now).kind)
    else None
  }

  /** An ask is broadcast with the classification its card got; a question carries no ticket. */
  function Enriched(ev: AgentEvent, classification: Option<InboxKind>): AgentEvent {
    match classification
    case None => ev
    case Some(Question) => ev.(askKind := Some(AskQuestion), pendingId := None)
    case Some(_) => ev.(askKind := Some(AskApproval))
  }

  /** The mirror after recording, its broadcast aside. */
  function Recorded(m: Mirror, ev: AgentEvent, now: nat): Mirror {
    var prev := Lookup(m, ev.nodeId);
    var next := ReduceEntry(prev, ev, now);
    Produce(m.(nodes := m.nodes[ev.nodeId := next]), Rewritten(ev, next), StateOf(prev), next.state, now)
  }

  function Broadcast(m: Mirror, ev: AgentEvent, now: nat): AgentEvent {
    var prev := Lookup(m, ev.nodeId);
    var next := ReduceEntry(prev, ev, now);
    var out := Rewritten(ev, next);
    Enriched(out, Classified(m, out, StateOf(prev), next.state, now))
  }

  function RecordAgentEvent(m: Mirror, ev: AgentEvent, now: nat): Mirror {
    if ev.nodeId == "" then m.(broadcasts := m.broadcasts + [ev])
    else Recorded(m, ev, now).(broadcasts := m.broadcasts + [Broadcast(m, ev, now)])
  }

  function ClearNode(m: Mirror, n: string, now: nat): Mirror {
    var m1 := DropStash(ResolveUnresolvedFor(m, n), n).(nodes := m.nodes - {n});
    if Active(NodeState(m, n))
    then Fire(m1, Edge(n, End, None, [], None, false, false, false, now))
    else m1
  }

  predicate HasUnreadDone(h: seq<InboxEvent>, n: string) {
    exists i :: 0 <= i < |h| && h[i].nodeId == n && h[i].kind.Finished? && !h[i].resolved
  }

  function AckDone(m: Mirror, n: string, now: nat): Mirror {
    if n == "" || !HasUnreadDone(m.feed, n) then m
    else
      Fire(m.(feed := AckDones(m.feed, n), history := AckDones(m.history, n)),
           Edge(n, End, None, [], None, false, false, true, now))
  }

  predicate IsStale(m: Mirror, n: string, now: nat, staleMs: nat) {
    NodeState(m, n) == Some(Working) && now - m.nodes[n].updatedAt > staleMs
  }

  /** The sweep's treatment of one node. */
  function SweepNode(m: Mirror, n: string, now: nat, staleMs: nat): Mirror {
    if IsStale(m, n, now, staleMs)
    then Fire(m.(nodes := m.nodes[n := m.nodes[n].(state := Some(Done))]),
              Edge(n, End, None, [], None, false, true, false, now))
    else m
  }

  /** A whole sweep visits the nodes one after another. */
  function Sweep(m: Mirror, order: seq<string>, now: nat, staleMs: nat): Mirror {
    if order == [] then m
    else SweepNode(Sweep(m, order[..|order| - 1], now, staleMs), order[|order| - 1], now, staleMs)
  }

  /** A picker about to be shown: its options and question wait for the ask. */
  function StashPicker(m: Mirror, n: string, options: seq<string>, question: string, now: nat): Mirror {
    if n == "" || options == [] then m
    else m.(stashes := m.stashes[n := Stash(options, question, "", now)])
  }

  /** A permission about to be requested: its summary joins any fresh picker. */
  function StashApproval(m: Mirror, n: string, title: string, now: nat): Mirror {
    if n == "" || title == "" then m
    else
      var cur := if StashFresh(m, n, now) then m.stashes[n] else Stash([], "", "", 0);
      m.(stashes := m.stashes[n := cur.(approvalTitle := title, at := now)])
  }

  datatype Op =
    | Record(ev: AgentEvent, now: nat)
    | Clear(node: string, now: nat)
    | Acknowledge(node: string, now: nat)
    | SweepAll(order: seq<string>, now: nat, staleMs: nat)
    | Picker(node: string, options: seq<string>, question: string, now: nat)
    | Permission(node: string, title: string, now: nat)

  function Apply(m: Mirror, op: Op): Mirror {
    match op
    case Record(ev, now) => RecordAgentEvent(m, ev, now)
    case Clear(n, now) => ClearNode(m, n, now)
    case Acknowledge(n, now) => AckDone(m, n, now)
    case SweepAll(order, now, staleMs) => Sweep(m, order, now, staleMs)
    case Picker(n, options, question, now) => StashPicker(m, n, options, question, now)
    case Permission(n, title, now) => StashApproval(m, n, title, now)
  }

  function RunOps(m: Mirror, ops: seq<Op>): Mirror {
    if ops == [] then m else Apply(RunOps(m, ops[..|ops| - 1]), ops[|ops| - 1])
  }
}
