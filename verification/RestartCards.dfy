/** Live cards after a restart. No edge is replayed, so a node reloaded in the middle of a turn has no
    card until something about it changes. */
module RestartCards {

  import opened Wrappers
  import opened InboxFeed
  import opened StatusReducer
  import opened StatusMirror
  import opened StatusInvariants
  import opened HeldQuestion
  import opened MirrorRestart

  /** The card is what the state calls for: up in mid-turn, down otherwise. */
  predicate CardRight(last: Option<EdgeEvent>, s: Option<AgentState>) { CardFits(last, s, false) }

  // ---- which cards are wrong ----------------------------------------------------------------

  /** Recording the event finds its node's ask unchanged in the feed. */
  predicate AsksAgain(m: Mirror, ev: AgentEvent, now: nat) {
    var prev := Lookup(m, ev.nodeId);
    var next := ReduceEntry(prev, ev, now);
    var out, p, s := Rewritten(ev, next), StateOf(prev), next.state;
    var m1 := StartEdge(SettleBefore(m.(nodes := m.nodes[ev.nodeId := next]), out, p, s), out, p, s, now);
    Reasserted(m1, ev.nodeId, AskOf(m1, out, s, now).title, now)
  }

  /** The operation says nothing about the node: its state stays, and it asks nothing new. */
  predicate SaysNothing(m: Mirror, op: Op, n: string) {
    && NodeState(Apply(m, op), n) == NodeState(m, n)
    && (op.Record? && op.ev.nodeId == n && n != "" && NeedsYou(NodeState(m, n)) ==> AsksAgain(m, op.ev, op.now))
  }

  /** The nodes that were in mid-turn at the start and of which nothing has been said since. */
  function RunMute(m: Mirror, ops: seq<Op>): set<string> {
    if ops == [] then set n | n in m.nodes && Active(NodeState(m, n))
    else
      var front := ops[..|ops| - 1];
      set n | n in RunMute(m, front) && SaysNothing(RunOps(m, front), ops[|ops| - 1], n)
  }

  /** The nodes a session start took out of mid-turn when their card was up, and that have not entered
      a state since. */
  function RunStrays(m: Mirror, ops: seq<Op>): set<string> {
    if ops == [] then {}
    else
      var front, op := ops[..|ops| - 1], ops[|ops| - 1];
      (set n | n in RunStrays(m, front) && NodeState(Apply(RunOps(m, front), op), n).None?)
      + (set n | n in OpNode(op) && Strands(RunOps(m, front), op, n) && n !in RunMute(m, front))
  }

  predicate CardAt(last: Option<EdgeEvent>, s: Option<AgentState>, mute: bool, stray: bool) {
    && (mute ==> last.None? && Active(s))
    && (!mute ==> CardFits(last, s, stray))
    && (stray ==> s.None?)
  }

  predicate CardOf(m: Mirror, n: string, mute: bool, stray: bool) {
    CardAt(LastEdge(m.edges, n), NodeState(m, n), mute, stray)
  }

  // ---- each operation -----------------------------------------------------------------------

  /** A node's last edge after its state went from `p` to `s`; `again` if the ask is in the feed. */
  function EdgeAfter(
      before: Option<EdgeEvent>, p: Option<AgentState>, s: Option<AgentState>, again: bool, ending: bool)
    : Option<EdgeEvent>
  {
    if NeedsYou(s) then (if p == s && again then before else Some(Update))
    else if s == Some(Done) && p != s then Some(End)
    else if s.None? && Active(p) && ending then Some(End)
    else if s == Some(Working) && p != s then Some(Start)
    else before
  }

  predicate EndsSession(ev: AgentEvent) { ev.kind.SessionEvent? && ev.phase == Some(Ending) }

  lemma OpenedEdge(m: Mirror, ev: AgentEvent, p: Option<AgentState>, s: Option<AgentState>, now: nat, k: string)
    ensures LastEdge(StartEdge(SettleBefore(m, ev, p, s), ev, p, s, now).edges, k)
         == if k == ev.nodeId && s == Some(Working) && p != s then Some(Start) else LastEdge(m.edges, k)
  {
    var m0 := SettleBefore(m, ev, p, s);
    assert m0.edges == m.edges;
    LastEdgeAfterFire(m0, Edge(ev.nodeId, Start, None, [], None, false, false, false, now));
  }

  lemma RaisedEdge(m: Mirror, ev: AgentEvent, p: Option<AgentState>, s: Option<AgentState>, now: nat, k: string)
    ensures var again := Reasserted(m, ev.nodeId, AskOf(m, ev, s, now).title, now);
            LastEdge(RaiseAsk(m, ev, p, s, now).edges, k)
            == if k == ev.nodeId && !(p == s && again) then Some(Update) else LastEdge(m.edges, k)
  {
    var n := ev.nodeId;
    var m1 := SweepStash(m, n, now);
    assert m1.edges == m.edges;
    LastEdgeAfterFire(m1, AskEdge(n, AskOf(m, ev, s, now), now));
    assert RaiseAsk(m, ev, p, s, now).edges == m.edges
        || RaiseAsk(m, ev, p, s, now).edges == Fire(m1, AskEdge(n, AskOf(m, ev, s, now), now)).edges;
  }

  lemma EndedEdge(m: Mirror, ev: AgentEvent, now: nat, k: string)
    ensures LastEdge(FinishTurn(m, ev, now).edges, k) == if k == ev.nodeId then Some(End) else LastEdge(m.edges, k)
    ensures LastEdge(EndMidTurn(m, ev, now).edges, k) == if k == ev.nodeId then Some(End) else LastEdge(m.edges, k)
  {
    LastEdgeAfterFire(m, Edge(ev.nodeId, End, None, [], None, ev.interrupted, false, false, now));
    LastEdgeAfterFire(m, Edge(ev.nodeId, End, None, [], None, false, false, false, now));
  }

  lemma ProducedEdge(m: Mirror, ev: AgentEvent, p: Option<AgentState>, s: Option<AgentState>, now: nat, k: string)
    ensures var n, m1 := ev.nodeId, StartEdge(SettleBefore(m, ev, p, s), ev, p, s, now);
            LastEdge(Produce(m, ev, p, s, now).edges, k)
            == if k == n
               then EdgeAfter(LastEdge(m.edges, n), p, s, Reasserted(m1, n, AskOf(m1, ev, s, now).title, now),
                              EndsSession(ev))
               else LastEdge(m.edges, k)
  {
    var m1 := StartEdge(SettleBefore(m, ev, p, s), ev, p, s, now);
    if NeedsYou(s) {
      OpenedEdge(m, ev, p, s, now, k);
      RaisedEdge(m1, ev, p, s, now, k);
    } else {
      QuietEdge(m, ev, p, s, now, k, Reasserted(m1, ev.nodeId, AskOf(m1, ev, s, now).title, now));
    }
  }

  lemma QuietEdge(
      m: Mirror, ev: AgentEvent, p: Option<AgentState>, s: Option<AgentState>, now: nat, k: string, again: bool)
    requires !NeedsYou(s)
    ensures LastEdge(Produce(m, ev, p, s, now).edges, k)
         == if k == ev.nodeId then EdgeAfter(LastEdge(m.edges, k), p, s, again, EndsSession(ev))
            else LastEdge(m.edges, k)
  {
    OpenedEdge(m, ev, p, s, now, k);
    EndedEdge(StartEdge(SettleBefore(m, ev, p, s), ev, p, s, now), ev, now, k);
  }

  lemma RecordedEdge(m: Mirror, ev: AgentEvent, now: nat, k: string)
    requires ev.nodeId != ""
    ensures var n, m' := ev.nodeId, RecordAgentEvent(m, ev, now);
            && NodeState(m', k) == (if k == n then ReduceEntry(Lookup(m, n), ev, now).state else NodeState(m, k))
            && LastEdge(m'.edges, k)
               == if k == n
                  then EdgeAfter(LastEdge(m.edges, n), NodeState(m, n), NodeState(m', n), AsksAgain(m, ev, now),
                                 EndsSession(ev))
                  else LastEdge(m.edges, k)
  {
    var prev := Lookup(m, ev.nodeId);
    var next := ReduceEntry(prev, ev, now);
    RecordedNodes(m, ev, now);
    ProducedEdge(m.(nodes := m.nodes[ev.nodeId := next]), Rewritten(ev, next), StateOf(prev), next.state, now, k);
  }

  /** How one node's card follows its state. */
  lemma CardMoves(
      last: Option<EdgeEvent>, p: Option<AgentState>, s: Option<AgentState>, again: bool, session: bool, ending: bool,
      mute: bool, stray: bool)
    requires CardAt(last, p, mute, stray)
    requires (session ==> s.None?) && (s.None? && !session ==> p.None?) && (ending ==> session)
    ensures CardAt(EdgeAfter(last, p, s, again, ending), s, mute && s == p && (NeedsYou(p) ==> again),
                   (stray && s.None?) || (session && !ending && Active(p) && !mute))
  {
  }

  lemma RecordCard(m: Mirror, ev: AgentEvent, now: nat, n: string, mute: bool, stray: bool)
    requires CardOf(m, n, mute, stray)
    ensures var m' := RecordAgentEvent(m, ev, now);
            CardOf(m', n, mute && SaysNothing(m, Record(ev, now), n),
                   (stray && NodeState(m', n).None?) || (Strands(m, Record(ev, now), n) && !mute))
  {
    if ev.nodeId != "" {
      RecordedEdge(m, ev, now, n);
      if n == ev.nodeId {
        ReducerLosesStateOnlyAtBoundary(Lookup(m, n), ev, now);
        CardMoves(LastEdge(m.edges, n), NodeState(m, n), NodeState(RecordAgentEvent(m, ev, now), n),
                  AsksAgain(m, ev, now), ev.kind.SessionEvent?, EndsSession(ev), mute, stray);
      }
    }
  }

  lemma ClearCard(m: Mirror, k: string, now: nat, n: string, mute: bool, stray: bool)
    requires CardOf(m, n, mute, stray)
    ensures CardOf(ClearNode(m, k, now), n, mute && k != n, stray)
    ensures k == n ==> NodeState(ClearNode(m, k, now), n).None?
    ensures k != n ==> NodeState(ClearNode(m, k, now), n) == NodeState(m, n)
  {
    var m1 := DropStash(ResolveUnresolvedFor(m, k), k).(nodes := m.nodes - {k});
    LastEdgeAfterFire(m1, Edge(k, End, None, [], None, false, false, false, now));
  }

  lemma {:induction false} SweepCard(
      m: Mirror, order: seq<string>, now: nat, staleMs: nat, n: string, mute: bool, stray: bool)
    requires CardOf(m, n, mute, stray)
    ensures var m' := Sweep(m, order, now, staleMs);
            && CardOf(m', n, mute && NodeState(m', n) == NodeState(m, n), stray)
            && (NodeState(m', n) != NodeState(m, n) ==>
                  NodeState(m, n) == Some(Working) && NodeState(m', n) == Some(Done))
  {
    if order != [] {
      var k := order[|order| - 1];
      SweepCard(m, order[..|order| - 1], now, staleMs, n, mute, stray);
      var m1 := Sweep(m, order[..|order| - 1], now, staleMs);
      if IsStale(m1, k, now, staleMs) {
        LastEdgeAfterFire(m1.(nodes := m1.nodes[k := m1.nodes[k].(state := Some(Done))]),
                          Edge(k, End, None, [], None, false, true, false, now));
      }
    }
  }

  lemma AckCard(m: Mirror, k: string, now: nat, n: string)
    ensures LastEdge(AckDone(m, k, now).edges, n) == LastEdge(m.edges, n)
    ensures NodeState(AckDone(m, k, now), n) == NodeState(m, n)
  {
    LastEdgeAfterFire(m.(feed := AckDones(m.feed, k), history := AckDones(m.history, k)),
                      Edge(k, End, None, [], None, false, false, true, now));
  }

  lemma StepCard(m: Mirror, op: Op, n: string, mute: bool, stray: bool)
    requires CardOf(m, n, mute, stray)
    ensures CardOf(Apply(m, op), n, mute && SaysNothing(m, op, n),
                   (stray && NodeState(Apply(m, op), n).None?) || (Strands(m, op, n) && !mute))
  {
    match op
    case Record(ev, now) => RecordCard(m, ev, now, n, mute, stray);
    case Clear(k, now) => ClearCard(m, k, now, n, mute, stray);
    case Acknowledge(k, now) => AckCard(m, k, now, n);
    case SweepAll(order, now, staleMs) => SweepCard(m, order, now, staleMs, n, mute, stray);
    case Picker(_, _, _, _) =>
    case Permission(_, _, _) =>
  }

  lemma {:induction false} RunCard(m: Mirror, ops: seq<Op>, n: string)
    requires m.edges == []
    ensures CardOf(RunOps(m, ops), n, n in RunMute(m, ops), n in RunStrays(m, ops))
  {
    if ops != [] {
      var front, op := ops[..|ops| - 1], ops[|ops| - 1];
      RunCard(m, front, n);
      StepCard(RunOps(m, front), op, n, n in RunMute(m, front), n in RunStrays(m, front));
      MemberAfter(m, ops, n);
    }
  }

  lemma MemberAfter(m: Mirror, ops: seq<Op>, n: string)
    requires ops != []
    ensures var front, op := ops[..|ops| - 1], ops[|ops| - 1];
            var before := RunOps(m, front);
            && (n in RunMute(m, ops) <==> n in RunMute(m, front) && SaysNothing(before, op, n))
            && (n in RunStrays(m, ops) <==>
                  (n in RunStrays(m, front) && NodeState(Apply(before, op), n).None?)
                  || (Strands(before, op, n) && n !in RunMute(m, front)))
  {
  }

  /** Whatever file is loaded and whatever follows, a node's card is wrong exactly when the node was
      reloaded in mid-turn and nothing has been said of it since, or a session start has taken it out
      of a turn whose card was up. */
  lemma ReloadedCards(doc: MirrorFile, loaded: nat, ops: seq<Op>, n: string)
    ensures var m0 := Load(doc, loaded);
            var m := RunOps(m0, ops);
            CardRight(LastEdge(m.edges, n), NodeState(m, n)) <==> n !in RunMute(m0, ops) && n !in RunStrays(m0, ops)
  {
    RunCardRight(Load(doc, loaded), ops, n);
  }

  lemma RunCardRight(m: Mirror, ops: seq<Op>, n: string)
    requires m.edges == []
    ensures CardRight(LastEdge(RunOps(m, ops).edges, n), NodeState(RunOps(m, ops), n))
            <==> n !in RunMute(m, ops) && n !in RunStrays(m, ops)
  {
    RunCard(m, ops, n);
    RightExactly(LastEdge(RunOps(m, ops).edges, n), NodeState(RunOps(m, ops), n),
                 n in RunMute(m, ops), n in RunStrays(m, ops));
  }

  lemma RightExactly(last: Option<EdgeEvent>, s: Option<AgentState>, mute: bool, stray: bool)
    requires CardAt(last, s, mute, stray)
    ensures CardRight(last, s) <==> !mute && !stray
  {
  }

  /** It happens: the next working event of a node reloaded as working puts no card up. */
  lemma ReloadedWorkingIsMute(doc: MirrorFile, loaded: nat, n: string, now: nat)
    requires n != "" && NodeState(Load(doc, loaded), n) == Some(Working)
    ensures var m := RecordAgentEvent(Load(doc, loaded), Plain(n, StateEvent, Some(Working), None), now);
            NodeState(m, n) == Some(Working) && LastEdge(m.edges, n) == None
  {
    WorkingIsMute(Load(doc, loaded), n, now);
  }

  lemma WorkingIsMute(m: Mirror, n: string, now: nat)
    requires n != "" && m.edges == [] && NodeState(m, n) == Some(Working)
    ensures var m' := RecordAgentEvent(m, Plain(n, StateEvent, Some(Working), None), now);
            NodeState(m', n) == Some(Working) && LastEdge(m'.edges, n) == None
  {
    RecordedEdge(m, Plain(n, StateEvent, Some(Working), None), now, n);
  }
}
