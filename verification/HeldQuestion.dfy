/** A pending question over whole runs of the mirror: the flag never outlives the waiting state, and
    until something supersedes the question the node is neither shown nor broadcast as done. */
module HeldQuestion {

  import opened Wrappers
  import opened InboxFeed
  import opened StatusReducer
  import opened StatusMirror

  lemma RaiseKeepsNodes(m: Mirror, ev: AgentEvent, p: Option<AgentState>, s: Option<AgentState>, now: nat)
    ensures RaiseAsk(m, ev, p, s, now).nodes == m.nodes
  {
  }

  lemma SettleKeepsNodes(m: Mirror, ev: AgentEvent, p: Option<AgentState>, s: Option<AgentState>, now: nat)
    ensures StartEdge(SettleBefore(m, ev, p, s), ev, p, s, now).nodes == m.nodes
  {
  }

  lemma ProduceKeepsNodes(m: Mirror, ev: AgentEvent, p: Option<AgentState>, s: Option<AgentState>, now: nat)
    ensures Produce(m, ev, p, s, now).nodes == m.nodes
  {
    SettleKeepsNodes(m, ev, p, s, now);
    var m1 := StartEdge(SettleBefore(m, ev, p, s), ev, p, s, now);
    if NeedsYou(s) {
      RaiseKeepsNodes(m1, ev, p, s, now);
    } else if s == Some(Done) && p != Some(Done) {
      assert FinishTurn(m1, ev, now).nodes == m1.nodes;
    } else {
      assert EndMidTurn(m1, ev, now).nodes == m1.nodes;
    }
  }

  /** Recording leaves the reduced entry in the node map and every other node as it was. */
  lemma RecordedNodes(m: Mirror, ev: AgentEvent, now: nat)
    requires ev.nodeId != ""
    ensures RecordAgentEvent(m, ev, now).nodes
            == m.nodes[ev.nodeId := ReduceEntry(Lookup(m, ev.nodeId), ev, now)]
  {
    var prev := Lookup(m, ev.nodeId);
    var next := ReduceEntry(prev, ev, now);
    ProduceKeepsNodes(m.(nodes := m.nodes[ev.nodeId := next]), Rewritten(ev, next), StateOf(prev), next.state, now);
  }

  // ---- the flag and the state ---------------------------------------------------------------

  predicate FlagsInStep(m: Mirror) {
    forall n :: n in m.nodes ==> AskIsWaiting(m.nodes[n])
  }

  /** Every question the run reports arrives as a waiting state. */
  predicate AsksArriveWaiting(op: Op) {
    op.Record? && op.ev.kind.StateEvent? && op.ev.awaitingInput && op.ev.state.Some? ==>
      op.ev.state == Some(Waiting)
  }

  lemma {:induction false} SweepKeepsFlags(m: Mirror, order: seq<string>, now: nat, staleMs: nat)
    requires FlagsInStep(m)
    ensures FlagsInStep(Sweep(m, order, now, staleMs))
  {
    if order != [] { SweepKeepsFlags(m, order[..|order| - 1], now, staleMs); }
  }

  lemma StepKeepsFlags(m: Mirror, op: Op)
    requires FlagsInStep(m) && AsksArriveWaiting(op)
    ensures FlagsInStep(Apply(m, op))
  {
    match op {
      case Record(ev, now) =>
        if ev.nodeId != "" {
          AskFlagKept(Lookup(m, ev.nodeId), ev, now);
          RecordedNodes(m, ev, now);
        }
      case SweepAll(order, now, staleMs) => SweepKeepsFlags(m, order, now, staleMs);
      case _ =>
    }
  }

  /** In every reachable entry the awaiting flag implies the waiting state. */
  lemma {:induction false} FlagImpliesWaiting(ops: seq<Op>)
    requires forall i :: 0 <= i < |ops| ==> AsksArriveWaiting(ops[i])
    ensures FlagsInStep(RunOps(EMPTY, ops))
  {
    if ops != [] {
      FlagImpliesWaiting(ops[..|ops| - 1]);
      StepKeepsFlags(RunOps(EMPTY, ops[..|ops| - 1]), ops[|ops| - 1]);
    }
  }

  // ---- the hold -----------------------------------------------------------------------------

  predicate Asking(m: Mirror, n: string) {
    n in m.nodes && m.nodes[n].awaitingInput && m.nodes[n].state == Some(Waiting)
  }

  /** Anything but an event that supersedes the node's question, or the node's removal. */
  predicate Spares(op: Op, n: string) {
    match op
    case Record(ev, _) => ev.nodeId != n || LeavesAskAlone(ev)
    case Clear(k, _) => k != n
    case _ => true
  }

  predicate SaysDone(ev: AgentEvent, n: string) {
    ev.nodeId == n && ev.kind.StateEvent? && ev.state == Some(Done)
  }

  lemma {:induction false} SweepSpares(m: Mirror, order: seq<string>, now: nat, staleMs: nat, n: string)
    requires Asking(m, n)
    ensures Asking(Sweep(m, order, now, staleMs), n)
    ensures Sweep(m, order, now, staleMs).broadcasts == m.broadcasts
  {
    if order != [] { SweepSpares(m, order[..|order| - 1], now, staleMs, n); }
  }

  lemma EnrichedSays(ev: AgentEvent, classification: Option<InboxKind>, n: string)
    ensures SaysDone(Enriched(ev, classification), n) <==> SaysDone(ev, n)
  {
  }

  lemma RecordHolds(m: Mirror, ev: AgentEvent, now: nat, n: string)
    requires n != "" && ev.nodeId != "" && Asking(m, n) && (ev.nodeId != n || LeavesAskAlone(ev))
    ensures Asking(RecordAgentEvent(m, ev, now), n)
    ensures !SaysDone(Broadcast(m, ev, now), n)
  {
    RecordedNodes(m, ev, now);
    var prev := Lookup(m, ev.nodeId);
    var next := ReduceEntry(prev, ev, now);
    EnrichedSays(Rewritten(ev, next), Classified(m, Rewritten(ev, next), StateOf(prev), next.state, now), n);
    if ev.nodeId == n { HeldStep(m.nodes[n], ev, now); }
  }

  lemma HeldStep(e: Entry, ev: AgentEvent, now: nat)
    requires e.awaitingInput && e.state == Some(Waiting) && LeavesAskAlone(ev)
    ensures var next := ReduceEntry(Some(e), ev, now);
            && next.awaitingInput && next.state == Some(Waiting)
            && (ev.kind.StateEvent? ==> Rewritten(ev, next).state != Some(Done))
  {
  }

  lemma StepHolds(m: Mirror, op: Op, n: string)
    requires n != "" && Asking(m, n) && Spares(op, n)
    ensures Asking(Apply(m, op), n)
    ensures m.broadcasts <= Apply(m, op).broadcasts
    ensures forall i :: |m.broadcasts| <= i < |Apply(m, op).broadcasts| ==>
              !SaysDone(Apply(m, op).broadcasts[i], n)
  {
    match op {
      case Record(ev, now) => if ev.nodeId != "" { RecordHolds(m, ev, now, n); }
      case SweepAll(order, now, staleMs) => SweepSpares(m, order, now, staleMs, n);
      case _ =>
    }
  }

  /** Through any run that spares the question, the node stays waiting on it and no broadcast says
      the node is done. */
  lemma {:induction false} QuestionHeldOverRun(m: Mirror, ops: seq<Op>, n: string)
    requires n != "" && Asking(m, n)
    requires forall i :: 0 <= i < |ops| ==> Spares(ops[i], n)
    ensures Asking(RunOps(m, ops), n)
    ensures m.broadcasts <= RunOps(m, ops).broadcasts
    ensures forall i :: |m.broadcasts| <= i < |RunOps(m, ops).broadcasts| ==>
              !SaysDone(RunOps(m, ops).broadcasts[i], n)
  {
    if ops != [] {
      var front := ops[..|ops| - 1];
      QuestionHeldOverRun(m, front, n);
      StepHolds(RunOps(m, front), ops[|ops| - 1], n);
    }
  }
}
