/** The per-node status reducer: one hook event folded into a node's mirror entry, and what every
    run of it keeps about the evidence behind the current state. */
module StatusReducer {

  import opened Wrappers

  datatype AgentState = Working | Waiting | Blocked | Done
  datatype SessionPhase = Starting | Ending
  datatype AskKind = AskApproval | AskQuestion

  /** `Identity` stands for the kinds that only carry identity: subagent, recurring, background. */
  datatype EventKind = StateEvent | SessionEvent | Identity

  datatype AgentEvent = AgentEvent(
    nodeId: string,
    agentId: string,
    sessionId: Option<string>,
    kind: EventKind,
    state: Option<AgentState>,
    phase: Option<SessionPhase>,
    interrupted: bool,
    idle: bool,
    awaitingInput: bool,
    newTurn: bool,
    verified: bool,
    clientRevision: Option<int>,
    headline: string,  // first line of the last message; empty when there is none
    pendingId: Option<string>,
    askKind: Option<AskKind>)

  datatype Entry = Entry(
    state: Option<AgentState>,
    agentId: Option<string>,
    sessionId: Option<string>,
    updatedAt: nat,
    awaitingInput: bool,
    stateVerified: bool,
    clientRevision: Option<int>,
    verifiedAt: Option<nat>,
    restored: bool,
    idleInferred: bool)

  const DONE_HOLDOFF_MS: nat := 3000

  function StateOf(e: Option<Entry>): Option<AgentState> {
    if e.Some? then e.value.state else None
  }

  /** Commit a state and all the evidence that must move with it. */
  function CommitState(e: Entry, ev: AgentEvent, s: Option<AgentState>, proof: bool, now: nat): Entry {
    e.(state := s, updatedAt := now, stateVerified := proof,
       verifiedAt := if proof then Some(now) else e.verifiedAt,
       clientRevision := ev.clientRevision,
       idleInferred := s == Some(Done) && ev.idle,
       restored := false)
  }

  function CaptureIdentity(prev: Option<Entry>, ev: AgentEvent, now: nat): Entry {
    var e := if prev.Some? then prev.value
             else Entry(None, None, None, now, false, false, None, None, false, false);
    e.(agentId := if ev.agentId != "" then Some(ev.agentId) else e.agentId,
       sessionId := if ev.sessionId.Some? && ev.sessionId != Some("") then ev.sessionId else e.sessionId)
  }

  /** A late `working` that may not resurrect a turn which has just finished. */
  predicate HeldOff(prev: Option<Entry>, ev: AgentEvent, now: nat) {
    && ev.state == Some(Working) && !ev.newTurn
    && StateOf(prev) == Some(Done) && now - prev.value.updatedAt < DONE_HOLDOFF_MS
  }

  function ReduceEntry(prev: Option<Entry>, ev: AgentEvent, now: nat): Entry {
    var next := CaptureIdentity(prev, ev, now);
    if ev.kind.StateEvent? && ev.state.Some? then
      if ev.idle && StateOf(prev) != Some(Working) then next
      else if !ev.awaitingInput && next.awaitingInput && ev.state == Some(Done) && !ev.interrupted then
        CommitState(next, ev, Some(Waiting), ev.verified, now)
      else
        var flagged := next.(awaitingInput := ev.awaitingInput);
        if HeldOff(prev, ev, now) then flagged else CommitState(flagged, ev, ev.state, ev.verified, now)
    else if ev.kind.SessionEvent? then
      CommitState(next, ev, None, false, now).(awaitingInput := false)
    else next
  }

  // ---- evidence follows the commit ----------------------------------------------------------

  /** Does this event assert a state? Everything but identity, an ignored idle rescue, and a held-off
      late `working` does. */
  predicate Commits(prev: Option<Entry>, ev: AgentEvent, now: nat) {
    || ev.kind.SessionEvent?
    || (&& ev.kind.StateEvent? && ev.state.Some?
        && (ev.idle ==> StateOf(prev) == Some(Working))
        && !(ev.state == Some(Working) && !ev.newTurn
             && prev.Some? && prev.value.state == Some(Done) && now < prev.value.updatedAt + 3000))
  }

  /** A committing event proves the state it commits only when it is verified and not a session
      boundary. */
  predicate Proves(ev: AgentEvent) { ev.kind.StateEvent? && ev.verified }

  datatype Stamped = Stamped(ev: AgentEvent, at: nat)

  function Run(start: Option<Entry>, evs: seq<Stamped>): Option<Entry> {
    if evs == [] then start
    else
      var last := evs[|evs| - 1];
      Some(ReduceEntry(Run(start, evs[..|evs| - 1]), last.ev, last.at))
  }

  predicate CommitsAt(start: Option<Entry>, evs: seq<Stamped>, k: nat)
    requires k < |evs|
  {
    Commits(Run(start, evs[..k]), evs[k].ev, evs[k].at)
  }

  /** No event from `k` on commits a state. */
  ghost predicate QuietFrom(start: Option<Entry>, evs: seq<Stamped>, k: nat)
    requires k <= |evs|
  {
    forall i :: k <= i < |evs| ==> !CommitsAt(start, evs, i)
  }

  lemma PrefixRuns(start: Option<Entry>, evs: seq<Stamped>, k: nat)
    requires 0 < |evs| && k < |evs| - 1
    ensures CommitsAt(start, evs, k) == CommitsAt(start, evs[..|evs| - 1], k)
  {
    assert evs[..|evs| - 1][..k] == evs[..k];
  }

  lemma QuietPrefix(start: Option<Entry>, evs: seq<Stamped>, k: nat)
    requires k < |evs| && QuietFrom(start, evs, k)
    ensures QuietFrom(start, evs[..|evs| - 1], k)
  {
    var front := evs[..|evs| - 1];
    forall i | k <= i < |front| ensures !CommitsAt(start, front, i) {
      PrefixRuns(start, evs, i);
      assert !CommitsAt(start, evs, i);
    }
  }

  /** While nothing commits, the state, its evidence and its age stand still. */
  lemma {:induction false} QuietKeepsEvidence(start: Option<Entry>, evs: seq<Stamped>, k: nat)
    requires k <= |evs| && QuietFrom(start, evs, k)
    ensures Run(start, evs[..k]).Some? ==>
              var a, b := Run(start, evs[..k]).value, Run(start, evs);
              && b.Some?
              && b.value.(awaitingInput := a.awaitingInput, agentId := a.agentId, sessionId := a.sessionId) == a
    ensures Run(start, evs[..k]).None? && Run(start, evs).Some? ==>
              var b := Run(start, evs).value;
              && b.state.None? && !b.stateVerified && b.clientRevision.None? && b.verifiedAt.None?
              && !b.restored && !b.idleInferred
    decreases |evs|
  {
    if k == |evs| {
      assert evs[..k] == evs;
    } else {
      var front := evs[..|evs| - 1];
      QuietPrefix(start, evs, k);
      assert front[..k] == evs[..k];
      QuietKeepsEvidence(start, front, k);
      assert !CommitsAt(start, evs, |evs| - 1);
    }
  }

  /** The evidence in the entry is that of the last event that committed a state, over every run:
      `k` is that event, and nothing after it commits. */
  lemma {:induction false} EvidenceFollowsCommit(start: Option<Entry>, evs: seq<Stamped>, k: nat)
    requires k < |evs| && CommitsAt(start, evs, k) && QuietFrom(start, evs, k + 1)
    ensures var e := Run(start, evs);
            && e.Some?
            && e.value.stateVerified == Proves(evs[k].ev)
            && e.value.clientRevision == evs[k].ev.clientRevision
            && e.value.idleInferred == (evs[k].ev.idle && e.value.state == Some(Done))
            && e.value.updatedAt == evs[k].at
            && !e.value.restored
            && (Proves(evs[k].ev) ==> e.value.verifiedAt == Some(evs[k].at))
  {
    QuietKeepsEvidence(start, evs, k + 1);
    assert evs[..k + 1][..k] == evs[..k];
  }

  /** The node's own uninterrupted end of turn while it waits for an answer. */
  predicate EndsAsked(prev: Option<Entry>, ev: AgentEvent) {
    && ev.kind.StateEvent? && ev.state == Some(Done) && !ev.interrupted && !ev.awaitingInput
    && prev.Some? && prev.value.awaitingInput
  }

  /** The state is that of the last event that committed one, over every run: none after a session
      event; waiting, exactly when the event ended the turn of a node that was awaiting an answer just
      before, without interrupting it or asking again; the event's own otherwise. */
  lemma StateFollowsCommit(start: Option<Entry>, evs: seq<Stamped>, k: nat)
    requires k < |evs| && CommitsAt(start, evs, k) && QuietFrom(start, evs, k + 1)
    ensures Run(start, evs).Some?
    ensures var ev, before := evs[k].ev, Run(start, evs[..k]);
            Run(start, evs).value.state
            == if ev.kind.SessionEvent? then None
               else if EndsAsked(before, ev) then Some(Waiting)
               else ev.state
  {
    QuietKeepsEvidence(start, evs, k + 1);
    assert evs[..k + 1][..k] == evs[..k];
  }

  /** The event speaks about the pending question: it carries a state, and is no idle notice that is
      ignored; or it is a session boundary. */
  predicate Touches(prev: Option<Entry>, ev: AgentEvent) {
    || ev.kind.SessionEvent?
    || (ev.kind.StateEvent? && ev.state.Some? && (ev.idle ==> StateOf(prev) == Some(Working)))
  }

  predicate TouchesAt(start: Option<Entry>, evs: seq<Stamped>, k: nat)
    requires k < |evs|
  {
    Touches(Run(start, evs[..k]), evs[k].ev)
  }

  /** The awaiting flag is set exactly when the last event that spoke about it was an ask, or the end of
      a turn held for one. A late `working` that is held off still drops it. */
  lemma {:induction false} FlagFollowsAsk(start: Option<Entry>, evs: seq<Stamped>, k: nat)
    requires k < |evs| && TouchesAt(start, evs, k)
    requires forall i :: k < i < |evs| ==> !TouchesAt(start, evs, i)
    ensures Run(start, evs).Some?
    ensures var ev, before := evs[k].ev, Run(start, evs[..k]);
            Run(start, evs).value.awaitingInput
            <==> (ev.kind.StateEvent? && ev.awaitingInput) || EndsAsked(before, ev)
    decreases |evs|
  {
    var n := |evs| - 1;
    if k < n {
      var front := evs[..n];
      assert front[..k] == evs[..k];
      forall i | k < i < n ensures !TouchesAt(start, front, i) {
        assert front[..i] == evs[..i];
        assert !TouchesAt(start, evs, i);
      }
      FlagFollowsAsk(start, front, k);
      assert !TouchesAt(start, evs, n);
    }
  }

  /** The last agent and the last session the events named, or those of the starting entry. */
  function LastAgent(start: Option<Entry>, evs: seq<Stamped>): Option<string> {
    if evs == [] then (if start.Some? then start.value.agentId else None)
    else
      var last := evs[|evs| - 1].ev;
      if last.agentId != "" then Some(last.agentId) else LastAgent(start, evs[..|evs| - 1])
  }

  function LastSession(start: Option<Entry>, evs: seq<Stamped>): Option<string> {
    if evs == [] then (if start.Some? then start.value.sessionId else None)
    else
      var last := evs[|evs| - 1].ev;
      if last.sessionId.Some? && last.sessionId.value != "" then last.sessionId
      else LastSession(start, evs[..|evs| - 1])
  }

  /** Every event names its agent and may name its session, whatever else it does. */
  lemma {:induction false} IdentityKept(start: Option<Entry>, evs: seq<Stamped>)
    ensures Run(start, evs).Some? ==>
              var e := Run(start, evs).value;
              e.agentId == LastAgent(start, evs) && e.sessionId == LastSession(start, evs)
    ensures Run(start, evs).None? ==> LastAgent(start, evs) == None == LastSession(start, evs)
  {
    if evs != [] {
      IdentityKept(start, evs[..|evs| - 1]);
      IdentityCaptured(Run(start, evs[..|evs| - 1]), evs[|evs| - 1].ev, evs[|evs| - 1].at);
    }
  }

  lemma IdentityCaptured(prev: Option<Entry>, ev: AgentEvent, now: nat)
    ensures var e := ReduceEntry(prev, ev, now);
            && e.agentId == (if ev.agentId != "" then Some(ev.agentId)
                             else if prev.Some? then prev.value.agentId else None)
            && e.sessionId == (if ev.sessionId.Some? && ev.sessionId.value != "" then ev.sessionId
                               else if prev.Some? then prev.value.sessionId else None)
  {
  }

  /** The time of the last commit that proved its state, or the starting entry's if none did. */
  function LastProofAt(start: Option<Entry>, evs: seq<Stamped>): Option<nat> {
    if evs == [] then (if start.Some? then start.value.verifiedAt else None)
    else
      var n := |evs| - 1;
      if CommitsAt(start, evs, n) && Proves(evs[n].ev) then Some(evs[n].at)
      else LastProofAt(start, evs[..n])
  }

  lemma CommitEffect(prev: Option<Entry>, ev: AgentEvent, now: nat)
    ensures var e := ReduceEntry(prev, ev, now);
            if Commits(prev, ev, now)
            then !e.restored
                 && e.verifiedAt == (if Proves(ev) then Some(now)
                                               else if prev.Some? then prev.value.verifiedAt else None)
            else e.restored == (prev.Some? && prev.value.restored)
                 && e.verifiedAt == (if prev.Some? then prev.value.verifiedAt else None)
  {
  }

  /** `verifiedAt` is the time of the last verified commit. */
  lemma {:induction false} LastProofKept(start: Option<Entry>, evs: seq<Stamped>)
    ensures LastProofAt(start, evs) == if Run(start, evs).Some? then Run(start, evs).value.verifiedAt else None
  {
    if evs != [] {
      var n := |evs| - 1;
      LastProofKept(start, evs[..n]);
      CommitEffect(Run(start, evs[..n]), evs[n].ev, evs[n].at);
    }
  }

  lemma QuietSnoc(start: Option<Entry>, evs: seq<Stamped>)
    requires evs != []
    ensures QuietFrom(start, evs, 0)
            <==> QuietFrom(start, evs[..|evs| - 1], 0) && !CommitsAt(start, evs, |evs| - 1)
  {
    var front := evs[..|evs| - 1];
    forall i | 0 <= i < |front| ensures CommitsAt(start, front, i) == CommitsAt(start, evs, i) {
      PrefixRuns(start, evs, i);
    }
    if QuietFrom(start, front, 0) && !CommitsAt(start, evs, |evs| - 1) {
      forall i | 0 <= i < |evs| ensures !CommitsAt(start, evs, i) {
        if i < |front| { assert !CommitsAt(start, front, i); }
      }
    }
    if QuietFrom(start, evs, 0) {
      forall i | 0 <= i < |front| ensures !CommitsAt(start, front, i) { assert !CommitsAt(start, evs, i); }
    }
  }

  /** A restored entry stays marked as restored exactly until its first commit. */
  lemma {:induction false} RestoredUntilCommit(start: Entry, evs: seq<Stamped>)
    requires start.restored
    ensures Run(Some(start), evs).Some?
            && (Run(Some(start), evs).value.restored <==> QuietFrom(Some(start), evs, 0))
  {
    if evs != [] {
      var n := |evs| - 1;
      RestoredUntilCommit(start, evs[..n]);
      QuietSnoc(Some(start), evs);
      CommitEffect(Run(Some(start), evs[..n]), evs[n].ev, evs[n].at);
    }
  }

  /** Nothing but a load marks an entry as restored. */
  lemma {:induction false} NeverRestoredByEvents(start: Option<Entry>, evs: seq<Stamped>)
    requires start.Some? ==> !start.value.restored
    ensures Run(start, evs).Some? ==> !Run(start, evs).value.restored
  {
    if evs != [] {
      var n := |evs| - 1;
      NeverRestoredByEvents(start, evs[..n]);
      CommitEffect(Run(start, evs[..n]), evs[n].ev, evs[n].at);
    }
  }

  /** An event that may arrive around a finished turn without meaning anything: identity, an idle
      notice, or a `working` that opens no turn and comes inside the window. */
  predicate Straggler(ev: AgentEvent, at: nat, doneAt: nat) {
    || ev.kind.Identity?
    || (ev.kind.StateEvent? && ev.state.None?)
    || (ev.kind.StateEvent? && ev.state == Some(Done) && ev.idle)
    || (ev.kind.StateEvent? && ev.state == Some(Working) && !ev.newTurn && at - doneAt < DONE_HOLDOFF_MS)
  }

  /** Stragglers neither move a finished turn nor stretch the window that holds them off. */
  lemma {:induction false} HoldOffHolds(start: Entry, evs: seq<Stamped>)
    requires start.state == Some(Done)
    requires forall i :: 0 <= i < |evs| ==> Straggler(evs[i].ev, evs[i].at, start.updatedAt)
    ensures QuietFrom(Some(start), evs, 0)
    ensures Run(Some(start), evs).Some?
            && Run(Some(start), evs).value.state == Some(Done)
            && Run(Some(start), evs).value.updatedAt == start.updatedAt
  {
    if evs != [] {
      var front := evs[..|evs| - 1];
      HoldOffHolds(start, front);
      forall i | 0 <= i < |evs| ensures !CommitsAt(Some(start), evs, i) {
        if i < |front| {
          PrefixRuns(Some(start), evs, i);
          assert !CommitsAt(Some(start), front, i);
        }
      }
    }
  }

  /** A `working` that opens no turn moves a finished turn exactly when the window is over. */
  lemma HoldOffBoundary(e: Entry, ev: AgentEvent, now: nat)
    requires e.state == Some(Done) && ev.kind.StateEvent? && ev.state == Some(Working) && !ev.newTurn
    ensures ReduceEntry(Some(e), ev, now).state == Some(Working)
            <==> !ev.idle && now - e.updatedAt >= DONE_HOLDOFF_MS
    ensures ReduceEntry(Some(e), ev, now).state == Some(Done)
            <==> ev.idle || now - e.updatedAt < DONE_HOLDOFF_MS
  {
  }

  // ---- a pending question is held -----------------------------------------------------------

  /** The entry's flag agrees with its state. */
  predicate AskIsWaiting(e: Entry) { e.awaitingInput ==> e.state == Some(Waiting) }

  /** The event marks a pending question but reports some state other than waiting. */
  predicate AskArrivesOtherwise(prev: Option<Entry>, ev: AgentEvent) {
    && ev.kind.StateEvent? && ev.state.Some? && ev.awaitingInput && ev.state != Some(Waiting)
    && (ev.idle ==> StateOf(prev) == Some(Working))
  }

  /** The reducer keeps the flag and the state in step exactly when the ask did arrive as waiting. */
  lemma AskFlagKept(prev: Option<Entry>, ev: AgentEvent, now: nat)
    requires prev.Some? ==> AskIsWaiting(prev.value)
    ensures AskIsWaiting(ReduceEntry(prev, ev, now)) <==> !AskArrivesOtherwise(prev, ev)
  {
  }

  /** The turn's own uninterrupted end, an idle notice, or an event that carries no state. */
  predicate LeavesAskAlone(ev: AgentEvent) {
    || ev.kind.Identity?
    || (ev.kind.StateEvent? && ev.state.None?)
    || (ev.kind.StateEvent? && ev.state == Some(Done) && (ev.idle || (!ev.interrupted && !ev.awaitingInput)))
  }

  /** A pending question survives every run of such events. */
  lemma {:induction false} PendingQuestionHeld(start: Entry, evs: seq<Stamped>)
    requires start.awaitingInput && start.state == Some(Waiting)
    requires forall i :: 0 <= i < |evs| ==> LeavesAskAlone(evs[i].ev)
    ensures Run(Some(start), evs).Some?
            && Run(Some(start), evs).value.awaitingInput
            && Run(Some(start), evs).value.state == Some(Waiting)
  {
    if evs != [] { PendingQuestionHeld(start, evs[..|evs| - 1]); }
  }
}
