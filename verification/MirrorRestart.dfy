/** Persisting the mirror and reloading it in a new process: what a restart keeps quiet, what it
    forgets, and why event ids never repeat across it. */
module MirrorRestart {

  import opened Wrappers
  import opened Text
  import opened InboxFeed
  import opened StatusReducer
  import opened StatusMirror
  import opened StatusInvariants
  import opened HeldQuestion

  const EXPIRE_MS: nat := 21_600_000

  datatype SavedNode = SavedNode(
    state: Option<AgentState>, agentId: Option<string>, sessionId: Option<string>, updatedAt: nat)

  datatype MirrorFile = MirrorFile(nodes: map<string, SavedNode>, events: seq<InboxEvent>)

  /** Feed events past the expiry are dropped before the document is built. */
  function AgeOut(h: seq<InboxEvent>, now: nat): seq<InboxEvent> {
    if h == [] then [] else (if now - h[0].ts <= EXPIRE_MS then [h[0]] else []) + AgeOut(h[1..], now)
  }

  /** The file keeps an allowlist of each unexpired entry: no evidence, and no pending question. */
  function BuildFile(m: Mirror, now: nat): MirrorFile {
    MirrorFile(
      map n | n in m.nodes && now - m.nodes[n].updatedAt <= EXPIRE_MS ::
        SavedNode(m.nodes[n].state, m.nodes[n].agentId, m.nodes[n].sessionId, m.nodes[n].updatedAt),
      AgeOut(m.feed, now))
  }

  function RestoreEntry(e: SavedNode): Entry {
    Entry(e.state, e.agentId, e.sessionId, e.updatedAt, false, false, None, None, true, false)
  }

  /** The largest number that ends an id in the feed. */
  function MaxSeq(h: seq<InboxEvent>): (k: nat)
    ensures IdsUpTo(h, k)
    ensures k > 0 ==> exists i :: 0 <= i < |h| && TrailingNumber(h[i].id) == Some(k)
  {
    if h == [] then 0
    else
      var front := MaxSeq(h[..|h| - 1]);
      assert forall i :: 0 <= i < |h| - 1 ==> h[..|h| - 1][i] == h[i];
      match TrailingNumber(h[|h| - 1].id)
      case Some(n) => if n > front then n else front
      case None => front
  }

  /** A fresh process's mirror after reading the file. */
  function Load(doc: MirrorFile, now: nat): Mirror {
    var feed := TrimById(doc.events, INBOX_EVENTS_CAP);
    EMPTY.(
      nodes := map n | n in doc.nodes && now - doc.nodes[n].updatedAt <= EXPIRE_MS :: RestoreEntry(doc.nodes[n]),
      feed := feed,
      history := feed,
      seqNo := MaxSeq(feed))
  }

  // ---- the newest ask survives --------------------------------------------------------------

  lemma {:induction false} NewestUnresolvedCons(x: InboxEvent, t: seq<InboxEvent>, n: string)
    ensures NewestUnresolved([x] + t, n)
            == if NewestUnresolved(t, n).Some? then NewestUnresolved(t, n)
               else if x.nodeId == n && IsOpenAsk(x) then Some(x) else None
  {
    var h := [x] + t;
    if t == [] {
      assert h == [x] && h[..0] == [];
    } else {
      assert h[..|h| - 1] == [x] + t[..|t| - 1];
      NewestUnresolvedCons(x, t[..|t| - 1], n);
    }
  }

  lemma {:induction false} NewestUnresolvedTrimmed(h: seq<InboxEvent>, n: string, cap: nat)
    ensures NewestUnresolved(Trimmed(h, cap), n) == NewestUnresolved(h, n)
  {
    if |h| > cap {
      var t := Trimmed(h[1..], cap);
      NewestUnresolvedTrimmed(h[1..], n, cap);
      assert h == [h[0]] + h[1..];
      NewestUnresolvedCons(h[0], h[1..], n);
      if Protected(h[0], h[1..]) {
        assert Trimmed(h, cap) == [h[0]] + t;
        NewestUnresolvedCons(h[0], t, n);
      } else {
        assert Trimmed(h, cap) == t by { assert [] + t == t; }
        NewestUnresolvedFound(h[1..], n);
        OpenAsksNodes(h[1..], n);
      }
    }
  }

  lemma {:induction false} NewestUnresolvedAged(h: seq<InboxEvent>, n: string, now: nat)
    requires NewestUnresolved(h, n).Some? && now - NewestUnresolved(h, n).value.ts <= EXPIRE_MS
    ensures NewestUnresolved(AgeOut(h, now), n) == NewestUnresolved(h, n)
  {
    assert h == [h[0]] + h[1..];
    NewestUnresolvedCons(h[0], h[1..], n);
    NewestUnresolvedCons(h[0], AgeOut(h[1..], now), n);
    assert [] + AgeOut(h[1..], now) == AgeOut(h[1..], now);
    if NewestUnresolved(h[1..], n).Some? {
      NewestUnresolvedAged(h[1..], n, now);
    } else {
      NoAskAged(h[1..], n, now);
    }
  }

  lemma {:induction false} NoAskAged(h: seq<InboxEvent>, n: string, now: nat)
    requires NewestUnresolved(h, n).None?
    ensures NewestUnresolved(AgeOut(h, now), n).None?
  {
    if h != [] {
      assert h == [h[0]] + h[1..];
      NewestUnresolvedCons(h[0], h[1..], n);
      NoAskAged(h[1..], n, now);
      NewestUnresolvedCons(h[0], AgeOut(h[1..], now), n);
      assert [] + AgeOut(h[1..], now) == AgeOut(h[1..], now);
    }
  }

  /** Ageing takes out exactly the events older than six hours, and keeps the order of the others. */
  lemma {:induction false} AgedExactly(a: seq<InboxEvent>, b: seq<InboxEvent>, e: InboxEvent, now: nat)
    ensures AgeOut(a + b, now) == AgeOut(a, now) + AgeOut(b, now)
    ensures AgeOut([e], now) == if now - e.ts > 21_600_000 then [] else [e]
  {
    assert [e][1..] == [] && AgeOut([], now) == [];
    if a == [] {
      assert a + b == b && [] + AgeOut(b, now) == AgeOut(b, now);
    } else {
      assert (a + b)[1..] == a[1..] + b;
      AgedExactly(a[1..], b, e, now);
    }
  }

  lemma {:induction false} AgeOutSubset(h: seq<InboxEvent>, now: nat)
    ensures forall x :: x in AgeOut(h, now) ==> x in h
    ensures DistinctIds(h) ==> DistinctIds(AgeOut(h, now))
  {
    if h != [] {
      var t := AgeOut(h[1..], now);
      AgeOutSubset(h[1..], now);
      if DistinctIds(h) {
        forall i, j | 0 <= i < j < |h[1..]| ensures h[1..][i].id != h[1..][j].id {
          assert h[i + 1].id != h[j + 1].id;
        }
        assert DistinctIds(t);
        forall j | 0 <= j < |t| ensures t[j].id != h[0].id {
          assert t[j] in h[1..];
          var k :| 0 <= k < |h[1..]| && h[1..][k] == t[j];
          assert h[k + 1] == t[j];
        }
      }
    }
  }

  // ---- what a restart keeps quiet -----------------------------------------------------------

  /** The reloaded entry is the persisted one stripped of its evidence, when it has not expired. */
  lemma ReloadedEntry(m: Mirror, saved: nat, loaded: nat, n: string)
    requires n in m.nodes && saved <= loaded && loaded - m.nodes[n].updatedAt <= EXPIRE_MS
    ensures var m' := Load(BuildFile(m, saved), loaded);
            && n in m'.nodes && m'.nodes[n].restored && !m'.nodes[n].stateVerified
            && m'.nodes[n].state == m.nodes[n].state && m'.nodes[n].updatedAt == m.nodes[n].updatedAt
            && !m'.nodes[n].awaitingInput && !m'.nodes[n].idleInferred
            && m'.nodes[n].clientRevision == None == m'.nodes[n].verifiedAt
            && m'.nodes[n].agentId == m.nodes[n].agentId && m'.nodes[n].sessionId == m.nodes[n].sessionId
  {
  }

  /** A done emitted again for a node reloaded as done pushes nothing and fires nothing. */
  lemma RepeatedDoneIsSilent(m: Mirror, saved: nat, loaded: nat, ev: AgentEvent, now: nat)
    requires ev.nodeId != "" && ev.nodeId in m.nodes && m.nodes[ev.nodeId].state == Some(Done)
    requires saved <= loaded && loaded - m.nodes[ev.nodeId].updatedAt <= EXPIRE_MS
    requires ev.kind.StateEvent? && ev.state == Some(Done)
    ensures var m' := Load(BuildFile(m, saved), loaded);
            var m'' := RecordAgentEvent(m', ev, now);
            m'.edges == [] && m''.edges == m'.edges && m''.feed == m'.feed && m''.history == m'.history
  {
    ReloadedEntry(m, saved, loaded, ev.nodeId);
  }

  lemma ReloadedAsk(m: Mirror, saved: nat, loaded: nat, n: string)
    requires FeedValid(m)
    requires NewestUnresolved(m.feed, n).Some? && saved - NewestUnresolved(m.feed, n).value.ts <= EXPIRE_MS
    ensures NewestUnresolved(Load(BuildFile(m, saved), loaded).feed, n) == NewestUnresolved(m.feed, n)
  {
    CoveredIds(m.feed, m.history, INBOX_EVENTS_CAP);
    AgeOutSubset(m.feed, saved);
    TrimByIdIsTrim(AgeOut(m.feed, saved), INBOX_EVENTS_CAP);
    NewestUnresolvedAged(m.feed, n, saved);
    NewestUnresolvedTrimmed(AgeOut(m.feed, saved), n, INBOX_EVENTS_CAP);
  }

  lemma {:induction false} CoversItself(h: seq<InboxEvent>, cap: nat)
    ensures Covers(h, h, cap)
  {
    if |h| > cap { CoversItself(h[1..], cap); }
  }

  /** A reload of a sound feed is sound: ids stay distinct and the counter is past all of them. */
  lemma ReloadKeepsFeed(m: Mirror, saved: nat, loaded: nat)
    requires FeedValid(m)
    ensures FeedValid(Load(BuildFile(m, saved), loaded))
    ensures Load(BuildFile(m, saved), loaded).feed == Trimmed(AgeOut(m.feed, saved), INBOX_EVENTS_CAP)
  {
    var aged := AgeOut(m.feed, saved);
    CoveredIds(m.feed, m.history, INBOX_EVENTS_CAP);
    AgeOutSubset(m.feed, saved);
    TrimByIdIsTrim(aged, INBOX_EVENTS_CAP);
    TrimCovers(aged, INBOX_EVENTS_CAP);
    CoveredIds(Trimmed(aged, INBOX_EVENTS_CAP), aged, INBOX_EVENTS_CAP);
    CoversItself(Trimmed(aged, INBOX_EVENTS_CAP), INBOX_EVENTS_CAP);
  }

  lemma {:induction false} AgeOutAsks(h: seq<InboxEvent>, n: string, now: nat)
    ensures OpenAsks(AgeOut(h, now), n) <= OpenAsks(h, n)
  {
    if h != [] {
      AgeOutAsks(h[1..], n, now);
      var t := AgeOut(h[1..], now);
      assert ([h[0]] + t)[1..] == t && [] + t == t;
    }
  }

  /** How many asks of a node the reloaded feed holds: its ask, if that was young enough to save. */
  lemma ReloadedAsks(m: Mirror, saved: nat, loaded: nat, n: string)
    requires FeedValid(m) && OpenAsks(m.feed, n) <= 1
    ensures OpenAsks(Load(BuildFile(m, saved), loaded).feed, n) == if AskSaved(m, saved, n) then 1 else 0
  {
    var aged := AgeOut(m.feed, saved);
    ReloadKeepsFeed(m, saved, loaded);
    AgeOutAsks(m.feed, n, saved);
    OpenAsksTrim(aged, n, INBOX_EVENTS_CAP);
    NewestUnresolvedFound(aged, n);
    NewestUnresolvedFound(m.feed, n);
    if AskSaved(m, saved, n) {
      NewestUnresolvedAged(m.feed, n, saved);
    } else if NewestUnresolved(m.feed, n).None? {
      NoAskAged(m.feed, n, saved);
    } else {
      OldAskAged(m.feed, n, saved);
    }
  }

  predicate AskSaved(m: Mirror, saved: nat, n: string) {
    NewestUnresolved(m.feed, n).Some? && saved - NewestUnresolved(m.feed, n).value.ts <= EXPIRE_MS
  }

  predicate EntryReloaded(m: Mirror, saved: nat, loaded: nat, n: string) {
    && n in m.nodes
    && saved - m.nodes[n].updatedAt <= EXPIRE_MS && loaded - m.nodes[n].updatedAt <= EXPIRE_MS
  }

  lemma {:induction false} OldAskAged(h: seq<InboxEvent>, n: string, now: nat)
    requires OpenAsks(h, n) <= 1
    requires NewestUnresolved(h, n).Some? && now - NewestUnresolved(h, n).value.ts > EXPIRE_MS
    ensures NewestUnresolved(AgeOut(h, now), n).None?
  {
    assert h == [h[0]] + h[1..];
    NewestUnresolvedCons(h[0], h[1..], n);
    NewestUnresolvedFound(h[1..], n);
    NewestUnresolvedCons(h[0], AgeOut(h[1..], now), n);
    assert [] + AgeOut(h[1..], now) == AgeOut(h[1..], now);
    if NewestUnresolved(h[1..], n).Some? {
      OldAskAged(h[1..], n, now);
    } else {
      NoAskAged(h[1..], n, now);
    }
  }

  /** After a restart the feed holds exactly one ask for a node that needs the user and none for any
      other, exactly for the nodes whose ask and whose entry both survived or were both too old: an
      ask can expire before the entry that still waits for it, and an entry before its ask. */
  lemma ReloadedFeedAgrees(ops: seq<Op>, saved: nat, loaded: nat, n: string)
    ensures var m := RunOps(EMPTY, ops);
            var m' := Load(BuildFile(m, saved), loaded);
            OpenAsks(m'.feed, n) == (if NeedsYou(NodeState(m', n)) then 1 else 0)
            <==> (NeedsYou(NodeState(m, n)) ==> (AskSaved(m, saved, n) <==> EntryReloaded(m, saved, loaded, n)))
  {
    RunAgrees(ops);
    FeedMatchesState(ops, n);
    ReloadedNodeAgrees(RunOps(EMPTY, ops), saved, loaded, n);
  }

  lemma ReloadedNodeAgrees(m: Mirror, saved: nat, loaded: nat, n: string)
    requires FeedValid(m) && OpenAsks(m.feed, n) == (if NeedsYou(NodeState(m, n)) then 1 else 0)
    ensures var m' := Load(BuildFile(m, saved), loaded);
            OpenAsks(m'.feed, n) == (if NeedsYou(NodeState(m', n)) then 1 else 0)
            <==> (NeedsYou(NodeState(m, n)) ==> (AskSaved(m, saved, n) <==> EntryReloaded(m, saved, loaded, n)))
  {
    ReloadedAsks(m, saved, loaded, n);
    ReloadedState(m, saved, loaded, n);
    NewestUnresolvedFound(m.feed, n);
  }

  lemma ReloadedState(m: Mirror, saved: nat, loaded: nat, n: string)
    ensures NodeState(Load(BuildFile(m, saved), loaded), n)
         == if EntryReloaded(m, saved, loaded, n) then NodeState(m, n) else None
  {
  }

  /** It happens: a question saved at once and loaded after six hours is still open in the feed, and
      the node that asked it has no state. */
  lemma AskOutlivesEntry(n: string)
    requires n != ""
    ensures var m := RunOps(EMPTY, [Record(Plain(n, StateEvent, Some(Waiting), None), 0)]);
            var m' := Load(BuildFile(m, 0), EXPIRE_MS + 1);
            NodeState(m', n) == None && OpenAsks(m'.feed, n) == 1
  {
    var ask := Record(Plain(n, StateEvent, Some(Waiting), None), 0);
    var m := RunOps(EMPTY, [ask]);
    AskedOnce(n);
    FeedMatchesState([ask], n);
    RunAgrees([ask]);
    NewestUnresolvedFound(m.feed, n);
    ReloadedAsks(m, 0, EXPIRE_MS + 1, n);
    ReloadedState(m, 0, EXPIRE_MS + 1, n);
  }

  lemma AskedOnce(n: string)
    requires n != ""
    ensures var m := RunOps(EMPTY, [Record(Plain(n, StateEvent, Some(Waiting), None), 0)]);
            n in m.nodes && m.nodes[n].state == Some(Waiting) && m.nodes[n].updatedAt == 0
  {
    var ev := Plain(n, StateEvent, Some(Waiting), None);
    OneOp(EMPTY, Record(ev, 0));
    RecordedNodes(EMPTY, ev, 0);
  }

  lemma OneOp(m: Mirror, op: Op)
    ensures RunOps(m, [op]) == Apply(m, op)
  {
    assert [op][..0] == [] && RunOps(m, []) == m;
  }

  /** An ask asserted again for a node reloaded in the same state, with the same title and inside the
      window, pushes nothing and fires nothing. */
  lemma RepeatedAskIsSilent(m: Mirror, saved: nat, loaded: nat, ev: AgentEvent, now: nat)
    requires FeedValid(m)
    requires ev.nodeId != "" && ev.nodeId in m.nodes && NeedsYou(m.nodes[ev.nodeId].state)
    requires saved <= loaded <= now && loaded - m.nodes[ev.nodeId].updatedAt <= EXPIRE_MS
    requires ev.kind.StateEvent? && ev.state == m.nodes[ev.nodeId].state
    requires NewestUnresolved(m.feed, ev.nodeId).Some?
    requires now - NewestUnresolved(m.feed, ev.nodeId).value.ts < QUESTION_DEDUP_WINDOW_MS
    requires AskOf(Load(BuildFile(m, saved), loaded), ev, ev.state, now).title
             == NewestUnresolved(m.feed, ev.nodeId).value.title
    ensures var m' := Load(BuildFile(m, saved), loaded);
            var m'' := RecordAgentEvent(m', ev, now);
            m'.edges == [] && m''.edges == m'.edges && m''.feed == m'.feed && m''.history == m'.history
  {
    ReloadedEntry(m, saved, loaded, ev.nodeId);
    ReloadedAsk(m, saved, loaded, ev.nodeId);
    var m' := Load(BuildFile(m, saved), loaded);
    var next := ReduceEntry(Lookup(m', ev.nodeId), ev, now);
    assert next.state == ev.state;
    var m1 := m'.(nodes := m'.nodes[ev.nodeId := next]);
    assert Rewritten(ev, next) == ev;
    assert StartEdge(SettleBefore(m1, ev, ev.state, ev.state), ev, ev.state, ev.state, now) == m1;
    assert AskOf(m1, ev, ev.state, now) == AskOf(m', ev, ev.state, now);
    assert Reasserted(m1, ev.nodeId, AskOf(m', ev, ev.state, now).title, now);
    assert RaiseAsk(m1, ev, ev.state, ev.state, now) == m1;
  }

  /** The hold on a pending question is not persisted: the turn's own end, which leaves the running
      mirror waiting, takes the reloaded node to done. */
  lemma RestartForgetsHold(m: Mirror, saved: nat, loaded: nat, ev: AgentEvent, now: nat)
    requires ev.nodeId != "" && Asking(m, ev.nodeId)
    requires saved <= loaded && loaded - m.nodes[ev.nodeId].updatedAt <= EXPIRE_MS
    requires ev.kind.StateEvent? && ev.state == Some(Done) && !ev.interrupted && !ev.idle && !ev.awaitingInput
    ensures NodeState(RecordAgentEvent(m, ev, now), ev.nodeId) == Some(Waiting)
    ensures NodeState(RecordAgentEvent(Load(BuildFile(m, saved), loaded), ev, now), ev.nodeId) == Some(Done)
  {
    var m' := Load(BuildFile(m, saved), loaded);
    ReloadedEntry(m, saved, loaded, ev.nodeId);
    RecordedNodes(m, ev, now);
    RecordedNodes(m', ev, now);
  }

  // ---- ids across a restart -----------------------------------------------------------------

  /** `m'` continues `m`: the old events keep their ids, and every newer id carries a number beyond
      the counter `m` had reached. */
  ghost predicate Continues(m: Mirror, m': Mirror) {
    && m.seqNo <= m'.seqNo
    && |m.history| <= |m'.history|
    && (forall i :: 0 <= i < |m.history| ==> m'.history[i].id == m.history[i].id)
    && (forall i :: |m.history| <= i < |m'.history| ==>
          var k := TrailingNumber(m'.history[i].id);
          k.Some? && m.seqNo < k.value <= m'.seqNo)
  }

  lemma ContinuesTransitive(a: Mirror, b: Mirror, c: Mirror)
    requires Continues(a, b) && Continues(b, c)
    ensures Continues(a, c)
  {
    forall i | |a.history| <= i < |c.history|
      ensures var k := TrailingNumber(c.history[i].id); k.Some? && a.seqNo < k.value <= c.seqNo
    {
      if i < |b.history| { assert c.history[i].id == b.history[i].id; }
    }
  }

  lemma PushContinues(m: Mirror, e: InboxEvent)
    ensures Continues(m, PushInboxEvent(m, e))
  {
    TrailingNumberOf(Decimal(e.ts), m.seqNo + 1);
  }

  lemma ResolveContinues(m: Mirror, n: string)
    ensures Continues(m, ResolveUnresolvedFor(m, n))
    ensures Continues(m, m.(feed := AckDones(m.feed, n), history := AckDones(m.history, n)))
  {
    ResolveKeepsIds(m.history, n);
  }

  lemma ProduceContinues(m: Mirror, ev: AgentEvent, p: Option<AgentState>, s: Option<AgentState>, now: nat)
    ensures Continues(m, Produce(m, ev, p, s, now))
  {
    ResolveContinues(m, ev.nodeId);
    var m1 := StartEdge(SettleBefore(m, ev, p, s), ev, p, s, now);
    assert Continues(m, m1);
    if NeedsYou(s) {
      RaiseContinues(m1, ev, p, s, now);
      ContinuesTransitive(m, m1, RaiseAsk(m1, ev, p, s, now));
    } else if s == Some(Done) && p != Some(Done) {
      FinishContinues(m1, ev, now);
      ContinuesTransitive(m, m1, FinishTurn(m1, ev, now));
    }
  }

  lemma RaiseContinues(m: Mirror, ev: AgentEvent, p: Option<AgentState>, s: Option<AgentState>, now: nat)
    ensures Continues(m, RaiseAsk(m, ev, p, s, now))
  {
    var n, ask := ev.nodeId, AskOf(m, ev, s, now);
    var m1 := Fire(SweepStash(m, n, now), AskEdge(n, ask, now));
    ResolveContinues(m1, n);
    PushContinues(ResolveUnresolvedFor(m1, n), AskCard(n, ask, now));
    ContinuesTransitive(m1, ResolveUnresolvedFor(m1, n),
                        PushInboxEvent(ResolveUnresolvedFor(m1, n), AskCard(n, ask, now)));
  }

  lemma FinishContinues(m: Mirror, ev: AgentEvent, now: nat)
    ensures Continues(m, FinishTurn(m, ev, now))
  {
    var m1 := Fire(m, Edge(ev.nodeId, End, None, [], None, ev.interrupted, false, false, now));
    PushContinues(m1, InboxEvent("", now, ev.nodeId, Finished, if ev.interrupted then "Stopped" else "Finished",
                                 false, ev.interrupted, [], None));
  }

  lemma {:induction false} SweepContinues(m: Mirror, order: seq<string>, now: nat, staleMs: nat)
    ensures Sweep(m, order, now, staleMs).history == m.history
    ensures Sweep(m, order, now, staleMs).seqNo == m.seqNo
  {
    if order != [] { SweepContinues(m, order[..|order| - 1], now, staleMs); }
  }

  lemma StepContinues(m: Mirror, op: Op)
    ensures Continues(m, Apply(m, op))
  {
    match op {
      case Record(ev, now) =>
        var prev := Lookup(m, ev.nodeId);
        var next := ReduceEntry(prev, ev, now);
        ProduceContinues(m.(nodes := m.nodes[ev.nodeId := next]), Rewritten(ev, next), StateOf(prev), next.state, now);
      case Clear(n, now) => ResolveContinues(m, n);
      case Acknowledge(n, now) => ResolveContinues(m, n);
      case SweepAll(order, now, staleMs) => SweepContinues(m, order, now, staleMs);
      case _ =>
    }
  }

  lemma {:induction false} RunContinues(m: Mirror, ops: seq<Op>)
    ensures Continues(m, RunOps(m, ops))
  {
    if ops != [] {
      RunContinues(m, ops[..|ops| - 1]);
      StepContinues(RunOps(m, ops[..|ops| - 1]), ops[|ops| - 1]);
      ContinuesTransitive(m, RunOps(m, ops[..|ops| - 1]), RunOps(m, ops));
    }
  }

  /** The largest counter: adding one to this double gives it back. */
  const MAX_COUNTER: nat := 0x20_0000_0000_0000

  /** While the counter loaded from the file and the pushes since do not take it past its limit, every
      event pushed by any later run has an id different from every restored id, and the restored
      events keep theirs. */
  lemma LaterIdsAreNew(doc: MirrorFile, loaded: nat, ops: seq<Op>, i: nat, j: nat)
    requires RunOps(Load(doc, loaded), ops).seqNo <= MAX_COUNTER
    requires i < |Load(doc, loaded).history| <= j < |RunOps(Load(doc, loaded), ops).history|
    ensures var h := RunOps(Load(doc, loaded), ops).history;
            h[i].id == Load(doc, loaded).feed[i].id && h[j].id != Load(doc, loaded).feed[i].id
  {
    RunContinues(Load(doc, loaded), ops);
  }
}
