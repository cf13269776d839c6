/** The mirror with its state in mutable fields, as the module-level maps and arrays of the source.
    Each method is proved to take the same step as the value-level operation of `StatusMirror`. */
module MirrorService {

  import opened Wrappers
  import opened InboxFeed
  import opened StatusReducer
  import opened StatusMirror
  import MirrorRestart

  lemma {:induction false} SettleAt(h: seq<InboxEvent>, i: nat, n: string)
    requires i < |h|
    ensures ResolveAsks(h, n)[i] == if h[i].nodeId == n && IsOpenAsk(h[i]) then h[i].(resolved := true) else h[i]
    ensures AckDones(h, n)[i] == if h[i].nodeId == n && h[i].kind.Finished? then h[i].(resolved := true) else h[i]
  {
    if i > 0 { SettleAt(h[1..], i - 1, n); }
  }

  lemma UnreadSnoc(h: seq<InboxEvent>, i: nat, n: string)
    requires i < |h|
    ensures HasUnreadDone(h[..i + 1], n)
        <==> HasUnreadDone(h[..i], n) || (h[i].nodeId == n && h[i].kind.Finished? && !h[i].resolved)
  {
    assert h[..i + 1] == h[..i] + [h[i]];
  }

  class AgentStatusMirror {
    var nodes: map<string, Entry>
    var pendingQuestions: map<string, Stash>
    var inboxEvents: seq<InboxEvent>
    var inboxSeq: nat
    ghost var history: seq<InboxEvent>
    ghost var edges: seq<Edge>
    ghost var broadcasts: seq<AgentEvent>

    /** The abstract mirror these fields hold. */
    ghost function View(): Mirror
      reads this
    {
      Mirror(nodes, pendingQuestions, inboxEvents, inboxSeq, history, edges, broadcasts)
    }

    constructor ()
      ensures View() == EMPTY
    {
      nodes, pendingQuestions, inboxEvents, inboxSeq := map[], map[], [], 0;
      history, edges, broadcasts := [], [], [];
    }

    // ---- primitives -------------------------------------------------------------------------

    /** Send an edge to the listeners; the model keeps the edges sent. */
    method FireNodeStateChange(e: Edge)
      modifies this
      ensures View() == Fire(old(View()), e)
    {
      edges := edges + [e];
    }

    method PushInboxEvent(e: InboxEvent)
      modifies this
      ensures View() == StatusMirror.PushInboxEvent(old(View()), e)
    {
      inboxSeq := inboxSeq + 1;
      var full := e.(id := EventId(e.ts, inboxSeq));
      inboxEvents := inboxEvents + [full];
      history := history + [full];
      inboxEvents := TrimInboxFeed(inboxEvents, INBOX_EVENTS_CAP);
    }

    /** Mark a node's unresolved asks resolved, one event after another. */
    method ResolveUnresolvedFor(n: string)
      modifies this
      ensures View() == StatusMirror.ResolveUnresolvedFor(old(View()), n)
    {
      ghost var settled := ResolveAsks(inboxEvents, n);
      var i := 0;
      while i < |inboxEvents|
        invariant i <= |inboxEvents| == |settled| == |old(inboxEvents)|
        invariant forall k :: 0 <= k < i ==> inboxEvents[k] == settled[k]
        invariant forall k :: i <= k < |inboxEvents| ==> inboxEvents[k] == old(inboxEvents)[k]
        invariant View() == old(View()).(feed := inboxEvents)
      {
        var e := inboxEvents[i];
        SettleAt(old(inboxEvents), i, n);
        if e.nodeId == n && !e.resolved && (e.kind.Approval? || e.kind.Question?) {
          inboxEvents := inboxEvents[i := e.(resolved := true)];
        }
        i := i + 1;
      }
      assert inboxEvents == settled;
      history := ResolveAsks(history, n);
    }

    /** The newest unresolved ask of a node, found from the end of the feed. */
    method FindNewestUnresolved(n: string) returns (found: Option<InboxEvent>)
      ensures found == NewestUnresolved(inboxEvents, n)
    {
      var i := |inboxEvents|;
      assert inboxEvents[..i] == inboxEvents;
      while i > 0
        invariant i <= |inboxEvents|
        invariant NewestUnresolved(inboxEvents[..i], n) == NewestUnresolved(inboxEvents, n)
      {
        assert inboxEvents[..i][..i - 1] == inboxEvents[..i - 1];
        i := i - 1;
        var e := inboxEvents[i];
        if e.nodeId == n && !e.resolved && (e.kind.Approval? || e.kind.Question?) {
          return Some(e);
        }
      }
      found := None;
    }

    /** The node's stash if it is fresh; a stale one is dropped. */
    method FreshStash(n: string, now: nat) returns (stash: Option<Stash>)
      modifies this
      ensures View() == SweepStash(old(View()), n, now)
      ensures stash == if StashFresh(old(View()), n, now) then Some(old(pendingQuestions)[n]) else None
    {
      if n !in pendingQuestions {
        stash := None;
      } else if now - pendingQuestions[n].at > STASH_MAX_AGE_MS {
        pendingQuestions := pendingQuestions - {n};
        stash := None;
      } else {
        stash := Some(pendingQuestions[n]);
      }
    }

    // ---- inbox production -------------------------------------------------------------------

    method SettleBefore(ev: AgentEvent, prevState: Option<AgentState>, nextState: Option<AgentState>)
      modifies this
      ensures View() == StatusMirror.SettleBefore(old(View()), ev, prevState, nextState)
    {
      if ev.kind.SessionEvent? || (ev.kind.StateEvent? && ev.state == Some(Working) && ev.newTurn) {
        pendingQuestions := pendingQuestions - {ev.nodeId};
      }
      if (prevState == Some(Blocked) || prevState == Some(Waiting)) && nextState != prevState {
        ResolveUnresolvedFor(ev.nodeId);
        pendingQuestions := pendingQuestions - {ev.nodeId};
      }
    }

    /** What the node is asking, from its stash and its headline. */
    method ChooseAsk(ev: AgentEvent, nextState: Option<AgentState>, now: nat) returns (ask: Ask)
      modifies this
      ensures View() == SweepStash(old(View()), ev.nodeId, now)
      ensures ask == AskOf(old(View()), ev, nextState, now)
    {
      var stash := FreshStash(ev.nodeId, now);
      var options := if stash.Some? then stash.value.options else [];
      var kind := if options != [] || nextState == Some(Waiting) then Question else Approval;
      var own := if stash.None? then ""
                 else if options != [] then stash.value.question
                 else if kind == Approval then stash.value.approvalTitle else "";
      var title := if own != "" then own
                   else if ev.headline != "" then ev.headline
                   else if kind == Approval then "Needs approval" else "Waiting for input";
      ask := Ask(kind, title, options, if kind == Approval then ev.pendingId else None);
    }

    /** Announce an ask; `ask` is what the edge, the card and the broadcast all carry. */
    method RaiseAsk(ev: AgentEvent, prevState: Option<AgentState>, nextState: Option<AgentState>, now: nat)
      returns (ask: Ask)
      modifies this
      ensures View() == StatusMirror.RaiseAsk(old(View()), ev, prevState, nextState, now)
      ensures ask == AskOf(old(View()), ev, nextState, now)
    {
      ask := ChooseAsk(ev, nextState, now);
      var dup := FindNewestUnresolved(ev.nodeId);
      var freshDup := dup.Some? && dup.value.title == ask.title && now - dup.value.ts < QUESTION_DEDUP_WINDOW_MS;
      if prevState != nextState || !freshDup {
        FireNodeStateChange(AskEdge(ev.nodeId, ask, now));
      }
      if !freshDup {
        ResolveUnresolvedFor(ev.nodeId);
        PushInboxEvent(AskCard(ev.nodeId, ask, now));
      }
    }

    method ProduceInboxFromState(ev: AgentEvent, prevState: Option<AgentState>, nextState: Option<AgentState>, now: nat)
      returns (classification: Option<InboxKind>)
      modifies this
      ensures View() == Produce(old(View()), ev, prevState, nextState, now)
      ensures classification == Classified(old(View()), ev, prevState, nextState, now)
    {
      classification := None;
      SettleBefore(ev, prevState, nextState);
      if nextState == Some(Working) && prevState != Some(Working) {
        FireNodeStateChange(Edge(ev.nodeId, Start, None, [], None, false, false, false, now));
      }
      if nextState == Some(Blocked) || nextState == Some(Waiting) {
        var ask := RaiseAsk(ev, prevState, nextState, now);
        classification := Some(ask.kind);
      } else if nextState == Some(Done) && prevState != Some(Done) {
        FireNodeStateChange(Edge(ev.nodeId, End, None, [], None, ev.interrupted, false, false, now));
        PushInboxEvent(InboxEvent("", now, ev.nodeId, Finished, if ev.interrupted then "Stopped" else "Finished",
                                  false, ev.interrupted, [], None));
      } else if nextState.None? && prevState.Some? && prevState != Some(Done)
                && ev.kind.SessionEvent? && ev.phase == Some(Ending) {
        FireNodeStateChange(Edge(ev.nodeId, End, None, [], None, false, false, false, now));
      }
    }

    // ---- operations -------------------------------------------------------------------------

    /** Fold an event into the mirror and return the event the shells broadcast. */
    method RecordAgentEvent(ev: AgentEvent, now: nat) returns (out: AgentEvent)
      modifies this
      ensures View() == StatusMirror.RecordAgentEvent(old(View()), ev, now)
      ensures broadcasts == old(broadcasts) + [out]
    {
      if ev.nodeId == "" {
        broadcasts := broadcasts + [ev];
        return ev;
      }
      var prev := if ev.nodeId in nodes then Some(nodes[ev.nodeId]) else None;
      var next := ReduceEntry(prev, ev, now);
      nodes := nodes[ev.nodeId := next];
      out := Rewritten(ev, next);
      var classification := ProduceInboxFromState(out, StateOf(prev), next.state, now);
      out := Enriched(out, classification);
      broadcasts := broadcasts + [out];
      BroadcastsKept(old(View()), ev, now);
      NodesIrrelevant(old(View()), old(nodes)[ev.nodeId := next], Rewritten(ev, next), StateOf(prev), next.state, now);
    }

    /** The classification does not look at the node map. */
    static lemma NodesIrrelevant(m: Mirror, nodes: map<string, Entry>, ev: AgentEvent, p: Option<AgentState>,
        s: Option<AgentState>, now: nat)
      ensures Classified(m.(nodes := nodes), ev, p, s, now) == Classified(m, ev, p, s, now)
    {
    }

    static lemma BroadcastsKept(m: Mirror, ev: AgentEvent, now: nat)
      ensures Recorded(m, ev, now).broadcasts == m.broadcasts
    {
      var next := ReduceEntry(Lookup(m, ev.nodeId), ev, now);
      ProduceBroadcastsNothing(m.(nodes := m.nodes[ev.nodeId := next]), Rewritten(ev, next),
                               NodeState(m, ev.nodeId), next.state, now);
    }

    static lemma ProduceBroadcastsNothing(m: Mirror, ev: AgentEvent, p: Option<AgentState>,
        s: Option<AgentState>, now: nat)
      ensures Produce(m, ev, p, s, now).broadcasts == m.broadcasts
    {
      var m1 := StartEdge(StatusMirror.SettleBefore(m, ev, p, s), ev, p, s, now);
      assert m1.broadcasts == m.broadcasts;
      RaiseBroadcastsNothing(m1, ev, p, s, now);
      assert FinishTurn(m1, ev, now).broadcasts == m1.broadcasts;
    }

    static lemma RaiseBroadcastsNothing(m: Mirror, ev: AgentEvent, p: Option<AgentState>,
        s: Option<AgentState>, now: nat)
      ensures StatusMirror.RaiseAsk(m, ev, p, s, now).broadcasts == m.broadcasts
    {
    }

    method ClearNode(n: string, now: nat)
      modifies this
      ensures View() == StatusMirror.ClearNode(old(View()), n, now)
    {
      var prev := if n in nodes then Some(nodes[n]) else None;
      nodes := nodes - {n};
      pendingQuestions := pendingQuestions - {n};
      ResolveUnresolvedFor(n);
      if prev.Some? && prev.value.state.Some? && prev.value.state != Some(Done) {
        FireNodeStateChange(Edge(n, End, None, [], None, false, false, false, now));
      }
    }

    /** Mark a node's unread done notes read, one event after another. */
    method MarkDonesRead(n: string) returns (found: bool)
      modifies `inboxEvents
      ensures found <==> HasUnreadDone(old(inboxEvents), n)
      ensures inboxEvents == if found then AckDones(old(inboxEvents), n) else old(inboxEvents)
    {
      ghost var acked := AckDones(inboxEvents, n);
      found := false;
      var i := 0;
      while i < |inboxEvents|
        invariant i <= |inboxEvents| == |acked|
        invariant |inboxEvents| == |old(inboxEvents)|
        invariant forall k :: 0 <= k < i ==> inboxEvents[k] == acked[k]
        invariant forall k :: i <= k < |inboxEvents| ==> inboxEvents[k] == old(inboxEvents)[k]
        invariant found <==> HasUnreadDone(old(inboxEvents)[..i], n)
        invariant !found ==> inboxEvents == old(inboxEvents)
      {
        var e := inboxEvents[i];
        SettleAt(old(inboxEvents), i, n);
        UnreadSnoc(old(inboxEvents), i, n);
        if e.nodeId == n && e.kind.Finished? && !e.resolved {
          inboxEvents := inboxEvents[i := e.(resolved := true)];
          found := true;
        }
        i := i + 1;
      }
      assert old(inboxEvents)[..i] == old(inboxEvents) && inboxEvents == acked;
    }

    /** The user read the finished session: settle its done cards and dismiss the live one. */
    method AckDone(n: string, now: nat)
      modifies this
      ensures View() == StatusMirror.AckDone(old(View()), n, now)
    {
      if n == "" { return; }
      var found := MarkDonesRead(n);
      if found {
        history := AckDones(history, n);
        FireNodeStateChange(Edge(n, End, None, [], None, false, false, true, now));
      }
    }

    /** Move every stale working node off working. The map is visited in some order; `order` is it. */
    method SweepStaleWorking(now: nat, staleMs: nat) returns (swept: seq<string>, ghost order: seq<string>)
      modifies this
      ensures View() == Sweep(old(View()), order, now, staleMs)
      ensures forall n :: n in order <==> n in old(nodes)
      ensures |order| == |old(nodes)|
      ensures forall n :: n in swept <==> IsStale(old(View()), n, now, staleMs)
    {
      swept, order := [], [];
      var remaining := nodes.Keys;
      while remaining != {}
        invariant remaining <= old(nodes).Keys == nodes.Keys
        invariant View() == Sweep(old(View()), order, now, staleMs)
        invariant forall n :: n in order <==> n in old(nodes) && n !in remaining
        invariant |order| + |remaining| == |old(nodes)|
        invariant forall n :: n in remaining ==> nodes[n] == old(nodes)[n]
        invariant forall n :: n in swept <==> n !in remaining && IsStale(old(View()), n, now, staleMs)
        decreases remaining
      {
        var n :| n in remaining;
        remaining := remaining - {n};
        ghost var before := order;
        order := order + [n];
        assert order[..|order| - 1] == before;
        var e := nodes[n];
        if e.state == Some(Working) && now - e.updatedAt > staleMs {
          nodes := nodes[n := e.(state := Some(Done))];
          swept := swept + [n];
          FireNodeStateChange(Edge(n, End, None, [], None, false, true, false, now));
        }
      }
    }

    /** A picker is about to be shown. */
    method RecordPicker(n: string, options: seq<string>, question: string, now: nat)
      modifies this
      ensures View() == StashPicker(old(View()), n, options, question, now)
    {
      if n != "" && options != [] {
        pendingQuestions := pendingQuestions[n := Stash(options, question, "", now)];
      }
    }

    /** A permission is about to be requested. */
    method RecordPermission(n: string, title: string, now: nat)
      modifies this
      ensures View() == StashApproval(old(View()), n, title, now)
    {
      if n == "" || title == "" { return; }
      var cur := FreshStash(n, now);
      var base := if cur.Some? then cur.value else Stash([], "", "", 0);
      pendingQuestions := pendingQuestions[n := base.(approvalTitle := title, at := now)];
    }

    /** Restore a persisted document into an empty mirror; no listener hears of it. */
    method LoadPersisted(doc: MirrorRestart.MirrorFile, now: nat)
      modifies this
      ensures edges == old(edges) && broadcasts == old(broadcasts)
      ensures old(nodes) != map[] || old(inboxEvents) != [] ==> View() == old(View())
      ensures old(View()) == EMPTY ==> View() == MirrorRestart.Load(doc, now)
    {
      if nodes != map[] || inboxEvents != [] { return; }
      nodes := map n | n in doc.nodes && now - doc.nodes[n].updatedAt <= MirrorRestart.EXPIRE_MS ::
        MirrorRestart.RestoreEntry(doc.nodes[n]);
      inboxEvents := TrimInboxFeed(doc.events, INBOX_EVENTS_CAP);
      history := inboxEvents;
      inboxSeq := MirrorRestart.MaxSeq(inboxEvents);
    }
  }
}
