/** Which packet the deletion of a continued turn takes. The deletion is keyed by node alone and waits
    in the store's queue, so this depends on what was heard of the node before it was queued. */
module ContinuationDeletion {

  import opened Continuation
  import opened Wrappers

  // ---- what a deletion takes ----------------------------------------------------------------

  function SessionOf(records: map<string, Packet>, node: string): Option<string> {
    if node in records then Some(records[node].session) else None
  }

  /** The session of the node's packet after an update, from the one before it. */
  function After(u: Update, node: string, before: Option<string>): Option<string> {
    match u
    case Upsert(n, t) => if n == node then Some(t) else before
    case Acknowledge(_) => before
    case Discard(n) => if n == node then None else before
    case Delete(n, _) => if n == node then None else before
  }

  /** The session of the node's packet once all the queued updates have run: that of the last one that
      stores a packet for the node, none after one that removes it. */
  function LastQueued(records: map<string, Packet>, queue: seq<Update>, node: string): Option<string> {
    if queue == [] then SessionOf(records, node)
    else After(queue[|queue| - 1], node, LastQueued(records, queue[..|queue| - 1], node))
  }

  /** Running the first update changes nothing about where the queue leads. */
  lemma {:induction false} HeadApplied(records: map<string, Packet>, u: Update, rest: seq<Update>, node: string)
    ensures LastQueued(Updated(records, u), rest, node) == LastQueued(records, [u] + rest, node)
  {
    var queue := [u] + rest;
    if rest == [] {
      assert queue == [u] && queue[..0] == [];
    } else {
      assert queue[..|queue| - 1] == [u] + rest[..|rest| - 1];
      HeadApplied(records, u, rest[..|rest| - 1], node);
    }
  }

  lemma LastQueuedSnoc(records: map<string, Packet>, queue: seq<Update>, u: Update, node: string)
    ensures LastQueued(records, queue + [u], node) == After(u, node, LastQueued(records, queue, node))
  {
    assert (queue + [u])[..|queue|] == queue;
  }

  predicate UpdatesSucceed(ops: seq<Op>) {
    forall i :: 0 <= i < |ops| ==> ops[i] != RunUpdate(false)
  }

  /** The event makes the store keep a packet of its session. */
  predicate Stores(op: Op, node: string) {
    && op.Event? && op.node == node && op.codex && ValidId(node) && ValidId(op.session)
    && !op.phase.ProviderStart? && !op.phase.ProviderEnd?
  }

  predicate Removes(s: Service, op: Op, node: string) {
    || (op.Drop? && op.node == node && ValidId(node))
    || (op.QueueDelete? && In(s, op.run, Received) && s.attempts[op.run].node == node)
  }

  /** The session last heard of for the node: of its last stored event, none if the user or an earlier
      continuation has had the packet removed since. */
  function LastHeard(records: map<string, Packet>, ops: seq<Op>, node: string): Option<string> {
    if ops == [] then SessionOf(records, node)
    else
      var front, op := ops[..|ops| - 1], ops[|ops| - 1];
      if Stores(op, node) then Some(op.session)
      else if Removes(Run(records, front), op, node) then None
      else LastHeard(records, front, node)
  }

  /** What a step puts into the queue. */
  function Enqueued(s: Service, op: Op): seq<Update> {
    match op
    case Event(n, t, _, _) => if Stores(op, n) then [Upsert(n, t)] else []
    case QueueDelete(run) => if In(s, run, Received) then [Delete(s.attempts[run].node, run)] else []
    case Ack(n) => if ValidId(n) then [Acknowledge(n)] else []
    case Drop(n) => if ValidId(n) then [Discard(n)] else []
    case _ => []
  }

  lemma QueueGrows(s: Service, op: Op)
    requires !op.RunUpdate?
    ensures Apply(s, op).records == s.records && Apply(s, op).queue == s.queue + Enqueued(s, op)
  {
    match op
    case Event(n, t, codex, phase) => EventGrows(s, n, t, codex, phase);
    case QueueDelete(_) =>
    case Ack(_) =>
    case Drop(_) =>
    case StartDelivery(run, ready) => ResumeKeepsQueue(s, run, ready);
    case DeliveryResolves(run, ok) => DeliveredKeepsQueue(s, run, ok);
    case _ => StepKeepsQueue(s, op);
  }

  lemma ResumeKeepsQueue(s: Service, run: nat, ready: bool)
    ensures Resume(s, run, ready).records == s.records && Resume(s, run, ready).queue == s.queue
  {
  }

  lemma DeliveredKeepsQueue(s: Service, run: nat, ok: bool)
    ensures Delivered(s, run, ok).records == s.records && Delivered(s, run, ok).queue == s.queue
  {
  }

  lemma EventGrows(s: Service, n: string, t: string, codex: bool, phase: EventPhase)
    ensures var s' := Observe(s, n, t, codex, phase);
            s'.records == s.records && s'.queue == s.queue + Enqueued(s, Event(n, t, codex, phase))
  {
  }

  lemma StepKeepsQueue(s: Service, op: Op)
    requires op.Continue? || op.ReadStore? || op.TimerFires? || op.Settle?
    ensures Apply(s, op).records == s.records && Apply(s, op).queue == s.queue
  {
  }

  lemma UpdateRuns(s: Service, node: string)
    ensures var s' := StoreStep(s, true);
            LastQueued(s'.records, s'.queue, node) == LastQueued(s.records, s.queue, node)
  {
    if s.queue != [] {
      assert s.queue == [s.queue[0]] + s.queue[1..];
      HeadApplied(s.records, s.queue[0], s.queue[1..], node);
    }
  }

  lemma HeardStep(s: Service, op: Op, node: string)
    requires op != RunUpdate(false)
    ensures LastQueued(Apply(s, op).records, Apply(s, op).queue, node)
         == if Stores(op, node) then Some(op.session)
            else if Removes(s, op, node) then None
            else LastQueued(s.records, s.queue, node)
  {
    if op.RunUpdate? {
      UpdateRuns(s, node);
    } else {
      QueueGrows(s, op);
      var more := Enqueued(s, op);
      if more == [] {
        assert s.queue + more == s.queue;
      } else {
        LastQueuedSnoc(s.records, s.queue, more[0], node);
        assert more == [more[0]];
      }
    }
  }

  /** While updates succeed, the queue leads to what was last heard. */
  lemma {:induction false} QueueLeadsToLastHeard(records: map<string, Packet>, ops: seq<Op>, node: string)
    requires ValidRecords(records) && UpdatesSucceed(ops)
    ensures var s := Run(records, ops);
            LastQueued(s.records, s.queue, node) == LastHeard(records, ops, node)
  {
    if ops != [] {
      var front := ops[..|ops| - 1];
      QueueLeadsToLastHeard(records, front, node);
      HeardStep(Run(records, front), ops[|ops| - 1], node);
    }
  }

  /** What was last heard of the attempt's node when its deletion was queued. */
  function HeardWhenQueued(records: map<string, Packet>, ops: seq<Op>, run: nat): Option<string> {
    if ops == [] then None
    else
      var front := ops[..|ops| - 1];
      var s := Run(records, front);
      if ops[|ops| - 1] == QueueDelete(run) && In(s, run, Received) then
        LastHeard(records, front, s.attempts[run].node)
      else HeardWhenQueued(records, front, run)
  }

  /** A deletion still in the queue was there before, or is the one this step queues. */
  lemma DeletionFrom(s: Service, op: Op, i: nat) returns (j: nat)
    requires Sound(s) && i < |Apply(s, op).queue| && Apply(s, op).queue[i].Delete? && op != RunUpdate(false)
    ensures var u := Apply(s, op).queue[i];
            if op == QueueDelete(u.run) && In(s, u.run, Received) then
              && i == j == |s.queue| && u.node == s.attempts[u.run].node
              && Apply(s, op).queue[..i] == s.queue && Apply(s, op).records == s.records
            else
              && j < |s.queue| && s.queue[j] == u
              && LastQueued(Apply(s, op).records, Apply(s, op).queue[..i], u.node)
                 == LastQueued(s.records, s.queue[..j], u.node)
  {
    if op.RunUpdate? {
      j := i + 1;
      DeletionMovesUp(s, i);
    } else {
      j := i;
      QueueGrows(s, op);
      DeletionStays(s.queue, Enqueued(s, op), i);
      if i < |s.queue| {
        assert In(s, s.queue[i].run, Deleting);
      } else {
        DeletionQueued(s, op);
      }
    }
  }

  lemma DeletionQueued(s: Service, op: Op)
    requires Enqueued(s, op) != [] && Enqueued(s, op)[0].Delete?
    ensures var u := Enqueued(s, op)[0];
            |Enqueued(s, op)| == 1 && op == QueueDelete(u.run) && In(s, u.run, Received)
            && u.node == s.attempts[u.run].node
  {
  }

  lemma DeletionStays(queue: seq<Update>, more: seq<Update>, i: nat)
    requires i < |queue + more|
    ensures if i < |queue| then (queue + more)[i] == queue[i] && (queue + more)[..i] == queue[..i]
            else (queue + more)[i] == more[i - |queue|] && (i == |queue| ==> (queue + more)[..i] == queue)
  {
  }

  lemma DeletionMovesUp(s: Service, i: nat)
    requires s.queue != [] && i + 1 < |s.queue|
    ensures var s' := StoreStep(s, true);
            && s'.queue == s.queue[1..] && s'.queue[i] == s.queue[i + 1]
            && forall node :: LastQueued(s'.records, s'.queue[..i], node)
                  == LastQueued(s.records, s.queue[..i + 1], node)
  {
    var s' := StoreStep(s, true);
    assert s.queue[..i + 1] == [s.queue[0]] + s'.queue[..i];
    forall node ensures LastQueued(s'.records, s'.queue[..i], node) == LastQueued(s.records, s.queue[..i + 1], node) {
      HeadApplied(s.records, s.queue[0], s'.queue[..i], node);
    }
  }

  lemma {:induction false} QueuedDeletionTakes(records: map<string, Packet>, ops: seq<Op>, i: nat)
    requires ValidRecords(records) && UpdatesSucceed(ops)
    requires i < |Run(records, ops).queue| && Run(records, ops).queue[i].Delete?
    ensures var s := Run(records, ops);
            LastQueued(s.records, s.queue[..i], s.queue[i].node) == HeardWhenQueued(records, ops, s.queue[i].run)
  {
    var front, op := ops[..|ops| - 1], ops[|ops| - 1];
    var s := Run(records, front);
    RunSound(records, front);
    var j := DeletionFrom(s, op, i);
    var u := Run(records, ops).queue[i];
    if op == QueueDelete(u.run) && In(s, u.run, Received) {
      QueueLeadsToLastHeard(records, front, u.node);
    } else {
      QueuedDeletionTakes(records, front, j);
    }
  }

  /** When a deletion is next to run, the packet it takes is of the session last heard of for its node
      when it was queued, whatever was heard since. So it takes another session's packet exactly when
      the last thing heard of the node by then was an event of another session. */
  lemma DeletionTakesExactly(records: map<string, Packet>, ops: seq<Op>)
    requires ValidRecords(records) && UpdatesSucceed(ops)
    requires Run(records, ops).queue != [] && Run(records, ops).queue[0].Delete?
    ensures var s := Run(records, ops);
            var node, run := s.queue[0].node, s.queue[0].run;
            && run < |s.attempts|
            && SessionOf(s.records, node) == HeardWhenQueued(records, ops, run)
            && (node in s.records && s.records[node].session != s.attempts[run].session
                <==> HeardWhenQueued(records, ops, run).Some?
                     && HeardWhenQueued(records, ops, run).value != s.attempts[run].session)
  {
    RunSound(records, ops);
    QueuedDeletionTakes(records, ops, 0);
    assert Run(records, ops).queue[..0] == [];
  }

  // ---- updates that fail --------------------------------------------------------------------

  /** Every update ever queued, in order. */
  function AllQueued(records: map<string, Packet>, ops: seq<Op>): seq<Update> {
    if ops == [] then []
    else
      var front := ops[..|ops| - 1];
      AllQueued(records, front) + Enqueued(Run(records, front), ops[|ops| - 1])
  }

  /** How the updates that have run ended, in the order they were queued. */
  function Outcomes(records: map<string, Packet>, ops: seq<Op>): seq<bool> {
    if ops == [] then []
    else
      var front, op := ops[..|ops| - 1], ops[|ops| - 1];
      Outcomes(records, front) + (if op.RunUpdate? && Run(records, front).queue != [] then [op.ok] else [])
  }

  /** The session of the node's packet by those of the first updates that succeeded. */
  function Surviving(records: map<string, Packet>, updates: seq<Update>, ok: seq<bool>, node: string): Option<string>
    requires |ok| <= |updates|
  {
    if ok == [] then SessionOf(records, node)
    else
      var k := |ok| - 1;
      var before := Surviving(records, updates, ok[..k], node);
      if ok[k] then After(updates[k], node, before) else before
  }

  lemma {:induction false} SurvivingGrows(
      records: map<string, Packet>, updates: seq<Update>, more: seq<Update>, ok: seq<bool>, node: string)
    requires |ok| <= |updates|
    ensures Surviving(records, updates + more, ok, node) == Surviving(records, updates, ok, node)
  {
    if ok != [] { SurvivingGrows(records, updates, more, ok[..|ok| - 1], node); }
  }

  /** The queue holds the updates that have yet to run, and the store what the successful ones left. */
  ghost predicate Replayed(records: map<string, Packet>, s: Service, updates: seq<Update>, ok: seq<bool>) {
    && |ok| <= |updates| && s.queue == updates[|ok|..]
    && forall node :: SessionOf(s.records, node) == Surviving(records, updates, ok, node)
  }

  lemma ReplayedRun(records: map<string, Packet>, s: Service, updates: seq<Update>, ok: seq<bool>, good: bool)
    requires Replayed(records, s, updates, ok) && s.queue != []
    ensures Replayed(records, StoreStep(s, good), updates, ok + [good])
  {
    var s', u := StoreStep(s, good), updates[|ok|];
    assert updates[|ok|..][1..] == updates[|ok| + 1..] && updates[|ok|..][0] == u;
    assert (ok + [good])[..|ok|] == ok;
    assert s'.records == if good then Updated(s.records, u) else s.records;
    forall node ensures SessionOf(s'.records, node) == Surviving(records, updates, ok + [good], node) {
      assert SessionOf(s.records, node) == Surviving(records, updates, ok, node);
      UpdatedSession(s.records, u, node);
    }
  }

  lemma UpdatedSession(records: map<string, Packet>, u: Update, node: string)
    ensures SessionOf(Updated(records, u), node) == After(u, node, SessionOf(records, node))
  {
  }

  lemma ReplayedQueued(
      records: map<string, Packet>, s: Service, s': Service, updates: seq<Update>, ok: seq<bool>, more: seq<Update>)
    requires Replayed(records, s, updates, ok) && s'.records == s.records && s'.queue == s.queue + more
    ensures Replayed(records, s', updates + more, ok)
  {
    assert (updates + more)[|ok|..] == updates[|ok|..] + more;
    forall node ensures SessionOf(s'.records, node) == Surviving(records, updates + more, ok, node) {
      SurvivingGrows(records, updates, more, ok, node);
    }
  }

  /** In every run, whatever updates fail, the updates run first in first out and the stored packet of
      a node is the one its last successful update left. */
  lemma {:induction false} RunReplayed(records: map<string, Packet>, ops: seq<Op>)
    ensures Replayed(records, Run(records, ops), AllQueued(records, ops), Outcomes(records, ops))
  {
    if ops != [] {
      var front, op := ops[..|ops| - 1], ops[|ops| - 1];
      var s, updates, ok := Run(records, front), AllQueued(records, front), Outcomes(records, front);
      RunReplayed(records, front);
      if op.RunUpdate? {
        assert updates + [] == updates && ok + [] == ok;
        if s.queue != [] { ReplayedRun(records, s, updates, ok, op.ok); }
      } else {
        QueueGrows(s, op);
        ReplayedQueued(records, s, Apply(s, op), updates, ok, Enqueued(s, op));
        assert ok + [] == ok;
      }
    }
  }

  /** Whatever updates have failed, a deletion that is next to run takes another session's packet
      exactly when, of the updates queued before it, the last to succeed for its node stored one. */
  lemma DeletionTakes(records: map<string, Packet>, ops: seq<Op>)
    requires ValidRecords(records)
    requires Run(records, ops).queue != [] && Run(records, ops).queue[0].Delete?
    ensures var s, updates, ok := Run(records, ops), AllQueued(records, ops), Outcomes(records, ops);
            var node, run := s.queue[0].node, s.queue[0].run;
            && run < |s.attempts| && |ok| < |updates| && updates[|ok|] == s.queue[0]
            && var left := Surviving(records, updates, ok, node);
            && SessionOf(s.records, node) == left
            && (node in s.records && s.records[node].session != s.attempts[run].session
                <==> left.Some? && left.value != s.attempts[run].session)
  {
    RunSound(records, ops);
    RunReplayed(records, ops);
  }

  /** A packet is acknowledged once the user has acknowledged it, through every later event, until it is
      removed; a packet stored afresh is not. */
  lemma AcknowledgedUntilRemoved(records: map<string, Packet>, u: Update, node: string)
    ensures var after := Updated(records, u);
            var was := node in records && records[node].acknowledged;
            && (node in after && after[node].acknowledged
                <==> (was || (u == Acknowledge(node) && node in records))
                     && !((u.Discard? || u.Delete?) && u.node == node))
            && (u.node != node ==>
                  (node in after <==> node in records) && (node in records ==> after[node] == records[node]))
  {
  }

  // ---- one session only ---------------------------------------------------------------------

  /** Every packet and event of the node so far is of one session. */
  predicate OneSession(records: map<string, Packet>, ops: seq<Op>, node: string, session: string) {
    && (node in records ==> records[node].session == session)
    && forall i :: 0 <= i < |ops| && ops[i].Event? && ops[i].node == node ==> ops[i].session == session
  }

  /** The node's packet, its queued updates and its deliveries are all of the session. */
  predicate OnlySession(s: Service, node: string, session: string) {
    && (node in s.records ==> s.records[node].session == session)
    && (forall i :: 0 <= i < |s.queue| ==>
          s.queue[i].Upsert? && s.queue[i].node == node ==> s.queue[i].session == session)
    && (forall r :: 0 <= r < |s.attempts| ==> AttemptOf(s.attempts[r], node, session))
  }

  predicate AttemptOf(a: Attempt, node: string, session: string) {
    a.node == node && (a.started > 0 || a.phase == Looked(true)) ==> a.session == session
  }

  /** One attempt moves, at most a deletion is queued. */
  lemma MovedOnly(s: Service, s': Service, run: nat, a: Attempt, node: string, session: string)
    requires OnlySession(s, node, session) && AttemptOf(a, node, session)
    requires run < |s.attempts| && s'.attempts == s.attempts[run := a] && s'.records == s.records
    requires s'.queue == s.queue || s'.queue == s.queue + [Delete(a.node, run)]
    ensures OnlySession(s', node, session)
  {
    forall r | 0 <= r < |s'.attempts| ensures AttemptOf(s'.attempts[r], node, session) {
      assert AttemptOf(s.attempts[r], node, session);
    }
    assert forall i :: 0 <= i < |s.queue| ==> s'.queue[i] == s.queue[i];
  }

  lemma OnlySessionObserve(s: Service, n: string, t: string, codex: bool, phase: EventPhase, node: string,
      session: string)
    requires OnlySession(s, node, session) && (n == node ==> t == session)
    ensures OnlySession(Observe(s, n, t, codex, phase), node, session)
  {
    var s' := Observe(s, n, t, codex, phase);
    forall r | 0 <= r < |s'.attempts| ensures AttemptOf(s'.attempts[r], node, session) {
      assert AttemptOf(s.attempts[r], node, session);
    }
    assert forall i :: 0 <= i < |s.queue| ==> s'.queue[i] == s.queue[i];
  }

  lemma OnlySessionStore(s: Service, ok: bool, node: string, session: string)
    requires OnlySession(s, node, session)
    ensures OnlySession(StoreStep(s, ok), node, session)
  {
    if s.queue != [] {
      var s' := StoreStep(s, ok);
      assert s.queue[0].Upsert? && s.queue[0].node == node ==> s.queue[0].session == session;
      assert forall i :: 0 <= i < |s'.queue| ==> s'.queue[i] == s.queue[i + 1];
      forall r | 0 <= r < |s'.attempts| ensures AttemptOf(s'.attempts[r], node, session) {
        assert AttemptOf(s.attempts[r], node, session);
      }
    }
  }

  lemma OnlySessionLook(s: Service, run: nat, readable: bool, node: string, session: string)
    requires OnlySession(s, node, session)
    ensures OnlySession(Look(s, run, readable), node, session)
  {
    var s' := Look(s, run, readable);
    if s' != s {
      assert AttemptOf(s.attempts[run], node, session);
      MovedOnly(s, s', run, s'.attempts[run], node, session);
    }
  }

  lemma OnlySessionResume(s: Service, run: nat, ready: bool, node: string, session: string)
    requires OnlySession(s, node, session)
    ensures OnlySession(Resume(s, run, ready), node, session)
  {
    var s' := Resume(s, run, ready);
    if s' != s {
      assert AttemptOf(s.attempts[run], node, session);
      MovedOnly(s, s', run, s'.attempts[run], node, session);
    }
  }

  lemma OnlySessionDelivered(s: Service, run: nat, ok: bool, node: string, session: string)
    requires OnlySession(s, node, session)
    ensures OnlySession(Delivered(s, run, ok), node, session)
  {
    var s' := Delivered(s, run, ok);
    if s' != s {
      assert AttemptOf(s.attempts[run], node, session);
      MovedOnly(s, s', run, s'.attempts[run], node, session);
    }
  }

  lemma OnlySessionTimeout(s: Service, run: nat, node: string, session: string)
    requires OnlySession(s, node, session)
    ensures OnlySession(Timeout(s, run), node, session)
  {
    var s' := Timeout(s, run);
    if s' != s {
      assert AttemptOf(s.attempts[run], node, session);
      MovedOnly(s, s', run, s'.attempts[run], node, session);
    }
  }

  lemma OnlySessionProceed(s: Service, run: nat, node: string, session: string)
    requires OnlySession(s, node, session)
    ensures OnlySession(Proceed(s, run), node, session)
  {
    var s' := Proceed(s, run);
    if s' != s {
      assert AttemptOf(s.attempts[run], node, session);
      MovedOnly(s, s', run, s'.attempts[run], node, session);
    }
  }

  lemma OnlySessionComplete(s: Service, run: nat, node: string, session: string)
    requires OnlySession(s, node, session)
    ensures OnlySession(Complete(s, run), node, session)
  {
    var s' := Complete(s, run);
    if s' != s {
      assert AttemptOf(s.attempts[run], node, session);
      MovedOnly(s, s', run, s'.attempts[run], node, session);
    }
  }

  lemma OnlySessionStep(s: Service, op: Op, node: string, session: string)
    requires OnlySession(s, node, session)
    requires op.Event? && op.node == node ==> op.session == session
    ensures OnlySession(Apply(s, op), node, session)
  {
    match op
    case Event(n, t, codex, phase) => OnlySessionObserve(s, n, t, codex, phase, node, session);
    case RunUpdate(ok) => OnlySessionStore(s, ok, node, session);
    case Continue(n) =>
    case Ack(n) =>
    case Drop(n) =>
    case ReadStore(run, readable) => OnlySessionLook(s, run, readable, node, session);
    case StartDelivery(run, ready) => OnlySessionResume(s, run, ready, node, session);
    case DeliveryResolves(run, ok) => OnlySessionDelivered(s, run, ok, node, session);
    case TimerFires(run) => OnlySessionTimeout(s, run, node, session);
    case QueueDelete(run) => OnlySessionProceed(s, run, node, session);
    case Settle(run) => OnlySessionComplete(s, run, node, session);
  }

  /** While one session only is heard of for a node, the stored packet is always of that session,
      so a deletion can only take the packet that was delivered. */
  lemma {:induction false} OwnPacketDeleted(records: map<string, Packet>, ops: seq<Op>, node: string, session: string)
    requires OneSession(records, ops, node, session)
    ensures OnlySession(Run(records, ops), node, session)
  {
    if ops != [] {
      var front, op := ops[..|ops| - 1], ops[|ops| - 1];
      assert forall i :: 0 <= i < |front| ==> front[i] == ops[i];
      OwnPacketDeleted(records, front, node, session);
      OnlySessionStep(Run(records, front), op, node, session);
    }
  }

  // ---- a newer session's packet goes --------------------------------------------------------

  lemma RunSnoc(records: map<string, Packet>, ops: seq<Op>, op: Op)
    ensures Run(records, ops + [op]) == Apply(Run(records, ops), op)
  {
    assert (ops + [op])[..|ops|] == ops;
  }

  /** The witness below up to the delivery. */
  lemma DeliveringToA(records: map<string, Packet>) returns (ops: seq<Op>)
    requires records == map["n" := Packet("a", false)]
    ensures var s := Run(records, ops);
            && s.records == records && s.queue == [] && s.waiters == map[] && s.sequences == map[]
            && s.attempts == [Attempt("n", Delivering, "a", 0, 0, 0, 1, 0)]
    ensures UpdatesSucceed(ops)
  {
    RunSnoc(records, [], Continue("n"));
    var s := Run(records, [] + [Continue("n")]);
    assert s.attempts == [Attempt("n", Reading, "", 0, 0, 0, 0, 0)];
    RunSnoc(records, [] + [Continue("n")], ReadStore(0, true));
    s := Look(s, 0, true);
    assert s.attempts == [Attempt("n", Looked(true), "a", 0, 0, 0, 0, 0)];
    RunSnoc(records, [] + [Continue("n")] + [ReadStore(0, true)], StartDelivery(0, true));
    s := Resume(s, 0, true);
    assert s.attempts == [Attempt("n", Delivering, "a", 0, 0, 0, 1, 0)];
    ops := [] + [Continue("n")] + [ReadStore(0, true)] + [StartDelivery(0, true)];
  }

  /** The receipt of session `a` and an event of session `b` arrive while the delivery is under way. */
  lemma ReceiptThenOther(records: map<string, Packet>) returns (ops: seq<Op>)
    requires records == map["n" := Packet("a", false)]
    ensures var s := Run(records, ops);
            && s.records == records && s.queue == [Upsert("n", "a"), Upsert("n", "b")]
            && s.attempts == [Attempt("n", Delivering, "a", 0, 0, 0, 1, 0)]
            && SequenceOf(s.sequences, Key("n", "a")) == 1
    ensures UpdatesSucceed(ops) && LastHeard(records, ops, "n") == Some("b")
  {
    var before := DeliveringToA(records);
    var start, other := Event("n", "a", true, TurnStart), Event("n", "b", true, Progress);
    RunSnoc(records, before, start);
    var s := Run(records, before + [start]);
    assert s.queue == [Upsert("n", "a")] && SequenceOf(s.sequences, Key("n", "a")) == 1;
    assert s.attempts == [Attempt("n", Delivering, "a", 0, 0, 0, 1, 0)];
    RunSnoc(records, before + [start], other);
    ops := before + [start] + [other];
    assert ops[..|ops| - 1] == before + [start];
  }

  /** Then the delivery resolves, and the receipt already seen is taken. */
  lemma ReceiptTaken(records: map<string, Packet>) returns (ops: seq<Op>)
    requires records == map["n" := Packet("a", false)]
    ensures var s := Run(records, ops);
            && s.records == records && s.queue == [Upsert("n", "a"), Upsert("n", "b")]
            && s.attempts == [Attempt("n", Received, "a", 0, 0, 0, 1, 1)]
  {
    var before := ReceiptThenOther(records);
    RunSnoc(records, before, DeliveryResolves(0, true));
    SeenReceiptTaken(Run(records, before));
    ops := before + [DeliveryResolves(0, true)];
  }

  lemma SeenReceiptTaken(s: Service)
    requires s.attempts == [Attempt("n", Delivering, "a", 0, 0, 0, 1, 0)]
    requires SequenceOf(s.sequences, Key("n", "a")) == 1
    ensures var s' := Delivered(s, 0, true);
            && s'.attempts == [Attempt("n", Received, "a", 0, 0, 0, 1, 1)]
            && s'.records == s.records && s'.queue == s.queue
  {
  }

  lemma StoreTwice(s: Service)
    requires s.records == map["n" := Packet("a", false)]
    requires s.queue == [Upsert("n", "a"), Upsert("n", "b"), Delete("n", 0)]
    requires s.attempts == [Attempt("n", Deleting, "a", 0, 0, 0, 1, 1)]
    ensures var t := StoreStep(StoreStep(s, true), true);
            && t.records == map["n" := Packet("b", false)] && t.attempts == s.attempts
            && StoreStep(t, true).records == map[]
            && StoreStep(t, true).attempts == [Attempt("n", Ending(Continued), "a", 0, 0, 0, 1, 1)]
  {
    var t1 := StoreStep(s, true);
    assert t1.queue == [Upsert("n", "b"), Delete("n", 0)];
    var t2 := StoreStep(t1, true);
    assert t2.queue == [Delete("n", 0)];
    assert t2.records == map["n" := Packet("b", false)];
  }

  /** A run in which the deletion takes the packet of a session heard of after the receipt, and the
      continuation of the other session reports success. */
  lemma NewerSessionIsDeleted(records: map<string, Packet>) returns (ops: seq<Op>)
    requires records == map["n" := Packet("a", false)]
    ensures var s := Run(records, ops);
            var s' := Apply(s, RunUpdate(true));
            && s.records == map["n" := Packet("b", false)] && s'.records == map[]
            && s'.attempts == [Attempt("n", Ending(Continued), "a", 0, 0, 0, 1, 1)]
  {
    var before := ReceiptTaken(records);
    var s := Run(records, before);
    RunSnoc(records, before, QueueDelete(0));
    var queued := Proceed(s, 0);
    assert queued.queue == [Upsert("n", "a"), Upsert("n", "b"), Delete("n", 0)];
    assert queued.attempts == [Attempt("n", Deleting, "a", 0, 0, 0, 1, 1)];
    RunSnoc(records, before + [QueueDelete(0)], RunUpdate(true));
    RunSnoc(records, before + [QueueDelete(0)] + [RunUpdate(true)], RunUpdate(true));
    StoreTwice(queued);
    ops := before + [QueueDelete(0)] + [RunUpdate(true)] + [RunUpdate(true)];
  }
}
