/** The continuation service object: the receipt, waiter and retry maps, the packet store and its
    queue, updated in place, every method one step of the specification. */
module ContinuationService {

  import opened Continuation
  import opened Wrappers

  class AgentContinuationService {
    var receiptSequences: map<string, nat>
    var receiptWaiters: map<string, set<nat>>
    var retries: map<string, nat>
    var records: map<string, Packet>
    var queue: seq<Update>
    var attempts: seq<Attempt>
    // Kept for the record: every turn start observed.
    var starts: seq<(string, string)>

    ghost function View(): Service
      reads this
    {
      Service(receiptSequences, receiptWaiters, retries, records, queue, attempts, starts)
    }

    constructor (stored: map<string, Packet>)
      ensures View() == Initial(stored)
    {
      receiptSequences, receiptWaiters, retries := map[], map[], map[];
      records, queue, attempts, starts := stored, [], [], [];
    }

    method ObserveEvent(node: string, session: string, codex: bool, phase: EventPhase)
      modifies this
      ensures View() == Observe(old(View()), node, session, codex, phase)
    {
      if !codex || !ValidId(node) || !ValidId(session) { return; }
      if phase.ProviderStart? { return; }
      if phase.TurnStart? {
        var key := Key(node, session);
        receiptSequences := receiptSequences[key := SequenceOf(receiptSequences, key) + 1];
        ResolveWaiters(WaitersOf(receiptWaiters, key));
        receiptWaiters := receiptWaiters - {key};
        starts := starts + [(node, session)];
      }
      if phase.ProviderEnd? { return; }
      queue := queue + [Upsert(node, session)];
    }

    /** Resolves every waiter of the set. */
    method ResolveWaiters(woken: set<nat>)
      modifies this`attempts
      ensures attempts == Wake(old(attempts), woken)
    {
      var todo := woken;
      while todo != {}
        invariant todo <= woken && |attempts| == |old(attempts)|
        invariant forall i: nat :: i < |attempts| ==>
                    attempts[i] == if i in woken - todo then old(attempts)[i].(phase := Received) else old(attempts)[i]
        decreases todo
      {
        var run :| run in todo;
        todo := todo - {run};
        if run < |attempts| { attempts := attempts[run := attempts[run].(phase := Received)]; }
      }
    }

    /** Asks for a continuation: the one in flight for the node, or a new one. */
    method ContinueNode(node: string) returns (run: Option<nat>)
      modifies this
      ensures View() == Begin(old(View()), node)
      ensures run == if !ValidId(node) then None else Some(retries[node])
      ensures ValidId(node) ==> node in retries
    {
      if !ValidId(node) { return None; }
      if node in retries { return Some(retries[node]); }
      run := Some(|attempts|);
      retries := retries[node := |attempts|];
      attempts := attempts + [Attempt(node, Reading, "", 0, 0, 0, 0, 0)];
    }

    method PacketRead(run: nat, readable: bool)
      modifies this`attempts
      ensures View() == Look(old(View()), run, readable)
    {
      if run >= |attempts| || attempts[run].phase != Reading { return; }
      var a := attempts[run];
      if !readable {
        a := a.(phase := Ending(Unavailable));
      } else if a.node in records {
        a := a.(phase := Looked(true), session := records[a.node].session);
      } else {
        a := a.(phase := Looked(false));
      }
      attempts := attempts[run := a];
    }

    method BeginDelivery(run: nat, ready: bool) returns (deliver: bool)
      modifies this`attempts
      ensures View() == Resume(old(View()), run, ready)
      ensures deliver <==> old(run < |attempts| && attempts[run].phase == Looked(true)) && ready
    {
      if run >= |attempts| || !attempts[run].phase.Looked? { return false; }
      var a := attempts[run];
      if !a.phase.found {
        attempts := attempts[run := a.(phase := Ending(NotFound))];
        return false;
      }
      if !ready {
        attempts := attempts[run := a.(phase := Ending(ProviderNotReady))];
        return false;
      }
      var receiptBeforeDelivery := SequenceOf(receiptSequences, Key(a.node, a.session));
      attempts := attempts[run := a.(phase := Delivering, started := a.started + 1,
                                     since := receiptBeforeDelivery, mark := |starts|)];
      deliver := true;
    }

    /** The delivery has resolved; if it succeeded, this is where the receipt is waited for. */
    method DeliveryResolved(run: nat, ok: bool)
      modifies this
      ensures View() == Delivered(old(View()), run, ok)
    {
      if run >= |attempts| || attempts[run].phase != Delivering { return; }
      var a := attempts[run];
      if !ok {
        attempts := attempts[run := a.(phase := Ending(DeliveryFailed))];
        return;
      }
      a := a.(delivered := a.delivered + 1);
      var key := Key(a.node, a.session);
      if SequenceOf(receiptSequences, key) > a.since {
        attempts := attempts[run := a.(phase := Received)];
      } else {
        receiptWaiters := receiptWaiters[key := WaitersOf(receiptWaiters, key) + {run}];
        attempts := attempts[run := a.(phase := Waiting)];
      }
    }

    method WaitTimedOut(run: nat)
      modifies this
      ensures View() == Timeout(old(View()), run)
    {
      if run >= |attempts| || attempts[run].phase != Waiting { return; }
      var a := attempts[run];
      var key := Key(a.node, a.session);
      if key in receiptWaiters { receiptWaiters := receiptWaiters[key := receiptWaiters[key] - {run}]; }
      attempts := attempts[run := a.(phase := Ending(ReceiptTimeout), until := |starts|)];
    }

    method EnqueueDelete(run: nat)
      modifies this
      ensures View() == Proceed(old(View()), run)
    {
      if run >= |attempts| || attempts[run].phase != Received { return; }
      queue := queue + [Delete(attempts[run].node, run)];
      attempts := attempts[run := attempts[run].(phase := Deleting)];
    }

    method RunNextUpdate(ok: bool)
      modifies this
      ensures View() == StoreStep(old(View()), ok)
    {
      if queue == [] { return; }
      var u := queue[0];
      queue := queue[1..];
      if ok { records := Updated(records, u); }
      if u.Delete? && u.run < |attempts| && attempts[u.run].phase == Deleting {
        attempts := attempts[u.run := attempts[u.run].(phase := Ending(if ok then Continued else Unavailable))];
      }
    }

    method SettleAttempt(run: nat) returns (result: Option<Outcome>)
      modifies this
      ensures View() == Complete(old(View()), run)
      ensures result.Some? ==> run < |attempts| && attempts[run].phase == Finished(result.value)
    {
      if run >= |attempts| || !attempts[run].phase.Ending? { return None; }
      var a := attempts[run];
      result := Some(a.phase.result);
      attempts := attempts[run := a.(phase := Finished(a.phase.result))];
      retries := retries - {a.node};
    }
  }
}
