/** Continuing an interrupted agent turn: deliver the reviewed packet, wait for the provider's
    receipt, then delete the packet. Each step below is what runs between two awaits; a run of the
    system is any interleaving of steps of any number of continuations, observed events and store
    updates. */
module Continuation {

  import opened Wrappers

  // ---- identifiers --------------------------------------------------------------------------

  predicate IsIdStart(c: char) { 'a' <= c <= 'z' || 'A' <= c <= 'Z' || '0' <= c <= '9' }

  predicate IsIdChar(c: char) { IsIdStart(c) || c == '.' || c == '_' || c == ':' || c == '-' }

  /** The pattern both node and session identifiers must match. */
  predicate ValidId(id: string) {
    0 < |id| <= 160 && IsIdStart(id[0]) && forall i :: 0 <= i < |id| ==> IsIdChar(id[i])
  }

  /** The key of a node and session in the receipt maps. */
  function Key(node: string, session: string): string { node + "|" + session }

  /** No other node or session shares a key. */
  lemma {:induction false} KeyInjective(n: string, s: string, m: string, t: string)
    requires ValidId(n) && ValidId(m)
    requires Key(n, s) == Key(m, t)
    ensures n == m && s == t
  {
    var k := Key(n, s);
    assert k[|n|] == '|' && k[|m|] == '|';
    assert forall i :: 0 <= i < |n| ==> k[i] == n[i] && IsIdChar(k[i]);
    assert forall i :: 0 <= i < |m| ==> k[i] == m[i] && IsIdChar(k[i]);
    assert |n| == |m|;
    assert k[..|n|] == n && k[..|m|] == m;
    assert k[|n| + 1..] == s && k[|m| + 1..] == t;
  }

  // ---- state --------------------------------------------------------------------------------

  datatype Packet = Packet(session: string, acknowledged: bool)

  /** Updates in the store's queue, applied one at a time. */
  datatype Update =
    | Upsert(node: string, session: string)
    | Acknowledge(node: string)
    | Discard(node: string)
    | Delete(node: string, run: nat)

  datatype Outcome =
    Continued | Unavailable | NotFound | ProviderNotReady | DeliveryFailed | ReceiptTimeout

  datatype Phase =
    | Reading
    | Looked(found: bool)
    | Delivering
    | Waiting
    | Received
    | Deleting
    | Ending(result: Outcome)
    | Finished(result: Outcome)

  /** One continuation. `since` is the receipt sequence read before delivery, when `mark` turn
      starts had been observed; `until` is how many had been when the wait timed out. */
  datatype Attempt = Attempt(
    node: string, phase: Phase, session: string,
    since: nat, mark: nat, until: nat, started: nat, delivered: nat)

  datatype Service = Service(
    sequences: map<string, nat>,
    waiters: map<string, set<nat>>,
    retries: map<string, nat>,
    records: map<string, Packet>,
    queue: seq<Update>,
    attempts: seq<Attempt>,
    starts: seq<(string, string)>)

  function SequenceOf(sequences: map<string, nat>, key: string): nat {
    if key in sequences then sequences[key] else 0
  }

  function WaitersOf(waiters: map<string, set<nat>>, key: string): set<nat> {
    if key in waiters then waiters[key] else {}
  }

  function KeyOf(a: Attempt): string { Key(a.node, a.session) }

  // ---- steps --------------------------------------------------------------------------------

  datatype EventPhase = ProviderStart | TurnStart | TurnStop | Progress | ProviderEnd

  /** The waiting attempts of the set, woken. */
  function Wake(attempts: seq<Attempt>, woken: set<nat>): (r: seq<Attempt>)
    ensures |r| == |attempts|
    ensures forall i :: 0 <= i < |attempts| ==>
              r[i] == if i in woken then attempts[i].(phase := Received) else attempts[i]
  {
    seq(|attempts|, i requires 0 <= i < |attempts| =>
      if i in woken then attempts[i].(phase := Received) else attempts[i])
  }

  function Receipt(s: Service, node: string, session: string): Service {
    var key := Key(node, session);
    s.(sequences := s.sequences[key := SequenceOf(s.sequences, key) + 1],
       attempts := Wake(s.attempts, WaitersOf(s.waiters, key)),
       waiters := s.waiters - {key},
       starts := s.starts + [(node, session)])
  }

  function Observe(s: Service, node: string, session: string, codex: bool, phase: EventPhase): Service {
    if !codex || !ValidId(node) || !ValidId(session) || phase.ProviderStart? then s
    else
      var s' := if phase.TurnStart? then Receipt(s, node, session) else s;
      if phase.ProviderEnd? then s' else s'.(queue := s'.queue + [Upsert(node, session)])
  }

  /** A continuation asked for while one runs for the node is that one. */
  function Begin(s: Service, node: string): Service {
    if !ValidId(node) || node in s.retries then s
    else
      s.(retries := s.retries[node := |s.attempts|],
         attempts := s.attempts + [Attempt(node, Reading, "", 0, 0, 0, 0, 0)])
  }

  function With(s: Service, run: nat, a: Attempt): Service
    requires run < |s.attempts|
  {
    s.(attempts := s.attempts[run := a])
  }

  predicate In(s: Service, run: nat, phase: Phase) { run < |s.attempts| && s.attempts[run].phase == phase }

  /** The store has been read for the attempt. */
  function Look(s: Service, run: nat, readable: bool): Service {
    if !In(s, run, Reading) then s
    else
      var a := s.attempts[run];
      if !readable then With(s, run, a.(phase := Ending(Unavailable)))
      else if a.node in s.records then
        With(s, run, a.(phase := Looked(true), session := s.records[a.node].session))
      else With(s, run, a.(phase := Looked(false)))
  }

  /** From the read packet to the start of the delivery, the receipt sequence read in between. */
  function Resume(s: Service, run: nat, ready: bool): Service {
    if run >= |s.attempts| || !s.attempts[run].phase.Looked? then s
    else
      var a := s.attempts[run];
      if !a.phase.found then With(s, run, a.(phase := Ending(NotFound)))
      else if !ready then With(s, run, a.(phase := Ending(ProviderNotReady)))
      else
        With(s, run, a.(phase := Delivering, started := a.started + 1,
                        since := SequenceOf(s.sequences, KeyOf(a)), mark := |s.starts|))
  }

  /** The delivery has resolved: a receipt already seen is taken, otherwise a waiter is left. */
  function Delivered(s: Service, run: nat, ok: bool): Service {
    if !In(s, run, Delivering) then s
    else
      var a := s.attempts[run];
      if !ok then With(s, run, a.(phase := Ending(DeliveryFailed)))
      else if SequenceOf(s.sequences, KeyOf(a)) > a.since then
        With(s, run, a.(phase := Received, delivered := a.delivered + 1))
      else
        With(s, run, a.(phase := Waiting, delivered := a.delivered + 1))
        .(waiters := s.waiters[KeyOf(a) := WaitersOf(s.waiters, KeyOf(a)) + {run}])
  }

  /** The fifteen-second timer of a waiter fires. */
  function Timeout(s: Service, run: nat): Service {
    if !In(s, run, Waiting) then s
    else
      var a := s.attempts[run];
      With(s, run, a.(phase := Ending(ReceiptTimeout), until := |s.starts|))
      .(waiters := if KeyOf(a) in s.waiters then s.waiters[KeyOf(a) := s.waiters[KeyOf(a)] - {run}] else s.waiters)
  }

  function Proceed(s: Service, run: nat): Service {
    if !In(s, run, Received) then s
    else
      var a := s.attempts[run];
      With(s, run, a.(phase := Deleting)).(queue := s.queue + [Delete(a.node, run)])
  }

  function Updated(records: map<string, Packet>, u: Update): map<string, Packet> {
    match u
    case Upsert(node, session) =>
      records[node := Packet(session, node in records && records[node].acknowledged)]
    case Acknowledge(node) =>
      if node in records then records[node := records[node].(acknowledged := true)] else records
    case Discard(node) => records - {node}
    case Delete(node, _) => records - {node}
  }

  /** The store takes the next update of its queue; a failed one changes no record. */
  function StoreStep(s: Service, ok: bool): Service {
    if s.queue == [] then s
    else
      var u := s.queue[0];
      var s' := s.(queue := s.queue[1..], records := if ok then Updated(s.records, u) else s.records);
      if u.Delete? && In(s, u.run, Deleting) then
        With(s', u.run, s.attempts[u.run].(phase := Ending(if ok then Continued else Unavailable)))
      else s'
  }

  function Complete(s: Service, run: nat): Service {
    if run >= |s.attempts| || !s.attempts[run].phase.Ending? then s
    else
      var a := s.attempts[run];
      With(s, run, a.(phase := Finished(a.phase.result))).(retries := s.retries - {a.node})
  }

  datatype Op =
    | Event(node: string, session: string, codex: bool, phase: EventPhase)
    | Continue(node: string)
    | ReadStore(run: nat, readable: bool)
    | StartDelivery(run: nat, ready: bool)
    | DeliveryResolves(run: nat, ok: bool)
    | TimerFires(run: nat)
    | QueueDelete(run: nat)
    | RunUpdate(ok: bool)
    | Settle(run: nat)
    | Ack(node: string)
    | Drop(node: string)

  function Apply(s: Service, op: Op): Service {
    match op
    case Event(node, session, codex, phase) => Observe(s, node, session, codex, phase)
    case Continue(node) => Begin(s, node)
    case ReadStore(run, readable) => Look(s, run, readable)
    case StartDelivery(run, ready) => Resume(s, run, ready)
    case DeliveryResolves(run, ok) => Delivered(s, run, ok)
    case TimerFires(run) => Timeout(s, run)
    case QueueDelete(run) => Proceed(s, run)
    case RunUpdate(ok) => StoreStep(s, ok)
    case Settle(run) => Complete(s, run)
    case Ack(node) => if ValidId(node) then s.(queue := s.queue + [Acknowledge(node)]) else s
    case Drop(node) => if ValidId(node) then s.(queue := s.queue + [Discard(node)]) else s
  }

  /** A store that may already hold packets, all with valid identifiers. */
  predicate ValidRecords(records: map<string, Packet>) {
    forall n :: n in records ==> ValidId(n) && ValidId(records[n].session)
  }

  function Initial(records: map<string, Packet>): Service {
    Service(map[], map[], map[], records, [], [], [])
  }

  function Run(records: map<string, Packet>, ops: seq<Op>): Service {
    if ops == [] then Initial(records) else Apply(Run(records, ops[..|ops| - 1]), ops[|ops| - 1])
  }

  // ---- the invariant ------------------------------------------------------------------------

  /** How many of the turn starts carry the key. */
  function CountStarts(starts: seq<(string, string)>, key: string): nat {
    if starts == [] then 0
    else
      var (n, s) := starts[|starts| - 1];
      CountStarts(starts[..|starts| - 1], key) + (if Key(n, s) == key then 1 else 0)
  }

  ghost predicate SequencesCount(s: Service) {
    && (forall key :: SequenceOf(s.sequences, key) == CountStarts(s.starts, key))
    && (forall i :: 0 <= i < |s.starts| ==> ValidId(s.starts[i].0) && ValidId(s.starts[i].1))
  }

  /** The receipt sequence read before delivery was the number of turn starts at its mark. */
  predicate Marked(a: Attempt, starts: seq<(string, string)>) {
    && ValidId(a.session) && a.started == 1
    && a.mark <= |starts| && a.since == CountStarts(starts[..a.mark], KeyOf(a))
  }

  /** Delivered once, and a receipt has come in since the mark. */
  predicate Receipted(a: Attempt, starts: seq<(string, string)>) {
    Marked(a, starts) && a.delivered == 1 && CountStarts(starts, KeyOf(a)) > a.since
  }

  /** Delivered once, and no receipt came in between the mark and the end of the wait. */
  predicate WaitedInVain(a: Attempt, starts: seq<(string, string)>) {
    && Marked(a, starts) && a.delivered == 1
    && a.mark <= a.until <= |starts|
    && CountStarts(starts[..a.until], KeyOf(a)) == a.since
  }

  predicate AttemptSound(a: Attempt, starts: seq<(string, string)>) {
    && ValidId(a.node)
    && a.delivered <= a.started <= 1
    && match a.phase
       case Reading => a.started == 0
       case Looked(found) => a.started == 0 && (found ==> ValidId(a.session))
       case Delivering => Marked(a, starts) && a.delivered == 0
       case Waiting => Marked(a, starts) && a.delivered == 1 && CountStarts(starts, KeyOf(a)) == a.since
       case Received => Receipted(a, starts)
       case Deleting => Receipted(a, starts)
       case Ending(r) => (r.Continued? ==> Receipted(a, starts)) && (r.ReceiptTimeout? ==> WaitedInVain(a, starts))
       case Finished(r) => (r.Continued? ==> Receipted(a, starts)) && (r.ReceiptTimeout? ==> WaitedInVain(a, starts))
  }

  ghost predicate AttemptsSound(s: Service) {
    forall r :: 0 <= r < |s.attempts| ==> AttemptSound(s.attempts[r], s.starts)
  }

  /** The registered waiters are exactly the waiting attempts, each under its own key. */
  ghost predicate WaitersExact(s: Service) {
    forall key: string, r: nat :: WaiterExact(s, key, r)
  }

  predicate WaiterExact(s: Service, key: string, r: nat) {
    r in WaitersOf(s.waiters, key) <==> In(s, r, Waiting) && KeyOf(s.attempts[r]) == key
  }

  /** One unfinished attempt for every node in the retry map, and no other. */
  ghost predicate RetriesExact(s: Service) {
    && (forall r :: 0 <= r < |s.attempts| && !s.attempts[r].phase.Finished? ==>
          s.attempts[r].node in s.retries && s.retries[s.attempts[r].node] == r)
    && (forall n :: n in s.retries ==>
          s.retries[n] < |s.attempts| && s.attempts[s.retries[n]].node == n
          && !s.attempts[s.retries[n]].phase.Finished?)
  }

  /** Every queued deletion belongs to an attempt that is deleting its own node's packet. */
  ghost predicate QueueSound(s: Service) {
    forall i :: 0 <= i < |s.queue| ==>
      match s.queue[i]
      case Upsert(node, session) => ValidId(node) && ValidId(session)
      case Delete(node, run) =>
        && In(s, run, Deleting) && s.attempts[run].node == node
        && (forall j :: 0 <= j < |s.queue| && s.queue[j].Delete? && s.queue[j].run == run ==> j == i)
      case _ => true
  }

  ghost predicate Sound(s: Service) {
    && SequencesCount(s) && AttemptsSound(s) && WaitersExact(s) && RetriesExact(s) && QueueSound(s)
    && ValidRecords(s.records)
  }

  // ---- counting -----------------------------------------------------------------------------

  lemma CountSnoc(starts: seq<(string, string)>, p: (string, string), key: string)
    ensures CountStarts(starts + [p], key) == CountStarts(starts, key) + (if Key(p.0, p.1) == key then 1 else 0)
  {
    assert (starts + [p])[..|starts|] == starts;
  }

  /** More starts at the end than at the mark means one in between. */
  lemma {:induction false} StartBetween(starts: seq<(string, string)>, mark: nat, node: string, session: string)
    requires forall i :: 0 <= i < |starts| ==> ValidId(starts[i].0)
    requires ValidId(node) && mark <= |starts|
    requires CountStarts(starts, Key(node, session)) > CountStarts(starts[..mark], Key(node, session))
    ensures exists i :: mark <= i < |starts| && starts[i] == (node, session)
  {
    assert starts[..|starts|] == starts;
    var last := |starts| - 1;
    if Key(starts[last].0, starts[last].1) == Key(node, session) {
      KeyInjective(starts[last].0, starts[last].1, node, session);
    } else {
      assert starts[..last][..mark] == starts[..mark];
      StartBetween(starts[..last], mark, node, session);
      var i :| mark <= i < last && starts[..last][i] == (node, session);
      assert starts[i] == (node, session);
    }
  }

  /** As many at the end as at the mark means none in between. */
  lemma {:induction false} NoStartBetween(starts: seq<(string, string)>, mark: nat, until: nat, node: string,
      session: string)
    requires mark <= until <= |starts|
    requires CountStarts(starts[..until], Key(node, session)) == CountStarts(starts[..mark], Key(node, session))
    ensures forall i :: mark <= i < until ==> starts[i] != (node, session)
  {
    if mark < until {
      assert starts[..until][..until - 1] == starts[..until - 1];
      CountGrows(starts, mark, until - 1, Key(node, session));
      NoStartBetween(starts, mark, until - 1, node, session);
    }
  }

  lemma {:induction false} CountGrows(starts: seq<(string, string)>, mark: nat, until: nat, key: string)
    requires mark <= until <= |starts|
    ensures CountStarts(starts[..mark], key) <= CountStarts(starts[..until], key)
  {
    if mark < until {
      assert starts[..until][..until - 1] == starts[..until - 1];
      CountGrows(starts, mark, until - 1, key);
    }
  }

  // ---- every step keeps it ------------------------------------------------------------------

  /** What an attempt has established stays established when another turn start is observed. */
  lemma SoundAfterStart(a: Attempt, starts: seq<(string, string)>, p: (string, string))
    requires AttemptSound(a, starts)
    requires a.phase.Waiting? ==> Key(p.0, p.1) != KeyOf(a)
    ensures AttemptSound(a, starts + [p])
  {
    CountSnoc(starts, p, KeyOf(a));
    assert a.mark <= |starts| ==> (starts + [p])[..a.mark] == starts[..a.mark];
    assert a.until <= |starts| ==> (starts + [p])[..a.until] == starts[..a.until];
  }

  lemma WokenAfterStart(a: Attempt, starts: seq<(string, string)>, p: (string, string))
    requires AttemptSound(a, starts) && a.phase.Waiting? && Key(p.0, p.1) == KeyOf(a)
    ensures AttemptSound(a.(phase := Received), starts + [p])
  {
    CountSnoc(starts, p, KeyOf(a));
    assert (starts + [p])[..a.mark] == starts[..a.mark];
    assert KeyOf(a.(phase := Received)) == KeyOf(a);
  }

  lemma ReceiptAttempts(s: Service, node: string, session: string)
    requires Sound(s)
    ensures AttemptsSound(Receipt(s, node, session))
  {
    var s', p := Receipt(s, node, session), (node, session);
    forall r: nat | r < |s.attempts| ensures AttemptSound(s'.attempts[r], s'.starts) {
      assert WaiterExact(s, Key(node, session), r);
      if r in WaitersOf(s.waiters, Key(node, session)) {
        WokenAfterStart(s.attempts[r], s.starts, p);
      } else {
        SoundAfterStart(s.attempts[r], s.starts, p);
      }
    }
  }

  lemma ReceiptCounts(s: Service, node: string, session: string)
    requires SequencesCount(s) && ValidId(node) && ValidId(session)
    ensures SequencesCount(Receipt(s, node, session))
  {
    var s' := Receipt(s, node, session);
    forall key ensures SequenceOf(s'.sequences, key) == CountStarts(s'.starts, key) {
      CountSnoc(s.starts, (node, session), key);
      assert SequenceOf(s.sequences, key) == CountStarts(s.starts, key);
    }
  }

  lemma ReceiptRest(s: Service, node: string, session: string)
    requires Sound(s)
    ensures var s' := Receipt(s, node, session);
            WaitersExact(s') && RetriesExact(s') && QueueSound(s') && ValidRecords(s'.records)
  {
    var s' := Receipt(s, node, session);
    forall r | 0 <= r < |s.attempts|
      ensures s'.attempts[r].node == s.attempts[r].node
      ensures s'.attempts[r].phase.Finished? <==> s.attempts[r].phase.Finished?
      ensures s.attempts[r].phase.Deleting? ==> s'.attempts[r].phase.Deleting?
    {
      assert WaiterExact(s, Key(node, session), r);
    }
    ReceiptWaiters(s, node, session);
  }

  lemma ReceiptWaiters(s: Service, node: string, session: string)
    requires WaitersExact(s)
    ensures WaitersExact(Receipt(s, node, session))
  {
    var s', k := Receipt(s, node, session), Key(node, session);
    forall key: string, r: nat ensures WaiterExact(s', key, r) {
      assert WaiterExact(s, key, r) && WaiterExact(s, k, r);
      assert r < |s.attempts| ==> KeyOf(s'.attempts[r]) == KeyOf(s.attempts[r]);
    }
  }

  lemma EnqueueSound(s: Service, u: Update)
    requires Sound(s) && !u.Delete? && (u.Upsert? ==> ValidId(u.node) && ValidId(u.session))
    ensures Sound(s.(queue := s.queue + [u]))
  {
    var s' := s.(queue := s.queue + [u]);
    forall key: string, r: nat ensures WaiterExact(s', key, r) { assert WaiterExact(s, key, r); }
  }

  lemma ObserveSound(s: Service, node: string, session: string, codex: bool, phase: EventPhase)
    requires Sound(s)
    ensures Sound(Observe(s, node, session, codex, phase))
  {
    if codex && ValidId(node) && ValidId(session) && !phase.ProviderStart? {
      if phase.TurnStart? {
        ReceiptAttempts(s, node, session);
        ReceiptCounts(s, node, session);
        ReceiptRest(s, node, session);
        EnqueueSound(Receipt(s, node, session), Upsert(node, session));
      } else {
        EnqueueSound(s, Upsert(node, session));
      }
    }
  }

  lemma BeginSound(s: Service, node: string)
    requires Sound(s)
    ensures Sound(Begin(s, node))
  {
    var s' := Begin(s, node);
    if s' != s {
      assert forall r :: 0 <= r < |s.attempts| ==> s'.attempts[r] == s.attempts[r];
      forall key: string, r: nat ensures WaiterExact(s', key, r) { assert WaiterExact(s, key, r); }
    }
  }

  // One attempt moves from `was` to `a`: what each part of the invariant asks of the rest.

  predicate Moves(s: Service, s': Service, run: nat, a: Attempt) {
    && run < |s.attempts| && s'.attempts == s.attempts[run := a]
    && s'.starts == s.starts && s'.sequences == s.sequences
    && a.node == s.attempts[run].node
  }

  lemma MovedAttempts(s: Service, s': Service, run: nat, a: Attempt)
    requires Moves(s, s', run, a) && AttemptsSound(s) && SequencesCount(s) && AttemptSound(a, s.starts)
    ensures AttemptsSound(s') && SequencesCount(s')
  {
  }

  lemma MovedWaiters(s: Service, s': Service, run: nat, a: Attempt)
    requires Moves(s, s', run, a) && WaitersExact(s)
    requires forall key :: WaitersOf(s'.waiters, key)
                        == WaitersOf(s.waiters, key) - {run}
                           + (if a.phase.Waiting? && KeyOf(a) == key then {run} else {})
    ensures WaitersExact(s')
  {
    forall key: string, r: nat ensures WaiterExact(s', key, r) { assert WaiterExact(s, key, r); }
  }

  /** An attempt that waits neither before nor after leaves the waiters alone. */
  lemma UnmovedWaiters(s: Service, s': Service, run: nat, a: Attempt)
    requires Moves(s, s', run, a) && WaitersExact(s) && s'.waiters == s.waiters
    requires !s.attempts[run].phase.Waiting? && !a.phase.Waiting?
    ensures WaitersExact(s')
  {
    forall key ensures run !in WaitersOf(s.waiters, key) { assert WaiterExact(s, key, run); }
    MovedWaiters(s, s', run, a);
  }

  lemma MovedRetries(s: Service, s': Service, run: nat, a: Attempt)
    requires Moves(s, s', run, a) && RetriesExact(s) && !s.attempts[run].phase.Finished?
    requires s'.retries == if a.phase.Finished? then s.retries - {a.node} else s.retries
    ensures RetriesExact(s')
  {
  }

  /** The attempt may start deleting only together with its queued deletion, and stop only once
      that has left the queue. */
  lemma MovedQueue(s: Service, s': Service, run: nat, a: Attempt)
    requires Moves(s, s', run, a) && QueueSound(s)
    requires s'.queue == s.queue && !s.attempts[run].phase.Deleting?
    ensures QueueSound(s')
  {
  }

  /** A step of one attempt that leaves waiters, queue and retries alone. */
  lemma MoveSound(s: Service, run: nat, a: Attempt)
    requires Sound(s) && run < |s.attempts|
    requires a.node == s.attempts[run].node && AttemptSound(a, s.starts)
    requires !s.attempts[run].phase.Waiting? && !a.phase.Waiting?
    requires !s.attempts[run].phase.Deleting?
    requires !s.attempts[run].phase.Finished? && !a.phase.Finished?
    ensures Sound(With(s, run, a))
  {
    var s' := With(s, run, a);
    MovedAttempts(s, s', run, a);
    UnmovedWaiters(s, s', run, a);
    MovedRetries(s, s', run, a);
    MovedQueue(s, s', run, a);
  }

  lemma LookSound(s: Service, run: nat, readable: bool)
    requires Sound(s)
    ensures Sound(Look(s, run, readable))
  {
    if In(s, run, Reading) {
      assert AttemptSound(s.attempts[run], s.starts);
      MoveSound(s, run, Look(s, run, readable).attempts[run]);
    }
  }

  lemma ResumeSound(s: Service, run: nat, ready: bool)
    requires Sound(s)
    ensures Sound(Resume(s, run, ready))
  {
    if run < |s.attempts| && s.attempts[run].phase.Looked? {
      var a := s.attempts[run];
      assert AttemptSound(a, s.starts);
      assert s.starts[..|s.starts|] == s.starts;
      assert SequenceOf(s.sequences, KeyOf(a)) == CountStarts(s.starts, KeyOf(a));
      assert KeyOf(Resume(s, run, ready).attempts[run]) == KeyOf(a);
      MoveSound(s, run, Resume(s, run, ready).attempts[run]);
    }
  }

  lemma DeliveredSound(s: Service, run: nat, ok: bool)
    requires Sound(s)
    ensures Sound(Delivered(s, run, ok))
  {
    if In(s, run, Delivering) {
      var s', a := Delivered(s, run, ok), s.attempts[run];
      var b := s'.attempts[run];
      DeliveredAttempt(s, run, ok);
      if b.phase.Waiting? {
        MovedAttempts(s, s', run, b);
        forall key ensures run !in WaitersOf(s.waiters, key) { assert WaiterExact(s, key, run); }
        MovedWaiters(s, s', run, b);
        MovedRetries(s, s', run, b);
        MovedQueue(s, s', run, b);
      } else {
        MoveSound(s, run, b);
      }
    }
  }

  lemma DeliveredAttempt(s: Service, run: nat, ok: bool)
    requires Sound(s) && In(s, run, Delivering)
    ensures AttemptSound(Delivered(s, run, ok).attempts[run], s.starts)
  {
    var a := s.attempts[run];
    assert AttemptSound(a, s.starts);
    assert KeyOf(Delivered(s, run, ok).attempts[run]) == KeyOf(a);
    assert SequenceOf(s.sequences, KeyOf(a)) == CountStarts(s.starts, KeyOf(a));
    assert s.starts[..|s.starts|] == s.starts;
    CountGrows(s.starts, a.mark, |s.starts|, KeyOf(a));
  }

  lemma TimeoutSound(s: Service, run: nat)
    requires Sound(s)
    ensures Sound(Timeout(s, run))
  {
    if In(s, run, Waiting) {
      var s', a := Timeout(s, run), s.attempts[run];
      var b := s'.attempts[run];
      assert AttemptSound(a, s.starts);
      assert s.starts[..|s.starts|] == s.starts && KeyOf(b) == KeyOf(a);
      MovedAttempts(s, s', run, b);
      forall key ensures WaitersOf(s'.waiters, key) == WaitersOf(s.waiters, key) - {run} {
        assert WaiterExact(s, key, run);
      }
      MovedWaiters(s, s', run, b);
      MovedRetries(s, s', run, b);
      MovedQueue(s, s', run, b);
    }
  }

  lemma ProceedSound(s: Service, run: nat)
    requires Sound(s)
    ensures Sound(Proceed(s, run))
  {
    if In(s, run, Received) {
      var s', a := Proceed(s, run), s.attempts[run];
      var b := s'.attempts[run];
      assert AttemptSound(a, s.starts) && KeyOf(b) == KeyOf(a);
      MovedAttempts(s, s', run, b);
      UnmovedWaiters(s, s', run, b);
      MovedRetries(s, s', run, b);
      QueuedOnce(s, s', run);
    }
  }

  lemma QueuedOnce(s: Service, s': Service, run: nat)
    requires Sound(s) && In(s, run, Received) && s' == Proceed(s, run)
    ensures QueueSound(s')
  {
    forall i | 0 <= i < |s.queue| ensures s'.queue[i] == s.queue[i] && !(s.queue[i].Delete? && s.queue[i].run == run) {}
  }

  lemma DequeueSound(s: Service, records: map<string, Packet>)
    requires Sound(s) && s.queue != [] && !s.queue[0].Delete? && ValidRecords(records)
    ensures Sound(s.(queue := s.queue[1..], records := records))
  {
    var s' := s.(queue := s.queue[1..], records := records);
    forall key: string, r: nat ensures WaiterExact(s', key, r) { assert WaiterExact(s, key, r); }
    TailSound(s, s');
  }

  /** The queue without its head is sound when only the attempt the head may belong to has moved. */
  lemma TailSound(s: Service, s': Service)
    requires QueueSound(s) && s.queue != [] && s'.queue == s.queue[1..]
    requires |s'.attempts| == |s.attempts|
    requires forall r :: 0 <= r < |s.attempts| && !(s.queue[0].Delete? && s.queue[0].run == r) ==>
               s'.attempts[r] == s.attempts[r]
    ensures QueueSound(s')
  {
    assert forall i :: 0 <= i < |s'.queue| ==> s'.queue[i] == s.queue[i + 1];
    forall i | 0 <= i < |s'.queue| && s'.queue[i].Delete?
      ensures In(s', s'.queue[i].run, Deleting) && s'.attempts[s'.queue[i].run].node == s'.queue[i].node
      ensures forall j :: 0 <= j < |s'.queue| && s'.queue[j].Delete? && s'.queue[j].run == s'.queue[i].run ==> j == i
    {
      assert s.queue[i + 1].Delete?;
      assert s.queue[0].Delete? ==> s.queue[0].run != s.queue[i + 1].run;
    }
  }

  lemma DeleteSound(s: Service, ok: bool)
    requires Sound(s) && s.queue != [] && s.queue[0].Delete?
    ensures Sound(StoreStep(s, ok))
  {
    var s', run := StoreStep(s, ok), s.queue[0].run;
    var a, b := s.attempts[run], s'.attempts[run];
    assert AttemptSound(a, s.starts) && KeyOf(b) == KeyOf(a);
    MovedAttempts(s, s', run, b);
    UnmovedWaiters(s, s', run, b);
    MovedRetries(s, s', run, b);
    TailSound(s, s');
  }

  lemma StoreSound(s: Service, ok: bool)
    requires Sound(s)
    ensures Sound(StoreStep(s, ok))
  {
    if s.queue != [] {
      if s.queue[0].Delete? {
        DeleteSound(s, ok);
      } else {
        DequeueSound(s, StoreStep(s, ok).records);
      }
    }
  }

  lemma CompleteSound(s: Service, run: nat)
    requires Sound(s)
    ensures Sound(Complete(s, run))
  {
    if run < |s.attempts| && s.attempts[run].phase.Ending? {
      var s', a := Complete(s, run), s.attempts[run];
      var b := s'.attempts[run];
      assert AttemptSound(a, s.starts) && KeyOf(b) == KeyOf(a);
      MovedAttempts(s, s', run, b);
      UnmovedWaiters(s, s', run, b);
      MovedRetries(s, s', run, b);
      MovedQueue(s, s', run, b);
    }
  }

  lemma ApplySound(s: Service, op: Op)
    requires Sound(s)
    ensures Sound(Apply(s, op))
  {
    match op
    case Event(node, session, codex, phase) => ObserveSound(s, node, session, codex, phase);
    case Continue(node) => BeginSound(s, node);
    case ReadStore(run, readable) => LookSound(s, run, readable);
    case StartDelivery(run, ready) => ResumeSound(s, run, ready);
    case DeliveryResolves(run, ok) => DeliveredSound(s, run, ok);
    case TimerFires(run) => TimeoutSound(s, run);
    case QueueDelete(run) => ProceedSound(s, run);
    case RunUpdate(ok) => StoreSound(s, ok);
    case Settle(run) => CompleteSound(s, run);
    case Ack(node) => if ValidId(node) { EnqueueSound(s, Acknowledge(node)); }
    case Drop(node) => if ValidId(node) { EnqueueSound(s, Discard(node)); }
  }

  lemma {:induction false} RunSound(records: map<string, Packet>, ops: seq<Op>)
    requires ValidRecords(records)
    ensures Sound(Run(records, ops))
  {
    if ops != [] {
      RunSound(records, ops[..|ops| - 1]);
      ApplySound(Run(records, ops[..|ops| - 1]), ops[|ops| - 1]);
    }
  }

  // ---- main results -------------------------------------------------------------------------

  /** A turn start of exactly this attempt's node and session, observed after its pre-delivery
      sequence was read. */
  predicate OwnReceipt(a: Attempt, starts: seq<(string, string)>) {
    exists i :: a.mark <= i < |starts| && starts[i] == (a.node, a.session)
  }

  /** In every interleaving a queued deletion belongs to an attempt that delivered exactly once and
      has its own receipt: the packet of no other node goes, and no foreign receipt sufficed. */
  lemma DeletionJustified(records: map<string, Packet>, ops: seq<Op>, i: nat)
    requires ValidRecords(records)
    requires var s := Run(records, ops); i < |s.queue| && s.queue[i].Delete?
    ensures var s := Run(records, ops);
            var run := s.queue[i].run;
            && run < |s.attempts| && s.attempts[run].node == s.queue[i].node
            && s.attempts[run].started == 1 && s.attempts[run].delivered == 1
            && OwnReceipt(s.attempts[run], s.starts)
  {
    var s := Run(records, ops);
    RunSound(records, ops);
    var a := s.attempts[s.queue[i].run];
    assert AttemptSound(a, s.starts);
    StartBetween(s.starts, a.mark, a.node, a.session);
  }

  /** A continuation that reports success delivered exactly once and has its own receipt; one that
      reports a timeout delivered exactly once, and no such receipt came in before the timer. */
  lemma ResultsAreTruthful(records: map<string, Packet>, ops: seq<Op>, run: nat)
    requires ValidRecords(records)
    requires var s := Run(records, ops); run < |s.attempts| && s.attempts[run].phase.Finished?
    ensures var s := Run(records, ops);
            var a := s.attempts[run];
            && (a.phase.result.Continued? ==> a.delivered == 1 && OwnReceipt(a, s.starts))
            && (a.phase.result.ReceiptTimeout? ==>
                  && a.delivered == 1 && a.mark <= a.until <= |s.starts|
                  && forall i :: a.mark <= i < a.until ==> s.starts[i] != (a.node, a.session))
  {
    var s := Run(records, ops);
    RunSound(records, ops);
    var a := s.attempts[run];
    assert AttemptSound(a, s.starts);
    if a.phase.result.Continued? { StartBetween(s.starts, a.mark, a.node, a.session); }
    if a.phase.result.ReceiptTimeout? { NoStartBetween(s.starts, a.mark, a.until, a.node, a.session); }
  }

  /** The step `op` is what ends the attempt with the result. */
  predicate Causes(s: Service, op: Op, run: nat, result: Outcome)
    requires run < |s.attempts|
  {
    var a := s.attempts[run];
    match result
    case Continued => op == RunUpdate(true) && OwnDeletionNext(s, run)
    case Unavailable =>
      (op == ReadStore(run, false) && a.phase.Reading?) || (op == RunUpdate(false) && OwnDeletionNext(s, run))
    case NotFound => op.StartDelivery? && op.run == run && a.phase == Looked(false)
    case ProviderNotReady => op == StartDelivery(run, false) && a.phase == Looked(true)
    case DeliveryFailed => op == DeliveryResolves(run, false) && a.phase.Delivering?
    case ReceiptTimeout => op == TimerFires(run) && a.phase.Waiting?
  }

  /** The next update of the store is the attempt's own deletion. */
  predicate OwnDeletionNext(s: Service, run: nat)
    requires run < |s.attempts|
  {
    s.queue != [] && s.queue[0] == Delete(s.attempts[run].node, run)
  }

  predicate CausedAt(records: map<string, Packet>, ops: seq<Op>, run: nat, result: Outcome, i: nat)
    requires i < |ops|
  {
    var s := Run(records, ops[..i]);
    run < |s.attempts| && Causes(s, ops[i], run, result)
  }

  function ResultOf(a: Attempt): Option<Outcome> {
    if a.phase.Ending? || a.phase.Finished? then Some(a.phase.result) else None
  }

  /** What a step may do to an attempt: give it a result by causing it, take up what it reads, and
      otherwise leave both as they were. */
  predicate StepsRightly(s: Service, op: Op, run: nat) {
    var s' := Apply(s, op);
    run < |s'.attempts| ==>
      if run >= |s.attempts| then s'.attempts[run].phase.Reading? && s'.attempts[run].started == 0
      else
        var a, b := s.attempts[run], s'.attempts[run];
        && (ResultOf(b).Some? ==> ResultOf(a) == ResultOf(b) || Causes(s, op, run, ResultOf(b).value))
        && a.node == b.node
        && (!(op == ReadStore(run, true) && a.phase.Reading?) ==>
              && a.session == b.session
              && (b.phase.Looked? ==> a.phase == b.phase)
              && (b.started > 0 ==> a.started > 0 || a.phase == Looked(true)))
  }

  lemma StepRightly(s: Service, op: Op, run: nat)
    requires Sound(s)
    ensures StepsRightly(s, op, run)
  {
    match op
    case Event(node, session, codex, phase) => EventRightly(s, node, session, codex, phase, run);
    case Continue(_) =>
    case ReadStore(r, readable) => LookRightly(s, r, readable, run);
    case StartDelivery(r, ready) => ResumeRightly(s, r, ready, run);
    case DeliveryResolves(r, ok) => DeliveredRightly(s, r, ok, run);
    case TimerFires(r) => TimeoutRightly(s, r, run);
    case QueueDelete(r) => ProceedRightly(s, r, run);
    case RunUpdate(ok) => UpdateRightly(s, ok, run);
    case Settle(r) => CompleteRightly(s, r, run);
    case Ack(_) =>
    case Drop(_) =>
  }

  lemma EventRightly(s: Service, node: string, session: string, codex: bool, phase: EventPhase, run: nat)
    requires Sound(s)
    ensures StepsRightly(s, Event(node, session, codex, phase), run)
  {
    if run < |s.attempts| { assert WaiterExact(s, Key(node, session), run); }
  }

  lemma LookRightly(s: Service, r: nat, readable: bool, run: nat)
    ensures StepsRightly(s, ReadStore(r, readable), run)
  {
  }

  lemma ResumeRightly(s: Service, r: nat, ready: bool, run: nat)
    ensures StepsRightly(s, StartDelivery(r, ready), run)
  {
  }

  lemma DeliveredRightly(s: Service, r: nat, ok: bool, run: nat)
    ensures StepsRightly(s, DeliveryResolves(r, ok), run)
  {
  }

  lemma TimeoutRightly(s: Service, r: nat, run: nat)
    ensures StepsRightly(s, TimerFires(r), run)
  {
  }

  lemma ProceedRightly(s: Service, r: nat, run: nat)
    ensures StepsRightly(s, QueueDelete(r), run)
  {
  }

  lemma UpdateRightly(s: Service, ok: bool, run: nat)
    requires Sound(s)
    ensures StepsRightly(s, RunUpdate(ok), run)
  {
    if s.queue != [] && s.queue[0].Delete? { assert s.queue[0].run < |s.attempts|; }
  }

  lemma CompleteRightly(s: Service, r: nat, run: nat)
    ensures StepsRightly(s, Settle(r), run)
  {
  }

  /** Every result has its cause: success, that the attempt's own deletion has run and succeeded; no
      packet available, that the store could not be read or that deletion failed; and the others, no
      packet read, a provider that was not ready, a failed delivery, or the timer. */
  lemma {:induction false} ResultsHaveCauses(records: map<string, Packet>, ops: seq<Op>, run: nat)
    requires ValidRecords(records) && run < |Run(records, ops).attempts|
    requires ResultOf(Run(records, ops).attempts[run]).Some?
    ensures var result := ResultOf(Run(records, ops).attempts[run]).value;
            exists i :: 0 <= i < |ops| && CausedAt(records, ops, run, result, i)
  {
    var n := |ops| - 1;
    var front := ops[..n];
    var result := ResultOf(Run(records, ops).attempts[run]);
    RunSound(records, front);
    StepRightly(Run(records, front), ops[n], run);
    if Causes(Run(records, front), ops[n], run, result.value) {
      assert CausedAt(records, ops, run, result.value, n);
    } else {
      ResultsHaveCauses(records, front, run);
      var i :| 0 <= i < n && CausedAt(records, front, run, result.value, i);
      assert front[..i] == ops[..i];
      assert CausedAt(records, ops, run, result.value, i);
    }
  }

  /** What an attempt has read is what the store held: the session of its node's packet, or none. */
  lemma {:induction false} ReadIsStored(records: map<string, Packet>, ops: seq<Op>, run: nat)
    requires ValidRecords(records) && run < |Run(records, ops).attempts|
    requires Run(records, ops).attempts[run].phase.Looked? || Run(records, ops).attempts[run].started > 0
    ensures exists i :: 0 <= i < |ops| && ReadAt(records, ops, run, i)
  {
    var n := |ops| - 1;
    var front := ops[..n];
    RunSound(records, front);
    StepRightly(Run(records, front), ops[n], run);
    if ops[n] == ReadStore(run, true) && In(Run(records, front), run, Reading) {
      assert ReadAt(records, ops, run, n);
    } else {
      ReadIsStored(records, front, run);
      var i :| 0 <= i < n && ReadAt(records, front, run, i);
      assert front[..i] == ops[..i];
      assert ReadAt(records, ops, run, i);
    }
  }

  /** Step `i` reads the store for the attempt, which goes on to have what was there. */
  predicate ReadAt(records: map<string, Packet>, ops: seq<Op>, run: nat, i: nat)
    requires i < |ops| && run < |Run(records, ops).attempts|
  {
    var s, a := Run(records, ops[..i]), Run(records, ops).attempts[run];
    && ops[i] == ReadStore(run, true)
    && (a.phase.Looked? ==> (a.phase.found <==> a.node in s.records))
    && (a.started > 0 || a.phase == Looked(true) ==> a.node in s.records && a.session == s.records[a.node].session)
  }

  /** The turn starts a run observes: those of the provider it continues, with valid identifiers. */
  function TurnStarts(ops: seq<Op>): seq<(string, string)> {
    if ops == [] then []
    else
      var op := ops[|ops| - 1];
      TurnStarts(ops[..|ops| - 1])
      + (if op.Event? && op.codex && op.phase == TurnStart && ValidId(op.node) && ValidId(op.session)
         then [(op.node, op.session)] else [])
  }

  /** Only those count as receipts: no other event of a turn, and none of another provider. */
  lemma {:induction false} ReceiptsAreTurnStarts(records: map<string, Packet>, ops: seq<Op>)
    ensures Run(records, ops).starts == TurnStarts(ops)
  {
    if ops != [] {
      var n := |ops| - 1;
      ReceiptsAreTurnStarts(records, ops[..n]);
      StartsStep(Run(records, ops[..n]), ops[n]);
    }
  }

  lemma StartsStep(s: Service, op: Op)
    ensures Apply(s, op).starts
         == s.starts + (if op.Event? && op.codex && op.phase == TurnStart && ValidId(op.node) && ValidId(op.session)
                        then [(op.node, op.session)] else [])
  {
    assert s.starts + [] == s.starts;
  }

  /** An event that is no turn start wakes nothing and counts nothing. */
  lemma OtherEventsWakeNothing(s: Service, node: string, session: string, codex: bool, phase: EventPhase)
    requires phase != TurnStart || !codex
    ensures var s' := Apply(s, Event(node, session, codex, phase));
            && s'.attempts == s.attempts && s'.sequences == s.sequences
            && s'.waiters == s.waiters && s'.starts == s.starts
  {
  }

  /** No wake-up is lost. An attempt that waits has had no receipt yet; its own turn start wakes
      it, whatever else waits; any other turn start leaves it waiting. */
  lemma WaiterIsWoken(records: map<string, Packet>, ops: seq<Op>, run: nat, node: string, session: string)
    requires ValidRecords(records) && In(Run(records, ops), run, Waiting)
    requires ValidId(node) && ValidId(session)
    ensures var s := Run(records, ops);
            var a, b := s.attempts[run], Apply(s, Event(node, session, true, TurnStart)).attempts[run];
            && !OwnReceipt(a, s.starts)
            && b.phase == if (node, session) == (a.node, a.session) then Received else Waiting
  {
    var s := Run(records, ops);
    RunSound(records, ops);
    var a := s.attempts[run];
    assert AttemptSound(a, s.starts) && s.starts[..|s.starts|] == s.starts;
    NoStartBetween(s.starts, a.mark, |s.starts|, a.node, a.session);
    assert WaiterExact(s, Key(node, session), run);
    if Key(node, session) == KeyOf(a) { KeyInjective(node, session, a.node, a.session); }
    ReceiptWakes(s, node, session, run);
  }

  lemma ReceiptWakes(s: Service, node: string, session: string, run: nat)
    requires In(s, run, Waiting) && ValidId(node) && ValidId(session)
    ensures Apply(s, Event(node, session, true, TurnStart)).attempts[run].phase
         == if run in WaitersOf(s.waiters, Key(node, session)) then Received else Waiting
  {
  }

  /** A receipt that precedes the waiter is not missed either: when the delivery resolves, the
      attempt waits exactly if its own turn start has not been observed since the mark. */
  lemma EarlyReceiptIsSeen(records: map<string, Packet>, ops: seq<Op>, run: nat)
    requires ValidRecords(records) && In(Run(records, ops), run, Delivering)
    ensures var s := Run(records, ops);
            Apply(s, DeliveryResolves(run, true)).attempts[run].phase
            == if OwnReceipt(s.attempts[run], s.starts) then Received else Waiting
  {
    var s := Run(records, ops);
    RunSound(records, ops);
    var a := s.attempts[run];
    assert AttemptSound(a, s.starts) && s.starts[..|s.starts|] == s.starts;
    assert SequenceOf(s.sequences, KeyOf(a)) == CountStarts(s.starts, KeyOf(a));
    if SequenceOf(s.sequences, KeyOf(a)) > a.since {
      StartBetween(s.starts, a.mark, a.node, a.session);
    } else {
      CountGrows(s.starts, a.mark, |s.starts|, KeyOf(a));
      NoStartBetween(s.starts, a.mark, |s.starts|, a.node, a.session);
    }
  }

  /** Overlapping continuations of one node are one attempt, and an attempt delivers at most once:
      asking again while it is unfinished changes nothing. */
  lemma OverlapsDeliverOnce(records: map<string, Packet>, ops: seq<Op>, p: nat, q: nat)
    requires ValidRecords(records)
    requires var s := Run(records, ops); p < |s.attempts| && q < |s.attempts|
    ensures var s := Run(records, ops);
            && s.attempts[p].delivered <= s.attempts[p].started <= 1
            && (!s.attempts[p].phase.Finished? ==> Apply(s, Continue(s.attempts[p].node)) == s)
            && (p != q && !s.attempts[p].phase.Finished? && !s.attempts[q].phase.Finished?
                ==> s.attempts[p].node != s.attempts[q].node)
  {
    RunSound(records, ops);
    assert AttemptSound(Run(records, ops).attempts[p], Run(records, ops).starts);
  }
}
