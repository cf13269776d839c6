/** Attachment sessions of the board log: blobs are saved under a session, committed with an entry,
    rolled back, or reaped when the session expires. Operations are serialised per project, so
    each is one step. */
module BoardSessions {

  import opened BoardLog
  import opened Wrappers

  const SESSION_TTL_MS: int := 600000

  datatype Session = Session(expiresAt: int, reservedBytes: nat, ids: set<string>, consuming: bool)

  /** The project's log and sessions, the whole blobs on disk and the fragments failed uploads left
      there; and for the record every identifier ever handed out, every session that committed
      attachments, and the sessions whose expiry timer has yet to fire. */
  datatype Board = Board(
    trace: Trace, sessions: map<string, Session>, blobs: set<string>, fragments: set<string>,
    issued: set<string>, commits: seq<string>, due: set<string>)

  const EMPTY_BOARD := Board(EMPTY_TRACE, map[], {}, {}, {}, [], {})

  predicate Usable(b: Board, sid: string, now: int) {
    sid in b.sessions && !b.sessions[sid].consuming && b.sessions[sid].expiresAt > now
  }

  // ---- attachment references ----------------------------------------------------------------

  function IdsOf(attachments: seq<Attachment>): set<string> {
    set i | 0 <= i < |attachments| :: attachments[i].id
  }

  function References(e: Entry): set<string> {
    if e.attachments.None? then {} else IdsOf(e.attachments.value)
  }

  function AllReferences(es: seq<Entry>): set<string> {
    if es == [] then {} else AllReferences(es[..|es| - 1]) + References(es[|es| - 1])
  }

  lemma {:induction false} ReferencesIn(es: seq<Entry>, id: string)
    ensures id in AllReferences(es) <==> exists i :: 0 <= i < |es| && id in References(es[i])
  {
    if es != [] {
      var front := es[..|es| - 1];
      ReferencesIn(front, id);
      if i :| 0 <= i < |front| && id in References(front[i]) { assert es[i] == front[i]; }
      if i :| 0 <= i < |es| && id in References(es[i]) {
        if i < |front| { assert front[i] == es[i]; }
      }
    }
  }

  // ---- operations ---------------------------------------------------------------------------

  function CreateSession(b: Board, sid: string, now: int): Board {
    b.(sessions := b.sessions[sid := Session(now + SESSION_TTL_MS, 0, {}, false)],
       issued := b.issued + {sid}, due := b.due + {sid})
  }

  /** How writing an upload's file ends. A file that was opened and then fails its write or its size
      check stays behind. */
  datatype Upload = Stored | Cut | NotOpened

  predicate Fits(s: Session, size: Option<nat>) {
    && size.Some? && 0 < size.value <= MAX_BLOB_BYTES
    && s.reservedBytes + size.value <= MAX_TOTAL_BYTES
  }

  /** Saving an upload of `size` bytes, or one whose encoding or metadata is refused. A usable
      session records the blob once it is written; an unusable one is forgotten. */
  function SaveAttachment(b: Board, sid: string, size: Option<nat>, id: string, now: int,
      upload: Upload): (Board, bool) {
    if !Usable(b, sid, now) then (b.(sessions := b.sessions - {sid}), false)
    else
      var s := b.sessions[sid];
      if !Fits(s, size) then (b, false)
      else if upload.NotOpened? then (b.(issued := b.issued + {id}), false)
      else if upload.Cut? then (b.(fragments := b.fragments + {id}, issued := b.issued + {id}), false)
      else
        var s' := s.(reservedBytes := s.reservedBytes + size.value, ids := s.ids + {id});
        (b.(sessions := b.sessions[sid := s'], blobs := b.blobs + {id}, issued := b.issued + {id}), true)
  }

  predicate MayCommit(b: Board, e: Entry, now: int) {
    e.attachments.Some? ==>
      && e.sessionId.Some? && Usable(b, e.sessionId.value, now)
      && IdsOf(e.attachments.value) <= b.sessions[e.sessionId.value].ids
  }

  function Append(json: Codec, b: Board, op: AppendOp, now: int): (Board, bool) {
    var e := op.entry;
    if !Acceptable(json, e) || !MayCommit(b, e, now) then (b, false)
    else
      var b' := b.(trace := Step(json, b.trace, op));
      if !op.written then (b', false)
      else if e.sessionId.None? then (b', true)
      else
        (b'.(sessions := b.sessions - {e.sessionId.value},
             commits := if e.attachments.Some? then b.commits + [e.sessionId.value] else b.commits), true)
  }

  /** The attachment ids the current log file mentions; the rotated file is not consulted. */
  function UsedIds(json: Codec, log: Log): set<string> { AllReferences(Entries(json, Content(log.current))) }

  /** The removal loop: logged ids are skipped, and the first file that cannot be removed stops it. */
  function RemoveEach(s: Session, blobs: set<string>, ids: seq<string>, used: set<string>, stuck: set<string>)
    : (Session, set<string>, bool)
    decreases |ids|
  {
    if ids == [] then (s, blobs, true)
    else if ids[0] in used then RemoveEach(s, blobs, ids[1..], used, stuck)
    else if ids[0] in stuck then (s, blobs, false)
    else RemoveEach(s.(ids := s.ids - {ids[0]}), blobs - {ids[0]}, ids[1..], used, stuck)
  }

  function RemoveAttachments(json: Codec, b: Board, sid: string, ids: seq<string>, now: int,
                             readable: bool, stuck: set<string>): (Board, bool) {
    if |ids| > MAX_PER_COMMENT || (exists i :: 0 <= i < |ids| && !IsUuid(ids[i])) then (b, false)
    else if !Usable(b, sid, now) || (exists i :: 0 <= i < |ids| && ids[i] !in b.sessions[sid].ids) then (b, false)
    else if !readable then (b, false)
    else
      var (s, blobs, ok) := RemoveEach(b.sessions[sid], b.blobs, ids, UsedIds(json, b.trace.log), stuck);
      var sessions := if ok && s.ids == {} then b.sessions - {sid} else b.sessions[sid := s];
      (b.(sessions := sessions, blobs := blobs), ok)
  }

  /** The expiry timer of a session, which fires once. When it comes too early, or the log cannot be
      read, the session stays and nothing will reap it. */
  function ReapExpired(json: Codec, b: Board, sid: string, now: int, readable: bool, stuck: set<string>): Board {
    var fired := b.(due := b.due - {sid});
    if sid !in b.sessions || b.sessions[sid].expiresAt > now || !readable then fired
    else
      fired.(blobs := b.blobs - (b.sessions[sid].ids - UsedIds(json, b.trace.log) - stuck),
         sessions := b.sessions - {sid})
  }

  // ---- runs ---------------------------------------------------------------------------------

  datatype Op =
    | Create(sid: string, now: int)
    | Save(sid: string, size: Option<nat>, id: string, now: int, upload: Upload)
    | Log(append: AppendOp, now: int)
    | Remove(sid: string, ids: seq<string>, now: int, readable: bool, stuck: set<string>)
    | Reap(sid: string, now: int, readable: bool, stuck: set<string>)

  function Apply(json: Codec, b: Board, op: Op): Board {
    match op
    case Create(sid, now) => CreateSession(b, sid, now)
    case Save(sid, size, id, now, upload) => SaveAttachment(b, sid, size, id, now, upload).0
    case Log(append, now) => Append(json, b, append, now).0
    case Remove(sid, ids, now, readable, stuck) => RemoveAttachments(json, b, sid, ids, now, readable, stuck).0
    case Reap(sid, now, readable, stuck) => ReapExpired(json, b, sid, now, readable, stuck)
  }

  /** Random identifiers never repeat, and a session's timer fires once. */
  predicate MayFollow(b: Board, op: Op) {
    && (op.Create? ==> op.sid !in b.issued) && (op.Save? ==> op.id !in b.issued)
    && (op.Reap? ==> op.sid in b.due)
  }

  function RunOps(json: Codec, ops: seq<Op>): Board {
    if ops == [] then EMPTY_BOARD else Apply(json, RunOps(json, ops[..|ops| - 1]), ops[|ops| - 1])
  }

  predicate ValidRun(json: Codec, ops: seq<Op>) {
    ops != [] ==>
      ValidRun(json, ops[..|ops| - 1]) && MayFollow(RunOps(json, ops[..|ops| - 1]), ops[|ops| - 1])
  }

  // ---- what every step keeps ----------------------------------------------------------------

  ghost predicate SessionsSound(b: Board) {
    && (forall sid :: sid in b.sessions ==>
          && sid in b.issued && sid !in b.commits
          && !b.sessions[sid].consuming
          && b.sessions[sid].reservedBytes <= MAX_TOTAL_BYTES
          && b.sessions[sid].ids <= b.blobs)
    && (forall s, t :: s in b.sessions && t in b.sessions && s != t ==> b.sessions[s].ids !! b.sessions[t].ids)
  }

  ghost predicate Sound(json: Codec, b: Board) {
    && Tracks(json, b.trace)
    && SessionsSound(b)
    && b.blobs <= b.issued && b.fragments <= b.issued && b.blobs !! b.fragments
    && AllReferences(b.trace.history) <= b.blobs
    && (forall sid :: sid in b.sessions ==> b.sessions[sid].ids !! AllReferences(b.trace.history))
    && (forall i, j :: 0 <= i < j < |b.commits| ==> b.commits[i] != b.commits[j])
    && (forall i :: 0 <= i < |b.commits| ==> b.commits[i] in b.issued)
  }

  lemma {:induction false} ReferencesPart(es: seq<Entry>, lo: nat, hi: nat)
    requires lo <= hi <= |es|
    ensures AllReferences(es[lo..hi]) <= AllReferences(es)
  {
    forall id | id in AllReferences(es[lo..hi]) ensures id in AllReferences(es) {
      ReferencesIn(es[lo..hi], id);
      ReferencesIn(es, id);
      var i :| 0 <= i < hi - lo && id in References(es[lo..hi][i]);
      assert es[lo + i] == es[lo..hi][i];
    }
  }

  /** The check against the log never spares anything: a live session's blobs are in no entry. */
  lemma UsedNeverLive(json: Codec, b: Board, sid: string)
    requires Lawful(json) && Sound(json, b) && sid in b.sessions
    ensures b.sessions[sid].ids !! UsedIds(json, b.trace.log)
  {
    var t := b.trace;
    if t.log.current.None? {
      LogRoundTrip(json, []);
      assert LogText(json, []) == "";
    } else {
      LogRoundTrip(json, t.history[t.mid..]);
      ReferencesPart(t.history, t.mid, |t.history|);
      assert t.history[t.mid..|t.history|] == t.history[t.mid..];
    }
  }

  lemma CreateSound(json: Codec, b: Board, sid: string, now: int)
    requires Sound(json, b) && sid !in b.issued
    ensures Sound(json, CreateSession(b, sid, now))
  {
  }

  lemma SaveSound(json: Codec, b: Board, sid: string, size: Option<nat>, id: string, now: int, upload: Upload)
    requires Sound(json, b) && id !in b.issued
    ensures Sound(json, SaveAttachment(b, sid, size, id, now, upload).0)
  {
    if SaveAttachment(b, sid, size, id, now, upload).1 { StoreSound(json, b, sid, size.value, id); }
  }

  lemma StoreSound(json: Codec, b: Board, sid: string, size: nat, id: string)
    requires Sound(json, b) && id !in b.issued && sid in b.sessions
    requires b.sessions[sid].reservedBytes + size <= MAX_TOTAL_BYTES
    ensures var s := b.sessions[sid];
            Sound(json, b.(sessions := b.sessions[sid := s.(reservedBytes := s.reservedBytes + size,
                                                            ids := s.ids + {id})],
                           blobs := b.blobs + {id}, issued := b.issued + {id}))
  {
    StoreSessions(b, sid, size, id);
    assert id !in b.blobs && id !in b.fragments && id !in AllReferences(b.trace.history);
  }

  lemma StoreSessions(b: Board, sid: string, size: nat, id: string)
    requires SessionsSound(b) && b.blobs <= b.issued && id !in b.issued && sid in b.sessions
    requires b.sessions[sid].reservedBytes + size <= MAX_TOTAL_BYTES
    ensures var s := b.sessions[sid];
            SessionsSound(b.(sessions := b.sessions[sid := s.(reservedBytes := s.reservedBytes + size,
                                                              ids := s.ids + {id})],
                             blobs := b.blobs + {id}, issued := b.issued + {id}))
  {
    assert forall t :: t in b.sessions ==> id !in b.sessions[t].ids;
  }

  lemma ForgetSound(json: Codec, b: Board, sid: string)
    requires Sound(json, b)
    ensures Sound(json, b.(sessions := b.sessions - {sid}))
  {
  }

  /** Growing the log keeps soundness when the new references are saved blobs of no live session. */
  lemma LogSound(json: Codec, b: Board, trace: Trace, refs: set<string>)
    requires Sound(json, b) && Tracks(json, trace)
    requires AllReferences(trace.history) == AllReferences(b.trace.history) + refs
    requires refs <= b.blobs && forall sid :: sid in b.sessions ==> b.sessions[sid].ids !! refs
    ensures Sound(json, b.(trace := trace))
  {
  }

  lemma RecordSound(json: Codec, b: Board, sid: string)
    requires Sound(json, b) && sid in b.issued && sid !in b.sessions && sid !in b.commits
    ensures Sound(json, b.(commits := b.commits + [sid]))
  {
  }

  lemma HistoryReferences(es: seq<Entry>, e: Entry)
    ensures AllReferences(es + [Clamp(e)]) == AllReferences(es) + References(e)
  {
    assert (es + [Clamp(e)])[..|es|] == es;
  }

  /** Committing an entry: its session is forgotten, the log grows, the commit is recorded. */
  lemma CommitSound(json: Codec, b: Board, sid: string, trace: Trace, refs: set<string>, recorded: bool)
    requires Sound(json, b) && Tracks(json, trace)
    requires AllReferences(trace.history) == AllReferences(b.trace.history) + refs
    requires if sid in b.sessions then refs <= b.sessions[sid].ids else refs == {}
    requires recorded ==> sid in b.sessions
    ensures Sound(json, b.(sessions := b.sessions - {sid}, trace := trace,
                           commits := if recorded then b.commits + [sid] else b.commits))
  {
    var b1 := b.(sessions := b.sessions - {sid});
    ForgetSound(json, b, sid);
    LogSound(json, b1, trace, refs);
    if recorded { RecordSound(json, b1.(trace := trace), sid); }
  }

  lemma AppendSound(json: Codec, b: Board, op: AppendOp, now: int)
    requires Lawful(json) && Sound(json, b)
    ensures Sound(json, Append(json, b, op, now).0)
  {
    var e, trace := op.entry, Step(json, b.trace, op);
    if Acceptable(json, e) && MayCommit(b, e, now) {
      StepTracks(json, b.trace, op);
      if !op.written {
        assert trace.history == b.trace.history;
        LogSound(json, b, trace, {});
      } else {
        assert trace.history == b.trace.history + [Clamp(e)];
        HistoryReferences(b.trace.history, e);
        if e.sessionId.None? {
          LogSound(json, b, trace, References(e));
        } else {
          CommitSound(json, b, e.sessionId.value, trace, References(e), e.attachments.Some?);
        }
      }
    }
  }

  /** Removing only ever takes a session's own blobs, and forgets exactly the ones it removed. */
  lemma {:induction false} RemoveEachKeeps(s: Session, blobs: set<string>, ids: seq<string>,
                                           used: set<string>, stuck: set<string>)
    requires forall i :: 0 <= i < |ids| ==> ids[i] in s.ids || ids[i] !in blobs
    requires s.ids <= blobs
    ensures var (s', blobs', ok) := RemoveEach(s, blobs, ids, used, stuck);
            && s'.ids <= s.ids
            && blobs' == blobs - (s.ids - s'.ids)
            && s' == s.(ids := s'.ids)
    decreases |ids|
  {
    if ids == [] || ids[0] in used || ids[0] in stuck {
      if ids != [] && ids[0] in used { RemoveEachKeeps(s, blobs, ids[1..], used, stuck); }
    } else {
      RemoveEachKeeps(s.(ids := s.ids - {ids[0]}), blobs - {ids[0]}, ids[1..], used, stuck);
    }
  }

  lemma RemoveSound(json: Codec, b: Board, sid: string, ids: seq<string>, now: int, readable: bool, stuck: set<string>)
    requires Sound(json, b)
    ensures Sound(json, RemoveAttachments(json, b, sid, ids, now, readable, stuck).0)
  {
    if Usable(b, sid, now) && forall i :: 0 <= i < |ids| ==> ids[i] in b.sessions[sid].ids {
      RemovedSound(json, b, sid, ids, UsedIds(json, b.trace.log), stuck);
    }
  }

  /** Whether the session is kept, shrunk, or forgotten. */
  lemma RemovedSound(json: Codec, b: Board, sid: string, ids: seq<string>, used: set<string>, stuck: set<string>)
    requires Sound(json, b) && sid in b.sessions
    requires forall i :: 0 <= i < |ids| ==> ids[i] in b.sessions[sid].ids
    ensures var (s, blobs, ok) := RemoveEach(b.sessions[sid], b.blobs, ids, used, stuck);
            && Sound(json, b.(sessions := b.sessions[sid := s], blobs := blobs))
            && Sound(json, b.(sessions := b.sessions - {sid}, blobs := blobs))
  {
    RemoveEachKeeps(b.sessions[sid], b.blobs, ids, used, stuck);
    var (s, blobs, ok) := RemoveEach(b.sessions[sid], b.blobs, ids, used, stuck);
    ShrinkSound(json, b, sid, s.ids);
    ForgetSound(json, b.(sessions := b.sessions[sid := s], blobs := blobs), sid);
    assert b.sessions[sid := s] - {sid} == b.sessions - {sid};
  }

  /** Taking some of a live session's blobs away, and forgetting them, keeps soundness. */
  lemma ShrinkSound(json: Codec, b: Board, sid: string, ids: set<string>)
    requires Sound(json, b) && sid in b.sessions && ids <= b.sessions[sid].ids
    ensures Sound(json, b.(sessions := b.sessions[sid := b.sessions[sid].(ids := ids)],
                           blobs := b.blobs - (b.sessions[sid].ids - ids)))
  {
    var gone := b.sessions[sid].ids - ids;
    assert gone !! AllReferences(b.trace.history);
    ShrinkSessions(b, sid, ids);
  }

  lemma ShrinkSessions(b: Board, sid: string, ids: set<string>)
    requires SessionsSound(b) && sid in b.sessions && ids <= b.sessions[sid].ids
    ensures SessionsSound(b.(sessions := b.sessions[sid := b.sessions[sid].(ids := ids)],
                             blobs := b.blobs - (b.sessions[sid].ids - ids)))
  {
    assert forall t :: t in b.sessions && t != sid ==> b.sessions[t].ids !! b.sessions[sid].ids;
  }

  lemma ReapSound(json: Codec, b: Board, sid: string, now: int, readable: bool, stuck: set<string>)
    requires Sound(json, b)
    ensures Sound(json, ReapExpired(json, b, sid, now, readable, stuck))
  {
  }

  lemma ApplySound(json: Codec, b: Board, op: Op)
    requires Lawful(json) && Sound(json, b) && MayFollow(b, op)
    ensures Sound(json, Apply(json, b, op))
  {
    match op
    case Create(sid, now) => CreateSound(json, b, sid, now);
    case Save(sid, size, id, now, upload) => SaveSound(json, b, sid, size, id, now, upload);
    case Log(append, now) => AppendSound(json, b, append, now);
    case Remove(sid, ids, now, readable, stuck) => RemoveSound(json, b, sid, ids, now, readable, stuck);
    case Reap(sid, now, readable, stuck) => ReapSound(json, b, sid, now, readable, stuck);
  }

  lemma {:induction false} RunSound(json: Codec, ops: seq<Op>)
    requires Lawful(json) && ValidRun(json, ops)
    ensures Sound(json, RunOps(json, ops))
  {
    if ops != [] {
      RunSound(json, ops[..|ops| - 1]);
      ApplySound(json, RunOps(json, ops[..|ops| - 1]), ops[|ops| - 1]);
    }
  }

  lemma {:induction false} InReverse<T>(s: seq<T>, x: T)
    ensures x in Reverse(s) <==> x in s
  {
    if s != [] {
      InReverse(s[1..], x);
      assert s == [s[0]] + s[1..];
    }
  }

  lemma ReadIsLogged(json: Codec, t: Trace, e: Entry)
    requires Lawful(json) && Tracks(json, t) && e in ReadAll(json, t.log)
    ensures e in t.history
  {
    ReadIsNewestSuffix(json, t);
    InReverse(t.history[t.low..], e);
  }

  lemma LoggedReferences(es: seq<Entry>, e: Entry, id: string)
    requires e in es && id in References(e)
    ensures id in AllReferences(es)
  {
    var i :| 0 <= i < |es| && es[i] == e;
    ReferencesIn(es, id);
  }

  /** In every run, each attachment of each entry a read returns names a blob that was saved whole
      and still exists. */
  lemma ReferencesNeverDangle(json: Codec, ops: seq<Op>, e: Entry, id: string)
    requires Lawful(json) && ValidRun(json, ops)
    requires e in ReadAll(json, RunOps(json, ops).trace.log) && id in References(e)
    ensures id in RunOps(json, ops).blobs && id !in RunOps(json, ops).fragments
  {
    var b := RunOps(json, ops);
    RunSound(json, ops);
    ReadIsLogged(json, b.trace, e);
    LoggedReferences(b.trace.history, e, id);
  }

  /** In every run, no session commits attachments twice, and none reserves more than its limit. */
  lemma SessionsStayWithinBounds(json: Codec, ops: seq<Op>)
    requires Lawful(json) && ValidRun(json, ops)
    ensures var b := RunOps(json, ops);
            && (forall i, j :: 0 <= i < j < |b.commits| ==> b.commits[i] != b.commits[j])
            && (forall sid :: sid in b.sessions ==>
                  sid !in b.commits && b.sessions[sid].reservedBytes <= MAX_TOTAL_BYTES)
  {
    RunSound(json, ops);
  }

  /** Rolling uploads back gives a session no room back: what it reserved stays reserved. */
  lemma RemovalReturnsNoRoom(json: Codec, b: Board, sid: string, ids: seq<string>, now: int, readable: bool,
      stuck: set<string>)
    requires Sound(json, b) && sid in b.sessions
    ensures var b' := RemoveAttachments(json, b, sid, ids, now, readable, stuck).0;
            sid in b'.sessions ==> b'.sessions[sid].reservedBytes == b.sessions[sid].reservedBytes
  {
    if Usable(b, sid, now) && forall i :: 0 <= i < |ids| ==> ids[i] in b.sessions[sid].ids {
      RemoveEachKeeps(b.sessions[sid], b.blobs, ids, UsedIds(json, b.trace.log), stuck);
    }
  }

  /** Reaping an expired session removes every one of its blobs that can be removed: it has none in
      the log. A save that arrives first forgets the session instead, and then reaping removes
      nothing. */
  lemma ReapOrOrphan(json: Codec, b: Board, sid: string, size: Option<nat>, id: string, now: int, stuck: set<string>)
    requires Lawful(json) && Sound(json, b) && sid in b.sessions && b.sessions[sid].expiresAt <= now
    ensures ReapExpired(json, b, sid, now, true, stuck).blobs == b.blobs - (b.sessions[sid].ids - stuck)
    ensures var forgotten := SaveAttachment(b, sid, size, id, now, Stored).0;
            ReapExpired(json, forgotten, sid, now, true, stuck).blobs == b.blobs
  {
    UsedNeverLive(json, b, sid);
  }

  // ---- what each operation does -------------------------------------------------------------

  /** A session can be used from its creation for ten minutes. */
  lemma SessionLasts(b: Board, sid: string, now: int, at: int)
    ensures Usable(CreateSession(b, sid, now), sid, at) <==> at < now + 600_000
  {
  }

  /** An upload is saved exactly under a usable session, when it is not empty, no larger than four
      mebibytes, fits into what the session has left of 64 mebibytes, and its file was written. */
  lemma SavedExactly(b: Board, sid: string, size: Option<nat>, id: string, now: int, upload: Upload)
    ensures var (b', saved) := SaveAttachment(b, sid, size, id, now, upload);
            && (saved <==> Usable(b, sid, now) && size.Some? && 0 < size.value <= 4 * 1024 * 1024
                           && b.sessions[sid].reservedBytes + size.value <= 64 * 1024 * 1024 && upload == Stored)
            && b'.blobs == (if saved then b.blobs + {id} else b.blobs)
            && (saved ==> sid in b'.sessions
                          && b'.sessions[sid].ids == b.sessions[sid].ids + {id}
                          && b'.sessions[sid].reservedBytes == b.sessions[sid].reservedBytes + size.value
                          && b'.sessions[sid].expiresAt == b.sessions[sid].expiresAt)
            && (sid in b'.sessions <==> Usable(b, sid, now))
            && b'.trace == b.trace
  {
  }

  /** The ids that a removal gets to: those before the first that is stuck and not in the log. */
  function Reached(ids: seq<string>, used: set<string>, stuck: set<string>): (n: nat)
    ensures n <= |ids|
    ensures forall i :: 0 <= i < n ==> ids[i] in used || ids[i] !in stuck
    ensures n < |ids| ==> ids[n] !in used && ids[n] in stuck
  {
    if ids == [] || (ids[0] !in used && ids[0] in stuck) then 0 else 1 + Reached(ids[1..], used, stuck)
  }

  function Among(ids: seq<string>, n: nat): set<string>
    requires n <= |ids|
  {
    set i | 0 <= i < n :: ids[i]
  }

  lemma {:induction false} RemovedEach(s: Session, blobs: set<string>, ids: seq<string>,
                                       used: set<string>, stuck: set<string>)
    ensures var (s', blobs', ok) := RemoveEach(s, blobs, ids, used, stuck);
            var gone := Among(ids, Reached(ids, used, stuck)) - used;
            && s' == s.(ids := s.ids - gone) && blobs' == blobs - gone
            && (ok <==> Reached(ids, used, stuck) == |ids|)
    decreases |ids|
  {
    if ids != [] && !(ids[0] !in used && ids[0] in stuck) {
      var n := Reached(ids[1..], used, stuck);
      assert Among(ids, n + 1) == {ids[0]} + Among(ids[1..], n) by {
        forall x | x in Among(ids, n + 1) ensures x in {ids[0]} + Among(ids[1..], n) {
          var i :| 0 <= i < n + 1 && ids[i] == x;
          if i > 0 { assert ids[1..][i - 1] == x; }
        }
        forall x | x in {ids[0]} + Among(ids[1..], n) ensures x in Among(ids, n + 1) {
          if x != ids[0] {
            var i :| 0 <= i < n && ids[1..][i] == x;
            assert ids[i + 1] == x;
          }
        }
      }
      if ids[0] in used {
        RemovedEach(s, blobs, ids[1..], used, stuck);
      } else {
        RemovedEach(s.(ids := s.ids - {ids[0]}), blobs - {ids[0]}, ids[1..], used, stuck);
      }
    }
  }

  /** A rollback is taken up exactly for at most twenty well-formed ids of a usable session, with a log
      that can be read. It removes the blobs up to the first that is stuck, and reports success exactly
      if none was. */
  lemma RemovedExactly(json: Codec, b: Board, sid: string, ids: seq<string>, now: int, readable: bool,
      stuck: set<string>)
    requires Lawful(json) && Sound(json, b)
    ensures var (b', ok) := RemoveAttachments(json, b, sid, ids, now, readable, stuck);
            var taken := |ids| <= 20 && (forall i :: 0 <= i < |ids| ==> IsUuid(ids[i])) && Usable(b, sid, now)
                         && (forall i :: 0 <= i < |ids| ==> ids[i] in b.sessions[sid].ids) && readable;
            && (!taken ==> b' == b && !ok)
            && (taken ==>
                  && (ok <==> forall i :: 0 <= i < |ids| ==> ids[i] !in stuck)
                  && b'.blobs == b.blobs - Among(ids, Reached(ids, {}, stuck))
                  && (sid in b'.sessions ==>
                        b'.sessions[sid].ids == b.sessions[sid].ids - Among(ids, Reached(ids, {}, stuck))))
  {
    if Usable(b, sid, now) && forall i :: 0 <= i < |ids| ==> ids[i] in b.sessions[sid].ids {
      var used := UsedIds(json, b.trace.log);
      UsedNeverLive(json, b, sid);
      NoneUsed(ids, used, stuck);
      RemovedEach(b.sessions[sid], b.blobs, ids, used, stuck);
    }
  }

  lemma {:induction false} NoneUsed(ids: seq<string>, used: set<string>, stuck: set<string>)
    requires forall i :: 0 <= i < |ids| ==> ids[i] !in used
    ensures Reached(ids, used, stuck) == Reached(ids, {}, stuck)
    ensures Among(ids, Reached(ids, used, stuck)) - used == Among(ids, Reached(ids, {}, stuck))
  {
    if ids != [] { NoneUsed(ids[1..], used, stuck); }
  }

  /** The timer takes a session and its removable blobs exactly when the session has expired and the log
      can be read; otherwise it leaves both. */
  lemma ReapedExactly(json: Codec, b: Board, sid: string, now: int, readable: bool, stuck: set<string>)
    requires Lawful(json) && Sound(json, b) && sid in b.sessions
    ensures var b' := ReapExpired(json, b, sid, now, readable, stuck);
            var reaped := now >= b.sessions[sid].expiresAt && readable;
            && b'.sessions == (if reaped then b.sessions - {sid} else b.sessions)
            && b'.blobs == (if reaped then b.blobs - (b.sessions[sid].ids - stuck) else b.blobs)
            && b'.trace == b.trace
  {
    UsedNeverLive(json, b, sid);
  }

  // ---- orphans ------------------------------------------------------------------------------

  /** A session whose blobs can still be rolled back or committed, or will still be reaped. */
  predicate Open(b: Board, sid: string, at: int) {
    sid in b.sessions && (sid in b.due || b.sessions[sid].expiresAt > at)
  }

  function LiveIds(b: Board, at: int): set<string> {
    set sid, id | sid in b.sessions && Open(b, sid, at) && id in b.sessions[sid].ids :: id
  }

  /** Files no entry refers to and no session can still remove or commit: blobs out of reach, and the
      fragments of failed uploads. */
  function Orphans(b: Board, at: int): set<string> {
    b.blobs - AllReferences(b.trace.history) - LiveIds(b, at) + b.fragments
  }

  /** The blobs of sessions past their expiry whose timer has fired without reaping them. */
  function Lapsed(b: Board, at: int): set<string> {
    set sid, id | sid in b.sessions && !Open(b, sid, at) && id in b.sessions[sid].ids :: id
  }

  /** What a step orphans: what has lapsed by its time, and what it abandons itself. */
  function NewOrphans(json: Codec, b: Board, op: Op): set<string> { Lapsed(b, op.now) + Abandoned(json, b, op) }

  /** A save that finds its session unusable abandons all of the session's blobs; one whose write
      fails, the file it opened. A committed entry abandons those of its session it does not refer
      to. An expiry abandons those whose file cannot be removed, or all of them if the log cannot be
      read. Rolling back abandons nothing, even when it stops half way. */
  function Abandoned(json: Codec, b: Board, op: Op): set<string> {
    match op
    case Save(sid, size, id, now, upload) =>
      if sid !in b.sessions then {}
      else if !Usable(b, sid, now) then b.sessions[sid].ids
      else if Fits(b.sessions[sid], size) && upload.Cut? then {id}
      else {}
    case Log(append, now) =>
      var e := append.entry;
      if Acceptable(json, e) && MayCommit(b, e, now) && append.written && e.sessionId.Some?
         && e.sessionId.value in b.sessions
      then b.sessions[e.sessionId.value].ids - References(e)
      else {}
    case Reap(sid, now, readable, stuck) =>
      if sid !in b.sessions || b.sessions[sid].expiresAt > now then {}
      else if readable then b.sessions[sid].ids * stuck
      else b.sessions[sid].ids
    case _ => {}
  }

  lemma InLive(b: Board, at: int, sid: string)
    requires Open(b, sid, at)
    ensures b.sessions[sid].ids <= LiveIds(b, at)
  {
  }

  /** A session's blobs are live exactly while the session is open. */
  lemma LiveExactly(b: Board, at: int, id: string, sid: string)
    requires SessionsSound(b) && sid in b.sessions && id in b.sessions[sid].ids
    ensures id in LiveIds(b, at) <==> Open(b, sid, at)
    ensures id in Lapsed(b, at) <==> !Open(b, sid, at)
  {
  }

  /** Time passing orphans exactly the blobs of the sessions that lapse. */
  lemma TimeOrphans(json: Codec, b: Board, t: int, at: int)
    requires Sound(json, b) && t <= at
    ensures Orphans(b, at) == Orphans(b, t) + Lapsed(b, at)
  {
    forall id | id in LiveIds(b, t) - LiveIds(b, at) ensures id in Lapsed(b, at) {
      var sid :| sid in b.sessions && Open(b, sid, t) && id in b.sessions[sid].ids;
      LiveExactly(b, at, id, sid);
    }
    forall id | id in LiveIds(b, at) ensures id in LiveIds(b, t) {
      var sid :| sid in b.sessions && Open(b, sid, at) && id in b.sessions[sid].ids;
      LiveExactly(b, t, id, sid);
    }
    forall id | id in Lapsed(b, at) ensures id in Orphans(b, at) {
      var sid :| sid in b.sessions && !Open(b, sid, at) && id in b.sessions[sid].ids;
      LiveExactly(b, at, id, sid);
    }
  }

  /** Only session `sid` and its timer differ. */
  predicate OthersKept(b: Board, b': Board, sid: string) {
    && b'.sessions - {sid} == b.sessions - {sid}
    && b'.due - {sid} == b.due - {sid}
  }

  function OpenIds(b: Board, at: int, sid: string): set<string> {
    if Open(b, sid, at) then b.sessions[sid].ids else {}
  }

  /** Changing one session changes the live blobs by that session's. */
  lemma LiveChange(b: Board, b': Board, at: int, sid: string)
    requires SessionsSound(b) && OthersKept(b, b', sid)
    ensures LiveIds(b', at) == LiveIds(b, at) - OpenIds(b, at, sid) + OpenIds(b', at, sid)
  {
    forall id | id in LiveIds(b', at) ensures id in LiveIds(b, at) - OpenIds(b, at, sid) + OpenIds(b', at, sid) {
      var t :| t in b'.sessions && Open(b', t, at) && id in b'.sessions[t].ids;
      if t != sid { OtherSession(b, b', at, sid, t); }
    }
    forall id | id in LiveIds(b, at) - OpenIds(b, at, sid) ensures id in LiveIds(b', at) {
      var t :| t in b.sessions && Open(b, t, at) && id in b.sessions[t].ids;
      OtherSession(b', b, at, sid, t);
    }
  }

  lemma OtherSession(b: Board, b': Board, at: int, sid: string, t: string)
    requires OthersKept(b, b', sid) && t in b'.sessions && t != sid
    ensures t in b.sessions && b.sessions[t] == b'.sessions[t] && (t in b.due <==> t in b'.due)
  {
    assert t in b'.sessions - {sid} && (b'.sessions - {sid})[t] == b'.sessions[t];
    assert t in b.sessions - {sid} && (b.sessions - {sid})[t] == b.sessions[t];
    assert t in b.due <==> t in b.due - {sid};
  }

  lemma LiveBlobs(b: Board, at: int)
    requires SessionsSound(b)
    ensures LiveIds(b, at) <= b.blobs
  {
  }

  /** A session that is over, its blobs not removed, leaves behind those no entry refers to. */
  lemma ClosedOrphans(json: Codec, b: Board, b': Board, at: int, sid: string, refs: set<string>)
    requires Sound(json, b) && sid in b.sessions && OthersKept(b, b', sid) && !Open(b', sid, at)
    requires b'.blobs == b.blobs && b'.fragments == b.fragments
    requires AllReferences(b'.trace.history) == AllReferences(b.trace.history) + refs
    requires refs <= b.sessions[sid].ids && (refs == {} || Open(b, sid, at))
    ensures Orphans(b', at) == Orphans(b, at) + (b.sessions[sid].ids - refs)
  {
    LiveChange(b, b', at, sid);
    forall id | id in b.sessions[sid].ids ensures id in LiveIds(b, at) <==> Open(b, sid, at) {
      LiveExactly(b, at, id, sid);
    }
  }

  lemma CreateOrphans(json: Codec, b: Board, sid: string, now: int)
    requires Sound(json, b) && sid !in b.issued
    ensures Orphans(CreateSession(b, sid, now), now) == Orphans(b, now)
  {
    LiveChange(b, CreateSession(b, sid, now), now, sid);
  }

  lemma SaveOrphans(json: Codec, b: Board, sid: string, size: Option<nat>, id: string, now: int, upload: Upload)
    requires Sound(json, b) && id !in b.issued
    ensures Orphans(SaveAttachment(b, sid, size, id, now, upload).0, now)
         == Orphans(b, now) + Abandoned(json, b, Save(sid, size, id, now, upload))
  {
    var b' := SaveAttachment(b, sid, size, id, now, upload).0;
    if sid !in b.sessions {
      assert b'.sessions == b.sessions;
      SameOrphans(b, b', now);
    } else if !Usable(b, sid, now) {
      ClosedOrphans(json, b, b', now, sid, {});
    } else if SaveAttachment(b, sid, size, id, now, upload).1 {
      StoredOrphans(b, b', now, sid, id);
    } else {
      UnstoredOrphans(b, b', now);
    }
  }

  lemma UnstoredOrphans(b: Board, b': Board, at: int)
    requires b'.sessions == b.sessions && b'.due == b.due && b'.blobs == b.blobs && b'.trace == b.trace
    requires b.fragments <= b'.fragments
    ensures Orphans(b', at) == Orphans(b, at) + (b'.fragments - b.fragments)
  {
    assert LiveIds(b', at) == LiveIds(b, at);
  }

  lemma StoredOrphans(b: Board, b': Board, at: int, sid: string, id: string)
    requires SessionsSound(b) && id !in b.blobs && OthersKept(b, b', sid)
    requires b'.blobs == b.blobs + {id} && b'.fragments == b.fragments && b'.trace == b.trace
    requires Open(b, sid, at) && Open(b', sid, at) && b'.sessions[sid].ids == b.sessions[sid].ids + {id}
    ensures Orphans(b', at) == Orphans(b, at)
  {
    LiveChange(b, b', at, sid);
    InLive(b, at, sid);
    assert LiveIds(b', at) == LiveIds(b, at) + {id};
  }

  lemma AppendOrphans(json: Codec, b: Board, op: AppendOp, now: int)
    requires Sound(json, b)
    ensures Orphans(Append(json, b, op, now).0, now) == Orphans(b, now) + Abandoned(json, b, Op.Log(op, now))
  {
    var e, b' := op.entry, Append(json, b, op, now).0;
    var committed := Append(json, b, op, now).1;
    AppendEffect(json, b, op, now);
    if committed && e.sessionId.Some? && e.sessionId.value in b.sessions {
      CommitOrphans(json, b, b', now, e.sessionId.value, e);
    } else {
      SameOrphans(b, b', now);
    }
  }

  /** What an append does to everything the orphans depend on. */
  lemma AppendEffect(json: Codec, b: Board, op: AppendOp, now: int)
    ensures var e, (b', committed) := op.entry, Append(json, b, op, now);
            && b'.blobs == b.blobs && b'.fragments == b.fragments && b'.due == b.due
            && AllReferences(b'.trace.history)
               == AllReferences(b.trace.history) + (if committed then References(e) else {})
            && b'.sessions == (if committed && e.sessionId.Some? then b.sessions - {e.sessionId.value} else b.sessions)
            && (committed <==> Acceptable(json, e) && MayCommit(b, e, now) && op.written)
  {
    if Append(json, b, op, now).1 {
      HistoryReferences(b.trace.history, op.entry);
      assert Step(json, b.trace, op).history == b.trace.history + [Clamp(op.entry)];
    } else if Acceptable(json, op.entry) && MayCommit(b, op.entry, now) {
      assert Step(json, b.trace, op).history == b.trace.history;
    }
  }

  lemma SameOrphans(b: Board, b': Board, at: int)
    requires b'.sessions == b.sessions && b'.due == b.due
    requires b'.blobs == b.blobs && b'.fragments == b.fragments
    requires AllReferences(b'.trace.history) == AllReferences(b.trace.history)
    ensures Orphans(b', at) == Orphans(b, at)
  {
    assert LiveIds(b', at) == LiveIds(b, at);
  }

  lemma CommitOrphans(json: Codec, b: Board, b': Board, now: int, sid: string, e: Entry)
    requires Sound(json, b) && e.sessionId == Some(sid) && sid in b.sessions && MayCommit(b, e, now)
    requires b'.sessions == b.sessions - {sid} && b'.due == b.due
    requires b'.blobs == b.blobs && b'.fragments == b.fragments
    requires AllReferences(b'.trace.history) == AllReferences(b.trace.history) + References(e)
    ensures Orphans(b', now) == Orphans(b, now) + (b.sessions[sid].ids - References(e))
  {
    ClosedOrphans(json, b, b', now, sid, References(e));
  }

  lemma RemoveOrphans(json: Codec, b: Board, sid: string, ids: seq<string>, now: int, readable: bool,
      stuck: set<string>)
    requires Sound(json, b)
    ensures Orphans(RemoveAttachments(json, b, sid, ids, now, readable, stuck).0, now) == Orphans(b, now)
  {
    var b' := RemoveAttachments(json, b, sid, ids, now, readable, stuck).0;
    if b' != b {
      var used := UsedIds(json, b.trace.log);
      RemoveEachKeeps(b.sessions[sid], b.blobs, ids, used, stuck);
      LiveChange(b, b', now, sid);
      InLive(b, now, sid);
      LiveBlobs(b, now);
    }
  }

  lemma ReapOrphans(json: Codec, b: Board, sid: string, now: int, readable: bool, stuck: set<string>)
    requires Lawful(json) && Sound(json, b) && sid in b.due
    ensures Orphans(ReapExpired(json, b, sid, now, readable, stuck), now)
         == Orphans(b, now) + Abandoned(json, b, Reap(sid, now, readable, stuck))
  {
    var b' := ReapExpired(json, b, sid, now, readable, stuck);
    LiveChange(b, b', now, sid);
    if sid in b.sessions && b.sessions[sid].expiresAt <= now {
      if readable {
        UsedNeverLive(json, b, sid);
        InLive(b, now, sid);
      } else {
        ClosedOrphans(json, b, b', now, sid, {});
      }
    }
  }

  /** Exactly these files become orphans between a time and the end of a step that follows it, and
      none ever stops being one. */
  lemma OrphansExactly(json: Codec, b: Board, t: int, op: Op)
    requires Lawful(json) && Sound(json, b) && MayFollow(b, op) && t <= op.now
    ensures Orphans(Apply(json, b, op), op.now) == Orphans(b, t) + NewOrphans(json, b, op)
  {
    TimeOrphans(json, b, t, op.now);
    match op
    case Create(sid, now) => CreateOrphans(json, b, sid, now);
    case Save(sid, size, id, now, upload) => SaveOrphans(json, b, sid, size, id, now, upload);
    case Log(append, now) => AppendOrphans(json, b, append, now);
    case Remove(sid, ids, now, readable, stuck) => RemoveOrphans(json, b, sid, ids, now, readable, stuck);
    case Reap(sid, now, readable, stuck) => ReapOrphans(json, b, sid, now, readable, stuck);
  }

  /** The clock does not go back during the run. */
  predicate ClockRuns(ops: seq<Op>) { forall i, j :: 0 <= i < j < |ops| ==> ops[i].now <= ops[j].now }

  function OrphanedBy(json: Codec, ops: seq<Op>): set<string> {
    if ops == [] then {}
    else
      var front := ops[..|ops| - 1];
      OrphanedBy(json, front) + NewOrphans(json, RunOps(json, front), ops[|ops| - 1])
  }

  /** When a run ends: at its last step. */
  function EndOf(ops: seq<Op>): int { if ops == [] then 0 else ops[|ops| - 1].now }

  /** In every run the orphans are those its steps have orphaned. */
  lemma {:induction false} RunOrphans(json: Codec, ops: seq<Op>)
    requires Lawful(json) && ValidRun(json, ops) && ClockRuns(ops)
    ensures Orphans(RunOps(json, ops), EndOf(ops)) == OrphanedBy(json, ops)
  {
    if ops != [] {
      var front, op := ops[..|ops| - 1], ops[|ops| - 1];
      assert ClockRuns(front);
      RunOrphans(json, front);
      RunSound(json, front);
      var t := if front == [] then op.now else EndOf(front);
      assert t <= op.now;
      OrphansExactly(json, RunOps(json, front), t, op);
    }
  }

  /** An orphan stays one on every continuation: its file is never removed and never referred to. */
  lemma {:induction false} OrphansStay(json: Codec, ops: seq<Op>, more: seq<Op>)
    requires Lawful(json) && ValidRun(json, ops + more) && ClockRuns(ops + more)
    ensures Orphans(RunOps(json, ops), EndOf(ops)) <= Orphans(RunOps(json, ops + more), EndOf(ops + more))
  {
    if more == [] {
      assert ops + more == ops;
    } else {
      var longer := ops + more;
      var front := longer[..|longer| - 1];
      assert front == ops + more[..|more| - 1] && ClockRuns(front);
      OrphansStay(json, ops, more[..|more| - 1]);
      RunOrphans(json, longer);
      RunOrphans(json, front);
    }
  }
}
