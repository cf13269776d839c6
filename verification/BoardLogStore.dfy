/** The store object: files, sessions and blobs updated in place, every method one step of the
    specification. File outcomes, the clock and random identifiers are parameters. */
module BoardLogStore {

  import opened BoardLog
  import opened BoardSessions
  import opened Text
  import opened Wrappers

  class Store {
    const json: Codec
    var current: Option<string>
    var rotated: Option<string>
    var sessions: map<string, Session>
    var blobs: set<string>
    var fragments: set<string>
    ghost var history: seq<Entry>
    ghost var low: nat
    ghost var mid: nat
    ghost var issued: set<string>
    ghost var commits: seq<string>
    ghost var due: set<string>

    ghost function View(): Board
      reads this
    {
      Board(Trace(Log.Log(current, rotated), history, low, mid), sessions, blobs, fragments, issued, commits, due)
    }

    constructor (json: Codec)
      ensures this.json == json && View() == EMPTY_BOARD
    {
      this.json := json;
      current, rotated, sessions, blobs, fragments := None, None, map[], {}, {};
      history, low, mid, issued, commits, due := [], 0, 0, {}, [], {};
    }

    method CreateAttachmentSession(sid: string, now: int) returns (expiresAt: int)
      modifies this
      ensures View() == CreateSession(old(View()), sid, now)
      ensures expiresAt == now + 600000
    {
      expiresAt := now + SESSION_TTL_MS;
      sessions := sessions[sid := Session(expiresAt, 0, {}, false)];
      issued, due := issued + {sid}, due + {sid};
    }

    method Save(sid: string, size: Option<nat>, id: string, now: int, upload: Upload) returns (saved: bool)
      modifies this
      ensures (View(), saved) == SaveAttachment(old(View()), sid, size, id, now, upload)
    {
      if sid !in sessions || sessions[sid].consuming || sessions[sid].expiresAt <= now {
        sessions := sessions - {sid};
        return false;
      }
      var session := sessions[sid];
      if size.None? || size.value == 0 || size.value > MAX_BLOB_BYTES { return false; }
      if session.reservedBytes + size.value > MAX_TOTAL_BYTES { return false; }
      issued := issued + {id};
      if upload.NotOpened? { return false; }
      if upload.Cut? {
        fragments := fragments + {id};
        return false;
      }
      blobs := blobs + {id};
      sessions := sessions[sid := session.(reservedBytes := session.reservedBytes + size.value,
                                           ids := session.ids + {id})];
      saved := true;
    }

    method Rotate(incoming: nat, rotation: Rotation)
      modifies this`current, this`rotated, this`low, this`mid
      ensures Log.Log(current, rotated) == RotateIfLarge(Log.Log(old(current), old(rotated)), incoming, rotation)
      ensures low == if Log.Log(current, rotated) == Log.Log(old(current), old(rotated)) then old(low) else old(mid)
      ensures mid == if current.None? then |history| else old(mid)
    {
      ghost var before := Log.Log(current, rotated);
      if current.Some? && !rotation.StatFails? && Utf8Length(current.value) + incoming > LOG_MAX_BYTES
         && !rotation.RemoveFails? {
        rotated := None;
        if rotation.Succeeds? { rotated, current := current, None; }
      }
      low := if Log.Log(current, rotated) == before then low else mid;
      mid := if current.None? then |history| else mid;
    }

    /** The entry is acceptable, and its attachments are those of a usable session. */
    method Admits(entry: Entry, now: int) returns (ok: bool)
      ensures ok <==> Acceptable(json, entry) && MayCommit(View(), entry, now)
    {
      if !Acceptable(json, entry) { return false; }
      if entry.attachments.None? { return true; }
      var sid := entry.sessionId.value;
      ok := sid in sessions && !sessions[sid].consuming && sessions[sid].expiresAt > now
            && IdsOf(entry.attachments.value) <= sessions[sid].ids;
    }

    method SetConsuming(sid: string, consuming: bool)
      requires sid in sessions
      modifies this`sessions
      ensures sessions == old(sessions)[sid := old(sessions)[sid].(consuming := consuming)]
    {
      sessions := sessions[sid := sessions[sid].(consuming := consuming)];
    }

    /** Rotates if the line needs it, then appends it; a failed write leaves the files rotated. */
    method WriteLine(op: AppendOp)
      requires Acceptable(json, op.entry)
      modifies this`current, this`rotated, this`low, this`mid, this`history
      ensures View().trace == Step(json, old(View().trace), op)
    {
      var line := BuildLine(json, op.entry);
      Rotate(Utf8Length(line), op.rotation);
      if op.written {
        current := Some(Content(current) + line);
        history := history + [Clamp(op.entry)];
      }
    }

    method Append(op: AppendOp, now: int) returns (ok: bool)
      modifies this
      ensures (View(), ok) == BoardSessions.Append(json, old(View()), op, now)
    {
      var entry := op.entry;
      ghost var b := View();
      var admitted := Admits(entry, now);
      if !admitted { return false; }
      if entry.attachments.Some? { SetConsuming(entry.sessionId.value, true); }
      WriteLine(op);
      ghost var logged := b.(trace := Step(json, b.trace, op));
      if op.written {
        if entry.sessionId.Some? {
          if entry.attachments.Some? { commits := commits + [entry.sessionId.value]; }
          sessions := sessions - {entry.sessionId.value};
          assert sessions == b.sessions - {entry.sessionId.value};
        }
        ok := true;
        assert View() == logged.(sessions := sessions, commits := commits);
      } else {
        if entry.attachments.Some? { SetConsuming(entry.sessionId.value, false); }
        ok := false;
        assert sessions == b.sessions;
        assert View() == logged;
      }
    }

    /** Both generations as they stand; `failed` when the current file is there and cannot be read. */
    method ReadDetailed(cap: Option<nat>, all: bool, readable: bool, rotatedReadable: bool)
      returns (entries: seq<Entry>, failed: bool)
      ensures failed <==> current.Some? && !readable
      ensures entries == if failed then []
                         else Read(json, Log.Log(current, if rotatedReadable then rotated else None), cap, all)
    {
      if current.None? { return [], false; }
      if !readable { return [], true; }
      var newer := ParseLines(json, current.value, None);
      var older := ParseLines(json, if rotatedReadable then Content(rotated) else "", None);
      var both := newer + older;
      entries := if all then both else Take(both, Some(if cap.Some? then cap.value else DEFAULT_CAP));
      failed := false;
    }

    /** Every attachment id the current file mentions. */
    method CollectUsed() returns (used: set<string>)
      ensures used == UsedIds(json, Log.Log(current, rotated))
    {
      var entries := ParseLines(json, Content(current), None);
      ghost var es := Entries(json, Content(current));
      used := {};
      var i := |entries|;
      while i > 0
        invariant 0 <= i <= |entries|
        invariant used == AllReferences(es[..|entries| - i])
      {
        i := i - 1;
        ReverseAt(es, i);
        assert es[..|entries| - i][..|entries| - i - 1] == es[..|entries| - i - 1];
        used := used + References(entries[i]);
      }
      assert es[..|entries|] == es;
    }

    /** Removes the files one by one and forgets each; stops at the first that cannot be removed. */
    method RemoveFiles(sid: string, ids: seq<string>, used: set<string>, stuck: set<string>) returns (ok: bool)
      requires sid in sessions
      modifies this`sessions, this`blobs
      ensures sid in sessions && sessions == old(sessions)[sid := sessions[sid]]
      ensures (sessions[sid], blobs, ok) == RemoveEach(old(sessions)[sid], old(blobs), ids, used, stuck)
    {
      ghost var s0, blobs0 := sessions[sid], blobs;
      for i := 0 to |ids|
        invariant sid in sessions && sessions == old(sessions)[sid := sessions[sid]]
        invariant RemoveEach(s0, blobs0, ids, used, stuck) == RemoveEach(sessions[sid], blobs, ids[i..], used, stuck)
      {
        var id := ids[i];
        assert ids[i..][1..] == ids[i + 1..];
        if id in used { continue; }
        if id in stuck { return false; }
        blobs := blobs - {id};
        sessions := sessions[sid := sessions[sid].(ids := sessions[sid].ids - {id})];
      }
      assert ids[|ids|..] == [];
      ok := true;
    }

    method Remove(sid: string, ids: seq<string>, now: int, readable: bool, stuck: set<string>) returns (ok: bool)
      modifies this
      ensures (View(), ok) == RemoveAttachments(json, old(View()), sid, ids, now, readable, stuck)
    {
      if |ids| > MAX_PER_COMMENT || exists i :: 0 <= i < |ids| && !IsUuid(ids[i]) { return false; }
      if sid !in sessions || sessions[sid].consuming || sessions[sid].expiresAt <= now
         || exists i :: 0 <= i < |ids| && ids[i] !in sessions[sid].ids {
        return false;
      }
      if !readable { return false; }
      var used := CollectUsed();
      ok := RemoveFiles(sid, ids, used, stuck);
      assert sessions - {sid} == old(sessions) - {sid};
      if ok && sessions[sid].ids == {} { sessions := sessions - {sid}; }
    }

    /** What the timer of a session does when it fires. */
    method ReapExpiredSession(sid: string, now: int, readable: bool, stuck: set<string>)
      modifies this
      ensures View() == ReapExpired(json, old(View()), sid, now, readable, stuck)
    {
      due := due - {sid};
      if sid !in sessions || sessions[sid].expiresAt > now { return; }
      if !readable { return; }
      var used := CollectUsed();
      var todo := sessions[sid].ids;
      while todo != {}
        invariant sessions == old(sessions) && todo <= sessions[sid].ids
        invariant current == old(current) && rotated == old(rotated) && history == old(history)
        invariant low == old(low) && mid == old(mid) && issued == old(issued) && commits == old(commits)
        invariant fragments == old(fragments) && due == old(due) - {sid}
        invariant blobs == old(blobs) - ((sessions[sid].ids - todo) - used - stuck)
        decreases todo
      {
        var id :| id in todo;
        todo := todo - {id};
        if id !in used && id !in stuck { blobs := blobs - {id}; }
      }
      sessions := sessions - {sid};
    }
  }

  lemma {:induction false} ReverseAt(es: seq<Entry>, i: nat)
    requires i < |es|
    ensures Reverse(es)[i] == es[|es| - 1 - i]
  {
    if i < |es| - 1 { ReverseAt(es[1..], i); }
  }
}
