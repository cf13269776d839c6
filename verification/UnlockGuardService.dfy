/** The guard object: one failure record and one climb per file, updated in place. The clock, the
    ladder's verdict and whether it has a question left are parameters. */
module UnlockGuardService {

  import opened UnlockGuard

  class ArchiveUnlockGuard {
    var rate: map<string, Rate>
    var ladders: map<string, Ladder>

    ghost function View(): Guard
      reads this
    {
      Guard(rate, ladders)
    }

    constructor ()
      ensures View() == EMPTY_GUARD
    {
      rate, ladders := map[], map[];
    }

    method LadderOf(key: string, lockouts: nat)
      requires lockouts == RateOf(rate, key).lockouts
      modifies this`ladders
      ensures View() == LadderFor(old(View()), key)
      ensures key in ladders && ladders[key].lockouts == lockouts
    {
      if key in ladders && ladders[key].lockouts == lockouts { return; }
      var climb := if key in ladders then ladders[key].climb + 1 else 0;
      ladders := ladders[key := Ladder(climb, lockouts)];
    }

    /** `up` says whether the file's ladder can still be climbed. */
    method State(key: string, now: nat, up: bool) returns (waitMs: nat, fails: nat, ladderAvailable: bool)
      modifies this`ladders
      ensures View() == StateOf(old(View()), key, now)
      ensures waitMs == WaitMs(RateOf(rate, key), now) && fails == RateOf(rate, key).fails
      ensures ladderAvailable <==> waitMs > 0 && up
    {
      if key !in rate || rate[key].fails < THRESHOLD { return 0, RateOf(rate, key).fails, false; }
      var s := rate[key];
      var left := s.lastFailAt + NextLockoutMs(if s.lockouts == 0 then 0 else s.lockouts - 1) - now;
      waitMs := if left <= 0 then 0 else left;
      if waitMs > 0 { LadderOf(key, s.lockouts); }
      fails, ladderAvailable := s.fails, waitMs > 0 && up;
    }

    method Failed(key: string, now: nat, up: bool) returns (waitMs: nat, fails: nat, ladderAvailable: bool)
      modifies this
      ensures View() == RecordFailure(old(View()), key, now)
      ensures waitMs == WaitMs(RateOf(rate, key), now) && fails == RateOf(old(rate), key).fails + 1
      ensures ladderAvailable <==> waitMs > 0 && up
    {
      ghost var g := View();
      var prev := RateOf(rate, key);
      fails := prev.fails + 1;
      var startsNewLockout := false;
      if fails >= THRESHOLD {
        var left, _, _ := State(key, now, up);
        startsNewLockout := left == 0;
      }
      assert View() == if prev.fails + 1 >= THRESHOLD then StateOf(g, key, now) else g;
      rate := rate[key := Rate(fails, now, if startsNewLockout then prev.lockouts + 1 else prev.lockouts)];
      assert rate == g.rate[key := Fail(prev, now)];
      waitMs, fails, ladderAvailable := State(key, now, up);
    }

    method Succeeded(key: string)
      modifies this
      ensures View() == RecordSuccess(old(View()), key)
    {
      rate := rate - {key};
      ladders := ladders - {key};
    }

    method ClearWaitByLadder(key: string)
      modifies this`rate
      ensures rate == if key in old(rate) then old(rate)[key := ClearWait(old(rate)[key])] else old(rate)
    {
      if key in rate { rate := rate[key := rate[key].(lastFailAt := 0)]; }
    }

    /** Hands out the next question, if there is a wait to end and the ladder has one. */
    method IssueChallenge(key: string, now: nat, up: bool) returns (offered: bool, waitMs: nat)
      modifies this`ladders
      ensures View() == Apply(old(View()), Issue(key, now))
      ensures waitMs == WaitMs(RateOf(rate, key), now) && (offered <==> waitMs > 0 && up)
    {
      var left, _, _ := State(key, now, up);
      waitMs := left;
      LadderOf(key, RateOf(rate, key).lockouts);
      offered := waitMs > 0 && up;
    }

    /** Grades an answer: true when the wait is over, by itself or through the cleared round. */
    method VerifyAnswer(key: string, now: nat, cleared: bool) returns (over: bool, waitMs: nat)
      modifies this
      ensures View() == Verify(old(View()), key, now, cleared)
      ensures over <==> cleared || old(WaitMs(RateOf(rate, key), now)) == 0
      ensures waitMs == WaitMs(RateOf(rate, key), now)
    {
      LadderOf(key, RateOf(rate, key).lockouts);
      var left, _, _ := State(key, now, true);
      if left == 0 { return true, 0; }
      if cleared { ClearWaitByLadder(key); }
      over := cleared;
      var after, _, _ := State(key, now, true);
      waitMs := after;
    }
  }
}
