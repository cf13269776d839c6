/** The escalating wait on a protected file after wrong passwords, and the ladder that may end a
    wait without touching the escalation. */
module UnlockGuard {

  const THRESHOLD: nat := 5
  const BASE_MS: int := 60000
  const CAP_MS: int := 3600000

  datatype Rate = Rate(fails: nat, lastFailAt: nat, lockouts: nat)

  const FRESH := Rate(0, 0, 0)

  function Power(n: nat): (p: nat)
    ensures p >= 1
  {
    if n == 0 then 1 else 2 * Power(n - 1)
  }

  function Least(a: int, b: int): int { if a <= b then a else b }

  /** The length of a wait after the given number of earlier ones: doubling, then capped. */
  function NextLockoutMs(n: nat): (ms: int)
    ensures BASE_MS <= ms <= CAP_MS
  {
    Least(CAP_MS, BASE_MS * Power(Least(n, 20)))
  }

  lemma {:induction false} PowerGrows(m: nat, n: nat)
    requires m <= n
    ensures Power(m) <= Power(n)
  {
    if m < n { PowerGrows(m, n - 1); }
  }

  /** Later waits are never shorter. */
  lemma LockoutGrows(m: nat, n: nat)
    requires m <= n
    ensures NextLockoutMs(m) <= NextLockoutMs(n)
  {
    PowerGrows(Least(m, 20), Least(n, 20));
    assert BASE_MS * Power(Least(m, 20)) <= BASE_MS * Power(Least(n, 20));
  }

  /** The first wait is a minute, and each later one twice the one before, until it is an hour. */
  lemma LockoutDoubles(n: nat)
    ensures NextLockoutMs(0) == 60000
    ensures NextLockoutMs(n + 1) == Least(3600000, 2 * NextLockoutMs(n))
  {
    assert Power(0) == 1;
    if n < 20 {
      assert Power(n + 1) == 2 * Power(n);
    } else {
      assert Power(5) == 32 && Power(6) == 64;
      PowerGrows(6, 20);
    }
  }

  /** Milliseconds still to wait. */
  function WaitMs(r: Rate, now: nat): (ms: nat) {
    if r.fails < THRESHOLD then 0
    else
      var left := r.lastFailAt + NextLockoutMs(if r.lockouts == 0 then 0 else r.lockouts - 1) - now;
      if left <= 0 then 0 else left
  }

  function RateOf(rate: map<string, Rate>, key: string): Rate { if key in rate then rate[key] else FRESH }

  function Fail(r: Rate, now: nat): Rate {
    var fails := r.fails + 1;
    // The wait is looked up for the recorded state, before this failure.
    Rate(fails, now, if fails >= THRESHOLD && WaitMs(r, now) == 0 then r.lockouts + 1 else r.lockouts)
  }

  /** Ending the wait: everything but the time of the last failure survives. */
  function ClearWait(r: Rate): Rate { r.(lastFailAt := 0) }

  // ---- the whole guard ----------------------------------------------------------------------

  /** A file's climb, with the lockout count that minted it; `climb` numbers the fresh climbs. */
  datatype Ladder = Ladder(climb: nat, lockouts: nat)

  datatype Guard = Guard(rate: map<string, Rate>, ladders: map<string, Ladder>)

  const EMPTY_GUARD := Guard(map[], map[])

  /** The climb for a file: resumed while the lockout count stands, started afresh once it has moved. */
  function LadderFor(g: Guard, key: string): Guard {
    var lockouts := RateOf(g.rate, key).lockouts;
    if key in g.ladders && g.ladders[key].lockouts == lockouts then g
    else
      var climb := if key in g.ladders then g.ladders[key].climb + 1 else 0;
      g.(ladders := g.ladders[key := Ladder(climb, lockouts)])
  }

  /** Looking the state up mints a climb only while there is a wait. */
  function StateOf(g: Guard, key: string, now: nat): Guard {
    if WaitMs(RateOf(g.rate, key), now) > 0 then LadderFor(g, key) else g
  }

  function RecordFailure(g: Guard, key: string, now: nat): Guard {
    var looked := if RateOf(g.rate, key).fails + 1 >= THRESHOLD then StateOf(g, key, now) else g;
    StateOf(looked.(rate := g.rate[key := Fail(RateOf(g.rate, key), now)]), key, now)
  }

  function RecordSuccess(g: Guard, key: string): Guard {
    Guard(g.rate - {key}, g.ladders - {key})
  }

  /** Grading an answer; a cleared round ends the wait, if one is still running. */
  function Verify(g: Guard, key: string, now: nat, cleared: bool): Guard {
    var g' := StateOf(LadderFor(g, key), key, now);
    if WaitMs(RateOf(g.rate, key), now) > 0 && cleared then
      g'.(rate := g.rate[key := ClearWait(RateOf(g.rate, key))])
    else g'
  }

  datatype Op =
    | Failure(key: string, now: nat)
    | Success(key: string)
    | Issue(key: string, now: nat)
    | Answer(key: string, now: nat, cleared: bool)

  function Apply(g: Guard, op: Op): Guard {
    match op
    case Failure(key, now) => RecordFailure(g, key, now)
    case Success(key) => RecordSuccess(g, key)
    case Issue(key, now) => LadderFor(StateOf(g, key, now), key)
    case Answer(key, now, cleared) => Verify(g, key, now, cleared)
  }

  function Run(g: Guard, ops: seq<Op>): Guard {
    if ops == [] then g else Apply(Run(g, ops[..|ops| - 1]), ops[|ops| - 1])
  }

  // ---- one file -----------------------------------------------------------------------------

  /** What an operation does to one file's record; nothing unless it names the file. */
  function RateStep(r: Rate, op: Op, key: string): Rate {
    if op.key != key then r
    else match op
         case Failure(_, now) => Fail(r, now)
         case Success(_) => FRESH
         case Issue(_, _) => r
         case Answer(_, now, cleared) => if WaitMs(r, now) > 0 && cleared then ClearWait(r) else r
  }

  function RateRun(r: Rate, ops: seq<Op>, key: string): Rate {
    if ops == [] then r else RateStep(RateRun(r, ops[..|ops| - 1], key), ops[|ops| - 1], key)
  }

  /** Files do not affect one another: each record follows from the operations on that file. */
  lemma {:induction false} FilesAreIndependent(g: Guard, ops: seq<Op>, key: string)
    ensures RateOf(Run(g, ops).rate, key) == RateRun(RateOf(g.rate, key), ops, key)
  {
    if ops != [] {
      FilesAreIndependent(g, ops[..|ops| - 1], key);
      RateOfStep(Run(g, ops[..|ops| - 1]), ops[|ops| - 1], key);
    }
  }

  lemma RateOfStep(g: Guard, op: Op, key: string)
    ensures RateOf(Apply(g, op).rate, key) == RateStep(RateOf(g.rate, key), op, key)
  {
    match op
    case Failure(k, now) => assert RecordFailure(g, k, now).rate == g.rate[k := Fail(RateOf(g.rate, k), now)];
    case _ =>
  }

  // ---- skipping a wait ----------------------------------------------------------------------

  /** Clearing a round ends the wait exactly when the clock has passed the length of the wait
      counted from zero: the record does not say that the wait is over, only that it began then. */
  lemma ClearEndsWait(r: Rate, now: nat)
    requires WaitMs(r, now) > 0
    ensures WaitMs(ClearWait(r), now) == 0 <==> now >= NextLockoutMs(if r.lockouts == 0 then 0 else r.lockouts - 1)
  {
  }

  lemma {:induction false} RateRunConcat(r: Rate, a: seq<Op>, b: seq<Op>, key: string)
    ensures RateRun(r, a + b, key) == RateRun(RateRun(r, a, key), b, key)
  {
    if b == [] {
      assert a + b == a;
    } else {
      assert (a + b)[..|a + b| - 1] == a + b[..|b| - 1];
      RateRunConcat(r, a, b[..|b| - 1], key);
    }
  }

  /** In any run, ending a wait by the ladder instead of letting the clock end it leaves one and the
      same record after the next failure, and so one wait and one escalation on every
      continuation. */
  lemma SkippedEqualsServed(front: seq<Op>, key: string, clearedAt: nat, next: nat, rest: seq<Op>)
    requires WaitMs(RateOf(Run(EMPTY_GUARD, front).rate, key), next) == 0
    ensures RateOf(Run(EMPTY_GUARD, front + [Answer(key, clearedAt, true), Failure(key, next)] + rest).rate, key)
         == RateOf(Run(EMPTY_GUARD, front + [Failure(key, next)] + rest).rate, key)
  {
    var answer, failure := Answer(key, clearedAt, true), Failure(key, next);
    var r := RateRun(FRESH, front, key);
    FilesAreIndependent(EMPTY_GUARD, front, key);
    ShortRuns(r, answer, failure, key);
    SameMiddle(front, [answer, failure], [failure], rest, key);
  }

  lemma ShortRuns(r: Rate, a: Op, b: Op, key: string)
    ensures RateRun(r, [b], key) == RateStep(r, b, key)
    ensures RateRun(r, [a, b], key) == RateStep(RateStep(r, a, key), b, key)
  {
    assert [b][..0] == [] && [a, b][..1] == [a] && [a][..0] == [];
  }

  /** Two stretches with the same effect on a record can be exchanged inside any run. */
  lemma SameMiddle(front: seq<Op>, a: seq<Op>, b: seq<Op>, rest: seq<Op>, key: string)
    requires RateRun(RateRun(FRESH, front, key), a, key) == RateRun(RateRun(FRESH, front, key), b, key)
    ensures RateOf(Run(EMPTY_GUARD, front + a + rest).rate, key)
         == RateOf(Run(EMPTY_GUARD, front + b + rest).rate, key)
  {
    MiddleRun(front, a, rest, key);
    MiddleRun(front, b, rest, key);
  }

  lemma MiddleRun(front: seq<Op>, a: seq<Op>, rest: seq<Op>, key: string)
    ensures RateOf(Run(EMPTY_GUARD, front + a + rest).rate, key)
         == RateRun(RateRun(RateRun(FRESH, front, key), a, key), rest, key)
  {
    FilesAreIndependent(EMPTY_GUARD, front + a + rest, key);
    RateRunConcat(FRESH, front + a, rest, key);
    RateRunConcat(FRESH, front, a, key);
  }

  /** Failing again as soon as the ladder has ended the wait counts exactly as failing once the
      clock has: the same failures and one more lockout, given a clock past the wait's length. */
  lemma EarlyRetryCounts(r: Rate, clearedAt: nat, early: nat, late: nat)
    requires WaitMs(r, clearedAt) > 0 && WaitMs(r, late) == 0
    ensures var e, l := Fail(ClearWait(r), early), Fail(r, late);
            && e.fails == l.fails
            && (e.lockouts == l.lockouts <==> early >= NextLockoutMs(if r.lockouts == 0 then 0 else r.lockouts - 1))
  {
    assert r.fails >= THRESHOLD;
  }

  // ---- retrying early -----------------------------------------------------------------------

  /** The same operation `d` milliseconds later. */
  function Later(op: Op, d: nat): Op {
    match op
    case Failure(key, now) => Failure(key, now + d)
    case Success(_) => op
    case Issue(key, now) => Issue(key, now + d)
    case Answer(key, now, cleared) => Answer(key, now + d, cleared)
  }

  function AllLater(ops: seq<Op>, d: nat): (r: seq<Op>)
    ensures |r| == |ops|
    ensures forall i :: 0 <= i < |ops| ==> r[i] == Later(ops[i], d)
  {
    seq(|ops|, i requires 0 <= i < |ops| => Later(ops[i], d))
  }

  /** The clock reads more than the longest wait: with times counted from 1970, always. */
  predicate PastCap(op: Op) { op.Success? || op.now >= CAP_MS }

  /** One record is the other moved `d` milliseconds on; an ended wait starts at zero in both. */
  predicate Shifted(r: Rate, s: Rate, d: nat) {
    && r.fails == s.fails && r.lockouts == s.lockouts
    && (s.lastFailAt == r.lastFailAt + d || (s.lastFailAt == 0 && r.lastFailAt == 0))
  }

  lemma ShiftedWaits(r: Rate, s: Rate, d: nat, now: nat)
    requires Shifted(r, s, d) && now >= CAP_MS
    ensures WaitMs(s, now + d) == WaitMs(r, now)
  {
  }

  lemma ShiftedStep(r: Rate, s: Rate, d: nat, op: Op, key: string)
    requires Shifted(r, s, d) && PastCap(op)
    ensures Shifted(RateStep(r, op, key), RateStep(s, Later(op, d), key), d)
  {
    if !op.Success? { ShiftedWaits(r, s, d, op.now); }
  }

  lemma {:induction false} ShiftedRun(r: Rate, s: Rate, d: nat, ops: seq<Op>, key: string)
    requires Shifted(r, s, d)
    requires forall i :: 0 <= i < |ops| ==> PastCap(ops[i])
    ensures Shifted(RateRun(r, ops, key), RateRun(s, AllLater(ops, d), key), d)
  {
    if ops != [] {
      var front, op := ops[..|ops| - 1], ops[|ops| - 1];
      ShiftedRun(r, s, d, front, key);
      assert AllLater(ops, d)[..|ops| - 1] == AllLater(front, d);
      ShiftedStep(RateRun(r, front, key), RateRun(s, AllLater(front, d), key), d, op, key);
    }
  }

  /** Retrying at once after a cleared round is retrying after the served wait, only sooner: any
      continuation of the early retry, taken as much later after the late one, meets the same
      counters and the same waits. The clear saves its wait and nothing else. */
  lemma EarlyRetryIsLateRetrySooner(
      front: seq<Op>, key: string, clearedAt: nat, early: nat, d: nat, rest: seq<Op>, at: nat)
    requires WaitMs(RateOf(Run(EMPTY_GUARD, front).rate, key), clearedAt) > 0
    requires WaitMs(RateOf(Run(EMPTY_GUARD, front).rate, key), early + d) == 0
    requires early >= CAP_MS && at >= CAP_MS && forall i :: 0 <= i < |rest| ==> PastCap(rest[i])
    ensures var sooner := Run(EMPTY_GUARD, front + [Answer(key, clearedAt, true), Failure(key, early)] + rest);
            var later := Run(EMPTY_GUARD, front + [Failure(key, early + d)] + AllLater(rest, d));
            var r, s := RateOf(sooner.rate, key), RateOf(later.rate, key);
            r.fails == s.fails && r.lockouts == s.lockouts && WaitMs(s, at + d) == WaitMs(r, at)
  {
    var a, b := [Answer(key, clearedAt, true), Failure(key, early)], [Failure(key, early + d)];
    var r := RateRun(FRESH, front, key);
    FilesAreIndependent(EMPTY_GUARD, front, key);
    EarlyFailureShifted(r, key, clearedAt, early, d);
    MiddleRun(front, a, rest, key);
    MiddleRun(front, b, AllLater(rest, d), key);
    ShiftedRun(RateRun(r, a, key), RateRun(r, b, key), d, rest, key);
    ShiftedWaits(RateRun(RateRun(r, a, key), rest, key), RateRun(RateRun(r, b, key), AllLater(rest, d), key), d, at);
  }

  lemma EarlyFailureShifted(r: Rate, key: string, clearedAt: nat, early: nat, d: nat)
    requires WaitMs(r, clearedAt) > 0 && WaitMs(r, early + d) == 0 && early >= CAP_MS
    ensures Shifted(RateRun(r, [Answer(key, clearedAt, true), Failure(key, early)], key),
                    RateRun(r, [Failure(key, early + d)], key), d)
  {
    ShortRuns(r, Answer(key, clearedAt, true), Failure(key, early), key);
    ShortRuns(r, Answer(key, clearedAt, true), Failure(key, early + d), key);
    EarlyRetryCounts(r, clearedAt, early, early + d);
  }

  // ---- whole runs ---------------------------------------------------------------------------

  /** The same operations, with every answer failing its round. */
  function WithoutClears(ops: seq<Op>): (r: seq<Op>)
    ensures |r| == |ops|
  {
    if ops == [] then []
    else WithoutClears(ops[..|ops| - 1]) + [Uncleared(ops[|ops| - 1])]
  }

  function Uncleared(op: Op): Op { if op.Answer? then op.(cleared := false) else op }

  /** The same failures; more lockouts, or as many and no later last failure. */
  predicate NoWeaker(r: Rate, s: Rate) {
    r.fails == s.fails && (r.lockouts > s.lockouts || (r.lockouts == s.lockouts && r.lastFailAt <= s.lastFailAt))
  }

  lemma StepNoWeaker(r: Rate, s: Rate, op: Op, key: string)
    requires NoWeaker(r, s)
    ensures NoWeaker(RateStep(r, op, key), RateStep(s, Uncleared(op), key))
  {
  }

  lemma {:induction false} ClearsNeverWeaken(ops: seq<Op>, key: string)
    ensures NoWeaker(RateRun(FRESH, ops, key), RateRun(FRESH, WithoutClears(ops), key))
  {
    if ops != [] {
      var front, op := ops[..|ops| - 1], ops[|ops| - 1];
      ClearsNeverWeaken(front, key);
      var without := WithoutClears(ops);
      assert without[..|without| - 1] == WithoutClears(front) && without[|without| - 1] == Uncleared(op);
      StepNoWeaker(RateRun(FRESH, front, key), RateRun(FRESH, WithoutClears(front), key), op, key);
    }
  }

  /** Whatever waits were skipped before, each new failure starts at least the wait it would have
      started had none been skipped, and counts the same failures. No assumption on the clock. */
  lemma SkippingNeverShortensTheNextWait(ops: seq<Op>, key: string, now: nat, at: nat)
    ensures var skipped := RateOf(Run(EMPTY_GUARD, ops + [Failure(key, now)]).rate, key);
            var served := RateOf(Run(EMPTY_GUARD, WithoutClears(ops) + [Failure(key, now)]).rate, key);
            && skipped.fails == served.fails && skipped.lockouts >= served.lockouts
            && WaitMs(skipped, at) >= WaitMs(served, at)
  {
    var failure := Failure(key, now);
    FilesAreIndependent(EMPTY_GUARD, ops + [failure], key);
    FilesAreIndependent(EMPTY_GUARD, WithoutClears(ops) + [failure], key);
    assert (ops + [failure])[..|ops|] == ops;
    assert (WithoutClears(ops) + [failure])[..|ops|] == WithoutClears(ops);
    ClearsNeverWeaken(ops, key);
    var r, s := RateRun(FRESH, ops, key), RateRun(FRESH, WithoutClears(ops), key);
    StepNoWeaker(r, s, failure, key);
    var m, n := Fail(s, now).lockouts, Fail(r, now).lockouts;
    LockoutGrows(if m == 0 then 0 else m - 1, if n == 0 then 0 else n - 1);
  }

  /** The wait a failure starts or starts again is the whole wait of the file's lockouts: whatever was
      skipped before, a minute after the first lockout, and after each later one twice the wait of the
      one before, up to an hour. It runs down with the clock. */
  lemma FailureStartsWait(ops: seq<Op>, key: string, now: nat, later: nat)
    ensures var before := RateOf(Run(EMPTY_GUARD, ops).rate, key);
            var after := RateOf(Run(EMPTY_GUARD, ops + [Failure(key, now)]).rate, key);
            && after.fails == before.fails + 1
            && after.lockouts == before.lockouts + (if after.fails >= 5 && WaitMs(before, now) == 0 then 1 else 0)
            && (after.fails >= 5 ==> after.lockouts > 0)
            && WaitMs(after, now) == (if after.fails < 5 then 0 else NextLockoutMs(after.lockouts - 1))
            && WaitMs(after, now + later) == if later >= WaitMs(after, now) then 0 else WaitMs(after, now) - later
  {
    LockedOutExactly(ops + [Failure(key, now)], key);
    FilesAreIndependent(EMPTY_GUARD, ops, key);
    FilesAreIndependent(EMPTY_GUARD, ops + [Failure(key, now)], key);
    assert (ops + [Failure(key, now)])[..|ops|] == ops;
  }

  /** Two lockouts that follow one another, in any run and whatever lies between them: the second wait
      is twice the first, up to an hour. */
  lemma SecondWaitIsTwice(before: seq<Op>, between: seq<Op>, key: string, first: nat, second: nat)
    requires var one := before + [Failure(key, first)];
             var r, s := RateOf(Run(EMPTY_GUARD, before).rate, key), RateOf(Run(EMPTY_GUARD, one).rate, key);
             var t := RateOf(Run(EMPTY_GUARD, one + between).rate, key);
             s.lockouts == r.lockouts + 1 && t.lockouts == s.lockouts && t.fails >= 5 && WaitMs(t, second) == 0
    ensures var one := before + [Failure(key, first)];
            var s := RateOf(Run(EMPTY_GUARD, one).rate, key);
            var u := RateOf(Run(EMPTY_GUARD, one + between + [Failure(key, second)]).rate, key);
            u.lockouts == s.lockouts + 1 && WaitMs(u, second) == Least(3600000, 2 * WaitMs(s, first))
  {
    var one := before + [Failure(key, first)];
    FailureStartsWait(before, key, first, 0);
    FailureStartsWait(one + between, key, second, 0);
    LockoutDoubles(RateOf(Run(EMPTY_GUARD, before).rate, key).lockouts);
  }

  /** The right password apart, no operation lowers a file's failures or lockouts. */
  lemma {:induction false} CountersNeverFall(g: Guard, ops: seq<Op>, key: string)
    requires forall i :: 0 <= i < |ops| ==> !(ops[i].Success? && ops[i].key == key)
    ensures var before, after := RateOf(g.rate, key), RateOf(Run(g, ops).rate, key);
            after.fails >= before.fails && after.lockouts >= before.lockouts
  {
    FilesAreIndependent(g, ops, key);
    if ops != [] {
      FilesAreIndependent(g, ops[..|ops| - 1], key);
      CountersNeverFall(g, ops[..|ops| - 1], key);
    }
  }

  /** In every run a file has had a lockout exactly when it has had five failures, and never more
      lockouts than failures from the fifth on. */
  lemma {:induction false} LockedOutExactly(ops: seq<Op>, key: string)
    ensures var r := RateOf(Run(EMPTY_GUARD, ops).rate, key);
            (r.lockouts > 0 <==> r.fails >= 5) && r.lockouts + 4 <= (if r.fails < 4 then 4 else r.fails)
  {
    FilesAreIndependent(EMPTY_GUARD, ops, key);
    if ops != [] {
      FilesAreIndependent(EMPTY_GUARD, ops[..|ops| - 1], key);
      LockedOutExactly(ops[..|ops| - 1], key);
    }
  }

  /** A file has had no more climbs than lockouts, beyond the first. */
  lemma {:induction false} ClimbsFollowLockouts(ops: seq<Op>, key: string)
    ensures var g := Run(EMPTY_GUARD, ops);
            key in g.ladders ==>
              g.ladders[key].climb <= g.ladders[key].lockouts <= RateOf(g.rate, key).lockouts
  {
    if ops != [] {
      var front, op := ops[..|ops| - 1], ops[|ops| - 1];
      ClimbsFollowLockouts(front, key);
      ClimbStep(Run(EMPTY_GUARD, front), op, key);
    }
  }

  predicate ClimbsBounded(g: Guard, key: string) {
    key in g.ladders ==> g.ladders[key].climb <= g.ladders[key].lockouts <= RateOf(g.rate, key).lockouts
  }

  lemma ClimbStep(g: Guard, op: Op, key: string)
    requires ClimbsBounded(g, key)
    ensures ClimbsBounded(Apply(g, op), key)
  {
    LadderKeeps(g, op.key, key);
    match op
    case Failure(k, now) =>
      var looked := if RateOf(g.rate, k).fails + 1 >= THRESHOLD then StateOf(g, k, now) else g;
      LadderKeeps(looked.(rate := g.rate[k := Fail(RateOf(g.rate, k), now)]), k, key);
    case Success(k) =>
    case Issue(k, now) => LadderKeeps(StateOf(g, k, now), k, key);
    case Answer(k, now, cleared) => LadderKeeps(LadderFor(g, k), k, key);
  }

  lemma LadderKeeps(g: Guard, k: string, key: string)
    requires ClimbsBounded(g, key)
    ensures ClimbsBounded(LadderFor(g, k), key)
  {
  }

  /** How one step may change a file's climb: not at all, or to the next climb for a lockout count
      that has grown to the present one. */
  predicate ClimbMoves(g: Guard, g': Guard, key: string)
    requires key in g.ladders && key in g'.ladders
  {
    var before, after := g.ladders[key], g'.ladders[key];
    after != before ==>
      && after.climb == before.climb + 1
      && before.lockouts < after.lockouts == RateOf(g'.rate, key).lockouts
  }

  /** In every run, a step mints a fresh climb for a file exactly when the lockout the climb belongs
      to changes, and then to a later lockout, the present one: a climb within one lockout is never
      restarted. Asking for a question, or answering one, always brings the climb up to date. */
  lemma FreshClimbIsNewLockout(ops: seq<Op>, op: Op, key: string)
    ensures var g, g' := Run(EMPTY_GUARD, ops), Run(EMPTY_GUARD, ops + [op]);
            && (key in g.ladders && key in g'.ladders ==> ClimbMoves(g, g', key))
            && (key !in g.ladders && key in g'.ladders ==>
                  g'.ladders[key] == Ladder(0, RateOf(g'.rate, key).lockouts))
            && (op.key == key && (op.Issue? || op.Answer?) ==>
                  key in g'.ladders && g'.ladders[key].lockouts == RateOf(g'.rate, key).lockouts)
  {
    assert (ops + [op])[..|ops|] == ops;
    var g := Run(EMPTY_GUARD, ops);
    ClimbsFollowLockouts(ops, key);
    ClimbsFollowLockouts(ops, op.key);
    if op.Failure? { FailureMoves(g, op.key, op.now, key); }
  }

  lemma FailureMoves(g: Guard, k: string, now: nat, key: string)
    requires ClimbsBounded(g, key)
    ensures var g' := RecordFailure(g, k, now);
            && (key in g.ladders && key in g'.ladders ==> ClimbMoves(g, g', key))
            && (key !in g.ladders && key in g'.ladders ==>
                  g'.ladders[key] == Ladder(0, RateOf(g'.rate, key).lockouts))
  {
  }

  /** A climb is only ever minted while there is a wait to end, or by asking or answering; and the right
      password forgets it. */
  lemma ClimbNeedsWait(g: Guard, op: Op, key: string)
    ensures op.Failure? && op.key == key && WaitMs(RateOf(g.rate, key), op.now) == 0
            && WaitMs(Fail(RateOf(g.rate, key), op.now), op.now) == 0 ==>
              (key in Apply(g, op).ladders <==> key in g.ladders)
              && (key in g.ladders ==> Apply(g, op).ladders[key] == g.ladders[key])
    ensures op.Success? && op.key == key ==> key !in Apply(g, op).ladders && key !in Apply(g, op).rate
    ensures op.key != key ==> (key in Apply(g, op).ladders <==> key in g.ladders)
    ensures op.key != key && key in g.ladders ==> Apply(g, op).ladders[key] == g.ladders[key]
  {
  }
}
