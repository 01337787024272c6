/** The sliding one-second throttle on transfers.  The policy stores only the recent transfer times
    (trimmed by age before a transfer and by number after it); `history` is the full record the
    guarantee is about. */
module Throttle {
  import opened Common

  datatype State = State(
    recent: seq<int>,   // recentTransferTimes
    history: seq<int>,  // every recorded transfer time since start
    clock: int)         // the latest time observed

  /** The stored times without the leading ones below `windowStart`. */
  function Young(times: seq<int>, windowStart: int): seq<int> {
    if times != [] && times[0] < windowStart then Young(times[1..], windowStart) else times
  }

  /** How long `_waitForThrottleSlot` waits. */
  function WaitMs(young: seq<int>, limit: nat, now: int): int
    requires limit >= 1
  {
    if |young| < limit then 0 else Max(0, young[0] + 1000 - now)
  }

  function Trim(times: seq<int>, limit: nat): seq<int> {
    if |times| > limit then times[|times| - limit..] else times
  }

  /** `_waitForThrottleSlot` evicts old times ... */
  function Acquired(s: State, now: int): State {
    s.(recent := Young(s.recent, now - 1000), clock := now)
  }

  /** ... and lets the transfer start from this time on. */
  function ReadyAt(s: State, now: int, limit: nat): int
    requires limit >= 1
  {
    now + WaitMs(Young(s.recent, now - 1000), limit, now)
  }

  /** After a successful transfer. */
  function Recorded(s: State, at: int, limit: nat): State {
    State(Trim(s.recent + [at], limit), s.history + [at], at)
  }

  /** Any `limit + 1` consecutive times span at least a second. */
  ghost predicate Spaced(times: seq<int>, limit: nat) {
    forall i, j :: 0 <= i < j < |times| && j == i + limit ==> times[j] - times[i] >= 1000
  }

  /** What is stored is a suffix of the record ... */
  ghost predicate IsSuffix(s: State, limit: nat) {
    && |s.recent| <= limit && |s.recent| <= |s.history|
    && s.recent == s.history[|s.history| - |s.recent|..]
  }

  /** ... and of the last `limit` entries only those older than a second are missing from it. */
  ghost predicate MissingAreOld(s: State, limit: nat) {
    forall i :: 0 <= i < |s.history| - |s.recent| && |s.history| - limit <= i
      ==> s.history[i] < s.clock - 1000
  }

  ghost predicate Timely(s: State) {
    InTimeOrder(s.history) && forall t :: t in s.history ==> t <= s.clock
  }

  ghost predicate Inv(s: State, limit: nat) {
    IsSuffix(s, limit) && MissingAreOld(s, limit) && Timely(s)
  }

  /** A transfer recorded from `ready` on would respect the limit. */
  ghost predicate Slot(s: State, ready: int, limit: nat)
    requires limit >= 1
  {
    |s.history| >= limit ==> ready - s.history[|s.history| - limit] >= 1000
  }

  lemma {:induction false} YoungSuffix(times: seq<int>, w: int) returns (k: nat)
    requires InTimeOrder(times)
    ensures k <= |times| && Young(times, w) == times[k..]
    ensures forall i :: 0 <= i < k ==> times[i] < w
    ensures forall i :: k <= i < |times| ==> times[i] >= w
  {
    if times != [] && times[0] < w {
      var k' := YoungSuffix(times[1..], w);
      k := k' + 1;
    } else {
      k := 0;
    }
  }

  lemma RecentInOrder(s: State, limit: nat)
    requires IsSuffix(s, limit) && Timely(s)
    ensures InTimeOrder(s.recent)
  {
    var gap := |s.history| - |s.recent|;
    assert forall i :: 0 <= i < |s.recent| ==> s.recent[i] == s.history[gap + i];
  }

  lemma AcquireKeepsInv(s: State, now: int, limit: nat)
    requires Inv(s, limit) && s.clock <= now
    ensures Inv(Acquired(s, now), limit)
  {
    RecentInOrder(s, limit);
    var k := YoungSuffix(s.recent, now - 1000);
    DroppedAreOld(s, now, limit, k);
  }

  lemma DroppedAreOld(s: State, now: int, limit: nat, k: nat)
    requires IsSuffix(s, limit) && MissingAreOld(s, limit) && s.clock <= now
    requires k <= |s.recent| && forall i :: 0 <= i < k ==> s.recent[i] < now - 1000
    ensures var s' := s.(recent := s.recent[k..], clock := now);
            IsSuffix(s', limit) && MissingAreOld(s', limit)
  {
    var gap := |s.history| - |s.recent|;
    assert s.recent[k..] == s.history[gap + k..];
    forall i | 0 <= i < gap + k && |s.history| - limit <= i ensures s.history[i] < now - 1000 {
      if i >= gap { assert s.history[i] == s.recent[i - gap]; }
    }
  }

  lemma AcquireGivesSlot(s: State, now: int, limit: nat)
    requires limit >= 1 && Inv(s, limit) && s.clock <= now
    ensures Slot(Acquired(s, now), ReadyAt(s, now, limit), limit)
  {
    AcquireKeepsInv(s, now, limit);
    var s' := Acquired(s, now);
    var oldest := |s'.history| - limit;
    if oldest >= 0 && |s'.recent| == limit { assert s'.history[oldest] == s'.recent[0]; }
  }

  /** The wait is the least one that gives a slot. */
  lemma WaitIsLeast(s: State, now: int, limit: nat, at: int)
    requires limit >= 1 && Inv(s, limit) && s.clock <= now <= at
    ensures Slot(Acquired(s, now), at, limit) <==> at >= ReadyAt(s, now, limit)
  {
    AcquireKeepsInv(s, now, limit);
    AcquireGivesSlot(s, now, limit);
    var s' := Acquired(s, now);
    if |s'.recent| == limit { assert s'.history[|s'.history| - limit] == s'.recent[0]; }
  }

  lemma RecordStaysStored(s: State, at: int, limit: nat)
    requires IsSuffix(s, limit) && MissingAreOld(s, limit) && s.clock <= at
    ensures var s' := Recorded(s, at, limit); IsSuffix(s', limit) && MissingAreOld(s', limit)
  {
    var s' := Recorded(s, at, limit);
    assert s.recent + [at] == s'.history[|s.history| - |s.recent|..];
    assert s'.recent == s'.history[|s'.history| - |s'.recent|..];
  }

  lemma RecordStaysSpaced(s: State, at: int, limit: nat)
    requires limit >= 1 && Spaced(s.history, limit) && Slot(s, at, limit)
    ensures Spaced(s.history + [at], limit)
  {
    var h := s.history + [at];
    forall i, j | 0 <= i < j < |h| && j == i + limit ensures h[j] - h[i] >= 1000 {
      if j < |s.history| { assert s.history[j] - s.history[i] >= 1000; }
    }
  }

  lemma RecordKeepsInv(s: State, at: int, limit: nat)
    requires Inv(s, limit) && s.clock <= at
    ensures Inv(Recorded(s, at, limit), limit)
  {
    RecordStaysStored(s, at, limit);
    assert forall i :: 0 <= i < |s.history| ==> s.history[i] in s.history;
  }

  // ---- Transfers in flight ------------------------------------------------------------------------

  /** One `_throttledTransfer`: waiting for its slot, or in the call of `router.transfer`. */
  datatype Flight = Waiting(ready: int) | Calling

  /** Passes can overlap, so any number of transfers can be in flight; `calls` holds the times of all
      calls of `router.transfer`, whatever became of them. */
  datatype Traffic = Traffic(core: State, flights: seq<Flight>, calls: seq<int>)

  datatype Action =
    | Acquire(now: int)
    | Call(i: nat, at: int)
    | Finish(i: nat, at: int, succeeded: bool)

  function Idle(startedAt: int): Traffic { Traffic(State([], [], startedAt), [], []) }

  ghost predicate Enabled(t: Traffic, a: Action) {
    match a
    case Acquire(now) => t.core.clock <= now
    case Call(i, at) =>
      i < |t.flights| && t.flights[i].Waiting? && t.flights[i].ready <= at && t.core.clock <= at
    case Finish(i, at, _) => i < |t.flights| && t.flights[i].Calling? && t.core.clock <= at
  }

  ghost function Step(t: Traffic, a: Action, limit: nat): Traffic
    requires limit >= 1 && Enabled(t, a)
  {
    match a
    case Acquire(now) =>
      t.(core := Acquired(t.core, now), flights := t.flights + [Waiting(ReadyAt(t.core, now, limit))])
    case Call(i, at) =>
      t.(core := t.core.(clock := at), flights := t.flights[i := Calling], calls := t.calls + [at])
    case Finish(i, at, succeeded) =>
      t.(core := if succeeded then Recorded(t.core, at, limit) else t.core.(clock := at),
         flights := t.flights[..i] + t.flights[i + 1..])
  }

  /** A run with at most `w` transfers in flight at any time, and failing ones only if `mayFail`. */
  ghost predicate IsRun(t: Traffic, run: seq<Action>, w: nat, mayFail: bool, limit: nat)
    requires limit >= 1
    decreases |run|
  {
    && |t.flights| <= w
    && (run != [] ==>
         && Enabled(t, run[0])
         && (run[0].Finish? ==> run[0].succeeded || mayFail)
         && IsRun(Step(t, run[0], limit), run[1..], w, mayFail, limit))
  }

  ghost function After(t: Traffic, run: seq<Action>, w: nat, mayFail: bool, limit: nat): Traffic
    requires limit >= 1 && IsRun(t, run, w, mayFail, limit)
    decreases |run|
  {
    if run == [] then t else After(Step(t, run[0], limit), run[1..], w, mayFail, limit)
  }

  // ---- One transfer at a time -----------------------------------------------------------------------

  ghost predicate FlightHasSlot(t: Traffic, limit: nat)
    requires limit >= 1 && |t.flights| == 1
  {
    Slot(t.core, if t.flights[0].Waiting? then t.flights[0].ready else t.core.clock, limit)
  }

  ghost predicate SerialInv(t: Traffic, limit: nat)
    requires limit >= 1
  {
    && Inv(t.core, limit) && Spaced(t.core.history, limit)
    && |t.flights| <= 1 && (|t.flights| == 1 ==> FlightHasSlot(t, limit))
  }

  lemma InvLater(s: State, at: int, limit: nat)
    requires Inv(s, limit) && s.clock <= at
    ensures Inv(s.(clock := at), limit)
  {
  }

  lemma AcquireKeepsSerial(t: Traffic, now: int, limit: nat)
    requires limit >= 1 && SerialInv(t, limit) && t.core.clock <= now && t.flights == []
    ensures SerialInv(Step(t, Acquire(now), limit), limit)
  {
    AcquireKeepsInv(t.core, now, limit);
    AcquireGivesSlot(t.core, now, limit);
  }

  lemma CallKeepsSerial(t: Traffic, i: nat, at: int, limit: nat)
    requires limit >= 1 && SerialInv(t, limit) && Enabled(t, Call(i, at))
    ensures SerialInv(Step(t, Call(i, at), limit), limit)
  {
    InvLater(t.core, at, limit);
  }

  lemma FinishKeepsSerial(t: Traffic, i: nat, at: int, succeeded: bool, limit: nat)
    requires limit >= 1 && SerialInv(t, limit) && Enabled(t, Finish(i, at, succeeded))
    ensures SerialInv(Step(t, Finish(i, at, succeeded), limit), limit)
  {
    if succeeded {
      RecordKeepsInv(t.core, at, limit);
      RecordStaysSpaced(t.core, at, limit);
    } else {
      InvLater(t.core, at, limit);
    }
  }

  lemma StepKeepsSerial(t: Traffic, a: Action, limit: nat)
    requires limit >= 1 && SerialInv(t, limit) && Enabled(t, a) && |Step(t, a, limit).flights| <= 1
    ensures SerialInv(Step(t, a, limit), limit)
  {
    match a
    case Acquire(now) => AcquireKeepsSerial(t, now, limit);
    case Call(i, at) => CallKeepsSerial(t, i, at, limit);
    case Finish(i, at, succeeded) => FinishKeepsSerial(t, i, at, succeeded, limit);
  }

  lemma {:induction false} RunKeepsSerial(t: Traffic, run: seq<Action>, w: nat, mayFail: bool, limit: nat)
    requires limit >= 1 && w <= 1 && SerialInv(t, limit) && IsRun(t, run, w, mayFail, limit)
    ensures SerialInv(After(t, run, w, mayFail, limit), limit)
    decreases |run|
  {
    if run != [] {
      StepKeepsSerial(t, run[0], limit);
      RunKeepsSerial(Step(t, run[0], limit), run[1..], w, mayFail, limit);
    }
  }

  /** Without failures every call is recorded, no earlier than it was made. */
  ghost predicate CallsInv(t: Traffic, limit: nat) {
    && Spaced(t.calls, limit)
    && |t.calls| == |t.core.history| + (if t.flights == [Calling] then 1 else 0)
    && (forall i :: 0 <= i < |t.core.history| ==> t.calls[i] <= t.core.history[i])
    && (forall c :: c in t.calls ==> c <= t.core.clock)
  }

  lemma CallStaysSpaced(t: Traffic, at: int, limit: nat)
    requires limit >= 1 && CallsInv(t, limit) && |t.calls| == |t.core.history| && Slot(t.core, at, limit)
    ensures Spaced(t.calls + [at], limit)
  {
    var c := t.calls + [at];
    forall i, j | 0 <= i < j < |c| && j == i + limit ensures c[j] - c[i] >= 1000 {
      if j < |t.calls| { assert t.calls[j] - t.calls[i] >= 1000; }
    }
  }

  lemma StepKeepsCalls(t: Traffic, a: Action, limit: nat)
    requires limit >= 1 && SerialInv(t, limit) && CallsInv(t, limit) && Enabled(t, a)
    requires |Step(t, a, limit).flights| <= 1 && (a.Finish? ==> a.succeeded)
    ensures CallsInv(Step(t, a, limit), limit)
  {
    match a
    case Acquire(_) => assert t.flights == [] && Step(t, a, limit).flights[0].Waiting?;
    case Call(_, at) => CallStaysSpaced(t, at, limit);
    case Finish(_, at, _) => assert t.flights == [Calling] && t.calls[|t.core.history|] in t.calls;
  }

  lemma {:induction false} RunKeepsCalls(t: Traffic, run: seq<Action>, w: nat, limit: nat)
    requires limit >= 1 && w <= 1 && SerialInv(t, limit) && CallsInv(t, limit) && IsRun(t, run, w, false, limit)
    ensures CallsInv(After(t, run, w, false, limit), limit)
    decreases |run|
  {
    if run != [] {
      StepKeepsSerial(t, run[0], limit);
      StepKeepsCalls(t, run[0], limit);
      RunKeepsCalls(Step(t, run[0], limit), run[1..], w, limit);
    }
  }

  /** Over every run with one transfer in flight at a time any `limit + 1` consecutive recorded
      transfers span at least a second, although at most `limit` times are ever stored. */
  lemma TransfersAreSpaced(startedAt: int, run: seq<Action>, mayFail: bool, limit: nat)
    requires limit >= 1 && IsRun(Idle(startedAt), run, 1, mayFail, limit)
    ensures var s := After(Idle(startedAt), run, 1, mayFail, limit).core;
            Spaced(s.history, limit) && |s.recent| <= limit
  {
    RunKeepsSerial(Idle(startedAt), run, 1, mayFail, limit);
  }

  // ---- Bursts ---------------------------------------------------------------------------------------

  ghost predicate Reaches(t: Traffic, u: Traffic, w: nat, mayFail: bool, limit: nat)
    requires limit >= 1
  {
    exists run :: IsRun(t, run, w, mayFail, limit) && After(t, run, w, mayFail, limit) == u
  }

  lemma ReachesItself(t: Traffic, w: nat, mayFail: bool, limit: nat)
    requires limit >= 1 && |t.flights| <= w
    ensures Reaches(t, t, w, mayFail, limit)
  {
    assert IsRun(t, [], w, mayFail, limit) && After(t, [], w, mayFail, limit) == t;
  }

  lemma StepReaches(t: Traffic, a: Action, u: Traffic, w: nat, mayFail: bool, limit: nat)
    requires limit >= 1 && |t.flights| <= w && Enabled(t, a) && (a.Finish? ==> a.succeeded || mayFail)
    requires Reaches(Step(t, a, limit), u, w, mayFail, limit)
    ensures Reaches(t, u, w, mayFail, limit)
  {
    var t' := Step(t, a, limit);
    var rest :| IsRun(t', rest, w, mayFail, limit) && After(t', rest, w, mayFail, limit) == u;
    var run := [a] + rest;
    assert run[1..] == rest;
    assert IsRun(t, run, w, mayFail, limit) && After(t, run, w, mayFail, limit) == u;
  }

  ghost function Zeros(k: nat): seq<int> { seq(k, _ => 0) }

  /** After `k` successful and `failures` failed transfers, all at time 0, with the given ones in
      flight: none, waiting, or called. */
  ghost function Burst(k: nat, failures: nat): Traffic {
    Traffic(State(Zeros(k), Zeros(k), 0), [], Zeros(k + failures))
  }

  ghost function Started(k: nat, failures: nat): Traffic { Burst(k, failures).(flights := [Waiting(0)]) }

  ghost function Called(k: nat, failures: nat): Traffic {
    Burst(k, failures).(flights := [Calling], calls := Zeros(k + failures + 1))
  }

  lemma BurstSteps(k: nat, failures: nat, limit: nat)
    requires k < limit
    ensures Step(Burst(k, failures), Acquire(0), limit) == Started(k, failures)
    ensures Step(Started(k, failures), Acquire(0), limit) == Burst(k, failures).(flights := [Waiting(0), Waiting(0)])
    ensures Step(Started(k, failures), Call(0, 0), limit) == Called(k, failures)
    ensures Step(Called(k, failures), Finish(0, 0, true), limit) == Burst(k + 1, failures)
    ensures Step(Called(k, failures), Finish(0, 0, false), limit) == Burst(k, failures + 1)
  {
    assert Young(Zeros(k), -1000) == Zeros(k);
    assert Zeros(k + failures) + [0] == Zeros(k + failures + 1) && Zeros(k) + [0] == Zeros(k + 1);
    assert [Calling][..0] + [Calling][1..] == [];
  }

  lemma AttemptReaches(k: nat, failures: nat, succeeded: bool, u: Traffic, w: nat, mayFail: bool, limit: nat)
    requires k < limit && w >= 1 && (succeeded || mayFail)
    requires Reaches(if succeeded then Burst(k + 1, failures) else Burst(k, failures + 1), u, w, mayFail, limit)
    ensures Reaches(Burst(k, failures), u, w, mayFail, limit)
  {
    BurstSteps(k, failures, limit);
    StepReaches(Called(k, failures), Finish(0, 0, succeeded), u, w, mayFail, limit);
    StepReaches(Started(k, failures), Call(0, 0), u, w, mayFail, limit);
    StepReaches(Burst(k, failures), Acquire(0), u, w, mayFail, limit);
  }

  lemma {:induction false} SerialBurst(k: nat, u: Traffic, w: nat, mayFail: bool, limit: nat)
    requires k <= limit && w >= 1 && limit >= 1 && Reaches(Burst(k, 0), u, w, mayFail, limit)
    ensures Reaches(Burst(0, 0), u, w, mayFail, limit)
    decreases k
  {
    if k > 0 {
      AttemptReaches(k - 1, 0, true, u, w, mayFail, limit);
      SerialBurst(k - 1, u, w, mayFail, limit);
    }
  }

  lemma {:induction false} FailedBurst(failures: nat, u: Traffic, limit: nat)
    requires limit >= 1 && Reaches(Burst(0, failures), u, 1, true, limit)
    ensures Reaches(Burst(0, 0), u, 1, true, limit)
    decreases failures
  {
    if failures > 0 {
      AttemptReaches(0, failures - 1, false, u, 1, true, limit);
      FailedBurst(failures - 1, u, limit);
    }
  }

  /** Two transfers that both get their slot before either is recorded. */
  lemma PairReaches(k: nat, u: Traffic, limit: nat)
    requires k < limit
    requires Reaches(Burst(k, 0).(flights := [Calling, Calling], calls := Zeros(k + 2)), u, 2, false, limit)
    ensures Reaches(Burst(k, 0), u, 2, false, limit)
  {
    var t := Burst(k, 0).(flights := [Waiting(0), Waiting(0)]);
    var t' := Burst(k, 0).(flights := [Calling, Waiting(0)], calls := Zeros(k + 1));
    assert Zeros(k) + [0] == Zeros(k + 1) && Zeros(k + 1) + [0] == Zeros(k + 2);
    assert t.flights[0 := Calling] == t'.flights && t'.flights[1 := Calling] == [Calling, Calling];
    StepReaches(t', Call(1, 0), u, 2, false, limit);
    StepReaches(t, Call(0, 0), u, 2, false, limit);
    BurstSteps(k, 0, limit);
    StepReaches(Started(k, 0), Acquire(0), u, 2, false, limit);
    StepReaches(Burst(k, 0), Acquire(0), u, 2, false, limit);
  }

  ghost function Exceeded(limit: nat): Traffic {
    Traffic(State(Zeros(limit), Zeros(limit + 1), 0), [], Zeros(limit + 1))
  }

  lemma PairFinishes(k: nat)
    ensures var t := Burst(k, 0).(flights := [Calling, Calling], calls := Zeros(k + 2));
            Reaches(t, Exceeded(k + 1), 2, false, k + 1)
  {
    var t := Burst(k, 0).(flights := [Calling, Calling], calls := Zeros(k + 2));
    var t' := t.(core := State(Zeros(k + 1), Zeros(k + 1), 0), flights := [Calling]);
    assert Zeros(k) + [0] == Zeros(k + 1) && Zeros(k + 1) + [0] == Zeros(k + 2) && Zeros(k + 2)[1..] == Zeros(k + 1);
    assert t.flights[..0] + t.flights[1..] == [Calling] && t'.flights[..0] + t'.flights[1..] == [];
    ReachesItself(Exceeded(k + 1), 2, false, k + 1);
    StepReaches(t', Finish(0, 0, true), Exceeded(k + 1), 2, false, k + 1);
    StepReaches(t, Finish(0, 0, true), Exceeded(k + 1), 2, false, k + 1);
  }

  lemma ZerosNotSpaced(limit: nat)
    requires limit >= 1
    ensures !Spaced(Zeros(limit + 1), limit)
  {
    assert Zeros(limit + 1)[limit] - Zeros(limit + 1)[0] == 0;
  }

  /** Two transfers in flight already break every limit, without any failure. */
  lemma OverlappingTransfersExceedLimit(limit: nat)
    requires limit >= 1
    ensures Reaches(Idle(0), Exceeded(limit), 2, false, limit)
    ensures !Spaced(Exceeded(limit).core.history, limit) && !Spaced(Exceeded(limit).calls, limit)
  {
    PairFinishes(limit - 1);
    PairReaches(limit - 1, Exceeded(limit), limit);
    SerialBurst(limit - 1, Exceeded(limit), 2, false, limit);
    assert Idle(0) == Burst(0, 0);
    ZerosNotSpaced(limit);
  }

  /** Calls that fail are not recorded, so they are not throttled at all. */
  lemma FailingTransfersExceedLimit(limit: nat)
    requires limit >= 1
    ensures Reaches(Idle(0), Burst(0, limit + 1), 1, true, limit)
    ensures !Spaced(Burst(0, limit + 1).calls, limit)
  {
    ReachesItself(Burst(0, limit + 1), 1, true, limit);
    FailedBurst(limit + 1, Burst(0, limit + 1), limit);
    assert Idle(0) == Burst(0, 0);
    ZerosNotSpaced(limit);
  }

  lemma {:induction false} RunAllows(
    t: Traffic, run: seq<Action>, w: nat, w': nat, mayFail: bool, mayFail': bool, limit: nat)
    requires limit >= 1 && w <= w' && (mayFail ==> mayFail') && IsRun(t, run, w, mayFail, limit)
    ensures IsRun(t, run, w', mayFail', limit)
    ensures After(t, run, w', mayFail', limit) == After(t, run, w, mayFail, limit)
    decreases |run|
  {
    if run != [] { RunAllows(Step(t, run[0], limit), run[1..], w, w', mayFail, mayFail', limit); }
  }

  lemma ReachesAllows(t: Traffic, u: Traffic, w: nat, w': nat, mayFail: bool, mayFail': bool, limit: nat)
    requires limit >= 1 && w <= w' && (mayFail ==> mayFail') && Reaches(t, u, w, mayFail, limit)
    ensures Reaches(t, u, w', mayFail', limit)
  {
    var run :| IsRun(t, run, w, mayFail, limit) && After(t, run, w, mayFail, limit) == u;
    RunAllows(t, run, w, w', mayFail, mayFail', limit);
  }

  // ---- When the limit holds ---------------------------------------------------------------------------

  ghost predicate RecordsSpaced(w: nat, mayFail: bool, limit: nat)
    requires limit >= 1
  {
    forall startedAt, run :: IsRun(Idle(startedAt), run, w, mayFail, limit)
      ==> Spaced(After(Idle(startedAt), run, w, mayFail, limit).core.history, limit)
  }

  ghost predicate CallsSpaced(w: nat, mayFail: bool, limit: nat)
    requires limit >= 1
  {
    forall startedAt, run :: IsRun(Idle(startedAt), run, w, mayFail, limit)
      ==> Spaced(After(Idle(startedAt), run, w, mayFail, limit).calls, limit)
  }

  /** Recorded transfers respect the limit exactly when passes do not overlap. */
  lemma RecordsSpacedIff(w: nat, mayFail: bool, limit: nat)
    requires limit >= 1
    ensures RecordsSpaced(w, mayFail, limit) <==> w <= 1
  {
    if w <= 1 {
      forall startedAt, run | IsRun(Idle(startedAt), run, w, mayFail, limit)
        ensures Spaced(After(Idle(startedAt), run, w, mayFail, limit).core.history, limit)
      {
        RunKeepsSerial(Idle(startedAt), run, w, mayFail, limit);
      }
    } else {
      OverlappingTransfersExceedLimit(limit);
      ReachesAllows(Idle(0), Exceeded(limit), 2, w, false, mayFail, limit);
    }
  }

  lemma NoFlightsNoCalls(t: Traffic, run: seq<Action>, mayFail: bool, limit: nat)
    requires limit >= 1 && IsRun(t, run, 0, mayFail, limit)
    ensures run == []
  {
  }

  /** The calls of `router.transfer` themselves, which the option is documented to limit, respect it
      exactly when in addition none of them fails. */
  lemma CallsSpacedIff(w: nat, mayFail: bool, limit: nat)
    requires limit >= 1
    ensures CallsSpaced(w, mayFail, limit) <==> w == 0 || (w == 1 && !mayFail)
  {
    if w == 0 {
      forall startedAt, run | IsRun(Idle(startedAt), run, w, mayFail, limit)
        ensures Spaced(After(Idle(startedAt), run, w, mayFail, limit).calls, limit)
      {
        NoFlightsNoCalls(Idle(startedAt), run, mayFail, limit);
      }
    } else if w == 1 && !mayFail {
      forall startedAt, run | IsRun(Idle(startedAt), run, w, mayFail, limit)
        ensures Spaced(After(Idle(startedAt), run, w, mayFail, limit).calls, limit)
      {
        RunKeepsCalls(Idle(startedAt), run, w, limit);
      }
    } else if mayFail {
      FailingTransfersExceedLimit(limit);
      ReachesAllows(Idle(0), Burst(0, limit + 1), 1, w, true, mayFail, limit);
    } else {
      OverlappingTransfersExceedLimit(limit);
      ReachesAllows(Idle(0), Exceeded(limit), 2, w, false, mayFail, limit);
    }
  }
}
