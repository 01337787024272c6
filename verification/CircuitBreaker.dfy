/** The circuit breaker under overlapping calls: starting a call and its success or failure are
    separate steps, so calls started in one state may finish in another. */
module CircuitBreaker {
  import opened Common

  datatype Mode = CLOSED | OPEN | HALF_OPEN
  datatype Options = Options(failureThreshold: nat, successThreshold: nat, halfOpenMaxCalls: nat)

  /** The fields of the breaker, and for the statements: the number of the current half-open episode,
      how many calls each episode admitted, the calls in flight with the episode they probe (if
      any), and whether the breaker was forced open. */
  datatype Breaker = Breaker(
    mode: Mode, failures: nat, successes: nat, halfOpenCalls: nat, armed: bool,
    episode: nat, probes: map<nat, nat>, calls: map<nat, Option<nat>>, next: nat, forced: bool)

  datatype Action = Start | Succeed(call: nat) | Fail(call: nat) | TimerFires | Reset | ForceOpen

  /** The constructor replaces 0 by a default ... */
  function Defaulted(given: Options): Options {
    Options(if given.failureThreshold == 0 then 5 else given.failureThreshold,
            if given.successThreshold == 0 then 3 else given.successThreshold,
            if given.halfOpenMaxCalls == 0 then 3 else given.halfOpenMaxCalls)
  }

  /** ... so thresholds are at least 1. */
  ghost predicate Sound(o: Options) {
    o.failureThreshold >= 1 && o.successThreshold >= 1 && o.halfOpenMaxCalls >= 1
  }

  const Fresh := Breaker(CLOSED, 0, 0, 0, false, 0, map[0 := 0], map[], 0, false)

  /** `isCallAllowed`: whether `execute` lets a call through. */
  predicate Admits(o: Options, b: Breaker) {
    b.mode == CLOSED || (b.mode == HALF_OPEN && b.halfOpenCalls < o.halfOpenMaxCalls)
  }

  ghost predicate Enabled(b: Breaker, a: Action) {
    match a
    case Succeed(id) => id in b.calls
    case Fail(id) => id in b.calls
    case TimerFires => b.armed
    case _ => true
  }

  ghost function TransitionTo(b: Breaker, mode: Mode): Breaker {
    if b.mode == mode then b
    else b.(mode := mode, halfOpenCalls := if b.mode == HALF_OPEN then 0 else b.halfOpenCalls)
  }

  ghost function ResetCounters(b: Breaker): Breaker {
    b.(failures := 0, successes := 0, halfOpenCalls := 0)
  }

  ghost function Started(o: Options, b: Breaker): Breaker {
    if !Admits(o, b) then b
    else if b.mode == HALF_OPEN then
      b.(halfOpenCalls := b.halfOpenCalls + 1, calls := b.calls[b.next := Some(b.episode)], next := b.next + 1,
         probes := b.probes[b.episode := 1 + if b.episode in b.probes then b.probes[b.episode] else 0])
    else b.(calls := b.calls[b.next := None], next := b.next + 1)
  }

  ghost function OnSuccess(o: Options, b: Breaker): Breaker {
    var b' := b.(successes := b.successes + 1);
    if b.mode == HALF_OPEN then
      if b'.successes >= o.successThreshold then ResetCounters(TransitionTo(b', CLOSED)) else b'
    else if b.mode == CLOSED then b'.(failures := if b.failures == 0 then 0 else b.failures - 1)
    else b'
  }

  ghost function OnFailure(o: Options, b: Breaker): Breaker {
    var b' := b.(failures := b.failures + 1);
    if b.mode == CLOSED then
      if b'.failures >= o.failureThreshold then TransitionTo(b', OPEN).(armed := true) else b'
    else if b.mode == HALF_OPEN then TransitionTo(b', OPEN).(armed := true)
    else b'
  }

  ghost function Step(o: Options, b: Breaker, a: Action): Breaker
    requires Enabled(b, a)
  {
    match a
    case Start => Started(o, b)
    case Succeed(id) => OnSuccess(o, b.(calls := b.calls - {id}))
    case Fail(id) => OnFailure(o, b.(calls := b.calls - {id}))
    case TimerFires =>
      var b' := b.(armed := false);
      if b.mode != OPEN then b'
      else ResetCounters(TransitionTo(b', HALF_OPEN)).(episode := b.episode + 1, probes := b.probes[b.episode + 1 := 0])
    case Reset => ResetCounters(TransitionTo(b.(armed := false), CLOSED)).(forced := false)
    case ForceOpen => TransitionTo(b.(armed := false), OPEN).(forced := true)
  }

  // ---- Runs -----------------------------------------------------------------------------------------

  ghost predicate Legal(o: Options, run: seq<Action>)
    decreases |run|, 0
  {
    run == [] || (Legal(o, run[..|run| - 1]) && Enabled(After(o, run[..|run| - 1]), run[|run| - 1]))
  }

  ghost function After(o: Options, run: seq<Action>): Breaker
    requires Legal(o, run)
    decreases |run|, 1
  {
    if run == [] then Fresh else Step(o, After(o, run[..|run| - 1]), run[|run| - 1])
  }

  // ---- Invariant ------------------------------------------------------------------------------------

  /** The calls in flight that were admitted in half-open episode `e`. */
  ghost function ProbesInFlight(b: Breaker, e: nat): set<nat> {
    set id | id in b.calls && b.calls[id] == Some(e)
  }

  ghost predicate CallsInv(b: Breaker) {
    forall id :: id in b.calls ==> id < b.next && (b.calls[id].Some? ==> b.calls[id].value <= b.episode)
  }

  ghost predicate ProbesInv(o: Options, b: Breaker) {
    && (forall e :: e in b.probes ==> e <= b.episode && b.probes[e] <= o.halfOpenMaxCalls)
    && (b.mode == HALF_OPEN ==>
         && b.episode in b.probes && b.probes[b.episode] == b.halfOpenCalls
         && b.successes < o.successThreshold
         && b.halfOpenCalls <= b.successes + |ProbesInFlight(b, b.episode)|)
  }

  ghost predicate ModeInv(o: Options, b: Breaker) {
    && (b.mode == CLOSED ==> b.failures < o.failureThreshold)
    && (b.armed <==> b.mode == OPEN && !b.forced)
    && (b.forced ==> b.mode == OPEN)
  }

  ghost predicate Inv(o: Options, b: Breaker) {
    CallsInv(b) && ProbesInv(o, b) && ModeInv(o, b)
  }

  lemma StartKeepsInv(o: Options, b: Breaker)
    requires Sound(o) && Inv(o, b)
    ensures Inv(o, Started(o, b))
  {
    var b' := Started(o, b);
    if Admits(o, b) && b.mode == HALF_OPEN {
      assert ProbesInFlight(b', b.episode) == ProbesInFlight(b, b.episode) + {b.next};
    }
  }

  lemma FinishKeepsInv(o: Options, b: Breaker, a: Action)
    requires Sound(o) && Inv(o, b) && (a.Succeed? || a.Fail?) && Enabled(b, a)
    ensures Inv(o, Step(o, b, a))
  {
    var fewer := b.(calls := b.calls - {a.call});
    var was, now := ProbesInFlight(b, b.episode), ProbesInFlight(fewer, b.episode);
    assert was == now || was == now + {a.call};
  }

  lemma OtherKeepsInv(o: Options, b: Breaker, a: Action)
    requires Sound(o) && Inv(o, b) && (a.TimerFires? || a.Reset? || a.ForceOpen?) && Enabled(b, a)
    ensures Inv(o, Step(o, b, a))
  {
  }

  lemma {:induction false} RunKeepsInv(o: Options, run: seq<Action>)
    requires Sound(o) && Legal(o, run)
    ensures Inv(o, After(o, run))
    decreases |run|
  {
    if run != [] {
      var front, a := run[..|run| - 1], run[|run| - 1];
      RunKeepsInv(o, front);
      if a.Start? {
        StartKeepsInv(o, After(o, front));
      } else if a.Succeed? || a.Fail? {
        FinishKeepsInv(o, After(o, front), a);
      } else {
        OtherKeepsInv(o, After(o, front), a);
      }
    }
  }

  // ---- Main results ---------------------------------------------------------------------------------

  lemma {:induction false} PrefixLegal(o: Options, run: seq<Action>, i: nat)
    requires Legal(o, run) && i <= |run|
    ensures Legal(o, run[..i])
    decreases |run|
  {
    if i < |run| {
      assert run[..|run| - 1][..i] == run[..i];
      PrefixLegal(o, run[..|run| - 1], i);
    } else {
      assert run[..i] == run;
    }
  }

  /** From step `i` on the timer does not fire and nobody resets the breaker. */
  ghost predicate Undisturbed(run: seq<Action>, i: nat) {
    forall k :: i <= k < |run| ==> !run[k].TimerFires? && !run[k].Reset?
  }

  ghost predicate OpenAt(o: Options, run: seq<Action>, i: nat)
    requires Legal(o, run) && i <= |run|
  {
    PrefixLegal(o, run, i);
    After(o, run[..i]).mode == OPEN
  }

  ghost function CallsUpTo(o: Options, run: seq<Action>, i: nat): nat
    requires Legal(o, run) && i <= |run|
  {
    PrefixLegal(o, run, i);
    After(o, run[..i]).next
  }

  lemma {:induction false} StaysOpen(o: Options, run: seq<Action>, i: nat)
    requires Legal(o, run) && i <= |run| && OpenAt(o, run, i) && Undisturbed(run, i)
    ensures After(o, run).mode == OPEN && After(o, run).next == CallsUpTo(o, run, i)
    decreases |run|
  {
    if i < |run| {
      var front := run[..|run| - 1];
      assert front[..i] == run[..i];
      assert forall k :: i <= k < |front| ==> front[k] == run[k];
      StaysOpen(o, front, i);
    } else {
      assert run[..i] == run;
    }
  }

  /** Over every run of overlapping calls: failures stay below the threshold while CLOSED, no
      half-open episode ever admits more calls than the limit, a reset timer is armed exactly while
      OPEN and not forced open, and once OPEN the breaker stays so and no call starts until the timer
      fires or somebody resets it. */
  lemma BreakerSafety(o: Options, run: seq<Action>)
    requires Sound(o) && Legal(o, run)
    ensures var b := After(o, run);
            && (b.mode == CLOSED ==> b.failures < o.failureThreshold)
            && (forall e :: e in b.probes ==> b.probes[e] <= o.halfOpenMaxCalls)
            && (b.armed <==> b.mode == OPEN && !b.forced)
            && (forall i :: 0 <= i <= |run| && OpenAt(o, run, i) && Undisturbed(run, i)
                 ==> b.mode == OPEN && b.next == CallsUpTo(o, run, i))
  {
    RunKeepsInv(o, run);
    forall i | 0 <= i <= |run| && OpenAt(o, run, i) && Undisturbed(run, i)
      ensures After(o, run).mode == OPEN && After(o, run).next == CallsUpTo(o, run, i)
    {
      StaysOpen(o, run, i);
    }
  }

  /** A half-open breaker with none of its probes in flight lets the next call through. */
  ghost predicate NeverStuck(o: Options) {
    forall run :: Legal(o, run) && After(o, run).mode == HALF_OPEN
                  && ProbesInFlight(After(o, run), After(o, run).episode) == {}
      ==> Admits(o, After(o, run))
  }

  lemma Extend(o: Options, run: seq<Action>, a: Action)
    requires Legal(o, run) && Enabled(After(o, run), a)
    ensures Legal(o, run + [a]) && After(o, run + [a]) == Step(o, After(o, run), a)
  {
    assert (run + [a])[..|run|] == run;
  }

  /** `k` failing calls in a row from a fresh breaker. */
  lemma {:induction false} FailingRun(o: Options, k: nat) returns (run: seq<Action>)
    requires Sound(o) && k <= o.failureThreshold
    ensures Legal(o, run)
    ensures After(o, run) == Fresh.(mode := if k == o.failureThreshold then OPEN else CLOSED,
                                    failures := k, armed := k == o.failureThreshold, next := k)
  {
    if k == 0 {
      run := [];
    } else {
      run := FailingRun(o, k - 1);
      var id := After(o, run).next;
      Extend(o, run, Start);
      run := run + [Start];
      Extend(o, run, Fail(id));
      run := run + [Fail(id)];
      assert After(o, run).calls == map[];
    }
  }

  /** ... then the timer, then `k` probes that succeed but do not reach the success threshold. */
  lemma {:induction false} ProbingRun(o: Options, k: nat) returns (run: seq<Action>)
    requires Sound(o) && k <= o.halfOpenMaxCalls && k < o.successThreshold
    ensures Legal(o, run)
    ensures var b := After(o, run);
            b.mode == HALF_OPEN && b.successes == k && b.halfOpenCalls == k && b.calls == map[]
  {
    if k == 0 {
      run := FailingRun(o, o.failureThreshold);
      Extend(o, run, TimerFires);
      run := run + [TimerFires];
    } else {
      run := ProbingRun(o, k - 1);
      var id := After(o, run).next;
      Extend(o, run, Start);
      run := run + [Start];
      Extend(o, run, Succeed(id));
      run := run + [Succeed(id)];
    }
  }

  /** A half-open breaker can always be probed again exactly when the success threshold can be
      reached within one episode. */
  lemma NeverStuckIff(o: Options)
    requires Sound(o)
    ensures NeverStuck(o) <==> o.successThreshold <= o.halfOpenMaxCalls
  {
    if o.successThreshold <= o.halfOpenMaxCalls {
      forall run | Legal(o, run) && After(o, run).mode == HALF_OPEN
                   && ProbesInFlight(After(o, run), After(o, run).episode) == {}
        ensures Admits(o, After(o, run))
      {
        RunKeepsInv(o, run);
      }
    } else {
      var run := ProbingRun(o, o.halfOpenMaxCalls);
      assert ProbesInFlight(After(o, run), After(o, run).episode) == {};
    }
  }

  // ---- When a closed breaker opens --------------------------------------------------------------------

  /** The breaker after calls finish with the given outcomes (true for success), one after another. */
  ghost function Finished(o: Options, b: Breaker, outcomes: seq<bool>): Breaker {
    if outcomes == [] then b
    else
      var b' := Finished(o, b, outcomes[..|outcomes| - 1]);
      if outcomes[|outcomes| - 1] then OnSuccess(o, b') else OnFailure(o, b')
  }

  /** Failures minus successes. */
  ghost function Excess(outcomes: seq<bool>): int {
    if outcomes == [] then 0
    else Excess(outcomes[..|outcomes| - 1]) + if outcomes[|outcomes| - 1] then -1 else 1
  }

  /** Some stretch of consecutive outcomes has `t` more failures than successes. */
  ghost predicate HasBurst(outcomes: seq<bool>, t: nat) {
    exists i, j :: 0 <= i <= j <= |outcomes| && Excess(outcomes[i..j]) >= t
  }

  /** `n` is the largest excess of any stretch that reaches up to now. */
  ghost predicate IsRecentExcess(outcomes: seq<bool>, n: nat) {
    && (forall i :: 0 <= i <= |outcomes| ==> Excess(outcomes[i..]) <= n)
    && exists i :: 0 <= i <= |outcomes| && Excess(outcomes[i..]) == n
  }

  lemma ExcessOfTail(front: seq<bool>, x: bool, i: nat)
    requires i <= |front|
    ensures Excess((front + [x])[i..]) == Excess(front[i..]) + if x then -1 else 1
  {
    var tail := (front + [x])[i..];
    assert tail[..|tail| - 1] == front[i..];
  }

  lemma RecentExcessStep(front: seq<bool>, x: bool, n: nat)
    requires IsRecentExcess(front, n)
    ensures IsRecentExcess(front + [x], if !x then n + 1 else if n == 0 then 0 else n - 1)
  {
    var all := front + [x];
    forall i | 0 <= i <= |front| ensures Excess(all[i..]) == Excess(front[i..]) + if x then -1 else 1 {
      ExcessOfTail(front, x, i);
    }
    assert all[|all|..] == [];
    var k :| 0 <= k <= |front| && Excess(front[k..]) == n;
    assert Excess(all[k..]) == n + if x then -1 else 1;
  }

  lemma BurstPersists(front: seq<bool>, x: bool, t: nat)
    requires HasBurst(front, t)
    ensures HasBurst(front + [x], t)
  {
    var i, j :| 0 <= i <= j <= |front| && Excess(front[i..j]) >= t;
    assert (front + [x])[i..j] == front[i..j];
  }

  lemma BurstStep(front: seq<bool>, x: bool, n: nat, t: nat)
    requires t >= 1 && IsRecentExcess(front + [x], n) && !HasBurst(front, t)
    ensures HasBurst(front + [x], t) <==> n >= t
  {
    var all := front + [x];
    assert forall i, j :: 0 <= i <= j <= |front| ==> all[i..j] == front[i..j];
    assert forall i :: 0 <= i <= |all| ==> all[i..] == all[i..|all|];
    if HasBurst(all, t) {
      var i, j :| 0 <= i <= j <= |all| && Excess(all[i..j]) >= t;
      assert j == |all| && Excess(all[i..]) >= t;
    }
    if n >= t {
      var i :| 0 <= i <= |all| && Excess(all[i..]) == n;
      assert Excess(all[i..|all|]) >= t;
    }
  }

  /** A closed breaker opens exactly when some stretch of consecutive outcomes has `failureThreshold`
      more failures than successes; until then its failure count is the largest excess of failures
      over any stretch that reaches up to now. */
  lemma {:induction false} OpensIffBurst(o: Options, b: Breaker, outcomes: seq<bool>)
    requires Sound(o) && b.mode == CLOSED && b.failures == 0
    ensures var r := Finished(o, b, outcomes);
            if HasBurst(outcomes, o.failureThreshold) then r.mode == OPEN
            else r.mode == CLOSED && IsRecentExcess(outcomes, r.failures)
  {
    var t := o.failureThreshold;
    if outcomes == [] {
      assert outcomes[0..] == [];
      assert forall i, j :: 0 <= i <= j <= 0 ==> outcomes[i..j] == [];
    } else {
      var front, x := outcomes[..|outcomes| - 1], outcomes[|outcomes| - 1];
      assert outcomes == front + [x];
      OpensIffBurst(o, b, front);
      if HasBurst(front, t) {
        BurstPersists(front, x, t);
      } else {
        var n := Finished(o, b, front).failures;
        RecentExcessStep(front, x, n);
        BurstStep(front, x, if !x then n + 1 else if n == 0 then 0 else n - 1, t);
        assert n < t by { RecentBelow(front, n, t); }
      }
    }
  }

  lemma RecentBelow(outcomes: seq<bool>, n: nat, t: nat)
    requires IsRecentExcess(outcomes, n) && !HasBurst(outcomes, t)
    ensures n < t
  {
    var i :| 0 <= i <= |outcomes| && Excess(outcomes[i..]) == n;
    assert outcomes[i..] == outcomes[i..|outcomes|];
  }

  // ---- What every step does to the mode -------------------------------------------------------------

  /** The actions since the breaker entered its mode, or was last reset. */
  ghost function Since(o: Options, run: seq<Action>): seq<Action>
    requires Legal(o, run)
    decreases |run|
  {
    if run == [] then []
    else
      var front, a := run[..|run| - 1], run[|run| - 1];
      if After(o, front).mode != After(o, run).mode || a.Reset? then [] else Since(o, front) + [a]
  }

  ghost function Starts(actions: seq<Action>): nat {
    if actions == [] then 0 else Starts(actions[..|actions| - 1]) + if actions[|actions| - 1].Start? then 1 else 0
  }

  /** How the calls that ended in between ended. */
  ghost function Outcomes(actions: seq<Action>): seq<bool> {
    if actions == [] then []
    else
      var rest, a := Outcomes(actions[..|actions| - 1]), actions[|actions| - 1];
      if a.Succeed? then rest + [true] else if a.Fail? then rest + [false] else rest
  }

  ghost function SucceededAt(outcomes: seq<bool>): set<int> { set i | 0 <= i < |outcomes| && outcomes[i] }

  ghost function Successes(outcomes: seq<bool>): nat { |SucceededAt(outcomes)| }

  lemma OneMore(actions: seq<Action>, a: Action)
    ensures Starts(actions + [a]) == Starts(actions) + if a.Start? then 1 else 0
    ensures Outcomes(actions + [a]) ==
            Outcomes(actions) + if a.Succeed? then [true] else if a.Fail? then [false] else []
  {
    assert (actions + [a])[..|actions|] == actions;
  }

  lemma OneMoreOutcome(outcomes: seq<bool>, x: bool)
    ensures Successes(outcomes + [x]) == Successes(outcomes) + if x then 1 else 0
  {
    var was := SucceededAt(outcomes);
    assert SucceededAt(outcomes + [x]) == if x then was + {|outcomes|} else was;
  }

  /** The counters are what the actions since the last change of mode make them. */
  ghost predicate Counts(o: Options, b: Breaker, since: seq<Action>) {
    && (b.mode == HALF_OPEN ==>
         b.successes == Successes(Outcomes(since)) && b.halfOpenCalls == Min(Starts(since), o.halfOpenMaxCalls))
    && (b.mode == CLOSED ==>
         IsRecentExcess(Outcomes(since), b.failures) && !HasBurst(Outcomes(since), o.failureThreshold))
  }

  lemma NothingCounted(o: Options, b: Breaker)
    requires Sound(o) && b.failures == 0 && b.successes == 0 && b.halfOpenCalls == 0
    ensures Counts(o, b, [])
  {
    var none: seq<bool> := [];
    assert none[0..] == [] && forall i, j :: 0 <= i <= j <= 0 ==> none[i..j] == [];
    assert Excess(none[0..]) == 0;
    assert Successes([]) == 0;
  }

  lemma ClosedCounts(o: Options, b: Breaker, since: seq<Action>, x: bool)
    requires Sound(o) && b.mode == CLOSED && Counts(o, b, since)
    ensures var b' := if x then OnSuccess(o, b) else OnFailure(o, b);
            if HasBurst(Outcomes(since) + [x], o.failureThreshold) then b'.mode == OPEN && !x
            else b'.mode == CLOSED && IsRecentExcess(Outcomes(since) + [x], b'.failures)
  {
    var t, n := o.failureThreshold, b.failures;
    RecentExcessStep(Outcomes(since), x, n);
    BurstStep(Outcomes(since), x, if !x then n + 1 else if n == 0 then 0 else n - 1, t);
    RecentBelow(Outcomes(since), n, t);
  }

  lemma StepCounts(o: Options, b: Breaker, a: Action, since: seq<Action>)
    requires Sound(o) && Enabled(b, a) && Counts(o, b, since)
    ensures var b' := Step(o, b, a);
            if b'.mode != b.mode || a.Reset? then b'.mode == OPEN || Counts(o, b', [])
            else Counts(o, b', since + [a])
  {
    var b' := Step(o, b, a);
    OneMore(since, a);
    if a.Succeed? || a.Fail? {
      OneMoreOutcome(Outcomes(since), a.Succeed?);
      if b.mode == CLOSED { ClosedCounts(o, b.(calls := b.calls - {a.call}), since, a.Succeed?); }
    }
    if b'.mode != OPEN && (b'.mode != b.mode || a.Reset?) { NothingCounted(o, b'); }
  }

  lemma {:induction false} RunCounts(o: Options, run: seq<Action>)
    requires Sound(o) && Legal(o, run)
    ensures Counts(o, After(o, run), Since(o, run))
    decreases |run|
  {
    if run == [] {
      NothingCounted(o, Fresh);
    } else {
      var front := run[..|run| - 1];
      RunCounts(o, front);
      StepCounts(o, After(o, front), run[|run| - 1], Since(o, front));
    }
  }

  /** The mode after an action, in terms of the mode before and of what happened since the breaker
      entered it: a closed breaker opens on a failure that completes a burst, an open one goes half-open
      when the timer fires, a half-open one opens on any failure and closes on the success that reaches
      the threshold; a reset closes and a forced opening opens. */
  ghost function NextMode(o: Options, mode: Mode, since: seq<Action>, a: Action): Mode {
    if a.Reset? then CLOSED
    else if a.ForceOpen? then OPEN
    else match mode
      case CLOSED => if a.Fail? && HasBurst(Outcomes(since) + [false], o.failureThreshold) then OPEN else CLOSED
      case OPEN => if a.TimerFires? then HALF_OPEN else OPEN
      case HALF_OPEN =>
        if a.Fail? then OPEN
        else if a.Succeed? && Successes(Outcomes(since)) + 1 >= o.successThreshold then CLOSED
        else HALF_OPEN
  }

  /** Over every run of overlapping calls, each step changes the mode as described; a failure that opens
      the breaker arms the timer, a reset or a forced opening disarms it; and a call is let through
      exactly when the breaker is closed, or half-open with fewer calls tried than the limit. */
  lemma ModeChanges(o: Options, run: seq<Action>, a: Action)
    requires Sound(o) && Legal(o, run) && Enabled(After(o, run), a)
    ensures Legal(o, run + [a])
    ensures var b, b' := After(o, run), After(o, run + [a]);
            && b'.mode == NextMode(o, b.mode, Since(o, run), a)
            && (a.Fail? && b.mode != OPEN && b'.mode == OPEN ==> b'.armed)
            && (a.Reset? || a.ForceOpen? ==> !b'.armed)
    ensures Admits(o, After(o, run)) <==>
              match After(o, run).mode
              case CLOSED => true
              case OPEN => false
              case HALF_OPEN => Starts(Since(o, run)) < o.halfOpenMaxCalls
  {
    Extend(o, run, a);
    RunCounts(o, run);
    var b, since := After(o, run), Since(o, run);
    if b.mode == CLOSED && (a.Succeed? || a.Fail?) {
      ClosedCounts(o, b.(calls := b.calls - {a.call}), since, a.Succeed?);
    }
  }

  // ---- The breaker object ---------------------------------------------------------------------------

  /** A valid breaker is in a state that `run`, the steps taken so far, leads to. */
  class CircuitBreaker {
    const options: Options
    var mode: Mode
    var failures: nat
    var successes: nat
    var halfOpenCalls: nat
    var armed: bool
    ghost var episode: nat
    ghost var probes: map<nat, nat>
    ghost var calls: map<nat, Option<nat>>
    ghost var next: nat
    ghost var forced: bool
    ghost var run: seq<Action>

    ghost function State(): Breaker
      reads this
    {
      Breaker(mode, failures, successes, halfOpenCalls, armed, episode, probes, calls, next, forced)
    }

    ghost predicate Valid()
      reads this
    {
      Sound(options) && Legal(options, run) && After(options, run) == State()
    }

    constructor (given: Options)
      ensures options == Defaulted(given) && Valid() && run == []
      ensures given.failureThreshold == 0 && given.successThreshold == 0 && given.halfOpenMaxCalls == 0
              ==> options == Options(5, 3, 3)
      ensures Sound(given) ==> options == given
    {
      options := Defaulted(given);
      mode, failures, successes, halfOpenCalls, armed := CLOSED, 0, 0, 0, false;
      episode, probes, calls, next, forced, run := 0, map[0 := 0], map[], 0, false, [];
    }

    /** What holds of the fields at any time. */
    lemma Safe()
      requires Valid()
      ensures mode == CLOSED ==> failures < options.failureThreshold
      ensures mode == HALF_OPEN ==> halfOpenCalls <= options.halfOpenMaxCalls && successes < options.successThreshold
      ensures armed <==> mode == OPEN && !forced
    {
      RunKeepsInv(options, run);
    }

    method SetMode(newMode: Mode)
      modifies this`mode, this`halfOpenCalls
      ensures State() == TransitionTo(old(State()), newMode)
    {
      if mode == newMode { return; }
      var previous := mode;
      mode := newMode;
      if previous == HALF_OPEN { halfOpenCalls := 0; }
    }

    method ClearCounters()
      modifies this`failures, this`successes, this`halfOpenCalls
      ensures State() == ResetCounters(old(State()))
    {
      failures, successes, halfOpenCalls := 0, 0, 0;
    }

    /** The step just taken goes on record. */
    ghost method Took(a: Action, before: Breaker)
      requires Sound(options) && Legal(options, run) && After(options, run) == before
      requires Enabled(before, a) && State() == Step(options, before, a)
      modifies this`run
      ensures Valid() && run == old(run) + [a]
    {
      Extend(options, run, a);
      run := run + [a];
    }

    /** `execute` up to the await on the call. */
    method BeginCall() returns (admitted: bool)
      requires Valid()
      modifies this
      ensures Valid() && run == old(run) + [Start]
      ensures State() == Step(options, old(State()), Start)
      ensures admitted == Admits(options, old(State()))
      ensures mode == old(mode)
      ensures admitted == match mode {
                case CLOSED => true
                case OPEN => false
                case HALF_OPEN => Starts(old(Since(options, run))) < options.halfOpenMaxCalls
              }
    {
      ModeChanges(options, run, Start);
      admitted := Admit();
      Took(Start, old(State()));
    }

    method Admit() returns (admitted: bool)
      modifies this`halfOpenCalls, this`probes, this`calls, this`next
      ensures State() == Started(options, old(State()))
      ensures admitted == Admits(options, old(State()))
    {
      if mode == OPEN { return false; }
      if mode == HALF_OPEN && halfOpenCalls >= options.halfOpenMaxCalls { return false; }
      if mode == HALF_OPEN {
        halfOpenCalls := halfOpenCalls + 1;
        probes := probes[episode := 1 + if episode in probes then probes[episode] else 0];
        calls := calls[next := Some(episode)];
      } else {
        calls := calls[next := None];
      }
      next := next + 1;
      admitted := true;
    }

    /** `execute` after its call succeeded. */
    method EndCallSucceeded(ghost call: nat)
      requires Valid() && Enabled(State(), Succeed(call))
      modifies this
      ensures Valid() && run == old(run) + [Succeed(call)]
      ensures State() == Step(options, old(State()), Succeed(call))
      ensures old(mode) == HALF_OPEN && mode == CLOSED
              <==> old(mode == HALF_OPEN && Successes(Outcomes(Since(options, run))) + 1 >= options.successThreshold)
      ensures mode == old(mode) || mode == CLOSED
    {
      ModeChanges(options, run, Succeed(call));
      calls := calls - {call};
      CountSuccess();
      Took(Succeed(call), old(State()));
    }

    /** `onSuccess`. */
    method CountSuccess()
      modifies this`mode, this`failures, this`successes, this`halfOpenCalls
      ensures State() == OnSuccess(options, old(State()))
    {
      successes := successes + 1;
      if mode == HALF_OPEN {
        if successes >= options.successThreshold {
          SetMode(CLOSED);
          ClearCounters();
        }
      } else if mode == CLOSED {
        failures := if failures == 0 then 0 else failures - 1;
      }
    }

    /** `execute` after its call failed or timed out. */
    method EndCallFailed(ghost call: nat)
      requires Valid() && Enabled(State(), Fail(call))
      modifies this
      ensures Valid() && run == old(run) + [Fail(call)]
      ensures State() == Step(options, old(State()), Fail(call))
      ensures mode == OPEN <==> old(mode != CLOSED
                || HasBurst(Outcomes(Since(options, run)) + [false], options.failureThreshold))
      ensures mode == old(mode) || (mode == OPEN && armed)
    {
      ModeChanges(options, run, Fail(call));
      calls := calls - {call};
      CountFailure();
      Took(Fail(call), old(State()));
    }

    /** `onFailure`. */
    method CountFailure()
      modifies this`mode, this`failures, this`halfOpenCalls, this`armed
      ensures State() == OnFailure(options, old(State()))
    {
      failures := failures + 1;
      if mode == CLOSED {
        if failures >= options.failureThreshold {
          SetMode(OPEN);
          armed := true;
        }
      } else if mode == HALF_OPEN {
        SetMode(OPEN);
        armed := true;
      }
    }

    /** The callback scheduled by `scheduleReset`. */
    method TimerCallback()
      requires Valid() && Enabled(State(), TimerFires)
      modifies this
      ensures Valid() && run == old(run) + [TimerFires]
      ensures State() == Step(options, old(State()), TimerFires)
      ensures mode == if old(mode) == OPEN then HALF_OPEN else old(mode)
    {
      ModeChanges(options, run, TimerFires);
      armed := false;
      if mode == OPEN {
        SetMode(HALF_OPEN);
        ClearCounters();
        episode := episode + 1;
        probes := probes[episode := 0];
      }
      Took(TimerFires, old(State()));
    }

    method ManualReset()
      requires Valid()
      modifies this
      ensures Valid() && run == old(run) + [Reset]
      ensures State() == Step(options, old(State()), Reset)
      ensures mode == CLOSED && !armed && failures == 0
    {
      ModeChanges(options, run, Reset);
      armed := false;
      SetMode(CLOSED);
      ClearCounters();
      forced := false;
      Took(Reset, old(State()));
    }

    method ForceToOpen()
      requires Valid()
      modifies this
      ensures Valid() && run == old(run) + [ForceOpen]
      ensures State() == Step(options, old(State()), ForceOpen)
      ensures mode == OPEN && !armed && failures == old(failures)
    {
      ModeChanges(options, run, ForceOpen);
      armed := false;
      SetMode(OPEN);
      forced := true;
      Took(ForceOpen, old(State()));
    }
  }
}
