/** One join whose arrivals interleave.  `handleJoinArrival` suspends up to twice, once after a first
    arrival has been announced and once after the arrival has been recorded, and decides only then
    whether the join fires.  Arrivals that are in progress together can both decide that it does. */
module JoinRace {
  import opened Common
  import opened JoinGate

  /** An arrival in progress: announced but not recorded yet (only a first one), or recorded. */
  datatype Progress = Announced(arrival: Arrival) | Recorded(first: bool)

  datatype Gate = Gate(
    tracked: bool,            // joinStates has an entry
    arrivals: seq<Arrival>,   // the entry's arrivals, shared by everyone in progress
    fired: bool,              // firedJoins has the join
    inProgress: seq<Progress>,
    firing: nat,              // calls of `fireJoin` that have not announced the join yet
    firings: seq<bool>,       // the announced ones, with their verdict
    arrived: nat)

  datatype Action =
    | Arrive(arrival: Arrival)
    | Record(i: nat)
    | Decide(i: nat)
    | Announce                // `fireJoin` after its sleep, up to clearing the state

  const Empty := Gate(false, [], false, [], 0, [], 0)

  ghost predicate Enabled(g: Gate, a: Action) {
    match a
    case Arrive(_) => true
    case Record(i) => i < |g.inProgress| && g.inProgress[i].Announced?
    case Decide(i) => i < |g.inProgress| && g.inProgress[i].Recorded?
    case Announce => g.firing > 0
  }

  ghost function Step(j: Join, g: Gate, a: Action): Gate
    requires Enabled(g, a)
  {
    match a
    case Arrive(arrival) =>
      var g' := g.(arrived := g.arrived + 1);
      if g.fired then g'
      else if !g.tracked then g'.(tracked := true, inProgress := g.inProgress + [Announced(arrival)])
      else g'.(arrivals := g.arrivals + [arrival], inProgress := g.inProgress + [Recorded(false)])
    case Record(i) =>
      g.(arrivals := g.arrivals + [g.inProgress[i].arrival], inProgress := g.inProgress[i := Recorded(true)])
    case Decide(i) =>
      var g' := g.(inProgress := g.inProgress[..i] + g.inProgress[i + 1..]);
      if !ShouldFire(j, g.arrivals) || (!g.inProgress[i].first && !g.tracked) then g'
      else g'.(fired := true, firing := g.firing + 1)
    case Announce =>
      g.(firing := g.firing - 1, firings := g.firings + [JoinFailed(j, g.arrivals)], tracked := false)
  }

  /** A run with at most `w` arrivals in progress at any time.  Arrivals are not counted against the
      connected edges: an edge can be taken again, and failed branches report extra ones. */
  ghost predicate IsRun(j: Join, g: Gate, run: seq<Action>, w: nat)
    decreases |run|
  {
    && |g.inProgress| <= w
    && (run != [] ==> Enabled(g, run[0]) && IsRun(j, Step(j, g, run[0]), run[1..], w))
  }

  ghost function After(j: Join, g: Gate, run: seq<Action>, w: nat): Gate
    requires IsRun(j, g, run, w)
    decreases |run|
  {
    if run == [] then g else After(j, Step(j, g, run[0]), run[1..], w)
  }

  /** How often the join has fired or is about to. */
  ghost function Fires(g: Gate): nat { g.firing + |g.firings| }

  ghost predicate FiresAtMostOnce(j: Join, w: nat) {
    forall run :: IsRun(j, Empty, run, w) ==> Fires(After(j, Empty, run, w)) <= 1
  }

  // ---- When it fires once ---------------------------------------------------------------------------

  /** Everyone who fired has arrived and is no longer in progress. */
  ghost predicate CountInv(g: Gate) {
    Fires(g) + |g.inProgress| <= g.arrived
  }

  /** With one arrival in progress at a time, nobody is in progress once the join has fired. */
  ghost predicate SerialInv(g: Gate) {
    |g.inProgress| <= 1 && Fires(g) <= 1 && (Fires(g) == 1 ==> g.fired && g.inProgress == [])
  }

  lemma StepKeepsInv(j: Join, g: Gate, a: Action)
    requires Enabled(g, a)
    ensures CountInv(g) ==> CountInv(Step(j, g, a))
    ensures SerialInv(g) && |Step(j, g, a).inProgress| <= 1 ==> SerialInv(Step(j, g, a))
  {
  }

  lemma {:induction false} RunKeepsInv(j: Join, g: Gate, run: seq<Action>, w: nat)
    requires IsRun(j, g, run, w) && CountInv(g) && (w <= 1 ==> SerialInv(g))
    ensures CountInv(After(j, g, run, w)) && (w <= 1 ==> SerialInv(After(j, g, run, w)))
    decreases |run|
  {
    if run != [] {
      StepKeepsInv(j, g, run[0]);
      RunKeepsInv(j, Step(j, g, run[0]), run[1..], w);
    }
  }

  // ---- One arrival at a time is atomic --------------------------------------------------------------

  /** The arrivals of a run, in the order they come. */
  ghost function Delivered(run: seq<Action>): seq<Arrival> {
    if run == [] then []
    else if run[0].Arrive? then [run[0].arrival] + Delivered(run[1..])
    else Delivered(run[1..])
  }

  /** Nobody is in progress: the gate is where `JoinGate` has it after the arrivals `done`. */
  ghost predicate Quiet(j: Join, g: Gate, done: seq<Arrival>) {
    match FirstVerdict(j, done)
    case None => !g.fired && Fires(g) == 0 && g.arrivals == done && (g.tracked <==> done != [])
    case Some(failed) =>
      g.fired && Fires(g) == 1 && JoinFailed(j, g.arrivals) == failed && (g.firings == [] || g.firings == [failed])
  }

  /** The last of `done` is in progress, and none before it fired the join. */
  ghost predicate OneInProgress(j: Join, g: Gate, done: seq<Arrival>) {
    && |g.inProgress| == 1 && g.tracked && !g.fired && Fires(g) == 0
    && done != [] && FirstVerdict(j, done[..|done| - 1]).None?
    && match g.inProgress[0]
       case Announced(a) => done == [a] && g.arrivals == []
       case Recorded(_) => g.arrivals == done
  }

  ghost predicate Follows(j: Join, g: Gate, done: seq<Arrival>) {
    if g.inProgress == [] then Quiet(j, g, done) else OneInProgress(j, g, done)
  }

  lemma ArriveFollows(j: Join, g: Gate, a: Arrival, done: seq<Arrival>)
    requires Follows(j, g, done) && |Step(j, g, Arrive(a)).inProgress| <= 1
    ensures Follows(j, Step(j, g, Arrive(a)), done + [a])
  {
    assert (done + [a])[..|done|] == done;
  }

  lemma ProgressFollows(j: Join, g: Gate, a: Action, done: seq<Arrival>)
    requires Follows(j, g, done) && Enabled(g, a) && !a.Arrive?
    ensures Follows(j, Step(j, g, a), done)
  {
    if a.Record? { assert [] + [g.inProgress[a.i].arrival] == done; }
  }

  lemma {:induction false} RunFollows(j: Join, g: Gate, run: seq<Action>, w: nat, done: seq<Arrival>)
    requires w <= 1 && IsRun(j, g, run, w) && Follows(j, g, done)
    ensures Follows(j, After(j, g, run, w), done + Delivered(run))
    decreases |run|
  {
    if run == [] {
      assert done + Delivered(run) == done;
    } else if run[0].Arrive? {
      ArriveFollows(j, g, run[0].arrival, done);
      RunFollows(j, Step(j, g, run[0]), run[1..], w, done + [run[0].arrival]);
      assert done + [run[0].arrival] + Delivered(run[1..]) == done + Delivered(run);
    } else {
      ProgressFollows(j, g, run[0], done);
      RunFollows(j, Step(j, g, run[0]), run[1..], w, done);
    }
  }

  /** Arrivals that come one at a time behave as the single steps of `JoinGate`: once nobody is in
      progress and nothing is left to announce, the join has announced its first verdict, if any. */
  lemma SerialIsAtomic(j: Join, run: seq<Action>, w: nat)
    requires w <= 1 && IsRun(j, Empty, run, w)
    ensures var g := After(j, Empty, run, w);
            g.inProgress == [] && g.firing == 0 ==>
              g.firings == match FirstVerdict(j, Delivered(run)) { case None => [] case Some(failed) => [failed] }
  {
    RunFollows(j, Empty, run, w, []);
    assert [] + Delivered(run) == Delivered(run);
  }

  /** In particular it passes exactly when as many arrivals as there are connected edges do. */
  lemma SerialVerdict(j: Join, run: seq<Action>, w: nat)
    requires w <= 1 && IsRun(j, Empty, run, w) && |Delivered(run)| >= j.connectedCount >= 1
    ensures var g := After(j, Empty, run, w);
            g.inProgress == [] && g.firing == 0 ==> g.firings == [!Passes(j, Delivered(run)[..j.connectedCount])]
  {
    SerialIsAtomic(j, run, w);
    FirstVerdictPasses(j, Delivered(run));
  }

  // ---- After it has been announced ------------------------------------------------------------------

  /** The arrival that created the join's state; it decides without looking that state up again. */
  ghost predicate IsFirst(p: Progress) { p.Announced? || p.first }

  ghost predicate HasFirst(g: Gate) { exists p :: p in g.inProgress && IsFirst(p) }

  ghost predicate OneFirst(g: Gate) {
    forall i, k :: 0 <= i < k < |g.inProgress| ==> !IsFirst(g.inProgress[i]) || !IsFirst(g.inProgress[k])
  }

  ghost predicate FirstInv(g: Gate) {
    && OneFirst(g) && (!g.tracked && !g.fired ==> g.inProgress == [])
    && (Fires(g) > 0 ==> g.fired) && (g.firings != [] ==> !g.tracked)
  }

  ghost function MayFire(g: Gate): nat { Fires(g) + if HasFirst(g) then 1 else 0 }

  lemma WithoutOne(g: Gate, i: nat)
    requires OneFirst(g) && i < |g.inProgress|
    ensures var g' := g.(inProgress := g.inProgress[..i] + g.inProgress[i + 1..]);
            OneFirst(g') && (HasFirst(g') ==> HasFirst(g) && !IsFirst(g.inProgress[i]))
  {
    var rest := g.inProgress[..i] + g.inProgress[i + 1..];
    assert forall k :: 0 <= k < |rest| ==> rest[k] == g.inProgress[if k < i then k else k + 1];
  }

  lemma StepKeepsFirst(j: Join, g: Gate, a: Action)
    requires FirstInv(g) && Enabled(g, a)
    ensures FirstInv(Step(j, g, a)) && g.firings <= Step(j, g, a).firings
    ensures g.firings != [] ==> MayFire(Step(j, g, a)) <= MayFire(g)
  {
    if a.Decide? {
      WithoutOne(g, a.i);
      assert g.inProgress[a.i] in g.inProgress;
    } else if a.Record? {
      assert g.inProgress[a.i] in g.inProgress;
    }
  }

  lemma {:induction false} RunKeepsFirst(j: Join, g: Gate, run: seq<Action>, w: nat)
    requires IsRun(j, g, run, w) && FirstInv(g)
    ensures FirstInv(After(j, g, run, w))
    ensures g.firings != [] ==> MayFire(After(j, g, run, w)) <= MayFire(g)
    decreases |run|
  {
    if run != [] {
      StepKeepsFirst(j, g, run[0]);
      RunKeepsFirst(j, Step(j, g, run[0]), run[1..], w);
    }
  }

  /** However many arrivals overlap: once a join has been announced it decides to fire at most once more,
      because only the arrival that came first does not notice that the state is gone. */
  lemma FiresOnceMore(j: Join, run: seq<Action>, more: seq<Action>, w: nat)
    requires IsRun(j, Empty, run, w) && After(j, Empty, run, w).firings != []
    requires IsRun(j, After(j, Empty, run, w), more, w)
    ensures Fires(After(j, After(j, Empty, run, w), more, w)) <= Fires(After(j, Empty, run, w)) + 1
  {
    RunKeepsFirst(j, Empty, run, w);
    RunKeepsFirst(j, After(j, Empty, run, w), more, w);
  }

  // ---- When it fires twice --------------------------------------------------------------------------

  ghost predicate CanFireTwice(j: Join, g: Gate, w: nat) {
    exists run :: IsRun(j, g, run, w) && Fires(After(j, g, run, w)) >= 2
  }

  lemma FiredTwice(j: Join, g: Gate, w: nat)
    requires |g.inProgress| <= w && Fires(g) >= 2
    ensures CanFireTwice(j, g, w)
  {
    assert IsRun(j, g, [], w) && After(j, g, [], w) == g;
  }

  lemma StepCanFireTwice(j: Join, g: Gate, a: Action, w: nat)
    requires |g.inProgress| <= w && Enabled(g, a) && CanFireTwice(j, Step(j, g, a), w)
    ensures CanFireTwice(j, g, w)
  {
    var g' := Step(j, g, a);
    var rest :| IsRun(j, g', rest, w) && Fires(After(j, g', rest, w)) >= 2;
    var run := [a] + rest;
    assert run[1..] == rest;
    assert IsRun(j, g, run, w) && After(j, g, run, w) == After(j, g', rest, w);
  }

  const Hit := Arrival("", Completed, "")

  ghost function Hits(k: nat): seq<Arrival> { seq(k, _ => Hit) }

  lemma {:induction false} HitsCount(k: nat)
    ensures Count(Hits(k), Completed) == k && Count(Hits(k), Failed) == 0
  {
    if k > 0 {
      HitsCount(k - 1);
      assert Hits(k)[..k - 1] == Hits(k - 1);
    }
  }

  lemma NextHitFires(j: Join, k: nat)
    requires ShouldFire(j, Hits(k))
    ensures ShouldFire(j, Hits(k + 1))
  {
    HitsCount(k);
    HitsCount(k + 1);
  }

  lemma AllHitsFire(j: Join, k: nat)
    requires k >= 1 && k >= j.connectedCount
    ensures ShouldFire(j, Hits(k))
  {
    HitsCount(k);
  }

  /** After `k` completed arrivals, one at a time, none of which fired the join. */
  ghost function Waiting(k: nat): Gate {
    Gate(k > 0, Hits(k), false, [], 0, [], k)
  }

  lemma OneMoreHit(k: nat)
    ensures Hits(k) + [Hit] == Hits(k + 1)
  {
  }

  /** Two recorded arrivals in progress, with enough arrivals to fire. */
  lemma BothDecide(j: Join, g: Gate, w: nat)
    requires w >= 2 && g.tracked && ShouldFire(j, g.arrivals)
    requires |g.inProgress| == 2 && g.inProgress[0].Recorded? && g.inProgress[1].Recorded?
    ensures CanFireTwice(j, g, w)
  {
    var g1 := Step(j, g, Decide(0));
    assert g1.inProgress == [g.inProgress[1]];
    var g2 := Step(j, g1, Decide(0));
    FiredTwice(j, g2, w);
    StepCanFireTwice(j, g1, Decide(0), w);
    StepCanFireTwice(j, g, Decide(0), w);
  }

  lemma PairFiresTwice(j: Join, k: nat, w: nat)
    requires w >= 2 && ShouldFire(j, Hits(k + 2))
    ensures CanFireTwice(j, Waiting(k), w)
  {
    OneMoreHit(k);
    OneMoreHit(k + 1);
    var g := Waiting(k);
    var g1 := Step(j, g, Arrive(Hit));
    var g2 := Step(j, g1, Arrive(Hit));
    if k == 0 {
      var g3 := Step(j, g2, Record(0));
      BothDecide(j, g3, w);
      StepCanFireTwice(j, g2, Record(0), w);
    } else {
      BothDecide(j, g2, w);
    }
    StepCanFireTwice(j, g1, Arrive(Hit), w);
    StepCanFireTwice(j, g, Arrive(Hit), w);
  }

  /** One more arrival on its own that does not fire the join. */
  lemma SerialHit(j: Join, k: nat, w: nat)
    requires w >= 1 && !ShouldFire(j, Hits(k + 1)) && CanFireTwice(j, Waiting(k + 1), w)
    ensures CanFireTwice(j, Waiting(k), w)
  {
    OneMoreHit(k);
    var g := Waiting(k);
    var g1 := Step(j, g, Arrive(Hit));
    if k == 0 {
      var g2 := Step(j, g1, Record(0));
      assert Step(j, g2, Decide(0)) == Waiting(k + 1);
      StepCanFireTwice(j, g2, Decide(0), w);
      StepCanFireTwice(j, g1, Record(0), w);
    } else {
      assert Step(j, g1, Decide(0)) == Waiting(k + 1);
      StepCanFireTwice(j, g1, Decide(0), w);
    }
    StepCanFireTwice(j, g, Arrive(Hit), w);
  }

  /** Let branches arrive one at a time until the next two would fire the join. */
  lemma {:induction false} HitsFireTwice(j: Join, k: nat, w: nat)
    requires w >= 2
    ensures CanFireTwice(j, Waiting(k), w)
    decreases j.connectedCount - k
  {
    if k + 2 >= j.connectedCount { AllHitsFire(j, k + 2); }
    if ShouldFire(j, Hits(k + 2)) {
      PairFiresTwice(j, k, w);
    } else {
      if ShouldFire(j, Hits(k + 1)) { NextHitFires(j, k + 1); }
      HitsFireTwice(j, k + 1, w);
      SerialHit(j, k, w);
    }
  }

  // ---- Result ---------------------------------------------------------------------------------------

  /** A join fires at most once, over all interleavings of its arrivals, exactly when at most one
      arrival is in progress at a time, whatever its mode and however many edges lead to it. */
  lemma FiresAtMostOnceIff(j: Join, w: nat)
    ensures FiresAtMostOnce(j, w) <==> w <= 1
  {
    if w <= 1 {
      forall run | IsRun(j, Empty, run, w) ensures Fires(After(j, Empty, run, w)) <= 1 {
        RunKeepsInv(j, Empty, run, w);
      }
    } else {
      assert Waiting(0) == Empty;
      HitsFireTwice(j, 0, w);
    }
  }
}
