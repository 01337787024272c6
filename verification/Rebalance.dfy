/** `RebalancePolicy`: the resource walk that plans transfers, its convergence over the passes of a
    whole cluster, and the policy object with its load window and throttle. */
module Rebalance {
  import opened Common
  import opened HashRing
  import opened Placement
  import ClusterLoad
  import Dampening
  import Throttle

  datatype Transfer = Transfer(resourceId: string, targetNodeId: string)

  /** Who owns each resource, cluster-wide. */
  type Ownership = map<string, string>

  // ---- One walk -----------------------------------------------------------------------------------

  /** The transfers a walk over `owned` plans. */
  function Plan(h: HashFunction, count: nat, local: string, view: seq<string>, owned: seq<string>): seq<Transfer> {
    if owned == [] then []
    else
      var r := owned[|owned| - 1];
      var rest := Plan(h, count, local, view, owned[..|owned| - 1]);
      var ideal := Select(h, count, h(r), local, view);
      if ideal == local || ideal !in view then rest else rest + [Transfer(r, ideal)]
  }

  /** An owned resource goes to the node the strategy selects, if that is another member. */
  ghost predicate Planned(
    h: HashFunction, count: nat, local: string, view: seq<string>, owned: seq<string>, t: Transfer)
  {
    && t.resourceId in owned && t.targetNodeId == Select(h, count, h(t.resourceId), local, view)
    && t.targetNodeId != local && t.targetNodeId in view
  }

  lemma {:induction false} PlanMembers(
    h: HashFunction, count: nat, local: string, view: seq<string>, owned: seq<string>, t: Transfer)
    ensures t in Plan(h, count, local, view, owned) <==> Planned(h, count, local, view, owned, t)
  {
    if owned != [] {
      PlanMembers(h, count, local, view, owned[..|owned| - 1], t);
      assert owned == owned[..|owned| - 1] + [owned[|owned| - 1]];
    }
  }

  /** Transfers are planned in the order the resources are listed. */
  lemma {:induction false} PlanInOrder(
    h: HashFunction, count: nat, local: string, view: seq<string>, owned: seq<string>) returns (at: seq<nat>)
    ensures |at| == |Plan(h, count, local, view, owned)|
    ensures forall k :: 0 <= k < |at| ==>
      at[k] < |owned| && Plan(h, count, local, view, owned)[k].resourceId == owned[at[k]]
    ensures forall k, l :: 0 <= k < l < |at| ==> at[k] < at[l]
  {
    if owned == [] {
      at := [];
    } else {
      at := PlanInOrder(h, count, local, view, owned[..|owned| - 1]);
      if |Plan(h, count, local, view, owned)| > |at| { at := at + [|owned| - 1]; }
    }
  }

  /** Step 7 of `_evaluate`. */
  method WalkOwned(h: HashFunction, count: nat, local: string, view: seq<string>, owned: seq<string>)
    returns (transfers: seq<Transfer>, skipped: nat)
    ensures transfers == Plan(h, count, local, view, owned)
    ensures skipped + |transfers| == |owned|
    ensures forall t :: t in transfers <==> Planned(h, count, local, view, owned, t)
  {
    forall t ensures t in Plan(h, count, local, view, owned) <==> Planned(h, count, local, view, owned, t) {
      PlanMembers(h, count, local, view, owned, t);
    }
    transfers, skipped := [], 0;
    for i := 0 to |owned|
      invariant transfers == Plan(h, count, local, view, owned[..i])
      invariant skipped + |transfers| == i
    {
      assert owned[..i + 1][..i] == owned[..i];
      var ideal := SelectNode(h, count, owned[i], local, view);
      if ideal == local {
        skipped := skipped + 1;
        continue;
      }
      if ideal !in view {
        skipped := skipped + 1;
        continue;
      }
      transfers := transfers + [Transfer(owned[i], ideal)];
    }
    assert owned[..|owned|] == owned;
  }

  /** The owner every node computes for a resource, whatever order it sees the members in. */
  function IdealOwner(h: HashFunction, count: nat, nodes: seq<string>): string -> string {
    (r: string) => Select(h, count, h(r), "", nodes)
  }

  /** The same plan in terms of the agreed ideal owners. */
  function PlanTo(ideal: string -> string, local: string, owned: seq<string>): seq<Transfer> {
    if owned == [] then []
    else
      var r := owned[|owned| - 1];
      var rest := PlanTo(ideal, local, owned[..|owned| - 1]);
      if ideal(r) == local then rest else rest + [Transfer(r, ideal(r))]
  }

  /** The fixed cluster every result below is about. */
  ghost predicate Stable(h: HashFunction, nodes: seq<string>, count: nat) {
    NoRepeats(nodes) && nodes != [] && count >= 1 && NoTies(h, nodes, count)
  }

  lemma SelectIsIdeal(h: HashFunction, count: nat, nodes: seq<string>, view: seq<string>, local: string, r: string)
    requires Stable(h, nodes, count) && SameMembers(nodes, view)
    ensures Select(h, count, h(r), local, view) == IdealOwner(h, count, nodes)(r)
    ensures IdealOwner(h, count, nodes)(r) in view
  {
    SameRing(h, nodes, view, count);
    OwnerIsMember(h, nodes, count, h(r));
  }

  lemma {:induction false} PlanAgrees(
    h: HashFunction, count: nat, nodes: seq<string>, local: string, view: seq<string>, owned: seq<string>)
    requires Stable(h, nodes, count) && SameMembers(nodes, view)
    ensures Plan(h, count, local, view, owned) == PlanTo(IdealOwner(h, count, nodes), local, owned)
  {
    if owned != [] {
      PlanAgrees(h, count, nodes, local, view, owned[..|owned| - 1]);
      SelectIsIdeal(h, count, nodes, view, local, owned[|owned| - 1]);
    }
  }

  // ---- Passes over the cluster ----------------------------------------------------------------------

  /** A pass under way: the transfers it has still to attempt, and whether every attempt so far
      succeeded or was refused because the node no longer owned the resource. */
  datatype Pass = Pass(node: string, todo: seq<Transfer>, clean: bool)

  /** The registry's owners, all passes begun so far, and the number of successful transfers. */
  datatype Cluster = Cluster(own: Ownership, passes: seq<Pass>, moved: nat)

  /** A pass begins with the order the node sees the members in and the resources it owns in the order
      the registry lists them.  Then it attempts one transfer after the other, and any steps of other
      passes, by any nodes, can come in between. */
  datatype Action =
    | Begin(node: string, view: seq<string>, owned: seq<string>)
    | Attempt(i: nat, succeeded: bool)

  /** The registry transfers a resource only on behalf of its owner. */
  ghost predicate Enabled(c: Cluster, nodes: seq<string>, a: Action) {
    match a
    case Begin(node, view, owned) =>
      && node in nodes && SameMembers(nodes, view)
      && forall r :: r in owned <==> r in c.own && c.own[r] == node
    case Attempt(i, succeeded) =>
      && i < |c.passes| && c.passes[i].todo != []
      && (succeeded ==> Holds(c.own, c.passes[i].node, c.passes[i].todo[0].resourceId))
  }

  predicate Holds(own: Ownership, node: string, r: string) {
    r in own && own[r] == node
  }

  ghost function Step(h: HashFunction, count: nat, nodes: seq<string>, c: Cluster, a: Action): Cluster
    requires Enabled(c, nodes, a)
  {
    match a
    case Begin(node, view, owned) =>
      c.(passes := c.passes + [Pass(node, Plan(h, count, node, view, owned), true)])
    case Attempt(i, succeeded) =>
      var p, t := c.passes[i], c.passes[i].todo[0];
      var p' := Pass(p.node, p.todo[1..], p.clean && (succeeded || !Holds(c.own, p.node, t.resourceId)));
      if succeeded then
        Cluster(c.own[t.resourceId := t.targetNodeId], c.passes[i := p'], c.moved + 1)
      else
        c.(passes := c.passes[i := p'])
  }

  ghost function Misplaced(ideal: string -> string, own: Ownership): set<string> {
    set r | r in own && own[r] != ideal(r)
  }

  /** Whatever a pass has still to attempt goes to its ideal owner, away from the pass's node. */
  ghost predicate PlansHome(ideal: string -> string, p: Pass) {
    forall t :: t in p.todo ==> t.targetNodeId == ideal(t.resourceId) != p.node
  }

  /** A clean pass has everything its node must still shed among its remaining transfers. */
  ghost predicate PlansAll(ideal: string -> string, own: Ownership, p: Pass) {
    p.clean ==> forall r :: Holds(own, p.node, r) && ideal(r) != p.node ==> Transfer(r, ideal(r)) in p.todo
  }

  ghost predicate Inv(ideal: string -> string, c: Cluster) {
    forall p :: p in c.passes ==> PlansHome(ideal, p) && PlansAll(ideal, c.own, p)
  }

  lemma {:induction false} PlanToMembers(ideal: string -> string, local: string, owned: seq<string>, t: Transfer)
    ensures t in PlanTo(ideal, local, owned)
      <==> t.resourceId in owned && t.targetNodeId == ideal(t.resourceId) != local
  {
    if owned != [] {
      PlanToMembers(ideal, local, owned[..|owned| - 1], t);
      assert owned == owned[..|owned| - 1] + [owned[|owned| - 1]];
    }
  }

  /** The effect of one step on the owners: nothing, or one misplaced resource goes home. */
  ghost predicate MovesOneHome(ideal: string -> string, c: Cluster, c': Cluster) {
    && c'.own.Keys == c.own.Keys
    && (forall r :: r in c.own ==> c'.own[r] == c.own[r] || c'.own[r] == ideal(r))
    && |Misplaced(ideal, c'.own)| + c'.moved == |Misplaced(ideal, c.own)| + c.moved
    && c.moved <= c'.moved <= c.moved + 1
  }

  lemma MoveHome(ideal: string -> string, own: Ownership, r: string)
    requires r in own && own[r] != ideal(r)
    ensures |Misplaced(ideal, own[r := ideal(r)])| + 1 == |Misplaced(ideal, own)|
  {
    assert Misplaced(ideal, own) == Misplaced(ideal, own[r := ideal(r)]) + {r};
  }

  lemma BeginKeepsInv(h: HashFunction, count: nat, nodes: seq<string>, c: Cluster, a: Action)
    requires Stable(h, nodes, count) && Enabled(c, nodes, a) && a.Begin? && Inv(IdealOwner(h, count, nodes), c)
    ensures Inv(IdealOwner(h, count, nodes), Step(h, count, nodes, c, a))
  {
    var ideal := IdealOwner(h, count, nodes);
    PlanAgrees(h, count, nodes, a.node, a.view, a.owned);
    forall t ensures t in PlanTo(ideal, a.node, a.owned)
      <==> t.resourceId in a.owned && t.targetNodeId == ideal(t.resourceId) != a.node
    {
      PlanToMembers(ideal, a.node, a.owned, t);
    }
  }

  /** A success takes exactly one resource out of the misplaced set, a failure none. */
  lemma AttemptMovesHome(h: HashFunction, count: nat, nodes: seq<string>, c: Cluster, a: Action)
    requires Enabled(c, nodes, a) && a.Attempt? && Inv(IdealOwner(h, count, nodes), c)
    ensures MovesOneHome(IdealOwner(h, count, nodes), c, Step(h, count, nodes, c, a))
  {
    var ideal, p := IdealOwner(h, count, nodes), c.passes[a.i];
    assert p in c.passes && p.todo[0] in p.todo;
    if a.succeeded { MoveHome(ideal, c.own, p.todo[0].resourceId); }
  }

  lemma AttemptKeepsInv(h: HashFunction, count: nat, nodes: seq<string>, c: Cluster, a: Action)
    requires Enabled(c, nodes, a) && a.Attempt? && Inv(IdealOwner(h, count, nodes), c)
    ensures Inv(IdealOwner(h, count, nodes), Step(h, count, nodes, c, a))
  {
    var ideal, c' := IdealOwner(h, count, nodes), Step(h, count, nodes, c, a);
    var p, p' := c.passes[a.i], c'.passes[a.i];
    assert p in c.passes && p.todo == [p.todo[0]] + p'.todo && p.todo[0] in p.todo;
    forall q | q in c'.passes ensures PlansHome(ideal, q) && PlansAll(ideal, c'.own, q) {
      assert q in c.passes || q == p';
    }
  }

  lemma StepMakesProgress(h: HashFunction, count: nat, nodes: seq<string>, c: Cluster, a: Action)
    requires Stable(h, nodes, count) && Enabled(c, nodes, a) && Inv(IdealOwner(h, count, nodes), c)
    ensures var ideal, c' := IdealOwner(h, count, nodes), Step(h, count, nodes, c, a);
            && Inv(ideal, c') && MovesOneHome(ideal, c, c')
            && c'.moved == c.moved + if a.Attempt? && a.succeeded then 1 else 0
  {
    if a.Begin? {
      BeginKeepsInv(h, count, nodes, c, a);
    } else {
      AttemptKeepsInv(h, count, nodes, c, a);
      AttemptMovesHome(h, count, nodes, c, a);
    }
  }

  // ---- Convergence ----------------------------------------------------------------------------------

  ghost predicate IsRun(h: HashFunction, count: nat, nodes: seq<string>, c: Cluster, run: seq<Action>)
    decreases |run|
  {
    run == [] || (Enabled(c, nodes, run[0]) && IsRun(h, count, nodes, Step(h, count, nodes, c, run[0]), run[1..]))
  }

  ghost function After(h: HashFunction, count: nat, nodes: seq<string>, c: Cluster, run: seq<Action>): Cluster
    requires IsRun(h, count, nodes, c, run)
    decreases |run|
  {
    if run == [] then c else After(h, count, nodes, Step(h, count, nodes, c, run[0]), run[1..])
  }

  lemma {:induction false} RunMakesProgress(
    h: HashFunction, count: nat, nodes: seq<string>, c: Cluster, run: seq<Action>)
    requires Stable(h, nodes, count) && IsRun(h, count, nodes, c, run) && Inv(IdealOwner(h, count, nodes), c)
    ensures var ideal, c' := IdealOwner(h, count, nodes), After(h, count, nodes, c, run);
            && Inv(ideal, c')
            && c'.own.Keys == c.own.Keys
            && (forall r :: r in c.own ==> c'.own[r] == c.own[r] || c'.own[r] == ideal(r))
            && |Misplaced(ideal, c'.own)| + c'.moved == |Misplaced(ideal, c.own)| + c.moved
    decreases |run|
  {
    if run != [] {
      StepMakesProgress(h, count, nodes, c, run[0]);
      RunMakesProgress(h, count, nodes, Step(h, count, nodes, c, run[0]), run[1..]);
    }
  }

  /** Over every interleaving of passes, successful transfers and still misplaced resources add up to
      the resources misplaced at the start, and a resource is where it was or on its ideal owner:
      nothing on its ideal owner moves and nothing moves twice. */
  lemma TransfersAreConserved(h: HashFunction, count: nat, nodes: seq<string>, own: Ownership, run: seq<Action>)
    requires Stable(h, nodes, count) && IsRun(h, count, nodes, Cluster(own, [], 0), run)
    ensures var ideal, c := IdealOwner(h, count, nodes), After(h, count, nodes, Cluster(own, [], 0), run);
            && c.own.Keys == own.Keys
            && (forall r :: r in own ==> c.own[r] == own[r] || c.own[r] == ideal(r))
            && |Misplaced(ideal, c.own)| + c.moved == |Misplaced(ideal, own)|
  {
    RunMakesProgress(h, count, nodes, Cluster(own, [], 0), run);
  }

  /** The node has completed a pass without failures. */
  ghost predicate CleanPassBy(c: Cluster, node: string) {
    exists p :: p in c.passes && p.node == node && p.clean && p.todo == []
  }

  /** Once every owner has completed one clean pass, however the passes interleaved with each other
      and with unfinished or failing ones, every resource is on its ideal node. */
  lemma Convergence(h: HashFunction, count: nat, nodes: seq<string>, own: Ownership, run: seq<Action>)
    requires Stable(h, nodes, count) && IsRun(h, count, nodes, Cluster(own, [], 0), run)
    requires forall r :: r in own ==> CleanPassBy(After(h, count, nodes, Cluster(own, [], 0), run), own[r])
    ensures Misplaced(IdealOwner(h, count, nodes), After(h, count, nodes, Cluster(own, [], 0), run).own) == {}
  {
    var ideal, c := IdealOwner(h, count, nodes), After(h, count, nodes, Cluster(own, [], 0), run);
    RunMakesProgress(h, count, nodes, Cluster(own, [], 0), run);
    forall r | r in own ensures c.own[r] == ideal(r) {
      var p :| p in c.passes && p.node == own[r] && p.clean && p.todo == [];
      assert PlansAll(ideal, c.own, p);
      assert Transfer(r, ideal(r)) !in p.todo;
    }
  }

  // ---- The policy object ------------------------------------------------------------------------------

  /** The mutable part of the policy: the dampening window and the recent transfer times. */
  class RebalancePolicy {
    const maxTransfersPerSecond: nat
    const dampeningWindowMs: int
    const dampeningPercentile: real
    const thresholdAboveMean: real
    var loadSamples: seq<Dampening.Sample>
    var recentTransferTimes: seq<int>
    ghost var history: seq<int>
    ghost var clock: int

    ghost function ThrottleState(): Throttle.State
      reads this
    {
      Throttle.State(recentTransferTimes, history, clock)
    }

    ghost predicate Valid()
      reads this
    {
      && InTimeOrder(Dampening.Times(loadSamples))
      && (forall s :: s in loadSamples ==> s.t <= clock)
      && Throttle.Inv(ThrottleState(), maxTransfersPerSecond)
    }

    constructor (maxTransfersPerSecond: nat, dampeningWindowMs: int, dampeningPercentile: real,
                 thresholdAboveMean: real, ghost startedAt: int)
      ensures Valid() && ThrottleState() == Throttle.State([], [], startedAt) && loadSamples == []
    {
      this.maxTransfersPerSecond, this.dampeningWindowMs := maxTransfersPerSecond, dampeningWindowMs;
      this.dampeningPercentile, this.thresholdAboveMean := dampeningPercentile, thresholdAboveMean;
      loadSamples, recentTransferTimes := [], [];
      history, clock := [], startedAt;
    }

    /** Evict aged-out samples from the front of the window: exactly those that are too old. */
    method EvictAged(cutoff: int)
      requires InTimeOrder(Dampening.Times(loadSamples))
      modifies this`loadSamples
      ensures Dampening.Window(old(loadSamples), cutoff, loadSamples)
      ensures forall s :: s in loadSamples <==> s in old(loadSamples) && s.t >= cutoff
      ensures InTimeOrder(Dampening.Times(loadSamples))
    {
      ghost var gone := 0;
      while |loadSamples| > 0 && loadSamples[0].t < cutoff
        invariant 0 <= gone <= |old(loadSamples)| && loadSamples == old(loadSamples)[gone..]
        invariant InTimeOrder(Dampening.Times(loadSamples))
        invariant forall i :: 0 <= i < gone ==> old(loadSamples)[i].t < cutoff
        decreases |loadSamples|
      {
        Dampening.OldestFirst(loadSamples);
        loadSamples := loadSamples[1..];
        gone := gone + 1;
      }
      if loadSamples != [] { Dampening.OldestFirst(loadSamples); }
      Dampening.WindowMembers(old(loadSamples), cutoff, loadSamples);
    }

    method PercentileOfWindow(now: int) returns (percentile: Option<real>)
      requires Valid() && clock <= now
      modifies this`loadSamples
      ensures Valid()
      ensures Dampening.Window(old(loadSamples), now - dampeningWindowMs, loadSamples)
      ensures forall s :: s in loadSamples <==> s in old(loadSamples) && s.t >= now - dampeningWindowMs
      ensures percentile == Dampening.Percentile(Dampening.Loads(loadSamples), dampeningPercentile)
    {
      EvictAged(now - dampeningWindowMs);
      percentile := Dampening.PercentileOf(Dampening.Loads(loadSamples), dampeningPercentile);
    }

    /** Steps 2 and 3 of a pass: sum up the local load, record it and take the percentile. */
    method Measure(now: int, measured: seq<Option<real>>) returns (localLoad: real, p95: Option<real>)
      requires Valid() && clock <= now
      modifies this`loadSamples, this`clock
      ensures Valid() && clock == now && localLoad == ClusterLoad.Total(measured)
      ensures var all := old(loadSamples) + [Dampening.Sample(now, localLoad)];
              && Dampening.Window(all, now - dampeningWindowMs, loadSamples)
              && forall s :: s in loadSamples <==> s in all && s.t >= now - dampeningWindowMs
      ensures p95 == Dampening.Percentile(Dampening.Loads(loadSamples), dampeningPercentile)
    {
      localLoad := ClusterLoad.LocalLoad(measured);
      clock := now;
      Dampening.WindowInOrder(loadSamples, Dampening.Sample(now, localLoad));
      loadSamples := loadSamples + [Dampening.Sample(now, localLoad)];
      p95 := PercentileOfWindow(now);
    }

    /** Steps 4 to 6, once the peers' loads are there: no verdict (`peer-load-unavailable`) if there is
        no provider of them or no peer reported. */
    method Judge(local: string, localLoad: real, p95: Option<real>, peers: Option<map<string, real>>)
      returns (verdict: Option<Dampening.Verdict>)
      ensures verdict ==
        if peers.None? || peers.value.Keys <= {local} then None
        else Some(Dampening.Judge(
               localLoad, p95, ClusterLoad.MeanWith(peers.value - {local}, localLoad), thresholdAboveMean))
    {
      if peers.None? { return None; }
      var mean := ClusterLoad.ClusterMean(peers.value, local, localLoad);
      if mean.None? { return None; }
      verdict := Some(Dampening.Judge(localLoad, p95, mean.value, thresholdAboveMean));
    }

    method EvictOldTransfers(windowStart: int)
      modifies this`recentTransferTimes
      ensures recentTransferTimes == Throttle.Young(old(recentTransferTimes), windowStart)
    {
      while |recentTransferTimes| > 0 && recentTransferTimes[0] < windowStart
        invariant Throttle.Young(recentTransferTimes, windowStart)
                  == Throttle.Young(old(recentTransferTimes), windowStart)
        decreases |recentTransferTimes|
      {
        recentTransferTimes := recentTransferTimes[1..];
      }
    }

    /** `_waitForThrottleSlot`: evict old times and say how long to wait.  A transfer recorded after
        the wait, and before any other is, respects the limit. */
    method WaitForThrottleSlot(now: int) returns (waitMs: int)
      requires Valid() && maxTransfersPerSecond >= 1 && clock <= now
      modifies this`recentTransferTimes, this`clock
      ensures Valid() && ThrottleState() == Throttle.Acquired(old(ThrottleState()), now)
      ensures now + waitMs == Throttle.ReadyAt(old(ThrottleState()), now, maxTransfersPerSecond)
      ensures waitMs >= 0
      ensures forall at :: at >= now ==>
        (Throttle.Slot(ThrottleState(), at, maxTransfersPerSecond) <==> at >= now + waitMs)
    {
      Throttle.AcquireKeepsInv(ThrottleState(), now, maxTransfersPerSecond);
      forall at | at >= now
        ensures Throttle.Slot(Throttle.Acquired(ThrottleState(), now), at, maxTransfersPerSecond)
                <==> at >= Throttle.ReadyAt(ThrottleState(), now, maxTransfersPerSecond)
      {
        Throttle.WaitIsLeast(ThrottleState(), now, maxTransfersPerSecond, at);
      }
      EvictOldTransfers(now - 1000);
      waitMs := SlotWait(now);
      clock := now;
      assert ThrottleState() == Throttle.Acquired(old(ThrottleState()), now);
    }

    method SlotWait(now: int) returns (waitMs: int)
      requires maxTransfersPerSecond >= 1
      ensures waitMs == Throttle.WaitMs(recentTransferTimes, maxTransfersPerSecond, now)
    {
      if |recentTransferTimes| < maxTransfersPerSecond { return 0; }
      var earliest := recentTransferTimes[0];
      waitMs := Max(0, earliest + 1000 - now);
    }

    /** After a successful transfer: record its time and bound the stored times. */
    method RecordTransfer(at: int)
      requires Valid() && clock <= at
      modifies this`recentTransferTimes, this`clock, this`history
      ensures Valid() && ThrottleState() == Throttle.Recorded(old(ThrottleState()), at, maxTransfersPerSecond)
      ensures maxTransfersPerSecond >= 1 ==>
                old(Throttle.Slot(ThrottleState(), at, maxTransfersPerSecond)
                    && Throttle.Spaced(history, maxTransfersPerSecond)) ==>
                Throttle.Spaced(history, maxTransfersPerSecond)
    {
      ghost var before := ThrottleState();
      Throttle.RecordKeepsInv(before, at, maxTransfersPerSecond);
      if maxTransfersPerSecond >= 1 && Throttle.Slot(before, at, maxTransfersPerSecond)
         && Throttle.Spaced(history, maxTransfersPerSecond) {
        Throttle.RecordStaysSpaced(before, at, maxTransfersPerSecond);
      }
      history, clock := history + [at], at;
      recentTransferTimes := recentTransferTimes + [at];
      TrimTransfers();
      assert ThrottleState() == Throttle.Recorded(before, at, maxTransfersPerSecond);
    }

    method TrimTransfers()
      modifies this`recentTransferTimes
      ensures recentTransferTimes == Throttle.Trim(old(recentTransferTimes), maxTransfersPerSecond)
    {
      while |recentTransferTimes| > maxTransfersPerSecond
        invariant Throttle.Trim(recentTransferTimes, maxTransfersPerSecond)
                  == Throttle.Trim(old(recentTransferTimes), maxTransfersPerSecond)
        decreases |recentTransferTimes|
      {
        recentTransferTimes := recentTransferTimes[1..];
      }
    }
  }
}
