/** Join nodes of a pipeline: when a join fires, and whether it fires as passed or failed.  Each
    arrival is one atomic step here; `JoinRace` says what becomes of arrivals that interleave. */
module JoinGate {
  import opened Common

  datatype Mode = All | AnyOf | NOfM(n: Option<int>)
  datatype Status = Completed | Failed
  datatype Arrival = Arrival(edgeId: string, status: Status, sourceStepId: string)
  datatype Join = Join(mode: Mode, connectedCount: nat)

  function Count(arrivals: seq<Arrival>, status: Status): nat {
    if arrivals == [] then 0
    else Count(arrivals[..|arrivals| - 1], status) + if arrivals[|arrivals| - 1].status == status then 1 else 0
  }

  /** The number of completed arrivals an `n_of_m` join asks for. */
  function Required(n: Option<int>, connected: nat): int {
    match n case Some(k) => Min(k, connected) case None => connected
  }

  predicate ShouldFire(j: Join, arrivals: seq<Arrival>) {
    var completed, failed := Count(arrivals, Completed), Count(arrivals, Failed);
    match j.mode
    case All => |arrivals| >= j.connectedCount
    case AnyOf => completed >= 1 || (j.connectedCount > 0 && failed >= j.connectedCount)
    case NOfM(n) =>
      || completed >= Required(n, j.connectedCount)
      || completed + Max(0, j.connectedCount - |arrivals|) < Required(n, j.connectedCount)
  }

  /** The fail decision of `fireJoin`. */
  predicate JoinFailed(j: Join, arrivals: seq<Arrival>) {
    match j.mode
    case All => exists a :: a in arrivals && a.status == Failed
    case AnyOf => Count(arrivals, Completed) == 0
    case NOfM(n) => Count(arrivals, Completed) < Required(n, j.connectedCount)
  }

  /** The positions of the completed arrivals. */
  ghost function CompletedAt(arrivals: seq<Arrival>): set<int> {
    set i | 0 <= i < |arrivals| && arrivals[i].status == Completed
  }

  /** What passing means: every branch completed, some branch did, or enough of them did. */
  ghost predicate Passes(j: Join, arrivals: seq<Arrival>) {
    match j.mode
    case All => forall i :: 0 <= i < |arrivals| ==> arrivals[i].status == Completed
    case AnyOf => exists i :: 0 <= i < |arrivals| && arrivals[i].status == Completed
    case NOfM(n) =>
      |CompletedAt(arrivals)| >= j.connectedCount || (n.Some? && |CompletedAt(arrivals)| >= n.value)
  }

  /** The verdict at the first firing prefix, if any prefix fires. */
  function FirstVerdict(j: Join, arrivals: seq<Arrival>): Option<bool> {
    if arrivals == [] then None
    else
      var earlier := FirstVerdict(j, arrivals[..|arrivals| - 1]);
      if earlier.Some? then earlier
      else if ShouldFire(j, arrivals) then Some(JoinFailed(j, arrivals))
      else None
  }

  // ---- Early firing is sound ------------------------------------------------------------------------

  lemma {:induction false} CountsAddUp(arrivals: seq<Arrival>)
    ensures Count(arrivals, Completed) + Count(arrivals, Failed) == |arrivals|
    ensures Count(arrivals, Failed) > 0 <==> exists a :: a in arrivals && a.status == Failed
  {
    if arrivals != [] {
      var front, last := arrivals[..|arrivals| - 1], arrivals[|arrivals| - 1];
      CountsAddUp(front);
      assert last in arrivals;
      assert forall a :: a in arrivals <==> a in front || a == last;
    }
  }

  lemma {:induction false} CountIsPositions(arrivals: seq<Arrival>)
    ensures Count(arrivals, Completed) == |CompletedAt(arrivals)|
  {
    if arrivals != [] {
      var last := |arrivals| - 1;
      CountIsPositions(arrivals[..last]);
      if arrivals[last].status == Completed {
        assert CompletedAt(arrivals) == CompletedAt(arrivals[..last]) + {last};
      } else {
        assert CompletedAt(arrivals) == CompletedAt(arrivals[..last]);
      }
    }
  }

  lemma NoneCompleted(arrivals: seq<Arrival>)
    ensures CompletedAt(arrivals) == {} <==> forall i :: 0 <= i < |arrivals| ==> arrivals[i].status == Failed
  {
    if i :| 0 <= i < |arrivals| && arrivals[i].status == Completed {
      assert i in CompletedAt(arrivals);
    }
  }

  /** The fail decision says whether the arrivals pass. */
  lemma FailedIff(j: Join, arrivals: seq<Arrival>)
    ensures JoinFailed(j, arrivals) <==> !Passes(j, arrivals)
  {
    CountIsPositions(arrivals);
    NoneCompleted(arrivals);
    CountsAddUp(arrivals);
  }

  /** `full` is a complete set of arrivals that contains `part`, in any order. */
  ghost predicate Completes(j: Join, part: seq<Arrival>, full: seq<Arrival>) {
    && |full| == j.connectedCount
    && Count(part, Completed) <= Count(full, Completed)
    && Count(part, Failed) <= Count(full, Failed)
  }

  /** A firing prefix already decides: every completion of it, in every order, has its verdict. */
  lemma FiringDecides(j: Join, part: seq<Arrival>, full: seq<Arrival>)
    requires ShouldFire(j, part) && Completes(j, part, full)
    ensures JoinFailed(j, part) == JoinFailed(j, full)
  {
    CountsAddUp(part);
    CountsAddUp(full);
  }

  /** The verdict a join fires with is the one the complete set of arrivals would have. */
  lemma {:induction false} VerdictIsFinal(j: Join, arrivals: seq<Arrival>, full: seq<Arrival>)
    requires Completes(j, arrivals, full) && FirstVerdict(j, arrivals).Some?
    ensures FirstVerdict(j, arrivals).value == JoinFailed(j, full)
  {
    var front := arrivals[..|arrivals| - 1];
    if FirstVerdict(j, front).Some? {
      VerdictIsFinal(j, front, full);
    } else {
      FiringDecides(j, arrivals, full);
    }
  }

  /** Once every connected edge has reported, the join has fired. */
  lemma FiredWhenAllReported(j: Join, arrivals: seq<Arrival>)
    requires |arrivals| == j.connectedCount >= 1
    ensures FirstVerdict(j, arrivals).Some?
  {
    CountsAddUp(arrivals);
  }

  /** The verdict does not depend on the order in which the branches arrive. */
  lemma VerdictIgnoresOrder(j: Join, a: seq<Arrival>, b: seq<Arrival>)
    requires |a| == |b| == j.connectedCount >= 1 && Count(a, Failed) == Count(b, Failed)
    ensures FirstVerdict(j, a) == FirstVerdict(j, b) == Some(JoinFailed(j, a))
  {
    CountsAddUp(a);
    CountsAddUp(b);
    FiredWhenAllReported(j, a);
    FiredWhenAllReported(j, b);
    VerdictIsFinal(j, a, a);
    VerdictIsFinal(j, b, a);
  }

  // ---- Firing is not late either ----------------------------------------------------------------------

  lemma {:induction false} CountAppend(a: seq<Arrival>, b: seq<Arrival>, status: Status)
    ensures Count(a + b, status) == Count(a, status) + Count(b, status)
  {
    if b == [] {
      assert a + b == a;
    } else {
      assert (a + b)[..|a + b| - 1] == a + b[..|b| - 1];
      CountAppend(a, b[..|b| - 1], status);
    }
  }

  lemma FiringPersists(j: Join, arrivals: seq<Arrival>, more: seq<Arrival>)
    requires ShouldFire(j, arrivals)
    ensures ShouldFire(j, arrivals + more)
  {
    CountAppend(arrivals, more, Completed);
    CountAppend(arrivals, more, Failed);
    CountsAddUp(more);
  }

  /** A join has fired exactly when it should fire now. */
  lemma {:induction false} FiredIffShould(j: Join, arrivals: seq<Arrival>)
    requires arrivals != []
    ensures FirstVerdict(j, arrivals).Some? <==> ShouldFire(j, arrivals)
  {
    var front, last := arrivals[..|arrivals| - 1], arrivals[|arrivals| - 1];
    assert arrivals == front + [last];
    if front != [] {
      FiredIffShould(j, front);
      if ShouldFire(j, front) { FiringPersists(j, front, [last]); }
    }
  }

  /** However the remaining branches end, the join passes or fails alike. */
  ghost predicate Decided(j: Join, part: seq<Arrival>) {
    forall full, other :: part <= full && part <= other && |full| == |other| == j.connectedCount
      ==> (Passes(j, full) <==> Passes(j, other))
  }

  function Fill(k: nat, status: Status): seq<Arrival> { seq(k, _ => Arrival("", status, "")) }

  lemma {:induction false} FillCount(k: nat, status: Status)
    ensures Count(Fill(k, status), Completed) == if status == Completed then k else 0
    ensures Count(Fill(k, status), Failed) == if status == Failed then k else 0
  {
    if k > 0 {
      FillCount(k - 1, status);
      assert Fill(k, status)[..k - 1] == Fill(k - 1, status);
    }
  }

  lemma FiringIsDecided(j: Join, part: seq<Arrival>, full: seq<Arrival>)
    requires ShouldFire(j, part) && part <= full && |full| == j.connectedCount
    ensures Passes(j, full) <==> !JoinFailed(j, part)
  {
    var more := full[|part|..];
    assert full == part + more;
    CountAppend(part, more, Completed);
    CountAppend(part, more, Failed);
    FiringDecides(j, part, full);
    FailedIff(j, full);
  }

  lemma UndecidedUntilFiring(j: Join, part: seq<Arrival>)
    requires !j.mode.All? && 1 <= |part| <= j.connectedCount && !ShouldFire(j, part)
    ensures !Decided(j, part)
  {
    var k := j.connectedCount - |part|;
    var good, bad := part + Fill(k, Completed), part + Fill(k, Failed);
    FillCount(k, Completed);
    FillCount(k, Failed);
    CountAppend(part, Fill(k, Completed), Completed);
    CountAppend(part, Fill(k, Failed), Completed);
    CountsAddUp(part);
    FailedIff(j, good);
    FailedIff(j, bad);
    assert Passes(j, good) && !Passes(j, bad);
  }

  /** An `all` join fires when every connected edge has reported, a join of another mode as soon as the
      branches still missing cannot change its verdict. */
  lemma FiresWhenDecided(j: Join, arrivals: seq<Arrival>)
    requires 1 <= |arrivals| <= j.connectedCount
    ensures FirstVerdict(j, arrivals).Some?
      <==> if j.mode.All? then |arrivals| == j.connectedCount else Decided(j, arrivals)
  {
    FiredIffShould(j, arrivals);
    if !j.mode.All? {
      if ShouldFire(j, arrivals) {
        forall full | arrivals <= full && |full| == j.connectedCount
          ensures Passes(j, full) <==> !JoinFailed(j, arrivals)
        {
          FiringIsDecided(j, arrivals, full);
        }
      } else {
        UndecidedUntilFiring(j, arrivals);
      }
    }
  }

  lemma {:induction false} FirstVerdictStays(j: Join, arrivals: seq<Arrival>, k: nat)
    requires k <= |arrivals| && FirstVerdict(j, arrivals[..k]).Some?
    ensures FirstVerdict(j, arrivals) == FirstVerdict(j, arrivals[..k])
  {
    if k < |arrivals| {
      assert arrivals[..|arrivals| - 1][..k] == arrivals[..k];
      FirstVerdictStays(j, arrivals[..|arrivals| - 1], k);
    } else {
      assert arrivals[..k] == arrivals;
    }
  }

  /** As many arrivals as there are connected edges decide; what comes after them is dropped. */
  lemma FirstVerdictPasses(j: Join, arrivals: seq<Arrival>)
    requires |arrivals| >= j.connectedCount >= 1
    ensures FirstVerdict(j, arrivals) == Some(!Passes(j, arrivals[..j.connectedCount]))
  {
    var first := arrivals[..j.connectedCount];
    VerdictIgnoresOrder(j, first, first);
    FirstVerdictStays(j, arrivals, j.connectedCount);
    FailedIff(j, first);
  }

  // ---- All joins of a run ---------------------------------------------------------------------------

  datatype Firing = Firing(joinId: string, failed: bool)

  datatype Gates = Gates(
    joinStates: map<string, seq<Arrival>>,
    firedJoins: set<string>,
    firings: seq<Firing>)

  datatype Delivery = Delivery(joinId: string, arrival: Arrival)

  const Idle := Gates(map[], {}, [])

  function Deliver(joins: map<string, Join>, g: Gates, d: Delivery): Gates
    requires d.joinId in joins
  {
    if d.joinId in g.firedJoins then g
    else
      var before := if d.joinId in g.joinStates then g.joinStates[d.joinId] else [];
      var arrivals := before + [d.arrival];
      var j := joins[d.joinId];
      if !ShouldFire(j, arrivals) then g.(joinStates := g.joinStates[d.joinId := arrivals])
      else Gates(g.joinStates - {d.joinId}, g.firedJoins + {d.joinId},
                 g.firings + [Firing(d.joinId, JoinFailed(j, arrivals))])
  }

  ghost predicate Known(joins: map<string, Join>, run: seq<Delivery>) {
    forall d :: d in run ==> d.joinId in joins
  }

  function AfterRun(joins: map<string, Join>, run: seq<Delivery>): Gates
    requires Known(joins, run)
  {
    if run == [] then Idle else Deliver(joins, AfterRun(joins, run[..|run| - 1]), run[|run| - 1])
  }

  function ArrivalsAt(run: seq<Delivery>, id: string): seq<Arrival> {
    if run == [] then []
    else
      var rest := ArrivalsAt(run[..|run| - 1], id);
      if run[|run| - 1].joinId == id then rest + [run[|run| - 1].arrival] else rest
  }

  function FiringsOf(firings: seq<Firing>, id: string): seq<bool> {
    if firings == [] then []
    else
      var rest := FiringsOf(firings[..|firings| - 1], id);
      if firings[|firings| - 1].joinId == id then rest + [firings[|firings| - 1].failed] else rest
  }

  lemma FiringsAppend(firings: seq<Firing>, f: Firing, id: string)
    ensures FiringsOf(firings + [f], id) == FiringsOf(firings, id) + if f.joinId == id then [f.failed] else []
  {
    assert (firings + [f])[..|firings|] == firings;
  }

  /** The bookkeeping for join `id` matches the arrivals delivered to it so far: before it fires they
      are all kept, afterwards exactly one firing is recorded, with the first verdict. */
  ghost predicate Tracks(g: Gates, j: Join, id: string, arrivals: seq<Arrival>) {
    match FirstVerdict(j, arrivals)
    case None =>
      && FiringsOf(g.firings, id) == [] && id !in g.firedJoins
      && arrivals == if id in g.joinStates then g.joinStates[id] else []
    case Some(failed) =>
      FiringsOf(g.firings, id) == [failed] && id in g.firedJoins && id !in g.joinStates
  }

  lemma DeliverTracks(joins: map<string, Join>, g: Gates, d: Delivery, arrivals: seq<Arrival>)
    requires d.joinId in joins && Tracks(g, joins[d.joinId], d.joinId, arrivals)
    ensures Tracks(Deliver(joins, g, d), joins[d.joinId], d.joinId, arrivals + [d.arrival])
  {
    var j, more := joins[d.joinId], arrivals + [d.arrival];
    assert more[..|arrivals|] == arrivals;
    if d.joinId !in g.firedJoins && ShouldFire(j, more) {
      FiringsAppend(g.firings, Firing(d.joinId, JoinFailed(j, more)), d.joinId);
    }
  }

  lemma DeliverElsewhere(joins: map<string, Join>, g: Gates, d: Delivery, id: string, arrivals: seq<Arrival>)
    requires d.joinId in joins && id in joins && id != d.joinId && Tracks(g, joins[id], id, arrivals)
    ensures Tracks(Deliver(joins, g, d), joins[id], id, arrivals)
  {
    var g' := Deliver(joins, g, d);
    if g'.firings != g.firings {
      FiringsAppend(g.firings, g'.firings[|g.firings|], id);
    }
  }

  /** Over every run of arrivals at any joins, each join fires at most once, at the first of its
      arrivals that lets it fire, and later arrivals are dropped. */
  lemma {:induction false} FiresOnce(joins: map<string, Join>, run: seq<Delivery>, id: string)
    requires Known(joins, run) && id in joins
    ensures Tracks(AfterRun(joins, run), joins[id], id, ArrivalsAt(run, id))
  {
    if run != [] {
      var front, d := run[..|run| - 1], run[|run| - 1];
      FiresOnce(joins, front, id);
      var g, arrivals := AfterRun(joins, front), ArrivalsAt(front, id);
      if d.joinId == id {
        DeliverTracks(joins, g, d, arrivals);
      } else {
        DeliverElsewhere(joins, g, d, id, arrivals);
      }
    }
  }

  /** So once as many arrivals have come as there are connected edges, a join has fired exactly once,
      and it has passed exactly when those arrivals do. */
  lemma CompleteJoinVerdict(joins: map<string, Join>, run: seq<Delivery>, id: string)
    requires Known(joins, run) && id in joins
    requires |ArrivalsAt(run, id)| >= joins[id].connectedCount >= 1
    ensures FiringsOf(AfterRun(joins, run).firings, id)
            == [!Passes(joins[id], ArrivalsAt(run, id)[..joins[id].connectedCount])]
  {
    FiresOnce(joins, run, id);
    FirstVerdictPasses(joins[id], ArrivalsAt(run, id));
  }

  /** Before that it has fired only if the verdict is decided, and for an `all` join not at all. */
  lemma EarlyFiring(joins: map<string, Join>, run: seq<Delivery>, id: string)
    requires Known(joins, run) && id in joins
    requires 1 <= |ArrivalsAt(run, id)| < joins[id].connectedCount
    ensures FiringsOf(AfterRun(joins, run).firings, id) != []
      <==> !joins[id].mode.All? && Decided(joins[id], ArrivalsAt(run, id))
  {
    FiresOnce(joins, run, id);
    FiresWhenDecided(joins[id], ArrivalsAt(run, id));
  }

  /** The join bookkeeping of the executor.  A valid table is what `run`, the arrivals delivered so
      far, has left. */
  class JoinTable {
    const joins: map<string, Join>
    var joinStates: map<string, seq<Arrival>>
    var firedJoins: set<string>
    var firings: seq<Firing>
    ghost var run: seq<Delivery>

    ghost function State(): Gates
      reads this
    {
      Gates(joinStates, firedJoins, firings)
    }

    ghost predicate Valid()
      reads this
    {
      Known(joins, run) && State() == AfterRun(joins, run)
    }

    constructor (joins: map<string, Join>)
      ensures this.joins == joins && Valid() && run == []
    {
      this.joins := joins;
      joinStates, firedJoins, firings, run := map[], {}, [], [];
    }

    /** A join has fired at most once, at the first of its arrivals that let it, and has passed exactly
        when as many arrivals as there are connected edges do. */
    lemma Fired(id: string)
      requires Valid() && id in joins
      ensures FiringsOf(firings, id) ==
              match FirstVerdict(joins[id], ArrivalsAt(run, id)) { case None => [] case Some(failed) => [failed] }
      ensures |ArrivalsAt(run, id)| >= joins[id].connectedCount >= 1 ==>
                FiringsOf(firings, id) == [!Passes(joins[id], ArrivalsAt(run, id)[..joins[id].connectedCount])]
    {
      FiresOnce(joins, run, id);
      if |ArrivalsAt(run, id)| >= joins[id].connectedCount >= 1 { CompleteJoinVerdict(joins, run, id); }
    }

    /** `handleJoinArrival` up to the fired event of `fireJoin`. */
    method HandleArrival(joinId: string, arrival: Arrival)
      requires Valid() && joinId in joins
      modifies this
      ensures Valid() && run == old(run) + [Delivery(joinId, arrival)]
      ensures State() == Deliver(joins, old(State()), Delivery(joinId, arrival))
      ensures var arrivals, needed := ArrivalsAt(run, joinId), joins[joinId].connectedCount;
              |arrivals| >= needed >= 1 ==> FiringsOf(firings, joinId) == [!Passes(joins[joinId], arrivals[..needed])]
    {
      Receive(joinId, arrival);
      run := run + [Delivery(joinId, arrival)];
      assert run[..|run| - 1] == old(run);
      Fired(joinId);
    }

    method Receive(joinId: string, arrival: Arrival)
      requires joinId in joins
      modifies this`joinStates, this`firedJoins, this`firings
      ensures State() == Deliver(joins, old(State()), Delivery(joinId, arrival))
    {
      if joinId in firedJoins { return; }
      if joinId !in joinStates { joinStates := joinStates[joinId := []]; }
      joinStates := joinStates[joinId := joinStates[joinId] + [arrival]];
      var arrivals := joinStates[joinId];
      if !ShouldFire(joins[joinId], arrivals) { return; }
      firedJoins := firedJoins + {joinId};
      firings := firings + [Firing(joinId, JoinFailed(joins[joinId], arrivals))];
      joinStates := joinStates - {joinId};
    }
  }
}
