/** Definitions on which `cancel` can leave a step running.  Each of them breaks one condition of the
    settling results of `Traversal` and meets the others. */
module StrandedSteps {
  import opened Common
  import opened StableSort
  import opened Cancellation
  import opened Traversal
  import DownstreamJoin
  import JoinGate
  import JoinRace

  /** A node that can be started. */
  ghost predicate IsStep(g: Graph, n: string) {
    n in g.def.nodes && n !in g.def.joins
  }

  // ---- Parts of a run -------------------------------------------------------------------------------

  /** Up to the return of the trigger. */
  lemma TriggerReturns(g: Graph) returns (w: Walk)
    requires IsStep(g, g.trigger)
    ensures w.open == Chosen(g, g.trigger, "out") && w.begun == {g.trigger} && w.gates == map[] && w.failed == {}
    ensures FreshIds(w.run)
    ensures CanStrand(g, w) ==> CanStrand(g, Start)
  {
    var w1 := Next(g, Start, Trigger);
    var w2 := Next(g, w1, Work(Finish(0, true)));
    w := Next(g, w2, Return(0, "out"));
    if CanStrand(g, w) {
      MoveCanStrand(g, w2, Return(0, "out"));
      MoveCanStrand(g, w1, Work(Finish(0, true)));
      MoveCanStrand(g, Start, Trigger);
    }
  }

  /** One node from its start to its return. */
  lemma NodeReturns(g: Graph, w: Walk, i: nat, completed: bool, handle: string) returns (w': Walk)
    requires i < |w.open| && IsStep(g, w.open[i].target) && FreshIds(w.run)
    ensures w'.open == w.open[..i] + w.open[i + 1..] + Chosen(g, w.open[i].target, handle)
    ensures w'.begun == w.begun + {w.open[i].target} && w'.gates == w.gates && FreshIds(w'.run)
    ensures w'.failed == if completed then w.failed else w.failed + {w.open[i].target}
    ensures CanStrand(g, w') ==> CanStrand(g, w)
  {
    var id := w.run.next;
    var w1 := Next(g, w, Follow(i));
    var w2 := Next(g, w1, Work(Finish(id, completed)));
    w' := Next(g, w2, Return(id, handle));
    if CanStrand(g, w') {
      MoveCanStrand(g, w2, Return(id, handle));
      MoveCanStrand(g, w1, Work(Finish(id, completed)));
      MoveCanStrand(g, w, Follow(i));
    }
  }

  // ---- Two edges into a node ------------------------------------------------------------------------

  /** Two edges that the trigger follows together to one node. */
  lemma DoubleEntryCanStrand(g: Graph, e: Edge, f: Edge)
    requires IsStep(g, g.trigger) && IsStep(g, e.target) && e != f && e.target == f.target
    requires e in Chosen(g, g.trigger, "out") && f in Chosen(g, g.trigger, "out")
    ensures CanStrand(g, Start)
  {
    var w := TriggerReturns(g);
    var i :| 0 <= i < |w.open| && w.open[i] == e;
    var j :| 0 <= j < |w.open| && w.open[j] == f;
    OpenTwiceCanStrand(g, w, Min(i, j), Max(i, j));
  }

  lemma OpenTwiceCanStrand(g: Graph, w: Walk, i: nat, j: nat)
    requires i < j < |w.open| && w.open[i].target == w.open[j].target && IsStep(g, w.open[i].target)
    ensures CanStrand(g, w)
  {
    var w' := Next(g, w, Follow(j));
    assert w'.open[i] == w.open[i];
    RestartCanStrand(g, w', i, w.run.next);
    MoveCanStrand(g, w, Follow(j));
  }

  // ---- A join that fires twice ----------------------------------------------------------------------

  lemma FireTwiceCanStrand(g: Graph, w: Walk, j: string, e: Edge)
    requires j in g.def.joins && GateOf(w, j).firing >= 2
    requires e in Chosen(g, j, Handle(g, w, j)) && IsStep(g, e.target)
    ensures CanStrand(g, w)
  {
    var w1, chosen := Next(g, w, Fire(j)), Chosen(g, j, Handle(g, w, j));
    var k :| 0 <= k < |chosen| && chosen[k] == e;
    var i := |w.open| + k;
    assert w1.open[i] == e;
    var w2 := Next(g, w1, Follow(i));
    assert GateOf(w2, j).arrivals == GateOf(w, j).arrivals;
    RefiredJoinCanStrand(g, w2, j, e, w1.run.next);
    MoveCanStrand(g, w1, Follow(i));
    MoveCanStrand(g, w, Fire(j));
  }

  lemma BothDecideCanStrand(g: Graph, w: Walk, j: string, e: Edge)
    requires var gate := GateOf(w, j);
             && gate.tracked && gate.inProgress == [JoinRace.Recorded(true), JoinRace.Recorded(false)]
             && JoinGate.ShouldFire(Config(g, j), gate.arrivals)
    requires j in g.def.joins && e in Chosen(g, j, Handle(g, w, j)) && IsStep(g, e.target)
    ensures CanStrand(g, w)
  {
    var decide := Proceed(j, JoinRace.Decide(0));
    var w1 := Next(g, w, decide);
    assert GateOf(w1, j).inProgress == [JoinRace.Recorded(false)];
    var w2 := Next(g, w1, decide);
    FireTwiceCanStrand(g, w2, j, e);
    MoveCanStrand(g, w1, decide);
    MoveCanStrand(g, w, decide);
  }

  /** A first arrival is still being announced when another one is recorded. */
  ghost predicate TwoInProgress(gate: JoinRace.Gate, first: JoinGate.Arrival, second: JoinGate.Arrival) {
    && gate.tracked && gate.arrivals == [second]
    && gate.inProgress == [JoinRace.Announced(first), JoinRace.Recorded(false)]
  }

  lemma OverlapCanStrand(g: Graph, w: Walk, j: string, e: Edge, first: JoinGate.Arrival, second: JoinGate.Arrival)
    requires j in g.def.joins && TwoInProgress(GateOf(w, j), first, second)
    requires JoinGate.ShouldFire(Config(g, j), [second, first]) && !JoinGate.JoinFailed(Config(g, j), [second, first])
    requires e in Chosen(g, j, "out") && IsStep(g, e.target)
    ensures CanStrand(g, w)
  {
    var record := Proceed(j, JoinRace.Record(0));
    var w' := Next(g, w, record);
    assert GateOf(w', j).arrivals == [second, first];
    BothDecideCanStrand(g, w', j, e);
    MoveCanStrand(g, w, record);
  }

  lemma CountsOfTwo(x: JoinGate.Arrival, y: JoinGate.Arrival, status: JoinGate.Status)
    ensures JoinGate.Count([x, y], status)
            == (if x.status == status then 1 else 0) + (if y.status == status then 1 else 0)
  {
    assert [x, y][..1] == [x] && [x][..0] == [];
    assert JoinGate.Count([x], status) == if x.status == status then 1 else 0;
  }

  ghost function ArrivalAlong(e: Edge): JoinGate.Arrival { JoinGate.Arrival(e.id, JoinGate.Completed, e.source) }

  /** The first arrival at a join, up to its first await. */
  lemma FirstArrives(g: Graph, w: Walk, i: nat) returns (w': Walk)
    requires i < |w.open| && w.open[i].target in g.def.nodes && w.open[i].target in g.def.joins && FreshIds(w.run)
    requires w.open[i].target !in w.gates
    ensures w'.open == w.open[..i] + w.open[i + 1..] && w'.begun == w.begun && w'.failed == w.failed
    ensures GateOf(w', w.open[i].target)
            == JoinRace.Gate(true, [], false, [JoinRace.Announced(ArrivalAlong(w.open[i]))], 0, [], 1)
    ensures FreshIds(w'.run) && (CanStrand(g, w') ==> CanStrand(g, w))
  {
    w' := Next(g, w, Follow(i));
    assert GateOf(w', w.open[i].target).inProgress == [JoinRace.Announced(ArrivalAlong(w.open[i]))];
    if CanStrand(g, w') { MoveCanStrand(g, w, Follow(i)); }
  }

  /** A second one along an open edge, up to its await. */
  lemma SecondArrives(g: Graph, w: Walk, i: nat, first: JoinGate.Arrival) returns (w': Walk)
    requires i < |w.open| && w.open[i].target in g.def.nodes && w.open[i].target in g.def.joins
    requires GateOf(w, w.open[i].target) == JoinRace.Gate(true, [], false, [JoinRace.Announced(first)], 0, [], 1)
    ensures TwoInProgress(GateOf(w', w.open[i].target), first, ArrivalAlong(w.open[i]))
    ensures CanStrand(g, w') ==> CanStrand(g, w)
  {
    w' := Next(g, w, Follow(i));
    if CanStrand(g, w') { MoveCanStrand(g, w, Follow(i)); }
  }

  /** Or as the report of a failed branch. */
  lemma ReportArrives(g: Graph, w: Walk, m: Move, first: JoinGate.Arrival) returns (w': Walk)
    requires m.Report? && Guard(g, w, m)
    requires GateOf(w, m.join) == JoinRace.Gate(true, [], false, [JoinRace.Announced(first)], 0, [], 1)
    ensures TwoInProgress(GateOf(w', m.join), first, JoinGate.Arrival(m.branch.id, JoinGate.Failed, m.node))
    ensures CanStrand(g, w') ==> CanStrand(g, w)
  {
    w' := Next(g, w, m);
    if CanStrand(g, w') { MoveCanStrand(g, w, m); }
  }

  // ---- Two edges into a join ------------------------------------------------------------------------

  const Upper := Edge("1", "t", "out", "j")
  const Lower := Edge("2", "t", "out", "j")
  const Tail := Edge("3", "j", "out", "c")

  /** The trigger leads to a join along two edges, and the join to one more node. */
  function Diamond(mode: JoinGate.Mode): Graph {
    Graph(Definition(["t", "j", "c"], {"j"}), "t", [Upper, Lower, Tail], {}, map["j" := mode])
  }

  function If(p: Edge -> bool, e: Edge): seq<Edge> { if p(e) then [e] else [] }

  lemma FilterOne(a: Edge, p: Edge -> bool)
    ensures Filter([a], p) == If(p, a)
  {
    assert [a][1..] == [];
  }

  lemma FilterTwo(a: Edge, b: Edge, p: Edge -> bool)
    ensures Filter([a, b], p) == If(p, a) + If(p, b)
  {
    assert [a, b][1..] == [b];
    FilterOne(b, p);
  }

  lemma FilterThree(a: Edge, b: Edge, c: Edge, p: Edge -> bool)
    ensures Filter([a, b, c], p) == If(p, a) + (If(p, b) + If(p, c))
  {
    assert [a, b, c][1..] == [b, c];
    FilterTwo(b, c, p);
  }

  lemma DiamondEdges(mode: JoinGate.Mode)
    ensures var g := Diamond(mode);
            && Chosen(g, "t", "out") == [Upper, Lower] && Chosen(g, "j", "out") == [Tail]
            && Config(g, "j") == JoinGate.Join(mode, 2)
  {
    var g := Diamond(mode);
    FilterThree(Upper, Lower, Tail, From("t"));
    FilterThree(Upper, Lower, Tail, From("j"));
    FilterThree(Upper, Lower, Tail, Into("j"));
    assert Outgoing(g, "t") == [Upper, Lower] && Outgoing(g, "j") == [Tail];
    FilterTwo(Upper, Lower, Takes(g, "t", "out"));
    FilterOne(Tail, Takes(g, "j", "out"));
  }

  lemma DiamondIsSingleEntry(mode: JoinGate.Mode)
    ensures var g := Diamond(mode); SingleEntry(g, g.def.joins) && NoJoinBelowFork(g)
  {
  }

  lemma TwoCompletedFire(mode: JoinGate.Mode, x: JoinGate.Arrival, y: JoinGate.Arrival)
    requires x.status == y.status == JoinGate.Completed
    ensures var j := JoinGate.Join(mode, 2); JoinGate.ShouldFire(j, [x, y]) && !JoinGate.JoinFailed(j, [x, y])
  {
    CountsOfTwo(x, y, JoinGate.Completed);
  }

  /** A second edge into a join is enough, whatever the join's mode: its two arrivals overlap. */
  lemma DoubleEntryJoinStrands(mode: JoinGate.Mode)
    ensures var g := Diamond(mode);
            SingleEntry(g, g.def.joins) && NoJoinBelowFork(g) && CanStrand(g, Start)
  {
    var g := Diamond(mode);
    DiamondIsSingleEntry(mode);
    DiamondEdges(mode);
    var w := TriggerReturns(g);
    var w1 := FirstArrives(g, w, 1);
    assert w1.open == [Upper];
    var w2 := SecondArrives(g, w1, 0, ArrivalAlong(Lower));
    TwoCompletedFire(mode, ArrivalAlong(Upper), ArrivalAlong(Lower));
    OverlapCanStrand(g, w2, "j", Tail, ArrivalAlong(Lower), ArrivalAlong(Upper));
  }

  // ---- A join below a fork --------------------------------------------------------------------------

  const ToFork := Edge("1", "t", "out", "f")
  const Branch := Edge("2", "f", "branch-0", "a")
  const ToFailing := Edge("3", "a", "out", "b")
  const ToJoin := Edge("4", "a", "out", "j")

  /** A tree: the branch of a fork leads to a failing node and to a join, and the join to one more. */
  const ForkTree := Graph(
    Definition(["t", "f", "a", "b", "j", "c"], {"j"}), "t", [ToFork, Branch, ToFailing, ToJoin, Tail],
    {"f"}, map["j" := JoinGate.AnyOf])

  lemma FilterFive(a: Edge, b: Edge, c: Edge, d: Edge, e: Edge, p: Edge -> bool)
    ensures Filter([a, b, c, d, e], p) == If(p, a) + (If(p, b) + (If(p, c) + (If(p, d) + If(p, e))))
  {
    assert [a, b, c, d, e][1..] == [b, c, d, e] && [b, c, d, e][1..] == [c, d, e];
    FilterThree(c, d, e, p);
    assert Filter([b, c, d, e], p) == If(p, b) + Filter([c, d, e], p);
  }

  lemma TreeOutgoing(n: string)
    ensures Outgoing(ForkTree, n) == If(From(n), ToFork)
      + (If(From(n), Branch) + (If(From(n), ToFailing) + (If(From(n), ToJoin) + If(From(n), Tail))))
  {
    FilterFive(ToFork, Branch, ToFailing, ToJoin, Tail, From(n));
  }

  lemma TreeFromTrigger()
    ensures Chosen(ForkTree, "t", "out") == [ToFork]
  {
    TreeOutgoing("t");
    assert Outgoing(ForkTree, "t") == [ToFork];
    FilterOne(ToFork, Takes(ForkTree, "t", "out"));
  }

  lemma TreeFromFork()
    ensures Chosen(ForkTree, "f", "out") == [Branch]
  {
    TreeOutgoing("f");
    assert Outgoing(ForkTree, "f") == [Branch];
    FilterOne(Branch, Takes(ForkTree, "f", "out"));
  }

  lemma TreeFromBranch()
    ensures Outgoing(ForkTree, "a") == [ToFailing, ToJoin] == Chosen(ForkTree, "a", "out")
  {
    TreeOutgoing("a");
    assert Outgoing(ForkTree, "a") == [ToFailing, ToJoin];
    FilterTwo(ToFailing, ToJoin, Takes(ForkTree, "a", "out"));
  }

  lemma TreeFromJoin()
    ensures Chosen(ForkTree, "j", "out") == [Tail]
  {
    TreeOutgoing("j");
    assert Outgoing(ForkTree, "j") == [Tail];
    FilterOne(Tail, Takes(ForkTree, "j", "out"));
  }

  lemma TreeIsSingleEntry()
    ensures SingleEntry(ForkTree, {})
  {
  }

  lemma ReachNext(shape: DownstreamJoin.Graph, u: string, e: Edge)
    requires u in shape.isJoin && e in DownstreamJoin.Out(shape, u)
    ensures DownstreamJoin.Reach(shape, u, e.target, 1)
  {
    assert DownstreamJoin.Reach(shape, u, u, 0);
  }

  lemma NotAtJoin(shape: DownstreamJoin.Graph, u: string)
    requires u in shape.isJoin && !shape.isJoin[u]
    ensures DownstreamJoin.NoJoinWithin(shape, u, 1)
  {
  }

  /** The failure on the branch is reported to the join next to it. */
  lemma TreeReports(w: Walk)
    requires "f" in w.begun && "b" in w.failed
    ensures Reports(ForkTree, w, Branch, "j", 1, "b")
  {
    var shape := Shape(ForkTree);
    assert "a" in shape.isJoin && !shape.isJoin["a"] && "j" in shape.isJoin && shape.isJoin["j"];
    TreeFromBranch();
    assert DownstreamJoin.Out(shape, "a") == [ToFailing, ToJoin];
    ReachNext(shape, "a", ToFailing);
    ReachNext(shape, "a", ToJoin);
    NotAtJoin(shape, "a");
    assert Branch in ForkTree.edges;
  }

  /** At most one edge into every node, joins included, is not enough: the report of a failed branch can
      overlap with an arrival along the join's only edge. */
  lemma ReportedFailureStrands()
    ensures SingleEntry(ForkTree, {}) && CanStrand(ForkTree, Start)
  {
    TreeIsSingleEntry();
    TreeFromTrigger();
    TreeFromFork();
    TreeFromBranch();
    var w0 := TriggerReturns(ForkTree);
    var w1 := NodeReturns(ForkTree, w0, 0, true, "out");
    assert w1.open == [Branch];
    var w2 := NodeReturns(ForkTree, w1, 0, true, "out");
    assert w2.open == [ToFailing, ToJoin];
    BranchStrands(w2);
  }

  lemma BranchStrands(w: Walk)
    requires w.open == [ToFailing, ToJoin] && "f" in w.begun && w.gates == map[] && FreshIds(w.run)
    ensures CanStrand(ForkTree, w)
  {
    var w1 := FirstArrives(ForkTree, w, 1);
    assert w1.open == [ToFailing];
    var w2 := NodeReturns(ForkTree, w1, 0, false, "error");
    FailedBranchStrands(w2);
  }

  lemma FailedBranchStrands(w: Walk)
    requires "f" in w.begun && "b" in w.failed
    requires GateOf(w, "j")
             == JoinRace.Gate(true, [], false, [JoinRace.Announced(ArrivalAlong(ToJoin))], 0, [], 1)
    ensures CanStrand(ForkTree, w)
  {
    TreeReports(w);
    TreeFromJoin();
    var first, second := ArrivalAlong(ToJoin), JoinGate.Arrival("2", JoinGate.Failed, "b");
    var w' := ReportArrives(ForkTree, w, Report(Branch, "j", 1, "b"), first);
    FailedThenCompletedFire(Config(ForkTree, "j"), second, first);
    OverlapCanStrand(ForkTree, w', "j", Tail, first, second);
  }

  lemma FailedThenCompletedFire(j: JoinGate.Join, x: JoinGate.Arrival, y: JoinGate.Arrival)
    requires j.mode == JoinGate.AnyOf && y.status == JoinGate.Completed
    ensures JoinGate.ShouldFire(j, [x, y]) && !JoinGate.JoinFailed(j, [x, y])
  {
    CountsOfTwo(x, y, JoinGate.Completed);
  }
}
