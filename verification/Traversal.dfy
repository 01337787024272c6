/** How a run comes to start nodes: `run` starts the trigger, every execution that returns and every
    join that fires is followed by the outgoing edges of its outcome, and failed fork branches report
    to the nearest join.  Joins decide as in `JoinRace`, so they can fire more than once.  This gives
    conditions on the definition under which no node is ever in flight twice, which is what `cancel`
    needs to settle every step. */
module Traversal {
  import opened Common
  import opened StableSort
  import opened Cancellation
  import DownstreamJoin
  import JoinGate
  import JoinRace

  datatype Graph = Graph(
    def: Definition, trigger: string, edges: seq<Edge>, forks: set<string>, modes: map<string, JoinGate.Mode>)

  function From(node: string): Edge -> bool { (e: Edge) => e.source == node }
  function Into(node: string): Edge -> bool { (e: Edge) => e.target == node }

  function Outgoing(g: Graph, node: string): seq<Edge> { Filter(g.edges, From(node)) }

  /** The edges followed for an outcome: a fork takes all its branches, others those of one handle. */
  function Takes(g: Graph, node: string, handle: string): Edge -> bool {
    (e: Edge) => if node in g.forks && handle != "error" then e.sourceHandle != "error" else e.sourceHandle == handle
  }

  function Chosen(g: Graph, node: string, handle: string): seq<Edge> {
    Filter(Outgoing(g, node), Takes(g, node, handle))
  }

  function Config(g: Graph, join: string): JoinGate.Join {
    JoinGate.Join(if join in g.modes then g.modes[join] else JoinGate.All, |Filter(g.edges, Into(join))|)
  }

  /** The definition as `findDownstreamJoin` searches it. */
  function Shape(g: Graph): DownstreamJoin.Graph {
    DownstreamJoin.Graph(map n | n in g.def.nodes :: n in g.def.joins, map n | n in g.def.nodes :: Outgoing(g, n))
  }

  datatype Walk = Walk(
    run: Run,
    begun: set<string>,                 // the nodes started so far, joins aside
    used: set<Edge>,                    // the edges chosen so far
    open: seq<Edge>,                    // chosen and not followed yet
    gates: map<string, JoinRace.Gate>,
    failed: set<string>)                // the nodes and joins that have failed so far

  const Start := Walk(Initial, {}, {}, [], map[], {})

  datatype Move =
    | Trigger
    | Follow(i: nat)                                           // `routeInto` along an open edge
    | Work(action: Action)                                     // inside an execution
    | Return(execution: nat, handle: string)                   // `executeFromNode` picks the edges to follow
    | Report(branch: Edge, join: string, d: nat, node: string) // a failed fork branch reaches a join
    | Proceed(join: string, part: JoinRace.Action)             // an arrival in progress goes on
    | Fire(join: string)                                       // `fireJoin` announces the join and settles it

  ghost function GateOf(w: Walk, join: string): JoinRace.Gate {
    if join in w.gates then w.gates[join] else JoinRace.Empty
  }

  /** The nearest join downstream of a branch that has a failed node on it. */
  ghost predicate Reports(g: Graph, w: Walk, branch: Edge, join: string, d: nat, node: string) {
    && branch in g.edges && branch.source in g.forks && branch.source in w.begun && branch.sourceHandle != "error"
    && DownstreamJoin.JoinAt(Shape(g), branch.target, join, d)
    && DownstreamJoin.NoJoinWithin(Shape(g), branch.target, d)
    && node in w.failed && exists k: nat :: DownstreamJoin.Reach(Shape(g), branch.target, node, k)
  }

  ghost predicate Guard(g: Graph, w: Walk, m: Move) {
    match m
    case Trigger => w.begun == {}
    case Follow(i) => i < |w.open|
    case Work(a) => a.AwaitApproval? || a.Finish?
    case Return(id, _) => id in w.run.executions
    case Report(branch, join, d, node) => Reports(g, w, branch, join, d, node)
    case Proceed(join, a) => (a.Record? || a.Decide?) && JoinRace.Enabled(GateOf(w, join), a)
    case Fire(join) => JoinRace.Enabled(GateOf(w, join), JoinRace.Announce)
  }

  /** Only a first arrival is recorded as a step. */
  ghost function Arrival(w: Walk, join: string): Option<Action> {
    var gate := GateOf(w, join);
    if !gate.fired && !gate.tracked then Some(JoinFirstArrival(join)) else None
  }

  ghost predicate Fails(g: Graph, w: Walk, join: string) {
    JoinGate.JoinFailed(Config(g, join), GateOf(w, join).arrivals)
  }

  ghost function ActionOf(g: Graph, w: Walk, m: Move): Option<Action>
    requires Guard(g, w, m)
  {
    match m
    case Trigger => Some(StartNode(g.trigger))
    case Follow(i) =>
      var n := w.open[i].target;
      if n !in g.def.nodes then None
      else if n in g.def.joins then Arrival(w, n)
      else Some(StartNode(n))
    case Work(a) => Some(a)
    case Return(id, _) => Some(Leave(id))
    case Report(_, join, _, _) => Arrival(w, join)
    case Proceed(_, _) => None
    case Fire(join) => if join in w.run.steps then Some(JoinSettles(join, !Fails(g, w, join))) else None
  }

  ghost predicate Possible(g: Graph, w: Walk, m: Move) {
    Guard(g, w, m) && match ActionOf(g, w, m) case Some(a) => Enabled(g.def, w.run, a) case None => true
  }

  ghost function RunAfter(g: Graph, w: Walk, m: Move): Run
    requires Possible(g, w, m)
  {
    match ActionOf(g, w, m) case Some(a) => Step(g.def, w.run, a) case None => w.run
  }

  ghost function AtGate(g: Graph, w: Walk, join: string, a: JoinRace.Action): map<string, JoinRace.Gate>
    requires JoinRace.Enabled(GateOf(w, join), a)
  {
    w.gates[join := JoinRace.Step(Config(g, join), GateOf(w, join), a)]
  }

  ghost function Choose(w: Walk, chosen: seq<Edge>): Walk {
    w.(used := w.used + (set e | e in chosen), open := w.open + chosen)
  }

  ghost function Handle(g: Graph, w: Walk, join: string): string {
    if Fails(g, w, join) then "error" else "out"
  }

  ghost function Followed(g: Graph, w: Walk, e: Edge): Walk {
    if e.target !in g.def.nodes then w
    else if e.target in g.def.joins then
      w.(gates := AtGate(g, w, e.target, JoinRace.Arrive(JoinGate.Arrival(e.id, JoinGate.Completed, e.source))))
    else w.(begun := w.begun + {e.target})
  }

  ghost function Next(g: Graph, w: Walk, m: Move): Walk
    requires Possible(g, w, m)
  {
    var w' := w.(run := RunAfter(g, w, m));
    match m
    case Trigger => w'.(begun := {g.trigger})
    case Follow(i) => Followed(g, w', w.open[i]).(open := w.open[..i] + w.open[i + 1..])
    case Work(a) =>
      if a.Finish? && !a.completed then w'.(failed := w.failed + {w.run.executions[a.execution].node}) else w'
    case Return(id, handle) => Choose(w', Chosen(g, w.run.executions[id].node, handle))
    case Report(branch, join, _, node) =>
      w'.(gates := AtGate(g, w, join, JoinRace.Arrive(JoinGate.Arrival(branch.id, JoinGate.Failed, node))))
    case Proceed(join, a) => w'.(gates := AtGate(g, w, join, a))
    case Fire(join) =>
      Choose(w'.(gates := AtGate(g, w, join, JoinRace.Announce),
                 failed := if Fails(g, w, join) then w.failed + {join} else w.failed),
             Chosen(g, join, Handle(g, w, join)))
  }

  ghost predicate IsWalk(g: Graph, w: Walk, moves: seq<Move>)
    decreases |moves|
  {
    moves == [] || (Possible(g, w, moves[0]) && IsWalk(g, Next(g, w, moves[0]), moves[1..]))
  }

  ghost function End(g: Graph, w: Walk, moves: seq<Move>): Walk
    requires IsWalk(g, w, moves)
    decreases |moves|
  {
    if moves == [] then w else End(g, Next(g, w, moves[0]), moves[1..])
  }

  /** `cancel` at this point settles every step. */
  ghost predicate Settles(g: Graph, w: Walk) {
    AllSettled(g.def, CancelledSteps(g.def, w.run))
  }

  // ---- Conditions on the definition -----------------------------------------------------------------

  /** No two of the edges lead to one node outside `exempt`. */
  ghost predicate DistinctTargets(edges: seq<Edge>, exempt: set<string>) {
    forall i, j :: 0 <= i < j < |edges| && edges[i].target == edges[j].target ==> edges[i].target in exempt
  }

  /** No edge leads to the trigger, and at most one to any other node outside `exempt`. */
  ghost predicate SingleEntry(g: Graph, exempt: set<string>) {
    (forall e :: e in g.edges ==> e.target != g.trigger) && DistinctTargets(g.edges, exempt)
  }

  ghost predicate NoJoinBelowFork(g: Graph) {
    forall e, join, d: nat :: e in g.edges && e.source in g.forks && e.sourceHandle != "error"
      ==> !DownstreamJoin.JoinAt(Shape(g), e.target, join, d)
  }

  lemma OneEntry(g: Graph, exempt: set<string>, e: Edge, f: Edge)
    requires SingleEntry(g, exempt) && e in g.edges && f in g.edges && e.target == f.target && e.target !in exempt
    ensures e == f
  {
    var i :| 0 <= i < |g.edges| && g.edges[i] == e;
    var j :| 0 <= j < |g.edges| && g.edges[j] == f;
    assert !(i < j) && !(j < i);
  }

  lemma {:induction false} FilterDistinct(edges: seq<Edge>, p: Edge -> bool, exempt: set<string>)
    requires DistinctTargets(edges, exempt)
    ensures DistinctTargets(Filter(edges, p), exempt)
  {
    if edges != [] {
      var rest := Filter(edges[1..], p);
      FilterDistinct(edges[1..], p, exempt);
      forall e | e in rest ensures e in edges[1..] { FilterIn(edges[1..], p, e); }
      forall j | 0 <= j < |rest| && rest[j].target == edges[0].target ensures edges[0].target in exempt {
        assert rest[j] in edges[1..];
      }
    }
  }

  lemma ChosenAre(g: Graph, node: string, handle: string, e: Edge)
    ensures e in Chosen(g, node, handle) <==> e in g.edges && e.source == node && Takes(g, node, handle)(e)
  {
    FilterIn(Outgoing(g, node), Takes(g, node, handle), e);
    FilterIn(g.edges, From(node), e);
  }

  // ---- Invariant ------------------------------------------------------------------------------------

  ghost predicate Unused(w: Walk, node: string) {
    forall e :: e in w.used ==> e.source != node
  }

  ghost predicate Reached(w: Walk, node: string) {
    node in w.begun || GateOf(w, node).arrived > 0
  }

  /** No edge has been chosen of a node in flight, or of a join that has not fired. */
  ghost predicate SourcesFresh(g: Graph, w: Walk) {
    && (forall id :: id in w.run.executions ==>
         var n := w.run.executions[id].node; n in w.begun && Unused(w, n))
    && (forall j :: j in g.def.joins && GateOf(w, j).firings == [] ==> Unused(w, j))
    && (forall n :: n in w.begun ==> n !in g.def.joins)
    && forall j :: j !in g.def.joins ==> GateOf(w, j) == JoinRace.Empty
  }

  ghost predicate EdgesInv(g: Graph, w: Walk, exempt: set<string>) {
    && (forall e :: e in w.open ==> e in w.used)
    && (forall e :: e in w.used ==> e in g.edges && (e.source in w.begun || e.source in g.def.joins))
    && DistinctTargets(w.open, exempt)
  }

  /** A node reached is the trigger or was entered along an edge that is no longer open. */
  ghost predicate EntryInv(g: Graph, w: Walk, exempt: set<string>, n: string) {
    Reached(w, n) && n !in exempt ==>
      && (n == g.trigger || exists e :: e in w.used && e.target == n)
      && forall e :: e in w.open ==> e.target != n
  }

  ghost predicate WalkInv(g: Graph, w: Walk, exempt: set<string>) {
    && Inv(g.def, w.run) && SourcesFresh(g, w) && EdgesInv(g, w, exempt)
    && forall n :: EntryInv(g, w, exempt, n)
  }

  ghost predicate FiresOnce(w: Walk) {
    forall j :: JoinRace.Fires(GateOf(w, j)) <= 1
  }

  lemma ChooseKeepsEdges(g: Graph, w: Walk, exempt: set<string>, node: string, chosen: seq<Edge>)
    requires SingleEntry(g, exempt) && EdgesInv(g, w, exempt) && Unused(w, node)
    requires node in w.begun || node in g.def.joins
    requires DistinctTargets(chosen, exempt) && forall e :: e in chosen ==> e in g.edges && e.source == node
    ensures EdgesInv(g, Choose(w, chosen), exempt)
  {
    var w' := Choose(w, chosen);
    forall i, j | 0 <= i < j < |w'.open| && w'.open[i].target == w'.open[j].target
      ensures w'.open[i].target in exempt
    {
      if i < |w.open| <= j {
        var e, f := w.open[i], chosen[j - |w.open|];
        assert e in w.open && f in chosen;
        if e.target !in exempt { OneEntry(g, exempt, e, f); }
      } else if i >= |w.open| {
        assert chosen[i - |w.open|].target == chosen[j - |w.open|].target;
      }
    }
  }

  lemma ChooseKeepsEntry(g: Graph, w: Walk, exempt: set<string>, node: string, chosen: seq<Edge>, n: string)
    requires SingleEntry(g, exempt) && EdgesInv(g, w, exempt) && Unused(w, node) && EntryInv(g, w, exempt, n)
    requires forall e :: e in chosen ==> e in g.edges && e.source == node
    ensures EntryInv(g, Choose(w, chosen), exempt, n)
  {
    if Reached(w, n) && n !in exempt {
      if n != g.trigger {
        var f :| f in w.used && f.target == n;
        forall e | e in chosen ensures e.target != n {
          if e.target == n { OneEntry(g, exempt, e, f); }
        }
      }
    }
  }

  lemma ReturnKeepsInv(g: Graph, w: Walk, m: Move, exempt: set<string>)
    requires SingleEntry(g, exempt) && WalkInv(g, w, exempt) && Possible(g, w, m) && m.Return?
    ensures WalkInv(g, Next(g, w, m), exempt)
  {
    var w', node := w.(run := RunAfter(g, w, m)), w.run.executions[m.execution].node;
    var chosen := Chosen(g, node, m.handle);
    StepKeepsInv(g.def, w.run, Leave(m.execution));
    forall e | e in chosen ensures e in g.edges && e.source == node { ChosenAre(g, node, m.handle, e); }
    FilterDistinct(g.edges, From(node), exempt);
    FilterDistinct(Outgoing(g, node), Takes(g, node, m.handle), exempt);
    ChooseKeepsEdges(g, w', exempt, node, chosen);
    forall n ensures EntryInv(g, Next(g, w, m), exempt, n) {
      assert EntryInv(g, w, exempt, n) && EntryInv(g, w', exempt, n);
      ChooseKeepsEntry(g, w', exempt, node, chosen, n);
    }
    OnlyOne(g, w, m.execution);
  }

  /** No other execution of the same node is in flight. */
  lemma OnlyOne(g: Graph, w: Walk, id: nat)
    requires Inv(g.def, w.run) && id in w.run.executions
    ensures forall i :: i in w.run.executions && i != id ==>
              w.run.executions[i].node != w.run.executions[id].node
  {
  }

  lemma FireKeepsInv(g: Graph, w: Walk, m: Move, exempt: set<string>)
    requires SingleEntry(g, exempt) && WalkInv(g, w, exempt) && Possible(g, w, m) && m.Fire?
    requires FiresOnce(Next(g, w, m))
    ensures WalkInv(g, Next(g, w, m), exempt)
  {
    var j, w' := m.join, Next(g, w, m);
    var chosen := Chosen(g, j, Handle(g, w, j));
    assert JoinRace.Fires(GateOf(w', j)) <= 1;
    assert Unused(w, j);
    if ActionOf(g, w, m).Some? { StepKeepsInv(g.def, w.run, ActionOf(g, w, m).value); }
    forall e | e in chosen ensures e in g.edges && e.source == j { ChosenAre(g, j, Handle(g, w, j), e); }
    FilterDistinct(g.edges, From(j), exempt);
    FilterDistinct(Outgoing(g, j), Takes(g, j, Handle(g, w, j)), exempt);
    var v := w.(run := w'.run, gates := w'.gates, failed := w'.failed);
    ChooseKeepsEdges(g, v, exempt, j, chosen);
    forall n ensures EntryInv(g, w', exempt, n) {
      assert EntryInv(g, w, exempt, n) && EntryInv(g, v, exempt, n);
      ChooseKeepsEntry(g, v, exempt, j, chosen, n);
    }
  }

  /** `w'` has the edges of `w`, no new executions, and no join has newly arrived or unfired. */
  ghost predicate SameEdges(g: Graph, w: Walk, w': Walk, exempt: set<string>) {
    && w'.begun == w.begun && w'.used == w.used && w'.open == w.open
    && (forall id :: id in w'.run.executions ==>
         id in w.run.executions && w'.run.executions[id].node == w.run.executions[id].node)
    && (forall j :: GateOf(w', j).firings == GateOf(w, j).firings)
    && (forall j :: j !in exempt ==> GateOf(w', j).arrived == GateOf(w, j).arrived)
    && forall j :: j !in g.def.joins ==> GateOf(w', j) == GateOf(w, j)
  }

  lemma SameEdgesKeepInv(g: Graph, w: Walk, w': Walk, exempt: set<string>)
    requires WalkInv(g, w, exempt) && SameEdges(g, w, w', exempt) && Inv(g.def, w'.run)
    ensures WalkInv(g, w', exempt)
  {
    assert forall n :: Unused(w', n) == Unused(w, n);
    forall n ensures EntryInv(g, w', exempt, n) { assert EntryInv(g, w, exempt, n); }
  }

  lemma WorkKeepsInv(g: Graph, w: Walk, m: Move, exempt: set<string>)
    requires WalkInv(g, w, exempt) && Possible(g, w, m) && m.Work?
    ensures WalkInv(g, Next(g, w, m), exempt)
  {
    StepKeepsInv(g.def, w.run, m.action);
    WorkKeepsEdges(g, w, m, exempt);
    SameEdgesKeepInv(g, w, Next(g, w, m), exempt);
  }

  lemma WorkKeepsEdges(g: Graph, w: Walk, m: Move, exempt: set<string>)
    requires Possible(g, w, m) && m.Work?
    ensures SameEdges(g, w, Next(g, w, m), exempt) && Next(g, w, m).run == Step(g.def, w.run, m.action)
  {
    WorkKeepsNodes(g.def, w.run, m.action);
    assert Next(g, w, m).gates == w.gates;
  }

  lemma WorkKeepsNodes(def: Definition, r: Run, a: Action)
    requires (a.AwaitApproval? || a.Finish?) && Enabled(def, r, a)
    ensures forall id :: id in Step(def, r, a).executions ==>
              id in r.executions && Step(def, r, a).executions[id].node == r.executions[id].node
  {
  }

  lemma ProceedKeepsInv(g: Graph, w: Walk, m: Move, exempt: set<string>)
    requires WalkInv(g, w, exempt) && Possible(g, w, m) && m.Proceed?
    ensures WalkInv(g, Next(g, w, m), exempt)
  {
    assert m.join in g.def.joins;
    SameEdgesKeepInv(g, w, Next(g, w, m), exempt);
  }

  lemma ReportKeepsEdges(g: Graph, w: Walk, m: Move, exempt: set<string>)
    requires Possible(g, w, m) && m.Report? && m.join in exempt && exempt <= g.def.joins
    ensures SameEdges(g, w, Next(g, w, m), exempt)
  {
    var w' := Next(g, w, m);
    assert w'.run.executions == w.run.executions;
    forall j ensures GateOf(w', j).firings == GateOf(w, j).firings && (j != m.join ==> GateOf(w', j) == GateOf(w, j)) {
    }
  }

  lemma ReportKeepsInv(g: Graph, w: Walk, m: Move, exempt: set<string>)
    requires WalkInv(g, w, exempt) && Possible(g, w, m) && m.Report? && m.join in exempt && exempt <= g.def.joins
    ensures WalkInv(g, Next(g, w, m), exempt)
  {
    var a := Arrival(w, m.join);
    if a.Some? { StepKeepsInv(g.def, w.run, a.value); }
    ReportKeepsEdges(g, w, m, exempt);
    SameEdgesKeepInv(g, w, Next(g, w, m), exempt);
  }

  lemma TriggerKeepsInv(g: Graph, w: Walk, m: Move, exempt: set<string>)
    requires SingleEntry(g, exempt) && WalkInv(g, w, exempt) && Possible(g, w, m) && m.Trigger?
    ensures WalkInv(g, Next(g, w, m), exempt)
  {
    StepKeepsInv(g.def, w.run, StartNode(g.trigger));
    forall n ensures EntryInv(g, Next(g, w, m), exempt, n) { assert EntryInv(g, w, exempt, n); }
  }

  /** Taking an edge off the open ones keeps the others apart, and none of them leads where it does. */
  lemma WithoutOpen(open: seq<Edge>, i: nat, exempt: set<string>)
    requires i < |open| && DistinctTargets(open, exempt)
    ensures var rest := open[..i] + open[i + 1..];
            && DistinctTargets(rest, exempt)
            && (forall e :: e in rest ==> e in open)
            && (open[i].target !in exempt ==> forall e :: e in rest ==> e.target != open[i].target)
  {
    var rest := open[..i] + open[i + 1..];
    assert forall k :: 0 <= k < |rest| ==> rest[k] == if k < i then open[k] else open[k + 1];
  }

  lemma FollowKeepsEntry(g: Graph, w: Walk, i: nat, exempt: set<string>, n: string)
    requires Possible(g, w, Follow(i)) && EdgesInv(g, w, exempt) && EntryInv(g, w, exempt, n)
    ensures EntryInv(g, Next(g, w, Follow(i)), exempt, n)
  {
    WithoutOpen(w.open, i, exempt);
    assert w.open[i] in w.open;
  }

  /** An open edge to a node that is not a join leads to one that has not begun. */
  lemma OpenIsFirst(g: Graph, w: Walk, i: nat, exempt: set<string>)
    requires exempt <= g.def.joins && WalkInv(g, w, exempt) && Guard(g, w, Follow(i))
    ensures w.open[i].target !in exempt ==> !Reached(w, w.open[i].target)
  {
    assert w.open[i] in w.open && EntryInv(g, w, exempt, w.open[i].target);
  }

  lemma FollowKeepsRun(g: Graph, w: Walk, i: nat, exempt: set<string>)
    requires exempt <= g.def.joins && WalkInv(g, w, exempt) && Possible(g, w, Follow(i))
    ensures Inv(g.def, Next(g, w, Follow(i)).run)
  {
    OpenIsFirst(g, w, i, exempt);
    var a := ActionOf(g, w, Follow(i));
    if a.Some? {
      assert !Overlaps(w.run, a.value);
      StepKeepsInv(g.def, w.run, a.value);
    }
  }

  lemma FollowKeepsInv(g: Graph, w: Walk, m: Move, exempt: set<string>)
    requires exempt <= g.def.joins && WalkInv(g, w, exempt) && Possible(g, w, m) && m.Follow?
    ensures WalkInv(g, Next(g, w, m), exempt)
  {
    OpenIsFirst(g, w, m.i, exempt);
    FollowKeepsRun(g, w, m.i, exempt);
    WithoutOpen(w.open, m.i, exempt);
    forall n ensures EntryInv(g, Next(g, w, m), exempt, n) {
      assert EntryInv(g, w, exempt, n);
      FollowKeepsEntry(g, w, m.i, exempt, n);
    }
  }

  lemma MoveKeepsInv(g: Graph, w: Walk, m: Move, exempt: set<string>)
    requires SingleEntry(g, exempt) && exempt <= g.def.joins && WalkInv(g, w, exempt) && Possible(g, w, m)
    requires FiresOnce(Next(g, w, m)) && (m.Report? ==> m.join in exempt)
    ensures WalkInv(g, Next(g, w, m), exempt)
  {
    match m
    case Trigger => TriggerKeepsInv(g, w, m, exempt);
    case Follow(_) => FollowKeepsInv(g, w, m, exempt);
    case Work(_) => WorkKeepsInv(g, w, m, exempt);
    case Return(_, _) => ReturnKeepsInv(g, w, m, exempt);
    case Report(_, _, _, _) => ReportKeepsInv(g, w, m, exempt);
    case Proceed(_, _) => ProceedKeepsInv(g, w, m, exempt);
    case Fire(_) => FireKeepsInv(g, w, m, exempt);
  }

  lemma StartInv(g: Graph, exempt: set<string>)
    ensures WalkInv(g, Start, exempt)
  {
  }

  // ---- Arrivals one at a time -----------------------------------------------------------------------

  /** At no join and no time is more than one arrival in progress. */
  ghost predicate IsSerial(g: Graph, w: Walk, moves: seq<Move>)
    requires IsWalk(g, w, moves)
    decreases |moves|
  {
    && (forall j :: |GateOf(w, j).inProgress| <= 1)
    && (moves == [] || IsSerial(g, Next(g, w, moves[0]), moves[1..]))
  }

  ghost predicate GatesSerial(w: Walk) {
    forall j :: JoinRace.SerialInv(GateOf(w, j))
  }

  lemma MoveKeepsSerial(g: Graph, w: Walk, m: Move)
    requires Possible(g, w, m) && GatesSerial(w) && forall j :: |GateOf(Next(g, w, m), j).inProgress| <= 1
    ensures GatesSerial(Next(g, w, m))
  {
    forall j ensures JoinRace.SerialInv(GateOf(Next(g, w, m), j)) {
      assert JoinRace.SerialInv(GateOf(w, j)) && |GateOf(Next(g, w, m), j).inProgress| <= 1;
      var a := GateAction(g, w, m, j);
      if a.Some? { JoinRace.StepKeepsInv(Config(g, j), GateOf(w, j), a.value); }
    }
  }

  /** What a move does at a join's gate. */
  lemma GateAction(g: Graph, w: Walk, m: Move, j: string) returns (a: Option<JoinRace.Action>)
    requires Possible(g, w, m)
    ensures a.None? ==> GateOf(Next(g, w, m), j) == GateOf(w, j)
    ensures a.Some? ==>
      && JoinRace.Enabled(GateOf(w, j), a.value)
      && GateOf(Next(g, w, m), j) == JoinRace.Step(Config(g, j), GateOf(w, j), a.value)
      && (a.value.Arrive? ==> m.Report? || (m.Follow? && w.open[m.i].target == j && j in g.def.joins))
  {
    a := None;
    match m
    case Follow(i) =>
      var e := w.open[i];
      if e.target == j && j in g.def.nodes && j in g.def.joins {
        a := Some(JoinRace.Arrive(JoinGate.Arrival(e.id, JoinGate.Completed, e.source)));
      }
    case Report(branch, join, _, node) =>
      if join == j { a := Some(JoinRace.Arrive(JoinGate.Arrival(branch.id, JoinGate.Failed, node))); }
    case Proceed(join, part) => if join == j { a := Some(part); }
    case Fire(join) => if join == j { a := Some(JoinRace.Announce); }
    case _ =>
  }

  lemma {:induction false} SerialWalkKeepsInv(g: Graph, w: Walk, moves: seq<Move>)
    requires SingleEntry(g, g.def.joins) && IsWalk(g, w, moves) && IsSerial(g, w, moves)
    requires WalkInv(g, w, g.def.joins) && GatesSerial(w)
    ensures WalkInv(g, End(g, w, moves), g.def.joins)
    decreases |moves|
  {
    if moves != [] {
      var m, w' := moves[0], Next(g, w, moves[0]);
      MoveKeepsSerial(g, w, m);
      assert forall j :: JoinRace.SerialInv(GateOf(w', j));
      MoveKeepsInv(g, w, m, g.def.joins);
      SerialWalkKeepsInv(g, w', moves[1..]);
    }
  }

  /** If arrivals at every join come one at a time, it is enough that no edge leads to the trigger and
      at most one to any other node that is not a join: `cancel` settles every step, wherever it comes
      in any run. */
  lemma SerialSettles(g: Graph, moves: seq<Move>)
    requires SingleEntry(g, g.def.joins) && IsWalk(g, Start, moves) && IsSerial(g, Start, moves)
    ensures Settles(g, End(g, Start, moves))
  {
    StartInv(g, g.def.joins);
    SerialWalkKeepsInv(g, Start, moves);
  }

  // ---- Trees ----------------------------------------------------------------------------------------

  ghost predicate GatesOnce(w: Walk) {
    forall j :: JoinRace.CountInv(GateOf(w, j)) && GateOf(w, j).arrived <= 1
  }

  lemma MoveKeepsOnce(g: Graph, w: Walk, m: Move)
    requires Possible(g, w, m) && WalkInv(g, w, {}) && GatesOnce(w) && !m.Report?
    ensures GatesOnce(Next(g, w, m))
  {
    forall j ensures JoinRace.CountInv(GateOf(Next(g, w, m), j)) && GateOf(Next(g, w, m), j).arrived <= 1 {
      assert JoinRace.CountInv(GateOf(w, j)) && GateOf(w, j).arrived <= 1;
      var a := GateAction(g, w, m, j);
      if a.Some? {
        JoinRace.StepKeepsInv(Config(g, j), GateOf(w, j), a.value);
        if m.Follow? { OpenIsFirst(g, w, m.i, {}); }
      }
    }
  }

  lemma {:induction false} TreeWalkKeepsInv(g: Graph, w: Walk, moves: seq<Move>)
    requires SingleEntry(g, {}) && NoJoinBelowFork(g) && IsWalk(g, w, moves)
    requires WalkInv(g, w, {}) && GatesOnce(w)
    ensures WalkInv(g, End(g, w, moves), {})
    decreases |moves|
  {
    if moves != [] {
      var m, w' := moves[0], Next(g, w, moves[0]);
      MoveKeepsOnce(g, w, m);
      assert forall j :: JoinRace.CountInv(GateOf(w', j)) && GateOf(w', j).arrived <= 1;
      MoveKeepsInv(g, w, m, {});
      TreeWalkKeepsInv(g, w', moves[1..]);
    }
  }

  /** With arrivals interleaving as they like, it is enough that no edge leads to the trigger, at most
      one to any other node, joins included, and no join is downstream of a fork. */
  lemma TreeSettles(g: Graph, moves: seq<Move>)
    requires SingleEntry(g, {}) && NoJoinBelowFork(g) && IsWalk(g, Start, moves)
    ensures Settles(g, End(g, Start, moves))
  {
    StartInv(g, {});
    TreeWalkKeepsInv(g, Start, moves);
  }

  // ---- Which edges leave a join ---------------------------------------------------------------------

  /** Error edges have been chosen only of joins that have failed, others only of joins that have passed. */
  ghost predicate OutcomeInv(g: Graph, w: Walk) {
    && (forall id :: id in w.run.executions ==> w.run.executions[id].node !in g.def.joins)
    && forall e :: e in w.used && e.source in g.def.joins ==>
         (e.sourceHandle == "error") in GateOf(w, e.source).firings
  }

  lemma MoveKeepsFirings(g: Graph, w: Walk, m: Move, j: string)
    requires Possible(g, w, m)
    ensures GateOf(w, j).firings <= GateOf(Next(g, w, m), j).firings
    ensures m == Fire(j) ==> GateOf(Next(g, w, m), j).firings == GateOf(w, j).firings + [Fails(g, w, j)]
  {
    var a := GateAction(g, w, m, j);
  }

  lemma MoveKeepsWorkers(g: Graph, w: Walk, m: Move)
    requires Possible(g, w, m) && forall id :: id in w.run.executions ==> w.run.executions[id].node !in g.def.joins
    ensures forall id :: id in Next(g, w, m).run.executions ==> Next(g, w, m).run.executions[id].node !in g.def.joins
  {
    assert Next(g, w, m).run == RunAfter(g, w, m);
  }

  /** What a move adds to the chosen edges. */
  lemma NewlyUsed(g: Graph, w: Walk, m: Move, e: Edge)
    requires Possible(g, w, m) && e in Next(g, w, m).used && e !in w.used
    ensures (m.Return? && e in Chosen(g, w.run.executions[m.execution].node, m.handle))
            || (m.Fire? && e in Chosen(g, m.join, Handle(g, w, m.join)))
  {
  }

  lemma MoveKeepsOutcomes(g: Graph, w: Walk, m: Move)
    requires Possible(g, w, m) && OutcomeInv(g, w)
    ensures OutcomeInv(g, Next(g, w, m))
  {
    var w' := Next(g, w, m);
    MoveKeepsWorkers(g, w, m);
    forall e | e in w'.used && e.source in g.def.joins
      ensures (e.sourceHandle == "error") in GateOf(w', e.source).firings
    {
      MoveKeepsFirings(g, w, m, e.source);
      if e !in w.used {
        NewlyUsed(g, w, m, e);
        if m.Return? {
          ChosenAre(g, w.run.executions[m.execution].node, m.handle, e);
        } else {
          ChosenAre(g, m.join, Handle(g, w, m.join), e);
        }
      }
    }
  }

  lemma {:induction false} WalkKeepsOutcomes(g: Graph, w: Walk, moves: seq<Move>)
    requires IsWalk(g, w, moves) && OutcomeInv(g, w)
    ensures OutcomeInv(g, End(g, w, moves))
    decreases |moves|
  {
    if moves != [] {
      MoveKeepsOutcomes(g, w, moves[0]);
      WalkKeepsOutcomes(g, Next(g, w, moves[0]), moves[1..]);
    }
  }

  /** In every run, however arrivals interleave, an error edge out of a join is chosen only if the join has
      fired as failed, and any other edge only if it has fired as passed. */
  lemma EdgesMatchOutcomes(g: Graph, moves: seq<Move>, e: Edge)
    requires IsWalk(g, Start, moves) && e in End(g, Start, moves).used && e.source in g.def.joins
    ensures (e.sourceHandle == "error") in GateOf(End(g, Start, moves), e.source).firings
  {
    WalkKeepsOutcomes(g, Start, moves);
  }

  /** And it passes exactly when its arrivals do: then all its "out" edges are opened, else all its "error"
      edges, and no others. */
  lemma FiringOpens(g: Graph, w: Walk, j: string)
    requires Possible(g, w, Fire(j)) && j !in g.forks
    ensures var w', passes := Next(g, w, Fire(j)), JoinGate.Passes(Config(g, j), GateOf(w, j).arrivals);
            && GateOf(w', j).firings == GateOf(w, j).firings + [!passes]
            && w.open <= w'.open
            && forall e :: e in w'.open[|w.open|..]
                 <==> e in g.edges && e.source == j && e.sourceHandle == if passes then "out" else "error"
  {
    JoinGate.FailedIff(Config(g, j), GateOf(w, j).arrivals);
    MoveKeepsFirings(g, w, Fire(j), j);
    var w', chosen := Next(g, w, Fire(j)), Chosen(g, j, Handle(g, w, j));
    assert w'.open[|w.open|..] == chosen;
    forall e ensures e in chosen <==> e in g.edges && e.source == j && e.sourceHandle == Handle(g, w, j) {
      ChosenAre(g, j, Handle(g, w, j), e);
    }
  }

  // ---- Stranded steps -------------------------------------------------------------------------------

  /** Some continuation leads to a point at which `cancel` leaves a step running or awaiting. */
  ghost predicate CanStrand(g: Graph, w: Walk) {
    exists moves :: IsWalk(g, w, moves) && !Settles(g, End(g, w, moves))
  }

  lemma MoveCanStrand(g: Graph, w: Walk, m: Move)
    requires Possible(g, w, m) && CanStrand(g, Next(g, w, m))
    ensures CanStrand(g, w)
  {
    var w' := Next(g, w, m);
    var rest :| IsWalk(g, w', rest) && !Settles(g, End(g, w', rest));
    var moves := [m] + rest;
    assert moves[1..] == rest;
    assert IsWalk(g, w, moves) && End(g, w, moves) == End(g, w', rest);
  }

  /** An execution of `n` is at work. */
  ghost predicate AtWork(w: Walk, n: string, id: nat) {
    id in w.run.executions && w.run.executions[id] == Execution(n, false) && id < w.run.next
  }

  /** A node in flight twice, whose second execution is the one on record. */
  lemma TwiceCanStrand(g: Graph, w: Walk, n: string, id: nat)
    requires AtWork(w, n, id) && n in w.run.steps
    requires w.run.steps[n].execution != id && w.run.steps[n].status == Running
    ensures CanStrand(g, w)
  {
    var finish, leave := Work(Finish(id, true)), Return(id, "out");
    var w1 := Next(g, w, finish);
    var w2 := Next(g, w1, leave);
    assert CancelledSteps(g.def, w2.run)[n].status == Running;
    assert IsWalk(g, w2, []) && End(g, w2, []) == w2;
    MoveCanStrand(g, w1, leave);
    MoveCanStrand(g, w, finish);
  }

  /** Following an edge to a node at work. */
  lemma RestartCanStrand(g: Graph, w: Walk, i: nat, id: nat)
    requires i < |w.open| && w.open[i].target in g.def.nodes && w.open[i].target !in g.def.joins
    requires AtWork(w, w.open[i].target, id)
    ensures CanStrand(g, w)
  {
    TwiceCanStrand(g, Next(g, w, Follow(i)), w.open[i].target, id);
    MoveCanStrand(g, w, Follow(i));
  }

  /** In any run: a join that fires again while a node it leads to is at work. */
  lemma RefiredJoinCanStrand(g: Graph, w: Walk, j: string, e: Edge, id: nat)
    requires Possible(g, w, Fire(j)) && e in Chosen(g, j, Handle(g, w, j))
    requires e.target in g.def.nodes && e.target !in g.def.joins && AtWork(w, e.target, id)
    ensures CanStrand(g, w)
  {
    var w', chosen := Next(g, w, Fire(j)), Chosen(g, j, Handle(g, w, j));
    var k :| 0 <= k < |chosen| && chosen[k] == e;
    assert w'.open[|w.open| + k] == e;
    RestartCanStrand(g, w', |w.open| + k, id);
    MoveCanStrand(g, w, Fire(j));
  }
}
