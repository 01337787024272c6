/** Step records of a pipeline run and what `cancel` leaves behind.  An action is the code between
    two awaits; any number of node executions and joins are in progress at once, and `cancel` may
    come at any await. */
module Cancellation {
  import opened Common

  datatype Status = Running | Awaiting | Completed | Failed | Cancelled | Skipped

  predicate Live(status: Status) { status == Running || status == Awaiting }

  /** A step record and the execution that created it (executions hold on to their own record). */
  datatype StepRecord = StepRecord(execution: nat, status: Status)

  /** An execution of a node: its work is in progress, or its outcome is being announced. */
  datatype Execution = Execution(node: string, announcing: bool)

  datatype Run = Run(
    steps: map<string, StepRecord>,      // pipelineRun.steps
    frontier: set<string>,               // currentStepIds
    executions: map<nat, Execution>,     // suspended executeNode calls
    next: nat)

  datatype Action =
    | StartNode(node: string)
    | AwaitApproval(execution: nat)
    | Finish(execution: nat, completed: bool)
    | Leave(execution: nat)
    | JoinFirstArrival(join: string)
    | JoinSettles(join: string, completed: bool)

  /** The nodes of the definition, and which of them are joins. */
  datatype Definition = Definition(nodes: seq<string>, joins: set<string>)

  const Initial := Run(map[], {}, map[], 0)

  function Outcome(completed: bool): Status { if completed then Completed else Failed }

  ghost predicate InFlight(r: Run, node: string) {
    exists id :: id in r.executions && r.executions[id].node == node
  }

  ghost predicate Enabled(def: Definition, r: Run, a: Action) {
    match a
    case StartNode(n) => n in def.nodes && n !in def.joins
    case AwaitApproval(id) => id in r.executions && !r.executions[id].announcing
    case Finish(id, _) => id in r.executions && !r.executions[id].announcing
    case Leave(id) => id in r.executions && r.executions[id].announcing
    case JoinFirstArrival(j) => j in def.nodes && j in def.joins
    case JoinSettles(j, _) => j in def.joins && j in r.steps
  }

  function SetStatus(steps: map<string, StepRecord>, node: string, status: Status): map<string, StepRecord>
    requires node in steps
  {
    steps[node := steps[node].(status := status)]
  }

  ghost function Step(def: Definition, r: Run, a: Action): Run
    requires Enabled(def, r, a)
  {
    match a
    case StartNode(n) =>
      r.(steps := r.steps[n := StepRecord(r.next, Running)], frontier := r.frontier + {n},
         executions := r.executions[r.next := Execution(n, false)], next := r.next + 1)
    case AwaitApproval(id) =>
      // The record is looked up by node id.
      var n := r.executions[id].node;
      if n in r.steps then r.(steps := SetStatus(r.steps, n, Awaiting)) else r
    case Finish(id, completed) =>
      // The outcome goes to the execution's own record, which may have been replaced meanwhile.
      var n := r.executions[id].node;
      r.(executions := r.executions[id := Execution(n, true)],
         steps := if n in r.steps && r.steps[n].execution == id then SetStatus(r.steps, n, Outcome(completed))
                  else r.steps)
    case Leave(id) =>
      r.(executions := r.executions - {id}, frontier := r.frontier - {r.executions[id].node})
    case JoinFirstArrival(j) =>
      r.(steps := r.steps[j := StepRecord(r.next, Running)], frontier := r.frontier + {j}, next := r.next + 1)
    case JoinSettles(j, completed) =>
      r.(steps := SetStatus(r.steps, j, Outcome(completed)), frontier := r.frontier - {j})
  }

  // ---- Cancel ---------------------------------------------------------------------------------------

  function CancelIf(inFrontier: bool, step: StepRecord): StepRecord {
    if inFrontier && Live(step.status) then step.(status := Cancelled) else step
  }

  /** The records after `cancel`: live frontier steps are cancelled, unreached nodes skipped. */
  ghost function CancelledSteps(def: Definition, r: Run): map<string, StepRecord> {
    map n | n in r.steps.Keys + (set m | m in def.nodes) ::
      if n in r.steps then CancelIf(n in r.frontier, r.steps[n]) else StepRecord(r.next, Skipped)
  }

  /** Every node of the definition has a record, and no record is running or awaiting. */
  ghost predicate AllSettled(def: Definition, steps: map<string, StepRecord>) {
    && (forall n :: n in def.nodes ==> n in steps)
    && forall n :: n in steps ==> !Live(steps[n].status)
  }

  // ---- Runs -----------------------------------------------------------------------------------------

  ghost predicate Legal(def: Definition, r: Run, run: seq<Action>)
    decreases |run|
  {
    run == [] || (Enabled(def, r, run[0]) && Legal(def, Step(def, r, run[0]), run[1..]))
  }

  ghost function After(def: Definition, r: Run, run: seq<Action>): Run
    requires Legal(def, r, run)
    decreases |run|
  {
    if run == [] then r else After(def, Step(def, r, run[0]), run[1..])
  }

  /** A node is started while an execution of it is still in flight. */
  ghost predicate Overlaps(r: Run, a: Action) {
    a.StartNode? && InFlight(r, a.node)
  }

  ghost predicate NeverOverlaps(def: Definition, r: Run, run: seq<Action>)
    requires Legal(def, r, run)
    decreases |run|
  {
    run == [] || (!Overlaps(r, run[0]) && NeverOverlaps(def, Step(def, r, run[0]), run[1..]))
  }

  // ---- Invariant ------------------------------------------------------------------------------------

  ghost predicate ExecutionInv(def: Definition, r: Run) {
    forall id :: id in r.executions ==>
      var n := r.executions[id].node;
      && id < r.next && n !in def.joins && n in r.steps && n in r.frontier && r.steps[n].execution == id
      && (r.executions[id].announcing ==> !Live(r.steps[n].status))
  }

  /** A step recorded as running or awaiting is in the frontier. */
  ghost predicate FrontierInv(r: Run) {
    forall n :: n in r.steps && Live(r.steps[n].status) ==> n in r.frontier
  }

  ghost predicate Inv(def: Definition, r: Run) {
    ExecutionInv(def, r) && FrontierInv(r)
  }

  lemma StepKeepsInv(def: Definition, r: Run, a: Action)
    requires Inv(def, r) && Enabled(def, r, a) && !Overlaps(r, a)
    ensures Inv(def, Step(def, r, a))
  {
    var r' := Step(def, r, a);
    match a
    case StartNode(n) =>
      assert forall id :: id in r.executions ==> r.executions[id].node != n;
    case AwaitApproval(id) =>
    case Finish(id, _) =>
    case Leave(id) =>
    case JoinFirstArrival(j) =>
    case JoinSettles(j, _) =>
  }

  lemma {:induction false} RunKeepsInv(def: Definition, r: Run, run: seq<Action>)
    requires Inv(def, r) && Legal(def, r, run) && NeverOverlaps(def, r, run)
    ensures Inv(def, After(def, r, run))
    decreases |run|
  {
    if run != [] {
      StepKeepsInv(def, r, run[0]);
      RunKeepsInv(def, Step(def, r, run[0]), run[1..]);
    }
  }

  /** Whenever `cancel` comes it keeps every outcome already recorded, in overlapping runs too; in the
      others it turns every step still running or awaiting into a cancelled one. */
  lemma CancelKeepsOutcomes(def: Definition, run: seq<Action>, n: string)
    requires Legal(def, Initial, run)
    ensures var r := After(def, Initial, run);
            n in r.steps ==>
              var step := CancelledSteps(def, r)[n];
              && (!Live(r.steps[n].status) ==> step == r.steps[n])
              && (Live(r.steps[n].status) && NeverOverlaps(def, Initial, run) ==>
                    step == r.steps[n].(status := Cancelled))
  {
    if NeverOverlaps(def, Initial, run) { RunKeepsInv(def, Initial, run); }
  }

  // ---- What the records say -------------------------------------------------------------------------

  /** The action is about the record of node `n`. */
  ghost predicate Concerns(r: Run, a: Action, n: string) {
    match a
    case StartNode(m) => m == n
    case AwaitApproval(id) => id in r.executions && r.executions[id].node == n
    case Finish(id, _) => id in r.executions && r.executions[id].node == n
    case Leave(_) => false
    case JoinFirstArrival(j) => j == n
    case JoinSettles(j, _) => j == n
  }

  /** The latest action of the run about `n`, or `before` if there is none. */
  ghost function Latest(def: Definition, r: Run, run: seq<Action>, n: string, before: Option<Action>): Option<Action>
    requires Legal(def, r, run)
    decreases |run|
  {
    if run == [] then before
    else Latest(def, Step(def, r, run[0]), run[1..], n, if Concerns(r, run[0], n) then Some(run[0]) else before)
  }

  ghost predicate Ends(a: Action, completed: bool) {
    (a.Finish? && a.completed == completed) || (a.JoinSettles? && a.completed == completed)
  }

  /** A node has a record if something has happened to it, and the record says what happened last. */
  ghost predicate Tells(r: Run, n: string, latest: Option<Action>) {
    match latest
    case None => n !in r.steps
    case Some(a) =>
      && n in r.steps && !a.Leave?
      && (r.steps[n].status == Running <==> a.StartNode? || a.JoinFirstArrival?)
      && (r.steps[n].status == Awaiting <==> a.AwaitApproval?)
      && (r.steps[n].status == Completed <==> Ends(a, true))
      && (r.steps[n].status == Failed <==> Ends(a, false))
  }

  lemma StepTells(def: Definition, r: Run, a: Action, n: string, latest: Option<Action>)
    requires Inv(def, r) && Enabled(def, r, a) && Tells(r, n, latest)
    ensures Tells(Step(def, r, a), n, if Concerns(r, a, n) then Some(a) else latest)
  {
  }

  lemma {:induction false} RunTells(def: Definition, r: Run, run: seq<Action>, n: string, before: Option<Action>)
    requires Inv(def, r) && Legal(def, r, run) && NeverOverlaps(def, r, run) && Tells(r, n, before)
    ensures Tells(After(def, r, run), n, Latest(def, r, run, n, before))
    decreases |run|
  {
    if run != [] {
      StepKeepsInv(def, r, run[0]);
      StepTells(def, r, run[0], n, before);
      RunTells(def, Step(def, r, run[0]), run[1..], n, if Concerns(r, run[0], n) then Some(run[0]) else before);
    }
  }

  /** In every run without self-overlap, `cancel` records a node as completed or failed exactly if that is
      what was last reported of it, as cancelled exactly if something had happened to it but no end
      was reported, and as skipped exactly if nothing had. */
  lemma CancelTells(def: Definition, run: seq<Action>, n: string)
    requires Legal(def, Initial, run) && NeverOverlaps(def, Initial, run) && n in def.nodes
    ensures var latest, status :=
              Latest(def, Initial, run, n, None), CancelledSteps(def, After(def, Initial, run))[n].status;
            && (status == Skipped <==> latest.None?)
            && (status == Completed <==> latest.Some? && Ends(latest.value, true))
            && (status == Failed <==> latest.Some? && Ends(latest.value, false))
            && (status == Cancelled <==> latest.Some? && !Ends(latest.value, true) && !Ends(latest.value, false))
  {
    RunTells(def, Initial, run, n, None);
    CancelKeepsOutcomes(def, run, n);
  }

  // ---- When cancel settles every step ---------------------------------------------------------------

  /** Executions in flight end, and nothing else happens. */
  ghost predicate WindsDown(run: seq<Action>) {
    forall a :: a in run ==> a.Finish? || a.Leave?
  }

  /** `cancel` settles every step now, and at every point while the executions in flight wind down. */
  ghost predicate SettlesAsItEnds(def: Definition, r: Run) {
    forall ends :: WindsDown(ends) && Legal(def, r, ends) ==>
      AllSettled(def, CancelledSteps(def, After(def, r, ends)))
  }

  ghost predicate AlwaysSettles(def: Definition, r: Run, run: seq<Action>)
    requires Legal(def, r, run)
    decreases |run|
  {
    SettlesAsItEnds(def, r) && (run == [] || AlwaysSettles(def, Step(def, r, run[0]), run[1..]))
  }

  lemma {:induction false} InvSettles(def: Definition, r: Run, ends: seq<Action>)
    requires Inv(def, r) && WindsDown(ends) && Legal(def, r, ends)
    ensures AllSettled(def, CancelledSteps(def, After(def, r, ends)))
    decreases |ends|
  {
    if ends != [] {
      assert ends[0] in ends;
      StepKeepsInv(def, r, ends[0]);
      InvSettles(def, Step(def, r, ends[0]), ends[1..]);
    }
  }

  ghost predicate FreshIds(r: Run) {
    forall id :: id in r.executions ==> id < r.next
  }

  lemma LeavingStrands(def: Definition, r: Run, n: string, id: nat)
    requires id in r.executions && r.executions[id] == Execution(n, true)
    requires n in r.steps && r.steps[n].status == Running
    ensures Legal(def, r, [Leave(id)])
    ensures !AllSettled(def, CancelledSteps(def, After(def, r, [Leave(id)])))
  {
    var r' := Step(def, r, Leave(id));
    assert [Leave(id)][1..] == [] && After(def, r, [Leave(id)]) == r';
    assert CancelledSteps(def, r')[n].status == Running;
  }

  /** From any state: once a node is started while in flight, the older execution can leave the
      frontier first, after at most two steps, and `cancel` then leaves the node running. */
  lemma OverlapStrandsStep(def: Definition, r: Run, n: string)
    requires FreshIds(r) && Enabled(def, r, StartNode(n)) && InFlight(r, n)
    ensures !SettlesAsItEnds(def, Step(def, r, StartNode(n)))
  {
    var r' := Step(def, r, StartNode(n));
    var id :| id in r.executions && r.executions[id].node == n;
    if r.executions[id].announcing {
      LeavingStrands(def, r', n, id);
      assert WindsDown([Leave(id)]);
    } else {
      var ends := [Finish(id, true), Leave(id)];
      LeavingStrands(def, Step(def, r', Finish(id, true)), n, id);
      assert ends[1..] == [Leave(id)];
      assert WindsDown(ends) && Legal(def, r', ends);
    }
  }

  lemma {:induction false} SettlesUnlessOverlap(def: Definition, r: Run, run: seq<Action>)
    requires Inv(def, r) && Legal(def, r, run)
    ensures AlwaysSettles(def, r, run) <==> NeverOverlaps(def, r, run)
    decreases |run|
  {
    forall ends | WindsDown(ends) && Legal(def, r, ends)
      ensures AllSettled(def, CancelledSteps(def, After(def, r, ends)))
    {
      InvSettles(def, r, ends);
    }
    if run != [] {
      if Overlaps(r, run[0]) {
        OverlapStrandsStep(def, r, run[0].node);
      } else {
        StepKeepsInv(def, r, run[0]);
        SettlesUnlessOverlap(def, Step(def, r, run[0]), run[1..]);
      }
    }
  }

  /** For every run: `cancel` settles every node of the definition at every point of it, and while the
      executions in flight wind down, exactly when no node is started while it is still in flight. */
  lemma CancelSettlesIff(def: Definition, run: seq<Action>)
    requires Legal(def, Initial, run)
    ensures AlwaysSettles(def, Initial, run) <==> NeverOverlaps(def, Initial, run)
  {
    SettlesUnlessOverlap(def, Initial, run);
  }

  lemma {:induction false} RunExtends(def: Definition, r: Run, run: seq<Action>, a: Action)
    requires Legal(def, r, run) && Enabled(def, After(def, r, run), a)
    ensures Legal(def, r, run + [a])
    ensures After(def, r, run + [a]) == Step(def, After(def, r, run), a)
    decreases |run|
  {
    if run == [] {
      assert (run + [a])[0] == a && (run + [a])[1..] == [];
    } else {
      assert (run + [a])[1..] == run[1..] + [a];
      RunExtends(def, Step(def, r, run[0]), run[1..], a);
    }
  }

  // ---- The executor's bookkeeping -------------------------------------------------------------------

  /** The records of one run.  Until `cancel` has been called a valid table is in a state that `run`,
      the steps taken so far, leads to. */
  class StepTable {
    const def: Definition
    var running: bool
    var steps: map<string, StepRecord>
    var currentStepIds: set<string>
    var next: nat
    var cancelled: bool
    ghost var executions: map<nat, Execution>
    ghost var run: seq<Action>

    ghost function State(): Run
      reads this
    {
      Run(steps, currentStepIds, executions, next)
    }

    ghost predicate Valid()
      reads this
    {
      !cancelled ==> Legal(def, Initial, run) && After(def, Initial, run) == State()
    }

    constructor (def: Definition)
      ensures this.def == def && Valid() && run == [] && !running && !cancelled
    {
      this.def := def;
      steps, currentStepIds, next, running, cancelled := map[], {}, 0, false, false;
      executions, run := map[], [];
    }

    /** The head of `run`. */
    method BeginRun()
      requires Valid()
      modifies this`running
      ensures Valid() && running
    {
      running := true;
    }

    /** `executeNode` up to its first await. */
    method BeginNode(node: string) returns (execution: nat)
      requires Valid() && !cancelled && Enabled(def, State(), StartNode(node))
      modifies this
      ensures Valid() && run == old(run) + [StartNode(node)] && !cancelled && running == old(running)
      ensures State() == Step(def, old(State()), StartNode(node))
      ensures execution == old(next)
    {
      RunExtends(def, Initial, run, StartNode(node));
      run := run + [StartNode(node)];
      execution := next;
      steps := steps[node := StepRecord(execution, Running)];
      currentStepIds := currentStepIds + {node};
      executions := executions[execution := Execution(node, false)];
      next := next + 1;
    }

    /** `executeNode` after `dispatch`, up to the await on the terminal event. */
    method EndNode(node: string, execution: nat, completed: bool)
      requires Valid() && !cancelled
      requires Enabled(def, State(), Finish(execution, completed)) && executions[execution].node == node
      modifies this
      ensures Valid() && run == old(run) + [Finish(execution, completed)] && !cancelled && running == old(running)
      ensures State() == Step(def, old(State()), Finish(execution, completed))
    {
      RunExtends(def, Initial, run, Finish(execution, completed));
      run := run + [Finish(execution, completed)];
      if node in steps && steps[node].execution == execution {
        steps := SetStatus(steps, node, Outcome(completed));
      }
      executions := executions[execution := Execution(node, true)];
    }

    /** The end of `executeNode`. */
    method LeaveNode(node: string, ghost execution: nat)
      requires Valid() && !cancelled && Enabled(def, State(), Leave(execution)) && executions[execution].node == node
      modifies this
      ensures Valid() && run == old(run) + [Leave(execution)] && !cancelled && running == old(running)
      ensures State() == Step(def, old(State()), Leave(execution))
    {
      RunExtends(def, Initial, run, Leave(execution));
      run := run + [Leave(execution)];
      currentStepIds := currentStepIds - {node};
      executions := executions - {execution};
    }

    /** `execApproval` just before it waits for a decision. */
    method MarkAwaiting(node: string, ghost execution: nat)
      requires Valid() && !cancelled
      requires Enabled(def, State(), AwaitApproval(execution)) && executions[execution].node == node
      modifies this`steps, this`run
      ensures Valid() && run == old(run) + [AwaitApproval(execution)] && !cancelled && running == old(running)
      ensures State() == Step(def, old(State()), AwaitApproval(execution))
    {
      RunExtends(def, Initial, run, AwaitApproval(execution));
      run := run + [AwaitApproval(execution)];
      if node in steps { steps := SetStatus(steps, node, Awaiting); }
    }

    /** `handleJoinArrival` on the first arrival, up to its await. */
    method BeginJoin(join: string)
      requires Valid() && !cancelled && Enabled(def, State(), JoinFirstArrival(join))
      modifies this
      ensures Valid() && run == old(run) + [JoinFirstArrival(join)] && !cancelled && running == old(running)
      ensures State() == Step(def, old(State()), JoinFirstArrival(join))
    {
      RunExtends(def, Initial, run, JoinFirstArrival(join));
      run := run + [JoinFirstArrival(join)];
      steps := steps[join := StepRecord(next, Running)];
      currentStepIds := currentStepIds + {join};
      next := next + 1;
    }

    /** `fireJoin` between the fired event and the terminal event. */
    method SettleJoin(join: string, completed: bool)
      requires Valid() && !cancelled && Enabled(def, State(), JoinSettles(join, completed))
      modifies this
      ensures Valid() && run == old(run) + [JoinSettles(join, completed)] && !cancelled && running == old(running)
      ensures State() == Step(def, old(State()), JoinSettles(join, completed))
    {
      RunExtends(def, Initial, run, JoinSettles(join, completed));
      run := run + [JoinSettles(join, completed)];
      currentStepIds := currentStepIds - {join};
      steps := SetStatus(steps, join, Outcome(completed));
    }

    /** The loop over the frontier: running and awaiting steps become cancelled. */
    method CancelFrontier()
      modifies this`steps
      ensures steps.Keys == old(steps).Keys
      ensures forall n :: n in steps ==> steps[n] == CancelIf(n in currentStepIds, old(steps)[n])
    {
      var inFlight := currentStepIds;
      while inFlight != {}
        invariant inFlight <= currentStepIds && steps.Keys == old(steps).Keys
        invariant forall n :: n in steps ==> steps[n] == CancelIf(n in currentStepIds - inFlight, old(steps)[n])
        decreases inFlight
      {
        var stepId :| stepId in inFlight;
        if stepId in steps && Live(steps[stepId].status) {
          steps := SetStatus(steps, stepId, Cancelled);
        }
        inFlight := inFlight - {stepId};
      }
    }

    /** The loop over the definition: nodes that were never reached become skipped. */
    method SkipUnreached()
      modifies this`steps
      ensures steps.Keys == old(steps).Keys + set m | m in def.nodes
      ensures forall n :: n in steps ==>
        steps[n] == if n in old(steps) then old(steps)[n] else StepRecord(next, Skipped)
    {
      for i := 0 to |def.nodes|
        invariant steps.Keys == old(steps).Keys + set m | m in def.nodes[..i]
        invariant forall n :: n in steps ==>
          steps[n] == if n in old(steps) then old(steps)[n] else StepRecord(next, Skipped)
      {
        if def.nodes[i] !in steps {
          steps := steps[def.nodes[i] := StepRecord(next, Skipped)];
        }
      }
      assert def.nodes[..|def.nodes|] == def.nodes;
    }

    /** `cancel`: nothing happens before the run or a second time; otherwise every step is settled,
        provided no node was ever started while in flight. */
    method Cancel()
      requires Valid()
      modifies this`steps, this`cancelled
      ensures Valid() && cancelled == (old(cancelled) || running)
      ensures steps == if old(cancelled) || !running then old(steps) else CancelledSteps(def, old(State()))
      ensures !old(cancelled) && running && NeverOverlaps(def, Initial, run) ==> AllSettled(def, steps)
      ensures !old(cancelled) && running ==>
        forall n :: n in def.nodes && n !in old(steps) ==> n in steps && steps[n].status == Skipped
    {
      if cancelled || !running { return; }
      cancelled := true;
      CancelFrontier();
      SkipUnreached();
      assert steps == CancelledSteps(def, old(State()));
      if NeverOverlaps(def, Initial, run) { RunKeepsInv(def, Initial, run); }
    }
  }
}
