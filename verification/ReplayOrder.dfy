/** Whether a replay yields events in version order, over all runs of the bus.  The log is in order as
    long as publishes are assigned and appended one at a time. */
module ReplayOrder {
  import opened EventLog
  import opened BusProtocol

  /** The publishes that have a version but are not in the log yet. */
  ghost function Pending(b: Bus): set<int> {
    set v | v in b.inFlight && b.inFlight[v].phase == Assigned
  }

  /** Never more than `w` publishes are between assignment and append. */
  ghost predicate OverlapsAtMost(b: Bus, run: seq<Action>, w: nat)
    requires Legal(b, run)
    decreases |run|
  {
    |Pending(b)| <= w && (run == [] || OverlapsAtMost(Step(b, run[0]), run[1..], w))
  }

  ghost predicate PendingAbove(b: Bus, v: int) {
    v in b.inFlight ==>
      && b.inFlight[v].event.version == v <= b.counter
      && (b.inFlight[v].phase == Assigned ==> v > MaxVersion(Events(b.wal)))
  }

  /** The log is in version order, and whatever is still to be appended belongs at its end. */
  ghost predicate OrderInv(b: Bus) {
    && Ascending(Events(b.wal))
    && b.counter >= MaxVersion(Events(b.wal))
    && (b.compacting.Some? ==>
         && Ascending(b.compacting.value.kept)
         && MaxVersion(b.compacting.value.kept) <= MaxVersion(Events(b.wal)))
    && forall v :: PendingAbove(b, v)
  }

  lemma MaxVersionAbove(es: seq<BusEvent>, m: int)
    requires m >= 0 && forall e :: e in es ==> e.version <= m
    ensures MaxVersion(es) <= m
  {
  }

  lemma AppendAtEnd(es: seq<BusEvent>, e: BusEvent)
    requires Ascending(es) && e.version > MaxVersion(es)
    ensures Ascending(es + [e]) && MaxVersion(es + [e]) == e.version
  {
    assert forall i :: 0 <= i < |es| ==> es[i] in es;
    MaxVersionAbove(es + [e], e.version);
    assert e in es + [e];
  }

  lemma OnePending(b: Bus, v: int, u: int)
    requires |Pending(b)| <= 1 && InPhase(b, v, Assigned) && InPhase(b, u, Assigned)
    ensures u == v
  {
    assert |Pending(b) - {v}| == |Pending(b)| - 1;
    assert u !in Pending(b) - {v};
  }

  lemma AppendKeepsLogOrder(b: Bus, v: int)
    requires OrderInv(b) && InPhase(b, v, Assigned)
    ensures var es := Events(Step(b, Append(v)).wal); Ascending(es) && MaxVersion(es) == v <= b.counter
  {
    assert PendingAbove(b, v);
    EventsAppend(b.wal, b.inFlight[v].event);
    AppendAtEnd(Events(b.wal), b.inFlight[v].event);
  }

  lemma AppendKeepsPending(b: Bus, v: int, u: int)
    requires OrderInv(b) && InPhase(b, v, Assigned) && |Pending(b)| <= 1
    ensures PendingAbove(Step(b, Append(v)), u)
  {
    assert PendingAbove(b, u);
    if u != v && InPhase(b, u, Assigned) { OnePending(b, v, u); }
  }

  lemma AppendKeepsOrder(b: Bus, v: int)
    requires OrderInv(b) && InPhase(b, v, Assigned) && |Pending(b)| <= 1
    ensures OrderInv(Step(b, Append(v)))
  {
    AppendKeepsLogOrder(b, v);
    forall u ensures PendingAbove(Step(b, Append(v)), u) { AppendKeepsPending(b, v, u); }
  }

  lemma ReadingKeepsOrder(b: Bus, keep: int)
    requires OrderInv(b) && b.compacting.None?
    ensures OrderInv(Step(b, BeginCompaction(keep)))
  {
    var es, kept, b' := Events(b.wal), Compacted(Events(b.wal), keep), Step(b, BeginCompaction(keep));
    AscendingDistinct(es);
    CompactedAscending(es, keep);
    forall e | e in kept ensures e in es { CompactedMembers(es, keep, e); }
    MaxVersionAbove(kept, MaxVersion(es));
    forall u ensures PendingAbove(b', u) { assert PendingAbove(b, u); }
  }

  lemma SwapKeepsOrder(b: Bus)
    requires OrderInv(b) && b.compacting.Some?
    ensures OrderInv(Step(b, EndCompaction))
  {
    EventsOfLines(b.compacting.value.kept);
    forall u ensures PendingAbove(Step(b, EndCompaction), u) { assert PendingAbove(b, u); }
  }

  lemma CrashKeepsOrder(b: Bus, survivors: nat)
    requires OrderInv(b) && Enabled(b, CrashRestart(survivors))
    ensures OrderInv(Step(b, CrashRestart(survivors)))
  {
    EventsPrefix(b.wal, survivors);
  }

  lemma AssignKeepsOrder(b: Bus, event: BusEvent)
    requires OrderInv(b)
    ensures OrderInv(Step(b, Assign(event)))
  {
    forall u ensures PendingAbove(Step(b, Assign(event)), u) { assert PendingAbove(b, u); }
  }

  lemma SyncKeepsOrder(b: Bus, v: int)
    requires OrderInv(b) && InPhase(b, v, Appended)
    ensures OrderInv(Step(b, Sync(v)))
  {
    forall u ensures PendingAbove(Step(b, Sync(v)), u) { assert PendingAbove(b, u); }
  }

  lemma BroadcastKeepsOrder(b: Bus, v: int)
    requires OrderInv(b) && InPhase(b, v, Synced)
    ensures OrderInv(Step(b, Broadcast(v)))
  {
    forall u ensures PendingAbove(Step(b, Broadcast(v)), u) { assert PendingAbove(b, u); }
  }

  lemma BackgroundSyncKeepsOrder(b: Bus)
    requires OrderInv(b)
    ensures OrderInv(Step(b, BackgroundSync))
  {
    forall u ensures PendingAbove(Step(b, BackgroundSync), u) { assert PendingAbove(b, u); }
  }

  lemma LosingKeepsOrder(b: Bus)
    requires b.compacting.Some?
    ensures OrderInv(Step(b, CrashInSwap))
  {
  }

  lemma StepKeepsOrder(b: Bus, a: Action)
    requires Enabled(b, a) && OrderInv(b) && |Pending(b)| <= 1
    ensures OrderInv(Step(b, a))
  {
    match a
    case Assign(event) => AssignKeepsOrder(b, event);
    case Append(v) => AppendKeepsOrder(b, v);
    case Sync(v) => SyncKeepsOrder(b, v);
    case BackgroundSync => BackgroundSyncKeepsOrder(b);
    case Broadcast(v) => BroadcastKeepsOrder(b, v);
    case BeginCompaction(keep) => ReadingKeepsOrder(b, keep);
    case EndCompaction => SwapKeepsOrder(b);
    case CrashRestart(survivors) => CrashKeepsOrder(b, survivors);
    case CrashInSwap => LosingKeepsOrder(b);
  }

  lemma {:induction false} RunKeepsOrder(b: Bus, run: seq<Action>)
    requires Legal(b, run) && OrderInv(b) && OverlapsAtMost(b, run, 1)
    ensures OrderInv(After(b, run))
    decreases |run|
  {
    if run != [] {
      StepKeepsOrder(b, run[0]);
      RunKeepsOrder(Step(b, run[0]), run[1..]);
    }
  }

  lemma {:induction false} OverlapsFewer(b: Bus, run: seq<Action>, w: nat, w': nat)
    requires Legal(b, run) && w <= w' && OverlapsAtMost(b, run, w)
    ensures OverlapsAtMost(b, run, w')
    decreases |run|
  {
    if run != [] { OverlapsFewer(Step(b, run[0]), run[1..], w, w'); }
  }

  lemma {:induction false} ReplayedAll(es: seq<BusEvent>)
    requires forall e :: e in es ==> e.version >= 0
    ensures Replayed(es, 0) == es
  {
    if es != [] { ReplayedAll(es[1..]); }
  }

  lemma OneStepOverlaps(b: Bus, a: Action, rest: seq<Action>, w: nat)
    requires Enabled(b, a) && Legal(Step(b, a), rest)
    requires |Pending(b)| <= w && OverlapsAtMost(Step(b, a), rest, w)
    ensures Legal(b, [a] + rest) && After(b, [a] + rest) == After(Step(b, a), rest)
    ensures OverlapsAtMost(b, [a] + rest, w)
  {
    assert ([a] + rest)[1..] == rest;
  }

  ghost function TwoAssigned(e: BusEvent): Bus {
    Fresh.(
      counter := 2,
      inFlight := map[1 := Publish(e.(version := 1), Assigned), 2 := Publish(e.(version := 2), Assigned)])
  }

  lemma AssignTwice(e: BusEvent, rest: seq<Action>)
    requires Legal(TwoAssigned(e), rest) && OverlapsAtMost(TwoAssigned(e), rest, 2)
    ensures var run := [Assign(e)] + ([Assign(e)] + rest);
            && Legal(Fresh, run) && OverlapsAtMost(Fresh, run, 2)
            && After(Fresh, run) == After(TwoAssigned(e), rest)
  {
    var b1 := Step(Fresh, Assign(e));
    assert Pending(Fresh) == {} && Pending(b1) == {1};
    assert Step(b1, Assign(e)) == TwoAssigned(e);
    OneStepOverlaps(b1, Assign(e), rest, 2);
    OneStepOverlaps(Fresh, Assign(e), [Assign(e)] + rest, 2);
  }

  ghost function OneAppended(e: BusEvent): Bus {
    TwoAssigned(e).(
      wal := [FromBus(e.(version := 2))],
      inFlight := map[1 := Publish(e.(version := 1), Assigned), 2 := Publish(e.(version := 2), Appended)])
  }

  lemma AppendFirst(e: BusEvent)
    ensures var run := [Append(1)] + [];
            && Legal(OneAppended(e), run) && OverlapsAtMost(OneAppended(e), run, 2)
            && Events(After(OneAppended(e), run).wal) == [e.(version := 2), e.(version := 1)]
  {
    var b := OneAppended(e);
    assert Pending(b) == {1} && Pending(Step(b, Append(1))) == {};
    OneStepOverlaps(b, Append(1), [], 2);
    EventsAppend(b.wal, e.(version := 1));
  }

  lemma AppendReversed(e: BusEvent)
    ensures var run := [Append(2)] + ([Append(1)] + []);
            && Legal(TwoAssigned(e), run) && OverlapsAtMost(TwoAssigned(e), run, 2)
            && Events(After(TwoAssigned(e), run).wal) == [e.(version := 2), e.(version := 1)]
  {
    var b := TwoAssigned(e);
    assert Pending(b) == {1, 2};
    assert Step(b, Append(2)) == OneAppended(e);
    AppendFirst(e);
    OneStepOverlaps(b, Append(2), [Append(1)] + [], 2);
  }

  /** Two overlapping publishes can reach the log, and so a replay, out of version order. */
  lemma AppendsMayReorder(e: BusEvent) returns (run: seq<Action>)
    ensures Legal(Fresh, run) && OverlapsAtMost(Fresh, run, 2)
    ensures !Ascending(Replayed(Events(After(Fresh, run).wal), 0))
  {
    AppendReversed(e);
    AssignTwice(e, [Append(2)] + ([Append(1)] + []));
    run := [Assign(e)] + ([Assign(e)] + ([Append(2)] + ([Append(1)] + [])));
    var log := Events(After(Fresh, run).wal);
    ReplayedAll(log);
    assert log[0].version > log[1].version;
  }

  /** In every run with at most `w` publishes between assignment and append, every replay from any
      version yields its events in version order. */
  ghost predicate ReplaysInOrder(w: nat) {
    forall run, v :: Legal(Fresh, run) && OverlapsAtMost(Fresh, run, w)
      ==> Ascending(Replayed(Events(After(Fresh, run).wal), v))
  }

  /** Replay is in version order exactly when publishes are assigned and appended one at a time,
      whatever compactions and crashes come in between. */
  lemma ReplaysInOrderIff(w: nat)
    ensures ReplaysInOrder(w) <==> w <= 1
  {
    if w <= 1 {
      forall run, v | Legal(Fresh, run) && OverlapsAtMost(Fresh, run, w)
        ensures Ascending(Replayed(Events(After(Fresh, run).wal), v))
      {
        OverlapsFewer(Fresh, run, w, 1);
        RunKeepsOrder(Fresh, run);
        ReplayedAscending(Events(After(Fresh, run).wal), v);
      }
    } else {
      var e := BusEvent("id", "t", "", 0, "node", 0);
      var run := AppendsMayReorder(e);
      OverlapsFewer(Fresh, run, 2, w);
    }
  }
}
