/** Versioned publishing over the log, as a state machine.  `publish` has four phases with an await
    between any two of them: assign a version, append to the log, sync the log, broadcast.  `compact`
    has two: read the log, and swap it for what is kept.  All of these interleave freely, crashes
    fall anywhere between them, a crash keeps any prefix of the log that contains everything synced,
    and a restart restores the counter from what is left. */
module BusProtocol {
  import opened Common
  import opened EventLog

  datatype Phase = Assigned | Appended | Synced
  datatype Publish = Publish(event: BusEvent, phase: Phase)

  /** A compaction between reading the log and swapping it. */
  datatype Compaction = Compaction(keep: int, kept: seq<BusEvent>)

  datatype Bus = Bus(
    counter: int,
    wal: seq<WalEntry>,
    synced: nat,                  // length of the log prefix known to be on disk
    inFlight: map<int, Publish>,  // publishes between assignment and broadcast, by version
    broadcast: seq<BusEvent>,     // everything subscribers have ever been sent
    compacting: Option<Compaction>)

  datatype Action =
    | Assign(event: BusEvent)     // the version in `event` is replaced by the next one
    | Append(version: int)
    | Sync(version: int)
    | BackgroundSync
    | Broadcast(version: int)
    | BeginCompaction(keep: int)
    | EndCompaction
    | CrashRestart(survivors: nat)
    | CrashInSwap                 // after the old log is deleted, before the new one is written

  const Fresh := Bus(0, [], 0, map[], [], None)

  ghost predicate InPhase(b: Bus, v: int, phase: Phase) {
    v in b.inFlight && b.inFlight[v].phase == phase
  }

  ghost predicate Enabled(b: Bus, a: Action) {
    match a
    case Assign(_) => true
    case Append(v) => InPhase(b, v, Assigned)
    case Sync(v) => InPhase(b, v, Appended)
    case BackgroundSync => true
    case Broadcast(v) => InPhase(b, v, Synced)
    case BeginCompaction(_) => b.compacting.None?
    case EndCompaction => b.compacting.Some?
    case CrashRestart(survivors) => b.synced <= survivors <= |b.wal|
    case CrashInSwap => b.compacting.Some?
  }

  function Lines(es: seq<BusEvent>): seq<WalEntry> {
    seq(|es|, i requires 0 <= i < |es| => FromBus(es[i]))
  }

  /** A compaction raises the counter to the kept versions, should it be below them. */
  function CounterAfter(counter: int, kept: seq<BusEvent>): int {
    if kept != [] && counter < MaxVersion(kept) then MaxVersion(kept) else counter
  }

  ghost function Step(b: Bus, a: Action): Bus
    requires Enabled(b, a)
  {
    match a
    case Assign(event) =>
      var e := event.(version := b.counter + 1);
      b.(counter := e.version, inFlight := b.inFlight[e.version := Publish(e, Assigned)])
    case Append(v) =>
      b.(wal := b.wal + [FromBus(b.inFlight[v].event)],
         inFlight := b.inFlight[v := b.inFlight[v].(phase := Appended)])
    case Sync(v) =>
      b.(synced := |b.wal|, inFlight := b.inFlight[v := b.inFlight[v].(phase := Synced)])
    case BackgroundSync =>
      b.(synced := |b.wal|)
    case Broadcast(v) =>
      b.(inFlight := b.inFlight - {v}, broadcast := b.broadcast + [b.inFlight[v].event])
    case BeginCompaction(keep) =>
      b.(compacting := Some(Compaction(keep, Compacted(Events(b.wal), keep))))
    case EndCompaction =>
      var kept := b.compacting.value.kept;
      b.(wal := Lines(kept), synced := |kept|, counter := CounterAfter(b.counter, kept), compacting := None)
    case CrashRestart(survivors) =>
      var wal := b.wal[..survivors];
      b.(wal := wal, synced := survivors, inFlight := map[], counter := MaxVersion(Events(wal)), compacting := None)
    case CrashInSwap => Fresh.(broadcast := b.broadcast)
  }

  // ---- Runs -------------------------------------------------------------------------------------

  ghost predicate Legal(b: Bus, run: seq<Action>)
    decreases |run|
  {
    run == [] || (Enabled(b, run[0]) && Legal(Step(b, run[0]), run[1..]))
  }

  ghost function After(b: Bus, run: seq<Action>): Bus
    requires Legal(b, run)
    decreases |run|
  {
    if run == [] then b else After(Step(b, run[0]), run[1..])
  }

  ghost predicate CompactsWithAtLeast(run: seq<Action>, n: int) {
    forall a :: a in run && a.BeginCompaction? ==> a.keep >= n
  }

  ghost predicate CompactsWith(run: seq<Action>, keep: int) {
    forall a :: a in run && a.BeginCompaction? ==> a.keep == keep
  }

  /** What may happen to a compaction in progress. */
  datatype Rules = Rules(appends: bool, crashInSwap: bool)

  const Undisturbed := Rules(false, false)

  ghost predicate Permits(rules: Rules, b: Bus, a: Action) {
    && (a.Append? && b.compacting.Some? ==> rules.appends)
    && (a.CrashInSwap? ==> rules.crashInSwap)
  }

  ghost predicate Follows(rules: Rules, b: Bus, run: seq<Action>)
    requires Legal(b, run)
    decreases |run|
  {
    run == [] || (Permits(rules, b, run[0]) && Follows(rules, Step(b, run[0]), run[1..]))
  }

  // ---- Invariant --------------------------------------------------------------------------------

  ghost function Durable(b: Bus): seq<BusEvent>
    requires b.synced <= |b.wal|
  {
    Events(b.wal[..b.synced])
  }

  ghost predicate LogInv(b: Bus) {
    && b.counter >= 0 && b.synced <= |b.wal|
    && DistinctVersions(Events(b.wal))
    && (forall e :: e in Events(b.wal) ==> 1 <= e.version <= b.counter)
  }

  ghost predicate Unsent(b: Bus, v: int) {
    forall e :: e in b.broadcast ==> e.version != v
  }

  ghost predicate Unlogged(b: Bus, v: int) {
    forall e :: e in Events(b.wal) ==> e.version != v
  }

  ghost predicate PublishInv(b: Bus, v: int, p: Publish, n: nat)
    requires b.synced <= |b.wal|
  {
    && p.event.version == v && 1 <= v <= b.counter && Unsent(b, v)
    && (p.phase == Assigned ==> Unlogged(b, v))
    && (p.phase == Appended ==> Covered(Events(b.wal), n, p.event))
    && (p.phase == Synced ==> Covered(Durable(b), n, p.event))
  }

  ghost predicate FlightInv(b: Bus, n: nat)
    requires b.synced <= |b.wal|
  {
    forall v :: v in b.inFlight ==> PublishInv(b, v, b.inFlight[v], n)
  }

  /** Every broadcast event is in the durable log or has `n` newer durable ones of its type. */
  ghost predicate SentInv(b: Bus, n: nat)
    requires b.synced <= |b.wal|
  {
    && DistinctVersions(b.broadcast)
    && forall e :: e in b.broadcast ==> Covered(Durable(b), n, e)
  }

  /** A compaction in progress has read the log as it still is. */
  ghost predicate CompactionInv(b: Bus, n: nat) {
    b.compacting.Some? ==>
      b.compacting.value.keep >= n && b.compacting.value.kept == Compacted(Events(b.wal), b.compacting.value.keep)
  }

  ghost predicate Inv(b: Bus, n: nat) {
    LogInv(b) && FlightInv(b, n) && SentInv(b, n) && CompactionInv(b, n)
  }

  lemma {:induction false} EventsPrefix(wal: seq<WalEntry>, k: nat)
    requires k <= |wal|
    ensures |Events(wal[..k])| <= |Events(wal)|
    ensures Events(wal[..k]) == Events(wal)[..|Events(wal[..k])|]
  {
    if k < |wal| {
      EventsPrefix(wal[..|wal| - 1], k);
      assert wal[..|wal| - 1][..k] == wal[..k];
    } else {
      assert wal[..k] == wal;
    }
  }

  lemma {:induction false} EventsOfLines(es: seq<BusEvent>)
    ensures Events(Lines(es)) == es
  {
    if es != [] {
      EventsOfLines(es[..|es| - 1]);
      assert Lines(es)[..|es| - 1] == Lines(es[..|es| - 1]);
    }
  }

  lemma EventsAppend(wal: seq<WalEntry>, e: BusEvent)
    ensures Events(wal + [FromBus(e)]) == Events(wal) + [e]
  {
    assert (wal + [FromBus(e)])[..|wal|] == wal;
  }

  lemma DurableInLog(b: Bus)
    requires b.synced <= |b.wal|
    ensures forall e :: e in Durable(b) ==> e in Events(b.wal)
  {
    EventsPrefix(b.wal, b.synced);
  }

  lemma AssignKeepsInv(b: Bus, a: Action, n: nat)
    requires a.Assign? && Inv(b, n) && n >= 1
    ensures Inv(Step(b, a), n)
  {
    var v := b.counter + 1;
    DurableInLog(b);
    forall e | e in b.broadcast ensures e.version != v { CoveredBelowMax(Durable(b), n, e); }
  }

  lemma AppendKeepsLogInv(b: Bus, a: Action, n: nat)
    requires a.Append? && Enabled(b, a) && Inv(b, n)
    ensures var b', e := Step(b, a), b.inFlight[a.version].event;
            LogInv(b') && Durable(b') == Durable(b) && Events(b'.wal) == Events(b.wal) + [e]
  {
    EventsAppend(b.wal, b.inFlight[a.version].event);
    assert Step(b, a).wal[..b.synced] == b.wal[..b.synced];
  }

  lemma AppendKeepsInv(b: Bus, a: Action, n: nat)
    requires a.Append? && Enabled(b, a) && Inv(b, n) && b.compacting.None?
    ensures Inv(Step(b, a), n)
  {
    var b' := Step(b, a);
    AppendKeepsLogInv(b, a, n);
    forall v | v in b'.inFlight ensures PublishInv(b', v, b'.inFlight[v], n) { AppendKeepsPublish(b, a, n, v); }
  }

  lemma AppendKeepsPublish(b: Bus, a: Action, n: nat, v: int)
    requires a.Append? && Enabled(b, a) && Inv(b, n) && v in b.inFlight
    ensures var b' := Step(b, a); b'.synced <= |b'.wal| && PublishInv(b', v, b'.inFlight[v], n)
  {
    assert PublishInv(b, v, b.inFlight[v], n) && PublishInv(b, a.version, b.inFlight[a.version], n);
    AppendKeepsLogInv(b, a, n);
    if v == a.version {
      AppendedIsCovered(Events(b.wal), n, b.inFlight[v].event);
    } else {
      AppendCoversOthers(Events(b.wal), n, b.inFlight[a.version].event, b.inFlight[v].event);
    }
  }

  lemma AppendedIsCovered(es: seq<BusEvent>, n: nat, e: BusEvent)
    ensures Covered(es + [e], n, e)
  {
  }

  lemma AppendCoversOthers(es: seq<BusEvent>, n: nat, e: BusEvent, f: BusEvent)
    ensures Covered(es, n, f) ==> Covered(es + [e], n, f)
  {
    if Covered(es, n, f) { CoveredGrows(es, es + [e], n, f); }
  }

  lemma SyncKeepsInv(b: Bus, a: Action, n: nat)
    requires (a.Sync? || a.BackgroundSync?) && Enabled(b, a) && Inv(b, n)
    ensures Inv(Step(b, a), n)
  {
    DurableInLog(b);
    assert Step(b, a).wal[..|b.wal|] == b.wal;
    forall e | Covered(Durable(b), n, e) ensures Covered(Events(b.wal), n, e) {
      CoveredGrows(Durable(b), Events(b.wal), n, e);
    }
  }

  lemma KeptLog(b: Bus, n: nat)
    requires b.compacting.Some? && Inv(b, n)
    ensures var kept, b' := b.compacting.value.kept, Step(b, EndCompaction);
            LogInv(b') && Events(b'.wal) == kept && Durable(b') == kept && forall e :: e in kept ==> e in Events(b.wal)
  {
    var es, kept, b' := Events(b.wal), b.compacting.value.kept, Step(b, EndCompaction);
    var keep := b.compacting.value.keep;
    EventsOfLines(kept);
    assert b'.wal[..b'.synced] == b'.wal;
    CompactedAscending(es, keep);
    AscendingDistinct(kept);
    forall e | e in kept ensures e in es { CompactedMembers(es, keep, e); }
  }

  lemma KeptCovers(b: Bus, n: nat, e: BusEvent)
    requires b.compacting.Some? && Inv(b, n) && (Covered(Events(b.wal), n, e) || Covered(Durable(b), n, e))
    ensures Covered(b.compacting.value.kept, n, e)
  {
    DurableInLog(b);
    if Covered(Durable(b), n, e) { CoveredGrows(Durable(b), Events(b.wal), n, e); }
    CompactedCovers(Events(b.wal), b.compacting.value.keep, n, e);
  }

  lemma CompactionKeepsInv(b: Bus, n: nat)
    requires b.compacting.Some? && Inv(b, n)
    ensures Inv(Step(b, EndCompaction), n)
  {
    KeptLog(b, n);
    forall e | Covered(Events(b.wal), n, e) || Covered(Durable(b), n, e)
      ensures Covered(b.compacting.value.kept, n, e)
    {
      KeptCovers(b, n, e);
    }
  }

  lemma BroadcastKeepsInv(b: Bus, a: Action, n: nat)
    requires a.Broadcast? && Enabled(b, a) && Inv(b, n)
    ensures Inv(Step(b, a), n)
  {
  }

  lemma CrashKeepsInv(b: Bus, a: Action, n: nat)
    requires a.CrashRestart? && Enabled(b, a) && Inv(b, n)
    ensures Inv(Step(b, a), n)
  {
    var wal := b.wal[..a.survivors];
    EventsPrefix(b.wal, a.survivors);
    EventsPrefix(wal, b.synced);
    assert wal[..b.synced] == b.wal[..b.synced] && Step(b, a).wal[..a.survivors] == wal;
    forall e | Covered(Durable(b), n, e) ensures Covered(Events(wal), n, e) {
      CoveredGrows(Durable(b), Events(wal), n, e);
    }
  }

  lemma StepKeepsInv(b: Bus, a: Action, n: nat)
    requires Enabled(b, a) && Permits(Undisturbed, b, a) && Inv(b, n) && n >= 1
    requires a.BeginCompaction? ==> a.keep >= n
    ensures Inv(Step(b, a), n)
  {
    match a
    case Assign(_) => AssignKeepsInv(b, a, n);
    case Append(_) => AppendKeepsInv(b, a, n);
    case Sync(_) => SyncKeepsInv(b, a, n);
    case BackgroundSync => SyncKeepsInv(b, a, n);
    case Broadcast(_) => BroadcastKeepsInv(b, a, n);
    case BeginCompaction(_) =>
    case EndCompaction => CompactionKeepsInv(b, n);
    case CrashRestart(_) => CrashKeepsInv(b, a, n);
  }

  lemma {:induction false} RunKeepsInv(b: Bus, run: seq<Action>, n: nat)
    requires Legal(b, run) && Follows(Undisturbed, b, run) && Inv(b, n) && n >= 1 && CompactsWithAtLeast(run, n)
    ensures Inv(After(b, run), n)
    decreases |run|
  {
    if run != [] {
      assert run[0] in run;
      StepKeepsInv(b, run[0], n);
      RunKeepsInv(Step(b, run[0]), run[1..], n);
    }
  }

  // ---- Main results -----------------------------------------------------------------------------

  /** Over every run whose compactions are undisturbed and keep at least `n >= 1` events per type: no
      two broadcast events share a version, and each broadcast event is in the durable log unless at
      least `n` newer events of its type are. */
  lemma BroadcastSafety(run: seq<Action>, n: nat)
    requires Legal(Fresh, run) && Follows(Undisturbed, Fresh, run) && n >= 1 && CompactsWithAtLeast(run, n)
    ensures var b := After(Fresh, run);
            && b.synced <= |b.wal|
            && DistinctVersions(Events(b.wal))
            && DistinctVersions(b.broadcast)
            && forall e :: e in b.broadcast ==> Covered(Durable(b), n, e)
  {
    RunKeepsInv(Fresh, run, n);
  }

  // ---- Versions are consecutive -----------------------------------------------------------------

  ghost predicate Below(es: seq<BusEvent>, v: int) {
    forall e :: e in es ==> e.version <= v
  }

  /** Whatever has a version has one the counter has reached. */
  ghost predicate CounterInv(b: Bus) {
    && b.counter >= 0 && Below(Events(b.wal), b.counter)
    && (forall v :: v in b.inFlight ==> b.inFlight[v].event.version <= b.counter)
    && (b.compacting.Some? ==> Below(b.compacting.value.kept, b.counter))
  }

  lemma KeptBelow(es: seq<BusEvent>, keep: int, v: int)
    requires Below(es, v)
    ensures Below(Compacted(es, keep), v)
  {
    forall e | e in Compacted(es, keep) ensures e.version <= v { CompactedCount(es, keep, e); }
  }

  /** So a compaction never has to raise it, although the code provides for that. */
  lemma NothingToRaise(b: Bus)
    requires CounterInv(b) && b.compacting.Some?
    ensures CounterAfter(b.counter, b.compacting.value.kept) == b.counter
  {
  }

  lemma AppendCounter(b: Bus, v: int)
    requires InPhase(b, v, Phase.Assigned) && CounterInv(b)
    ensures CounterInv(Step(b, Append(v)))
  {
    var e := b.inFlight[v].event;
    EventsAppend(b.wal, e);
    OneMoreBelow(Events(b.wal), e, b.counter);
  }

  lemma OneMoreBelow(es: seq<BusEvent>, e: BusEvent, v: int)
    requires Below(es, v) && e.version <= v
    ensures Below(es + [e], v)
  {
  }

  lemma SwapCounter(b: Bus)
    requires b.compacting.Some? && CounterInv(b)
    ensures CounterInv(Step(b, EndCompaction)) && Step(b, EndCompaction).counter == b.counter
  {
    NothingToRaise(b);
    EventsOfLines(b.compacting.value.kept);
  }

  lemma CrashCounter(b: Bus, a: Action)
    requires Enabled(b, a) && (a.CrashRestart? || a.CrashInSwap?)
    ensures CounterInv(Step(b, a))
  {
  }

  lemma StepCounter(b: Bus, a: Action)
    requires Enabled(b, a) && CounterInv(b)
    ensures CounterInv(Step(b, a))
    ensures !a.CrashRestart? && !a.CrashInSwap? ==> Step(b, a).counter == b.counter + if a.Assign? then 1 else 0
  {
    match a
    case Append(v) => AppendCounter(b, v);
    case BeginCompaction(keep) => KeptBelow(Events(b.wal), keep, b.counter);
    case EndCompaction => SwapCounter(b);
    case CrashRestart(_) => CrashCounter(b, a);
    case CrashInSwap => CrashCounter(b, a);
    case _ =>
  }

  ghost function AssignsIn(run: seq<Action>): nat {
    if run == [] then 0 else AssignsIn(run[1..]) + if run[0].Assign? then 1 else 0
  }

  lemma {:induction false} RunCounter(b: Bus, run: seq<Action>)
    requires Legal(b, run) && CounterInv(b)
    ensures CounterInv(After(b, run))
    ensures (forall a :: a in run ==> !a.CrashRestart? && !a.CrashInSwap?)
            ==> After(b, run).counter == b.counter + AssignsIn(run)
    decreases |run|
  {
    if run != [] {
      StepCounter(b, run[0]);
      RunCounter(Step(b, run[0]), run[1..]);
      assert run[0] in run;
    }
  }

  /** In every run without a crash the k-th publish gets version k, and in every run at all a compaction
      leaves the counter alone. */
  lemma VersionsAreConsecutive(run: seq<Action>, event: BusEvent)
    requires Legal(Fresh, run)
    ensures var b := After(Fresh, run);
            && (b.compacting.Some? ==> Step(b, EndCompaction).counter == b.counter)
            && ((forall a :: a in run ==> !a.CrashRestart? && !a.CrashInSwap?) ==>
                  var v := AssignsIn(run) + 1;
                  var b' := Step(b, Assign(event));
                  v in b'.inFlight && b'.inFlight[v].event == event.(version := v))
  {
    RunCounter(Fresh, run);
    var b := After(Fresh, run);
    if b.compacting.Some? { NothingToRaise(b); }
  }
}
