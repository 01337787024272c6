/** The event bus as an object that runs the protocol. */
module BusObject {
  import opened Common
  import opened EventLog
  import opened BusProtocol

  lemma {:induction false} RunExtends(b: Bus, run: seq<Action>, a: Action)
    requires Legal(b, run) && Enabled(After(b, run), a)
    ensures Legal(b, run + [a]) && After(b, run + [a]) == Step(After(b, run), a)
    decreases |run|
  {
    if run == [] {
      assert (run + [a])[0] == a && (run + [a])[1..] == [];
    } else {
      assert (run + [a])[1..] == run[1..] + [a];
      RunExtends(Step(b, run[0]), run[1..], a);
    }
  }

  /** The bus with its counter and log.  Each method is the code between two awaits, and is one
      step of the machine above; `inFlight` stands for the suspended `publish` calls.  A valid bus is
      in a state that `run`, the steps taken so far, leads to, so all results about runs hold of it. */
  class EventBus {
    var versionCounter: int
    var wal: seq<WalEntry>
    var synced: nat
    var published: seq<BusEvent>
    ghost var inFlight: map<int, Publish>
    ghost var compacting: Option<Compaction>
    ghost var run: seq<Action>

    ghost function State(): Bus
      reads this
    {
      Bus(versionCounter, wal, synced, inFlight, published, compacting)
    }

    ghost predicate Valid()
      reads this
    {
      Legal(Fresh, run) && After(Fresh, run) == State()
    }

    constructor ()
      ensures Valid() && run == []
    {
      versionCounter, wal, synced, published := 0, [], 0, [];
      inFlight, compacting, run := map[], None, [];
    }

    /** What subscribers and the disk have seen of a bus whose compactions are undisturbed and keep
        `n` or more events per type. */
    lemma Safe(n: nat)
      requires Valid() && Follows(Undisturbed, Fresh, run) && n >= 1 && CompactsWithAtLeast(run, n)
      ensures synced <= |wal| && DistinctVersions(Events(wal)) && DistinctVersions(published)
      ensures forall e :: e in published ==> Covered(Events(wal[..synced]), n, e)
    {
      BroadcastSafety(run, n);
    }

    /** The step just taken goes on record. */
    ghost method Took(a: Action, before: Bus)
      requires Legal(Fresh, run) && After(Fresh, run) == before && Enabled(before, a) && State() == Step(before, a)
      modifies this`run
      ensures Valid() && run == old(run) + [a]
    {
      RunExtends(Fresh, run, a);
      run := run + [a];
    }

    method AssignVersion(event: BusEvent) returns (versioned: BusEvent)
      requires Valid()
      modifies this
      ensures Valid() && run == old(run) + [Assign(event)]
      ensures State() == Step(old(State()), Assign(event))
      ensures versionCounter == old(versionCounter) + 1 && versioned == event.(version := versionCounter)
      ensures versioned.version in State().inFlight && State().inFlight[versioned.version].event == versioned
    {
      versionCounter := versionCounter + 1;
      versioned := event.(version := versionCounter);
      inFlight := inFlight[versionCounter := Publish(versioned, Assigned)];
      Took(Assign(event), old(State()));
    }

    method AppendEntry(event: BusEvent)
      requires Valid() && Enabled(State(), Append(event.version)) && inFlight[event.version].event == event
      modifies this
      ensures Valid() && run == old(run) + [Append(event.version)]
      ensures State() == Step(old(State()), Append(event.version))
    {
      wal := wal + [FromBus(event)];
      inFlight := inFlight[event.version := inFlight[event.version].(phase := Appended)];
      Took(Append(event.version), old(State()));
    }

    method SyncLog(ghost version: int)
      requires Valid() && Enabled(State(), Sync(version))
      modifies this
      ensures Valid() && run == old(run) + [Sync(version)]
      ensures State() == Step(old(State()), Sync(version))
    {
      synced := |wal|;
      inFlight := inFlight[version := inFlight[version].(phase := Synced)];
      Took(Sync(version), old(State()));
    }

    method Deliver(event: BusEvent)
      requires Valid() && Enabled(State(), Broadcast(event.version)) && inFlight[event.version].event == event
      modifies this
      ensures Valid() && run == old(run) + [Broadcast(event.version)]
      ensures State() == Step(old(State()), Broadcast(event.version))
    {
      published := published + [event];
      inFlight := inFlight - {event.version};
      Took(Broadcast(event.version), old(State()));
    }

    /** `compact` up to the end of its reading. */
    method ReadForCompaction(keepLastNPerType: int) returns (kept: seq<BusEvent>, entriesBefore: nat)
      requires Valid() && Enabled(State(), BeginCompaction(keepLastNPerType))
      modifies this`compacting, this`run
      ensures Valid() && run == old(run) + [BeginCompaction(keepLastNPerType)]
      ensures State() == Step(old(State()), BeginCompaction(keepLastNPerType))
      ensures compacting == Some(Compaction(keepLastNPerType, kept))
      ensures entriesBefore == |Events(wal)| == |BusLines(wal)|
      ensures forall e :: e in kept ==> FromBus(e) in wal
      ensures |kept| <= entriesBefore
      ensures if keepLastNPerType > 0 then TypesOf(kept) == TypesOf(Events(wal)) else kept == []
    {
      CompactedNotLonger(Events(wal), keepLastNPerType);
      CompactedTypes(Events(wal), keepLastNPerType);
      kept, entriesBefore := EventLog.Compact(wal, keepLastNPerType);
      compacting := Some(Compaction(keepLastNPerType, kept));
      Took(BeginCompaction(keepLastNPerType), old(State()));
    }

    /** The rest of `compact`. */
    method SwapLog(kept: seq<BusEvent>, entriesBefore: nat)
      returns (entriesKept: nat, entriesRemoved: nat, typesVisited: nat)
      requires Valid() && compacting.Some? && compacting.value.kept == kept && |kept| <= entriesBefore
      modifies this
      ensures Valid() && run == old(run) + [EndCompaction]
      ensures State() == Step(old(State()), EndCompaction)
      ensures entriesKept == |Events(wal)| && entriesKept + entriesRemoved == entriesBefore
      ensures typesVisited == |TypesOf(Events(wal))|
    {
      Rewrite(kept);
      compacting := None;
      entriesKept, entriesRemoved, typesVisited := |kept|, entriesBefore - |kept|, |TypesOf(kept)|;
      Took(EndCompaction, old(State()));
    }

    method Rewrite(kept: seq<BusEvent>)
      modifies this`wal, this`synced, this`versionCounter
      ensures wal == Lines(kept) && synced == |kept| && Events(wal) == kept
      ensures versionCounter == CounterAfter(old(versionCounter), kept)
    {
      wal, synced := Lines(kept), |kept|;
      EventsOfLines(kept);
      var maxKept := RestoreVersion(wal);
      if kept != [] && versionCounter < maxKept { versionCounter := maxKept; }
    }

    method Restart(survivors: nat)
      requires Valid() && Enabled(State(), CrashRestart(survivors))
      modifies this
      ensures Valid() && run == old(run) + [CrashRestart(survivors)]
      ensures State() == Step(old(State()), CrashRestart(survivors))
    {
      wal, synced, inFlight, compacting := wal[..survivors], survivors, map[], None;
      versionCounter := RestoreVersion(wal);
      Took(CrashRestart(survivors), old(State()));
    }
  }
}
