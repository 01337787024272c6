/** When a version can be broadcast twice: whatever makes a restart forget the highest version, be it a
    compaction that keeps nothing, an append that a compaction loses, or a crash in its swap. */
module VersionReuse {
  import opened Common
  import opened EventLog
  import opened BusProtocol

  ghost predicate VersionsNeverRepeat(keep: int, rules: Rules) {
    forall run :: Legal(Fresh, run) && Follows(rules, Fresh, run) && CompactsWith(run, keep)
      ==> DistinctVersions(After(Fresh, run).broadcast)
  }

  /** Some continuation broadcasts a version twice. */
  ghost predicate CanRepeat(keep: int, rules: Rules, b: Bus) {
    exists run :: Legal(b, run) && Follows(rules, b, run) && CompactsWith(run, keep)
      && !DistinctVersions(After(b, run).broadcast)
  }

  lemma StepCanRepeat(keep: int, rules: Rules, b: Bus, a: Action)
    requires Enabled(b, a) && Permits(rules, b, a) && (a.BeginCompaction? ==> a.keep == keep)
    requires CanRepeat(keep, rules, Step(b, a))
    ensures CanRepeat(keep, rules, b)
  {
    var b' := Step(b, a);
    var rest :| Legal(b', rest) && Follows(rules, b', rest) && CompactsWith(rest, keep)
                && !DistinctVersions(After(b', rest).broadcast);
    var run := [a] + rest;
    assert run[1..] == rest;
    assert Legal(b, run) && Follows(rules, b, run) && After(b, run) == After(b', rest);
  }

  ghost function First(e: BusEvent): BusEvent { e.(version := 1) }

  /** A bus that has broadcast version 1, with the given log, and has nothing in flight. */
  ghost function Sent(e: BusEvent, log: seq<BusEvent>, compacting: Option<Compaction>): Bus {
    Bus(1, Lines(log), |log|, map[], [First(e)], compacting)
  }

  /** The first publish of a bus, and how far it has come. */
  ghost function Publishing(b: Bus, e: BusEvent, phase: Phase): Bus {
    b.(counter := 1,
       wal := if phase == Assigned then [] else [FromBus(First(e))],
       synced := if phase == Synced then 1 else b.synced,
       inFlight := map[1 := Publish(First(e), phase)])
  }

  ghost function Published(b: Bus, e: BusEvent): Bus {
    b.(counter := 1, wal := [FromBus(First(e))], synced := 1, broadcast := b.broadcast + [First(e)])
  }

  lemma PublishedFresh(e: BusEvent, compacting: Option<Compaction>)
    ensures Published(Fresh.(compacting := compacting), e) == Sent(e, [First(e)], compacting)
  {
    assert Lines([First(e)]) == [FromBus(First(e))] && [] + [First(e)] == [First(e)];
  }

  lemma PublishSteps(b: Bus, e: BusEvent)
    requires b.counter == 0 && b.wal == [] && b.inFlight == map[]
    ensures Step(b, Assign(e)) == Publishing(b, e, Assigned)
    ensures Step(Publishing(b, e, Assigned), Append(1)) == Publishing(b, e, Appended)
    ensures Step(Publishing(b, e, Appended), Sync(1)) == Publishing(b, e, Synced)
    ensures Step(Publishing(b, e, Synced), Broadcast(1)) == Published(b, e)
  {
  }

  /** An undisturbed publish on a bus that starts counting at 0. */
  lemma PublishCanRepeat(keep: int, rules: Rules, b: Bus, e: BusEvent)
    requires b.counter == 0 && b.wal == [] && b.inFlight == map[] && (b.compacting.Some? ==> rules.appends)
    requires CanRepeat(keep, rules, Published(b, e))
    ensures CanRepeat(keep, rules, b)
  {
    PublishSteps(b, e);
    StepCanRepeat(keep, rules, Publishing(b, e, Synced), Broadcast(1));
    StepCanRepeat(keep, rules, Publishing(b, e, Appended), Sync(1));
    StepCanRepeat(keep, rules, Publishing(b, e, Assigned), Append(1));
    StepCanRepeat(keep, rules, b, Assign(e));
  }

  /** A bus that has sent version 1 but counts from 0 sends it again. */
  lemma ForgottenRepeats(keep: int, rules: Rules, e: BusEvent)
    ensures CanRepeat(keep, rules, Fresh.(broadcast := [First(e)]))
  {
    var b := Fresh.(broadcast := [First(e)]);
    var end := Published(b, e);
    assert end.broadcast[0].version == end.broadcast[1].version;
    assert Legal(end, []) && Follows(rules, end, []) && CompactsWith([], keep) && After(end, []) == end;
    PublishCanRepeat(keep, rules, b, e);
  }

  lemma EmptyLogRepeats(keep: int, rules: Rules, e: BusEvent)
    ensures CanRepeat(keep, rules, Sent(e, [], None))
  {
    ForgottenRepeats(keep, rules, e);
    assert Step(Sent(e, [], None), CrashRestart(0)) == Fresh.(broadcast := [First(e)]);
    StepCanRepeat(keep, rules, Sent(e, [], None), CrashRestart(0));
  }

  /** Wiping the log lets version 1 be assigned again after a restart. */
  lemma WipingRepeatsVersions(keep: int, rules: Rules, e: BusEvent)
    requires keep <= 0
    ensures CanRepeat(keep, rules, Fresh)
  {
    var log, wiping := [First(e)], Some(Compaction(keep, []));
    EmptyLogRepeats(keep, rules, e);
    assert Step(Sent(e, log, wiping), EndCompaction) == Sent(e, [], None);
    StepCanRepeat(keep, rules, Sent(e, log, wiping), EndCompaction);
    assert Step(Sent(e, log, None), BeginCompaction(keep)) == Sent(e, log, wiping);
    StepCanRepeat(keep, rules, Sent(e, log, None), BeginCompaction(keep));
    PublishedFresh(e, None);
    PublishCanRepeat(keep, rules, Fresh, e);
  }

  /** So does an append that a compaction in progress has not read and then swaps away. */
  lemma LostAppendRepeatsVersions(keep: int, rules: Rules, e: BusEvent)
    requires rules.appends
    ensures CanRepeat(keep, rules, Fresh)
  {
    var b := Fresh.(compacting := Some(Compaction(keep, [])));
    EmptyLogRepeats(keep, rules, e);
    assert Step(Sent(e, [First(e)], b.compacting), EndCompaction) == Sent(e, [], None);
    StepCanRepeat(keep, rules, Sent(e, [First(e)], b.compacting), EndCompaction);
    PublishedFresh(e, b.compacting);
    PublishCanRepeat(keep, rules, b, e);
    CompactedNotLonger([], keep);
    assert Step(Fresh, BeginCompaction(keep)) == b;
    StepCanRepeat(keep, rules, Fresh, BeginCompaction(keep));
  }

  /** And so does a crash between deleting the old log and writing the new one. */
  lemma SwapCrashRepeatsVersions(keep: int, rules: Rules, e: BusEvent)
    requires rules.crashInSwap
    ensures CanRepeat(keep, rules, Fresh)
  {
    var b := Sent(e, [First(e)], None);
    ForgottenRepeats(keep, rules, e);
    StepCanRepeat(keep, rules, Step(b, BeginCompaction(keep)), CrashInSwap);
    StepCanRepeat(keep, rules, b, BeginCompaction(keep));
    PublishedFresh(e, None);
    PublishCanRepeat(keep, rules, Fresh, e);
  }

  /** Version uniqueness across crashes holds exactly when compaction keeps at least one event per
      type, nothing is appended between its reading and its swap, and no crash falls into the swap. */
  lemma VersionsNeverRepeatIff(keep: int, rules: Rules)
    ensures VersionsNeverRepeat(keep, rules) <==> keep >= 1 && rules == Undisturbed
  {
    if keep >= 1 && rules == Undisturbed {
      forall run | Legal(Fresh, run) && Follows(rules, Fresh, run) && CompactsWith(run, keep)
        ensures DistinctVersions(After(Fresh, run).broadcast)
      {
        BroadcastSafety(run, 1);
      }
    } else {
      var e := BusEvent("id", "t", "", 0, "node", 0);
      if keep <= 0 {
        WipingRepeatsVersions(keep, rules, e);
      } else if rules.appends {
        LostAppendRepeatsVersions(keep, rules, e);
      } else {
        SwapCrashRepeatsVersions(keep, rules, e);
      }
    }
  }
}
