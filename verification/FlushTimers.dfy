/** The flush timers of the message batcher.  A destination has at most one entry in the timer table;
    `scheduleFlush` adds an entry only if there is none, and `flushDestination` removes it only if the
    queue has something to flush.  So an entry can outlive its timer, and then no timer is set. */
module FlushTimers {
  import opened MessageBatcher
  import StableSort

  datatype Timed = Timed(
    batcher: Batcher,
    entries: set<string>,  // destinations in the timer table
    live: set<string>)     // those of them whose timer has not fired yet

  datatype Action =
    | Add(message: Message, now: int)
    | Flush(destination: string)           // `flushDestination`, also as part of `flushAll`
    | FlushAbove(destination: string, minPriority: int)
    | TimerFires(destination: string)

  const Fresh := Timed(MessageBatcher.Fresh, {}, {})

  function Flushed(t: Timed, d: string): Timed {
    if Queue(t.batcher, d) == [] then t
    else Timed(MessageBatcher.Flush(t.batcher, d), t.entries - {d}, t.live - {d})
  }

  function Scheduled(t: Timed, d: string): Timed {
    if d in t.entries then t else t.(entries := t.entries + {d}, live := t.live + {d})
  }

  function Added(o: Options, t: Timed, m: Message, now: int): Timed {
    if m.urgent then t.(batcher := MessageBatcher.Add(o, t.batcher, m, now))
    else
      var t' := t.(batcher := Enqueue(t.batcher, m));
      if ShouldFlush(o, Queue(t'.batcher, m.destination), now) then Flushed(t', m.destination)
      else Scheduled(t', m.destination)
  }

  ghost predicate Enabled(t: Timed, a: Action) {
    a.TimerFires? ==> a.destination in t.live
  }

  function Step(o: Options, t: Timed, a: Action): Timed {
    match a
    case Add(m, now) => Added(o, t, m, now)
    case Flush(d) => Flushed(t, d)
    case FlushAbove(d, min) => t.(batcher := MessageBatcher.FlushAbove(t.batcher, d, min))
    case TimerFires(d) => Flushed(t.(live := t.live - {d}), d)
  }

  ghost predicate Legal(o: Options, t: Timed, run: seq<Action>)
    decreases |run|
  {
    run == [] || (Enabled(t, run[0]) && Legal(o, Step(o, t, run[0]), run[1..]))
  }

  /** Every message that waits, waits for a timer that is still to fire. */
  ghost predicate Timely(t: Timed) {
    forall d :: Queue(t.batcher, d) != [] ==> d in t.live
  }

  /** So it is now, and after whatever message comes next. */
  ghost predicate StaysTimely(o: Options, t: Timed) {
    Timely(t) && forall m, now :: Timely(Added(o, t, m, now))
  }

  ghost predicate AlwaysTimely(o: Options, t: Timed, run: seq<Action>)
    requires Legal(o, t, run)
    decreases |run|
  {
    StaysTimely(o, t) && (run == [] || AlwaysTimely(o, Step(o, t, run[0]), run[1..]))
  }

  /** A timer fires on a queue that has been emptied in the meantime. */
  ghost predicate FiresIdle(t: Timed, a: Action) {
    a.TimerFires? && Queue(t.batcher, a.destination) == []
  }

  ghost predicate NeverFiresIdle(o: Options, t: Timed, run: seq<Action>)
    requires Legal(o, t, run)
    decreases |run|
  {
    run == [] || (!FiresIdle(t, run[0]) && NeverFiresIdle(o, Step(o, t, run[0]), run[1..]))
  }

  // ---- The table is up to date until then -----------------------------------------------------------

  /** Entries are timers that will fire; there is none unless a message can wait at all. */
  ghost predicate TableInv(o: Options, t: Timed) {
    t.entries == t.live && Timely(t) && (t.entries != {} ==> o.maxBatchSize >= 2)
  }

  lemma AddUrgentKeepsTable(o: Options, t: Timed, m: Message, now: int)
    requires TableInv(o, t) && m.urgent
    ensures TableInv(o, Added(o, t, m, now))
  {
    assert forall d :: Queue(Added(o, t, m, now).batcher, d) == Queue(t.batcher, d);
  }

  lemma ScheduleKeepsTable(o: Options, t: Timed, d: string)
    requires t.entries == t.live && o.maxBatchSize >= 2
    requires forall d' :: d' != d && Queue(t.batcher, d') != [] ==> d' in t.live
    ensures TableInv(o, Scheduled(t, d))
  {
  }

  lemma AddKeepsTable(o: Options, t: Timed, m: Message, now: int)
    requires TableInv(o, t)
    ensures TableInv(o, Added(o, t, m, now))
  {
    if m.urgent {
      AddUrgentKeepsTable(o, t, m, now);
    } else {
      var t', d := t.(batcher := Enqueue(t.batcher, m)), m.destination;
      assert forall d' :: d' != d ==> Queue(t'.batcher, d') == Queue(t.batcher, d');
      EnqueueWaits(t.batcher, m);
      if ShouldFlush(o, Queue(t'.batcher, d), now) {
        FlushKeepsTable(o, t', d);
      } else {
        ScheduleKeepsTable(o, t', d);
      }
    }
  }

  lemma EnqueueWaits(b: Batcher, m: Message)
    ensures Queue(Enqueue(b, m), m.destination) != []
  {
    StableSort.SortIn(Queue(b, m.destination) + [m], HighestFirst(), m);
  }

  lemma FlushKeepsTable(o: Options, t: Timed, d: string)
    requires t.entries == t.live + {d} || t.entries == t.live
    requires forall d' :: d' != d && Queue(t.batcher, d') != [] ==> d' in t.live
    requires t.entries != {} ==> o.maxBatchSize >= 2
    requires Queue(t.batcher, d) == [] ==> t.entries == t.live
    ensures TableInv(o, Flushed(t, d))
  {
    assert forall d' :: d' != d ==> Queue(Flushed(t, d).batcher, d') == Queue(t.batcher, d');
  }

  lemma FlushAboveKeepsTable(o: Options, t: Timed, d: string, min: int)
    requires TableInv(o, t)
    ensures TableInv(o, t.(batcher := MessageBatcher.FlushAbove(t.batcher, d, min)))
  {
    forall d' | Queue(MessageBatcher.FlushAbove(t.batcher, d, min), d') != [] ensures d' in t.live {
      FlushAboveQueue(t.batcher, d, min, d');
    }
  }

  lemma StepKeepsTable(o: Options, t: Timed, a: Action)
    requires TableInv(o, t) && Enabled(t, a) && !FiresIdle(t, a)
    ensures TableInv(o, Step(o, t, a))
  {
    match a
    case Add(m, now) => AddKeepsTable(o, t, m, now);
    case Flush(d) => FlushKeepsTable(o, t, d);
    case FlushAbove(d, min) => FlushAboveKeepsTable(o, t, d, min);
    case TimerFires(d) => FlushKeepsTable(o, t.(live := t.live - {d}), d);
  }

  /** `flushAll` over the given destinations. */
  function FlushedEach(t: Timed, destinations: seq<string>): Timed {
    if destinations == [] then t
    else Flushed(FlushedEach(t, destinations[..|destinations| - 1]), destinations[|destinations| - 1])
  }

  lemma {:induction false} FlushEachKeepsTable(o: Options, t: Timed, destinations: seq<string>)
    ensures FlushedEach(t, destinations).batcher == FlushEach(t.batcher, destinations)
    ensures TableInv(o, t) ==> TableInv(o, FlushedEach(t, destinations))
  {
    if destinations != [] {
      var front := destinations[..|destinations| - 1];
      FlushEachKeepsTable(o, t, front);
      if TableInv(o, t) { FlushKeepsTable(o, FlushedEach(t, front), destinations[|destinations| - 1]); }
    }
  }

  /** `flushByPriority` leaves the table alone. */
  lemma FlushEachAboveKeepsTable(o: Options, t: Timed, destinations: seq<string>, min: int)
    requires TableInv(o, t)
    ensures TableInv(o, t.(batcher := FlushEachAbove(t.batcher, destinations, min)))
  {
    forall d | Queue(FlushEachAbove(t.batcher, destinations, min), d) != [] ensures d in t.live {
      FlushEachAboveQueue(t.batcher, destinations, min, d);
    }
  }

  // ---- And not afterwards ---------------------------------------------------------------------------

  lemma LoneQueue(b: Batcher, m: Message)
    requires Queue(b, m.destination) == []
    ensures Queue(Enqueue(b, m), m.destination) == [m]
  {
    assert [] + [m] == [m] && [m][..0] == [];
    assert StableSort.Sort([m], HighestFirst()) == [m];
  }

  lemma LoneMessageWaits(o: Options, b: Batcher, m: Message)
    requires Sound(o) && o.maxBatchSize >= 2 && Queue(b, m.destination) == [] && m.size == 0
    ensures !ShouldFlush(o, Queue(Enqueue(b, m), m.destination), m.timestamp)
  {
    LoneQueue(b, m);
    assert [m][..0] == [];
    assert Bytes([m]) == 0;
  }

  /** Once a timer has fired on an empty queue, the next message to its destination waits for nothing. */
  lemma IdleTimerStrands(o: Options, t: Timed, d: string)
    requires Sound(o) && TableInv(o, t) && Enabled(t, TimerFires(d)) && FiresIdle(t, TimerFires(d))
    ensures !StaysTimely(o, Step(o, t, TimerFires(d)))
  {
    var t', m := Step(o, t, TimerFires(d)), Message(0, d, 0, 1, 0, false);
    LoneMessageWaits(o, t'.batcher, m);
    EnqueueWaits(t'.batcher, m);
    assert d !in Added(o, t', m, 0).live;
  }

  lemma {:induction false} TimelyUnlessIdle(o: Options, t: Timed, run: seq<Action>)
    requires Sound(o) && TableInv(o, t) && Legal(o, t, run)
    ensures AlwaysTimely(o, t, run) <==> NeverFiresIdle(o, t, run)
    decreases |run|
  {
    forall m, now ensures Timely(Added(o, t, m, now)) { AddKeepsTable(o, t, m, now); }
    if run != [] {
      if FiresIdle(t, run[0]) {
        IdleTimerStrands(o, t, run[0].destination);
      } else {
        StepKeepsTable(o, t, run[0]);
        TimelyUnlessIdle(o, Step(o, t, run[0]), run[1..]);
      }
    }
  }

  /** For every run: whatever waits at any point of it, or is added next, waits for a timer that will
      fire, exactly when no timer has fired on an empty queue. */
  lemma AlwaysTimelyIff(o: Options, run: seq<Action>)
    requires Sound(o) && Legal(o, Fresh, run)
    ensures AlwaysTimely(o, Fresh, run) <==> NeverFiresIdle(o, Fresh, run)
  {
    TimelyUnlessIdle(o, Fresh, run);
  }

  /** That happens after `flushByPriority` has emptied the queue, for which no timer is cleared. */
  lemma PriorityFlushStrands(o: Options, m: Message)
    requires Sound(o) && o.maxBatchSize >= 2 && !m.urgent && m.size == 0
    ensures var d := m.destination;
            var run := [Add(m, m.timestamp), FlushAbove(d, m.priority), TimerFires(d)];
            Legal(o, Fresh, run) && !AlwaysTimely(o, Fresh, run)
  {
    var d := m.destination;
    var run := [Add(m, m.timestamp), FlushAbove(d, m.priority), TimerFires(d)];
    var t1 := Step(o, Fresh, run[0]);
    LoneMessageWaits(o, Fresh.batcher, m);
    var t2 := Step(o, t1, run[1]);
    OneMessageFlushed(Fresh.batcher, m);
    assert run[1..] == [run[1], run[2]] && run[1..][1..] == [run[2]] && run[1..][1..][1..] == [];
    assert FiresIdle(t2, run[2]);
    assert Legal(o, t2, [run[2]]) && Legal(o, t1, run[1..]);
    assert !NeverFiresIdle(o, t2, [run[2]]) && !NeverFiresIdle(o, t1, run[1..]);
    AlwaysTimelyIff(o, run);
  }

  lemma OneMessageFlushed(b: Batcher, m: Message)
    requires Queue(b, m.destination) == []
    ensures Queue(MessageBatcher.FlushAbove(Enqueue(b, m), m.destination, m.priority), m.destination) == []
  {
    LoneQueue(b, m);
    assert [m][1..] == [];
    assert StableSort.Filter([m], Below(m.priority)) == [];
    FlushAboveQueue(Enqueue(b, m), m.destination, m.priority, m.destination);
  }
}
