/** The message batcher as an object: queues, emitted batches and the table of flush timers. */
module BatcherObject {
  import opened StableSort
  import opened Batches = MessageBatcher
  import opened FlushTimers

  lemma AddedBatcher(o: Options, t: Timed, m: Message, now: int)
    ensures Added(o, t, m, now).batcher == Batches.Add(o, t.batcher, m, now)
  {
  }

  class MessageBatcher {
    const options: Options
    var destinations: seq<string>  // keys of the queue map, in insertion order
    var queues: map<string, seq<Message>>
    var emitted: seq<Message>
    var batchTimers: set<string>
    var nextId: nat
    ghost var added: seq<Message>
    ghost var live: set<string>  // destinations whose timer has not fired yet

    ghost function State(): Timed
      reads this
    {
      Timed(Batcher(queues, emitted, added), batchTimers, live)
    }

    ghost predicate Valid()
      reads this
    {
      Sound(options) && Inv(options, State().batcher) && KeysListed() && live <= batchTimers
    }

    /** The timer table is up to date: whatever waits, waits for a timer that will fire. */
    ghost predicate TableIsCurrent()
      reads this
    {
      TableInv(options, State())
    }

    ghost predicate KeysListed()
      reads this
    {
      && (forall d :: d in queues <==> d in destinations)
      && forall i, j :: 0 <= i < j < |destinations| ==> destinations[i] != destinations[j]
    }

    constructor (options: Options)
      requires Sound(options)
      ensures Valid() && this.options == options && State() == FlushTimers.Fresh && TableIsCurrent()
    {
      this.options := options;
      destinations, queues, emitted, nextId, added := [], map[], [], 0, [];
      batchTimers, live := {}, {};
      FreshInv(options);
    }

    method TotalBytes(queue: seq<Message>) returns (total: nat)
      ensures total == Bytes(queue)
    {
      total := 0;
      for i := 0 to |queue|
        invariant total == Bytes(queue[..i])
      {
        assert queue[..i + 1][..i] == queue[..i];
        total := total + queue[i].size;
      }
      assert queue[..|queue|] == queue;
    }

    method ShouldFlushQueue(queue: seq<Message>, now: int) returns (flush: bool)
      ensures flush == ShouldFlush(options, queue, now)
    {
      if |queue| == 0 { return false; }
      if |queue| >= options.maxBatchSize { return true; }
      var totalBytes := TotalBytes(queue);
      if totalBytes >= options.maxBatchSizeBytes { return true; }
      flush := now - queue[|queue| - 1].timestamp >= options.maxBatchAge;
    }

    method CreateQueue(destination: string)
      requires KeysListed() && destination !in queues
      modifies this`destinations, this`queues
      ensures KeysListed() && queues == old(queues)[destination := []]
    {
      destinations := destinations + [destination];
      queues := queues[destination := []];
    }

    /** Put a message into its queue, creating the queue if need be, and keep the queue sorted. */
    method QueueMessage(message: Message)
      requires KeysListed()
      modifies this`destinations, this`queues, this`added
      ensures KeysListed() && State() == old(State()).(batcher := Enqueue(old(State()).batcher, message))
    {
      added := added + [message];
      if message.destination !in queues { CreateQueue(message.destination); }
      var queue := Sort(queues[message.destination] + [message], HighestFirst());
      queues := queues[message.destination := queue];
      assert queues == old(queues)[message.destination := queue];
    }

    method EmitBatch(destination: string)
      requires KeysListed()
      modifies this`queues, this`emitted, this`batchTimers, this`live
      ensures KeysListed() && State() == Flushed(old(State()), destination)
    {
      if destination !in queues || |queues[destination]| == 0 { return; }
      if destination in batchTimers { batchTimers := batchTimers - {destination}; }
      live := live - {destination};
      var batch := queues[destination];
      queues := queues[destination := []];
      emitted := emitted + batch;
    }

    method ScheduleFlush(destination: string)
      modifies this`batchTimers, this`live
      ensures State() == Scheduled(old(State()), destination)
    {
      if destination in batchTimers { return; }
      batchTimers, live := batchTimers + {destination}, live + {destination};
    }

    /** The part of `addMessage` after the message has been made. */
    method Accept(message: Message, now: int)
      requires KeysListed()
      modifies this`destinations, this`queues, this`emitted, this`added, this`batchTimers, this`live
      ensures KeysListed() && State() == Added(options, old(State()), message, now)
    {
      if message.urgent {
        added, emitted := added + [message], emitted + [message];
        return;
      }
      QueueMessage(message);
      var flush := ShouldFlushQueue(queues[message.destination], now);
      if flush { EmitBatch(message.destination); } else { ScheduleFlush(message.destination); }
    }

    method AddMessage(destination: string, size: nat, priority: int, urgent: bool, now: int) returns (id: nat)
      requires Valid()
      modifies this
      ensures Valid() && id == old(nextId) && nextId == id + 1
      ensures State() == Added(options, old(State()),
                               Message(id, destination, size, Clamp(options, priority), now, urgent), now)
      ensures !urgent ==> (Queue(State().batcher, destination) == [] <==>
                old(ReachesLimit(options, Queue(State().batcher, destination),
                                 Message(nextId, destination, size, Clamp(options, priority), now, urgent), now)))
      ensures old(TableIsCurrent()) ==> TableIsCurrent()
    {
      id := nextId;
      nextId := nextId + 1;
      var message := Message(id, destination, size, Clamp(options, priority), now, urgent);
      assert QueueInv(options, State().batcher, destination);
      FlushesIffLimit(options, State().batcher, message, now);
      EnqueueWaits(State().batcher, message);
      StepKeepsInv(options, State().batcher, AddOne(message, now));
      if TableIsCurrent() { AddKeepsTable(options, State(), message, now); }
      AddedBatcher(options, State(), message, now);
      Accept(message, now);
    }

    method FlushDestination(destination: string)
      requires Valid()
      modifies this`queues, this`emitted, this`batchTimers, this`live
      ensures Valid() && State() == Flushed(old(State()), destination)
      ensures old(TableIsCurrent()) ==> TableIsCurrent()
    {
      FlushKeepsInv(options, State().batcher, destination);
      if TableIsCurrent() { FlushKeepsTable(options, State(), destination); }
      EmitBatch(destination);
    }

    /** The callback of a timer set by `scheduleFlush`. */
    method TimerCallback(destination: string)
      requires Valid() && destination in live
      modifies this`queues, this`emitted, this`batchTimers, this`live
      ensures Valid() && State() == FlushTimers.Step(options, old(State()), TimerFires(destination))
      ensures old(TableIsCurrent() && Queue(State().batcher, destination) != []) ==> TableIsCurrent()
    {
      FlushKeepsInv(options, State().batcher, destination);
      if TableIsCurrent() && Queue(State().batcher, destination) != [] {
        StepKeepsTable(options, State(), TimerFires(destination));
      }
      live := live - {destination};
      EmitBatch(destination);
    }

    /** `flushAll` leaves nothing pending. */
    method FlushAll()
      requires Valid()
      modifies this`queues, this`emitted, this`batchTimers, this`live
      ensures Valid() && State() == FlushedEach(old(State()), destinations)
      ensures forall d :: Queue(State().batcher, d) == []
      ensures old(TableIsCurrent()) ==> TableIsCurrent()
    {
      FlushEachKeepsInv(options, State().batcher, destinations);
      FlushEachKeepsTable(options, State(), destinations);
      EmitEach();
      forall d ensures Queue(State().batcher, d) == [] { FlushEachQueue(old(State()).batcher, destinations, d); }
    }

    method EmitEach()
      requires KeysListed() && live <= batchTimers
      modifies this`queues, this`emitted, this`batchTimers, this`live
      ensures KeysListed() && live <= batchTimers && State() == FlushedEach(old(State()), destinations)
    {
      for i := 0 to |destinations|
        invariant KeysListed() && live <= batchTimers && State() == FlushedEach(old(State()), destinations[..i])
      {
        EmitBatch(destinations[i]);
        assert destinations[..i + 1][..i] == destinations[..i];
      }
      assert destinations[..|destinations|] == destinations;
    }

    /** `flushByPriority` leaves pending exactly the messages below the given priority. */
    method FlushByPriority(minPriority: int)
      requires Valid()
      modifies this`queues, this`emitted
      ensures Valid()
      ensures State().batcher == FlushEachAbove(old(State()).batcher, destinations, minPriority)
      ensures forall d :: Queue(State().batcher, d) == Filter(Queue(old(State()).batcher, d), Below(minPriority))
      ensures old(TableIsCurrent()) ==> TableIsCurrent()
    {
      FlushEachAboveKeepsInv(options, State().batcher, destinations, minPriority);
      if TableIsCurrent() { FlushEachAboveKeepsTable(options, State(), destinations, minPriority); }
      EmitEachAbove(minPriority);
      forall d ensures Queue(State().batcher, d) == Filter(Queue(old(State()).batcher, d), Below(minPriority)) {
        FlushEachAboveQueue(old(State()).batcher, destinations, minPriority, d);
      }
    }

    method EmitEachAbove(minPriority: int)
      requires KeysListed()
      modifies this`queues, this`emitted
      ensures KeysListed() && State().batcher == FlushEachAbove(old(State()).batcher, destinations, minPriority)
    {
      for i := 0 to |destinations|
        invariant KeysListed()
        invariant State().batcher == FlushEachAbove(old(State()).batcher, destinations[..i], minPriority)
      {
        EmitAbove(destinations[i], minPriority);
        assert destinations[..i + 1][..i] == destinations[..i];
      }
      assert destinations[..|destinations|] == destinations;
    }

    method EmitAbove(destination: string, minPriority: int)
      requires KeysListed() && destination in queues
      modifies this`queues, this`emitted
      ensures KeysListed() && State().batcher == Batches.FlushAbove(old(State()).batcher, destination, minPriority)
    {
      var highPriority := Filter(queues[destination], AtLeast(minPriority));
      if |highPriority| > 0 {
        queues := queues[destination := Filter(queues[destination], Below(minPriority))];
        emitted := emitted + highPriority;
      }
    }
  }
}
