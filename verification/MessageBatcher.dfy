/** Per-destination priority queues that are flushed as batches.  A channel is one destination at one
    priority: along each channel nothing is lost, duplicated or reordered. */
module MessageBatcher {
  import opened StableSort

  /** `id` stands for the generated message id and is unique. */
  datatype Message = Message(id: nat, destination: string, size: nat, priority: int, timestamp: int, urgent: bool)
  datatype Options = Options(maxBatchSize: nat, maxBatchSizeBytes: nat, maxBatchAge: nat, priorityLevels: nat)

  /** The pending queues; every message emitted in a batch, in order; every message ever added. */
  datatype Batcher = Batcher(queues: map<string, seq<Message>>, emitted: seq<Message>, added: seq<Message>)

  const Fresh := Batcher(map[], [], [])

  /** The constructor replaces 0 by a default. */
  ghost predicate Sound(o: Options) { o.maxBatchSize >= 1 && o.maxBatchSizeBytes >= 1 && o.maxBatchAge >= 1 }

  function HighestFirst(): Message -> int { (m: Message) => -m.priority }
  function AtLeast(p: int): Message -> bool { (m: Message) => m.priority >= p }
  function Below(p: int): Message -> bool { (m: Message) => m.priority < p }
  function On(d: string, p: int): Message -> bool {
    (m: Message) => m.destination == d && m.priority == p && !m.urgent
  }
  function Urgent(): Message -> bool { (m: Message) => m.urgent }

  function Queue(b: Batcher, d: string): seq<Message> { if d in b.queues then b.queues[d] else [] }

  function Bytes(queue: seq<Message>): nat {
    if queue == [] then 0 else Bytes(queue[..|queue| - 1]) + queue[|queue| - 1].size
  }

  predicate ShouldFlush(o: Options, queue: seq<Message>, now: int) {
    queue != []
    && (|queue| >= o.maxBatchSize || Bytes(queue) >= o.maxBatchSizeBytes
        || now - queue[|queue| - 1].timestamp >= o.maxBatchAge)
  }

  function Clamp(o: Options, priority: int): (p: int)
    ensures p >= 1 && (o.priorityLevels >= 1 ==> p <= o.priorityLevels)
    ensures 1 <= priority <= o.priorityLevels ==> p == priority
    ensures priority > o.priorityLevels >= 1 ==> p == o.priorityLevels
    ensures priority < 1 || o.priorityLevels < 1 ==> p == 1
  {
    var capped := if priority < o.priorityLevels then priority else o.priorityLevels;
    if capped < 1 then 1 else capped
  }

  // ---- Operations -----------------------------------------------------------------------------------

  function Flush(b: Batcher, d: string): Batcher {
    if Queue(b, d) == [] then b
    else b.(queues := b.queues[d := []], emitted := b.emitted + Queue(b, d))
  }

  function FlushAbove(b: Batcher, d: string, minPriority: int): Batcher {
    var high := Filter(Queue(b, d), AtLeast(minPriority));
    if high == [] then b
    else b.(queues := b.queues[d := Filter(Queue(b, d), Below(minPriority))], emitted := b.emitted + high)
  }

  function Enqueue(b: Batcher, m: Message): Batcher {
    b.(queues := b.queues[m.destination := Sort(Queue(b, m.destination) + [m], HighestFirst())],
       added := b.added + [m])
  }

  /** `addMessage` with the clamped message. */
  function Add(o: Options, b: Batcher, m: Message, now: int): Batcher {
    if m.urgent then b.(emitted := b.emitted + [m], added := b.added + [m])
    else
      var b' := Enqueue(b, m);
      if ShouldFlush(o, Queue(b', m.destination), now) then Flush(b', m.destination) else b'
  }

  // ---- Invariant ------------------------------------------------------------------------------------

  ghost predicate QueueInv(o: Options, b: Batcher, d: string) {
    var q := Queue(b, d);
    && Sorted(q, HighestFirst())
    && (forall m :: m in q ==> m.destination == d && !m.urgent)
    && |q| < o.maxBatchSize && Bytes(q) < o.maxBatchSizeBytes
  }

  /** Along every channel: emitted, then pending, is exactly what was added, in order. */
  ghost predicate ChannelInv(b: Batcher, d: string, p: int) {
    Filter(b.emitted, On(d, p)) + Filter(Queue(b, d), On(d, p)) == Filter(b.added, On(d, p))
  }

  ghost predicate Inv(o: Options, b: Batcher) {
    && (forall d :: QueueInv(o, b, d))
    && (forall d, p :: ChannelInv(b, d, p))
    && Filter(b.emitted, Urgent()) == Filter(b.added, Urgent())
  }

  lemma SortChannel(q: seq<Message>, d: string, p: int)
    ensures Filter(Sort(q, HighestFirst()), On(d, p)) == Filter(q, On(d, p))
  {
    var channel := Filter(q, On(d, p));
    FilterSort(q, On(d, p), HighestFirst());
    forall m | m in channel ensures HighestFirst()(m) == -p { FilterIn(q, On(d, p), m); }
    assert Sorted(channel, HighestFirst());
    SortUnique(channel, channel, HighestFirst());
  }

  lemma ElsewhereSilent(q: seq<Message>, d: string, d': string, p: int)
    requires d != d' && forall m :: m in q ==> m.destination == d
    ensures Filter(q, On(d', p)) == []
  {
    FilterNone(q, On(d', p));
  }

  lemma OneChannel(m: Message, d: string, p: int)
    ensures Filter([m], On(d, p)) == if m.destination == d && m.priority == p && !m.urgent then [m] else []
  {
  }

  lemma EnqueuedQueue(b: Batcher, m: Message, d: string, p: int)
    ensures Filter(Queue(Enqueue(b, m), d), On(d, p)) == Filter(Queue(b, d), On(d, p)) + Filter([m], On(d, p))
  {
    if d == m.destination {
      SortChannel(Queue(b, d) + [m], d, p);
      FilterAppend(Queue(b, d), [m], On(d, p));
    } else {
      OneChannel(m, d, p);
    }
  }

  lemma EnqueueChannels(b: Batcher, m: Message, d: string, p: int)
    requires ChannelInv(b, d, p)
    ensures ChannelInv(Enqueue(b, m), d, p)
  {
    FilterAppend(b.added, [m], On(d, p));
    EnqueuedQueue(b, m, d, p);
  }

  /** Emitting `batch` and keeping `rest` of a queue keeps its channels if it splits each of them. */
  lemma EmitKeepsChannel(b: Batcher, b': Batcher, batch: seq<Message>, d: string, p: int)
    requires ChannelInv(b, d, p) && b'.added == b.added && b'.emitted == b.emitted + batch
    requires Filter(batch, On(d, p)) + Filter(Queue(b', d), On(d, p)) == Filter(Queue(b, d), On(d, p))
    ensures ChannelInv(b', d, p)
  {
    FilterAppend(b.emitted, batch, On(d, p));
  }

  lemma FlushChannels(b: Batcher, d: string, d': string, p: int)
    requires ChannelInv(b, d', p) && forall m :: m in Queue(b, d) ==> m.destination == d
    ensures ChannelInv(Flush(b, d), d', p)
  {
    if Queue(b, d) != [] {
      if d != d' { ElsewhereSilent(Queue(b, d), d, d', p); }
      EmitKeepsChannel(b, Flush(b, d), Queue(b, d), d', p);
    }
  }

  lemma {:induction false} SplitChannel(q: seq<Message>, d: string, p: int, min: int)
    ensures Filter(Filter(q, AtLeast(min)), On(d, p)) == if p >= min then Filter(q, On(d, p)) else []
    ensures Filter(Filter(q, Below(min)), On(d, p)) == if p >= min then [] else Filter(q, On(d, p))
  {
    if q != [] { SplitChannel(q[1..], d, p, min); }
  }

  lemma FlushAboveChannels(b: Batcher, d: string, min: int, d': string, p: int)
    requires ChannelInv(b, d', p) && forall m :: m in Queue(b, d) ==> m.destination == d
    ensures ChannelInv(FlushAbove(b, d, min), d', p)
  {
    var q := Queue(b, d);
    var high := Filter(q, AtLeast(min));
    if high != [] {
      SplitChannel(q, d', p, min);
      if d != d' { ElsewhereSilent(q, d, d', p); }
      EmitKeepsChannel(b, FlushAbove(b, d, min), high, d', p);
    }
  }

  lemma {:induction false} NoneHigh(q: seq<Message>, min: int)
    requires Filter(q, AtLeast(min)) == []
    ensures Filter(q, Below(min)) == q
  {
    if q != [] { NoneHigh(q[1..], min); }
  }

  lemma FlushAboveQueue(b: Batcher, d: string, min: int, d': string)
    ensures Queue(FlushAbove(b, d, min), d') == if d' == d then Filter(Queue(b, d), Below(min)) else Queue(b, d')
  {
    if Filter(Queue(b, d), AtLeast(min)) == [] { NoneHigh(Queue(b, d), min); }
  }

  /** `flushAll` over the given destinations. */
  function FlushEach(b: Batcher, destinations: seq<string>): Batcher {
    if destinations == [] then b
    else Flush(FlushEach(b, destinations[..|destinations| - 1]), destinations[|destinations| - 1])
  }

  lemma {:induction false} FlushEachQueue(b: Batcher, destinations: seq<string>, d: string)
    ensures Queue(FlushEach(b, destinations), d) == if d in destinations then [] else Queue(b, d)
  {
    if destinations != [] {
      assert destinations == destinations[..|destinations| - 1] + [destinations[|destinations| - 1]];
      FlushEachQueue(b, destinations[..|destinations| - 1], d);
    }
  }

  /** `flushByPriority` over the given destinations. */
  function FlushEachAbove(b: Batcher, destinations: seq<string>, min: int): Batcher {
    if destinations == [] then b
    else FlushAbove(FlushEachAbove(b, destinations[..|destinations| - 1], min), destinations[|destinations| - 1], min)
  }

  lemma {:induction false} BelowTwice(q: seq<Message>, min: int)
    ensures Filter(Filter(q, Below(min)), Below(min)) == Filter(q, Below(min))
  {
    if q != [] { BelowTwice(q[1..], min); }
  }

  lemma {:induction false} FlushEachAboveQueue(b: Batcher, destinations: seq<string>, min: int, d: string)
    ensures Queue(FlushEachAbove(b, destinations, min), d)
            == if d in destinations then Filter(Queue(b, d), Below(min)) else Queue(b, d)
  {
    if destinations != [] {
      var front, last := destinations[..|destinations| - 1], destinations[|destinations| - 1];
      assert destinations == front + [last];
      FlushEachAboveQueue(b, front, min, d);
      FlushAboveQueue(FlushEachAbove(b, front, min), last, min, d);
      BelowTwice(Queue(b, d), min);
    }
  }

  // ---- Queue limits ---------------------------------------------------------------------------------

  lemma {:induction false} FilterShrinks(q: seq<Message>, p: Message -> bool)
    ensures |Filter(q, p)| <= |q| && Bytes(Filter(q, p)) <= Bytes(q)
  {
    if q != [] {
      var front, last := q[..|q| - 1], q[|q| - 1];
      FilterShrinks(front, p);
      assert q == front + [last];
      FilterAppend(front, [last], p);
      var f := Filter(front, p);
      assert (f + [last])[..|f|] == f;
      assert Filter(q, p) == if p(last) then f + [last] else f;
    }
  }

  lemma FlushKeepsInv(o: Options, b: Batcher, d: string)
    requires Sound(o) && Inv(o, b)
    ensures Inv(o, Flush(b, d))
  {
    assert QueueInv(o, b, d);
    FlushFromFull(o, b, d);
  }

  /** Flushing a queue repairs its limits: only the other queues need to be within theirs. */
  lemma FlushFromFull(o: Options, b: Batcher, d: string)
    requires Sound(o) && (forall d' :: d' != d ==> QueueInv(o, b, d'))
    requires forall m :: m in Queue(b, d) ==> m.destination == d && !m.urgent
    requires forall d', p :: ChannelInv(b, d', p)
    requires Filter(b.emitted, Urgent()) == Filter(b.added, Urgent())
    ensures Inv(o, Flush(b, d))
  {
    var b' := Flush(b, d);
    forall d', p ensures ChannelInv(b', d', p) { FlushChannels(b, d, d', p); }
    forall d' ensures QueueInv(o, b', d') {
      if d' != d {
        assert QueueInv(o, b, d');
        assert Queue(b', d') == Queue(b, d');
      }
    }
    FilterAppend(b.emitted, Queue(b, d), Urgent());
    FilterNone(Queue(b, d), Urgent());
  }

  lemma FlushAboveKeepsInv(o: Options, b: Batcher, d: string, min: int)
    requires Sound(o) && Inv(o, b)
    ensures Inv(o, FlushAbove(b, d, min))
  {
    var b', q := FlushAbove(b, d, min), Queue(b, d);
    assert QueueInv(o, b, d);
    forall d', p ensures ChannelInv(b', d', p) { FlushAboveChannels(b, d, min, d', p); }
    forall d' ensures QueueInv(o, b', d') {
      assert QueueInv(o, b, d');
      if d' == d {
        FilterSorted(q, Below(min), HighestFirst());
        FilterShrinks(q, Below(min));
        forall m | m in Filter(q, Below(min)) ensures m in q { FilterIn(q, Below(min), m); }
      } else {
        assert Queue(b', d') == Queue(b, d');
      }
    }
    var high := Filter(q, AtLeast(min));
    FilterAppend(b.emitted, high, Urgent());
    forall m | m in high ensures !m.urgent { FilterIn(q, AtLeast(min), m); }
    FilterNone(high, Urgent());
  }

  lemma {:induction false} FlushEachKeepsInv(o: Options, b: Batcher, destinations: seq<string>)
    requires Sound(o) && Inv(o, b)
    ensures Inv(o, FlushEach(b, destinations))
  {
    if destinations != [] {
      var front := destinations[..|destinations| - 1];
      FlushEachKeepsInv(o, b, front);
      FlushKeepsInv(o, FlushEach(b, front), destinations[|destinations| - 1]);
    }
  }

  lemma {:induction false} FlushEachAboveKeepsInv(o: Options, b: Batcher, destinations: seq<string>, min: int)
    requires Sound(o) && Inv(o, b)
    ensures Inv(o, FlushEachAbove(b, destinations, min))
  {
    if destinations != [] {
      var front := destinations[..|destinations| - 1];
      FlushEachAboveKeepsInv(o, b, front, min);
      FlushAboveKeepsInv(o, FlushEachAbove(b, front, min), destinations[|destinations| - 1], min);
    }
  }

  lemma AddUrgentKeepsInv(o: Options, b: Batcher, m: Message, now: int)
    requires Inv(o, b) && m.urgent
    ensures Inv(o, Add(o, b, m, now))
  {
    var b' := Add(o, b, m, now);
    forall d ensures QueueInv(o, b', d) {
      assert QueueInv(o, b, d);
      assert Queue(b', d) == Queue(b, d);
    }
    forall d, p ensures ChannelInv(b', d, p) {
      assert ChannelInv(b, d, p);
      FilterAppend(b.emitted, [m], On(d, p));
      FilterAppend(b.added, [m], On(d, p));
    }
    FilterAppend(b.emitted, [m], Urgent());
    FilterAppend(b.added, [m], Urgent());
  }

  lemma AddKeepsInv(o: Options, b: Batcher, m: Message, now: int)
    requires Sound(o) && Inv(o, b) && !m.urgent
    ensures Inv(o, Add(o, b, m, now))
  {
    var b', d := Enqueue(b, m), m.destination;
    var q := Queue(b, d) + [m];
    assert QueueInv(o, b, d);
    forall d', p ensures ChannelInv(b', d', p) { EnqueueChannels(b, m, d', p); }
    forall d' | d' != d ensures QueueInv(o, b', d') {
      assert QueueInv(o, b, d');
      assert Queue(b', d') == Queue(b, d');
    }
    forall x | x in Queue(b', d) ensures x.destination == d && !x.urgent { SortIn(q, HighestFirst(), x); }
    FilterAppend(b.added, [m], Urgent());
    if ShouldFlush(o, Queue(b', d), now) {
      FlushFromFull(o, b', d);
    } else {
      SortIsStable(q, HighestFirst(), 0);
      assert Queue(b', d) != [] by { SortIn(q, HighestFirst(), m); }
      assert QueueInv(o, b', d);
    }
  }

  // ---- Runs -----------------------------------------------------------------------------------------

  /** Timers, size triggers and `flushAll` all act through `FlushOne`. */
  datatype Action = AddOne(message: Message, now: int) | FlushOne(destination: string)
                  | FlushOneAbove(destination: string, minPriority: int)

  function Step(o: Options, b: Batcher, a: Action): Batcher {
    match a
    case AddOne(m, now) => Add(o, b, m, now)
    case FlushOne(d) => Flush(b, d)
    case FlushOneAbove(d, min) => FlushAbove(b, d, min)
  }

  function After(o: Options, run: seq<Action>): Batcher {
    if run == [] then Fresh else Step(o, After(o, run[..|run| - 1]), run[|run| - 1])
  }

  lemma StepKeepsInv(o: Options, b: Batcher, a: Action)
    requires Sound(o) && Inv(o, b)
    ensures Inv(o, Step(o, b, a))
  {
    match a
    case AddOne(m, now) => if m.urgent { AddUrgentKeepsInv(o, b, m, now); } else { AddKeepsInv(o, b, m, now); }
    case FlushOne(d) => FlushKeepsInv(o, b, d);
    case FlushOneAbove(d, min) => FlushAboveKeepsInv(o, b, d, min);
  }

  lemma FreshInv(o: Options)
    requires Sound(o)
    ensures Inv(o, Fresh)
  {
    forall d ensures QueueInv(o, Fresh, d) { assert Queue(Fresh, d) == []; }
    forall d, p ensures ChannelInv(Fresh, d, p) {
      var none := Filter([], On(d, p));
      assert none == [] && none + none == none;
    }
  }

  /** Over every run of adds and flushes: along each channel, what was emitted followed by what is
      pending is exactly what was added, in order; urgent messages are emitted in the order added;
      every queue is ordered by priority and strictly below both limits. */
  lemma {:induction false} RunKeepsInv(o: Options, run: seq<Action>)
    requires Sound(o)
    ensures Inv(o, After(o, run))
  {
    if run == [] {
      FreshInv(o);
    } else {
      var front, a := run[..|run| - 1], run[|run| - 1];
      RunKeepsInv(o, front);
      StepKeepsInv(o, After(o, front), a);
      assert After(o, run) == Step(o, After(o, front), a);
    }
  }

  lemma {:induction false} FilterCounts(s: seq<Message>, p: Message -> bool, m: Message)
    requires p(m)
    ensures multiset(Filter(s, p))[m] == multiset(s)[m]
  {
    if s != [] {
      assert s == [s[0]] + s[1..];
      FilterCounts(s[1..], p, m);
    }
  }

  /** Conservation: each message is emitted or pending as often as it was added. */
  lemma EmittedOrPending(o: Options, run: seq<Action>, m: Message)
    requires Sound(o)
    ensures var b := After(o, run);
            multiset(b.added)[m] == multiset(b.emitted)[m] + multiset(Queue(b, m.destination))[m]
  {
    RunKeepsInv(o, run);
    var b, q := After(o, run), Queue(After(o, run), m.destination);
    assert QueueInv(o, b, m.destination);
    if m.urgent {
      FilterCounts(b.emitted, Urgent(), m);
      FilterCounts(b.added, Urgent(), m);
      assert m !in q;
    } else {
      var channel := On(m.destination, m.priority);
      assert ChannelInv(b, m.destination, m.priority);
      FilterCounts(b.emitted, channel, m);
      FilterCounts(q, channel, m);
      FilterCounts(b.added, channel, m);
      assert multiset(Filter(b.added, channel)) == multiset(Filter(b.emitted, channel)) + multiset(Filter(q, channel));
    }
  }

  // ---- When an added message flushes its queue ------------------------------------------------------

  /** Every message counts with its own size, wherever it stands. */
  lemma {:induction false} BytesAppend(a: seq<Message>, b: seq<Message>)
    ensures Bytes(a + b) == Bytes(a) + Bytes(b)
  {
    if b == [] {
      assert a + b == a;
    } else {
      assert (a + b)[..|a + b| - 1] == a + b[..|b| - 1];
      BytesAppend(a, b[..|b| - 1]);
    }
  }

  lemma BytesOfOne(m: Message)
    ensures Bytes([m]) == m.size
  {
    assert [m][..0] == [];
  }

  lemma {:induction false} InsertBytes(q: seq<Message>, m: Message)
    ensures Bytes(Insert(q, m, HighestFirst())) == Bytes(q) + m.size && |Insert(q, m, HighestFirst())| == |q| + 1
  {
    BytesOfOne(m);
    if q == [] {
    } else if HighestFirst()(q[0]) <= HighestFirst()(m) {
      InsertBytes(q[1..], m);
      BytesAppend([q[0]], q[1..]);
      BytesAppend([q[0]], Insert(q[1..], m, HighestFirst()));
      assert q == [q[0]] + q[1..];
    } else {
      BytesAppend([m], q);
    }
  }

  /** Behind everything of the same priority or a higher one, so last unless something lower waits. */
  lemma {:induction false} InsertLast(q: seq<Message>, m: Message)
    requires Sorted(q, HighestFirst())
    ensures var r := Insert(q, m, HighestFirst());
            && r != []
            && r[|r| - 1] == if q == [] || q[|q| - 1].priority >= m.priority then m else q[|q| - 1]
  {
    if q != [] {
      assert HighestFirst()(q[0]) == -q[0].priority && HighestFirst()(q[|q| - 1]) == -q[|q| - 1].priority;
      assert |q| > 1 ==> HighestFirst()(q[0]) <= HighestFirst()(q[|q| - 1]);
      if HighestFirst()(q[0]) <= HighestFirst()(m) { InsertLast(q[1..], m); }
    }
  }

  lemma EnqueuedIsInserted(b: Batcher, m: Message)
    requires Sorted(Queue(b, m.destination), HighestFirst())
    ensures Queue(Enqueue(b, m), m.destination) == Insert(Queue(b, m.destination), m, HighestFirst())
  {
    var q := Queue(b, m.destination);
    assert (q + [m])[..|q|] == q;
    SortUnique(q, q, HighestFirst());
  }

  /** The limits a new message brings its queue to.  The message whose age counts is the last of the
      queue: the new one itself, unless its priority is higher than that of the last one waiting. */
  ghost predicate ReachesLimit(o: Options, q: seq<Message>, m: Message, now: int) {
    || |q| + 1 >= o.maxBatchSize
    || Bytes(q) + m.size >= o.maxBatchSizeBytes
    || (q != [] && q[|q| - 1].priority < m.priority && now - q[|q| - 1].timestamp >= o.maxBatchAge)
  }

  lemma FlushesIffLimit(o: Options, b: Batcher, m: Message, now: int)
    requires Sound(o) && Sorted(Queue(b, m.destination), HighestFirst()) && m.timestamp == now
    ensures ShouldFlush(o, Queue(Enqueue(b, m), m.destination), now)
      <==> ReachesLimit(o, Queue(b, m.destination), m, now)
  {
    var q := Queue(b, m.destination);
    EnqueuedIsInserted(b, m);
    InsertBytes(q, m);
    InsertLast(q, m);
  }

  /** Whatever waits is in order of descending priority. */
  lemma WaitsByPriority(o: Options, run: seq<Action>, d: string)
    requires Sound(o)
    ensures var q := Queue(After(o, run), d);
            Sorted(q, HighestFirst()) && forall i, j :: 0 <= i < j < |q| ==> q[i].priority >= q[j].priority
  {
    RunKeepsInv(o, run);
    var q := Queue(After(o, run), d);
    assert QueueInv(o, After(o, run), d);
    forall i, j | 0 <= i < j < |q| ensures q[i].priority >= q[j].priority {
      assert HighestFirst()(q[i]) <= HighestFirst()(q[j]);
    }
  }

  lemma EnqueuedMessages(b: Batcher, m: Message)
    requires Sorted(Queue(b, m.destination), HighestFirst())
    ensures var q := Queue(Enqueue(b, m), m.destination);
            q != [] && multiset(q) == multiset(Queue(b, m.destination)) + multiset{m}
  {
    EnqueuedIsInserted(b, m);
    InsertPermutes(Queue(b, m.destination), m, HighestFirst());
    InsertLast(Queue(b, m.destination), m);
  }

  /** What an added message does to its queue and to what has been emitted. */
  ghost predicate FlushesAtLimit(o: Options, b: Batcher, b': Batcher, m: Message) {
    var q, q' := Queue(b, m.destination), Queue(b', m.destination);
    if ReachesLimit(o, q, m, m.timestamp)
    then q' == [] && multiset(b'.emitted) == multiset(b.emitted) + multiset(q) + multiset{m}
    else b'.emitted == b.emitted && multiset(q') == multiset(q) + multiset{m}
  }

  lemma AddEffect(o: Options, b: Batcher, m: Message)
    requires Sound(o) && !m.urgent && Sorted(Queue(b, m.destination), HighestFirst())
    ensures FlushesAtLimit(o, b, Add(o, b, m, m.timestamp), m)
  {
    FlushesIffLimit(o, b, m, m.timestamp);
    EnqueuedMessages(b, m);
  }

  /** Over every run: a message just made is emitted together with everything that waits for its
      destination exactly when it brings the queue to a limit; otherwise all of that waits. */
  lemma AddFlushesIff(o: Options, run: seq<Action>, m: Message)
    requires Sound(o) && !m.urgent
    ensures FlushesAtLimit(o, After(o, run), After(o, run + [AddOne(m, m.timestamp)]), m)
  {
    assert (run + [AddOne(m, m.timestamp)])[..|run|] == run;
    WaitsByPriority(o, run, m.destination);
    AddEffect(o, After(o, run), m);
  }

  // ---- The age limit --------------------------------------------------------------------------------

  ghost predicate AllYoung(o: Options, q: seq<Message>, now: int) {
    forall m :: m in q ==> now - m.timestamp < o.maxBatchAge
  }

  /** The check is meant for the oldest message of a queue.  An added message leaves none waiting that is
      too old exactly when it brings the queue to a limit, or none was waiting. */
  lemma AgeLimitIff(o: Options, run: seq<Action>, m: Message)
    requires Sound(o) && !m.urgent
    ensures var q := Queue(After(o, run), m.destination);
            var q' := Queue(After(o, run + [AddOne(m, m.timestamp)]), m.destination);
            AllYoung(o, q', m.timestamp) <==> ReachesLimit(o, q, m, m.timestamp) || AllYoung(o, q, m.timestamp)
  {
    AddFlushesIff(o, run, m);
    var q := Queue(After(o, run), m.destination);
    var q' := Queue(After(o, run + [AddOne(m, m.timestamp)]), m.destination);
    if !ReachesLimit(o, q, m, m.timestamp) {
      assert forall x :: x in q' <==> x in multiset(q');
      assert forall x :: x in q' <==> x in q || x == m;
    }
  }

  /** Two messages of one priority are enough: the age of the second is looked at, not that of the first. */
  lemma OldMessageWaits(o: Options)
    requires Sound(o) && o.maxBatchSize >= 3
    ensures var first, second := Message(0, "d", 0, 1, 0, false), Message(1, "d", 0, 1, o.maxBatchAge, false);
            var q := Queue(After(o, [AddOne(first, 0)] + [AddOne(second, o.maxBatchAge)]), "d");
            first in q && o.maxBatchAge - first.timestamp >= o.maxBatchAge
  {
    var first, second := Message(0, "d", 0, 1, 0, false), Message(1, "d", 0, 1, o.maxBatchAge, false);
    assert [] + [AddOne(first, 0)] == [AddOne(first, 0)];
    AddFlushesIff(o, [], first);
    var q := Queue(After(o, [AddOne(first, 0)]), "d");
    assert multiset(q) == multiset{first};
    assert |q| == |multiset(q)| == 1 && q[0] in multiset(q);
    BytesOfOne(first);
    assert q == [first];
    AddFlushesIff(o, [AddOne(first, 0)], second);
    var q' := Queue(After(o, [AddOne(first, 0)] + [AddOne(second, o.maxBatchAge)]), "d");
    assert first in multiset(q');
  }
}
