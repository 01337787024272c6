/** The write-ahead log of the event bus: what `compact` keeps and what `replayStream` yields.
    The streaming bucket loop is proved against `Compacted`, and `Compacted` against the plain
    statement "the N highest versions of every type, in ascending version order". */
module EventLog {
  import opened StableSort

  datatype BusEvent = BusEvent(
    id: string, eventType: string, payload: string, timestamp: int, sourceNodeId: string, version: int)

  /** A log line: one the bus wrote (`metadata._eventBus === true`), or somebody else's. */
  datatype WalEntry = FromBus(event: BusEvent) | Foreign(line: string)

  /** The bus's own events in a log, in file order. */
  function Events(wal: seq<WalEntry>): seq<BusEvent> {
    if wal == [] then []
    else
      var rest := Events(wal[..|wal| - 1]);
      match wal[|wal| - 1] case FromBus(e) => rest + [e] case Foreign(_) => rest
  }

  // ---- The bus's own lines ----------------------------------------------------------------------

  /** `es` are the events of the wanted lines, all of them, in file order: `at` says where each stands. */
  ghost predicate PickedAt(wal: seq<WalEntry>, wanted: WalEntry -> bool, es: seq<BusEvent>, at: seq<int>) {
    && |at| == |es|
    && (forall k :: 0 <= k < |at| ==> 0 <= at[k] < |wal| && wal[at[k]] == FromBus(es[k]))
    && (forall k, l :: 0 <= k < l < |at| ==> at[k] < at[l])
    && forall i :: 0 <= i < |wal| ==> (wanted(wal[i]) <==> i in at)
  }

  ghost predicate Picked(wal: seq<WalEntry>, wanted: WalEntry -> bool, es: seq<BusEvent>) {
    exists at :: PickedAt(wal, wanted, es, at)
  }

  /** The lines the bus wrote, and those of them from version `v` on. */
  function IsBusLine(): WalEntry -> bool { (line: WalEntry) => line.FromBus? }
  function IsBusLineFrom(v: int): WalEntry -> bool { (line: WalEntry) => line.FromBus? && line.event.version >= v }

  ghost function BusLines(wal: seq<WalEntry>): set<int> { set i | 0 <= i < |wal| && wal[i].FromBus? }

  lemma PickedNext(wal: seq<WalEntry>, wanted: WalEntry -> bool, es: seq<BusEvent>, at: seq<int>, e: BusEvent)
    requires PickedAt(wal, wanted, es, at) && wanted(FromBus(e))
    ensures PickedAt(wal + [FromBus(e)], wanted, es + [e], at + [|wal|])
  {
    var longer, at' := wal + [FromBus(e)], at + [|wal|];
    assert forall i :: i in at' <==> i in at || i == |wal|;
    forall i | 0 <= i < |longer| ensures wanted(longer[i]) <==> i in at' {
      if i < |wal| { assert longer[i] == wal[i]; }
    }
  }

  lemma PickedSkip(wal: seq<WalEntry>, wanted: WalEntry -> bool, es: seq<BusEvent>, at: seq<int>, line: WalEntry)
    requires PickedAt(wal, wanted, es, at) && !wanted(line)
    ensures PickedAt(wal + [line], wanted, es, at)
  {
    var longer := wal + [line];
    assert |wal| !in at;
    forall i | 0 <= i < |longer| ensures wanted(longer[i]) <==> i in at {
      if i < |wal| { assert longer[i] == wal[i]; }
    }
  }

  lemma PickedMore(wal: seq<WalEntry>, wanted: WalEntry -> bool, es: seq<BusEvent>, line: WalEntry)
    requires Picked(wal, wanted, es) && (wanted(line) ==> line.FromBus?)
    ensures Picked(wal + [line], wanted, es + if wanted(line) then [line.event] else [])
  {
    var at :| PickedAt(wal, wanted, es, at);
    if wanted(line) {
      PickedNext(wal, wanted, es, at, line.event);
    } else {
      PickedSkip(wal, wanted, es, at, line);
      assert es + [] == es;
    }
  }

  lemma NothingPicked(wanted: WalEntry -> bool)
    ensures Picked([], wanted, [])
  {
    assert PickedAt([], wanted, [], []);
  }

  /** `Events` picks exactly the lines the bus wrote, in file order. */
  lemma {:induction false} EventsPicked(wal: seq<WalEntry>)
    ensures Picked(wal, IsBusLine(), Events(wal))
  {
    if wal == [] {
      NothingPicked(IsBusLine());
    } else {
      var front, line := wal[..|wal| - 1], wal[|wal| - 1];
      assert wal == front + [line];
      EventsPicked(front);
      PickedMore(front, IsBusLine(), Events(front), line);
      assert Events(wal) == Events(front) + if IsBusLine()(line) then [line.event] else [];
    }
  }

  lemma {:induction false} EventsIn(wal: seq<WalEntry>, e: BusEvent)
    ensures e in Events(wal) <==> FromBus(e) in wal
  {
    if wal != [] {
      EventsIn(wal[..|wal| - 1], e);
      assert wal == wal[..|wal| - 1] + [wal[|wal| - 1]];
    }
  }

  lemma {:induction false} EventsCount(wal: seq<WalEntry>)
    ensures |Events(wal)| == |BusLines(wal)|
  {
    if wal != [] {
      var last := |wal| - 1;
      EventsCount(wal[..last]);
      var before := BusLines(wal[..last]);
      assert BusLines(wal) == if wal[last].FromBus? then before + {last} else before;
    }
  }

  // ---- Events by type ---------------------------------------------------------------------------

  function OfType(es: seq<BusEvent>, t: string): seq<BusEvent> {
    if es == [] then []
    else
      var rest := OfType(es[..|es| - 1], t);
      if es[|es| - 1].eventType == t then rest + [es[|es| - 1]] else rest
  }

  /** Event types in order of first appearance: the iteration order of the bucket map. */
  function Types(es: seq<BusEvent>): seq<string> {
    if es == [] then []
    else
      var rest := Types(es[..|es| - 1]);
      if es[|es| - 1].eventType in rest then rest else rest + [es[|es| - 1].eventType]
  }

  function Version(): BusEvent -> int { (e: BusEvent) => e.version }

  ghost predicate Ascending(es: seq<BusEvent>) {
    forall i, j :: 0 <= i < j < |es| ==> es[i].version < es[j].version
  }

  ghost predicate DistinctVersions(es: seq<BusEvent>) {
    forall i, j :: 0 <= i < j < |es| ==> es[i].version != es[j].version
  }

  // ---- Buckets ----------------------------------------------------------------------------------

  /** How many leading events of an ordered bucket have a version below `v`. */
  function LowerBound(b: seq<BusEvent>, v: int): (k: nat)
    ensures k <= |b|
  {
    if b == [] || b[0].version >= v then 0 else 1 + LowerBound(b[1..], v)
  }

  function Place(b: seq<BusEvent>, e: BusEvent): seq<BusEvent> {
    b[..LowerBound(b, e.version)] + [e] + b[LowerBound(b, e.version)..]
  }

  /** All events put into an ordered list one by one: the bucket that is never trimmed. */
  function Ranked(es: seq<BusEvent>): seq<BusEvent> {
    if es == [] then [] else Place(Ranked(es[..|es| - 1]), es[|es| - 1])
  }

  function Last(s: seq<BusEvent>, n: nat): seq<BusEvent> {
    if |s| <= n then s else s[|s| - n..]
  }

  lemma {:induction false} LowerBoundUnique(b: seq<BusEvent>, v: int, k: nat)
    requires k <= |b|
    requires forall i :: 0 <= i < k ==> b[i].version < v
    requires forall i :: k <= i < |b| ==> b[i].version >= v
    ensures LowerBound(b, v) == k
  {
    if k > 0 { LowerBoundUnique(b[1..], v, k - 1); }
  }

  lemma {:induction false} LowerBoundSplits(b: seq<BusEvent>, v: int)
    requires Sorted(b, Version())
    ensures forall i :: 0 <= i < LowerBound(b, v) ==> b[i].version < v
    ensures forall i :: LowerBound(b, v) <= i < |b| ==> b[i].version >= v
  {
    if b != [] {
      LowerBoundSplits(b[1..], v);
      assert forall i :: 0 < i < |b| ==> b[i] == b[1..][i - 1];
      assert Version()(b[0]) == b[0].version;
      forall i | 0 < i < |b| ensures b[0].version <= b[i].version {
        assert Version()(b[0]) <= Version()(b[i]);
      }
    }
  }

  lemma PlaceSorted(b: seq<BusEvent>, e: BusEvent)
    requires Sorted(b, Version())
    ensures Sorted(Place(b, e), Version())
  {
    var k := LowerBound(b, e.version);
    LowerBoundSplits(b, e.version);
    forall i, j | 0 <= i < j < |Place(b, e)|
      ensures Version()(Place(b, e)[i]) <= Version()(Place(b, e)[j])
    {
      var i' := if i < k then i else i - 1;
      var j' := if j < k then j else j - 1;
      if i != k && j != k { assert Version()(b[i']) <= Version()(b[j']); }
    }
  }

  lemma {:induction false} RankedSorted(es: seq<BusEvent>)
    ensures Sorted(Ranked(es), Version())
  {
    if es != [] {
      RankedSorted(es[..|es| - 1]);
      PlaceSorted(Ranked(es[..|es| - 1]), es[|es| - 1]);
    }
  }

  lemma PlaceIn(b: seq<BusEvent>, e: BusEvent, x: BusEvent)
    ensures |Place(b, e)| == |b| + 1
    ensures x in Place(b, e) <==> x in b || x == e
  {
    var k := LowerBound(b, e.version);
    assert b == b[..k] + b[k..];
  }

  lemma {:induction false} RankedIn(es: seq<BusEvent>, x: BusEvent)
    ensures |Ranked(es)| == |es|
    ensures x in Ranked(es) <==> x in es
  {
    if es != [] {
      var front, last := es[..|es| - 1], es[|es| - 1];
      RankedIn(front, x);
      PlaceIn(Ranked(front), last, x);
      assert x in es <==> x in front || x == last;
    }
  }

  lemma LowerBoundShifts(s: seq<BusEvent>, v: int, cut: nat)
    requires Sorted(s, Version()) && cut <= LowerBound(s, v)
    ensures LowerBound(s[cut..], v) == LowerBound(s, v) - cut
  {
    LowerBoundSplits(s, v);
    LowerBoundUnique(s[cut..], v, LowerBound(s, v) - cut);
  }

  lemma SpliceShifts(s: seq<BusEvent>, e: BusEvent, k: nat, cut: nat)
    requires cut <= k <= |s|
    ensures s[cut..][..k - cut] + [e] + s[cut..][k - cut..] == (s[..k] + [e] + s[k..])[cut..]
  {
  }

  lemma PlaceShifts(s: seq<BusEvent>, e: BusEvent, cut: nat)
    requires Sorted(s, Version()) && cut <= LowerBound(s, e.version)
    ensures Place(s[cut..], e) == Place(s, e)[cut..]
  {
    LowerBoundShifts(s, e.version, cut);
    SpliceShifts(s, e, LowerBound(s, e.version), cut);
  }

  lemma PlaceBelow(s: seq<BusEvent>, e: BusEvent, cut: nat)
    requires LowerBound(s, e.version) <= cut <= |s|
    ensures Place(s, e)[cut + 1..] == s[cut..]
  {
  }

  lemma StepAtBound(s: seq<BusEvent>, e: BusEvent, n: nat)
    requires Sorted(s, Version()) && 1 <= n <= |s| && e.version > Last(s, n)[0].version
    ensures Last(Place(s, e), n) == Place(Last(s, n)[1..], e)
  {
    var cut := |s| - n;
    LowerBoundSplits(s, e.version);
    assert cut < LowerBound(s, e.version);
    PlaceShifts(s, e, cut + 1);
    assert Last(s, n)[1..] == s[cut + 1..];
  }

  lemma StepBelowBound(s: seq<BusEvent>, e: BusEvent, n: nat)
    requires Sorted(s, Version()) && 1 <= n <= |s| && e.version <= Last(s, n)[0].version
    ensures Last(Place(s, e), n) == Last(s, n)
  {
    LowerBoundSplits(s, e.version);
    assert LowerBound(s, e.version) <= |s| - n;
    PlaceBelow(s, e, |s| - n);
  }

  /** Trimming the bucket at every step loses nothing: one step of the bounded bucket is the
      suffix of one step of the unbounded one. */
  lemma BoundedStep(s: seq<BusEvent>, e: BusEvent, n: nat)
    requires Sorted(s, Version()) && n >= 1
    ensures |s| < n ==> Last(Place(s, e), n) == Place(Last(s, n), e)
    ensures |s| >= n && e.version > Last(s, n)[0].version
            ==> Last(Place(s, e), n) == Place(Last(s, n)[1..], e)
    ensures |s| >= n && e.version <= Last(s, n)[0].version
            ==> Last(Place(s, e), n) == Last(s, n)
  {
    if |s| >= n {
      if e.version > Last(s, n)[0].version { StepAtBound(s, e, n); } else { StepBelowBound(s, e, n); }
    }
  }

  /** The binary search of the insertion (`while (lo < hi)`). */
  method FindSlot(bucket: seq<BusEvent>, version: int) returns (lo: nat)
    requires Sorted(bucket, Version())
    ensures lo == LowerBound(bucket, version)
  {
    lo := 0;
    var hi := |bucket|;
    while lo < hi
      invariant 0 <= lo <= hi <= |bucket|
      invariant forall i :: 0 <= i < lo ==> Version()(bucket[i]) < version
      invariant forall i :: hi <= i < |bucket| ==> Version()(bucket[i]) >= version
    {
      var mid := (lo + hi) / 2;
      if bucket[mid].version < version { lo := mid + 1; } else { hi := mid; }
    }
    LowerBoundUnique(bucket, version, lo);
  }

  // ---- Compaction -------------------------------------------------------------------------------

  /** The bucket of type `t` once all of `es` has been streamed. */
  function Bucket(es: seq<BusEvent>, t: string, n: nat): seq<BusEvent> {
    Last(Ranked(OfType(es, t)), n)
  }

  /** The buckets of `types` one behind the other. */
  function Gather(types: seq<string>, es: seq<BusEvent>, n: nat): seq<BusEvent> {
    if types == [] then []
    else Gather(types[..|types| - 1], es, n) + Bucket(es, types[|types| - 1], n)
  }

  /** The events `compact` writes back. */
  function Compacted(es: seq<BusEvent>, keep: int): seq<BusEvent> {
    if keep <= 0 then [] else Sort(Gather(Types(es), es, keep), Version())
  }

  lemma {:induction false} TypesIn(es: seq<BusEvent>, t: string)
    ensures t in Types(es) <==> exists e :: e in es && e.eventType == t
  {
    if es != [] {
      TypesIn(es[..|es| - 1], t);
      var last := es[|es| - 1];
      assert last in es;
      if e :| e in es && e.eventType == t {
        assert e == last || e in es[..|es| - 1];
      }
      assert forall e :: e in es[..|es| - 1] ==> e in es;
    }
  }

  lemma {:induction false} OfTypeIn(es: seq<BusEvent>, t: string, e: BusEvent)
    ensures e in OfType(es, t) <==> e in es && e.eventType == t
  {
    if es != [] {
      OfTypeIn(es[..|es| - 1], t, e);
      assert e in es <==> e in es[..|es| - 1] || e == es[|es| - 1];
    }
  }

  lemma OfTypeAbsent(es: seq<BusEvent>, t: string)
    requires t !in Types(es)
    ensures OfType(es, t) == []
  {
    var o := OfType(es, t);
    if o != [] {
      OfTypeIn(es, t, o[0]);
      TypesIn(es, t);
    }
  }

  /** The bucket map after streaming `es`: one bucket per type seen, in order of appearance. */
  ghost predicate Streamed(es: seq<BusEvent>, topByType: map<string, seq<BusEvent>>, order: seq<string>, keep: nat) {
    && order == Types(es)
    && (forall t :: t in topByType <==> t in order)
    && forall t :: t in order ==> topByType[t] == Bucket(es, t, keep)
  }

  lemma AppendEvent(es: seq<BusEvent>, event: BusEvent, t: string)
    ensures Types(es + [event]) == if event.eventType in Types(es) then Types(es) else Types(es) + [event.eventType]
    ensures OfType(es + [event], t) == if event.eventType == t then OfType(es, t) + [event] else OfType(es, t)
  {
    assert (es + [event])[..|es|] == es;
  }

  lemma StreamedGrows(es: seq<BusEvent>, event: BusEvent, keep: nat,
                      buckets: map<string, seq<BusEvent>>, bucket: seq<BusEvent>)
    requires Streamed(es, buckets, Types(es), keep)
    requires bucket == Last(Ranked(OfType(es, event.eventType) + [event]), keep)
    ensures Streamed(es + [event], buckets[event.eventType := bucket], Types(es + [event]), keep)
  {
    AppendEvent(es, event, event.eventType);
    forall u | u in Types(es + [event])
      ensures buckets[event.eventType := bucket][u] == Bucket(es + [event], u, keep)
    {
      AppendEvent(es, event, u);
    }
  }

  /** One entry of the streaming pass. */
  method StreamEvent(ghost es: seq<BusEvent>, event: BusEvent, keep: nat,
                     buckets: map<string, seq<BusEvent>>, types: seq<string>)
    returns (topByType: map<string, seq<BusEvent>>, order: seq<string>)
    requires keep >= 1 && Streamed(es, buckets, types, keep)
    ensures Streamed(es + [event], topByType, order, keep)
  {
    var t := event.eventType;
    var bucket := [];
    order := types;
    if t in buckets {
      bucket := buckets[t];
    } else {
      OfTypeAbsent(es, t);
      order := order + [t];
    }
    bucket := UpdateBucket(OfType(es, t), event, bucket, keep);
    topByType := buckets[t := bucket];
    StreamedGrows(es, event, keep, buckets, bucket);
    AppendEvent(es, event, t);
  }

  /** The streaming pass: bounded buckets, filled by binary search, over the bus's own entries. */
  method StreamBuckets(wal: seq<WalEntry>, keep: int)
    returns (topByType: map<string, seq<BusEvent>>, order: seq<string>, count: nat)
    ensures count == |Events(wal)| == |BusLines(wal)|
    ensures keep > 0 ==> Streamed(Events(wal), topByType, order, keep)
  {
    topByType, order, count := map[], [], 0;
    for i := 0 to |wal|
      invariant count == |Events(wal[..i])|
      invariant keep > 0 ==> Streamed(Events(wal[..i]), topByType, order, keep)
    {
      assert wal[..i + 1][..i] == wal[..i];
      if wal[i].Foreign? { continue; }
      count := count + 1;
      if keep <= 0 { continue; }
      topByType, order := StreamEvent(Events(wal[..i]), wal[i].event, keep, topByType, order);
    }
    assert wal[..|wal|] == wal;
    EventsCount(wal);
  }

  /** One entry going into its bucket (`splice` below the bound, `shift` and `splice` at it). */
  method UpdateBucket(ghost es: seq<BusEvent>, event: BusEvent, before: seq<BusEvent>, keep: nat)
    returns (bucket: seq<BusEvent>)
    requires keep >= 1 && before == Last(Ranked(es), keep)
    ensures bucket == Last(Ranked(es + [event]), keep)
  {
    bucket := before;
    RankedSorted(es);
    BoundedStep(Ranked(es), event, keep);
    assert (es + [event])[..|es|] == es;
    if |bucket| < keep {
      var lo := FindSlot(bucket, event.version);
      bucket := bucket[..lo] + [event] + bucket[lo..];
    } else if event.version > bucket[0].version {
      bucket := bucket[1..];
      var lo := FindSlot(bucket, event.version);
      bucket := bucket[..lo] + [event] + bucket[lo..];
    }
  }

  /** The whole of `compact` up to writing the kept events back. */
  method Compact(wal: seq<WalEntry>, keep: int) returns (kept: seq<BusEvent>, entriesBefore: nat)
    ensures entriesBefore == |Events(wal)| == |BusLines(wal)|
    ensures kept == Compacted(Events(wal), keep)
    ensures forall e :: e in kept ==> FromBus(e) in wal
  {
    forall e | e in Compacted(Events(wal), keep) ensures FromBus(e) in wal {
      CompactedCount(Events(wal), keep, e);
      EventsIn(wal, e);
    }
    var topByType, order, count := StreamBuckets(wal, keep);
    entriesBefore := count;
    if keep <= 0 { return [], count; }
    kept := Collect(Events(wal), topByType, order, keep);
    kept := Sort(kept, Version());
  }

  /** All buckets in one list. */
  method Collect(ghost es: seq<BusEvent>, topByType: map<string, seq<BusEvent>>, order: seq<string>, keep: nat)
    returns (kept: seq<BusEvent>)
    requires forall t :: t in order ==> t in topByType && topByType[t] == Bucket(es, t, keep)
    ensures kept == Gather(order, es, keep)
  {
    kept := [];
    for i := 0 to |order|
      invariant kept == Gather(order[..i], es, keep)
    {
      kept := kept + topByType[order[i]];
      assert order[..i + 1][..i] == order[..i];
    }
    assert order[..|order|] == order;
  }

  // ---- What compaction keeps --------------------------------------------------------------------

  /** The events of `e`'s type with a higher version. */
  ghost function Newer(es: seq<BusEvent>, e: BusEvent): set<BusEvent> {
    set x | x in es && x.eventType == e.eventType && x.version > e.version
  }

  /** `e` is among the `n` highest versions of its own type. */
  ghost predicate Recent(es: seq<BusEvent>, n: int, e: BusEvent) {
    e in es && |Newer(es, e)| < n
  }

  ghost function Elements(es: seq<BusEvent>): set<BusEvent> { set x | x in es }

  lemma {:induction false} AscendingSize(es: seq<BusEvent>)
    requires Ascending(es)
    ensures |Elements(es)| == |es|
  {
    if es != [] {
      AscendingSize(es[1..]);
      assert Elements(es) == {es[0]} + Elements(es[1..]);
    }
  }

  lemma {:induction false} AscendingUnique(a: seq<BusEvent>, b: seq<BusEvent>)
    requires Ascending(a) && Ascending(b)
    requires forall e :: e in a <==> e in b
    ensures a == b
  {
    assert forall i :: 0 <= i < |a| ==> a[i] in b;
    assert forall i :: 0 <= i < |b| ==> b[i] in a;
    if a != [] && b != [] {
      forall e ensures e in a[1..] <==> e in b[1..] {
        assert e in a <==> e == a[0] || e in a[1..];
        assert e in b <==> e == b[0] || e in b[1..];
      }
      AscendingUnique(a[1..], b[1..]);
    }
  }

  lemma SameVersionSameEvent(es: seq<BusEvent>, x: BusEvent, y: BusEvent)
    requires DistinctVersions(es) && x in es && y in es && x.version == y.version
    ensures x == y
  {
  }

  lemma {:induction false} OfTypeDistinct(es: seq<BusEvent>, t: string)
    requires DistinctVersions(es)
    ensures DistinctVersions(OfType(es, t))
  {
    if es != [] {
      var front, last := es[..|es| - 1], es[|es| - 1];
      OfTypeDistinct(front, t);
      forall x | x in OfType(front, t) ensures x.version != last.version { OfTypeIn(front, t, x); }
    }
  }

  lemma PlaceAscending(b: seq<BusEvent>, e: BusEvent)
    requires Ascending(b) && forall x :: x in b ==> x.version != e.version
    ensures Ascending(Place(b, e))
  {
    var k, p := LowerBound(b, e.version), Place(b, e);
    LowerBoundSplits(b, e.version);
    forall i, j | 0 <= i < j < |p| ensures p[i].version < p[j].version {
      if j == k {
        assert p[i] == b[i];
      } else if i == k {
        assert p[j] == b[j - 1] && b[j - 1] in b;
      } else {
        assert p[i] == b[if i < k then i else i - 1] && p[j] == b[if j < k then j else j - 1];
      }
    }
  }

  lemma {:induction false} RankedAscending(es: seq<BusEvent>)
    requires DistinctVersions(es)
    ensures Ascending(Ranked(es))
  {
    if es != [] {
      var front, last := es[..|es| - 1], es[|es| - 1];
      RankedAscending(front);
      forall x | x in Ranked(front) ensures x.version != last.version { RankedIn(front, x); }
      PlaceAscending(Ranked(front), last);
    }
  }

  /** In an ascending list the distance from the end is the number of newer events. */
  lemma NewerByPosition(es: seq<BusEvent>, t: string, j: nat)
    requires DistinctVersions(es) && j < |Ranked(OfType(es, t))|
    ensures var s := Ranked(OfType(es, t)); s[j].eventType == t && |Newer(es, s[j])| == |s| - 1 - j
  {
    var s := Ranked(OfType(es, t));
    OfTypeDistinct(es, t);
    RankedAscending(OfType(es, t));
    RankedIn(OfType(es, t), s[j]);
    OfTypeIn(es, t, s[j]);
    var k := NewerTail(es, s[j]);
    assert j < k;
    if j + 1 < |s| {
      assert s[j].version < s[j + 1].version;
      assert j + 1 >= k;
    }
  }

  lemma BucketMembers(es: seq<BusEvent>, t: string, n: nat, e: BusEvent)
    requires DistinctVersions(es)
    ensures e in Bucket(es, t, n) <==> e.eventType == t && Recent(es, n, e)
  {
    var s := Ranked(OfType(es, t));
    OfTypeDistinct(es, t);
    RankedAscending(OfType(es, t));
    RankedIn(OfType(es, t), e);
    OfTypeIn(es, t, e);
    if e in s {
      var k :| 0 <= k < |s| && s[k] == e;
      NewerByPosition(es, t, k);
      if k >= |s| - n && |s| > n { assert Last(s, n)[k - (|s| - n)] == e; }
    }
  }

  lemma {:induction false} GatherMembers(types: seq<string>, es: seq<BusEvent>, n: nat, e: BusEvent)
    requires DistinctVersions(es)
    ensures e in Gather(types, es, n) <==> e.eventType in types && Recent(es, n, e)
  {
    if types != [] {
      GatherMembers(types[..|types| - 1], es, n, e);
      BucketMembers(es, types[|types| - 1], n, e);
      assert types == types[..|types| - 1] + [types[|types| - 1]];
    }
  }

  /** Compaction keeps exactly the events among the `keep` highest versions of their own type. */
  lemma CompactedMembers(es: seq<BusEvent>, keep: int, e: BusEvent)
    requires DistinctVersions(es)
    ensures e in Compacted(es, keep) <==> Recent(es, keep, e)
  {
    if keep > 0 {
      SortIn(Gather(Types(es), es, keep), Version(), e);
      GatherMembers(Types(es), es, keep, e);
      TypesIn(es, e.eventType);
    }
  }

  lemma {:induction false} GatherDistinct(types: seq<string>, es: seq<BusEvent>, n: nat)
    requires DistinctVersions(es)
    requires forall i, j :: 0 <= i < j < |types| ==> types[i] != types[j]
    ensures DistinctVersions(Gather(types, es, n))
  {
    if types != [] {
      var front, t := types[..|types| - 1], types[|types| - 1];
      GatherDistinct(front, es, n);
      OfTypeDistinct(es, t);
      RankedAscending(OfType(es, t));
      forall x, y | x in Gather(front, es, n) && y in Bucket(es, t, n) ensures x.version != y.version {
        GatherMembers(front, es, n, x);
        BucketMembers(es, t, n, y);
        if x.version == y.version { SameVersionSameEvent(es, x, y); }
      }
    }
  }

  lemma {:induction false} TypesDistinct(es: seq<BusEvent>)
    ensures forall i, j :: 0 <= i < j < |Types(es)| ==> Types(es)[i] != Types(es)[j]
  {
    if es != [] { TypesDistinct(es[..|es| - 1]); }
  }

  lemma {:induction false} DistinctOnce(s: seq<BusEvent>, k: int)
    requires DistinctVersions(s)
    ensures |WithKey(s, Version(), k)| <= 1
  {
    if s != [] {
      DistinctOnce(s[1..], k);
      var w := WithKey(s[1..], Version(), k);
      if w != [] && s[0].version == k {
        WithKeyIn(s[1..], Version(), k, w[0]);
      }
    }
  }

  lemma TwiceWithKey(t: seq<BusEvent>, i: nat, j: nat)
    requires i < j < |t| && t[i].version == t[j].version
    ensures |WithKey(t, Version(), t[i].version)| >= 2
  {
    var k := t[i].version;
    assert t == t[..j] + t[j..];
    WithKeyAppend(t[..j], t[j..], Version(), k);
    assert t[..j][i] == t[i] && t[j..][0] == t[j];
    WithKeyIn(t[..j], Version(), k, t[i]);
    WithKeyIn(t[j..], Version(), k, t[j]);
  }

  lemma SortAscending(s: seq<BusEvent>)
    requires DistinctVersions(s)
    ensures Ascending(Sort(s, Version()))
  {
    var t := Sort(s, Version());
    SortIsStable(s, Version(), 0);
    forall i, j | 0 <= i < j < |t| ensures t[i].version < t[j].version {
      var k := t[i].version;
      assert Version()(t[i]) <= Version()(t[j]);
      if t[j].version == k {
        SortIsStable(s, Version(), k);
        TwiceWithKey(t, i, j);
        DistinctOnce(s, k);
      }
    }
  }

  /** ... in ascending version order, so the kept events are determined completely. */
  lemma CompactedAscending(es: seq<BusEvent>, keep: int)
    requires DistinctVersions(es)
    ensures Ascending(Compacted(es, keep))
  {
    if keep > 0 {
      TypesDistinct(es);
      GatherDistinct(Types(es), es, keep);
      SortAscending(Gather(Types(es), es, keep));
    }
  }

  /** The sum over the given types of `min(n, number of events of the type)`. */
  function KeptTotal(types: seq<string>, es: seq<BusEvent>, n: nat): nat {
    if types == [] then 0
    else
      var count := |OfType(es, types[|types| - 1])|;
      KeptTotal(types[..|types| - 1], es, n) + if count < n then count else n
  }

  lemma {:induction false} GatherSize(types: seq<string>, es: seq<BusEvent>, n: nat)
    ensures |Gather(types, es, n)| == KeptTotal(types, es, n)
  {
    if types != [] {
      GatherSize(types[..|types| - 1], es, n);
      RankedIn(OfType(es, types[|types| - 1]), BusEvent("", "", "", 0, "", 0));
    }
  }

  /** `entriesKept` for every log, whether or not versions repeat. */
  lemma CompactedSize(es: seq<BusEvent>, keep: nat)
    requires keep >= 1
    ensures |Compacted(es, keep)| == KeptTotal(Types(es), es, keep)
  {
    var g := Gather(Types(es), es, keep);
    GatherSize(Types(es), es, keep);
    SortIsStable(g, Version(), 0);
    assert |multiset(g)| == |Compacted(es, keep)|;
  }

  // ---- Every log, whether or not versions repeat --------------------------------------------------

  lemma {:induction false} OfTypeCount(es: seq<BusEvent>, t: string, e: BusEvent)
    ensures multiset(OfType(es, t))[e] == if e.eventType == t then multiset(es)[e] else 0
  {
    if es != [] {
      OfTypeCount(es[..|es| - 1], t, e);
      assert es == es[..|es| - 1] + [es[|es| - 1]];
    }
  }

  lemma PlacePermutes(b: seq<BusEvent>, e: BusEvent)
    ensures multiset(Place(b, e)) == multiset(b) + multiset{e}
  {
    var k := LowerBound(b, e.version);
    assert b == b[..k] + b[k..];
    assert multiset(b) == multiset(b[..k]) + multiset(b[k..]);
  }

  lemma {:induction false} RankedPermutes(es: seq<BusEvent>)
    ensures multiset(Ranked(es)) == multiset(es)
  {
    if es != [] {
      var front, last := es[..|es| - 1], es[|es| - 1];
      assert es == front + [last];
      RankedPermutes(front);
      PlacePermutes(Ranked(front), last);
    }
  }

  lemma SplitInOrder(older: seq<BusEvent>, newer: seq<BusEvent>, x: BusEvent, y: BusEvent)
    requires Sorted(older + newer, Version()) && x in older && y in newer
    ensures x.version <= y.version
  {
    var i :| 0 <= i < |older| && older[i] == x;
    var j :| 0 <= j < |newer| && newer[j] == y;
    var all := older + newer;
    assert all[i] == x && all[|older| + j] == y;
    assert Version()(all[i]) <= Version()(all[|older| + j]);
  }

  lemma LastSplits(s: seq<BusEvent>, n: nat) returns (older: seq<BusEvent>)
    requires Sorted(s, Version())
    ensures s == older + Last(s, n) && |Last(s, n)| == if |s| < n then |s| else n
    ensures forall x, y :: x in older && y in Last(s, n) ==> x.version <= y.version
  {
    older := s[..|s| - |Last(s, n)|];
    assert s == older + Last(s, n);
    forall x, y | x in older && y in Last(s, n) ensures x.version <= y.version {
      SplitInOrder(older, Last(s, n), x, y);
    }
  }

  /** A bucket splits the events of its type: what is not in it has no higher version. */
  lemma BucketSplits(es: seq<BusEvent>, t: string, n: nat, e: BusEvent) returns (older: seq<BusEvent>)
    ensures multiset(OfType(es, t))[e] == multiset(older)[e] + multiset(Bucket(es, t, n))[e]
    ensures forall x, y :: x in older && y in Bucket(es, t, n) ==> x.version <= y.version
    ensures |Bucket(es, t, n)| == if |OfType(es, t)| < n then |OfType(es, t)| else n
  {
    var s := Ranked(OfType(es, t));
    RankedPermutes(OfType(es, t));
    RankedSorted(OfType(es, t));
    RankedIn(OfType(es, t), e);
    older := LastSplits(s, n);
    assert multiset(s) == multiset(older) + multiset(Last(s, n));
  }

  lemma {:induction false} GatherCount(types: seq<string>, es: seq<BusEvent>, n: nat, e: BusEvent)
    requires forall i, j :: 0 <= i < j < |types| ==> types[i] != types[j]
    ensures multiset(Gather(types, es, n))[e]
            == if e.eventType in types then multiset(Bucket(es, e.eventType, n))[e] else 0
  {
    if types != [] {
      var front, t := types[..|types| - 1], types[|types| - 1];
      GatherCount(front, es, n, e);
      assert types == front + [t];
      if t != e.eventType {
        var older := BucketSplits(es, t, n, e);
        OfTypeCount(es, t, e);
      }
    }
  }

  /** A copy of an event is kept as often as its bucket holds it, and never more often than it was there. */
  lemma CompactedCount(es: seq<BusEvent>, keep: int, e: BusEvent)
    ensures multiset(Compacted(es, keep))[e] == if keep > 0 then multiset(Bucket(es, e.eventType, keep))[e] else 0
    ensures multiset(Compacted(es, keep))[e] <= multiset(es)[e]
    ensures e in Compacted(es, keep) ==> e in es
  {
    if keep > 0 {
      SortIsStable(Gather(Types(es), es, keep), Version(), 0);
      TypesDistinct(es);
      GatherCount(Types(es), es, keep, e);
      var older := BucketSplits(es, e.eventType, keep, e);
      OfTypeCount(es, e.eventType, e);
      if e.eventType !in Types(es) { OfTypeAbsent(es, e.eventType); }
    }
    assert e in multiset(Compacted(es, keep)) ==> e in multiset(es);
  }

  /** For every log: what is kept is in version order, and if a copy of an event is dropped then every
      event kept of its type has a version at least as high. */
  lemma CompactedKeepsHighest(es: seq<BusEvent>, keep: nat, e: BusEvent, x: BusEvent)
    requires multiset(Compacted(es, keep))[e] < multiset(es)[e]
    requires x in Compacted(es, keep) && x.eventType == e.eventType
    ensures x.version >= e.version
  {
    CompactedCount(es, keep, e);
    CompactedCount(es, keep, x);
    var older := BucketSplits(es, e.eventType, keep, e);
    OfTypeCount(es, e.eventType, e);
    assert e in multiset(older) && x in multiset(Bucket(es, e.eventType, keep));
  }

  lemma CompactedSorted(es: seq<BusEvent>, keep: int)
    ensures forall i, j :: 0 <= i < j < |Compacted(es, keep)| ==>
              Compacted(es, keep)[i].version <= Compacted(es, keep)[j].version
  {
    if keep > 0 {
      var s := Compacted(es, keep);
      SortIsStable(Gather(Types(es), es, keep), Version(), 0);
      forall i, j | 0 <= i < j < |s| ensures s[i].version <= s[j].version {
        assert Version()(s[i]) <= Version()(s[j]);
      }
    }
  }

  lemma SameOfType(a: seq<BusEvent>, b: seq<BusEvent>, t: string)
    requires forall e: BusEvent :: e.eventType == t ==> multiset(a)[e] == multiset(b)[e]
    requires forall e :: e in b ==> e.eventType == t
    ensures |OfType(a, t)| == |b|
  {
    forall e ensures multiset(OfType(a, t))[e] == multiset(b)[e] {
      OfTypeCount(a, t, e);
      assert e.eventType != t ==> e !in multiset(b);
    }
    assert multiset(OfType(a, t)) == multiset(b);
    assert |multiset(OfType(a, t))| == |OfType(a, t)| && |multiset(b)| == |b|;
  }

  /** Of each type the smaller of `keep` and the number of its events is kept, in every log. */
  lemma CompactedPerType(es: seq<BusEvent>, keep: nat, t: string)
    ensures |OfType(Compacted(es, keep), t)| == if |OfType(es, t)| < keep then |OfType(es, t)| else keep
  {
    if keep > 0 {
      var b := Bucket(es, t, keep);
      BucketOf(es, t, keep);
      forall e: BusEvent | e.eventType == t ensures multiset(Compacted(es, keep))[e] == multiset(b)[e] {
        CompactedCount(es, keep, e);
      }
      SameOfType(Compacted(es, keep), b, t);
      var older := BucketSplits(es, t, keep, BusEvent("", "", "", 0, "", 0));
    }
  }

  // ---- The counts a compaction reports ------------------------------------------------------------

  ghost function Total(types: seq<string>, es: seq<BusEvent>): nat {
    if types == [] then 0
    else Total(types[..|types| - 1], es) + |OfType(es, types[|types| - 1])|
  }

  lemma {:induction false} TotalAppend(types: seq<string>, es: seq<BusEvent>, e: BusEvent)
    requires forall i, j :: 0 <= i < j < |types| ==> types[i] != types[j]
    ensures Total(types, es + [e]) == Total(types, es) + if e.eventType in types then 1 else 0
  {
    if types != [] {
      var front, t := types[..|types| - 1], types[|types| - 1];
      TotalAppend(front, es, e);
      assert types == front + [t] && t !in front;
      assert (es + [e])[..|es|] == es;
    }
  }

  /** Every event has one of the types seen. */
  lemma {:induction false} TotalOfTypes(es: seq<BusEvent>)
    ensures Total(Types(es), es) == |es|
  {
    if es != [] {
      var front, e := es[..|es| - 1], es[|es| - 1];
      TotalOfTypes(front);
      TypesDistinct(front);
      assert es == front + [e];
      TotalAppend(Types(front), front, e);
      if e.eventType !in Types(front) {
        TypesIn(front, e.eventType);
        OfTypeAbsent(front, e.eventType);
        assert Types(es)[..|Types(front)|] == Types(front);
      }
    }
  }

  lemma {:induction false} KeptAtMostTotal(types: seq<string>, es: seq<BusEvent>, n: nat)
    ensures KeptTotal(types, es, n) <= Total(types, es)
  {
    if types != [] { KeptAtMostTotal(types[..|types| - 1], es, n); }
  }

  /** `entriesRemoved` is never negative. */
  lemma CompactedNotLonger(es: seq<BusEvent>, keep: int)
    ensures |Compacted(es, keep)| <= |es|
  {
    if keep > 0 {
      CompactedSize(es, keep);
      KeptAtMostTotal(Types(es), es, keep);
      TotalOfTypes(es);
    }
  }

  function TypesOf(es: seq<BusEvent>): set<string> { set e | e in es :: e.eventType }

  lemma BucketOf(es: seq<BusEvent>, t: string, n: nat)
    ensures forall e :: e in Bucket(es, t, n) ==> e in es && e.eventType == t
    ensures n >= 1 && OfType(es, t) != [] ==> Bucket(es, t, n) != []
  {
    forall e ensures e in Ranked(OfType(es, t)) <==> e in es && e.eventType == t {
      RankedIn(OfType(es, t), e);
      OfTypeIn(es, t, e);
    }
    RankedIn(OfType(es, t), BusEvent("", "", "", 0, "", 0));
  }

  lemma {:induction false} GatherTypes(types: seq<string>, es: seq<BusEvent>, n: nat)
    requires n >= 1 && forall t :: t in types ==> OfType(es, t) != []
    ensures TypesOf(Gather(types, es, n)) == set t | t in types
  {
    if types != [] {
      var front, t := types[..|types| - 1], types[|types| - 1];
      GatherTypes(front, es, n);
      BucketOf(es, t, n);
      var bucket := Bucket(es, t, n);
      assert TypesOf(bucket) == {t} by { assert bucket[0] in bucket; }
      assert TypesOf(Gather(front, es, n) + bucket) == TypesOf(Gather(front, es, n)) + TypesOf(bucket);
    }
  }

  lemma SeenTypes(es: seq<BusEvent>)
    ensures TypesOf(es) == set t | t in Types(es)
    ensures forall t :: t in Types(es) ==> OfType(es, t) != []
  {
    forall t ensures t in TypesOf(es) <==> t in Types(es) { TypesIn(es, t); }
    forall t | t in Types(es) ensures OfType(es, t) != [] {
      TypesIn(es, t);
      var e :| e in es && e.eventType == t;
      OfTypeIn(es, t, e);
    }
  }

  lemma SortTypes(es: seq<BusEvent>)
    ensures TypesOf(Sort(es, Version())) == TypesOf(es)
  {
    forall e ensures e in Sort(es, Version()) <==> e in es { SortIn(es, Version(), e); }
  }

  /** A compaction that keeps anything keeps something of every type: `typesVisited`. */
  lemma CompactedTypes(es: seq<BusEvent>, keep: int)
    ensures if keep > 0 then TypesOf(Compacted(es, keep)) == TypesOf(es) else Compacted(es, keep) == []
  {
    if keep > 0 {
      SeenTypes(es);
      GatherTypes(Types(es), es, keep);
      SortTypes(Gather(Types(es), es, keep));
    }
  }

  // ---- Compaction composes ----------------------------------------------------------------------

  lemma AscendingDistinct(es: seq<BusEvent>)
    requires Ascending(es)
    ensures DistinctVersions(es)
  {
  }

  /** Everything newer than a kept event is kept. */
  lemma NewerSurvives(es: seq<BusEvent>, m: int, e: BusEvent)
    requires DistinctVersions(es) && Recent(es, m, e)
    ensures Newer(Compacted(es, m), e) == Newer(es, e)
  {
    forall x ensures x in Compacted(es, m) <==> Recent(es, m, x) { CompactedMembers(es, m, x); }
    forall x | x in Newer(es, e) ensures Recent(es, m, x) {
      assert Newer(es, x) <= Newer(es, e) - {x};
      SubsetSize(Newer(es, x), Newer(es, e));
    }
  }

  lemma {:induction false} SubsetSize(a: set<BusEvent>, b: set<BusEvent>)
    requires a <= b
    ensures |a| <= |b|
  {
    if a != {} {
      var x :| x in a;
      SubsetSize(a - {x}, b - {x});
    }
  }

  /** Compacting to `m` and then to `n` is compacting to the smaller of the two. */
  lemma CompactedTwice(es: seq<BusEvent>, m: int, n: int)
    requires DistinctVersions(es)
    ensures Compacted(Compacted(es, m), n) == Compacted(es, if m < n then m else n)
  {
    var once, least := Compacted(es, m), if m < n then m else n;
    CompactedAscending(es, m);
    AscendingDistinct(once);
    CompactedAscending(once, n);
    CompactedAscending(es, least);
    forall e ensures e in Compacted(once, n) <==> e in Compacted(es, least) {
      CompactedMembers(es, m, e);
      CompactedMembers(once, n, e);
      CompactedMembers(es, least, e);
      if Recent(es, m, e) { NewerSurvives(es, m, e); }
    }
    AscendingUnique(Compacted(once, n), Compacted(es, least));
  }

  // ---- Replay -----------------------------------------------------------------------------------

  function AtLeast(v: int): BusEvent -> bool { (e: BusEvent) => e.version >= v }

  /** The events `replayStream(fromVersion)` yields, in log order. */
  function Replayed(es: seq<BusEvent>, fromVersion: int): seq<BusEvent> {
    Filter(es, AtLeast(fromVersion))
  }

  method ReplayStream(wal: seq<WalEntry>, fromVersion: int) returns (yielded: seq<BusEvent>)
    ensures yielded == Replayed(Events(wal), fromVersion)
    ensures Picked(wal, IsBusLineFrom(fromVersion), yielded)
  {
    yielded := [];
    for i := 0 to |wal|
      invariant yielded == Replayed(Events(wal[..i]), fromVersion)
    {
      assert wal[..i + 1][..i] == wal[..i];
      if wal[i].Foreign? { continue; }
      var event := wal[i].event;
      FilterAppend(Events(wal[..i]), [event], AtLeast(fromVersion));
      if event.version < fromVersion { continue; }
      yielded := yielded + [event];
    }
    assert wal[..|wal|] == wal;
    ReplayedPicked(wal, fromVersion);
  }

  lemma ReplayedStep(front: seq<WalEntry>, line: WalEntry, v: int)
    ensures Replayed(Events(front + [line]), v)
            == Replayed(Events(front), v) + if IsBusLineFrom(v)(line) then [line.event] else []
  {
    assert (front + [line])[..|front|] == front;
    if line.FromBus? { FilterAppend(Events(front), [line.event], AtLeast(v)); }
  }

  lemma {:induction false} ReplayedPicked(wal: seq<WalEntry>, v: int)
    ensures Picked(wal, IsBusLineFrom(v), Replayed(Events(wal), v))
  {
    if wal == [] {
      NothingPicked(IsBusLineFrom(v));
    } else {
      var front, line := wal[..|wal| - 1], wal[|wal| - 1];
      assert wal == front + [line];
      ReplayedPicked(front, v);
      ReplayedStep(front, line, v);
      PickedMore(front, IsBusLineFrom(v), Replayed(Events(front), v), line);
    }
  }

  /** What a subscriber to `t` sees of a replay. */
  function Seen(es: seq<BusEvent>, t: string, fromVersion: int): seq<BusEvent> {
    OfType(Replayed(es, fromVersion), t)
  }

  ghost function Wanted(es: seq<BusEvent>, t: string, v: int): set<BusEvent> {
    set x | x in es && x.eventType == t && x.version >= v
  }

  lemma SeenIn(es: seq<BusEvent>, t: string, v: int, e: BusEvent)
    ensures e in Seen(es, t, v) <==> e in Wanted(es, t, v)
  {
    OfTypeIn(Replayed(es, v), t, e);
    FilterIn(es, AtLeast(v), e);
  }

  lemma {:induction false} OldestOf(s: set<BusEvent>) returns (e: BusEvent)
    requires s != {}
    ensures e in s && forall x :: x in s ==> e.version <= x.version
  {
    e :| e in s;
    if s != {e} {
      var f := OldestOf(s - {e});
      if f.version < e.version { e := f; }
    }
  }

  lemma FewAreAllKept(es: seq<BusEvent>, t: string, v: int, keep: nat, x: BusEvent)
    requires DistinctVersions(es) && |Wanted(es, t, v)| <= keep && x in Wanted(es, t, v)
    ensures x in Compacted(es, keep)
  {
    var wanted := Wanted(es, t, v);
    assert Newer(es, x) <= wanted - {x};
    SubsetSize(Newer(es, x), wanted - {x});
    CompactedMembers(es, keep, x);
  }

  lemma OldestOfManyIsLost(es: seq<BusEvent>, t: string, v: int, keep: nat) returns (e: BusEvent)
    requires DistinctVersions(es) && |Wanted(es, t, v)| > keep
    ensures e in Wanted(es, t, v) && e !in Compacted(es, keep)
  {
    var wanted := Wanted(es, t, v);
    e := OldestOf(wanted);
    forall x | x in wanted - {e} ensures x in Newer(es, e) {
      if x.version == e.version { SameVersionSameEvent(es, x, e); }
    }
    SubsetSize(wanted - {e}, Newer(es, e));
    CompactedMembers(es, keep, e);
  }

  /** A replay of type `t` from version `v` loses no event to a compaction exactly when at most
      `keep` events of that type have a version of `v` or more. */
  lemma ReplayKeepsEvents(es: seq<BusEvent>, t: string, v: int, keep: nat)
    requires DistinctVersions(es)
    ensures Wanted(Compacted(es, keep), t, v) == Wanted(es, t, v) <==> |Wanted(es, t, v)| <= keep
  {
    if |Wanted(es, t, v)| <= keep {
      forall x | x in Wanted(es, t, v) ensures x in Compacted(es, keep) { FewAreAllKept(es, t, v, keep, x); }
      forall x | x in Compacted(es, keep) ensures x in es { CompactedMembers(es, keep, x); }
    } else {
      var e := OldestOfManyIsLost(es, t, v, keep);
    }
  }

  lemma {:induction false} ReplayedAscending(es: seq<BusEvent>, v: int)
    requires Ascending(es)
    ensures Ascending(Replayed(es, v))
  {
    if es != [] {
      ReplayedAscending(es[1..], v);
      forall x | x in Replayed(es[1..], v) ensures es[0].version < x.version {
        FilterIn(es[1..], AtLeast(v), x);
      }
    }
  }

  lemma {:induction false} OfTypeAscending(es: seq<BusEvent>, t: string)
    requires Ascending(es)
    ensures Ascending(OfType(es, t))
  {
    if es != [] {
      var front, last := es[..|es| - 1], es[|es| - 1];
      OfTypeAscending(front, t);
      forall x | x in OfType(front, t) ensures x.version < last.version { OfTypeIn(front, t, x); }
    }
  }

  /** The replayed sequence itself is unchanged exactly when, in addition, it was in version order
      before: the rewritten log always is. */
  lemma ReplayUnchanged(es: seq<BusEvent>, t: string, v: int, keep: nat)
    requires DistinctVersions(es)
    ensures Seen(Compacted(es, keep), t, v) == Seen(es, t, v)
      <==> |Wanted(es, t, v)| <= keep && Ascending(Seen(es, t, v))
  {
    var kept := Compacted(es, keep);
    CompactedAscending(es, keep);
    ReplayedAscending(kept, v);
    OfTypeAscending(Replayed(kept, v), t);
    ReplayKeepsEvents(es, t, v, keep);
    forall e ensures e in Seen(es, t, v) <==> e in Wanted(es, t, v) { SeenIn(es, t, v, e); }
    forall e ensures e in Seen(kept, t, v) <==> e in Wanted(kept, t, v) { SeenIn(kept, t, v, e); }
    if |Wanted(es, t, v)| <= keep && Ascending(Seen(es, t, v)) {
      AscendingUnique(Seen(kept, t, v), Seen(es, t, v));
    }
  }

  // ---- Version counter --------------------------------------------------------------------------

  function MaxVersion(es: seq<BusEvent>): (m: int)
    ensures m >= 0 && forall e :: e in es ==> e.version <= m
    ensures m == 0 || exists e :: e in es && e.version == m
  {
    if es == [] then 0
    else
      var front, last := MaxVersion(es[..|es| - 1]), es[|es| - 1];
      assert es == es[..|es| - 1] + [last];
      if last.version > front then last.version else front
  }

  /** The restore loop of `start`: the running maximum over the bus's own entries. */
  method RestoreVersion(wal: seq<WalEntry>) returns (maxVersion: int)
    ensures maxVersion == MaxVersion(Events(wal))
    ensures forall e :: FromBus(e) in wal ==> e.version <= maxVersion
    ensures maxVersion == 0 || exists e :: FromBus(e) in wal && e.version == maxVersion
  {
    forall e ensures e in Events(wal) <==> FromBus(e) in wal { EventsIn(wal, e); }
    maxVersion := 0;
    for i := 0 to |wal|
      invariant maxVersion == MaxVersion(Events(wal[..i]))
    {
      assert wal[..i + 1][..i] == wal[..i];
      if wal[i].FromBus? && wal[i].event.version > maxVersion {
        maxVersion := wal[i].event.version;
      }
    }
    assert wal[..|wal|] == wal;
  }

  /** Keeping one event per type already keeps the highest version of the log. */
  lemma CompactedMaxVersion(es: seq<BusEvent>, keep: int)
    requires DistinctVersions(es) && keep >= 1
    ensures MaxVersion(Compacted(es, keep)) == MaxVersion(es)
  {
    forall x ensures x in Compacted(es, keep) <==> Recent(es, keep, x) { CompactedMembers(es, keep, x); }
    if MaxVersion(es) != 0 {
      var e :| e in es && e.version == MaxVersion(es);
      assert Newer(es, e) == {};
      assert e in Compacted(es, keep);
    }
  }

  // ---- Coverage: what stays in the log about an event --------------------------------------------

  /** `e` is in the log, or at least `n` newer events of its type are. */
  ghost predicate Covered(es: seq<BusEvent>, n: nat, e: BusEvent) {
    e in es || |Newer(es, e)| >= n
  }

  lemma AscendingTail(s: seq<BusEvent>, v: int) returns (k: nat)
    requires Ascending(s)
    ensures k <= |s|
    ensures forall i :: 0 <= i < |s| ==> (s[i].version > v <==> i >= k)
  {
    k := |s|;
    while k > 0 && s[k - 1].version > v
      invariant k <= |s|
      invariant forall i :: k <= i < |s| ==> s[i].version > v
    {
      k := k - 1;
    }
  }

  /** The events of a type in ascending order, and where those newer than `e` start. */
  lemma NewerTail(es: seq<BusEvent>, e: BusEvent) returns (k: nat)
    requires DistinctVersions(es)
    ensures var s := Ranked(OfType(es, e.eventType));
            && k <= |s| && |Newer(es, e)| == |s| - k
            && forall i :: 0 <= i < |s| ==> (s[i].version > e.version <==> i >= k)
  {
    var t := e.eventType;
    var s := Ranked(OfType(es, t));
    OfTypeDistinct(es, t);
    RankedAscending(OfType(es, t));
    k := AscendingTail(s, e.version);
    forall x ensures x in Newer(es, e) <==> x in s[k..] {
      OfTypeIn(es, t, x);
      RankedIn(OfType(es, t), x);
      if x in s {
        var j :| 0 <= j < |s| && s[j] == x;
        if j >= k { assert s[k..][j - k] == x; }
      }
    }
    assert Newer(es, e) == Elements(s[k..]);
    AscendingSize(s[k..]);
  }

  lemma BucketIsKept(es: seq<BusEvent>, keep: nat, e: BusEvent, x: BusEvent)
    requires DistinctVersions(es) && x in Bucket(es, e.eventType, keep) && x.version > e.version
    ensures x in Newer(Compacted(es, keep), e)
  {
    BucketMembers(es, e.eventType, keep, x);
    CompactedMembers(es, keep, x);
  }

  /** Compaction keeps all newer events of a type, or `keep` of them. */
  lemma NewerKept(es: seq<BusEvent>, keep: nat, e: BusEvent)
    requires DistinctVersions(es) && |Newer(es, e)| >= keep
    ensures |Newer(Compacted(es, keep), e)| >= keep
  {
    var t := e.eventType;
    var s, kept := Ranked(OfType(es, t)), Bucket(es, t, keep);
    var k := NewerTail(es, e);
    OfTypeDistinct(es, t);
    RankedAscending(OfType(es, t));
    assert |kept| == keep && kept == s[|s| - keep..];
    AscendingSize(kept);
    forall x | x in kept ensures x in Newer(Compacted(es, keep), e) {
      assert x in s[k..] by { assert s[k..][|s| - keep - k..] == kept; }
      BucketIsKept(es, keep, e, x);
    }
    SubsetSize(Elements(kept), Newer(Compacted(es, keep), e));
  }

  lemma CompactedCovers(es: seq<BusEvent>, keep: nat, n: nat, e: BusEvent)
    requires DistinctVersions(es) && keep >= n && Covered(es, n, e)
    ensures Covered(Compacted(es, keep), n, e)
  {
    CompactedMembers(es, keep, e);
    if e !in Compacted(es, keep) {
      if |Newer(es, e)| >= keep {
        NewerKept(es, keep, e);
      } else {
        forall x | x in Newer(es, e) ensures x in Compacted(es, keep) {
          assert Newer(es, x) <= Newer(es, e);
          SubsetSize(Newer(es, x), Newer(es, e));
          CompactedMembers(es, keep, x);
        }
        assert Newer(Compacted(es, keep), e) == Newer(es, e) by {
          forall x | x in Compacted(es, keep) ensures x in es { CompactedMembers(es, keep, x); }
        }
      }
    }
  }

  lemma CoveredGrows(a: seq<BusEvent>, b: seq<BusEvent>, n: nat, e: BusEvent)
    requires Covered(a, n, e) && forall x :: x in a ==> x in b
    ensures Covered(b, n, e)
  {
    SubsetSize(Newer(a, e), Newer(b, e));
  }

  /** A covered event's version is never above the restored counter. */
  lemma CoveredBelowMax(es: seq<BusEvent>, n: nat, e: BusEvent)
    requires Covered(es, n, e) && n >= 1
    ensures e.version <= MaxVersion(es)
  {
    if e !in es {
      var x :| x in Newer(es, e);
    }
  }
}
