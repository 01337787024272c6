/** The consistent hash ring.  The hash (the first 32 bits of MD5 in the source) is a parameter, so
    every result holds for every hash function. */
module HashRing {
  import opened Common
  import opened StableSort

  datatype VirtualNode = VirtualNode(nodeId: string, hash: int, replica: nat)

  type HashFunction = string -> int

  function ByHash(): VirtualNode -> int { (v: VirtualNode) => v.hash }
  function NotNode(x: string): VirtualNode -> bool { (v: VirtualNode) => v.nodeId != x }
  function AtOrAfter(k: int): VirtualNode -> bool { (v: VirtualNode) => v.hash >= k }
  function Before(k: int): VirtualNode -> bool { (v: VirtualNode) => v.hash < k }

  function Decimal(n: nat): string {
    if n < 10 then [['0', '1', '2', '3', '4', '5', '6', '7', '8', '9'][n]]
    else Decimal(n / 10) + Decimal(n % 10)
  }

  function VirtualKey(nodeId: string, i: nat): string { nodeId + ":" + Decimal(i) }

  function Replica(h: HashFunction, nodeId: string, i: nat): VirtualNode {
    VirtualNode(nodeId, h(VirtualKey(nodeId, i)), i)
  }

  function Replicas(h: HashFunction, nodeId: string, count: nat): seq<VirtualNode> {
    if count == 0 then [] else Replicas(h, nodeId, count - 1) + [Replica(h, nodeId, count - 1)]
  }

  function WithNode(h: HashFunction, ring: seq<VirtualNode>, nodeId: string, count: nat): seq<VirtualNode> {
    Sort(ring + Replicas(h, nodeId, count), ByHash())
  }

  function Without(ring: seq<VirtualNode>, nodeId: string): seq<VirtualNode> {
    Filter(ring, NotNode(nodeId))
  }

  // ---- Virtual keys are distinct ------------------------------------------------------------------

  predicate IsDigit(c: char) { '0' <= c <= '9' }

  function Digit(c: char): nat
    requires IsDigit(c)
  {
    c as int - '0' as int
  }

  /** The number a string of digits denotes. */
  function Value(digits: string): nat
    requires forall c :: c in digits ==> IsDigit(c)
  {
    if digits == [] then 0
    else 10 * Value(digits[..|digits| - 1]) + Digit(digits[|digits| - 1])
  }

  lemma OneDigit(n: nat)
    requires n < 10
    ensures |Decimal(n)| == 1 && IsDigit(Decimal(n)[0]) && Digit(Decimal(n)[0]) == n
  {
  }

  lemma ValueAppend(digits: string, c: char)
    requires IsDigit(c) && forall d :: d in digits ==> IsDigit(d)
    ensures (forall d :: d in digits + [c] ==> IsDigit(d)) && Value(digits + [c]) == 10 * Value(digits) + Digit(c)
  {
    assert (digits + [c])[..|digits|] == digits;
  }

  /** `Decimal` writes digits only, without leading zeros, and they denote the number. */
  lemma {:induction false} DecimalDenotes(n: nat)
    ensures Decimal(n) != [] && (forall c :: c in Decimal(n) ==> IsDigit(c)) && Value(Decimal(n)) == n
    ensures Decimal(n)[0] == '0' <==> n == 0
  {
    if n < 10 {
      OneDigit(n);
      ValueAppend([], Decimal(n)[0]);
      assert [] + [Decimal(n)[0]] == Decimal(n);
    } else {
      DecimalDenotes(n / 10);
      OneDigit(n % 10);
      ValueAppend(Decimal(n / 10), Decimal(n % 10)[0]);
      assert Decimal(n / 10) + [Decimal(n % 10)[0]] == Decimal(n);
    }
  }

  /** The colon nearest the end separates node and replica, whatever the node is called. */
  lemma SameSplit(a: string, b: string, c: string, d: string)
    requires a + ":" + b == c + ":" + d && ':' !in b && ':' !in d
    ensures a == c && b == d
  {
    var s := a + ":" + b;
    assert s[|a|] == ':' && s[|c|] == ':';
    assert forall k :: |a| < k < |s| ==> s[k] == b[k - |a| - 1];
    assert forall k :: |c| < k < |s| ==> s[k] == d[k - |c| - 1];
    assert a == s[..|a|] == c && b == s[|a| + 1..] == d;
  }

  /** No two replicas of any nodes are hashed from the same string. */
  lemma VirtualKeysDiffer(x: string, i: nat, y: string, j: nat)
    ensures VirtualKey(x, i) == VirtualKey(y, j) <==> x == y && i == j
  {
    DecimalDenotes(i);
    DecimalDenotes(j);
    if VirtualKey(x, i) == VirtualKey(y, j) { SameSplit(x, Decimal(i), y, Decimal(j)); }
  }

  // ---- Walking the ring from a key ----------------------------------------------------------------

  /** The first position whose hash is not below `k`, if there is one. */
  function Search(ring: seq<VirtualNode>, k: int): (i: nat)
    ensures i <= |ring|
    ensures forall j :: 0 <= j < i ==> ring[j].hash < k
    ensures i < |ring| ==> ring[i].hash >= k
  {
    if ring == [] || ring[0].hash >= k then 0 else 1 + Search(ring[1..], k)
  }

  /** ... wrapping around to position 0. */
  function Start(ring: seq<VirtualNode>, k: int): (i: nat)
    ensures i <= |ring|
  {
    if Search(ring, k) == |ring| then 0 else Search(ring, k)
  }

  function Walk(ring: seq<VirtualNode>, k: int): seq<VirtualNode> {
    ring[Start(ring, k)..] + ring[..Start(ring, k)]
  }

  /** Node ids in order of first occurrence. */
  function FirstSeen(s: seq<VirtualNode>): seq<string> {
    if s == [] then []
    else
      var rest := FirstSeen(s[..|s| - 1]);
      if s[|s| - 1].nodeId in rest then rest else rest + [s[|s| - 1].nodeId]
  }

  /** A key's full preference list: what `getNodes` returns when asked for every node. */
  function Preference(ring: seq<VirtualNode>, k: int): seq<string> { FirstSeen(Walk(ring, k)) }

  function Owner(ring: seq<VirtualNode>, k: int): Option<string> {
    if ring == [] then None else Some(Walk(ring, k)[0].nodeId)
  }

  lemma SplitAtKey(low: seq<VirtualNode>, high: seq<VirtualNode>, k: int)
    requires forall v :: v in low ==> v.hash < k
    requires forall v :: v in high ==> v.hash >= k
    ensures Filter(low + high, AtOrAfter(k)) == high
    ensures Filter(low + high, Before(k)) == low
  {
    FilterAppend(low, high, AtOrAfter(k));
    FilterNone(low, AtOrAfter(k));
    FilterAll(high, AtOrAfter(k));
    FilterAppend(low, high, Before(k));
    FilterAll(low, Before(k));
    FilterNone(high, Before(k));
  }

  lemma HighPart(ring: seq<VirtualNode>, k: int, v: VirtualNode)
    requires Sorted(ring, ByHash()) && v in ring[Search(ring, k)..]
    ensures v.hash >= k
  {
    var i := Search(ring, k);
    var j :| i <= j < |ring| && ring[j] == v;
    assert i < j ==> ByHash()(ring[i]) <= ByHash()(ring[j]);
  }

  /** On an ordered ring the walk is the part at or after the key, then the part before it. */
  lemma WalkSplits(ring: seq<VirtualNode>, k: int)
    requires Sorted(ring, ByHash())
    ensures Walk(ring, k) == Filter(ring, AtOrAfter(k)) + Filter(ring, Before(k))
  {
    var i := Search(ring, k);
    var low, high := ring[..i], ring[i..];
    assert ring == low + high;
    assert Walk(ring, k) == high + low;
    forall v | v in high ensures v.hash >= k { HighPart(ring, k, v); }
    SplitAtKey(low, high, k);
  }

  // ---- What a preference list contains ------------------------------------------------------------

  ghost function NodeIds(s: seq<VirtualNode>): set<string> { set v | v in s :: v.nodeId }

  /** Where a node comes first. */
  ghost function FirstAt(s: seq<VirtualNode>, x: string): (i: nat)
    requires x in NodeIds(s)
    ensures i < |s| && s[i].nodeId == x && forall j :: 0 <= j < i ==> s[j].nodeId != x
  {
    if s[0].nodeId == x then 0
    else
      assert s == [s[0]] + s[1..];
      1 + FirstAt(s[1..], x)
  }

  /** `ids` are the first nodes of the walk, each once, in the order they first come. */
  ghost predicate LeadingNodes(walk: seq<VirtualNode>, ids: seq<string>) {
    && NoRepeats(ids) && (forall x :: x in ids ==> x in NodeIds(walk))
    && (forall i, j :: 0 <= i < j < |ids| ==> FirstAt(walk, ids[i]) < FirstAt(walk, ids[j]))
    && forall x, y :: x in NodeIds(walk) && y in ids && FirstAt(walk, x) < FirstAt(walk, y) ==> x in ids
  }

  lemma {:induction false} FirstSeenIn(s: seq<VirtualNode>, x: string)
    ensures x in FirstSeen(s) <==> x in NodeIds(s)
  {
    if s != [] {
      FirstSeenIn(s[..|s| - 1], x);
      assert s == s[..|s| - 1] + [s[|s| - 1]];
    }
  }

  lemma {:induction false} FirstSeenOnce(s: seq<VirtualNode>)
    ensures NoRepeats(FirstSeen(s))
  {
    if s != [] { FirstSeenOnce(s[..|s| - 1]); }
  }

  lemma FirstAtPrefix(s: seq<VirtualNode>, k: nat, x: string)
    requires k <= |s| && x in NodeIds(s[..k])
    ensures x in NodeIds(s) && FirstAt(s, x) == FirstAt(s[..k], x)
  {
    var i := FirstAt(s[..k], x);
    assert s[i] == s[..k][i] && s[i] in s;
    assert forall j :: 0 <= j < i ==> s[j] == s[..k][j];
    var j := FirstAt(s, x);
    assert s[..k][j] == s[j];
  }

  lemma FirstAtEnd(front: seq<VirtualNode>, last: VirtualNode)
    requires last.nodeId !in NodeIds(front)
    ensures var s := front + [last]; last.nodeId in NodeIds(s) && FirstAt(s, last.nodeId) == |front|
  {
    var s := front + [last];
    assert last in s;
    assert forall j :: 0 <= j < |front| ==> s[j] == front[j] && front[j] in front;
  }

  lemma {:induction false} FirstSeenOrder(s: seq<VirtualNode>, i: nat, j: nat)
    requires i < j < |FirstSeen(s)|
    ensures FirstSeen(s)[i] in NodeIds(s) && FirstSeen(s)[j] in NodeIds(s)
    ensures FirstAt(s, FirstSeen(s)[i]) < FirstAt(s, FirstSeen(s)[j])
  {
    var k := |s| - 1;
    var front, x, y := s[..k], FirstSeen(s)[i], FirstSeen(s)[j];
    var ids := FirstSeen(front);
    assert s == front + [s[k]];
    assert x == ids[i];
    FirstSeenIn(front, x);
    FirstAtPrefix(s, k, x);
    if j < |ids| {
      FirstSeenOrder(front, i, j);
      FirstAtPrefix(s, k, y);
    } else {
      FirstSeenIn(front, y);
      FirstAtEnd(front, s[k]);
    }
  }

  lemma SeenEarlier(s: seq<VirtualNode>, i: nat, j: nat)
    requires i < |FirstSeen(s)| && j < |FirstSeen(s)|
    ensures FirstSeen(s)[i] in NodeIds(s) && FirstSeen(s)[j] in NodeIds(s)
    ensures FirstAt(s, FirstSeen(s)[i]) < FirstAt(s, FirstSeen(s)[j]) ==> i < j
  {
    FirstSeenIn(s, FirstSeen(s)[i]);
    FirstSeenIn(s, FirstSeen(s)[j]);
    if j < i { FirstSeenOrder(s, j, i); }
  }

  /** Whatever comes first before a node among the first `k` seen is among them too. */
  lemma NoneSkipped(s: seq<VirtualNode>, k: nat, x: string, y: string)
    requires k <= |FirstSeen(s)| && x in NodeIds(s) && y in FirstSeen(s)[..k] && y in NodeIds(s)
    requires FirstAt(s, x) < FirstAt(s, y)
    ensures x in FirstSeen(s)[..k]
  {
    var ids := FirstSeen(s);
    FirstSeenIn(s, x);
    var i :| 0 <= i < |ids| && ids[i] == x;
    var j :| 0 <= j < k && ids[j] == y;
    SeenEarlier(s, i, j);
    assert ids[..k][i] == x;
  }

  /** Every prefix of the nodes in order of first occurrence is a list of leading nodes. */
  lemma FirstSeenLeads(s: seq<VirtualNode>, k: nat)
    requires k <= |FirstSeen(s)|
    ensures LeadingNodes(s, FirstSeen(s)[..k])
  {
    var ids := FirstSeen(s)[..k];
    FirstSeenOnce(s);
    forall x | x in ids ensures x in NodeIds(s) { FirstSeenIn(s, x); }
    forall i, j | 0 <= i < j < |ids| ensures FirstAt(s, ids[i]) < FirstAt(s, ids[j]) { FirstSeenOrder(s, i, j); }
    forall x, y | x in NodeIds(s) && y in ids && FirstAt(s, x) < FirstAt(s, y) ensures x in ids {
      NoneSkipped(s, k, x, y);
    }
  }

  lemma {:induction false} NoRepeatsSize(ids: seq<string>)
    requires NoRepeats(ids)
    ensures |set x | x in ids| == |ids|
  {
    if ids != [] {
      NoRepeatsSize(ids[1..]);
      assert (set x | x in ids) == {ids[0]} + (set x | x in ids[1..]);
    }
  }

  lemma WalkNodes(ring: seq<VirtualNode>, k: int)
    ensures NodeIds(Walk(ring, k)) == NodeIds(ring)
  {
    assert ring == ring[..Start(ring, k)] + ring[Start(ring, k)..];
    assert forall v :: v in Walk(ring, k) <==> v in ring;
  }

  /** A preference list names every node of the ring exactly once, in the order of the walk. */
  lemma PreferenceNodes(ring: seq<VirtualNode>, k: int)
    ensures LeadingNodes(Walk(ring, k), Preference(ring, k))
    ensures forall x :: x in Preference(ring, k) <==> x in NodeIds(ring)
    ensures |Preference(ring, k)| == |NodeIds(ring)|
  {
    var walk, ids := Walk(ring, k), Preference(ring, k);
    FirstSeenLeads(walk, |ids|);
    assert ids[..|ids|] == ids;
    WalkNodes(ring, k);
    forall x ensures x in ids <==> x in NodeIds(ring) { FirstSeenIn(walk, x); }
    NoRepeatsSize(ids);
    assert (set x | x in ids) == NodeIds(ring);
  }

  // ---- Removing and adding a node -----------------------------------------------------------------

  lemma {:induction false} RemovedIn(ids: seq<string>, x: string, y: string)
    ensures y in Removed(ids, x) <==> y in ids && y != x
  {
    if ids != [] {
      RemovedIn(ids[..|ids| - 1], x, y);
      assert ids == ids[..|ids| - 1] + [ids[|ids| - 1]];
    }
  }

  lemma {:induction false} FirstSeenFilter(s: seq<VirtualNode>, x: string)
    ensures FirstSeen(Filter(s, NotNode(x))) == Removed(FirstSeen(s), x)
  {
    if s != [] {
      var front, last := s[..|s| - 1], s[|s| - 1];
      assert s == front + [last];
      FirstSeenFilter(front, x);
      FilterAppend(front, [last], NotNode(x));
      RemovedIn(FirstSeen(front), x, last.nodeId);
      var ids := FirstSeen(front);
      assert (ids + [last.nodeId])[..|ids|] == ids;
      var f := Filter(front, NotNode(x));
      assert (f + [last])[..|f|] == f;
      assert Filter(s, NotNode(x)) == if last.nodeId == x then f else f + [last];
    }
  }

  /** Minimal disruption: removing a node only deletes it from every preference list. */
  lemma RemoveKeepsPreferences(ring: seq<VirtualNode>, x: string, k: int)
    requires Sorted(ring, ByHash())
    ensures Preference(Without(ring, x), k) == Removed(Preference(ring, k), x)
  {
    WalkSplits(ring, k);
    FilterSorted(ring, NotNode(x), ByHash());
    WalkSplits(Without(ring, x), k);
    FilterSwap(ring, NotNode(x), AtOrAfter(k));
    FilterSwap(ring, NotNode(x), Before(k));
    FilterAppend(Filter(ring, AtOrAfter(k)), Filter(ring, Before(k)), NotNode(x));
    FirstSeenFilter(Walk(ring, k), x);
  }

  lemma {:induction false} FirstSeenHead(s: seq<VirtualNode>)
    requires s != []
    ensures FirstSeen(s) != [] && FirstSeen(s)[0] == s[0].nodeId
  {
    if |s| > 1 { FirstSeenHead(s[..|s| - 1]); }
  }

  /** The owner is the head of the preference list. */
  lemma OwnerLeadsPreference(ring: seq<VirtualNode>, k: int)
    ensures ring == [] ==> Preference(ring, k) == [] && Owner(ring, k) == None
    ensures ring != [] ==> Preference(ring, k) != [] && Owner(ring, k) == Some(Preference(ring, k)[0])
  {
    if ring != [] { FirstSeenHead(Walk(ring, k)); }
  }

  lemma {:induction false} RemovedHead(ids: seq<string>, x: string)
    requires ids != [] && ids[0] != x
    ensures Removed(ids, x) != [] && Removed(ids, x)[0] == ids[0]
  {
    if |ids| > 1 { RemovedHead(ids[..|ids| - 1], x); }
  }

  /** Only keys owned by the removed node change their owner. */
  lemma RemoveMovesOnlyOwnKeys(ring: seq<VirtualNode>, x: string, k: int)
    requires Sorted(ring, ByHash()) && Owner(ring, k) != Some(x)
    ensures Owner(Without(ring, x), k) == Owner(ring, k)
  {
    RemoveKeepsPreferences(ring, x, k);
    OwnerLeadsPreference(ring, k);
    OwnerLeadsPreference(Without(ring, x), k);
    if ring != [] { RemovedHead(Preference(ring, k), x); }
  }

  lemma {:induction false} ReplicasAre(h: HashFunction, x: string, count: nat, v: VirtualNode)
    ensures v in Replicas(h, x, count) <==> v.replica < count && v == Replica(h, x, v.replica)
  {
    if count > 0 {
      ReplicasAre(h, x, count - 1, v);
      var last := Replica(h, x, count - 1);
      assert v in Replicas(h, x, count) <==> v in Replicas(h, x, count - 1) || v == last;
    }
  }

  lemma SortSortedSame(ring: seq<VirtualNode>)
    requires Sorted(ring, ByHash())
    ensures Sort(ring, ByHash()) == ring
  {
    SortUnique(ring, ring, ByHash());
  }

  lemma {:induction false} WithoutReplicas(h: HashFunction, x: string, count: nat)
    ensures Without(Replicas(h, x, count), x) == []
  {
    if count > 0 {
      WithoutReplicas(h, x, count - 1);
      FilterAppend(Replicas(h, x, count - 1), [Replica(h, x, count - 1)], NotNode(x));
    }
  }

  /** Adding a new node and removing it again restores the ring exactly. */
  lemma AddThenRemove(h: HashFunction, ring: seq<VirtualNode>, x: string, count: nat)
    requires Sorted(ring, ByHash()) && forall v :: v in ring ==> v.nodeId != x
    ensures Without(WithNode(h, ring, x, count), x) == ring
  {
    var added := Replicas(h, x, count);
    FilterSort(ring + added, NotNode(x), ByHash());
    FilterAppend(ring, added, NotNode(x));
    FilterAll(ring, NotNode(x));
    WithoutReplicas(h, x, count);
    assert Filter(ring + added, NotNode(x)) == ring;
    SortSortedSame(ring);
  }

  /** A new node only inserts itself into preference lists, so a key keeps its owner or gets `x`. */
  lemma AddMovesKeysOnlyToNewNode(h: HashFunction, ring: seq<VirtualNode>, x: string, count: nat, k: int)
    requires Sorted(ring, ByHash()) && forall v :: v in ring ==> v.nodeId != x
    ensures Removed(Preference(WithNode(h, ring, x, count), k), x) == Preference(ring, k)
    ensures Owner(WithNode(h, ring, x, count), k) in {Some(x), Owner(ring, k)}
  {
    var bigger := WithNode(h, ring, x, count);
    SortIsStable(ring + Replicas(h, x, count), ByHash(), 0);
    AddThenRemove(h, ring, x, count);
    RemoveKeepsPreferences(bigger, x, k);
    if Owner(bigger, k) != Some(x) { RemoveMovesOnlyOwnKeys(bigger, x, k); }
  }

  // ---- The ring built from a list of nodes --------------------------------------------------------

  function Build(h: HashFunction, nodes: seq<string>, count: nat): seq<VirtualNode> {
    if nodes == [] then []
    else WithNode(h, Build(h, nodes[..|nodes| - 1], count), nodes[|nodes| - 1], count)
  }

  function AllReplicas(h: HashFunction, nodes: seq<string>, count: nat): seq<VirtualNode> {
    if nodes == [] then []
    else AllReplicas(h, nodes[..|nodes| - 1], count) + Replicas(h, nodes[|nodes| - 1], count)
  }

  /** Sorting after every node is the same as sorting once at the end. */
  lemma {:induction false} BuildSortsOnce(h: HashFunction, nodes: seq<string>, count: nat)
    ensures Build(h, nodes, count) == Sort(AllReplicas(h, nodes, count), ByHash())
  {
    if nodes != [] {
      var front, added := nodes[..|nodes| - 1], Replicas(h, nodes[|nodes| - 1], count);
      BuildSortsOnce(h, front, count);
      var ring, flat := Build(h, front, count), AllReplicas(h, front, count);
      SortIsStable(flat + added, ByHash(), 0);
      forall k ensures WithKey(Sort(flat + added, ByHash()), ByHash(), k) == WithKey(ring + added, ByHash(), k) {
        SortIsStable(flat + added, ByHash(), k);
        SortIsStable(flat, ByHash(), k);
        WithKeyAppend(flat, added, ByHash(), k);
        WithKeyAppend(ring, added, ByHash(), k);
      }
      SortUnique(ring + added, Sort(flat + added, ByHash()), ByHash());
    }
  }

  lemma {:induction false} AllReplicasIn(h: HashFunction, nodes: seq<string>, count: nat, v: VirtualNode)
    ensures v in AllReplicas(h, nodes, count)
      <==> v.nodeId in nodes && v.replica < count && v == Replica(h, v.nodeId, v.replica)
  {
    if nodes != [] {
      var front, last := nodes[..|nodes| - 1], nodes[|nodes| - 1];
      assert nodes == front + [last];
      AllReplicasIn(h, front, count, v);
      ReplicasAre(h, last, count, v);
    }
  }

  /** The ring holds exactly the virtual nodes of its nodes. */
  lemma BuildIn(h: HashFunction, nodes: seq<string>, count: nat, v: VirtualNode)
    ensures v in Build(h, nodes, count)
      <==> v.nodeId in nodes && v.replica < count && v == Replica(h, v.nodeId, v.replica)
  {
    BuildSortsOnce(h, nodes, count);
    SortIn(AllReplicas(h, nodes, count), ByHash(), v);
    AllReplicasIn(h, nodes, count, v);
  }

  // ---- The ring object ----------------------------------------------------------------------------

  lemma {:induction false} FirstSeenPrefix(s: seq<VirtualNode>, i: nat)
    requires i <= |s|
    ensures FirstSeen(s[..i]) <= FirstSeen(s)
  {
    if i < |s| {
      FirstSeenPrefix(s[..|s| - 1], i);
      assert s[..|s| - 1][..i] == s[..i];
    } else {
      assert s[..i] == s;
    }
  }

  lemma CutShort(walk: seq<VirtualNode>, i: nat, count: nat)
    requires i <= |walk| && |FirstSeen(walk[..i])| <= count
    requires i == |walk| || |FirstSeen(walk[..i])| == count
    ensures var full := FirstSeen(walk);
            FirstSeen(walk[..i]) == if count < |full| then full[..count] else full
  {
    FirstSeenPrefix(walk, i);
    if i == |walk| { assert walk[..i] == walk; }
  }

  lemma ProductAtLeast(n: nat, q: int, low: int)
    requires q >= low
    ensures n * q >= n * low
  {
    assert n * q - n * low == n * (q - low);
  }

  lemma Wrap(m: nat, n: nat)
    requires m < 2 * n
    ensures m % n == if m < n then m else m - n
  {
    var q := m / n;
    assert m == n * q + m % n;
    if q <= 0 { ProductAtLeast(n, 0, q); } else { ProductAtLeast(n, q, 1); }
    if q >= 2 { ProductAtLeast(n, q, 2); }
  }

  lemma WalkAt(ring: seq<VirtualNode>, k: int, i: nat)
    requires i < |ring|
    ensures 0 <= (Start(ring, k) + i) % |ring| < |ring|
    ensures Walk(ring, k)[i] == ring[(Start(ring, k) + i) % |ring|]
  {
    Wrap(Start(ring, k) + i, |ring|);
  }

  class ConsistentHashRing {
    var ring: seq<VirtualNode>
    const virtualNodesPerNode: nat
    const hash: HashFunction

    ghost predicate Valid()
      reads this
    {
      Sorted(ring, ByHash())
    }

    constructor (virtualNodesPerNode: nat, hash: HashFunction)
      ensures Valid() && ring == []
      ensures this.virtualNodesPerNode == virtualNodesPerNode && this.hash == hash
    {
      ring := [];
      this.virtualNodesPerNode, this.hash := virtualNodesPerNode, hash;
    }

    method AddNode(nodeId: string)
      modifies this
      ensures Valid() && ring == WithNode(hash, old(ring), nodeId, virtualNodesPerNode)
    {
      for i := 0 to virtualNodesPerNode
        invariant ring == old(ring) + Replicas(hash, nodeId, i)
      {
        ring := ring + [VirtualNode(nodeId, hash(VirtualKey(nodeId, i)), i)];
      }
      SortIsStable(ring, ByHash(), 0);
      ring := Sort(ring, ByHash());
    }

    method RemoveNode(nodeId: string)
      requires Valid()
      modifies this
      ensures Valid() && ring == Without(old(ring), nodeId)
    {
      FilterSorted(ring, NotNode(nodeId), ByHash());
      ring := Filter(ring, NotNode(nodeId));
    }

    method GetNode(key: string) returns (nodeId: Option<string>)
      ensures nodeId == Owner(ring, hash(key))
    {
      if |ring| == 0 { return None; }
      var keyHash := hash(key);
      for i := 0 to |ring|
        invariant forall j :: 0 <= j < i ==> ring[j].hash < keyHash
      {
        if ring[i].hash >= keyHash {
          assert Search(ring, keyHash) == i;
          return Some(ring[i].nodeId);
        }
      }
      nodeId := Some(ring[0].nodeId);
    }

    /** The position `getNodes` starts from. */
    method FindStart(keyHash: int) returns (startIndex: nat)
      ensures startIndex == Start(ring, keyHash)
    {
      startIndex := 0;
      for i := 0 to |ring|
        invariant startIndex == 0
        invariant forall j :: 0 <= j < i ==> ring[j].hash < keyHash
      {
        if ring[i].hash >= keyHash {
          assert Search(ring, keyHash) == i;
          return i;
        }
      }
    }

    method GetNodes(key: string, count: int) returns (result: seq<string>)
      ensures var full := Preference(ring, hash(key));
              result == if count <= 0 then [] else if count < |full| then full[..count] else full
      ensures LeadingNodes(Walk(ring, hash(key)), result)
      ensures |result| == Max(0, Min(count, |NodeIds(ring)|))
    {
      PreferenceNodes(ring, hash(key));
      FirstSeenLeads(Walk(ring, hash(key)), Max(0, Min(count, |NodeIds(ring)|)));
      if |ring| == 0 || count <= 0 { return []; }
      var startIndex := FindStart(hash(key));
      result := CollectUnique(hash(key), startIndex, count);
    }

    /** The loop of `getNodes` that collects distinct nodes from the start on. */
    method CollectUnique(ghost keyHash: int, startIndex: nat, count: nat) returns (result: seq<string>)
      requires ring != [] && startIndex == Start(ring, keyHash)
      ensures var full := Preference(ring, keyHash);
              result == if count < |full| then full[..count] else full
    {
      ghost var walk := Walk(ring, keyHash);
      result := [];
      var seen, i := {}, 0;
      while i < |ring| && |result| < count
        invariant 0 <= i <= |ring| && |result| <= count
        invariant result == FirstSeen(walk[..i])
        invariant seen == set id | id in result
      {
        WalkAt(ring, keyHash, i);
        var index := (startIndex + i) % |ring|;
        var nodeId := ring[index].nodeId;
        assert walk[..i + 1][..i] == walk[..i];
        if nodeId !in seen {
          seen := seen + {nodeId};
          result := result + [nodeId];
        }
        i := i + 1;
      }
      CutShort(walk, i, count);
    }

    /** `members` lists the membership table: node id and whether its status is ALIVE. */
    method Rebuild(members: seq<(string, bool)>)
      modifies this
      ensures Valid() && ring == Build(hash, AliveIds(members), virtualNodesPerNode)
      ensures forall v :: v in ring <==>
                && (v.nodeId, true) in members
                && v.replica < virtualNodesPerNode && v == Replica(hash, v.nodeId, v.replica)
    {
      ring := [];
      for i := 0 to |members|
        invariant Valid() && ring == Build(hash, AliveIds(members[..i]), virtualNodesPerNode)
      {
        assert members[..i + 1][..i] == members[..i];
        if members[i].1 {
          AddNode(members[i].0);
          assert AliveIds(members[..i + 1])[..|AliveIds(members[..i])|] == AliveIds(members[..i]);
        }
      }
      assert members[..|members|] == members;
      forall v ensures v in ring <==>
        (v.nodeId, true) in members && v.replica < virtualNodesPerNode && v == Replica(hash, v.nodeId, v.replica)
      {
        BuildIn(hash, AliveIds(members), virtualNodesPerNode, v);
        AliveIn(members, v.nodeId);
      }
    }
  }

  lemma {:induction false} AliveIn(members: seq<(string, bool)>, x: string)
    ensures x in AliveIds(members) <==> (x, true) in members
  {
    if members != [] {
      AliveIn(members[..|members| - 1], x);
      assert members == members[..|members| - 1] + [members[|members| - 1]];
    }
  }

  function AliveIds(members: seq<(string, bool)>): seq<string> {
    if members == [] then []
    else
      var rest := AliveIds(members[..|members| - 1]);
      if members[|members| - 1].1 then rest + [members[|members| - 1].0] else rest
  }
}
