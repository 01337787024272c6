/** Placement by hashing, and the policies that rely on every node computing the same owner:
    `HashPlacement` and the self-selection test of `AutoReclaimPolicy`. */
module Placement {
  import opened Common
  import opened StableSort
  import opened HashRing

  /** `HashPlacement.selectNode` for a resource whose hash is `k`. */
  function Select(h: HashFunction, count: nat, k: int, local: string, candidates: seq<string>): string {
    match Owner(Build(h, candidates, count), k)
    case Some(nodeId) => nodeId
    case None => local
  }

  method BuildRing(h: HashFunction, count: nat, candidates: seq<string>) returns (ring: ConsistentHashRing)
    ensures fresh(ring) && ring.ring == Build(h, candidates, count) && ring.hash == h
  {
    ring := new ConsistentHashRing(count, h);
    for i := 0 to |candidates|
      invariant fresh(ring) && ring.ring == Build(h, candidates[..i], count)
      invariant ring.virtualNodesPerNode == count && ring.hash == h
    {
      ring.AddNode(candidates[i]);
      assert candidates[..i + 1][..i] == candidates[..i];
    }
    assert candidates[..|candidates|] == candidates;
  }

  method SelectNode(h: HashFunction, count: nat, resourceId: string, local: string, candidates: seq<string>)
    returns (selected: string)
    ensures selected == Select(h, count, h(resourceId), local, candidates)
    ensures if candidates == [] || count == 0 then selected == local else selected in candidates
  {
    SelectIsMember(h, count, h(resourceId), local, candidates);
    if |candidates| == 0 { return local; }
    var ring := BuildRing(h, count, candidates);
    var owner := ring.GetNode(resourceId);
    selected := match owner case Some(nodeId) => nodeId case None => local;
  }

  // ---- Agreement ----------------------------------------------------------------------------------

  /** Two views of one membership: the same nodes, each once, in possibly different orders. */
  ghost predicate SameMembers(p: seq<string>, q: seq<string>) {
    NoRepeats(p) && NoRepeats(q) && forall x :: x in p <==> x in q
  }

  /** No replica of one node hashes to the same value as a replica of another. */
  ghost predicate NoTies(h: HashFunction, nodes: seq<string>, count: nat) {
    forall x, y, i: nat, j: nat :: x in nodes && y in nodes && x != y && i < count && j < count
      ==> Replica(h, x, i).hash != Replica(h, y, j).hash
  }

  /** Whatever order a node sees the members in, every resource has the same owner. */
  ghost predicate OrderIndependent(h: HashFunction, nodes: seq<string>, count: nat) {
    forall p, q, r :: SameMembers(nodes, p) && SameMembers(nodes, q)
      ==> Owner(Build(h, p, count), h(r)) == Owner(Build(h, q, count), h(r))
  }

  /** When only `x` has replicas at hash `k`, the ring's elements there are `x`'s, once. */
  lemma {:induction false} OneNodeAtHash(h: HashFunction, nodes: seq<string>, count: nat, k: int, x: string)
    requires NoRepeats(nodes)
    requires forall y :: y in nodes && y != x ==> WithKey(Replicas(h, y, count), ByHash(), k) == []
    ensures WithKey(AllReplicas(h, nodes, count), ByHash(), k)
            == if x in nodes then WithKey(Replicas(h, x, count), ByHash(), k) else []
  {
    if nodes != [] {
      var front, last := nodes[..|nodes| - 1], nodes[|nodes| - 1];
      assert nodes == front + [last];
      OneNodeAtHash(h, front, count, k, x);
      WithKeyAppend(AllReplicas(h, front, count), Replicas(h, last, count), ByHash(), k);
    }
  }

  lemma NodeAtHash(h: HashFunction, x: string, count: nat, k: int) returns (i: nat)
    requires WithKey(Replicas(h, x, count), ByHash(), k) != []
    ensures i < count && Replica(h, x, i).hash == k
  {
    var v := WithKey(Replicas(h, x, count), ByHash(), k)[0];
    WithKeyIn(Replicas(h, x, count), ByHash(), k, v);
    ReplicasAre(h, x, count, v);
    i := v.replica;
  }

  lemma HashHasReplica(h: HashFunction, x: string, count: nat, i: nat)
    requires i < count
    ensures WithKey(Replicas(h, x, count), ByHash(), Replica(h, x, i).hash) != []
  {
    var v := Replica(h, x, i);
    ReplicasAre(h, x, count, v);
    WithKeyIn(Replicas(h, x, count), ByHash(), v.hash, v);
  }

  lemma SameAtHash(h: HashFunction, p: seq<string>, q: seq<string>, count: nat, k: int)
    requires SameMembers(p, q) && NoTies(h, p, count)
    ensures WithKey(AllReplicas(h, p, count), ByHash(), k) == WithKey(AllReplicas(h, q, count), ByHash(), k)
  {
    var x := "";
    if y :| y in p && WithKey(Replicas(h, y, count), ByHash(), k) != [] { x := y; }
    forall y | y in p && y != x ensures WithKey(Replicas(h, y, count), ByHash(), k) == [] {
      if WithKey(Replicas(h, y, count), ByHash(), k) != [] {
        var i := NodeAtHash(h, y, count, k);
        var j := NodeAtHash(h, x, count, k);
      }
    }
    OneNodeAtHash(h, p, count, k, x);
    OneNodeAtHash(h, q, count, k, x);
  }

  /** Without cross-node ties the whole ring does not depend on the order of the members. */
  lemma SameRing(h: HashFunction, p: seq<string>, q: seq<string>, count: nat)
    requires SameMembers(p, q) && NoTies(h, p, count)
    ensures Build(h, p, count) == Build(h, q, count)
  {
    var a, b := AllReplicas(h, p, count), AllReplicas(h, q, count);
    BuildSortsOnce(h, p, count);
    BuildSortsOnce(h, q, count);
    SortIsStable(a, ByHash(), 0);
    forall k ensures WithKey(Sort(a, ByHash()), ByHash(), k) == WithKey(b, ByHash(), k) {
      SortIsStable(a, ByHash(), k);
      SameAtHash(h, p, q, count, k);
    }
    SortUnique(b, Sort(a, ByHash()), ByHash());
  }

  // ---- With a tie, the order decides ---------------------------------------------------------------

  /** A hash that occurs in an ordered ring is where the search for it stops. */
  lemma SearchFindsHash(ring: seq<VirtualNode>, k: int)
    requires Sorted(ring, ByHash()) && WithKey(ring, ByHash(), k) != []
    ensures Search(ring, k) < |ring| && ring[Search(ring, k)].hash == k
  {
    var i, v := Search(ring, k), WithKey(ring, ByHash(), k)[0];
    WithKeyIn(ring, ByHash(), k, v);
    var j :| 0 <= j < |ring| && ring[j] == v;
    assert i < j ==> ByHash()(ring[i]) <= ByHash()(ring[j]);
  }

  /** Its first occurrence is the first element with that key. */
  lemma {:induction false} FirstWithHash(ring: seq<VirtualNode>, k: int)
    requires Search(ring, k) < |ring| && ring[Search(ring, k)].hash == k
    ensures WithKey(ring, ByHash(), k) != [] && WithKey(ring, ByHash(), k)[0] == ring[Search(ring, k)]
  {
    if ring[0].hash < k { FirstWithHash(ring[1..], k); }
  }

  lemma OwnerAtHash(ring: seq<VirtualNode>, k: int)
    requires Sorted(ring, ByHash()) && WithKey(ring, ByHash(), k) != []
    ensures Owner(ring, k) == Some(WithKey(ring, ByHash(), k)[0].nodeId)
  {
    SearchFindsHash(ring, k);
    FirstWithHash(ring, k);
  }

  lemma {:induction false} FirstNodeFirst(h: HashFunction, nodes: seq<string>, count: nat, k: int)
    requires nodes != [] && WithKey(Replicas(h, nodes[0], count), ByHash(), k) != []
    ensures WithKey(AllReplicas(h, nodes, count), ByHash(), k) != []
    ensures WithKey(AllReplicas(h, nodes, count), ByHash(), k)[0].nodeId == nodes[0]
  {
    var front, last := nodes[..|nodes| - 1], nodes[|nodes| - 1];
    WithKeyAppend(AllReplicas(h, front, count), Replicas(h, last, count), ByHash(), k);
    if |nodes| == 1 {
      var w := WithKey(Replicas(h, nodes[0], count), ByHash(), k);
      WithKeyIn(Replicas(h, nodes[0], count), ByHash(), k, w[0]);
      ReplicasAre(h, nodes[0], count, w[0]);
      assert AllReplicas(h, nodes, count) == Replicas(h, last, count);
    } else {
      FirstNodeFirst(h, front, count, k);
    }
  }

  /** The node listed first owns a key at any of its own replica hashes. */
  lemma ListedFirstOwns(h: HashFunction, nodes: seq<string>, count: nat, i: nat)
    requires nodes != [] && i < count
    ensures Owner(Build(h, nodes, count), Replica(h, nodes[0], i).hash) == Some(nodes[0])
  {
    var k := Replica(h, nodes[0], i).hash;
    HashHasReplica(h, nodes[0], count, i);
    FirstNodeFirst(h, nodes, count, k);
    BuildSortsOnce(h, nodes, count);
    SortIsStable(AllReplicas(h, nodes, count), ByHash(), k);
    OwnerAtHash(Build(h, nodes, count), k);
  }

  lemma ListFirst(nodes: seq<string>, x: string) returns (p: seq<string>)
    requires NoRepeats(nodes) && x in nodes
    ensures SameMembers(nodes, p) && p != [] && p[0] == x
  {
    var i :| 0 <= i < |nodes| && nodes[i] == x;
    p := [x] + nodes[..i] + nodes[i + 1..];
    assert nodes == nodes[..i] + [x] + nodes[i + 1..];
  }

  /** Nodes that see the same members in different orders agree on every owner exactly when no two
      nodes have replicas at the same hash. */
  lemma AgreementIff(h: HashFunction, nodes: seq<string>, count: nat)
    requires NoRepeats(nodes)
    ensures OrderIndependent(h, nodes, count) <==> NoTies(h, nodes, count)
  {
    if NoTies(h, nodes, count) {
      forall p, q, r | SameMembers(nodes, p) && SameMembers(nodes, q)
        ensures Owner(Build(h, p, count), h(r)) == Owner(Build(h, q, count), h(r))
      {
        SameRing(h, nodes, p, count);
        SameRing(h, nodes, q, count);
      }
    } else {
      var x, y, i: nat, j: nat :| x in nodes && y in nodes && x != y && i < count && j < count
        && Replica(h, x, i).hash == Replica(h, y, j).hash;
      var p := ListFirst(nodes, x);
      var q := ListFirst(nodes, y);
      ListedFirstOwns(h, p, count, i);
      ListedFirstOwns(h, q, count, j);
      assert Owner(Build(h, p, count), h(VirtualKey(x, i))) != Owner(Build(h, q, count), h(VirtualKey(x, i)));
    }
  }

  // ---- Reclaiming orphans --------------------------------------------------------------------------

  /** A node reclaims an orphan when the strategy selects the node itself. */
  ghost predicate Reclaims(h: HashFunction, count: nat, k: int, view: seq<string>, node: string) {
    Select(h, count, k, node, view) == node
  }

  ghost predicate AreViews(nodes: seq<string>, views: map<string, seq<string>>) {
    forall y :: y in nodes ==> y in views && SameMembers(nodes, views[y])
  }

  ghost predicate OnlyReclaimer(
    h: HashFunction, count: nat, k: int, nodes: seq<string>, views: map<string, seq<string>>, x: string)
    requires AreViews(nodes, views)
  {
    x in nodes && forall y :: y in nodes ==> (Reclaims(h, count, k, views[y], y) <==> y == x)
  }

  ghost predicate ExactlyOneReclaims(
    h: HashFunction, count: nat, k: int, nodes: seq<string>, views: map<string, seq<string>>)
    requires AreViews(nodes, views)
  {
    exists x :: OnlyReclaimer(h, count, k, nodes, views, x)
  }

  /** Every orphan, in every combination of views, is reclaimed by exactly one survivor. */
  ghost predicate ReclaimsOnce(h: HashFunction, count: nat, nodes: seq<string>) {
    forall r, views :: AreViews(nodes, views) ==> ExactlyOneReclaims(h, count, h(r), nodes, views)
  }

  lemma OwnerIsMember(h: HashFunction, nodes: seq<string>, count: nat, k: int)
    requires nodes != [] && count >= 1
    ensures Owner(Build(h, nodes, count), k).Some? && Owner(Build(h, nodes, count), k).value in nodes
  {
    var ring, flat := Build(h, nodes, count), AllReplicas(h, nodes, count);
    BuildSortsOnce(h, nodes, count);
    var last := nodes[|nodes| - 1];
    ReplicasAre(h, last, count, Replica(h, last, 0));
    SortIn(flat, ByHash(), Replica(h, last, 0));
    var v := Walk(ring, k)[0];
    assert v in ring;
    SortIn(flat, ByHash(), v);
    AllReplicasIn(h, nodes, count, v);
  }

  lemma {:induction false} NoReplicasNoRing(h: HashFunction, nodes: seq<string>)
    ensures Build(h, nodes, 0) == []
  {
    if nodes != [] {
      NoReplicasNoRing(h, nodes[..|nodes| - 1]);
    }
  }

  lemma SelectIsMember(h: HashFunction, count: nat, k: int, local: string, candidates: seq<string>)
    ensures var selected := Select(h, count, k, local, candidates);
            if candidates == [] || count == 0 then selected == local else selected in candidates
  {
    if count == 0 {
      NoReplicasNoRing(h, candidates);
    } else if candidates != [] {
      OwnerIsMember(h, candidates, count, k);
    }
  }

  lemma ViewReclaims(h: HashFunction, count: nat, k: int, nodes: seq<string>, view: seq<string>, y: string, x: string)
    requires SameMembers(nodes, view) && NoTies(h, nodes, count)
    requires Owner(Build(h, nodes, count), k) == Some(x)
    ensures Reclaims(h, count, k, view, y) <==> y == x
  {
    SameRing(h, nodes, view, count);
  }

  lemma OneReclaims(h: HashFunction, count: nat, k: int, nodes: seq<string>, views: map<string, seq<string>>)
    requires NoRepeats(nodes) && nodes != [] && count >= 1 && NoTies(h, nodes, count)
    requires AreViews(nodes, views)
    ensures ExactlyOneReclaims(h, count, k, nodes, views)
  {
    OwnerIsMember(h, nodes, count, k);
    var x := Owner(Build(h, nodes, count), k).value;
    forall y | y in nodes ensures Reclaims(h, count, k, views[y], y) <==> y == x {
      ViewReclaims(h, count, k, nodes, views[y], y, x);
    }
    assert OnlyReclaimer(h, count, k, nodes, views, x);
  }

  lemma TieReclaimsTwice(h: HashFunction, count: nat, nodes: seq<string>, x: string, y: string, i: nat, j: nat)
    requires NoRepeats(nodes) && x in nodes && y in nodes && x != y && i < count && j < count
    requires Replica(h, x, i).hash == Replica(h, y, j).hash
    ensures !ReclaimsOnce(h, count, nodes)
  {
    var p := ListFirst(nodes, x);
    var q := ListFirst(nodes, y);
    ListedFirstOwns(h, p, count, i);
    ListedFirstOwns(h, q, count, j);
    TwoReclaimers(h, count, VirtualKey(x, i), nodes, TwoViews(nodes, x, p, q), x, y);
  }

  ghost function TwoViews(nodes: seq<string>, x: string, p: seq<string>, q: seq<string>)
    : (views: map<string, seq<string>>)
    requires SameMembers(nodes, p) && SameMembers(nodes, q)
    ensures AreViews(nodes, views)
    ensures forall z :: z in nodes ==> views[z] == if z == x then p else q
  {
    map z | z in nodes :: if z == x then p else q
  }

  lemma TwoReclaimers(h: HashFunction, count: nat, r: string, nodes: seq<string>,
                      views: map<string, seq<string>>, x: string, y: string)
    requires AreViews(nodes, views) && x in nodes && y in nodes && x != y
    requires Reclaims(h, count, h(r), views[x], x) && Reclaims(h, count, h(r), views[y], y)
    ensures !ReclaimsOnce(h, count, nodes)
  {
    assert !ExactlyOneReclaims(h, count, h(r), nodes, views);
  }

  /** With two or more survivors, each orphan is reclaimed exactly once whatever order the survivors
      see each other in, exactly when nodes have replicas and no two nodes share a replica hash. */
  lemma ReclaimIff(h: HashFunction, count: nat, nodes: seq<string>)
    requires NoRepeats(nodes) && |nodes| >= 2
    ensures ReclaimsOnce(h, count, nodes) <==> count >= 1 && NoTies(h, nodes, count)
  {
    if count == 0 {
      NoReplicasNoRing(h, nodes);
      TwoReclaimers(h, count, "", nodes, TwoViews(nodes, "", nodes, nodes), nodes[0], nodes[1]);
    } else if NoTies(h, nodes, count) {
      forall r, views | AreViews(nodes, views) ensures ExactlyOneReclaims(h, count, h(r), nodes, views) {
        OneReclaims(h, count, h(r), nodes, views);
      }
    } else {
      var x, y, i: nat, j: nat :| x in nodes && y in nodes && x != y && i < count && j < count
        && Replica(h, x, i).hash == Replica(h, y, j).hash;
      TieReclaimsTwice(h, count, nodes, x, y, i, j);
    }
  }

  /** The part of `AutoReclaimPolicy` that decides: a claim timer is set, or the orphan is skipped. */
  class AutoReclaimPolicy {
    const nodeId: string
    const hash: HashFunction
    const virtualNodesPerNode: nat
    var timers: set<string>
    var skipped: seq<string>

    constructor (nodeId: string, hash: HashFunction, virtualNodesPerNode: nat)
      ensures timers == {} && skipped == []
      ensures this.nodeId == nodeId && this.hash == hash && this.virtualNodesPerNode == virtualNodesPerNode
    {
      this.nodeId, this.hash, this.virtualNodesPerNode := nodeId, hash, virtualNodesPerNode;
      timers, skipped := {}, [];
    }

    method HandleOrphaned(resourceId: string, candidates: seq<string>)
      modifies this
      ensures Reclaims(hash, virtualNodesPerNode, hash(resourceId), candidates, nodeId)
              ==> timers == old(timers) + {resourceId} && skipped == old(skipped)
      ensures !Reclaims(hash, virtualNodesPerNode, hash(resourceId), candidates, nodeId)
              ==> timers == old(timers) && skipped == old(skipped) + [resourceId]
    {
      var selected := SelectNode(hash, virtualNodesPerNode, resourceId, nodeId, candidates);
      if selected != nodeId {
        skipped := skipped + [resourceId];
        return;
      }
      timers := timers + {resourceId};
    }
  }
}
