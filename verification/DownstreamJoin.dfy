/** `findDownstreamJoin`: breadth-first search for the nearest join, on graphs that may be cyclic and
    may have edges to nodes that do not exist. */
module DownstreamJoin {
  import opened Common

  /** `nodesById` (is the node a join?) and `outgoingBySource`. */
  datatype Graph = Graph(isJoin: map<string, bool>, outgoing: map<string, seq<Edge>>)

  function Out(g: Graph, u: string): seq<Edge> { if u in g.outgoing then g.outgoing[u] else [] }

  ghost predicate IsEdge(g: Graph, u: string, e: Edge) { u in g.outgoing && e in g.outgoing[u] }

  /** `w` is reached from `start` over `d` edges, leaving only nodes that exist. */
  ghost predicate Reach(g: Graph, start: string, w: string, d: nat)
    decreases d
  {
    if d == 0 then w == start
    else exists u, e :: Reach(g, start, u, d - 1) && u in g.isJoin && IsEdge(g, u, e) && e.target == w
  }

  ghost predicate JoinAt(g: Graph, start: string, w: string, d: nat) {
    Reach(g, start, w, d) && w in g.isJoin && g.isJoin[w]
  }

  ghost predicate NoJoinWithin(g: Graph, start: string, d: nat) {
    forall w, d' :: 0 <= d' < d ==> !JoinAt(g, start, w, d')
  }

  /** `via` is the last edge of a shortest way to `w`, or the edge the search came in by. */
  ghost predicate Via(g: Graph, start: string, initial: Option<Edge>, w: string, via: Option<Edge>, d: nat) {
    if d == 0 then w == start && via == initial
    else
      && via.Some? && via.value.target == w
      && exists u :: Reach(g, start, u, d - 1) && u in g.isJoin && IsEdge(g, u, via.value)
  }

  datatype Item = Item(nodeId: string, via: Option<Edge>)

  // ---- The search state -----------------------------------------------------------------------------

  /** `dist` maps visited ids to the distance they were dequeued at; `depth` runs along the queue. */
  datatype Search = Search(dist: map<string, nat>, queue: seq<Item>, depth: seq<nat>)

  ghost predicate Seen(s: Search, w: string, d: nat)
    requires |s.depth| == |s.queue|
  {
    || (w in s.dist && s.dist[w] <= d)
    || exists i :: 0 <= i < |s.queue| && s.queue[i].nodeId == w && s.depth[i] <= d
  }

  ghost predicate QueueInv(g: Graph, start: string, initial: Option<Edge>, s: Search) {
    && |s.depth| == |s.queue|
    && (forall i, j :: 0 <= i < j < |s.depth| ==> s.depth[i] <= s.depth[j] <= s.depth[i] + 1)
    && (forall i :: 0 <= i < |s.queue| ==>
         && Reach(g, start, s.queue[i].nodeId, s.depth[i])
         && Via(g, start, initial, s.queue[i].nodeId, s.queue[i].via, s.depth[i]))
  }

  ghost predicate VisitedInv(g: Graph, s: Search)
    requires |s.depth| == |s.queue|
  {
    && (forall v :: v in s.dist && v in g.isJoin ==> !g.isJoin[v])
    && (forall v, i :: v in s.dist && 0 <= i < |s.depth| ==> s.dist[v] <= s.depth[i])
  }

  /** Successors of visited nodes have been seen in time. */
  ghost predicate FrontierInv(g: Graph, start: string, s: Search)
    requires |s.depth| == |s.queue|
  {
    && Seen(s, start, 0)
    && forall v, e :: v in s.dist && v in g.isJoin && e in Out(g, v) ==> Seen(s, e.target, s.dist[v] + 1)
  }

  ghost predicate Inv(g: Graph, start: string, initial: Option<Edge>, s: Search) {
    QueueInv(g, start, initial, s) && VisitedInv(g, s) && FrontierInv(g, start, s)
  }

  /** Whatever is reachable in `d` steps has been visited by then, or the queue is not past `d`. */
  lemma {:induction false} Frontier(g: Graph, start: string, s: Search, w: string, d: nat)
    requires |s.depth| == |s.queue| && FrontierInv(g, start, s) && Reach(g, start, w, d)
    ensures (w in s.dist && s.dist[w] <= d) || exists i :: 0 <= i < |s.depth| && s.depth[i] <= d
    decreases d
  {
    if d == 0 {
      assert Seen(s, start, 0);
    } else {
      var u, e :| Reach(g, start, u, d - 1) && u in g.isJoin && IsEdge(g, u, e) && e.target == w;
      Frontier(g, start, s, u, d - 1);
      if u in s.dist && s.dist[u] <= d - 1 { assert Seen(s, w, s.dist[u] + 1); }
    }
  }

  /** No join is nearer than the head of the queue. */
  lemma NoneNearer(g: Graph, start: string, initial: Option<Edge>, s: Search)
    requires Inv(g, start, initial, s) && s.queue != []
    ensures NoJoinWithin(g, start, s.depth[0])
  {
    forall w, d' | 0 <= d' < s.depth[0] ensures !JoinAt(g, start, w, d') {
      if JoinAt(g, start, w, d') { Frontier(g, start, s, w, d'); }
    }
  }

  lemma NoneLeft(g: Graph, start: string, initial: Option<Edge>, s: Search, w: string, d: nat)
    requires Inv(g, start, initial, s) && s.queue == []
    ensures !JoinAt(g, start, w, d)
  {
    if JoinAt(g, start, w, d) { Frontier(g, start, s, w, d); }
  }

  // ---- Steps ----------------------------------------------------------------------------------------

  ghost function Pop(s: Search): Search
    requires s.queue != [] && |s.depth| == |s.queue|
  {
    Search(if s.queue[0].nodeId in s.dist then s.dist else s.dist[s.queue[0].nodeId := s.depth[0]],
           s.queue[1..], s.depth[1..])
  }

  lemma PopSeen(g: Graph, start: string, initial: Option<Edge>, s: Search, w: string, d: nat)
    requires Inv(g, start, initial, s) && s.queue != [] && Seen(s, w, d)
    ensures Seen(Pop(s), w, d)
  {
    if !(w in s.dist && s.dist[w] <= d) {
      var i :| 0 <= i < |s.queue| && s.queue[i].nodeId == w && s.depth[i] <= d;
      if i > 0 { assert Pop(s).queue[i - 1].nodeId == w && Pop(s).depth[i - 1] <= d; }
    }
  }

  /** Dequeuing keeps everything except the promise for the node's own successors. */
  lemma PopKeeps(g: Graph, start: string, initial: Option<Edge>, s: Search)
    requires Inv(g, start, initial, s) && s.queue != []
    requires var n := s.queue[0].nodeId; n in s.dist || n !in g.isJoin || !g.isJoin[n]
    ensures var s' := Pop(s);
            && QueueInv(g, start, initial, s') && VisitedInv(g, s') && Seen(s', start, 0)
            && forall v, e :: v in s.dist && v in g.isJoin && e in Out(g, v) ==> Seen(s', e.target, s'.dist[v] + 1)
  {
    PopSeen(g, start, initial, s, start, 0);
    forall v, e | v in s.dist && v in g.isJoin && e in Out(g, v) ensures Seen(Pop(s), e.target, s.dist[v] + 1) {
      PopSeen(g, start, initial, s, e.target, s.dist[v] + 1);
    }
  }

  /** Dequeuing a node that is visited already or does not exist keeps the whole invariant. */
  lemma PopKeepsInv(g: Graph, start: string, initial: Option<Edge>, s: Search)
    requires Inv(g, start, initial, s) && s.queue != []
    requires var n := s.queue[0].nodeId; n in s.dist || n !in g.isJoin
    ensures Inv(g, start, initial, Pop(s))
  {
    PopKeeps(g, start, initial, s);
  }

  /** The items pushed for `edges`: one per target that is not visited yet. */
  function Pushed(visited: set<string>, edges: seq<Edge>): seq<Item> {
    if edges == [] then []
    else
      var e, rest := edges[|edges| - 1], Pushed(visited, edges[..|edges| - 1]);
      if e.target in visited then rest else rest + [Item(e.target, Some(e))]
  }

  lemma {:induction false} PushedAre(visited: set<string>, edges: seq<Edge>)
    ensures forall it :: it in Pushed(visited, edges)
              ==> it.via.Some? && it.via.value in edges && it.nodeId == it.via.value.target
    ensures forall e :: e in edges && e.target !in visited ==> Item(e.target, Some(e)) in Pushed(visited, edges)
  {
    if edges != [] {
      PushedAre(visited, edges[..|edges| - 1]);
      assert edges == edges[..|edges| - 1] + [edges[|edges| - 1]];
    }
  }

  ghost function Expand(g: Graph, s: Search, n: string, d: nat): Search {
    var more := Pushed(s.dist.Keys, Out(g, n));
    Search(s.dist, s.queue + more, s.depth + seq(|more|, _ => d + 1))
  }

  lemma ExpandSeen(g: Graph, s: Search, n: string, d: nat, w: string, m: nat)
    requires |s.depth| == |s.queue| && Seen(s, w, m)
    ensures Seen(Expand(g, s, n, d), w, m)
  {
    var s' := Expand(g, s, n, d);
    if !(w in s.dist && s.dist[w] <= m) {
      var i :| 0 <= i < |s.queue| && s.queue[i].nodeId == w && s.depth[i] <= m;
      assert s'.queue[i].nodeId == w && s'.depth[i] <= m;
    }
  }

  lemma ExpandedSuccessor(g: Graph, s: Search, n: string, d: nat, e: Edge)
    requires |s.depth| == |s.queue| && e in Out(g, n)
    requires e.target in s.dist ==> s.dist[e.target] <= d + 1
    ensures Seen(Expand(g, s, n, d), e.target, d + 1)
  {
    var s', more := Expand(g, s, n, d), Pushed(s.dist.Keys, Out(g, n));
    PushedAre(s.dist.Keys, Out(g, n));
    if e.target !in s.dist {
      var i :| 0 <= i < |more| && more[i] == Item(e.target, Some(e));
      assert s'.queue[|s.queue| + i] == more[i] && s'.depth[|s.queue| + i] == d + 1;
    }
  }

  lemma StepReaches(g: Graph, start: string, initial: Option<Edge>, n: string, d: nat, e: Edge)
    requires Reach(g, start, n, d) && n in g.isJoin && e in Out(g, n)
    ensures Reach(g, start, e.target, d + 1) && Via(g, start, initial, e.target, Some(e), d + 1)
  {
  }

  lemma ExpandDepths(g: Graph, s: Search, n: string, d: nat)
    requires |s.depth| == |s.queue|
    requires forall i, j :: 0 <= i < j < |s.depth| ==> s.depth[i] <= s.depth[j] <= s.depth[i] + 1
    requires forall i :: 0 <= i < |s.depth| ==> d <= s.depth[i] <= d + 1
    ensures var s' := Expand(g, s, n, d);
            && |s'.depth| == |s'.queue|
            && forall i, j :: 0 <= i < j < |s'.depth| ==> s'.depth[i] <= s'.depth[j] <= s'.depth[i] + 1
  {
    var s' := Expand(g, s, n, d);
    assert forall i :: 0 <= i < |s'.depth| ==> s'.depth[i] == if i < |s.depth| then s.depth[i] else d + 1;
  }

  lemma ExpandItem(g: Graph, start: string, initial: Option<Edge>, s: Search, n: string, d: nat, i: nat)
    requires |s.depth| == |s.queue| <= i < |Expand(g, s, n, d).queue| && Reach(g, start, n, d) && n in g.isJoin
    ensures var s' := Expand(g, s, n, d);
            && Reach(g, start, s'.queue[i].nodeId, s'.depth[i])
            && Via(g, start, initial, s'.queue[i].nodeId, s'.queue[i].via, s'.depth[i])
  {
    var more := Pushed(s.dist.Keys, Out(g, n));
    PushedAre(s.dist.Keys, Out(g, n));
    var it := more[i - |s.queue|];
    assert it in more;
    StepReaches(g, start, initial, n, d, it.via.value);
  }

  lemma ExpandQueue(g: Graph, start: string, initial: Option<Edge>, s: Search, n: string, d: nat)
    requires QueueInv(g, start, initial, s) && Reach(g, start, n, d) && n in g.isJoin
    requires forall i :: 0 <= i < |s.depth| ==> d <= s.depth[i] <= d + 1
    ensures QueueInv(g, start, initial, Expand(g, s, n, d))
  {
    var s' := Expand(g, s, n, d);
    ExpandDepths(g, s, n, d);
    forall i | 0 <= i < |s'.queue|
      ensures Reach(g, start, s'.queue[i].nodeId, s'.depth[i])
      ensures Via(g, start, initial, s'.queue[i].nodeId, s'.queue[i].via, s'.depth[i])
    {
      if i < |s.queue| {
        assert s'.queue[i] == s.queue[i] && s'.depth[i] == s.depth[i];
      } else {
        ExpandItem(g, start, initial, s, n, d, i);
      }
    }
  }

  /** A whole iteration that goes on to the successors of the dequeued node. */
  lemma ExpandKeepsInv(g: Graph, start: string, initial: Option<Edge>, s: Search)
    requires Inv(g, start, initial, s) && s.queue != []
    requires var n := s.queue[0].nodeId; n !in s.dist && n in g.isJoin && !g.isJoin[n]
    ensures Inv(g, start, initial, Expand(g, Pop(s), s.queue[0].nodeId, s.depth[0]))
  {
    var n, d, p := s.queue[0].nodeId, s.depth[0], Pop(s);
    var s' := Expand(g, p, n, d);
    PopKeeps(g, start, initial, s);
    ExpandQueue(g, start, initial, p, n, d);
    ExpandSeen(g, p, n, d, start, 0);
    forall v, e | v in s'.dist && v in g.isJoin && e in Out(g, v) ensures Seen(s', e.target, s'.dist[v] + 1) {
      if v == n {
        ExpandedSuccessor(g, p, n, d, e);
      } else {
        ExpandSeen(g, p, n, d, e.target, p.dist[v] + 1);
      }
    }
  }

  // ---- The search -----------------------------------------------------------------------------------

  ghost function Ids(g: Graph, start: string): set<string> {
    {start} + set u, e | u in g.outgoing && e in g.outgoing[u] :: e.target
  }

  method EnqueueSuccessors(queue: seq<Item>, visited: set<string>, outgoing: seq<Edge>) returns (longer: seq<Item>)
    ensures longer == queue + Pushed(visited, outgoing)
  {
    longer := queue;
    for i := 0 to |outgoing|
      invariant longer == queue + Pushed(visited, outgoing[..i])
    {
      assert outgoing[..i + 1][..i] == outgoing[..i];
      if outgoing[i].target !in visited {
        longer := longer + [Item(outgoing[i].target, Some(outgoing[i]))];
      }
    }
    assert outgoing[..|outgoing|] == outgoing;
  }

  lemma SuccessorsAreIds(g: Graph, start: string, visited: set<string>, n: string)
    ensures forall it :: it in Pushed(visited, Out(g, n)) ==> it.nodeId in Ids(g, start)
  {
    PushedAre(visited, Out(g, n));
  }

  /** The search ends on every graph.  It finds nothing exactly when no join is reachable (or when
      the start is a join and there is no edge to report for it); otherwise it finds a nearest join
      with an edge into it: the incoming edge itself if the start is the join, else the last edge of
      a shortest way. */
  method FindDownstreamJoin(g: Graph, start: string, initial: Option<Edge>)
    returns (hit: Option<(string, Edge)>, ghost d: nat)
    ensures hit.None? ==>
      (initial.None? && JoinAt(g, start, start, 0)) || forall w, d :: !JoinAt(g, start, w, d)
    ensures hit.Some? ==>
      && JoinAt(g, start, hit.value.0, d) && NoJoinWithin(g, start, d)
      && Via(g, start, initial, hit.value.0, Some(hit.value.1), d)
    ensures hit.Some? && initial.Some? && initial.value.target == start ==> hit.value.1.target == hit.value.0
  {
    var visited: set<string> := {};
    var queue := [Item(start, initial)];
    ghost var s := Search(map[], queue, [0]);
    assert s.queue[0].nodeId == start && Seen(s, start, 0);
    while |queue| > 0
      invariant s.queue == queue && s.dist.Keys == visited && Inv(g, start, initial, s)
      invariant forall it :: it in queue ==> it.nodeId in Ids(g, start)
      decreases Ids(g, start) - visited, |queue|
    {
      var nodeId, via := queue[0].nodeId, queue[0].via;
      queue := queue[1..];
      if nodeId in visited {
        PopKeepsInv(g, start, initial, s);
        s := Pop(s);
        continue;
      }
      visited := visited + {nodeId};
      if nodeId !in g.isJoin {
        PopKeepsInv(g, start, initial, s);
        s := Pop(s);
        continue;
      }
      if g.isJoin[nodeId] {
        NoneNearer(g, start, initial, s);
        d := s.depth[0];
        if via.Some? { return Some((nodeId, via.value)), d; }
        return None, d;
      }
      assert Pop(s).dist.Keys == visited;
      SuccessorsAreIds(g, start, visited, nodeId);
      ExpandKeepsInv(g, start, initial, s);
      s := Expand(g, Pop(s), nodeId, s.depth[0]);
      queue := EnqueueSuccessors(queue, visited, Out(g, nodeId));
    }
    forall w, d ensures !JoinAt(g, start, w, d) { NoneLeft(g, start, initial, s, w, d); }
    return None, 0;
  }
}
