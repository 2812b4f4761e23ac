/** The graph check of the opening parser: Kahn's algorithm over index arrays. */
module Parser {
  import opened Json
  import opened Graph
  import opened Openings

  datatype GraphCheck = Accepted | UnknownNode(id: NodeId) | CycleFound

  ghost predicate EndpointsKnown(known: set<NodeId>, edges: seq<Edge>) {
    forall i :: 0 <= i < |edges| ==> edges[i].from.node in known && edges[i].to.node in known
  }

  /** The id names no node: it is an endpoint of edge k, sources before targets, and no endpoint before it is unknown. */
  ghost predicate FirstUnknownAt(known: set<NodeId>, edges: seq<Edge>, k: nat, id: NodeId) {
    && k < |edges| && EndpointsKnown(known, edges[..k]) && id !in known
    && (id == edges[k].from.node || (edges[k].from.node in known && id == edges[k].to.node))
  }

  /** The resolved graph: each edge as an arc between node indices. */
  ghost predicate Resolved(index: map<NodeId, nat>, edges: seq<Edge>, arcs: seq<Arc<nat>>) {
    && |arcs| == |edges|
    && forall i :: 0 <= i < |edges| ==>
         && edges[i].from.node in index && arcs[i].src == index[edges[i].from.node]
         && edges[i].to.node in index && arcs[i].dst == index[edges[i].to.node]
  }

  ghost predicate Indexes(index: map<NodeId, nat>, nodes: seq<Node>) {
    && index.Keys == Ids(nodes)
    && forall id :: id in index ==> index[id] < |nodes| && nodes[index[id]].id == id
  }

  /** An id indexes one node only, so the two graphs have the same cycles. */
  lemma SameCycles(nodes: seq<Node>, index: map<NodeId, nat>, edges: seq<Edge>, arcs: seq<Arc<nat>>)
    requires Indexes(index, nodes) && Resolved(index, edges, arcs)
    ensures Acyclic(arcs) <==> Acyclic(Arcs(edges))
  {
    forall walk: seq<nat> ensures IsCycle(arcs, walk) <==> IsCycle(Arcs(edges), walk) {
    }
  }

  /** The heads of the arcs from position `k` on that leave `s`, in arc order. */
  ghost function Successors(arcs: seq<Arc<nat>>, k: nat, s: nat): seq<nat>
    requires k <= |arcs|
    decreases |arcs| - k
  {
    if k == |arcs| then []
    else (if arcs[k].src == s then [arcs[k].dst] else []) + Successors(arcs, k + 1, s)
  }

  lemma {:induction false} SuccessorsAreHeads(arcs: seq<Arc<nat>>, k: nat, s: nat)
    requires k <= |arcs|
    ensures |Successors(arcs, k, s)| == |Leaving(arcs, k, s)|
    ensures forall j :: 0 <= j < |Leaving(arcs, k, s)| ==>
                          Leaving(arcs, k, s)[j] < |arcs| && Successors(arcs, k, s)[j] == arcs[Leaving(arcs, k, s)[j]].dst
    decreases |arcs| - k
  {
    if k < |arcs| {
      SuccessorsAreHeads(arcs, k + 1, s);
      var first := if arcs[k].src == s then 1 else 0;
      forall j | 0 <= j < |Leaving(arcs, k, s)|
        ensures Leaving(arcs, k, s)[j] < |arcs| && Successors(arcs, k, s)[j] == arcs[Leaving(arcs, k, s)[j]].dst
      {
        if j >= first {
          assert Leaving(arcs, k, s)[j] == Leaving(arcs, k + 1, s)[j - first];
        }
      }
    }
  }

  lemma {:induction false} DistinctBound(s: seq<nat>, n: nat)
    requires Distinct(s) && forall x :: x in s ==> x < n
    ensures |s| <= n
    ensures |s| == n ==> forall x :: 0 <= x < n ==> x in s
  {
    if s == [] {
    } else if s[0] in s && n - 1 in s {
      var p :| 0 <= p < |s| && s[p] == n - 1;
      var t := s[..p] + s[p + 1..];
      assert forall x :: x in t ==> x in s && x != n - 1;
      DistinctBound(t, n - 1);
      assert forall x :: x in t ==> x in s;
    } else {
      DistinctBound(s, n - 1);
    }
  }

  /** What holds between any two steps of Kahn's loop: `order` has been popped, `closed` counted off. */
  ghost predicate Kahn(arcs: seq<Arc<nat>>, n: nat, indegree: seq<nat>, closed: set<nat>, order: seq<nat>, queue: seq<nat>) {
    && |indegree| == n
    && (forall i :: 0 <= i < |arcs| ==> arcs[i].src < n && arcs[i].dst < n)
    && (forall j :: 0 <= j < n ==> indegree[j] == Open(arcs, 0, j, closed))
    && Distinct(order + queue)
    && (forall j: nat :: j in order + queue <==> j < n && Open(arcs, 0, j, closed) == 0)
    && (forall i :: i in closed ==> i < |arcs| && arcs[i].src in order)
    && Topological(arcs, order)
  }

  /** Every arc into a node of `order` comes from an earlier one. */
  ghost predicate Topological(arcs: seq<Arc<nat>>, order: seq<nat>) {
    forall i, k :: 0 <= i < |arcs| && 0 <= k < |order| && arcs[i].dst == order[k] ==> arcs[i].src in order[..k]
  }

  /** Counting off one more arc of a popped node. */
  lemma KahnClose(arcs: seq<Arc<nat>>, n: nat, indegree: seq<nat>, closed: set<nat>, order: seq<nat>, queue: seq<nat>, i: nat)
    requires Kahn(arcs, n, indegree, closed, order, queue)
    requires i < |arcs| && i !in closed && arcs[i].src in order
    ensures var d := arcs[i].dst;
            && indegree[d] > 0
            && Kahn(arcs, n, indegree[d := indegree[d] - 1], closed + {i}, order,
                    if indegree[d] == 1 then queue + [d] else queue)
  {
    var d := arcs[i].dst;
    forall j | 0 <= j < n
      ensures Open(arcs, 0, j, closed) == Open(arcs, 0, j, closed + {i}) + if j == d then 1 else 0
    {
      OpenClose(arcs, 0, j, closed, i);
    }
    var woken := order + (queue + [d]);
    assert woken == (order + queue) + [d];
    assert d !in order + queue;
    assert Distinct(woken);
    assert forall j :: j in woken <==> j in order + queue || j == d;
  }

  /** Popping the front of the queue. */
  lemma KahnPop(arcs: seq<Arc<nat>>, n: nat, indegree: seq<nat>, closed: set<nat>, order: seq<nat>, queue: seq<nat>)
    requires Kahn(arcs, n, indegree, closed, order, queue) && queue != []
    ensures Kahn(arcs, n, indegree, closed, order + [queue[0]], queue[1..])
    ensures |order| < n
  {
    var s, order' := queue[0], order + [queue[0]];
    assert order + queue == order' + queue[1..];
    assert s in order + queue;
    OpenZero(arcs, 0, s, closed);
    forall i, k | 0 <= i < |arcs| && 0 <= k < |order'| && arcs[i].dst == order'[k]
      ensures arcs[i].src in order'[..k]
    {
      if k < |order| {
        assert order'[..k] == order[..k];
      } else {
        assert order'[..k] == order;
      }
    }
    assert order' == (order + queue)[..|order'|];
    assert forall x :: x in order' ==> x in order + queue;
    DistinctBound(order', n);
  }

  ghost predicate AllClosed(arcs: seq<Arc<nat>>, closed: set<nat>, order: seq<nat>) {
    forall i :: 0 <= i < |arcs| && arcs[i].src in order ==> i in closed
  }

  /** With the queue empty, the nodes never popped wait for each other. */
  lemma KahnRejects(arcs: seq<Arc<nat>>, n: nat, indegree: seq<nat>, closed: set<nat>, order: seq<nat>)
    requires Kahn(arcs, n, indegree, closed, order, []) && AllClosed(arcs, closed, order)
    requires |order| != n
    ensures !Acyclic(arcs)
  {
    var stuck := set j | 0 <= j < n && j !in order;
    assert order + [] == order;
    forall j | j in stuck ensures EnteredFrom(arcs, stuck, j) {
      OpenZero(arcs, 0, j, closed);
    }
    if stuck == {} {
      forall j | 0 <= j < n ensures j in order {
        assert j !in stuck;
      }
      assert forall x :: x in order ==> x < n;
      AllPresent(order, n);
    }
    StuckHasCycle(arcs, stuck);
  }

  lemma {:induction false} AllPresent(s: seq<nat>, n: nat)
    requires Distinct(s) && (forall x :: x in s ==> x < n) && forall x :: 0 <= x < n ==> x in s
    ensures |s| == n
  {
    DistinctBound(s, n);
    if n > 0 {
      assert n - 1 in s;
      var p :| 0 <= p < |s| && s[p] == n - 1;
      var t := s[..p] + s[p + 1..];
      forall x | 0 <= x < n - 1 ensures x in t {
        assert x in s;
        var q :| 0 <= q < |s| && s[q] == x;
        assert t[if q < p then q else q - 1] == x;
      }
      assert forall x :: x in t ==> x in s && x != n - 1;
      AllPresent(t, n - 1);
    }
  }

  /** With every node popped, popping order is a topological numbering. */
  lemma KahnAccepts(arcs: seq<Arc<nat>>, n: nat, indegree: seq<nat>, closed: set<nat>, order: seq<nat>,
                    nodes: seq<Node>, index: map<NodeId, nat>, edges: seq<Edge>)
    returns (rank: map<NodeId, nat>)
    requires Kahn(arcs, n, indegree, closed, order, []) && |order| == n == |nodes|
    requires Indexes(index, nodes) && Resolved(index, edges, arcs)
    ensures Ranks(Arcs(edges), rank)
  {
    assert order + [] == order;
    DistinctBound(order, n);
    rank := map id | id in index :: Position(order, index[id]);
    forall i | 0 <= i < |edges|
      ensures rank[edges[i].from.node] < rank[edges[i].to.node]
    {
      var k := Position(order, arcs[i].dst);
      assert arcs[i].src in order[..k];
      var j :| 0 <= j < k && order[j] == arcs[i].src;
    }
  }

  ghost function Position(order: seq<nat>, x: nat): (k: nat)
    requires x in order
    ensures k < |order| && order[k] == x
  {
    var k :| 0 <= k < |order| && order[k] == x;
    k
  }

  /** Resolves node ids to indices; a later node with the same id wins. */
  method IndexNodes(nodes: seq<Node>) returns (index: map<NodeId, nat>)
    ensures Indexes(index, nodes)
  {
    index := map[];
    for k := 0 to |nodes|
      invariant Indexes(index, nodes[..k])
    {
      assert nodes[..k + 1] == nodes[..k] + [nodes[k]];
      index := index[nodes[k].id := k];
    }
    assert nodes[..|nodes|] == nodes;
  }

  method CheckEndpoints(nodes: seq<Node>, index: map<NodeId, nat>, edges: seq<Edge>) returns (unknown: Option<NodeId>)
    requires Indexes(index, nodes)
    ensures unknown.None? <==> EndpointsKnown(Ids(nodes), edges)
    ensures unknown.Some? ==> exists k :: FirstUnknownAt(Ids(nodes), edges, k, unknown.value)
  {
    for k := 0 to |edges|
      invariant EndpointsKnown(Ids(nodes), edges[..k])
    {
      if edges[k].from.node !in index {
        assert FirstUnknownAt(Ids(nodes), edges, k, edges[k].from.node);
        return Some(edges[k].from.node);
      }
      if edges[k].to.node !in index {
        assert FirstUnknownAt(Ids(nodes), edges, k, edges[k].to.node);
        return Some(edges[k].to.node);
      }
    }
    assert edges[..|edges|] == edges;
    return None;
  }

  /** After `k` edges, the arrays hold everything except what the remaining arcs will add. */
  ghost predicate Filled(arcs: seq<Arc<nat>>, k: nat, indegree: seq<nat>, adjacency: seq<seq<nat>>)
    requires k <= |arcs|
  {
    && |indegree| == |adjacency|
    && (forall j :: 0 <= j < |indegree| ==> indegree[j] + Open(arcs, k, j, {}) == Open(arcs, 0, j, {}))
    && (forall j :: 0 <= j < |adjacency| ==> adjacency[j] + Successors(arcs, k, j) == Successors(arcs, 0, j))
  }

  lemma FillOne(arcs: seq<Arc<nat>>, k: nat, indegree: seq<nat>, adjacency: seq<seq<nat>>)
    requires k < |arcs| && Filled(arcs, k, indegree, adjacency)
    requires arcs[k].src < |indegree| && arcs[k].dst < |indegree|
    ensures var Arc(src, dst) := arcs[k];
            Filled(arcs, k + 1, indegree[dst := indegree[dst] + 1], adjacency[src := adjacency[src] + [dst]])
  {
    var Arc(src, dst) := arcs[k];
    var adjacency' := adjacency[src := adjacency[src] + [dst]];
    forall j | 0 <= j < |adjacency|
      ensures adjacency'[j] + Successors(arcs, k + 1, j) == Successors(arcs, 0, j)
    {
      assert adjacency'[j] + Successors(arcs, k + 1, j) == adjacency[j] + Successors(arcs, k, j);
    }
  }

  /** Fills the indegree counters and the adjacency lists. */
  method BuildArrays(edges: seq<Edge>, index: map<NodeId, nat>, n: nat, ghost arcs: seq<Arc<nat>>)
    returns (indegree: array<nat>, adjacency: seq<seq<nat>>)
    requires Resolved(index, edges, arcs)
    requires forall i :: 0 <= i < |arcs| ==> arcs[i].src < n && arcs[i].dst < n
    ensures fresh(indegree) && indegree.Length == |adjacency| == n
    ensures Filled(arcs, |arcs|, indegree[..], adjacency)
  {
    indegree := new nat[n](_ => 0);
    adjacency := seq(n, _ => []);
    for k := 0 to |edges|
      invariant |adjacency| == n && Filled(arcs, k, indegree[..], adjacency)
    {
      var fromIdx, toIdx := index[edges[k].from.node], index[edges[k].to.node];
      FillOne(arcs, k, indegree[..], adjacency);
      adjacency := adjacency[fromIdx := adjacency[fromIdx] + [toIdx]];
      indegree[toIdx] := indegree[toIdx] + 1;
    }
  }

  method Roots(ghost arcs: seq<Arc<nat>>, indegree: array<nat>, ghost adjacency: seq<seq<nat>>) returns (queue: seq<nat>)
    requires forall i :: 0 <= i < |arcs| ==> arcs[i].src < indegree.Length && arcs[i].dst < indegree.Length
    requires Filled(arcs, |arcs|, indegree[..], adjacency)
    ensures Kahn(arcs, indegree.Length, indegree[..], {}, [], queue)
  {
    queue := [];
    for j := 0 to indegree.Length
      invariant Distinct(queue) && forall x :: x in queue <==> 0 <= x < j && indegree[x] == 0
    {
      if indegree[j] == 0 {
        queue := queue + [j];
      }
    }
    assert [] + queue == queue;
  }

  lemma NextLeaving(leaving: seq<nat>, x: nat)
    requires Distinct(leaving) && x < |leaving|
    ensures leaving[x] in leaving && leaving[x] !in leaving[..x]
    ensures forall i: nat :: i in leaving[..x + 1] <==> i in leaving[..x] || i == leaving[x]
  {
    assert leaving[..x + 1] == leaving[..x] + [leaving[x]];
  }

  /** Counts off one arc, queueing its target when it reaches zero. */
  method CountOne(ghost arcs: seq<Arc<nat>>, indegree: array<nat>, successor: nat, initial: seq<nat>,
                  ghost closed: set<nat>, ghost order: seq<nat>, ghost i: nat)
    returns (queue: seq<nat>)
    requires Kahn(arcs, indegree.Length, indegree[..], closed, order, initial)
    requires i < |arcs| && i !in closed && arcs[i].src in order && arcs[i].dst == successor
    modifies indegree
    ensures Kahn(arcs, indegree.Length, indegree[..], closed + {i}, order, queue)
  {
    ghost var was := indegree[..];
    KahnClose(arcs, indegree.Length, was, closed, order, initial, i);
    assert successor < indegree.Length && indegree[successor] == was[successor];
    indegree[successor] := indegree[successor] - 1;
    assert indegree[..] == was[successor := was[successor] - 1];
    queue := if indegree[successor] == 0 then initial + [successor] else initial;
  }

  /** Counts off the arcs of the node just popped, queueing every target that reaches zero. */
  method CountOff(ghost arcs: seq<Arc<nat>>, indegree: array<nat>, successors: seq<nat>, initial: seq<nat>,
                  ghost popped: seq<nat>, ghost idx: nat, ghost before: set<nat>)
    returns (queue: seq<nat>, ghost closed: set<nat>)
    requires Kahn(arcs, indegree.Length, indegree[..], before, popped + [idx], initial)
    requires successors == Successors(arcs, 0, idx) && idx !in popped && AllClosed(arcs, before, popped)
    requires forall i :: i in before ==> arcs[i].src in popped
    modifies indegree
    ensures Kahn(arcs, indegree.Length, indegree[..], closed, popped + [idx], queue)
    ensures AllClosed(arcs, closed, popped + [idx])
  {
    queue, closed := initial, before;
    ghost var leaving := Leaving(arcs, 0, idx);
    LeavingExact(arcs, 0, idx);
    SuccessorsAreHeads(arcs, 0, idx);
    for x := 0 to |successors|
      invariant Kahn(arcs, indegree.Length, indegree[..], closed, popped + [idx], queue)
      invariant forall i :: i in closed <==> i in before || i in leaving[..x]
    {
      var successor := successors[x];
      ghost var i := leaving[x];
      NextLeaving(leaving, x);
      queue := CountOne(arcs, indegree, successor, queue, closed, popped + [idx], i);
      closed := closed + {i};
    }
    assert leaving[..|leaving|] == leaving;
  }

  /** Pops nodes of indegree zero and counts off their arcs until none is left. */
  method PopAll(ghost arcs: seq<Arc<nat>>, indegree: array<nat>, adjacency: seq<seq<nat>>)
    returns (visited: nat, ghost order: seq<nat>, ghost closed: set<nat>)
    requires forall i :: 0 <= i < |arcs| ==> arcs[i].src < indegree.Length && arcs[i].dst < indegree.Length
    requires Filled(arcs, |arcs|, indegree[..], adjacency)
    modifies indegree
    ensures visited == |order| && AllClosed(arcs, closed, order)
    ensures Kahn(arcs, indegree.Length, indegree[..], closed, order, [])
  {
    var n := indegree.Length;
    var queue := Roots(arcs, indegree, adjacency);
    visited, order, closed := 0, [], {};
    while queue != []
      invariant Kahn(arcs, n, indegree[..], closed, order, queue) && AllClosed(arcs, closed, order)
      invariant visited == |order|
      decreases n - visited
    {
      var idx := queue[0];
      assert (order + queue)[|order|] == idx && idx in order + queue;
      assert forall i :: 0 <= i < |order| ==> order[i] == (order + queue)[i];
      KahnPop(arcs, n, indegree[..], closed, order, queue);
      queue, closed := CountOff(arcs, indegree, adjacency[idx], queue[1..], order, idx, closed);
      visited, order := visited + 1, order + [idx];
    }
  }

  /** Accepts exactly the edge lists whose endpoints exist and whose graph has no cycle. */
  method ValidateGraph(nodes: seq<Node>, edges: seq<Edge>) returns (r: GraphCheck)
    ensures r.UnknownNode? <==> !EndpointsKnown(Ids(nodes), edges)
    ensures r.UnknownNode? ==> exists k :: FirstUnknownAt(Ids(nodes), edges, k, r.id)
    ensures r.Accepted? <==> EndpointsKnown(Ids(nodes), edges) && Acyclic(Arcs(edges))
    ensures r.Accepted? ==> exists rank: map<NodeId, nat> :: Ranks(Arcs(edges), rank)
  {
    var n := |nodes|;
    var index := IndexNodes(nodes);
    var unknown := CheckEndpoints(nodes, index, edges);
    if unknown.Some? {
      return UnknownNode(unknown.value);
    }
    ghost var arcs: seq<Arc<nat>> :=
      seq(|edges|, i requires 0 <= i < |edges| => Arc(index[edges[i].from.node], index[edges[i].to.node]));
    SameCycles(nodes, index, edges, arcs);

    var indegree, adjacency := BuildArrays(edges, index, n, arcs);
    var visited, order, closed := PopAll(arcs, indegree, adjacency);
    if visited != n {
      KahnRejects(arcs, n, indegree[..], closed, order);
      return CycleFound;
    }
    ghost var rank := KahnAccepts(arcs, n, indegree[..], closed, order, nodes, index, edges);
    RankedIsAcyclic(Arcs(edges), rank);
    return Accepted;
  }
}
