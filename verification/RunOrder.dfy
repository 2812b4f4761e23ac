/** The order of a run, and what its final hash tells apart. */
module RunOrder {
  import opened Json
  import opened Graph
  import opened Openings
  import opened RunModel
  import opened RunTheorems
  import opened Runner

  // ----- deliveries

  /** The delivery follows an edge that leaves the node completed at p, with that node's outputs. */
  ghost predicate SentBy(o: Opening, done: seq<Completion>, d: Delivery, p: int) {
    0 <= p < |done| && d.edge < |o.edges| && o.edges[d.edge].from.node == done[p].node && d.out == done[p].out
  }

  /** The one delivery was sent by an earlier completion than the other, or by the same along an earlier edge. */
  ghost predicate SentBefore(o: Opening, done: seq<Completion>, c: Delivery, d: Delivery) {
    exists p, q :: SentBy(o, done, c, p) && SentBy(o, done, d, q) && (p < q || (p == q && c.edge < d.edge))
  }

  lemma {:induction false} SendsInOrder(edges: seq<nat>, out: Ports)
    ensures |Sends(edges, out)| == |edges|
    ensures forall k :: 0 <= k < |edges| ==> Sends(edges, out)[k] == Delivery(edges[k], out)
  {
    if edges != [] {
      SendsInOrder(edges[..|edges| - 1], out);
    }
  }

  lemma {:induction false} DeliveredBy(o: Opening, done: seq<Completion>, a: int)
    requires 0 <= a < |Deliveries(o, done)|
    ensures exists p :: SentBy(o, done, Deliveries(o, done)[a], p)
  {
    var m := |done| - 1;
    var before, sent := Deliveries(o, done[..m]), Leaving(Arcs(o.edges), 0, done[m].node);
    if a < |before| {
      DeliveredBy(o, done[..m], a);
      var p :| SentBy(o, done[..m], before[a], p);
      assert SentBy(o, done, Deliveries(o, done)[a], p);
    } else {
      SendsInOrder(sent, done[m].out);
      LeavingExact(Arcs(o.edges), 0, done[m].node);
      assert sent[a - |before|] in sent;
      assert SentBy(o, done, Deliveries(o, done)[a], m);
    }
  }

  /** Edges are followed in the order in which their sources completed, and from one source in edge order. */
  lemma {:induction false} DeliveriesInOrder(o: Opening, done: seq<Completion>, a: int, b: int)
    requires 0 <= a < b < |Deliveries(o, done)|
    ensures SentBefore(o, done, Deliveries(o, done)[a], Deliveries(o, done)[b])
  {
    var m := |done| - 1;
    var before, sent := Deliveries(o, done[..m]), Leaving(Arcs(o.edges), 0, done[m].node);
    SendsInOrder(sent, done[m].out);
    LeavingExact(Arcs(o.edges), 0, done[m].node);
    var c, d := Deliveries(o, done)[a], Deliveries(o, done)[b];
    if b < |before| {
      DeliveriesInOrder(o, done[..m], a, b);
      var p, q :| SentBy(o, done[..m], c, p) && SentBy(o, done[..m], d, q) && (p < q || (p == q && c.edge < d.edge));
      assert SentBy(o, done, c, p) && SentBy(o, done, d, q);
    } else {
      assert sent[b - |before|] in sent;
      assert SentBy(o, done, d, m);
      if a < |before| {
        DeliveredBy(o, done[..m], a);
        var p :| SentBy(o, done[..m], c, p);
        assert SentBy(o, done, c, p);
      } else {
        assert sent[a - |before|] in sent;
        assert SentBy(o, done, c, m);
      }
    }
  }

  // ----- the queue

  lemma {:induction false} WokenPrefix(o: Opening, c: seq<Delivery>, m: nat)
    requires m <= |c|
    ensures Queued(o, c[..m]) <= Queued(o, c)
  {
    if m < |c| {
      WokenPrefix(o, c[..|c| - 1], m);
      assert c[..|c| - 1][..m] == c[..m];
      assert Queued(o, c) == Queued(o, c[..|c| - 1]) + Wakes(o, c);
    } else {
      assert c[..m] == c;
    }
  }

  lemma {:induction false} OncePrefix(o: Opening, c: seq<Delivery>, m: nat)
    requires OnceEach(o, c) && m <= |c|
    ensures OnceEach(o, c[..m])
  {
    if m < |c| {
      OncePrefix(o, c[..|c| - 1], m);
      assert c[..|c| - 1][..m] == c[..m];
    } else {
      assert c[..m] == c;
    }
  }

  /** The nodes popped so far are the front of the queue's history. */
  lemma PoppedAreQueued(o: Opening, env: Environment, records: map<NodeId, NodeRecord>, done: seq<Completion>, failing: Option<NodeId>)
    requires UniqueIds(o.nodes) && Explained(o, env, records, done, failing)
    ensures Nodes(done) + (if failing.Some? then [failing.value] else []) <= Queued(o, Deliveries(o, done))
    ensures OnceEach(o, Deliveries(o, done)) && Distinct(Queued(o, Deliveries(o, done)))
  {
    PoppedOnce(o, env, records, done);
    DeliveriesExact(o, done);
    QueuedOnce(o, Deliveries(o, done));
  }

  /** First ready, first run: after any of the deliveries, if the later of two nodes was ready, so was the earlier. */
  lemma FirstReadyFirstRun(o: Opening, env: Environment, records: map<NodeId, NodeRecord>, done: seq<Completion>,
                           failing: Option<NodeId>, p: nat, q: nat, m: nat)
    requires UniqueIds(o.nodes) && Explained(o, env, records, done, failing)
    requires p < q < |done| + (if failing.Some? then 1 else 0) && m <= |Deliveries(o, done)|
    ensures var later := if q < |done| then done[q].node else failing.value;
            Ready(o, Deliveries(o, done)[..m], later) ==> Ready(o, Deliveries(o, done)[..m], done[p].node)
  {
    var c := Deliveries(o, done);
    var popped := Nodes(done) + if failing.Some? then [failing.value] else [];
    PoppedAreQueued(o, env, records, done, failing);
    WokenPrefix(o, c, m);
    OncePrefix(o, c, m);
    var queued := Queued(o, c[..m]);
    QueuedExact(o, c[..m], popped[p]);
    QueuedExact(o, c[..m], popped[q]);
    QueuedExact(o, c, popped[q]);
    assert popped[p] == Queued(o, c)[p] && popped[q] == Queued(o, c)[q];
    if popped[q] in queued {
      var k :| 0 <= k < |queued| && queued[k] == popped[q];
      assert Queued(o, c)[k] == queued[k];
      assert k == q;
      assert queued[p] == Queued(o, c)[p];
    }
  }

  lemma {:induction false} RootAt(o: Opening, nodes: seq<Node>, p: nat) returns (i: nat)
    requires p < |Roots(o, nodes)|
    ensures i < |nodes| && nodes[i].id == Roots(o, nodes)[p] && !HasInbound(o, nodes[i].id)
  {
    var m := |nodes| - 1;
    if p < |Roots(o, nodes[..m])| {
      i := RootAt(o, nodes[..m], p);
    } else {
      i := m;
    }
  }

  lemma {:induction false} RootsInOrder(o: Opening, nodes: seq<Node>, p: nat, q: nat, i: nat, j: nat)
    requires UniqueIds(nodes) && p < q < |Roots(o, nodes)| && i < |nodes| && j < |nodes|
    requires nodes[i].id == Roots(o, nodes)[p] && nodes[j].id == Roots(o, nodes)[q]
    ensures i < j
  {
    var m := |nodes| - 1;
    if q < |Roots(o, nodes[..m])| {
      var i' := RootAt(o, nodes[..m], p);
      var j' := RootAt(o, nodes[..m], q);
      assert nodes[i'].id == nodes[i].id && nodes[j'].id == nodes[j].id;
      RootsInOrder(o, nodes[..m], p, q, i, j);
    } else {
      var i' := RootAt(o, nodes[..m], p);
      assert nodes[i'].id == nodes[i].id && nodes[m].id == nodes[j].id;
    }
  }

  /** The nodes without inbound edges run first, in the order of the opening. */
  lemma RootsRunInOrder(o: Opening, env: Environment, records: map<NodeId, NodeRecord>, done: seq<Completion>,
                        failing: Option<NodeId>, p: nat, q: nat, i: nat, j: nat)
    requires UniqueIds(o.nodes) && Explained(o, env, records, done, failing)
    requires p < q < |done| && i < |o.nodes| && j < |o.nodes| && o.nodes[i].id == done[p].node && o.nodes[j].id == done[q].node
    ensures !HasInbound(o, done[q].node) ==> !HasInbound(o, done[p].node) && i < j
  {
    if !HasInbound(o, done[q].node) {
      var c := Deliveries(o, done);
      FirstReadyFirstRun(o, env, records, done, failing, p, q, 0);
      assert c[..0] == [];
      PoppedAreQueued(o, env, records, done, failing);
      WokenPrefix(o, c, 0);
      QueuedExact(o, [], done[q].node);
      var roots := Roots(o, o.nodes);
      assert Queued(o, []) == roots;
      var popped := Nodes(done) + if failing.Some? then [failing.value] else [];
      assert popped[p] == Queued(o, c)[p] && popped[q] == Queued(o, c)[q];
      assert done[q].node in Ids(o.nodes) by {
        assert o.nodes[j] in o.nodes;
      }
      var k :| 0 <= k < |roots| && roots[k] == done[q].node;
      assert k == q;
      RootsInOrder(o, o.nodes, p, q, i, j);
    }
  }

  // ----- the final hash

  /** The outputs of a node's last attempt, or the error it ended with. */
  ghost predicate EndedWith(record: NodeRecord, output: Option<Ports>, error: Option<string>) {
    record.attempts != [] && record.attempts[|record.attempts| - 1].output == output
    && record.attempts[|record.attempts| - 1].error == error
  }

  lemma {:induction false} FlattenSplit(parts: seq<Bytes>, k: nat)
    requires k < |parts|
    ensures Flatten(parts) == Flatten(parts[..k]) + parts[k] + Flatten(parts[k + 1..])
  {
    var m := |parts| - 1;
    if k == m {
      assert Flatten(parts) == Flatten(parts[..k]) + parts[k] + [];
    } else {
      FlattenSplit(parts[..m], k);
      assert parts[..m][..k] == parts[..k];
      assert parts[..m][k + 1..] == parts[k + 1..][..m - k - 1];
      var rest := Flatten(parts[..m][k + 1..]);
      assert Flatten(parts[k + 1..]) == rest + parts[m];
      assert Flatten(parts[..k]) + parts[k] + rest + parts[m] == Flatten(parts[..k]) + parts[k] + (rest + parts[m]);
    }
  }

  lemma OneFeedApart(parts: seq<Bytes>, parts': seq<Bytes>, k: nat)
    requires |parts| == |parts'| && k < |parts| && parts[k] != parts'[k]
    requires forall j :: 0 <= j < |parts| && j != k ==> parts[j] == parts'[j]
    ensures Flatten(parts) != Flatten(parts')
  {
    FlattenSplit(parts, k);
    FlattenSplit(parts', k);
    assert parts[..k] == parts'[..k] && parts[k + 1..] == parts'[k + 1..];
    if Flatten(parts) == Flatten(parts') {
      Cancel(Flatten(parts[..k]), parts[k], parts'[k], Flatten(parts[k + 1..]));
    }
  }

  lemma Cancel(head: Bytes, a: Bytes, b: Bytes, tail: Bytes)
    requires head + a + tail == head + b + tail
    ensures a == b
  {
    assert |head + a + tail| == |head + b + tail|;
    assert a == (head + a + tail)[|head|..|head| + |a|];
    assert b == (head + b + tail)[|head|..|head| + |b|];
  }

  /** Both ended with outputs, or both with an error, of different digests. */
  ghost predicate EndedApart(h: Hashing, r: NodeRecord, r': NodeRecord) {
    || (exists a, b :: EndedWith(r, Some(a), None) && EndedWith(r', Some(b), None) && h.outputs(a) != h.outputs(b))
    || (exists a, b :: EndedWith(r, None, Some(a)) && EndedWith(r', None, Some(b)) && h.text(a) != h.text(b))
  }

  lemma FeedsApart(h: Hashing, r: NodeRecord, r': NodeRecord)
    requires EndedApart(h, r, r')
    ensures FeedOf(h, r) != FeedOf(h, r')
  {
    if a, b :| EndedWith(r, Some(a), None) && EndedWith(r', Some(b), None) && h.outputs(a) != h.outputs(b) {
      assert FeedOf(h, r) == h.outputs(a) && FeedOf(h, r') == h.outputs(b);
    } else {
      var a, b :| EndedWith(r, None, Some(a)) && EndedWith(r', None, Some(b)) && h.text(a) != h.text(b);
      assert FeedOf(h, r) == h.text(a) && FeedOf(h, r') == h.text(b);
    }
  }

  /**
    * With a final digest that tells inputs apart, two runs whose nodes ended alike but for one have different final
    * hashes when that one ended with outputs, or with errors, of different digests.
    */
  lemma HashTells(o: Opening, h: Hashing, records: map<NodeId, NodeRecord>, records': map<NodeId, NodeRecord>,
                  trace: RunTrace, trace': RunTrace, k: nat)
    requires Covered(o, records) && Covered(o, records') && Traced(o, h, records, trace) && Traced(o, h, records', trace')
    requires forall a, b :: h.finish(a) == h.finish(b) ==> a == b
    requires k < |o.nodes| && forall j :: 0 <= j < |o.nodes| && j != k ==>
               o.nodes[j] in o.nodes && records[o.nodes[j].id] == records'[o.nodes[j].id]
    requires o.nodes[k] in o.nodes && EndedApart(h, records[o.nodes[k].id], records'[o.nodes[k].id])
    ensures trace.finalHash != trace'.finalHash
  {
    FeedsApart(h, records[o.nodes[k].id], records'[o.nodes[k].id]);
    OneFeedApart(Feeds(h, o.nodes, records), Feeds(h, o.nodes, records'), k);
  }
}
