/** What every explained run guarantees: safety, conservation, meaning, totals and determinism. */
module RunTheorems {
  import opened Json
  import opened Graph
  import opened Openings
  import opened RunModel
  import opened Parser

  // ----- at most once

  lemma HistoryPrefix(o: Opening, env: Environment, records: map<NodeId, NodeRecord>, done: seq<Completion>, m: nat)
    requires History(o, env, records, done) && m <= |done|
    ensures History(o, env, records, done[..m])
  {
    forall k | 0 <= k < m ensures RanAt(o, env, records, done[..m], k) {
      assert RanAt(o, env, records, done, k);
      assert done[..m][..k] == done[..k];
    }
  }

  /** No node is popped twice. */
  lemma {:induction false} PoppedOnce(o: Opening, env: Environment, records: map<NodeId, NodeRecord>, done: seq<Completion>)
    requires UniqueIds(o.nodes) && History(o, env, records, done)
    ensures Distinct(Nodes(done))
  {
    if done != [] {
      var m := |done| - 1;
      HistoryPrefix(o, env, records, done, m);
      PoppedOnce(o, env, records, done[..m]);
      assert RanAt(o, env, records, done, m);
      NextIsNew(o, env, records, done[..m], done[m].node);
      assert Nodes(done) == Nodes(done[..m]) + [done[m].node];
    }
  }

  /** A node run after `done` was not among them, and was ready. */
  lemma NextIsNew(o: Opening, env: Environment, records: map<NodeId, NodeRecord>, done: seq<Completion>, n: NodeId)
    requires UniqueIds(o.nodes) && Distinct(Nodes(done)) && RanAfter(o, env, records, done, n)
    ensures n !in Nodes(done) && Ready(o, Deliveries(o, done), n)
    ensures Distinct(Nodes(done) + [n])
  {
    DeliveriesExact(o, done);
    QueuedOnce(o, Deliveries(o, done));
    PrefixIsNew(Queued(o, Deliveries(o, done)), Nodes(done), n);
    QueuedExact(o, Deliveries(o, done), n);
  }

  lemma PrefixIsNew(queued: seq<NodeId>, before: seq<NodeId>, n: NodeId)
    requires Distinct(queued) && before + [n] <= queued
    ensures n in queued && n !in before && Distinct(before + [n])
  {
    var started := before + [n];
    assert started == queued[..|started|];
    assert started[|before|] == n && queued[|before|] == n;
    assert forall k :: 0 <= k < |before| ==> before[k] == started[k] == queued[k];
  }

  // ----- what the deliveries carry

  lemma {:induction false} OutputsExact(done: seq<Completion>)
    requires Distinct(Nodes(done))
    ensures forall n :: n in OutputsOf(done) <==> n in Nodes(done)
    ensures forall c :: c in done ==> c.node in OutputsOf(done) && OutputsOf(done)[c.node] == c.out
  {
    if done != [] {
      var before, last := done[..|done| - 1], done[|done| - 1];
      assert done == before + [last];
      assert Nodes(done) == Nodes(before) + [last.node];
      assert forall k :: 0 <= k < |before| ==> Nodes(before)[k] == Nodes(done)[k];
      OutputsExact(before);
      assert Nodes(done)[|before|] == last.node;
      assert last.node !in Nodes(before);
    }
  }

  /** Delivery `k` follows an edge of `o` with the outputs its source is recorded with in `outs`. */
  ghost predicate Faithful(o: Opening, outs: map<NodeId, Ports>, d: Delivery) {
    && d.edge < |o.edges|
    && o.edges[d.edge].from.node in outs
    && outs[o.edges[d.edge].from.node] == d.out
  }

  ghost predicate AllFaithful(o: Opening, outs: map<NodeId, Ports>, c: seq<Delivery>) {
    forall k :: 0 <= k < |c| ==> Faithful(o, outs, c[k])
  }

  lemma {:induction false} SendsFaithful(o: Opening, outs: map<NodeId, Ports>, edges: seq<nat>, n: NodeId)
    requires n in outs && forall i :: i in edges ==> i < |o.edges| && o.edges[i].from.node == n
    ensures AllFaithful(o, outs, Sends(edges, outs[n]))
  {
    if edges != [] {
      var before, last := edges[..|edges| - 1], edges[|edges| - 1];
      assert forall i :: i in edges <==> i in before || i == last;
      SendsFaithful(o, outs, before, n);
    }
  }

  lemma {:induction false} DeliveriesFaithful(o: Opening, outs: map<NodeId, Ports>, done: seq<Completion>)
    requires forall c :: c in done ==> c.node in outs && outs[c.node] == c.out
    ensures AllFaithful(o, outs, Deliveries(o, done))
  {
    if done != [] {
      var before, last := done[..|done| - 1], done[|done| - 1];
      assert done == before + [last];
      DeliveriesFaithful(o, outs, before);
      LeavingExact(Arcs(o.edges), 0, last.node);
      SendsFaithful(o, outs, Leaving(Arcs(o.edges), 0, last.node), last.node);
    }
  }

  lemma {:induction false} EdgeDelivered(c: seq<Delivery>, i: nat) returns (k: nat)
    requires i in EdgesOf(c)
    ensures k < |c| && c[k].edge == i
  {
    if c[|c| - 1].edge == i {
      k := |c| - 1;
    } else {
      k := EdgeDelivered(c[..|c| - 1], i);
    }
  }

  lemma {:induction false} InboxNonEmpty(o: Opening, c: seq<Delivery>, n: NodeId)
    ensures Inbox(o, c, n) != map[] <==>
            exists k :: 0 <= k < |c| && Into(o, c[k].edge, n) && Carried(o.edges[c[k].edge], c[k].out) != []
  {
    if c != [] {
      var before, d := c[..|c| - 1], c[|c| - 1];
      InboxNonEmpty(o, before, n);
      assert forall k :: 0 <= k < |before| ==> before[k] == c[k];
      if Into(o, d.edge, n) && Carried(o.edges[d.edge], d.out) != [] {
        assert o.edges[d.edge].to.port in Inbox(o, c, n);
        assert c[|before|] == d;
      }
    }
  }

  /** The rule for running a node, given the outputs of the nodes that succeeded. */
  ghost predicate Runs(o: Opening, outs: map<NodeId, Ports>, n: NodeId) {
    !HasInbound(o, n) ||
    (&& (forall i: nat :: Into(o, i, n) ==> o.edges[i].from.node in outs && Passes(o.edges[i], outs[o.edges[i].from.node]))
     && (exists i: nat :: Into(o, i, n) && o.edges[i].from.node in outs && Carried(o.edges[i], outs[o.edges[i].from.node]) != []))
  }

  /** The deliveries `c` are those of the nodes of `outs`, as far as the edges into `n` go. */
  ghost predicate Covers(o: Opening, c: seq<Delivery>, outs: map<NodeId, Ports>, n: NodeId) {
    && AllFaithful(o, outs, c)
    && forall i: nat :: Into(o, i, n) ==> (i in EdgesOf(c) <==> o.edges[i].from.node in outs)
  }

  lemma SatisfiedRuns(o: Opening, c: seq<Delivery>, outs: map<NodeId, Ports>, n: NodeId)
    requires Covers(o, c, outs, n) && Satisfied(o, c, n)
    ensures Runs(o, outs, n)
  {
    forall i: nat | Into(o, i, n) ensures o.edges[i].from.node in outs && Passes(o.edges[i], outs[o.edges[i].from.node]) {
      var k := EdgeDelivered(c, i);
      assert Faithful(o, outs, c[k]);
    }
    InboxNonEmpty(o, c, n);
    var k :| 0 <= k < |c| && Into(o, c[k].edge, n) && Carried(o.edges[c[k].edge], c[k].out) != [];
    assert Faithful(o, outs, c[k]);
  }

  lemma RunsSatisfied(o: Opening, c: seq<Delivery>, outs: map<NodeId, Ports>, n: NodeId)
    requires Covers(o, c, outs, n) && Runs(o, outs, n) && HasInbound(o, n)
    ensures Satisfied(o, c, n)
  {
    if Blocked(o, c, n) {
      var k :| 0 <= k < |c| && Into(o, c[k].edge, n) && !Passes(o.edges[c[k].edge], c[k].out);
      assert Faithful(o, outs, c[k]);
    }
    var i: nat :| Into(o, i, n) && o.edges[i].from.node in outs && Carried(o.edges[i], outs[o.edges[i].from.node]) != [];
    var k := EdgeDelivered(c, i);
    assert Faithful(o, outs, c[k]);
    InboxNonEmpty(o, c, n);
  }

  /** Readiness, as the counters and buffers see it, is the rule on recorded outputs. */
  lemma ReadyIsRuns(o: Opening, done: seq<Completion>, n: NodeId)
    requires Distinct(Nodes(done))
    ensures Ready(o, Deliveries(o, done), n) <==> Runs(o, OutputsOf(done), n)
  {
    var c, outs := Deliveries(o, done), OutputsOf(done);
    DeliveriesExact(o, done);
    OutputsExact(done);
    DeliveriesFaithful(o, outs, done);
    assert Covers(o, c, outs, n);
    if HasInbound(o, n) && Satisfied(o, c, n) {
      SatisfiedRuns(o, c, outs, n);
    }
    if HasInbound(o, n) && Runs(o, outs, n) {
      RunsSatisfied(o, c, outs, n);
    }
  }

  // ----- safety

  /** A node is executed only after all its sources succeeded, with no failed predicate. */
  lemma ExecutedSafely(o: Opening, env: Environment, records: map<NodeId, NodeRecord>, done: seq<Completion>,
                       failing: Option<NodeId>, n: NodeId, k: nat)
    requires UniqueIds(o.nodes) && Explained(o, env, records, done, failing)
    requires k <= |done| && if k < |done| then done[k].node == n else failing == Some(n)
    ensures Runs(o, OutputsOf(done[..k]), n) && n !in Nodes(done[..k])
    ensures forall c :: c in done[..k] ==> c.node in records && records[c.node].state == Succeeded
  {
    PoppedOnce(o, env, records, done);
    HistoryPrefix(o, env, records, done, k);
    PoppedOnce(o, env, records, done[..k]);
    if k < |done| {
      assert RanAt(o, env, records, done, k);
    } else {
      assert done[..k] == done;
    }
    NextIsNew(o, env, records, done[..k], n);
    ReadyIsRuns(o, done[..k], n);
    forall c | c in done[..k] ensures c.node in records && records[c.node].state == Succeeded {
      var j :| 0 <= j < k && done[..k][j] == c;
      assert RanAt(o, env, records, done, j);
    }
  }

  // ----- the recursive meaning

  /** Whether `n` runs, from the graph alone: `out` gives the outputs of each node that would run. */
  ghost predicate Meaning(o: Opening, rank: map<NodeId, nat>, out: NodeId -> Ports, n: NodeId)
    requires Ranks(Arcs(o.edges), rank)
    decreases if n in rank then rank[n] else 0
  {
    !HasInbound(o, n) ||
    (&& (forall i: nat :: Into(o, i, n) ==>
                       Arcs(o.edges)[i].dst == n && Meaning(o, rank, out, o.edges[i].from.node) &&
                       Passes(o.edges[i], out(o.edges[i].from.node)))
     && (exists i: nat :: Into(o, i, n) && Carried(o.edges[i], out(o.edges[i].from.node)) != []))
  }

  lemma {:induction false} MeaningIsRuns(o: Opening, rank: map<NodeId, nat>, out: NodeId -> Ports,
                                        outs: map<NodeId, Ports>, n: NodeId)
    requires Ranks(Arcs(o.edges), rank) && EndpointsKnown(Ids(o.nodes), o.edges)
    requires forall m :: m in Ids(o.nodes) ==> (m in outs <==> Runs(o, outs, m))
    requires forall m :: m in outs ==> out(m) == outs[m]
    requires n in Ids(o.nodes)
    ensures Meaning(o, rank, out, n) <==> n in outs
    decreases if n in rank then rank[n] else 0
  {
    forall i: nat | Into(o, i, n)
      ensures Meaning(o, rank, out, o.edges[i].from.node) <==> o.edges[i].from.node in outs
    {
      assert Arcs(o.edges)[i].dst == n;
      MeaningIsRuns(o, rank, out, outs, o.edges[i].from.node);
    }
  }

  /** In a run without failure the nodes that succeeded are exactly those the rule selects. */
  lemma SucceededIsRuns(o: Opening, env: Environment, records: map<NodeId, NodeRecord>, done: seq<Completion>, n: NodeId)
    requires UniqueIds(o.nodes) && Explained(o, env, records, done, None) && n in Ids(o.nodes)
    ensures n in OutputsOf(done) <==> Runs(o, OutputsOf(done), n)
    ensures records[n].state == if n in OutputsOf(done) then Succeeded else Skipped
  {
    PoppedOnce(o, env, records, done);
    OutputsExact(done);
    DeliveriesExact(o, done);
    QueuedExact(o, Deliveries(o, done), n);
    ReadyIsRuns(o, done, n);
    if n in Nodes(done) {
      var k :| 0 <= k < |done| && Nodes(done)[k] == n;
      assert RanAt(o, env, records, done, k);
    }
  }

  /** A run without failure ends with the nodes that the meaning selects succeeded and all others skipped. */
  lemma RunRefinesMeaning(o: Opening, env: Environment, records: map<NodeId, NodeRecord>, done: seq<Completion>,
                          rank: map<NodeId, nat>, out: NodeId -> Ports, n: NodeId)
    requires UniqueIds(o.nodes) && EndpointsKnown(Ids(o.nodes), o.edges) && Ranks(Arcs(o.edges), rank)
    requires Explained(o, env, records, done, None)
    requires forall c :: c in done ==> out(c.node) == c.out
    requires n in Ids(o.nodes)
    ensures records[n].state == if Meaning(o, rank, out, n) then Succeeded else Skipped
  {
    var outs := OutputsOf(done);
    PoppedOnce(o, env, records, done);
    OutputsExact(done);
    forall m | m in Ids(o.nodes) ensures m in outs <==> Runs(o, outs, m) {
      SucceededIsRuns(o, env, records, done, m);
    }
    forall m | m in outs ensures out(m) == outs[m] {
      var k :| 0 <= k < |done| && Nodes(done)[k] == m;
      assert done[k] in done;
    }
    MeaningIsRuns(o, rank, out, outs, n);
    SucceededIsRuns(o, env, records, done, n);
  }

  /** The rule selects every node when each source that is selected lets something through. */
  lemma {:induction false} RuleSelectsAll(o: Opening, rank: map<NodeId, nat>, outs: map<NodeId, Ports>, n: NodeId)
    requires EndpointsKnown(Ids(o.nodes), o.edges) && Ranks(Arcs(o.edges), rank) && n in Ids(o.nodes)
    requires forall m :: m in Ids(o.nodes) ==> (m in outs <==> Runs(o, outs, m))
    requires forall i: nat :: i < |o.edges| && o.edges[i].from.node in outs ==>
                                Passes(o.edges[i], outs[o.edges[i].from.node]) && Carried(o.edges[i], outs[o.edges[i].from.node]) != []
    ensures n in outs
    decreases if n in rank then rank[n] else 0
  {
    forall i: nat | Into(o, i, n) ensures o.edges[i].from.node in outs {
      assert Arcs(o.edges)[i].dst == n;
      RuleSelectsAll(o, rank, outs, o.edges[i].from.node);
    }
  }

  /** Everything an edge of a completed node is asked for: its predicate holds and its port is not empty. */
  ghost predicate LetsThrough(o: Opening, c: Completion) {
    forall i: nat :: i < |o.edges| && o.edges[i].from.node == c.node ==>
                       Passes(o.edges[i], c.out) && Carried(o.edges[i], c.out) != []
  }

  /** In an accepted opening, a run without failure whose completed nodes let everything through executes every node. */
  lemma OpenRunExecutes(o: Opening, env: Environment, records: map<NodeId, NodeRecord>, done: seq<Completion>,
                        rank: map<NodeId, nat>, n: NodeId)
    requires UniqueIds(o.nodes) && EndpointsKnown(Ids(o.nodes), o.edges) && Ranks(Arcs(o.edges), rank)
    requires Explained(o, env, records, done, None) && n in Ids(o.nodes)
    requires forall k :: 0 <= k < |done| ==> LetsThrough(o, done[k])
    ensures records[n].state == Succeeded && n in Nodes(done)
  {
    var outs := OutputsOf(done);
    PoppedOnce(o, env, records, done);
    OutputsExact(done);
    forall i: nat | i < |o.edges| && o.edges[i].from.node in outs
      ensures Passes(o.edges[i], outs[o.edges[i].from.node]) && Carried(o.edges[i], outs[o.edges[i].from.node]) != []
    {
      var k :| 0 <= k < |done| && Nodes(done)[k] == o.edges[i].from.node;
      assert done[k] in done && LetsThrough(o, done[k]);
    }
    forall m | m in Ids(o.nodes) ensures m in outs <==> Runs(o, outs, m) {
      SucceededIsRuns(o, env, records, done, m);
    }
    RuleSelectsAll(o, rank, outs, n);
    SucceededIsRuns(o, env, records, done, n);
  }

  /** A sufficient condition on the executor alone: every call completes and lets everything through. */
  ghost predicate Smooth(o: Opening, env: Environment) {
    forall node: Node, inputs: Ports, k: nat :: env(node, inputs, k).Completed? && LetsThrough(o, Completion(node.id, env(node, inputs, k).outputs))
  }

  lemma SmoothSucceeds(o: Opening, env: Environment, records: map<NodeId, NodeRecord>, done: seq<Completion>, n: Option<NodeId>)
    requires Smooth(o, env)
    ensures n.Some? && RanAfter(o, env, records, done, n.value) ==> records[n.value].state == Succeeded
  {
    if n.Some? && RanAfter(o, env, records, done, n.value) {
      var node, inputs := FindNode(o.nodes, n.value), Inbox(o, Deliveries(o, done), n.value);
      assert env(node, inputs, |records[n.value].attempts|).Completed?;
    }
  }

  lemma SmoothCompletion(o: Opening, env: Environment, records: map<NodeId, NodeRecord>, done: seq<Completion>, k: nat)
    requires Smooth(o, env) && History(o, env, records, done) && k < |done|
    ensures LetsThrough(o, done[k])
  {
    assert RanAt(o, env, records, done, k);
    var n := done[k].node;
    var node, inputs := FindNode(o.nodes, n), Inbox(o, Deliveries(o, done[..k]), n);
    var m := |records[n].attempts|;
    assert records[n].attempts[m - 1] == RecordOf(o, node, inputs, m, env(node, inputs, m));
    assert env(node, inputs, m).Completed?;
  }

  /** With such an executor, every run of an accepted opening fails nowhere and executes every node. */
  lemma SmoothRunExecutes(o: Opening, env: Environment, records: map<NodeId, NodeRecord>, done: seq<Completion>,
                          failing: Option<NodeId>, rank: map<NodeId, nat>, n: NodeId)
    requires UniqueIds(o.nodes) && EndpointsKnown(Ids(o.nodes), o.edges) && Ranks(Arcs(o.edges), rank)
    requires Smooth(o, env) && Explained(o, env, records, done, failing) && n in Ids(o.nodes)
    ensures failing == None && records[n].state == Succeeded
  {
    SmoothSucceeds(o, env, records, done, failing);
    forall k | 0 <= k < |done| ensures LetsThrough(o, done[k]) {
      SmoothCompletion(o, env, records, done, k);
    }
    OpenRunExecutes(o, env, records, done, rank, n);
  }

  // ----- input conservation

  /** What the sources have put on the ports from which edges lead to `port` of `n`, concatenated in delivery order. */
  ghost function Arrivals(o: Opening, c: seq<Delivery>, n: NodeId, port: string): seq<Json> {
    if c == [] then []
    else
      var d := c[|c| - 1];
      Arrivals(o, c[..|c| - 1], n, port) +
      if Into(o, d.edge, n) && o.edges[d.edge].to.port == port && o.edges[d.edge].from.port in d.out
      then d.out[o.edges[d.edge].from.port] else []
  }

  lemma {:induction false} InboxIsArrivals(o: Opening, c: seq<Delivery>, n: NodeId, port: string)
    requires !Blocked(o, c, n)
    ensures PortValues(Inbox(o, c, n), port) == Arrivals(o, c, n, port)
    ensures port in Inbox(o, c, n) <==> Arrivals(o, c, n, port) != []
  {
    if c != [] {
      assert Into(o, c[|c| - 1].edge, n) ==> Passes(o.edges[c[|c| - 1].edge], c[|c| - 1].out);
      assert forall k :: 0 <= k < |c| - 1 ==> c[..|c| - 1][k] == c[k];
      InboxIsArrivals(o, c[..|c| - 1], n, port);
    }
  }

  /** Every attempt of an executed node sees, per port, all arrivals from the nodes completed before it, each edge once. */
  lemma InputsConserved(o: Opening, env: Environment, records: map<NodeId, NodeRecord>, done: seq<Completion>,
                        failing: Option<NodeId>, n: NodeId, k: nat, j: nat, port: string)
    requires UniqueIds(o.nodes) && Explained(o, env, records, done, failing)
    requires k <= |done| && if k < |done| then done[k].node == n else failing == Some(n)
    requires n in records && j < |records[n].attempts|
    ensures var c, inputs := Deliveries(o, done[..k]), records[n].attempts[j].inputs;
            && (port in inputs <==> Arrivals(o, c, n, port) != [])
            && (port in inputs ==> inputs[port] == Arrivals(o, c, n, port))
            && OnceEach(o, c) && forall i: nat :: Into(o, i, n) ==> i in EdgesOf(c)
  {
    if k < |done| {
      RanThen(o, env, records, done, k);
    } else {
      assert done[..k] == done;
    }
    InputsGiven(o, env, records, done[..k], n, j);
    HistoryPrefix(o, env, records, done, k);
    PoppedOnce(o, env, records, done[..k]);
    DeliveriesExact(o, done[..k]);
    NextIsNew(o, env, records, done[..k], n);
    ReadyUnblocked(o, Deliveries(o, done[..k]), n);
    InboxIsArrivals(o, Deliveries(o, done[..k]), n, port);
    InboundDelivered(o, Deliveries(o, done[..k]), n);
  }

  lemma InputsGiven(o: Opening, env: Environment, records: map<NodeId, NodeRecord>, done: seq<Completion>, n: NodeId, j: nat)
    requires RanAfter(o, env, records, done, n) && j < |records[n].attempts|
    ensures records[n].attempts[j].inputs == Inbox(o, Deliveries(o, done), n)
  {
    var node, inputs := FindNode(o.nodes, n), Inbox(o, Deliveries(o, done), n);
    assert records[n].attempts[j] == RecordOf(o, node, inputs, j + 1, env(node, inputs, j + 1));
  }

  lemma ReadyUnblocked(o: Opening, c: seq<Delivery>, n: NodeId)
    requires Ready(o, c, n)
    ensures !Blocked(o, c, n)
  {
    if !HasInbound(o, n) {
      assert forall i: nat :: !Into(o, i, n);
    }
  }

  lemma InboundDelivered(o: Opening, c: seq<Delivery>, n: NodeId)
    requires Ready(o, c, n)
    ensures forall i: nat :: Into(o, i, n) ==> i in EdgesOf(c)
  {
    if !HasInbound(o, n) {
      assert forall i: nat :: !Into(o, i, n);
    }
  }

  // ----- totals

  ghost function AttemptsMade(nodes: seq<Node>, records: map<NodeId, NodeRecord>): nat {
    if nodes == [] then 0
    else
      var id := nodes[|nodes| - 1].id;
      AttemptsMade(nodes[..|nodes| - 1], records) + if id in records then |records[id].attempts| else 0
  }

  ghost function AttemptBudget(nodes: seq<Node>): nat {
    if nodes == [] then 0 else AttemptBudget(nodes[..|nodes| - 1]) + MaxAttempts(nodes[|nodes| - 1])
  }

  /** Final states and attempts of every node of a run. */
  lemma NodeTotals(o: Opening, env: Environment, records: map<NodeId, NodeRecord>, done: seq<Completion>,
                   failing: Option<NodeId>, n: NodeId)
    requires UniqueIds(o.nodes) && Explained(o, env, records, done, failing) && n in Ids(o.nodes)
    ensures var NodeRecord(id, state, attempts) := records[n];
            && id == n && (state.Succeeded? || state.Failed? || state.Skipped?)
            && (state.Skipped? <==> attempts == [])
            && (state.Failed? <==> failing == Some(n))
            && |attempts| <= MaxAttempts(FindNode(o.nodes, n))
            && (forall j :: 0 <= j < |attempts| ==> attempts[j].attempt == j + 1)
            && (forall j :: 0 <= j < |attempts| ==> attempts[j].inputs == attempts[0].inputs)
            && (forall j :: 0 <= j < |attempts| ==>
                              (attempts[j].output.Some? <==> state.Succeeded? && j == |attempts| - 1))
  {
    PoppedOnce(o, env, records, done);
    if failing == Some(n) {
      NextIsNew(o, env, records, done, n);
    }
    if n in Nodes(done) {
      var k :| 0 <= k < |done| && Nodes(done)[k] == n;
      assert RanAt(o, env, records, done, k);
      RetriedShape(o, env, FindNode(o.nodes, n), Inbox(o, Deliveries(o, done[..k]), n), records[n]);
    } else if failing == Some(n) {
      RetriedShape(o, env, FindNode(o.nodes, n), Inbox(o, Deliveries(o, done), n), records[n]);
    }
  }

  lemma RetriedShape(o: Opening, env: Environment, node: Node, inputs: Ports, record: NodeRecord)
    requires Retried(o, env, node, inputs, record)
    ensures forall j :: 0 <= j < |record.attempts| ==>
              && record.attempts[j].attempt == j + 1 && record.attempts[j].inputs == inputs
              && (record.attempts[j].output.Some? <==> record.state.Succeeded? && j == |record.attempts| - 1)
  {
    forall j | 0 <= j < |record.attempts|
      ensures record.attempts[j].output.Some? <==> record.state.Succeeded? && j == |record.attempts| - 1
    {
      assert record.attempts[j] == RecordOf(o, node, inputs, j + 1, env(node, inputs, j + 1));
      if j < |record.attempts| - 1 {
        assert !Conclusive(env(node, inputs, j + 1));
      }
    }
  }

  /** A run makes at most the sum of the attempt limits. */
  lemma CallsBounded(o: Opening, env: Environment, records: map<NodeId, NodeRecord>, done: seq<Completion>, failing: Option<NodeId>)
    requires UniqueIds(o.nodes) && Explained(o, env, records, done, failing)
    ensures AttemptsMade(o.nodes, records) <= AttemptBudget(o.nodes)
  {
    forall k: nat | k < |o.nodes| ensures WithinBudget(o.nodes[k], records) {
      NodeBounded(o, env, records, done, failing, k);
    }
    SumWithinBudget(o.nodes, records);
  }

  ghost predicate WithinBudget(node: Node, records: map<NodeId, NodeRecord>) {
    node.id in records ==> |records[node.id].attempts| <= MaxAttempts(node)
  }

  lemma {:induction false} SumWithinBudget(nodes: seq<Node>, records: map<NodeId, NodeRecord>)
    requires forall k: nat :: k < |nodes| ==> WithinBudget(nodes[k], records)
    ensures AttemptsMade(nodes, records) <= AttemptBudget(nodes)
  {
    if nodes != [] {
      SumWithinBudget(nodes[..|nodes| - 1], records);
      assert WithinBudget(nodes[|nodes| - 1], records);
    }
  }

  lemma NodeBounded(o: Opening, env: Environment, records: map<NodeId, NodeRecord>, done: seq<Completion>,
                    failing: Option<NodeId>, k: nat)
    requires UniqueIds(o.nodes) && Explained(o, env, records, done, failing) && k < |o.nodes|
    ensures WithinBudget(o.nodes[k], records)
  {
    assert o.nodes[k] in o.nodes;
    NodeTotals(o, env, records, done, failing, o.nodes[k].id);
    FindUnique(o.nodes, k);
  }

  lemma {:induction false} FindUnique(nodes: seq<Node>, k: nat)
    requires UniqueIds(nodes) && k < |nodes|
    ensures nodes[k] in nodes && FindNode(nodes, nodes[k].id) == nodes[k]
  {
    if k > 0 {
      assert nodes[1..][k - 1] == nodes[k];
      assert nodes[0].id != nodes[k].id;
      FindUnique(nodes[1..], k - 1);
    }
  }

  // ----- retries

  /** The attempt ended in an error that may be retried: a timeout, or a failure marked so. */
  ghost predicate MayRetry(outcome: Outcome) {
    match outcome
    case TimedOut => true
    case Failure(retryable, _) => retryable
    case _ => false
  }

  /** The time an attempt of a node is given: its own limit, else the opening's, else half a minute. */
  ghost function TimeLimit(o: Opening, node: Node): nat {
    match (node.timeoutMs, o.policyTimeoutMs)
    case (Some(ms), _) => ms
    case (None, Some(ms)) => ms
    case (None, None) => 30000
  }

  /** The record of one attempt by how it ended. */
  ghost predicate TellsOutcome(o: Opening, node: Node, outcome: Outcome, a: AttemptRecord) {
    match outcome
    case Completed(outputs) => a.output == Some(outputs) && a.error == None
    case Failure(_, reason) => a.output == None && a.error == Some(reason)
    case ExecutorError(text) => a.output == None && a.error == Some(text)
    case TimedOut => a.output == None && a.error == Some("timeout after " + Decimal(TimeLimit(o, node)) + " ms")
  }

  /**
    * The node is attempted as long as attempts are left and the last one may be retried, and no longer; its attempts
    * are numbered from 1, see the same inputs and tell how they ended, and the last one decides its state.
    */
  ghost predicate FollowsRule(o: Opening, env: Environment, node: Node, inputs: Ports, record: NodeRecord) {
    var attempts, limit := record.attempts, if node.maxAttempts == 0 then 1 else node.maxAttempts;
    && 1 <= |attempts| <= limit
    && (forall i: nat :: 1 <= i < |attempts| ==> MayRetry(env(node, inputs, i)))
    && (|attempts| < limit ==> !MayRetry(env(node, inputs, |attempts|)))
    && (forall j :: 0 <= j < |attempts| ==> attempts[j].attempt == j + 1 && attempts[j].inputs == inputs
                                            && TellsOutcome(o, node, env(node, inputs, j + 1), attempts[j]))
    && (record.state == Succeeded <==> attempts[|attempts| - 1].output.Some?)
    && (attempts[|attempts| - 1].error.Some? ==> record.state == Failed(attempts[|attempts| - 1].error.value))
  }

  /** Every executed node follows the rule, on what the nodes before it sent. */
  lemma AttemptsFollowRule(o: Opening, env: Environment, records: map<NodeId, NodeRecord>, done: seq<Completion>,
                           failing: Option<NodeId>, n: NodeId, k: nat)
    requires Explained(o, env, records, done, failing)
    requires k <= |done| && if k < |done| then done[k].node == n else failing == Some(n)
    ensures n in Ids(o.nodes) && n in records
    ensures FollowsRule(o, env, FindNode(o.nodes, n), Inbox(o, Deliveries(o, done[..k]), n), records[n])
  {
    if k < |done| {
      RanThen(o, env, records, done, k);
    } else {
      assert done[..k] == done;
    }
    RetriedFollowsRule(o, env, FindNode(o.nodes, n), Inbox(o, Deliveries(o, done[..k]), n), records[n]);
  }

  lemma RetriedFollowsRule(o: Opening, env: Environment, node: Node, inputs: Ports, record: NodeRecord)
    requires Retried(o, env, node, inputs, record)
    ensures FollowsRule(o, env, node, inputs, record)
  {
    var attempts := record.attempts;
    forall j | 0 <= j < |attempts|
      ensures attempts[j].attempt == j + 1 && attempts[j].inputs == inputs && TellsOutcome(o, node, env(node, inputs, j + 1), attempts[j])
    {
      assert attempts[j] == RecordOf(o, node, inputs, j + 1, env(node, inputs, j + 1));
    }
    assert attempts[|attempts| - 1] == RecordOf(o, node, inputs, |attempts|, env(node, inputs, |attempts|));
    forall i: nat | 1 <= i < |attempts| ensures MayRetry(env(node, inputs, i)) {
      assert !Conclusive(env(node, inputs, i));
    }
  }

  // ----- determinism

  lemma InconclusiveBefore(o: Opening, env: Environment, node: Node, inputs: Ports, r: NodeRecord, j: nat)
    requires Retried(o, env, node, inputs, r)
    ensures 1 <= j < |r.attempts| ==> !Conclusive(env(node, inputs, j))
  {
  }

  lemma RetriedUnique(o: Opening, env: Environment, node: Node, inputs: Ports, r1: NodeRecord, r2: NodeRecord)
    requires Retried(o, env, node, inputs, r1) && Retried(o, env, node, inputs, r2)
    ensures r1 == r2
  {
    var k1, k2 := |r1.attempts|, |r2.attempts|;
    InconclusiveBefore(o, env, node, inputs, r1, k2);
    InconclusiveBefore(o, env, node, inputs, r2, k1);
    assert r1.attempts == r2.attempts;
  }

  lemma SameCompletion(o: Opening, env: Environment, r1: map<NodeId, NodeRecord>, r2: map<NodeId, NodeRecord>,
                       done1: seq<Completion>, done2: seq<Completion>, m: nat)
    requires m < |done1| && m < |done2| && done1[..m] == done2[..m]
    requires History(o, env, r1, done1) && History(o, env, r2, done2)
    ensures done1[m] == done2[m]
  {
    RanThen(o, env, r1, done1, m);
    RanThen(o, env, r2, done2, m);
    SameNext(o, env, r1, r2, done1[..m], done1[m].node, done2[m].node);
  }

  lemma RanThen(o: Opening, env: Environment, records: map<NodeId, NodeRecord>, done: seq<Completion>, m: nat)
    requires History(o, env, records, done) && m < |done|
    ensures RanAfter(o, env, records, done[..m], done[m].node) && Completes(records, done[m])
  {
    assert RanAt(o, env, records, done, m);
  }

  /** Two explanations agree on the `k`-th completion, as long as both have one. */
  lemma {:induction false} SamePrefix(o: Opening, env: Environment, r1: map<NodeId, NodeRecord>, r2: map<NodeId, NodeRecord>,
                                     done1: seq<Completion>, done2: seq<Completion>, k: nat)
    requires History(o, env, r1, done1) && History(o, env, r2, done2) && k <= |done1| && k <= |done2|
    ensures done1[..k] == done2[..k]
  {
    if k > 0 {
      SamePrefix(o, env, r1, r2, done1, done2, k - 1);
      var m := k - 1;
      SameCompletion(o, env, r1, r2, done1, done2, m);
      assert done1[..k] == done1[..m] + [done1[m]] && done2[..k] == done2[..m] + [done2[m]];
    }
  }

  /** The node run next, and its record, are determined by what completed before. */
  lemma SameNext(o: Opening, env: Environment, r1: map<NodeId, NodeRecord>, r2: map<NodeId, NodeRecord>,
                 done: seq<Completion>, n1: NodeId, n2: NodeId)
    requires RanAfter(o, env, r1, done, n1) && RanAfter(o, env, r2, done, n2)
    ensures n1 == n2 && r1[n1] == r2[n2]
  {
    var queued := Queued(o, Deliveries(o, done));
    assert (Nodes(done) + [n1])[|done|] == queued[|done|] == (Nodes(done) + [n2])[|done|];
    RetriedUnique(o, env, FindNode(o.nodes, n1), Inbox(o, Deliveries(o, done), n1), r1[n1], r2[n2]);
  }

  /** A node that runs was still queued. */
  lemma RanLonger(o: Opening, env: Environment, records: map<NodeId, NodeRecord>, done: seq<Completion>, n: Option<NodeId>)
    ensures n.Some? && RanAfter(o, env, records, done, n.value) ==> |done| < |Queued(o, Deliveries(o, done))|
  {
    if n.Some? && RanAfter(o, env, records, done, n.value) {
      assert |Nodes(done) + [n.value]| <= |Queued(o, Deliveries(o, done))|;
    }
  }

  /** After a common history, no explanation stops where another goes on. */
  lemma SameLength(o: Opening, env: Environment, r1: map<NodeId, NodeRecord>, r2: map<NodeId, NodeRecord>,
                   done1: seq<Completion>, done2: seq<Completion>, f1: Option<NodeId>, f2: Option<NodeId>)
    requires Explained(o, env, r1, done1, f1) && Explained(o, env, r2, done2, f2)
    ensures |done2| <= |done1|
  {
    var k := |done1|;
    if k < |done2| {
      SamePrefix(o, env, r1, r2, done1, done2, k);
      assert done1[..k] == done1;
      assert RanAt(o, env, r2, done2, k);
      RanLonger(o, env, r2, done1, Some(done2[k].node));
      if f1.Some? {
        SameNext(o, env, r1, r2, done1, f1.value, done2[k].node);
      }
    }
  }

  /** The opening and the executor determine the whole run: order, inputs, attempts and final states. */
  lemma RunDetermined(o: Opening, env: Environment, r1: map<NodeId, NodeRecord>, r2: map<NodeId, NodeRecord>,
                      done1: seq<Completion>, done2: seq<Completion>, f1: Option<NodeId>, f2: Option<NodeId>)
    requires Explained(o, env, r1, done1, f1) && Explained(o, env, r2, done2, f2)
    ensures done1 == done2 && f1 == f2 && r1 == r2
  {
    SameLength(o, env, r1, r2, done1, done2, f1, f2);
    SameLength(o, env, r2, r1, done2, done1, f2, f1);
    var k := |done1|;
    SamePrefix(o, env, r1, r2, done1, done2, k);
    assert done1[..k] == done1 && done2[..k] == done2;
    RanLonger(o, env, r1, done1, f1);
    RanLonger(o, env, r2, done2, f2);
    if f1.Some? {
      SameNext(o, env, r1, r2, done1, f1.value, f2.value);
    }
    forall n | n in r1 ensures r1[n] == r2[n] {
      if n in Nodes(done1) {
        var j :| 0 <= j < k && Nodes(done1)[j] == n;
        assert RanAt(o, env, r1, done1, j) && RanAt(o, env, r2, done2, j);
        SameNext(o, env, r1, r2, done1[..j], n, n);
      }
    }
  }
}
