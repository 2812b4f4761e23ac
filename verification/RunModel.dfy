/** What a run of an opening means: deliveries, inboxes, wake-ups and retries, without the loop. */
module RunModel {
  import opened Json
  import opened Graph
  import opened Openings

  /** What one executor call comes to: its answer, its error, or the runner's timeout firing first. */
  datatype Outcome =
    | Completed(outputs: Ports)
    | Failure(retryable: bool, reason: string)
    | ExecutorError(text: string)
    | TimedOut

  /** Outcomes by node, inputs and attempt number; a run makes each such call at most once. */
  type Environment = (Node, Ports, nat) -> Outcome

  datatype NodeState = Pending | Running | Succeeded | Failed(reason: string) | Skipped | Cancelled
  datatype AttemptRecord = AttemptRecord(attempt: nat, inputs: Ports, output: Option<Ports>, error: Option<string>)
  datatype NodeRecord = NodeRecord(nodeId: NodeId, state: NodeState, attempts: seq<AttemptRecord>)

  /** A node that succeeded, with the outputs of its last attempt. */
  datatype Completion = Completion(node: NodeId, out: Ports)

  /** An edge followed after its source completed with outputs `out`. */
  datatype Delivery = Delivery(edge: nat, out: Ports)

  // ----- retries

  function MaxAttempts(node: Node): nat {
    if node.maxAttempts == 0 then 1 else node.maxAttempts
  }

  function TimeoutReason(o: Opening, node: Node): string {
    var ms := if node.timeoutMs.Some? then node.timeoutMs.value
              else if o.policyTimeoutMs.Some? then o.policyTimeoutMs.value else 30000;
    "timeout after " + Decimal(ms) + " ms"
  }

  /** The error text an unsuccessful outcome leaves in the records. */
  function ErrorText(o: Opening, node: Node, outcome: Outcome): string
    requires !outcome.Completed?
  {
    match outcome
    case Failure(_, reason) => reason
    case ExecutorError(text) => text
    case TimedOut => TimeoutReason(o, node)
  }

  /** No retry follows such an outcome, whatever attempts are left. */
  predicate Conclusive(outcome: Outcome) {
    outcome.Completed? || outcome.ExecutorError? || (outcome.Failure? && !outcome.retryable)
  }

  ghost function RecordOf(o: Opening, node: Node, inputs: Ports, attempt: nat, outcome: Outcome): AttemptRecord {
    if outcome.Completed? then AttemptRecord(attempt, inputs, Some(outcome.outputs), None)
    else AttemptRecord(attempt, inputs, None, Some(ErrorText(o, node, outcome)))
  }

  /** Attempts 1..k on the same inputs, where k is the first conclusive one or the last allowed. */
  ghost predicate Retried(o: Opening, env: Environment, node: Node, inputs: Ports, record: NodeRecord) {
    var k := |record.attempts|;
    && record.nodeId == node.id
    && 1 <= k <= MaxAttempts(node)
    && (forall j :: 0 <= j < k ==> record.attempts[j] == RecordOf(o, node, inputs, j + 1, env(node, inputs, j + 1)))
    && (forall j :: 1 <= j < k ==> !Conclusive(env(node, inputs, j)))
    && (k == MaxAttempts(node) || Conclusive(env(node, inputs, k)))
    && var outcome := env(node, inputs, k);
       record.state == if outcome.Completed? then Succeeded else Failed(ErrorText(o, node, outcome))
  }

  // ----- deliveries

  ghost predicate Into(o: Opening, i: nat, n: NodeId) {
    i < |o.edges| && o.edges[i].to.node == n
  }

  ghost predicate HasInbound(o: Opening, n: NodeId) {
    exists i :: Into(o, i, n)
  }

  ghost function EdgesOf(c: seq<Delivery>): set<nat> {
    if c == [] then {} else EdgesOf(c[..|c| - 1]) + {c[|c| - 1].edge}
  }

  /** Each edge of the opening is delivered at most once. */
  ghost predicate OnceEach(o: Opening, c: seq<Delivery>) {
    c == [] ||
    var before, d := c[..|c| - 1], c[|c| - 1];
    OnceEach(o, before) && d.edge < |o.edges| && d.edge !in EdgesOf(before)
  }

  ghost function Sends(edges: seq<nat>, out: Ports): seq<Delivery> {
    if edges == [] then [] else Sends(edges[..|edges| - 1], out) + [Delivery(edges[|edges| - 1], out)]
  }

  /** All deliveries of the completed nodes: completion order, then edge order. */
  ghost function Deliveries(o: Opening, done: seq<Completion>): seq<Delivery> {
    if done == [] then []
    else
      var last := done[|done| - 1];
      Deliveries(o, done[..|done| - 1]) + Sends(Leaving(Arcs(o.edges), 0, last.node), last.out)
  }

  /** The input buffer of `n` after the deliveries `c`. */
  ghost function Inbox(o: Opening, c: seq<Delivery>, n: NodeId): Ports {
    if c == [] then map[]
    else
      var before, d := Inbox(o, c[..|c| - 1], n), c[|c| - 1];
      if Into(o, d.edge, n) then PushAll(before, o.edges[d.edge].to.port, Carried(o.edges[d.edge], d.out)) else before
  }

  /** Some delivered edge into `n` has a predicate that does not hold. */
  ghost predicate Blocked(o: Opening, c: seq<Delivery>, n: NodeId) {
    exists k :: 0 <= k < |c| && Into(o, c[k].edge, n) && !Passes(o.edges[c[k].edge], c[k].out)
  }

  /** Every edge into `n` is delivered, none is blocked and something arrived. */
  ghost predicate Satisfied(o: Opening, c: seq<Delivery>, n: NodeId) {
    && (forall i :: Into(o, i, n) ==> i in EdgesOf(c))
    && !Blocked(o, c, n)
    && Inbox(o, c, n) != map[]
  }

  ghost predicate Ready(o: Opening, c: seq<Delivery>, n: NodeId) {
    !HasInbound(o, n) || Satisfied(o, c, n)
  }

  // ----- the order in which nodes are queued

  ghost function Roots(o: Opening, nodes: seq<Node>): seq<NodeId> {
    if nodes == [] then []
    else Roots(o, nodes[..|nodes| - 1]) + if HasInbound(o, nodes[|nodes| - 1].id) then [] else [nodes[|nodes| - 1].id]
  }

  /** Nodes woken by the deliveries `c`: each by the delivery that satisfies its last open edge. */
  ghost function Woken(o: Opening, c: seq<Delivery>): seq<NodeId> {
    if c == [] then []
    else Woken(o, c[..|c| - 1]) + Wakes(o, c)
  }

  ghost function Wakes(o: Opening, c: seq<Delivery>): seq<NodeId>
    requires c != []
  {
    var i := c[|c| - 1].edge;
    if i < |o.edges| && o.edges[i].to.node in Ids(o.nodes) && Satisfied(o, c, o.edges[i].to.node)
    then [o.edges[i].to.node] else []
  }

  /** The FIFO history of the work queue. */
  ghost function Queued(o: Opening, c: seq<Delivery>): seq<NodeId> {
    Roots(o, o.nodes) + Woken(o, c)
  }

  lemma {:induction false} RootsExact(o: Opening, nodes: seq<Node>)
    ensures forall n :: n in Roots(o, nodes) <==> n in Ids(nodes) && !HasInbound(o, n)
    ensures UniqueIds(nodes) ==> Distinct(Roots(o, nodes))
  {
    if nodes != [] {
      RootsExact(o, nodes[..|nodes| - 1]);
      assert nodes == nodes[..|nodes| - 1] + [nodes[|nodes| - 1]];
    }
  }

  /** A delivery into another node changes nothing about `n`. */
  lemma OtherTarget(o: Opening, c: seq<Delivery>, d: Delivery, n: NodeId)
    requires !Into(o, d.edge, n)
    ensures Satisfied(o, c + [d], n) <==> Satisfied(o, c, n)
    ensures Blocked(o, c + [d], n) <==> Blocked(o, c, n)
    ensures Inbox(o, c + [d], n) == Inbox(o, c, n)
  {
    var c' := c + [d];
    assert c'[..|c|] == c;
    assert EdgesOf(c') == EdgesOf(c) + {d.edge};
    assert forall k :: 0 <= k < |c| ==> c'[k] == c[k];
  }

  lemma {:induction false} WokenExact(o: Opening, c: seq<Delivery>, n: NodeId)
    requires OnceEach(o, c)
    ensures n in Woken(o, c) <==> n in Ids(o.nodes) && HasInbound(o, n) && Satisfied(o, c, n)
  {
    if c == [] {
      if n in Ids(o.nodes) && HasInbound(o, n) {
        var i :| Into(o, i, n);
        assert i !in EdgesOf(c);
      }
    } else {
      var before, d := c[..|c| - 1], c[|c| - 1];
      assert c == before + [d];
      WokenExact(o, before, n);
      if Into(o, d.edge, n) {
        assert d.edge !in EdgesOf(before);
      } else {
        OtherTarget(o, before, d, n);
      }
    }
  }

  /** A known node has been queued exactly when it is ready. */
  lemma QueuedExact(o: Opening, c: seq<Delivery>, n: NodeId)
    requires OnceEach(o, c)
    ensures n in Queued(o, c) <==> n in Ids(o.nodes) && Ready(o, c, n)
  {
    RootsExact(o, o.nodes);
    WokenExact(o, c, n);
  }

  /** No node is queued twice. */
  lemma {:induction false} QueuedOnce(o: Opening, c: seq<Delivery>)
    requires OnceEach(o, c) && UniqueIds(o.nodes)
    ensures Distinct(Queued(o, c))
  {
    RootsExact(o, o.nodes);
    if c == [] {
      assert Queued(o, c) == Roots(o, o.nodes);
    } else {
      var before, d := c[..|c| - 1], c[|c| - 1];
      assert c == before + [d];
      QueuedOnce(o, before);
      assert Queued(o, c) == Queued(o, before) + Wakes(o, c);
      if Wakes(o, c) != [] {
        var n := o.edges[d.edge].to.node;
        assert Into(o, d.edge, n) && d.edge !in EdgesOf(before);
        QueuedExact(o, before, n);
      }
    }
  }

  ghost function Nodes(done: seq<Completion>): seq<NodeId> {
    seq(|done|, k requires 0 <= k < |done| => done[k].node)
  }

  lemma OnceMore(o: Opening, c: seq<Delivery>, d: Delivery)
    ensures EdgesOf(c + [d]) == EdgesOf(c) + {d.edge}
    ensures OnceEach(o, c + [d]) <==> OnceEach(o, c) && d.edge < |o.edges| && d.edge !in EdgesOf(c)
  {
    assert (c + [d])[..|c|] == c;
  }

  lemma PrefixDistinct(edges: seq<nat>)
    requires Distinct(edges) && edges != []
    ensures var before, last := edges[..|edges| - 1], edges[|edges| - 1];
            && Distinct(before) && last !in before
            && forall i: nat :: i in edges <==> i in before || i == last
  {
    var before, last := edges[..|edges| - 1], edges[|edges| - 1];
    assert edges == before + [last];
  }

  /** Following distinct edges that have not been followed yet. */
  lemma {:induction false} SendsExact(o: Opening, c: seq<Delivery>, edges: seq<nat>, out: Ports)
    requires OnceEach(o, c) && Distinct(edges)
    requires forall i: nat :: i in edges ==> i < |o.edges| && i !in EdgesOf(c)
    ensures OnceEach(o, c + Sends(edges, out))
    ensures forall i: nat :: i in EdgesOf(c + Sends(edges, out)) <==> i in EdgesOf(c) || i in edges
  {
    if edges == [] {
      assert c + Sends(edges, out) == c;
    } else {
      var before, last := edges[..|edges| - 1], edges[|edges| - 1];
      assert edges == before + [last];
      PrefixDistinct(edges);
      SendsExact(o, c, before, out);
      SendsLast(o, c, edges, out);
    }
  }

  lemma SendsLast(o: Opening, c: seq<Delivery>, edges: seq<nat>, out: Ports)
    requires edges != []
    ensures var before, last := c + Sends(edges[..|edges| - 1], out), edges[|edges| - 1];
            && EdgesOf(c + Sends(edges, out)) == EdgesOf(before) + {last}
            && (OnceEach(o, c + Sends(edges, out)) <==> OnceEach(o, before) && last < |o.edges| && last !in EdgesOf(before))
  {
    var before, last := edges[..|edges| - 1], edges[|edges| - 1];
    OnceMore(o, c + Sends(before, out), Delivery(last, out));
    assert c + Sends(edges, out) == (c + Sends(before, out)) + [Delivery(last, out)];
  }

  /** Deliveries of distinct nodes: each edge at most once, and exactly the edges that leave them. */
  lemma {:induction false} DeliveriesExact(o: Opening, done: seq<Completion>)
    requires Distinct(Nodes(done))
    ensures OnceEach(o, Deliveries(o, done))
    ensures forall i: nat :: i in EdgesOf(Deliveries(o, done)) <==> i < |o.edges| && o.edges[i].from.node in Nodes(done)
  {
    if done != [] {
      var before, last := done[..|done| - 1], done[|done| - 1];
      assert Nodes(done) == Nodes(before) + [last.node] && Nodes(done)[|before|] == last.node;
      assert forall k :: 0 <= k < |before| ==> Nodes(before)[k] == Nodes(done)[k];
      DeliveriesExact(o, before);
      LeavingExact(Arcs(o.edges), 0, last.node);
      assert last.node !in Nodes(before);
      SendsExact(o, Deliveries(o, before), Leaving(Arcs(o.edges), 0, last.node), last.out);
    }
  }

  // ----- explained runs

  function FindNode(nodes: seq<Node>, id: NodeId): (node: Node)
    requires id in Ids(nodes)
    ensures node in nodes && node.id == id
  {
    if nodes[0].id == id then nodes[0] else FindNode(nodes[1..], id)
  }

  /** `n`, popped when the nodes of `done` had completed, was queued by them and ran on what they sent. */
  ghost predicate RanAfter(o: Opening, env: Environment, records: map<NodeId, NodeRecord>, done: seq<Completion>, n: NodeId) {
    && Nodes(done) + [n] <= Queued(o, Deliveries(o, done))
    && n in Ids(o.nodes) && n in records
    && Retried(o, env, FindNode(o.nodes, n), Inbox(o, Deliveries(o, done), n), records[n])
  }

  ghost predicate Completes(records: map<NodeId, NodeRecord>, last: Completion) {
    && last.node in records
    && records[last.node].state == Succeeded
    && records[last.node].attempts != []
    && records[last.node].attempts[|records[last.node].attempts| - 1].output == Some(last.out)
  }

  /** The completed nodes, in order, each ran after those before it. */
  ghost predicate History(o: Opening, env: Environment, records: map<NodeId, NodeRecord>, done: seq<Completion>) {
    forall k {:trigger RanAt(o, env, records, done, k)} :: 0 <= k < |done| ==> RanAt(o, env, records, done, k)
  }

  ghost predicate RanAt(o: Opening, env: Environment, records: map<NodeId, NodeRecord>, done: seq<Completion>, k: nat)
    requires k < |done|
  {
    RanAfter(o, env, records, done[..k], done[k].node) && Completes(records, done[k])
  }

  /** A whole run: the completed nodes, then at most one failing node; every other node is skipped. */
  ghost predicate Explained(o: Opening, env: Environment, records: map<NodeId, NodeRecord>,
                            done: seq<Completion>, failing: Option<NodeId>) {
    && records.Keys == Ids(o.nodes)
    && History(o, env, records, done)
    && (match failing
        case None => Nodes(done) == Queued(o, Deliveries(o, done))
        case Some(n) => RanAfter(o, env, records, done, n) && records[n].state.Failed?)
    && (forall n :: n in Ids(o.nodes) && n !in Nodes(done) && failing != Some(n) ==>
                      records[n] == NodeRecord(n, Skipped, []))
  }

  ghost function OutputsOf(done: seq<Completion>): map<NodeId, Ports> {
    if done == [] then map[] else OutputsOf(done[..|done| - 1])[done[|done| - 1].node := done[|done| - 1].out]
  }

  ghost function NodeSet(done: seq<Completion>): set<NodeId> {
    if done == [] then {} else NodeSet(done[..|done| - 1]) + {done[|done| - 1].node}
  }

  lemma {:induction false} NodeSetExact(done: seq<Completion>)
    ensures forall n :: n in NodeSet(done) <==> n in Nodes(done)
  {
    if done != [] {
      NodeSetExact(done[..|done| - 1]);
      assert Nodes(done) == Nodes(done[..|done| - 1]) + [done[|done| - 1].node];
    }
  }

  lemma HistoryGrows(o: Opening, env: Environment, records: map<NodeId, NodeRecord>, records': map<NodeId, NodeRecord>,
                     done: seq<Completion>, last: Completion)
    requires History(o, env, records, done)
    requires forall n :: n in Nodes(done) + [last.node] && n in records ==> n in records' && records'[n] == records[n]
    requires RanAfter(o, env, records, done, last.node) && Completes(records, last)
    ensures History(o, env, records', done + [last])
  {
    var done' := done + [last];
    forall k | 0 <= k < |done'| ensures RanAt(o, env, records', done', k) {
      assert done'[..k] == done[..k];
      if k < |done| {
        assert RanAt(o, env, records, done, k);
        assert done'[k] == done[k] && Nodes(done)[k] in Nodes(done);
      } else {
        assert done[..k] == done;
      }
    }
  }
}
