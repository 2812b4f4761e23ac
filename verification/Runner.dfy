/** The run loop: a work queue, inbound counters, input buffers and retries, proved against RunModel. */
module Runner {
  import opened Json
  import opened Graph
  import opened Openings
  import opened RunModel
  import Guards

  type Bytes = seq<int>

  /** The hash functions a run uses; nothing is assumed about them. */
  datatype Hashing = Hashing(outputs: Ports -> Bytes, text: string -> Bytes, finish: Bytes -> string)

  datatype NodeAttemptTrace = NodeAttemptTrace(
    attempt: nat, inputs: Ports, outputs: Option<Ports>, outputHash: Option<Bytes>, error: Option<string>)
  datatype NodeTrace = NodeTrace(nodeId: NodeId, state: NodeState, finalAttempt: Option<NodeAttemptTrace>)
  datatype RunTrace = RunTrace(nodes: seq<NodeTrace>, finalHash: string, success: bool)
  datatype RunReport = RunReport(trace: RunTrace, records: map<NodeId, NodeRecord>)

  /** The mutable variables of the run loop. */
  datatype RunState = RunState(
    records: map<NodeId, NodeRecord>,
    remaining: map<NodeId, nat>,
    blocked: set<NodeId>,
    queue: seq<NodeId>,
    buffers: map<NodeId, Ports>,
    outputs: map<NodeId, Ports>,
    processed: map<NodeId, bool>)

  function BufferOf(s: RunState, n: NodeId): Ports {
    if n in s.buffers then s.buffers[n] else map[]
  }

  /** The counter of `n` counts its open edges; while some are open, its flag tells a failed predicate. */
  ghost predicate CountsAt(o: Opening, s: RunState, c: seq<Delivery>, n: NodeId) {
    && n in s.remaining && n in s.records
    && s.remaining[n] == Open(Arcs(o.edges), 0, n, EdgesOf(c))
    && (s.remaining[n] > 0 ==> (n in s.blocked <==> Blocked(o, c, n)))
  }

  ghost predicate BufferAt(o: Opening, s: RunState, c: seq<Delivery>, n: NodeId) {
    BufferOf(s, n) == Inbox(o, c, n)
  }

  /** The record of a node that has not been popped: decided against, or still undecided. */
  ghost predicate Untouched(s: RunState, n: NodeId) {
    && n in s.remaining && n in s.records
    && s.records[n] == NodeRecord(n, if s.remaining[n] == 0 && n !in s.queue then Skipped else Pending, [])
    && !(n in s.processed && s.processed[n])
  }

  /** What holds in every state of the loop, after the deliveries `c` and with `popped` taken off the queue. */
  ghost predicate Consistent(o: Opening, s: RunState, c: seq<Delivery>, popped: seq<NodeId>) {
    && OnceEach(o, c)
    && s.records.Keys == Ids(o.nodes) && s.remaining.Keys == Ids(o.nodes)
    && popped + s.queue == Queued(o, c)
    && (forall n {:trigger CountsAt(o, s, c, n)} :: n in Ids(o.nodes) ==> CountsAt(o, s, c, n))
    && (forall n {:trigger BufferAt(o, s, c, n)} :: n !in popped ==> BufferAt(o, s, c, n))
    && (forall n {:trigger Untouched(s, n)} :: n in Ids(o.nodes) && n !in popped ==> Untouched(s, n))
  }

  /** How one more delivery changes the count, the flag and the inbox of one node. */
  lemma DeliverAt(o: Opening, c: seq<Delivery>, d: Delivery, n: NodeId)
    requires d.edge < |o.edges| && d.edge !in EdgesOf(c)
    ensures var e := o.edges[d.edge];
            && Open(Arcs(o.edges), 0, n, EdgesOf(c)) ==
               Open(Arcs(o.edges), 0, n, EdgesOf(c + [d])) + (if n == e.to.node then 1 else 0)
            && Inbox(o, c + [d], n) ==
               (if n == e.to.node then PushAll(Inbox(o, c, n), e.to.port, Carried(e, d.out)) else Inbox(o, c, n))
            && (Blocked(o, c + [d], n) <==> Blocked(o, c, n) || (n == e.to.node && !Passes(e, d.out)))
  {
    var c', e := c + [d], o.edges[d.edge];
    assert c'[..|c|] == c;
    assert EdgesOf(c') == EdgesOf(c) + {d.edge};
    OpenClose(Arcs(o.edges), 0, n, EdgesOf(c), d.edge);
    assert c'[|c|] == d;
    assert forall k :: 0 <= k < |c| ==> c'[k] == c[k];
  }

  /** How one more delivery changes the queue history: its target joins when its last edge closes in its favour. */
  lemma DeliverQueue(o: Opening, c: seq<Delivery>, d: Delivery)
    requires OnceEach(o, c) && d.edge < |o.edges| && d.edge !in EdgesOf(c)
    ensures var c', t := c + [d], o.edges[d.edge].to.node;
            && OnceEach(o, c') && t !in Queued(o, c)
            && Queued(o, c') == Queued(o, c) +
                 if t in Ids(o.nodes) && Open(Arcs(o.edges), 0, t, EdgesOf(c')) == 0 &&
                    !Blocked(o, c', t) && Inbox(o, c', t) != map[] then [t] else []
  {
    var c', t := c + [d], o.edges[d.edge].to.node;
    assert c'[..|c|] == c;
    assert Into(o, d.edge, t);
    QueuedExact(o, c, t);
    OpenZero(Arcs(o.edges), 0, t, EdgesOf(c'));
    assert Satisfied(o, c', t) <==>
           Open(Arcs(o.edges), 0, t, EdgesOf(c')) == 0 && !Blocked(o, c', t) && Inbox(o, c', t) != map[];
    assert Queued(o, c') == Queued(o, c) + Wakes(o, c');
  }

  /** The records of popped nodes and the output cache are as before. */
  ghost predicate Keeps(popped: seq<NodeId>, s: RunState, s': RunState) {
    && (forall n :: n in popped && n in s.records ==> n in s'.records && s'.records[n] == s.records[n])
    && s'.outputs == s.outputs
  }

  /** Pushes the values one by one onto a port. */
  method PushValues(initial: Ports, port: string, values: seq<Json>) returns (ports: Ports)
    ensures ports == PushAll(initial, port, values)
  {
    ports := initial;
    for k := 0 to |values|
      invariant ports == PushAll(initial, port, values[..k])
    {
      assert values[..k + 1] == values[..k] + [values[k]];
      assert PortValues(ports, port) == PortValues(initial, port) + values[..k];
      ports := ports[port := (if port in ports then ports[port] else []) + [values[k]]];
      assert PortValues(initial, port) + values[..k] + [values[k]] == PortValues(initial, port) + values[..k + 1];
    }
    assert values[..|values|] == values;
  }

  ghost predicate CarriedTo(e: Edge, s: RunState, out: Ports, s': RunState) {
    && s' == s.(blocked := s'.blocked, buffers := s'.buffers)
    && s'.blocked == (if Passes(e, out) then s.blocked else s.blocked + {e.to.node})
    && BufferOf(s', e.to.node) == PushAll(BufferOf(s, e.to.node), e.to.port, Carried(e, out))
    && forall n :: n != e.to.node ==> BufferOf(s', n) == BufferOf(s, n)
  }

  ghost predicate CountedDown(n: NodeId, hadInbound: bool, s: RunState, s': RunState)
    requires n in s.remaining ==> n in s.records
  {
    && s'.buffers == s.buffers && s'.outputs == s.outputs
    && (n !in s.remaining || s.remaining[n] == 0 ==> s' == s)
    && (n in s.remaining && s.remaining[n] > 0 ==> s'.remaining == s.remaining[n := s.remaining[n] - 1])
    && (n in s.remaining && s.remaining[n] > 1 ==> s' == s.(remaining := s'.remaining))
    && (n in s.remaining && s.remaining[n] == 1 ==>
          && (forall m :: m != n ==> (m in s'.blocked <==> m in s.blocked))
          && if n !in s.blocked && (BufferOf(s, n) != map[] || !hadInbound)
             then s'.queue == s.queue + [n] && s'.records == s.records && s'.processed == s.processed
             else && s'.queue == s.queue && s'.records == s.records[n := s.records[n].(state := Skipped)]
                  && s'.processed == s.processed[n := false])
  }

  /** The counter, flag and buffer of one node after one more delivery. */
  lemma StepCounts(o: Opening, c: seq<Delivery>, d: Delivery, s: RunState, s1: RunState, s2: RunState, n: NodeId)
    requires d.edge < |o.edges| && d.edge !in EdgesOf(c)
    requires CarriedTo(o.edges[d.edge], s, d.out, s1)
    requires o.edges[d.edge].to.node in s.remaining ==> o.edges[d.edge].to.node in s.records
    requires CountedDown(o.edges[d.edge].to.node, true, s1, s2)
    ensures CountsAt(o, s, c, n) ==> CountsAt(o, s2, c + [d], n)
    ensures BufferAt(o, s, c, n) ==> BufferAt(o, s2, c + [d], n)
  {
    if CountsAt(o, s, c, n) {
      StepCountsAt(o, c, d, s, s1, s2, n);
    }
    DeliverAt(o, c, d, n);
    assert BufferOf(s2, n) == BufferOf(s1, n);
  }

  lemma StepCountsAt(o: Opening, c: seq<Delivery>, d: Delivery, s: RunState, s1: RunState, s2: RunState, n: NodeId)
    requires d.edge < |o.edges| && d.edge !in EdgesOf(c) && CountsAt(o, s, c, n)
    requires CarriedTo(o.edges[d.edge], s, d.out, s1)
    requires o.edges[d.edge].to.node in s.remaining ==> o.edges[d.edge].to.node in s.records
    requires CountedDown(o.edges[d.edge].to.node, true, s1, s2)
    ensures CountsAt(o, s2, c + [d], n)
  {
    DeliverAt(o, c, d, n);
    StepCount(o.edges[d.edge], d.out, s, s1, s2, n);
  }

  /** The counter of the target goes down by one, if it was open; its flag is raised by a failed predicate. */
  lemma StepCount(e: Edge, out: Ports, s: RunState, s1: RunState, s2: RunState, n: NodeId)
    requires CarriedTo(e, s, out, s1)
    requires e.to.node in s.remaining ==> e.to.node in s.records
    requires CountedDown(e.to.node, true, s1, s2) && n in s.remaining && n in s.records
    ensures n in s2.remaining && n in s2.records
    ensures s2.remaining[n] == if n == e.to.node && s.remaining[n] > 0 then s.remaining[n] - 1 else s.remaining[n]
    ensures s2.remaining[n] > 0 ==> (n in s2.blocked <==> n in s.blocked || (n == e.to.node && !Passes(e, out)))
  {
  }

  /** The next delivery to this node will queue it. */
  ghost predicate Woken(s: RunState, t: NodeId) {
    t in s.remaining && s.remaining[t] == 1 && t !in s.blocked && BufferOf(s, t) != map[]
  }

  lemma WokenExact(o: Opening, c: seq<Delivery>, d: Delivery, s: RunState, s1: RunState)
    requires d.edge < |o.edges| && d.edge !in EdgesOf(c) && s.remaining.Keys == Ids(o.nodes)
    requires var t := o.edges[d.edge].to.node; BufferAt(o, s, c, t) && (t in Ids(o.nodes) ==> CountsAt(o, s, c, t))
    requires CarriedTo(o.edges[d.edge], s, d.out, s1)
    ensures var c', t := c + [d], o.edges[d.edge].to.node;
            Woken(s1, t) <==>
            t in Ids(o.nodes) && Open(Arcs(o.edges), 0, t, EdgesOf(c')) == 0 && !Blocked(o, c', t) && Inbox(o, c', t) != map[]
  {
    DeliverAt(o, c, d, o.edges[d.edge].to.node);
  }

  lemma NotIn<T>(a: seq<T>, b: seq<T>, x: T)
    requires x !in a + b
    ensures x !in a && x !in b
  {
    assert forall k :: 0 <= k < |a| ==> (a + b)[k] == a[k];
    assert forall k :: 0 <= k < |b| ==> (a + b)[|a| + k] == b[k];
  }

  lemma Rejoin<T>(a: seq<T>, b: seq<T>, c: seq<T>)
    ensures a + (b + c) == (a + b) + c
  {
  }

  lemma QueueChange(t: NodeId, s1: RunState, s2: RunState)
    requires t in s1.remaining ==> t in s1.records
    requires CountedDown(t, true, s1, s2)
    ensures s2.queue == s1.queue + if Woken(s1, t) then [t] else []
    ensures s1.records.Keys == s2.records.Keys && s1.remaining.Keys == s2.remaining.Keys
  {
  }

  /** The queue after one more delivery. */
  lemma StepQueue(o: Opening, c: seq<Delivery>, d: Delivery, popped: seq<NodeId>, s: RunState, s1: RunState, s2: RunState)
    requires OnceEach(o, c) && d.edge < |o.edges| && d.edge !in EdgesOf(c)
    requires popped + s.queue == Queued(o, c) && s.remaining.Keys == s.records.Keys == Ids(o.nodes)
    requires o.edges[d.edge].to.node !in popped ==> BufferAt(o, s, c, o.edges[d.edge].to.node)
    requires o.edges[d.edge].to.node in Ids(o.nodes) ==> CountsAt(o, s, c, o.edges[d.edge].to.node)
    requires CarriedTo(o.edges[d.edge], s, d.out, s1) && CountedDown(o.edges[d.edge].to.node, true, s1, s2)
    ensures OnceEach(o, c + [d]) && o.edges[d.edge].to.node !in popped + s.queue
    ensures popped + s2.queue == Queued(o, c + [d])
    ensures s2.records.Keys == s.records.Keys && s2.remaining.Keys == s.remaining.Keys
  {
    var t := o.edges[d.edge].to.node;
    DeliverQueue(o, c, d);
    NotIn(popped, s.queue, t);
    WokenExact(o, c, d, s, s1);
    QueueChange(t, s1, s2);
    Rejoin(popped, s.queue, if Woken(s1, t) then [t] else []);
  }

  /** Records of other nodes keep; that of the target still says what the loop has decided about it. */
  lemma StepRecord(e: Edge, out: Ports, s: RunState, s1: RunState, s2: RunState, n: NodeId)
    requires CarriedTo(e, s, out, s1)
    requires e.to.node in s.remaining ==> e.to.node in s.records
    requires CountedDown(e.to.node, true, s1, s2)
    requires e.to.node !in s.queue && (e.to.node in s.remaining ==> s.remaining[e.to.node] > 0)
    ensures n != e.to.node && n in s.records ==> n in s2.records && s2.records[n] == s.records[n]
    ensures Untouched(s, n) ==> Untouched(s2, n)
  {
  }

  method Carry(e: Edge, initial: RunState, out: Ports) returns (s: RunState)
    ensures CarriedTo(e, initial, out, s)
  {
    s := initial;
    var passed := e.guard.None? || EvaluatePredicate(e.guard.value, e.from.port, out);
    if !passed && e.guard.Some? {
      s := s.(blocked := s.blocked + {e.to.node});
    }
    if passed && e.from.port in out && out[e.from.port] != [] {
      var entry := PushValues(BufferOf(s, e.to.node), e.to.port, out[e.from.port]);
      s := s.(buffers := s.buffers[e.to.node := entry]);
    }
  }

  /** Lowers the counter of `n`; at zero, `n` is queued or skipped. */
  method CountDown(n: NodeId, hadInbound: bool, initial: RunState) returns (s: RunState)
    requires n in initial.remaining ==> n in initial.records
    ensures CountedDown(n, hadInbound, initial, s)
  {
    s := initial;
    if n in s.remaining && s.remaining[n] > 0 {
      s := s.(remaining := s.remaining[n := s.remaining[n] - 1]);
      if s.remaining[n] == 0 {
        var delivered := n in s.buffers && s.buffers[n] != map[];
        if n in s.blocked {
          s := s.(records := s.records[n := s.records[n].(state := Skipped)],
                  processed := s.processed[n := false], blocked := s.blocked - {n});
        } else if delivered || !hadInbound {
          s := s.(queue := s.queue + [n]);
        } else {
          s := s.(records := s.records[n := s.records[n].(state := Skipped)], processed := s.processed[n := false]);
        }
      }
    }
  }

  /** One pass of the loop over the outgoing edges of a node that completed with outputs `out`. */
  method DeliverEdge(o: Opening, initial: RunState, i: nat, out: Ports, inboundTotal: map<NodeId, nat>,
                     ghost c: seq<Delivery>, ghost popped: seq<NodeId>)
    returns (s: RunState)
    requires Consistent(o, initial, c, popped) && i < |o.edges| && i !in EdgesOf(c)
    requires inboundTotal.Keys == Ids(o.nodes)
    requires forall n :: n in Ids(o.nodes) ==> inboundTotal[n] == Open(Arcs(o.edges), 0, n, {})
    ensures Consistent(o, s, c + [Delivery(i, out)], popped)
    ensures Keeps(popped, initial, s)
  {
    var e := o.edges[i];
    var n := e.to.node;
    ghost var d := Delivery(i, out);
    var hadInbound := n in inboundTotal && inboundTotal[n] > 0;
    assert n in Ids(o.nodes) ==> CountsAt(o, initial, c, n) && initial.remaining[n] > 0 && hadInbound by {
      DeliverAt(o, c, d, n);
      OpenMonotone(Arcs(o.edges), 0, n, EdgesOf(c));
    }
    var carried := Carry(e, initial, out);
    s := CountDown(n, hadInbound, carried);
    StepQueue(o, c, d, popped, initial, carried, s);
    forall m | m in Ids(o.nodes) || m !in popped
      ensures CountsAt(o, initial, c, m) ==> CountsAt(o, s, c + [d], m)
      ensures BufferAt(o, initial, c, m) ==> BufferAt(o, s, c + [d], m)
    {
      StepCounts(o, c, d, initial, carried, s, m);
    }
    forall m
      ensures m != n && m in initial.records ==> m in s.records && s.records[m] == initial.records[m]
      ensures Untouched(initial, m) ==> Untouched(s, m)
    {
      StepRecord(e, out, initial, carried, s, m);
    }
  }

  lemma {:induction false} OpenMonotone(arcs: seq<Arc<NodeId>>, k: nat, n: NodeId, closed: set<nat>)
    requires k <= |arcs|
    ensures Open(arcs, k, n, closed) <= Open(arcs, k, n, {})
    decreases |arcs| - k
  {
    if k < |arcs| {
      OpenMonotone(arcs, k + 1, n, closed);
    }
  }

  lemma NextSend(o: Opening, c: seq<Delivery>, edges: seq<nat>, k: nat, out: Ports)
    requires OnceEach(o, c) && Distinct(edges) && k < |edges|
    requires forall i :: i in edges ==> i < |o.edges| && i !in EdgesOf(c)
    ensures edges[k] < |o.edges| && edges[k] !in EdgesOf(c + Sends(edges[..k], out))
    ensures c + Sends(edges[..k + 1], out) == (c + Sends(edges[..k], out)) + [Delivery(edges[k], out)]
  {
    assert edges[k] in edges && edges[k] !in edges[..k];
    forall i | i in edges[..k] ensures i < |o.edges| && i !in EdgesOf(c) {
      assert i in edges;
    }
    SendsExact(o, c, edges[..k], out);
    assert edges[..k + 1][..k] == edges[..k];
  }

  /** The loop over the outgoing edges of a completed node. */
  method FollowEdges(o: Opening, initial: RunState, edges: seq<nat>, out: Ports, inboundTotal: map<NodeId, nat>,
                     ghost c: seq<Delivery>, ghost popped: seq<NodeId>)
    returns (s: RunState)
    requires Consistent(o, initial, c, popped) && Distinct(edges)
    requires forall i :: i in edges ==> i < |o.edges| && i !in EdgesOf(c)
    requires inboundTotal.Keys == Ids(o.nodes)
    requires forall n :: n in Ids(o.nodes) ==> inboundTotal[n] == Open(Arcs(o.edges), 0, n, {})
    ensures Consistent(o, s, c + Sends(edges, out), popped)
    ensures Keeps(popped, initial, s)
  {
    s := initial;
    assert c + Sends([], out) == c;
    for k := 0 to |edges|
      invariant Consistent(o, s, c + Sends(edges[..k], out), popped)
      invariant Keeps(popped, initial, s)
    {
      NextSend(o, c, edges, k, out);
      s := DeliverEdge(o, s, edges[k], out, inboundTotal, c + Sends(edges[..k], out), popped);
    }
    assert edges[..|edges|] == edges;
  }

  /** Runs a node until an attempt is conclusive or the attempts are used up. */
  method ExecuteNode(o: Opening, env: Environment, node: Node, inputs: Ports) returns (record: NodeRecord)
    ensures Retried(o, env, node, inputs, record)
  {
    record := NodeRecord(node.id, Running, []);
    var used := 0;
    var maxAttempts := if node.maxAttempts == 0 then 1 else node.maxAttempts;
    while true
      invariant used < maxAttempts == MaxAttempts(node)
      invariant record.nodeId == node.id && |record.attempts| == used
      invariant forall j :: 0 <= j < used ==> record.attempts[j] == RecordOf(o, node, inputs, j + 1, env(node, inputs, j + 1))
      invariant forall j :: 1 <= j <= used ==> !Conclusive(env(node, inputs, j))
      decreases maxAttempts - used
    {
      used := used + 1;
      var outcome := env(node, inputs, used);
      match outcome
      case Completed(outputs) =>
        var attempt := AttemptRecord(used, inputs, Some(outputs), None);
        return record.(attempts := record.attempts + [attempt], state := Succeeded);
      case Failure(retryable, reason) =>
        record := record.(attempts := record.attempts + [AttemptRecord(used, inputs, None, Some(reason))]);
        if !(retryable && used < maxAttempts) {
          return record.(state := Failed(reason));
        }
      case ExecutorError(text) =>
        record := record.(attempts := record.attempts + [AttemptRecord(used, inputs, None, Some(text))]);
        return record.(state := Failed(text));
      case TimedOut =>
        var reason := TimeoutReason(o, node);
        record := record.(attempts := record.attempts + [AttemptRecord(used, inputs, None, Some(reason))]);
        if used >= maxAttempts {
          return record.(state := Failed(reason));
        }
    }
  }

  function OutgoingOf(outgoing: map<NodeId, seq<nat>>, n: NodeId): seq<nat> {
    if n in outgoing then outgoing[n] else []
  }

  lemma LeavingStep(arcs: seq<Arc<NodeId>>, k: nat, m: NodeId, before: seq<nat>)
    requires k < |arcs|
    ensures before + Leaving(arcs, k, m) == (if arcs[k].src == m then before + [k] else before) + Leaving(arcs, k + 1, m)
  {
  }

  /** Counts the inbound edges of each node. */
  method CountInbound(o: Opening) returns (inboundTotal: map<NodeId, nat>)
    ensures inboundTotal.Keys == Ids(o.nodes)
    ensures forall n :: n in inboundTotal ==> inboundTotal[n] == Open(Arcs(o.edges), 0, n, {})
  {
    ghost var arcs := Arcs(o.edges);
    inboundTotal := map n | n in Ids(o.nodes) :: 0;
    for k := 0 to |o.edges|
      invariant inboundTotal.Keys == Ids(o.nodes)
      invariant forall n :: n in inboundTotal ==> inboundTotal[n] + Open(arcs, k, n, {}) == Open(arcs, 0, n, {})
    {
      var n := o.edges[k].to.node;
      if n in inboundTotal {
        inboundTotal := inboundTotal[n := inboundTotal[n] + 1];
      }
    }
  }

  /** Groups the edges by source. */
  method GroupOutgoing(o: Opening) returns (outgoing: map<NodeId, seq<nat>>)
    ensures forall n :: OutgoingOf(outgoing, n) == Leaving(Arcs(o.edges), 0, n)
  {
    ghost var arcs := Arcs(o.edges);
    outgoing := map[];
    for k := 0 to |o.edges|
      invariant forall n :: OutgoingOf(outgoing, n) + Leaving(arcs, k, n) == Leaving(arcs, 0, n)
    {
      var n := o.edges[k].from.node;
      ghost var before := outgoing;
      outgoing := outgoing[n := OutgoingOf(outgoing, n) + [k]];
      forall m ensures OutgoingOf(outgoing, m) + Leaving(arcs, k + 1, m) == OutgoingOf(before, m) + Leaving(arcs, k, m) {
        LeavingStep(arcs, k, m, OutgoingOf(before, m));
      }
    }
  }

  /** Queues the nodes without inbound edges and gives them empty input buffers. */
  method QueueRoots(o: Opening, inboundTotal: map<NodeId, nat>) returns (queue: seq<NodeId>, buffers: map<NodeId, Ports>)
    requires inboundTotal.Keys == Ids(o.nodes)
    requires forall n :: n in inboundTotal ==> (inboundTotal[n] == 0 <==> !HasInbound(o, n))
    ensures queue == Roots(o, o.nodes) && forall n :: n in buffers ==> buffers[n] == map[]
  {
    queue, buffers := [], map[];
    for k := 0 to |o.nodes|
      invariant queue == Roots(o, o.nodes[..k]) && forall n :: n in buffers ==> buffers[n] == map[]
    {
      var id := o.nodes[k].id;
      assert o.nodes[..k + 1][..k] == o.nodes[..k];
      assert o.nodes[k] in o.nodes;
      if inboundTotal[id] == 0 {
        queue, buffers := queue + [id], buffers[id := if id in buffers then buffers[id] else map[]];
      }
    }
    assert o.nodes[..|o.nodes|] == o.nodes;
  }

  /** The initial variables: every node pending, the roots queued. */
  method Start(o: Opening, inboundTotal: map<NodeId, nat>) returns (s: RunState)
    requires inboundTotal.Keys == Ids(o.nodes)
    requires forall n :: n in inboundTotal ==> inboundTotal[n] == Open(Arcs(o.edges), 0, n, {})
    ensures Consistent(o, s, [], []) && s.outputs == map[]
  {
    forall n | n in inboundTotal ensures inboundTotal[n] == 0 <==> !HasInbound(o, n) {
      OpenZero(Arcs(o.edges), 0, n, {});
      assert forall i :: 0 <= i < |o.edges| && o.edges[i].to.node == n ==> Into(o, i, n);
    }
    var queue, buffers := QueueRoots(o, inboundTotal);
    var records := map n | n in Ids(o.nodes) :: NodeRecord(n, Pending, []);
    s := RunState(records, inboundTotal, {}, queue, buffers, map[], map[]);
    StartConsistent(o, s);
  }

  lemma StartConsistent(o: Opening, s: RunState)
    requires s.records.Keys == Ids(o.nodes) == s.remaining.Keys && s.queue == Roots(o, o.nodes)
    requires s.blocked == {} && s.processed == map[] && forall n :: n in s.buffers ==> s.buffers[n] == map[]
    requires forall n :: n in s.records ==> s.records[n] == NodeRecord(n, Pending, [])
    requires forall n :: n in s.remaining ==> s.remaining[n] == Open(Arcs(o.edges), 0, n, {}) && (s.remaining[n] == 0 <==> !HasInbound(o, n))
    ensures Consistent(o, s, [], [])
  {
    RootsExact(o, o.nodes);
    assert [] + s.queue == Queued(o, []);
  }

  lemma FrontIsNew(o: Opening, s: RunState, c: seq<Delivery>, popped: seq<NodeId>)
    requires UniqueIds(o.nodes) && OnceEach(o, c) && popped + s.queue == Queued(o, c) && s.queue != []
    ensures var n := s.queue[0];
            && n in Ids(o.nodes) && n !in popped && n !in s.queue[1..]
            && popped + [n] <= Queued(o, c) && (popped + [n]) + s.queue[1..] == Queued(o, c)
  {
    var n, queued := s.queue[0], Queued(o, c);
    QueuedOnce(o, c);
    QueuedExact(o, c, n);
    assert queued[|popped|] == n && n in queued;
    assert forall k :: 0 <= k < |popped| ==> popped[k] == queued[k];
    assert forall k :: 1 <= k < |s.queue| ==> s.queue[k] == queued[|popped| + k];
    assert popped + [n] == queued[..|popped| + 1];
  }

  /** Taking the front off the queue, with a new record and a consumed buffer. */
  lemma PopFront(o: Opening, s: RunState, c: seq<Delivery>, popped: seq<NodeId>, s': RunState, record: NodeRecord)
    requires UniqueIds(o.nodes) && Consistent(o, s, c, popped) && s.queue != []
    requires var n := s.queue[0];
             s' == s.(queue := s.queue[1..], records := s.records[n := record], buffers := s.buffers - {n}, outputs := s'.outputs)
    ensures s.queue[0] in Ids(o.nodes) && s.queue[0] !in popped && popped + [s.queue[0]] <= Queued(o, c)
    ensures Consistent(o, s', c, popped + [s.queue[0]])
  {
    var n := s.queue[0];
    FrontIsNew(o, s, c, popped);
    forall m | BufferAt(o, s, c, m) && m != n ensures BufferAt(o, s', c, m) {
    }
    forall m | m in Ids(o.nodes) ensures CountsAt(o, s', c, m) {
      assert CountsAt(o, s, c, m);
    }
    forall m | m in Ids(o.nodes) && m !in popped + [n] ensures Untouched(s', m) {
      assert Untouched(s, m);
    }
  }

  /** The edges that leave a node not completed before have not been followed. */
  lemma FreshEdges(o: Opening, done: seq<Completion>, n: NodeId)
    requires Distinct(Nodes(done)) && n !in Nodes(done)
    ensures var leaving := Leaving(Arcs(o.edges), 0, n);
            Distinct(leaving) && forall i :: i in leaving ==> i < |o.edges| && i !in EdgesOf(Deliveries(o, done))
  {
    LeavingExact(Arcs(o.edges), 0, n);
    DeliveriesExact(o, done);
  }

  ghost function Settled(record: NodeRecord, processed: bool): NodeRecord {
    if record.state.Succeeded? || record.state.Failed? then record
    else record.(state := if processed then Succeeded else Skipped)
  }

  /** After the loop, every node that neither succeeded nor failed becomes skipped. */
  method Sweep(initial: map<NodeId, NodeRecord>, processed: map<NodeId, bool>, runFailed: bool)
    returns (records: map<NodeId, NodeRecord>)
    ensures records.Keys == initial.Keys
    ensures forall n :: n in initial ==> records[n] == Settled(initial[n], !runFailed && n in processed && processed[n])
  {
    records := initial;
    var todo := initial.Keys;
    while todo != {}
      invariant todo <= initial.Keys == records.Keys
      invariant forall n :: n in todo ==> records[n] == initial[n]
      invariant forall n :: n in initial && n !in todo ==>
                              records[n] == Settled(initial[n], !runFailed && n in processed && processed[n])
      decreases todo
    {
      var n :| n in todo;
      todo := todo - {n};
      if !(records[n].state.Succeeded? || records[n].state.Failed?) {
        var state := if !runFailed && n in processed && processed[n] then Succeeded else Skipped;
        records := records[n := records[n].(state := state)];
      }
    }
  }

  function TraceOf(h: Hashing, record: NodeRecord): NodeTrace {
    NodeTrace(record.nodeId, record.state,
      if record.attempts == [] then None
      else
        var last := record.attempts[|record.attempts| - 1];
        Some(NodeAttemptTrace(last.attempt, last.inputs, last.output,
          if last.output.Some? then Some(h.outputs(last.output.value)) else None, last.error)))
  }

  /** What one node adds to the run hash: its last outputs, its last error, or nothing. */
  function FeedOf(h: Hashing, record: NodeRecord): Bytes {
    if record.attempts == [] then []
    else
      var last := record.attempts[|record.attempts| - 1];
      (if last.output.Some? then h.outputs(last.output.value) else []) +
      (if last.error.Some? then h.text(last.error.value) else [])
  }

  /** What each node of the opening adds to the run hash, in node order. */
  ghost function Feeds(h: Hashing, nodes: seq<Node>, records: map<NodeId, NodeRecord>): seq<Bytes>
    requires forall n :: n in nodes ==> n.id in records
  {
    seq(|nodes|, k requires 0 <= k < |nodes| => assert nodes[k] in nodes; FeedOf(h, records[nodes[k].id]))
  }

  ghost function Flatten(parts: seq<Bytes>): Bytes {
    if parts == [] then [] else Flatten(parts[..|parts| - 1]) + parts[|parts| - 1]
  }

  /** What a traced node tells: its state and, if it was executed, its last attempt with outputs or error. */
  lemma TraceTells(o: Opening, h: Hashing, records: map<NodeId, NodeRecord>, trace: RunTrace, k: nat)
    requires Covered(o, records) && Traced(o, h, records, trace) && k < |o.nodes|
    ensures o.nodes[k].id in records && k < |trace.nodes|
    ensures var record, t := records[o.nodes[k].id], trace.nodes[k];
            && t.nodeId == record.nodeId && t.state == record.state && (t.finalAttempt.None? <==> record.attempts == [])
            && (record.attempts != [] ==>
                  var last, told := record.attempts[|record.attempts| - 1], t.finalAttempt.value;
                  && told.attempt == last.attempt && told.inputs == last.inputs && told.outputs == last.output && told.error == last.error
                  && (last.output.None? ==> told.outputHash == None)
                  && (last.output.Some? ==> told.outputHash == Some(h.outputs(last.output.value))))
  {
    assert o.nodes[k] in o.nodes;
  }

  lemma FlattenStep(parts: seq<Bytes>, k: nat)
    requires k < |parts|
    ensures Flatten(parts[..k + 1]) == Flatten(parts[..k]) + parts[k]
  {
    assert parts[..k + 1][..k] == parts[..k];
  }

  ghost predicate Covered(o: Opening, records: map<NodeId, NodeRecord>) {
    forall n :: n in o.nodes ==> n.id in records
  }

  /** The trace of a finished run. */
  ghost predicate Traced(o: Opening, h: Hashing, records: map<NodeId, NodeRecord>, trace: RunTrace)
    requires Covered(o, records)
  {
    && |trace.nodes| == |o.nodes|
    && (forall k :: 0 <= k < |o.nodes| ==> o.nodes[k] in o.nodes && trace.nodes[k] == TraceOf(h, records[o.nodes[k].id]))
    && trace.finalHash == h.finish(Flatten(Feeds(h, o.nodes, records)))
  }

  method BuildTrace(o: Opening, h: Hashing, records: map<NodeId, NodeRecord>, success: bool) returns (trace: RunTrace)
    requires Covered(o, records)
    ensures Traced(o, h, records, trace) && trace.success == success
  {
    var nodes, feed := [], [];
    ghost var feeds := Feeds(h, o.nodes, records);
    for k := 0 to |o.nodes|
      invariant |nodes| == k && feed == Flatten(feeds[..k])
      invariant forall j :: 0 <= j < k ==> o.nodes[j] in o.nodes && nodes[j] == TraceOf(h, records[o.nodes[j].id])
    {
      assert o.nodes[k] in o.nodes;
      FlattenStep(feeds, k);
      var record := records[o.nodes[k].id];
      assert feeds[k] == FeedOf(h, record);
      feed := feed + FeedOf(h, record);
      nodes := nodes + [TraceOf(h, record)];
    }
    assert feeds[..|o.nodes|] == feeds;
    trace := RunTrace(nodes, h.finish(feed), success);
  }

  /** The loop invariant: consistent variables, an explained history and a faithful output cache. */
  ghost predicate Looping(o: Opening, env: Environment, s: RunState, done: seq<Completion>) {
    && UniqueIds(o.nodes)
    && Consistent(o, s, Deliveries(o, done), Nodes(done))
    && History(o, env, s.records, done)
    && Distinct(Nodes(done))
    && s.outputs == OutputsOf(done)
  }

  /** Node `n` has been popped and run; its edges have not been followed. */
  ghost predicate Executed(o: Opening, env: Environment, s: RunState, done: seq<Completion>, n: NodeId) {
    && UniqueIds(o.nodes)
    && Consistent(o, s, Deliveries(o, done), Nodes(done) + [n])
    && History(o, env, s.records, done)
    && Distinct(Nodes(done)) && n !in Nodes(done)
    && s.outputs == OutputsOf(done)
    && RanAfter(o, env, s.records, done, n)
  }

  ghost predicate Stopped(o: Opening, env: Environment, s: RunState, done: seq<Completion>, n: NodeId) {
    Executed(o, env, s, done, n) && n in s.records && s.records[n].state.Failed?
  }

  lemma HistoryKept(o: Opening, env: Environment, records: map<NodeId, NodeRecord>, records': map<NodeId, NodeRecord>,
                    done: seq<Completion>)
    requires History(o, env, records, done)
    requires forall n :: n in Nodes(done) && n in records ==> n in records' && records'[n] == records[n]
    ensures History(o, env, records', done)
  {
    forall k | 0 <= k < |done| ensures RanAt(o, env, records', done, k) {
      assert RanAt(o, env, records, done, k);
      assert Nodes(done)[k] in Nodes(done);
    }
  }

  /** Takes a node off the queue and runs it on its buffered inputs. */
  method PopAndExecute(o: Opening, env: Environment, initial: RunState, ghost done: seq<Completion>)
    returns (s: RunState, n: NodeId, record: NodeRecord)
    requires Looping(o, env, initial, done) && initial.queue != []
    ensures Executed(o, env, s, done, n) && n in s.records && s.records[n] == record
    ensures n in Ids(o.nodes) && n !in NodeSet(done)
    ensures record.state.Failed? ==> Stopped(o, env, s, done, n)
    ensures !record.state.Failed? ==>
              && record.attempts != [] && record.attempts[|record.attempts| - 1].output.Some?
              && Completes(s.records, Completion(n, record.attempts[|record.attempts| - 1].output.value))
  {
    n := initial.queue[0];
    PopFront(o, initial, Deliveries(o, done), Nodes(done),
             initial.(queue := initial.queue[1..], records := initial.records[n := NodeRecord(n, Running, [])],
                      buffers := initial.buffers - {n}), NodeRecord(n, Running, []));
    var node := FindNode(o.nodes, n);
    var inputs := BufferOf(initial, n);
    assert BufferAt(o, initial, Deliveries(o, done), n);
    record := ExecuteNode(o, env, node, inputs);
    s := initial.(queue := initial.queue[1..], records := initial.records[n := record], buffers := initial.buffers - {n});
    PopFront(o, initial, Deliveries(o, done), Nodes(done), s, record);
    HistoryKept(o, env, initial.records, s.records, done);
    NodeSetExact(done);
  }

  /** Caches the outputs of a node that succeeded and follows its edges. */
  method Complete(o: Opening, ghost env: Environment, initial: RunState, n: NodeId, out: Ports,
                  outgoing: seq<nat>, inboundTotal: map<NodeId, nat>, ghost done: seq<Completion>)
    returns (s: RunState)
    requires Executed(o, env, initial, done, n) && Completes(initial.records, Completion(n, out))
    requires outgoing == Leaving(Arcs(o.edges), 0, n)
    requires inboundTotal.Keys == Ids(o.nodes)
    requires forall m :: m in Ids(o.nodes) ==> inboundTotal[m] == Open(Arcs(o.edges), 0, m, {})
    ensures Looping(o, env, s, done + [Completion(n, out)])
  {
    FreshEdges(o, done, n);
    s := FollowEdges(o, initial, outgoing, out, inboundTotal, Deliveries(o, done), Nodes(done) + [n]);
    Completed(o, env, initial, s, done, n, out);
    s := s.(outputs := s.outputs[n := out], processed := s.processed[n := true]);
  }

  lemma OneMoreDone(o: Opening, done: seq<Completion>, last: Completion)
    ensures Nodes(done + [last]) == Nodes(done) + [last.node]
    ensures Deliveries(o, done + [last]) == Deliveries(o, done) + Sends(Leaving(Arcs(o.edges), 0, last.node), last.out)
    ensures OutputsOf(done + [last]) == OutputsOf(done)[last.node := last.out]
    ensures Distinct(Nodes(done)) && last.node !in Nodes(done) ==> Distinct(Nodes(done + [last]))
  {
    assert (done + [last])[..|done|] == done;
  }

  lemma Completed(o: Opening, env: Environment, s: RunState, s1: RunState, done: seq<Completion>, n: NodeId, out: Ports)
    requires Executed(o, env, s, done, n) && Completes(s.records, Completion(n, out))
    requires Consistent(o, s1, Deliveries(o, done) + Sends(Leaving(Arcs(o.edges), 0, n), out), Nodes(done) + [n])
    requires Keeps(Nodes(done) + [n], s, s1)
    ensures Looping(o, env, s1.(outputs := s1.outputs[n := out], processed := s1.processed[n := true]), done + [Completion(n, out)])
  {
    var done' := done + [Completion(n, out)];
    OneMoreDone(o, done, Completion(n, out));
    assert Consistent(o, s1.(outputs := s1.outputs[n := out], processed := s1.processed[n := true]), Deliveries(o, done'), Nodes(done')) by {
      ProcessedIsPopped(o, s1, Deliveries(o, done'), Nodes(done'), n, out);
    }
    assert History(o, env, s1.records, done') by {
      HistoryGrows(o, env, s.records, s1.records, done, Completion(n, out));
    }
  }

  lemma ProcessedIsPopped(o: Opening, s: RunState, c: seq<Delivery>, popped: seq<NodeId>, n: NodeId, out: Ports)
    requires Consistent(o, s, c, popped) && n in popped
    ensures Consistent(o, s.(outputs := s.outputs[n := out], processed := s.processed[n := true]), c, popped)
  {
    var s' := s.(outputs := s.outputs[n := out], processed := s.processed[n := true]);
    assert forall m :: CountsAt(o, s, c, m) ==> CountsAt(o, s', c, m);
    assert forall m :: BufferAt(o, s, c, m) ==> BufferAt(o, s', c, m);
    assert forall m :: m != n && Untouched(s, m) ==> Untouched(s', m);
  }

  lemma DoneSucceeded(o: Opening, env: Environment, records: map<NodeId, NodeRecord>, done: seq<Completion>)
    requires History(o, env, records, done)
    ensures forall n :: n in Nodes(done) && n in records ==> records[n].state == Succeeded
  {
    forall n | n in Nodes(done) && n in records ensures records[n].state == Succeeded {
      var k :| 0 <= k < |done| && Nodes(done)[k] == n;
      assert RanAt(o, env, records, done, k);
    }
  }

  /** Sweeping turns the loop's final state into an explained run. */
  lemma Swept(o: Opening, env: Environment, s: RunState, done: seq<Completion>, failing: Option<NodeId>,
              records: map<NodeId, NodeRecord>)
    requires failing.None? ==> Looping(o, env, s, done) && s.queue == []
    requires failing.Some? ==> Stopped(o, env, s, done, failing.value)
    requires records.Keys == s.records.Keys
    requires forall n :: n in s.records ==>
                           records[n] == Settled(s.records[n], failing.None? && n in s.processed && s.processed[n])
    ensures Explained(o, env, records, done, failing)
  {
    DoneSucceeded(o, env, s.records, done);
    HistoryKept(o, env, s.records, records, done);
    forall n | n in Ids(o.nodes) && n !in Nodes(done) && failing != Some(n)
      ensures records[n] == NodeRecord(n, Skipped, [])
    {
      assert Untouched(s, n);
    }
    if failing.None? {
      assert Nodes(done) + [] == Nodes(done);
    }
  }

  /** Runs an opening. `done` lists the nodes in completion order, `failing` the node that stopped the run. */
  method Run(o: Opening, env: Environment, h: Hashing)
    returns (report: RunReport, done: seq<Completion>, failing: Option<NodeId>)
    requires UniqueIds(o.nodes)
    ensures Explained(o, env, report.records, done, failing) && Covered(o, report.records)
    ensures Traced(o, h, report.records, report.trace)
    ensures report.trace.success <==> failing.None? && Guards.Successful(o.success, done)
  {
    var s: RunState;
    s, done, failing := RunLoop(o, env);
    var records := Sweep(s.records, s.processed, failing.Some?);
    Swept(o, env, s, done, failing, records);
    Guards.SuccessExact(o.success, done);
    var trace := BuildTrace(o, h, records, failing.None? && EvaluateSuccess(o.success, s.outputs));
    report := RunReport(trace, records);
  }

  lemma Started(o: Opening, env: Environment, s: RunState)
    requires UniqueIds(o.nodes) && Consistent(o, s, [], []) && s.outputs == map[]
    ensures Looping(o, env, s, [])
  {
  }

  /** How many nodes have not completed. */
  ghost function Left(o: Opening, done: seq<Completion>): nat {
    |Ids(o.nodes) - NodeSet(done)|
  }

  lemma OneFewerLeft(o: Opening, before: seq<Completion>, last: Completion)
    requires last.node in Ids(o.nodes) && last.node !in NodeSet(before)
    ensures Left(o, before + [last]) < Left(o, before)
  {
    var done := before + [last];
    assert done[..|before|] == before;
    assert Ids(o.nodes) - NodeSet(before) == (Ids(o.nodes) - NodeSet(done)) + {last.node};
  }

  /** The inbound counts and the outgoing edges of every node. */
  ghost predicate Prepared(o: Opening, inboundTotal: map<NodeId, nat>, outgoing: map<NodeId, seq<nat>>) {
    && inboundTotal.Keys == Ids(o.nodes)
    && (forall m :: m in Ids(o.nodes) ==> inboundTotal[m] == Open(Arcs(o.edges), 0, m, {}))
    && forall m :: OutgoingOf(outgoing, m) == Leaving(Arcs(o.edges), 0, m)
  }

  /** One turn of the loop: a node is popped and executed; it completes, or stops the run. */
  method Iterate(o: Opening, env: Environment, initial: RunState, outgoing: map<NodeId, seq<nat>>,
                 inboundTotal: map<NodeId, nat>, before: seq<Completion>)
    returns (s: RunState, done: seq<Completion>, failing: Option<NodeId>)
    requires Looping(o, env, initial, before) && initial.queue != []
    requires Prepared(o, inboundTotal, outgoing)
    ensures failing.None? ==> Looping(o, env, s, done)
    ensures failing.None? ==> Left(o, done) < Left(o, before)
    ensures failing.Some? ==> done == before && Stopped(o, env, s, done, failing.value)
  {
    var n, record;
    s, n, record := PopAndExecute(o, env, initial, before);
    if record.state.Failed? {
      done, failing := before, Some(n);
    } else {
      var out := record.attempts[|record.attempts| - 1].output.value;
      s := Complete(o, env, s, n, out, OutgoingOf(outgoing, n), inboundTotal, before);
      done, failing := before + [Completion(n, out)], None;
      OneFewerLeft(o, before, Completion(n, out));
    }
  }

  /** The work list, until it is empty or a node has failed. */
  method RunLoop(o: Opening, env: Environment) returns (s: RunState, done: seq<Completion>, failing: Option<NodeId>)
    requires UniqueIds(o.nodes)
    ensures failing.None? ==> Looping(o, env, s, done) && s.queue == []
    ensures failing.Some? ==> Stopped(o, env, s, done, failing.value)
  {
    var inboundTotal := CountInbound(o);
    var outgoing := GroupOutgoing(o);
    assert Prepared(o, inboundTotal, outgoing);
    var initial := Start(o, inboundTotal);
    Started(o, env, initial);
    s, done, failing := WorkOff(o, env, initial, outgoing, inboundTotal);
  }

  /** Works off the queue of a run that starts in this state. */
  method WorkOff(o: Opening, env: Environment, initial: RunState, outgoing: map<NodeId, seq<nat>>, inboundTotal: map<NodeId, nat>)
    returns (s: RunState, done: seq<Completion>, failing: Option<NodeId>)
    requires Looping(o, env, initial, []) && Prepared(o, inboundTotal, outgoing)
    ensures failing.None? ==> Looping(o, env, s, done) && s.queue == []
    ensures failing.Some? ==> Stopped(o, env, s, done, failing.value)
  {
    s, done, failing := initial, [], None;
    while s.queue != [] && failing.None?
      invariant failing.None? ==> Looping(o, env, s, done)
      invariant failing.Some? ==> Stopped(o, env, s, done, failing.value)
      decreases Left(o, done), failing.None?
    {
      s, done, failing := Iterate(o, env, s, outgoing, inboundTotal, done);
    }
  }

  /** The edges into `n` whose source has not completed. */
  ghost function Awaited(o: Opening, done: seq<Completion>, n: NodeId): set<nat> {
    set i: nat | i < |o.edges| && o.edges[i].to.node == n && o.edges[i].from.node !in Nodes(done)
  }

  lemma AwaitedIsOpen(o: Opening, done: seq<Completion>, n: NodeId)
    requires Distinct(Nodes(done))
    ensures Awaited(o, done, n) == OpenArcs(Arcs(o.edges), 0, n, EdgesOf(Deliveries(o, done)))
  {
    DeliveriesExact(o, done);
    forall i: nat
      ensures i in Awaited(o, done, n) <==> i in OpenArcs(Arcs(o.edges), 0, n, EdgesOf(Deliveries(o, done)))
    {
      assert i < |o.edges| ==> Arcs(o.edges)[i].dst == o.edges[i].to.node;
    }
  }

  /**
    * In every state of the loop, a node's counter is the number of its inbound edges whose source has not succeeded,
    * and the nodes that succeeded are those completed.
    */
  lemma CountersCount(o: Opening, env: Environment, s: RunState, done: seq<Completion>, n: NodeId)
    requires Looping(o, env, s, done) && n in Ids(o.nodes)
    ensures s.remaining[n] == |Awaited(o, done, n)|
    ensures s.records[n].state == Succeeded <==> n in Nodes(done)
  {
    var c := Deliveries(o, done);
    assert CountsAt(o, s, c, n);
    DeliveriesExact(o, done);
    OpenCounts(Arcs(o.edges), 0, n, EdgesOf(c));
    AwaitedIsOpen(o, done, n);
    if n in Nodes(done) {
      DoneSucceeded(o, env, s.records, done);
    } else {
      assert Untouched(s, n);
    }
  }
}
