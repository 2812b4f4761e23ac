/** Replay: re-executing the final attempts of a trace, and when that reproduces the run. */
module Replay {
  import opened Json
  import opened Openings
  import opened RunModel
  import opened Runner
  import opened RunTheorems

  /** What the executor returns when asked outside a run, where no timeout applies. */
  datatype Answer = Done(outputs: Ports) | Refused(retryable: bool, reason: string) | Broken(text: string)
  type Executor = (Node, Ports, nat) -> Answer

  datatype Reason =
    | NotInOpening | RecordedAsFailed(reason: string) | MissingAttempt
    | HashMismatch | ReasonMismatch(expected: string, actual: string)
    | ExpectedFailure | ExecutorRefused(reason: string)
    | UnexpectedState(state: NodeState) | RefusedInState(state: NodeState, reason: string)
  datatype Mismatch = Mismatch(nodeId: NodeId, expectedHash: Option<Bytes>, actualHash: Option<Bytes>, reason: Reason)

  datatype ReplayResult = ReplayError(text: string) | ReplayReport(matches: bool, mismatches: seq<Mismatch>, replayHash: string)

  /** What one traced node contributes: bytes for the hash, mismatches, or an executor error that ends the replay. */
  datatype Check = Check(feed: Bytes, mismatches: seq<Mismatch>) | Abort(text: string)

  function CheckNode(executor: Executor, nodesById: map<NodeId, Node>, h: Hashing, t: NodeTrace): Check {
    if t.nodeId !in nodesById then
      var expected := if t.finalAttempt.Some? then t.finalAttempt.value.outputHash else None;
      Check([], [Mismatch(t.nodeId, expected, None, NotInOpening)])
    else if t.finalAttempt.None? then
      match t.state
      case Failed(reason) => Check([], [Mismatch(t.nodeId, None, None, RecordedAsFailed(reason))])
      case Succeeded => Check([], [Mismatch(t.nodeId, None, None, MissingAttempt)])
      case _ => Check([], [])
    else
      var last := t.finalAttempt.value;
      match executor(nodesById[t.nodeId], last.inputs, last.attempt)
      case Broken(text) => Abort(text)
      case Done(outputs) =>
        (var actual := h.outputs(outputs);
         match t.state
         case Succeeded =>
           Check(actual, if last.outputHash == Some(actual) then []
                         else [Mismatch(t.nodeId, last.outputHash, Some(actual), HashMismatch)])
         case Failed(_) => Check([], [Mismatch(t.nodeId, last.outputHash, Some(actual), ExpectedFailure)])
         case _ => Check([], [Mismatch(t.nodeId, last.outputHash, None, UnexpectedState(t.state))]))
      case Refused(_, reason) =>
        (match t.state
         case Failed(recorded) =>
           (var expected := if last.error.Some? then last.error.value else recorded;
            Check(h.text(expected), if expected == reason then []
                                    else [Mismatch(t.nodeId, None, None, ReasonMismatch(expected, reason))]))
         case Succeeded => Check([], [Mismatch(t.nodeId, last.outputHash, None, ExecutorRefused(reason))])
         case _ => Check([], [Mismatch(t.nodeId, last.outputHash, None, RefusedInState(t.state, reason))]))
  }

  /** The checks of a trace, node by node. */
  ghost function Checks(executor: Executor, nodesById: map<NodeId, Node>, h: Hashing, nodes: seq<NodeTrace>): seq<Check> {
    seq(|nodes|, k requires 0 <= k < |nodes| => CheckNode(executor, nodesById, h, nodes[k]))
  }

  /** All checks together, up to the first abort. */
  ghost function Combined(checks: seq<Check>): Check {
    if checks == [] then Check([], [])
    else
      match Combined(checks[..|checks| - 1])
      case Abort(text) => Abort(text)
      case Check(feed, mismatches) =>
        match checks[|checks| - 1]
        case Abort(text) => Abort(text)
        case Check(more, others) => Check(feed + more, mismatches + others)
  }

  /** Later nodes win a shared id, as in a map filled node by node. */
  function ById(nodes: seq<Node>): map<NodeId, Node> {
    if nodes == [] then map[] else ById(nodes[..|nodes| - 1])[nodes[|nodes| - 1].id := nodes[|nodes| - 1]]
  }

  ghost function Outcome(h: Hashing, check: Check): ReplayResult {
    match check
    case Abort(text) => ReplayError(text)
    case Check(feed, mismatches) => ReplayReport(mismatches == [], mismatches, h.finish(feed))
  }

  ghost function Replayed(executor: Executor, o: Opening, trace: RunTrace, h: Hashing): ReplayResult {
    Outcome(h, Combined(Checks(executor, ById(o.nodes), h, trace.nodes)))
  }

  // ----- what replay finds

  /** Node `k` of the opening is the one meant by this id: the last one that has it. */
  ghost predicate Meant(nodes: seq<Node>, id: NodeId, k: int) {
    0 <= k < |nodes| && nodes[k].id == id && forall j :: k < j < |nodes| ==> nodes[j].id != id
  }

  /** The answer repeats what the trace tells of the node's last attempt. */
  ghost predicate Repeats(h: Hashing, t: NodeTrace, last: NodeAttemptTrace, again: Answer) {
    match (t.state, again)
    case (Succeeded, Done(outputs)) => last.outputHash.Some? && last.outputHash.value == h.outputs(outputs)
    case (Failed(recorded), Refused(_, reason)) => reason == if last.error.Some? then last.error.value else recorded
    case _ => false
  }

  /**
    * The opening has the node. If the trace has a last attempt of it, the executor repeats it; if not, the node neither
    * succeeded nor failed.
    */
  ghost predicate Reproduced(executor: Executor, nodes: seq<Node>, h: Hashing, t: NodeTrace) {
    exists k :: Meant(nodes, t.nodeId, k) &&
                if t.finalAttempt.Some? then
                  Repeats(h, t, t.finalAttempt.value, executor(nodes[k], t.finalAttempt.value.inputs, t.finalAttempt.value.attempt))
                else !t.state.Succeeded? && !t.state.Failed?
  }

  /** Repeating the last attempt of this node breaks the executor, with this text. */
  ghost predicate Breaks(executor: Executor, nodes: seq<Node>, t: NodeTrace, text: string) {
    t.finalAttempt.Some? &&
    exists k :: Meant(nodes, t.nodeId, k) && executor(nodes[k], t.finalAttempt.value.inputs, t.finalAttempt.value.attempt) == Broken(text)
  }

  /** The traced nodes that are not reproduced, in order. */
  ghost function Missed(executor: Executor, nodes: seq<Node>, h: Hashing, traced: seq<NodeTrace>): seq<NodeId> {
    if traced == [] then []
    else
      Missed(executor, nodes, h, traced[..|traced| - 1])
      + if Reproduced(executor, nodes, h, traced[|traced| - 1]) then [] else [traced[|traced| - 1].nodeId]
  }

  ghost function NamesOf(mismatches: seq<Mismatch>): (names: seq<NodeId>)
    ensures |names| == |mismatches|
  {
    seq(|mismatches|, k requires 0 <= k < |mismatches| => mismatches[k].nodeId)
  }

  /** A reported pair of hashes is the recorded one and that of the outputs now. */
  ghost predicate TellsHashes(executor: Executor, nodes: seq<Node>, h: Hashing, traced: seq<NodeTrace>, m: Mismatch) {
    m.reason.HashMismatch? ==>
      exists t, k :: t in traced && Meant(nodes, t.nodeId, k) && t.nodeId == m.nodeId && t.finalAttempt.Some?
                     && m.expectedHash == t.finalAttempt.value.outputHash
                     && var again := executor(nodes[k], t.finalAttempt.value.inputs, t.finalAttempt.value.attempt);
                        again.Done? && m.actualHash == Some(h.outputs(again.outputs)) && m.actualHash != m.expectedHash
  }

  method Replay(executor: Executor, o: Opening, trace: RunTrace, h: Hashing) returns (r: ReplayResult)
    ensures r == Replayed(executor, o, trace, h)
    ensures r.ReplayError? <==> exists t, text :: t in trace.nodes && Breaks(executor, o.nodes, t, text)
    ensures r.ReplayError? ==> exists t :: t in trace.nodes && Breaks(executor, o.nodes, t, r.text)
    ensures r.ReplayReport? ==> (r.matches <==> forall t :: t in trace.nodes ==> Reproduced(executor, o.nodes, h, t))
    ensures r.ReplayReport? ==> NamesOf(r.mismatches) == Missed(executor, o.nodes, h, trace.nodes)
    ensures r.ReplayReport? ==> forall m :: m in r.mismatches ==> TellsHashes(executor, o.nodes, h, trace.nodes, m)
  {
    var nodesById := ById(o.nodes);
    var mismatches, feed := [], [];
    ghost var checks := Checks(executor, nodesById, h, trace.nodes);
    for k := 0 to |trace.nodes|
      invariant Combined(checks[..k]) == Check(feed, mismatches)
      invariant Found(executor, o.nodes, h, trace.nodes[..k], mismatches)
    {
      assert checks[..k + 1][..k] == checks[..k];
      CheckFinds(executor, o.nodes, h, trace.nodes[k]);
      assert trace.nodes[k] in trace.nodes;
      match CheckNode(executor, nodesById, h, trace.nodes[k])
      case Abort(text) =>
        AbortStays(checks, k + 1);
        return ReplayError(text);
      case Check(more, others) =>
        FoundMore(executor, o.nodes, h, trace.nodes[..k], trace.nodes[k], mismatches, others);
        assert trace.nodes[..k + 1] == trace.nodes[..k] + [trace.nodes[k]];
        feed, mismatches := feed + more, mismatches + others;
    }
    assert checks[..|trace.nodes|] == checks && trace.nodes[..|trace.nodes|] == trace.nodes;
    MissedNone(executor, o.nodes, h, trace.nodes);
    return ReplayReport(mismatches == [], mismatches, h.finish(feed));
  }

  /** The mismatches so far name the nodes missed so far, and none of these broke the executor. */
  ghost predicate Found(executor: Executor, nodes: seq<Node>, h: Hashing, traced: seq<NodeTrace>, mismatches: seq<Mismatch>) {
    && NamesOf(mismatches) == Missed(executor, nodes, h, traced)
    && (forall t, text :: t in traced ==> !Breaks(executor, nodes, t, text))
    && (forall m :: m in mismatches ==> TellsHashes(executor, nodes, h, traced, m))
  }

  lemma {:induction false} ByIdMeant(nodes: seq<Node>, id: NodeId)
    ensures id in ById(nodes) <==> exists k :: Meant(nodes, id, k)
    ensures forall k :: Meant(nodes, id, k) ==> id in ById(nodes) && ById(nodes)[id] == nodes[k]
  {
    if nodes != [] {
      var before, m := nodes[..|nodes| - 1], |nodes| - 1;
      ByIdMeant(before, id);
      if nodes[m].id == id {
        assert Meant(nodes, id, m);
      } else {
        forall k ensures Meant(nodes, id, k) <==> Meant(before, id, k) {
          assert forall j :: 0 <= j < m ==> before[j] == nodes[j];
        }
      }
    }
  }

  /** One check finds out whether the node is reproduced, and names it if not. */
  lemma CheckFinds(executor: Executor, nodes: seq<Node>, h: Hashing, t: NodeTrace)
    ensures var check := CheckNode(executor, ById(nodes), h, t);
            && (check.Abort? ==> Breaks(executor, nodes, t, check.text))
            && (check.Check? ==> forall text :: !Breaks(executor, nodes, t, text))
            && (check.Check? ==> (check.mismatches == [] <==> Reproduced(executor, nodes, h, t)))
            && (check.Check? && check.mismatches != [] ==> |check.mismatches| == 1 && check.mismatches[0].nodeId == t.nodeId)
            && (check.Check? ==> forall m :: m in check.mismatches ==> TellsHashes(executor, nodes, h, [t], m))
  {
    ByIdMeant(nodes, t.nodeId);
    if t.nodeId in ById(nodes) {
      var k :| Meant(nodes, t.nodeId, k);
      MeantOnly(executor, nodes, h, t, k);
      assert t in [t];
    }
  }

  /** With the node that is meant at hand. */
  lemma MeantOnly(executor: Executor, nodes: seq<Node>, h: Hashing, t: NodeTrace, k: nat)
    requires Meant(nodes, t.nodeId, k)
    ensures t.finalAttempt.None? ==> (Reproduced(executor, nodes, h, t) <==> !t.state.Succeeded? && !t.state.Failed?)
    ensures t.finalAttempt.Some? ==>
              var last := t.finalAttempt.value;
              var again := executor(nodes[k], last.inputs, last.attempt);
              && (Reproduced(executor, nodes, h, t) <==> Repeats(h, t, last, again))
              && forall text :: Breaks(executor, nodes, t, text) <==> again == Broken(text)
  {
    forall j | Meant(nodes, t.nodeId, j) ensures j == k {
    }
  }

  lemma FoundMore(executor: Executor, nodes: seq<Node>, h: Hashing, before: seq<NodeTrace>, t: NodeTrace,
                  mismatches: seq<Mismatch>, others: seq<Mismatch>)
    requires Found(executor, nodes, h, before, mismatches)
    requires && (forall text :: !Breaks(executor, nodes, t, text))
             && (others == [] <==> Reproduced(executor, nodes, h, t))
             && (others != [] ==> |others| == 1 && others[0].nodeId == t.nodeId)
             && (forall m :: m in others ==> TellsHashes(executor, nodes, h, [t], m))
    ensures Found(executor, nodes, h, before + [t], mismatches + others)
  {
    var traced := before + [t];
    assert traced[..|traced| - 1] == before;
    assert NamesOf(mismatches + others) == NamesOf(mismatches) + NamesOf(others);
    assert others != [] ==> NamesOf(others) == [t.nodeId];
    forall m | m in mismatches + others ensures TellsHashes(executor, nodes, h, traced, m) {
      if m in mismatches {
        assert TellsHashes(executor, nodes, h, before, m);
      } else {
        assert TellsHashes(executor, nodes, h, [t], m);
      }
    }
  }

  lemma {:induction false} MissedNone(executor: Executor, nodes: seq<Node>, h: Hashing, traced: seq<NodeTrace>)
    ensures Missed(executor, nodes, h, traced) == [] <==> forall t :: t in traced ==> Reproduced(executor, nodes, h, t)
  {
    if traced != [] {
      var before, t := traced[..|traced| - 1], traced[|traced| - 1];
      MissedNone(executor, nodes, h, before);
      assert traced == before + [t];
    }
  }

  lemma {:induction false} AbortStays(checks: seq<Check>, k: nat)
    requires k <= |checks| && Combined(checks[..k]).Abort?
    ensures Combined(checks) == Combined(checks[..k])
    decreases |checks|
  {
    if k < |checks| {
      assert checks[..|checks| - 1][..k] == checks[..k];
      AbortStays(checks[..|checks| - 1], k);
    } else {
      assert checks[..k] == checks;
    }
  }

  // ----- replaying a run

  /** The executor answers as it did in the run; only a timeout hides its answer. */
  ghost predicate Answers(env: Environment, executor: Executor) {
    forall node: Node, inputs: Ports, k: nat ::
      match env(node, inputs, k)
      case Completed(outputs) => executor(node, inputs, k) == Done(outputs)
      case Failure(retryable, reason) => executor(node, inputs, k) == Refused(retryable, reason)
      case ExecutorError(text) => executor(node, inputs, k) == Broken(text)
      case TimedOut => true
  }

  lemma {:induction false} ByIdFinds(nodes: seq<Node>, k: nat)
    requires UniqueIds(nodes) && k < |nodes|
    ensures nodes[k].id in ById(nodes) && ById(nodes)[nodes[k].id] == nodes[k]
  {
    if k < |nodes| - 1 {
      ByIdFinds(nodes[..|nodes| - 1], k);
    }
  }

  /** What the executor says when the last call of node `k` is repeated. */
  ghost function Repeated(o: Opening, executor: Executor, records: map<NodeId, NodeRecord>, k: nat): Answer
    requires k < |o.nodes| && o.nodes[k].id in records && records[o.nodes[k].id].attempts != []
  {
    var attempts := records[o.nodes[k].id].attempts;
    executor(o.nodes[k], attempts[|attempts| - 1].inputs, |attempts|)
  }

  lemma LastAttempt(o: Opening, env: Environment, node: Node, inputs: Ports, record: NodeRecord)
    requires Retried(o, env, node, inputs, record)
    ensures var k := |record.attempts|;
            && k > 0 && record.attempts[k - 1] == RecordOf(o, node, inputs, k, env(node, inputs, k))
            && record.attempts[k - 1].inputs == inputs && record.attempts[k - 1].attempt == k
            && (record.state == if env(node, inputs, k).Completed? then Succeeded
                                else Failed(ErrorText(o, node, env(node, inputs, k))))
  {
    var k := |record.attempts|;
    assert record.attempts[k - 1] == RecordOf(o, node, inputs, k, env(node, inputs, k));
  }

  /** A failed node replays cleanly exactly when the executor now refuses with the recorded reason. */
  ghost predicate FailureReproduced(o: Opening, executor: Executor, records: map<NodeId, NodeRecord>, k: nat)
    requires k < |o.nodes| && o.nodes[k].id in records
    requires records[o.nodes[k].id].attempts != [] && records[o.nodes[k].id].state.Failed?
  {
    var again := Repeated(o, executor, records, k);
    again.Refused? && again.reason == records[o.nodes[k].id].state.reason
  }

  lemma ReplayFailed(o: Opening, env: Environment, h: Hashing, records: map<NodeId, NodeRecord>, inputs: Ports,
                     executor: Executor, k: nat)
    requires UniqueIds(o.nodes) && k < |o.nodes| && o.nodes[k].id in records
    requires Retried(o, env, o.nodes[k], inputs, records[o.nodes[k].id]) && records[o.nodes[k].id].state.Failed?
    ensures var check := CheckNode(executor, ById(o.nodes), h, TraceOf(h, records[o.nodes[k].id]));
            && (check.Abort? <==> Repeated(o, executor, records, k).Broken?)
            && (check.Check? ==> (check.mismatches == [] <==> FailureReproduced(o, executor, records, k)))
            && (check.Check? && check.mismatches == [] ==> check.feed == FeedOf(h, records[o.nodes[k].id]))
  {
    ByIdFinds(o.nodes, k);
    LastAttempt(o, env, o.nodes[k], inputs, records[o.nodes[k].id]);
  }

  lemma ReplaySucceeded(o: Opening, env: Environment, h: Hashing, records: map<NodeId, NodeRecord>, inputs: Ports,
                        executor: Executor, k: nat)
    requires UniqueIds(o.nodes) && k < |o.nodes| && o.nodes[k].id in records && Answers(env, executor)
    requires Retried(o, env, o.nodes[k], inputs, records[o.nodes[k].id]) && records[o.nodes[k].id].state.Succeeded?
    ensures CheckNode(executor, ById(o.nodes), h, TraceOf(h, records[o.nodes[k].id]))
            == Check.Check(FeedOf(h, records[o.nodes[k].id]), [])
  {
    ByIdFinds(o.nodes, k);
    LastAttempt(o, env, o.nodes[k], inputs, records[o.nodes[k].id]);
    var m := |records[o.nodes[k].id].attempts|;
    assert env(o.nodes[k], inputs, m).Completed?;
  }

  /** Every node but the failing one replays without mismatch and feeds the hash as it did in the run. */
  lemma ReplayOther(o: Opening, env: Environment, h: Hashing, records: map<NodeId, NodeRecord>, done: seq<Completion>,
                    failing: Option<NodeId>, executor: Executor, k: nat)
    requires UniqueIds(o.nodes) && Explained(o, env, records, done, failing) && Answers(env, executor)
    requires k < |o.nodes| && failing != Some(o.nodes[k].id)
    ensures o.nodes[k].id in records
    ensures CheckNode(executor, ById(o.nodes), h, TraceOf(h, records[o.nodes[k].id]))
            == Check.Check(FeedOf(h, records[o.nodes[k].id]), [])
  {
    var id := o.nodes[k].id;
    assert o.nodes[k] in o.nodes;
    if id in Nodes(done) {
      FindUnique(o.nodes, k);
      var j :| 0 <= j < |done| && Nodes(done)[j] == id;
      assert RanAt(o, env, records, done, j);
      ReplaySucceeded(o, env, h, records, Inbox(o, Deliveries(o, done[..j]), id), executor, k);
    } else {
      ByIdFinds(o.nodes, k);
    }
  }

  /** The check reproduces `feed`: no mismatch, the same bytes. */
  ghost predicate Clean(check: Check, feed: Bytes) {
    check.Check? && check.mismatches == [] && check.feed == feed
  }

  /** Checks that are all clean combine to a clean check of the whole hash input. */
  lemma {:induction false} AllClean(checks: seq<Check>, feeds: seq<Bytes>)
    requires |checks| == |feeds| && forall k :: 0 <= k < |checks| ==> Clean(checks[k], feeds[k])
    ensures Clean(Combined(checks), Flatten(feeds))
  {
    if checks != [] {
      AllClean(checks[..|checks| - 1], feeds[..|checks| - 1]);
    }
  }

  /** One check that is not known to be clean decides how all of them combine. */
  lemma {:induction false} OneDecides(checks: seq<Check>, feeds: seq<Bytes>, f: nat)
    requires f < |checks| == |feeds|
    requires forall k :: 0 <= k < |checks| && k != f ==> Clean(checks[k], feeds[k])
    requires checks[f].Check? && checks[f].mismatches == [] ==> checks[f].feed == feeds[f]
    ensures Combined(checks).Abort? <==> checks[f].Abort?
    ensures Combined(checks).Check? ==> (Combined(checks).mismatches == [] <==> checks[f].mismatches == [])
    ensures Combined(checks).Check? && Combined(checks).mismatches == [] ==> Combined(checks).feed == Flatten(feeds)
  {
    var m := |checks| - 1;
    if m == f {
      AllClean(checks[..m], feeds[..m]);
    } else {
      OneDecides(checks[..m], feeds[..m], f);
      assert Clean(checks[m], feeds[m]);
    }
  }

  /** A run without failure replays with no mismatch and the same hash. */
  lemma ReplayAgrees(o: Opening, env: Environment, h: Hashing, report: RunReport, done: seq<Completion>, executor: Executor)
    requires UniqueIds(o.nodes) && Explained(o, env, report.records, done, None) && Answers(env, executor)
    requires Covered(o, report.records) && Traced(o, h, report.records, report.trace)
    ensures Replayed(executor, o, report.trace, h) == ReplayReport(true, [], report.trace.finalHash)
  {
    var checks, feeds := Checks(executor, ById(o.nodes), h, report.trace.nodes), Feeds(h, o.nodes, report.records);
    forall k | 0 <= k < |checks| ensures Clean(checks[k], feeds[k]) {
      ReplayOther(o, env, h, report.records, done, None, executor, k);
    }
    AllClean(checks, feeds);
  }

  /** The outcome of the last call of a failed run. */
  ghost function LastOutcome(o: Opening, env: Environment, done: seq<Completion>, records: map<NodeId, NodeRecord>, k: nat): RunModel.Outcome
    requires k < |o.nodes| && o.nodes[k].id in records
  {
    env(o.nodes[k], Inbox(o, Deliveries(o, done), o.nodes[k].id), |records[o.nodes[k].id].attempts|)
  }

  /**
   * A failed run replays by how its last call ended. A refusal is reproduced, with the same hash. An executor
   * error ends the replay. A timeout is reproduced only by an executor that fails with the timeout's own text.
   */
  lemma ReplayOfFailure(o: Opening, env: Environment, h: Hashing, report: RunReport, done: seq<Completion>,
                        executor: Executor, k: nat)
    requires UniqueIds(o.nodes) && k < |o.nodes| && Explained(o, env, report.records, done, Some(o.nodes[k].id))
    requires Covered(o, report.records) && Traced(o, h, report.records, report.trace) && Answers(env, executor)
    ensures o.nodes[k].id in report.records && report.records[o.nodes[k].id].attempts != []
    ensures var r, last := Replayed(executor, o, report.trace, h), LastOutcome(o, env, done, report.records, k);
            var again := Repeated(o, executor, report.records, k);
            && !last.Completed?
            && (r.ReplayError? <==> last.ExecutorError? || (last.TimedOut? && again.Broken?))
            && (r.ReplayReport? && r.matches <==>
                 last.Failure? || (last.TimedOut? && again.Refused? && again.reason == TimeoutReason(o, o.nodes[k])))
            && (r.ReplayReport? && r.matches ==> r.mismatches == [] && r.replayHash == report.trace.finalHash)
  {
    var checks, feeds := Checks(executor, ById(o.nodes), h, report.trace.nodes), Feeds(h, o.nodes, report.records);
    var records, id := report.records, o.nodes[k].id;
    assert o.nodes[k] in o.nodes;
    forall j | 0 <= j < |checks| && j != k ensures Clean(checks[j], feeds[j]) {
      ReplayOther(o, env, h, records, done, Some(id), executor, j);
    }
    FindUnique(o.nodes, k);
    ReplayFailed(o, env, h, records, Inbox(o, Deliveries(o, done), id), executor, k);
    OneDecides(checks, feeds, k);
    LastAttempt(o, env, o.nodes[k], Inbox(o, Deliveries(o, done), id), records[id]);
    assert !LastOutcome(o, env, done, records, k).Completed?;
  }
}
