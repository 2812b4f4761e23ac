/** Request and reply over the bus: runner calls, one worker per agent, and replies that may come late. */
module ExecutorBus {
  import opened Json

  type Ports = map<string, seq<Json>>

  datatype NodeKind = Agent(name: string, version: Option<string>) | Nested(opening: string)
  datatype Node = Node(id: string, kind: NodeKind, args: map<string, Json>)

  /** What the runner asks for: one attempt of one node on its inputs. */
  datatype Request = Request(node: Node, inputs: Ports, attempt: nat, traceId: nat, openingId: nat)

  datatype Response = Completed(outputs: Ports) | Failed(retryable: bool, reason: string)

  /** What the local executor says: a node execution, or an error of its own. */
  datatype Executed = Execution(response: Response) | ExecutorError(text: string)

  datatype Result = Ok(response: Response) | Err(text: string)

  datatype Invocation = Invocation(request: Request, replyTopic: string)
  datatype Computation = Computation(invocation: Invocation, given: Executed)

  /** What waits in a worker's subscription: an invocation, or a message that does not decode to one. */
  datatype Item = Invoke(invocation: Invocation) | Noise

  /** A worker handles one invocation at a time; `busy` is the one whose reply it still has to publish. */
  datatype Worker = Worker(queue: seq<Item>, busy: Option<Computation>)

  datatype Stage =
    | Starting
    | Ready
    | Listening(sent: bool, published: bool, replies: seq<Response>)
    | Returned(result: Result)
    | Dropped

  datatype Call = Call(request: Request, topic: Option<string>, stage: Stage)

  /** `computed` and `owner` are history: every computation so far, and the call that made up each reply topic. */
  datatype State = State(calls: seq<Call>, workers: map<string, Worker>, computed: seq<Computation>, owner: map<string, nat>)

  const INITIAL := State([], map[], [], map[])

  datatype Event =
    | Execute(request: Request)
    | EnsureWorker(c: nat)
    | SubscribeReply(c: nat, topic: string)
    | Deliver(c: nat)
    | Published(c: nat)
    | Fail(c: nat, text: string)
    | Stray(agent: string)
    | Take(agent: string, given: Executed)
    | Reply(agent: string, to: Option<nat>)
    | Receive(c: nat)
    | Cancel(c: nat)
    | Stop(agent: string)

  /** All versions of an agent share one topic, so one worker. */
  function AgentTopic(node: Node): string {
    match node.kind
    case Agent(name, _) => "agent/" + name
    case Nested(_) => ""
  }

  /** The worker's answer: executor errors become failures that are not retried. */
  function ResponseOf(comp: Computation): Response {
    match comp.invocation.request.node.kind
    case Nested(name) => Failed(false, "nested opening '" + name + "' unsupported")
    case Agent(_, _) =>
      match comp.given
      case Execution(response) => response
      case ExecutorError(text) => Failed(false, text)
  }

  predicate Pending(call: Call) {
    call.stage.Starting? || call.stage.Ready? || call.stage.Listening?
  }

  /** Which steps are possible. A reply reaches a call only through a subscription on its own reply topic. */
  predicate Enabled(s: State, e: Event) {
    match e
    case Execute(_) => true
    case EnsureWorker(c) => c < |s.calls| && s.calls[c].stage.Starting?
    case SubscribeReply(c, _) => c < |s.calls| && s.calls[c].stage.Ready?
    case Deliver(c) =>
      && c < |s.calls| && s.calls[c].stage.Listening? && !s.calls[c].stage.sent && !s.calls[c].stage.published
      && s.calls[c].topic.Some? && AgentTopic(s.calls[c].request.node) in s.workers
    case Published(c) => c < |s.calls| && s.calls[c].stage.Listening? && !s.calls[c].stage.published
    case Fail(c, _) => c < |s.calls| && Pending(s.calls[c])
    case Stray(agent) => agent in s.workers
    case Take(agent, _) => agent in s.workers && s.workers[agent].queue != [] && s.workers[agent].busy.None?
    case Reply(agent, to) =>
      && agent in s.workers && s.workers[agent].busy.Some?
      && (to.Some? ==>
            && to.value < |s.calls| && s.calls[to.value].stage.Listening?
            && s.calls[to.value].topic == Some(s.workers[agent].busy.value.invocation.replyTopic))
    case Receive(c) =>
      c < |s.calls| && s.calls[c].stage.Listening? && s.calls[c].stage.published && s.calls[c].stage.replies != []
    case Cancel(c) => c < |s.calls| && Pending(s.calls[c])
    case Stop(agent) => agent in s.workers
  }

  function WithStage(s: State, c: nat, stage: Stage): State
    requires c < |s.calls|
  {
    s.(calls := s.calls[c := s.calls[c].(stage := stage)])
  }

  function Next(s: State, e: Event): State
    requires Enabled(s, e)
  {
    match e
    case Execute(q) =>
      var stage := if q.node.kind.Nested? then Returned(Err("nested opening '" + q.node.kind.opening + "' unsupported")) else Starting;
      s.(calls := s.calls + [Call(q, None, stage)])
    case EnsureWorker(c) =>
      var agent := AgentTopic(s.calls[c].request.node);
      WithStage(if agent in s.workers then s else s.(workers := s.workers[agent := Worker([], None)]), c, Ready)
    case SubscribeReply(c, topic) =>
      s.(calls := s.calls[c := s.calls[c].(topic := Some(topic), stage := Listening(false, false, []))],
         owner := s.owner[topic := c])
    case Deliver(c) =>
      var agent := AgentTopic(s.calls[c].request.node);
      var item := Invoke(Invocation(s.calls[c].request, s.calls[c].topic.value));
      WithStage(s.(workers := s.workers[agent := s.workers[agent].(queue := s.workers[agent].queue + [item])]), c,
                s.calls[c].stage.(sent := true))
    case Published(c) => WithStage(s, c, s.calls[c].stage.(published := true))
    case Fail(c, text) => WithStage(s, c, Returned(Err(text)))
    case Stray(agent) =>
      s.(workers := s.workers[agent := s.workers[agent].(queue := s.workers[agent].queue + [Noise])])
    case Take(agent, given) =>
      var w := s.workers[agent];
      (match w.queue[0]
       case Noise => s.(workers := s.workers[agent := w.(queue := w.queue[1..])])
       case Invoke(invocation) =>
         var comp := Computation(invocation, given);
         s.(workers := s.workers[agent := Worker(w.queue[1..], Some(comp))], computed := s.computed + [comp]))
    case Reply(agent, to) =>
      var response := ResponseOf(s.workers[agent].busy.value);
      var s' := s.(workers := s.workers[agent := s.workers[agent].(busy := None)]);
      if to.None? then s'
      else WithStage(s', to.value, s.calls[to.value].stage.(replies := s.calls[to.value].stage.replies + [response]))
    case Receive(c) => WithStage(s, c, Returned(Ok(s.calls[c].stage.replies[0])))
    case Cancel(c) => WithStage(s, c, Dropped)
    case Stop(agent) => s.(workers := s.workers - {agent})
  }

  /** Reply topics are fresh: no call has made up the same one before. */
  predicate FreshTopic(s: State, e: Event) {
    e.SubscribeReply? ==> e.topic !in s.owner
  }

  /** A run: each state follows from the one before by a possible step with fresh reply topics. */
  ghost predicate Run(states: seq<State>, events: seq<Event>) {
    && |states| == |events| + 1 && states[0] == INITIAL
    && forall k :: 0 <= k < |events| ==> StepAt(states, events, k)
  }

  ghost predicate StepAt(states: seq<State>, events: seq<Event>, k: int)
    requires |states| == |events| + 1 && 0 <= k < |events|
  {
    Enabled(states[k], events[k]) && FreshTopic(states[k], events[k]) && states[k + 1] == Next(states[k], events[k])
  }

  // ----- the invariant

  /** Topic and call belong to each other. */
  ghost predicate Owners(s: State) {
    && (forall t :: t in s.owner ==> s.owner[t] < |s.calls| && s.calls[s.owner[t]].topic == Some(t))
    && (forall c :: 0 <= c < |s.calls| && s.calls[c].topic.Some? ==>
                      s.calls[c].topic.value in s.owner && s.owner[s.calls[c].topic.value] == c)
    && (forall c :: 0 <= c < |s.calls| && s.calls[c].stage.Listening? ==> s.calls[c].topic.Some?)
    && (forall c :: 0 <= c < |s.calls| && s.calls[c].topic.Some? ==> !s.calls[c].stage.Ready? && !s.calls[c].stage.Starting?)
  }

  /** An invocation that has been sent is that of the call owning its reply topic. */
  ghost predicate Sent(s: State, v: Invocation) {
    && v.replyTopic in s.owner && s.owner[v.replyTopic] < |s.calls|
    && var call := s.calls[s.owner[v.replyTopic]];
       call.request == v.request && (call.stage.Listening? ==> call.stage.sent)
  }

  predicate Waits(s: State, agent: string, i: nat) {
    agent in s.workers && i < |s.workers[agent].queue| && s.workers[agent].queue[i].Invoke?
  }

  function Waiting(s: State, agent: string, i: nat): Invocation
    requires Waits(s, agent, i)
  {
    s.workers[agent].queue[i].invocation
  }

  ghost predicate QueuesSound(s: State) {
    && (forall a, i: nat {:trigger Waits(s, a, i)} :: Waits(s, a, i) ==>
                     && Sent(s, Waiting(s, a, i)) && AgentTopic(Waiting(s, a, i).request.node) == a
                     && Uncomputed(s, Waiting(s, a, i).replyTopic))
    && (forall a, i: nat, j: nat {:trigger Waits(s, a, i), Waits(s, a, j)} :: i < j && Waits(s, a, i) && Waits(s, a, j) ==>
                     Waiting(s, a, i).replyTopic != Waiting(s, a, j).replyTopic)
  }

  ghost predicate Uncomputed(s: State, topic: string) {
    forall k :: 0 <= k < |s.computed| ==> s.computed[k].invocation.replyTopic != topic
  }

  ghost predicate ComputedSound(s: State) {
    && (forall k :: 0 <= k < |s.computed| ==> Sent(s, s.computed[k].invocation))
    && (forall a :: a in s.workers && s.workers[a].busy.Some? ==> s.workers[a].busy.value in s.computed)
    && OnceEach(s.computed)
  }

  ghost predicate OnceEach(computed: seq<Computation>) {
    forall k, l :: 0 <= k < l < |computed| ==> computed[k].invocation.replyTopic != computed[l].invocation.replyTopic
  }

  /** The response was computed by a worker for this very call. */
  ghost predicate ComputedFor(s: State, call: Call, response: Response) {
    call.topic.Some? && exists comp :: comp in s.computed && comp.invocation == Invocation(call.request, call.topic.value)
                                       && response == ResponseOf(comp)
  }

  ghost predicate CallSound(s: State, c: nat)
    requires c < |s.calls|
  {
    match s.calls[c].stage
    case Listening(_, _, replies) => forall r :: r in replies ==> ComputedFor(s, s.calls[c], r)
    case Returned(Ok(response)) => ComputedFor(s, s.calls[c], response)
    case _ => true
  }

  ghost predicate CallsSound(s: State) {
    forall c: nat {:trigger CallSound(s, c)} :: c < |s.calls| ==> CallSound(s, c)
  }

  ghost predicate Sound(s: State) {
    Owners(s) && QueuesSound(s) && ComputedSound(s) && CallsSound(s)
  }

  lemma OwnersKept(s: State, e: Event)
    requires Owners(s) && Enabled(s, e) && FreshTopic(s, e)
    ensures Owners(Next(s, e))
  {
    var s' := Next(s, e);
    if e.Execute? {
      NewCall(s, e.request);
    } else if e.SubscribeReply? {
      NewTopic(s, e.c, e.topic);
    } else {
      SameOwner(s, e);
      forall c: nat | c < |s.calls| ensures SameTopic(s.calls[c], s'.calls[c]) {
        CallSteps(s, e, c);
      }
      SameTopics(s, s');
    }
  }

  lemma SameOwner(s: State, e: Event)
    requires Enabled(s, e) && !e.Execute? && !e.SubscribeReply?
    ensures Next(s, e).owner == s.owner && |Next(s, e).calls| == |s.calls|
  {
  }

  lemma CallSteps(s: State, e: Event, c: nat)
    requires Enabled(s, e) && !e.Execute? && !e.SubscribeReply? && c < |s.calls|
    ensures c < |Next(s, e).calls| && SameTopic(s.calls[c], Next(s, e).calls[c])
  {
  }

  lemma NewCall(s: State, q: Request)
    requires Owners(s)
    ensures Owners(Next(s, Execute(q)))
  {
  }

  lemma NewTopic(s: State, c: nat, topic: string)
    requires Owners(s) && Enabled(s, SubscribeReply(c, topic)) && topic !in s.owner
    ensures Owners(Next(s, SubscribeReply(c, topic)))
  {
  }

  /** The call keeps its topic and does not start listening or become unprepared. */
  predicate SameTopic(call: Call, call': Call) {
    && call'.topic == call.topic && (call'.stage.Listening? ==> call.stage.Listening?)
    && (call'.stage.Ready? || call'.stage.Starting? ==> call.stage.Ready? || call.stage.Starting?)
  }

  lemma SameTopics(s: State, s': State)
    requires Owners(s) && s'.owner == s.owner && |s'.calls| == |s.calls|
    requires forall c: nat :: c < |s.calls| ==> SameTopic(s.calls[c], s'.calls[c])
    ensures Owners(s')
  {
  }

  /** What was sent stays sent by the same call. */
  lemma SentKept(s: State, e: Event, v: Invocation)
    requires Sound(s) && Enabled(s, e) && FreshTopic(s, e) && Sent(s, v)
    ensures Sent(Next(s, e), v)
  {
  }

  lemma ComputedForKept(s: State, e: Event, c: nat, r: Response)
    requires Enabled(s, e) && c < |s.calls| && ComputedFor(s, s.calls[c], r)
    requires c < |Next(s, e).calls| && Next(s, e).calls[c].request == s.calls[c].request && Next(s, e).calls[c].topic == s.calls[c].topic
    ensures ComputedFor(Next(s, e), Next(s, e).calls[c], r)
  {
    var comp :| comp in s.computed && comp.invocation == Invocation(s.calls[c].request, s.calls[c].topic.value) && r == ResponseOf(comp);
    assert comp in Next(s, e).computed;
  }

  lemma QueuesKept(s: State, e: Event)
    requires Sound(s) && Enabled(s, e) && FreshTopic(s, e)
    ensures QueuesSound(Next(s, e))
  {
    var s' := Next(s, e);
    forall a, i: nat | Waits(s', a, i)
      ensures Sent(s', Waiting(s', a, i)) && AgentTopic(Waiting(s', a, i).request.node) == a && Uncomputed(s', Waiting(s', a, i).replyTopic)
    {
      QueueItemKept(s, e, a, i);
    }
    forall a, i: nat, j: nat | i < j && Waits(s', a, i) && Waits(s', a, j)
      ensures Waiting(s', a, i).replyTopic != Waiting(s', a, j).replyTopic
    {
      QueueDistinctKept(s, e, a, i, j);
    }
  }

  /** Where an item of a queue after a step was before it; None when the step put it there. */
  function Before(s: State, e: Event, a: string, i: nat): Option<nat>
    requires Enabled(s, e) && Waits(Next(s, e), a, i)
  {
    if e.Take? && e.agent == a then Some(i + 1)
    else if e.Deliver? && AgentTopic(s.calls[e.c].request.node) == a && i == |s.workers[a].queue| then None
    else Some(i)
  }

  lemma SameItem(s: State, e: Event, a: string, i: nat)
    requires Enabled(s, e) && Waits(Next(s, e), a, i)
    ensures match Before(s, e, a, i)
            case Some(k) => Waits(s, a, k) && Waiting(s, a, k) == Waiting(Next(s, e), a, i)
            case None => e.Deliver? && Waiting(Next(s, e), a, i) == Invocation(s.calls[e.c].request, s.calls[e.c].topic.value)
  {
  }

  lemma QueueItemKept(s: State, e: Event, a: string, i: nat)
    requires Sound(s) && Enabled(s, e) && FreshTopic(s, e) && Waits(Next(s, e), a, i)
    ensures var v := Waiting(Next(s, e), a, i);
            Sent(Next(s, e), v) && AgentTopic(v.request.node) == a && Uncomputed(Next(s, e), v.replyTopic)
  {
    SameItem(s, e, a, i);
    var v := Waiting(Next(s, e), a, i);
    match Before(s, e, a, i)
    case Some(k) =>
      assert Waits(s, a, k);
      SentKept(s, e, v);
      if e.Take? && s.workers[e.agent].queue[0].Invoke? {
        assert Waits(s, e.agent, 0);
      }
    case None =>
  }

  lemma QueueDistinctKept(s: State, e: Event, a: string, i: nat, j: nat)
    requires Sound(s) && Enabled(s, e) && FreshTopic(s, e) && i < j && Waits(Next(s, e), a, i) && Waits(Next(s, e), a, j)
    ensures Waiting(Next(s, e), a, i).replyTopic != Waiting(Next(s, e), a, j).replyTopic
  {
    SameItem(s, e, a, i);
    SameItem(s, e, a, j);
  }

  lemma ComputedKept(s: State, e: Event)
    requires Sound(s) && Enabled(s, e) && FreshTopic(s, e)
    ensures ComputedSound(Next(s, e))
  {
    var s' := Next(s, e);
    if e.Take? && s.workers[e.agent].queue[0].Invoke? {
      assert Waits(s, e.agent, 0);
    }
    forall k | 0 <= k < |s'.computed| ensures Sent(s', s'.computed[k].invocation) {
      if k < |s.computed| {
        SentKept(s, e, s.computed[k].invocation);
      }
    }
  }

  lemma CallKept(s: State, e: Event, c: nat)
    requires Sound(s) && Enabled(s, e) && FreshTopic(s, e) && c < |Next(s, e).calls|
    ensures CallSound(Next(s, e), c)
  {
    var s' := Next(s, e);
    if c < |s.calls| {
      assert CallSound(s, c);
      if s'.calls[c].stage.Listening? && !e.SubscribeReply? {
        forall r | r in s'.calls[c].stage.replies ensures ComputedFor(s', s'.calls[c], r) {
          if r in s.calls[c].stage.replies {
            ComputedForKept(s, e, c, r);
          } else {
            NewReply(s, e);
          }
        }
      } else if s'.calls[c].stage.Returned? && s'.calls[c].stage.result.Ok? {
        ComputedForKept(s, e, c, s'.calls[c].stage.result.response);
      }
    }
  }

  /** A reply that reaches a call was computed for it. */
  lemma NewReply(s: State, e: Event)
    requires Sound(s) && Enabled(s, e) && e.Reply? && e.to.Some?
    ensures ComputedFor(Next(s, e), Next(s, e).calls[e.to.value], ResponseOf(s.workers[e.agent].busy.value))
  {
    var comp := s.workers[e.agent].busy.value;
    assert comp in Next(s, e).computed;
    assert Sent(s, comp.invocation);
  }

  lemma StepKeeps(s: State, e: Event)
    requires Sound(s) && Enabled(s, e) && FreshTopic(s, e)
    ensures Sound(Next(s, e))
  {
    OwnersKept(s, e);
    QueuesKept(s, e);
    ComputedKept(s, e);
    forall c: nat | c < |Next(s, e).calls| ensures CallSound(Next(s, e), c) {
      CallKept(s, e, c);
    }
  }

  lemma {:induction false} RunKeeps(states: seq<State>, events: seq<Event>, n: nat)
    requires Run(states, events) && n < |states|
    ensures Sound(states[n])
  {
    if n > 0 {
      RunKeeps(states, events, n - 1);
      assert StepAt(states, events, n - 1);
      StepKeeps(states[n - 1], events[n - 1]);
    }
  }

  /** A call for a nested opening has failed with that message from the start. */
  ghost predicate NestedFailed(s: State) {
    forall c :: 0 <= c < |s.calls| && s.calls[c].request.node.kind.Nested? ==>
      s.calls[c].topic.None?
      && s.calls[c].stage == Returned(Err("nested opening '" + s.calls[c].request.node.kind.opening + "' unsupported"))
  }

  lemma {:induction false} NestedNeverRuns(states: seq<State>, events: seq<Event>, n: nat)
    requires Run(states, events) && n < |states|
    ensures NestedFailed(states[n])
  {
    if n > 0 {
      NestedNeverRuns(states, events, n - 1);
      assert StepAt(states, events, n - 1);
    }
  }

  /** What is computed was asked of an agent. */
  lemma ComputedForAgent(states: seq<State>, events: seq<Event>, n: nat, comp: Computation)
    requires Run(states, events) && n < |states| && comp in states[n].computed
    ensures comp.invocation.request.node.kind.Agent?
  {
    RunKeeps(states, events, n);
    NestedNeverRuns(states, events, n);
    assert Sent(states[n], comp.invocation);
  }

  /** An invocation is taken by the worker for the agent that its request names, of whatever version, and by no other. */
  lemma TakenByItsAgent(states: seq<State>, events: seq<Event>, k: nat, agent: string, given: Executed, v: Invocation)
    requires Run(states, events) && k < |events| && events[k] == Take(agent, given)
    requires agent in states[k].workers && |states[k].workers[agent].queue| > 0 && states[k].workers[agent].queue[0] == Invoke(v)
    ensures v.request.node.kind.Agent? && agent == "agent/" + v.request.node.kind.name
  {
    RunKeeps(states, events, k);
    NestedNeverRuns(states, events, k);
    assert Waits(states[k], agent, 0);
    assert Sent(states[k], v);
  }

  /**
    * Replies match requests: whatever was interleaved, timed out, stopped or answered late, a call that returns
    * a response returns what a worker's executor gave for exactly its own request, an error as a final failure.
    */
  lemma RepliesMatch(states: seq<State>, events: seq<Event>, c: nat, response: Response)
    requires Run(states, events) && c < |states[|events|].calls|
    requires states[|events|].calls[c].stage == Returned(Ok(response))
    ensures var s := states[|events|];
            exists comp :: comp in s.computed && comp.invocation.request == s.calls[c].request
                           && s.calls[c].topic == Some(comp.invocation.replyTopic)
                           && (match comp.given
                               case Execution(x) => response == x
                               case ExecutorError(text) => response == Failed(false, text))
  {
    RunKeeps(states, events, |events|);
    var s := states[|events|];
    assert CallSound(s, c);
    var comp :| comp in s.computed && comp.invocation == Invocation(s.calls[c].request, s.calls[c].topic.value)
                && response == ResponseOf(comp);
    ComputedForAgent(states, events, |events|, comp);
  }

  /** Each call is computed at most once, so the response it may return is determined. */
  lemma ComputedOnce(states: seq<State>, events: seq<Event>, a: Computation, b: Computation)
    requires Run(states, events)
    requires a in states[|events|].computed && b in states[|events|].computed
    requires a.invocation.replyTopic == b.invocation.replyTopic
    ensures a == b
  {
    RunKeeps(states, events, |events|);
  }
}
