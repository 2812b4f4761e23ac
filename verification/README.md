# Runloop: a verified model of its core

This Dafny project models the parts of Runloop in which several functions have to agree over time, and proves
that they do. Each module follows one component.

| file | component |
|---|---|
| `Graph.dfy`, `Openings.dfy` | graphs by edge list, JSON values, openings, predicates and success conditions |
| `Parser.dfy` | the graph check of the opening parser (Kahn's algorithm on index arrays) |
| `RunModel.dfy`, `Runner.dfy`, `RunTheorems.dfy` | the run loop: what a run means, the loop itself, theorems about every run |
| `Guards.dfy`, `RunOrder.dfy` | what guards and success conditions decide, in terms of the values on the ports; the order of a run and its hash |
| `Replay.dfy` | replaying the recorded final attempts and rebuilding the run hash |
| `Frame.dfy` | the RMP version 0 header and frame codec, time to live |
| `Dedupe.dfy` | the per-subscriber duplicate filter and its reservations |
| `Bus.dfy`, `BusSafety.dfy`, `BusRetry.dfy`, `BusCounts.dfy` | the bus as a step system, and what holds over all its runs |
| `BusCalls.dfy`, `BusRouting.dfy` | who a publish reaches and what it answers, told from the events of a run; where messages can go |
| `BusFailures.dfy` | runs of the bus, from its initial state, that end in what the hypotheses exclude |
| `ExecutorBus.dfy` | request and reply between the runner and agent workers |
| `Materializer.dfy`, `ViewLaws.dfy` | the knowledge-base event log and its materialized views; what the views hold in terms of the payloads |
| `ModelBroker.dfy`, `BrokerCalls.dfy` | the model broker: routing, budgets, counters and the response cache; what its answers tell about the requests |
| `Templates.dfy` | parameter templates in opening payloads |
| `Config.dfy` | layered configuration, merging and recorded overrides |

`dafny verify dfyconfig.toml` checks everything.

## How the model is set up

- **The run loop** is imperative: `Runner.Run` works on a record of the source's local maps. `RunModel.Explained` says
  what a run is without a loop: the completed nodes in order, each popped in first-in-first-out order of wake-ups, run
  on what the nodes before it sent, and retried until a conclusive outcome. The loop invariant `Runner.Consistent`
  says that each counter is the number of inbound edges whose source has not completed, that the blocked flag and the
  input buffer are functions of the deliveries so far, and that a node which has been decided against keeps its
  successors' counters positive until the final sweep. The executor is a function of node, inputs and attempt number;
  a run makes each such call at most once, so nothing is lost by that.
- **The bus** is asynchronous, so it is a step system: publish begins with a snapshot and one clock reading, then
  reserves, pushes, waits on a full queue, times out, finds a channel closed, notifies the drop topic, rolls back at
  the end, or is dropped by its caller in between; subscribers come, receive, close and go, and publications overlap
  freely. The duplicate filter is a class with the source's methods; its steps use the functions those methods are
  proved against. The hypotheses of at-most-once delivery are the predicate `BusSafety.Respects`, asked for only where
  a key is inserted. That of exactly-once delivery is about calls (`BusRetry.CalledInTurn`): a key is published only
  when every earlier call with it has ended.
- **Request and reply** is a step system too. Reply topics are fresh (`ExecutorBus.FreshTopic`), as random UUIDs are.
- **The materializer, the broker and the configuration loader** are methods that update their state, proved against
  the fold of the log, the answer without a cache, and the replay of recorded overrides.
- A specification function that a method is proved against says what the code computes. What that means is stated
  beside it in other terms: comparisons of values for the guards (`Guards`), event lists for the bus (`BusCalls`,
  `BusRouting`), fields of payloads for the views (`ViewLaws`), fields of requests for the broker (`BrokerCalls`), paths
  and the last source that speaks for the configuration (`Config.Precedence`), byte offsets for the wire
  (`Frame.HeaderLayout`).
- Hashes and encoders (BLAKE3, MessagePack, JSON text) are function parameters of which nothing is assumed.

## What was found

- `docs/message-protocol.md` section 5 says that the duplicate filter's maximum age is at least the maximum time to
  live. No code compares the two. `BusFailures.RepublishDelivers` shows what follows: a delivered message that is still
  live is delivered a second time exactly when more time than the window has passed, and
  `BusFailures.RepublishAtDefaults` does it with the server's settings and a time to live of a minute.
- The duplicate check tells whether a message has been delivered if and only if no other publication holds its key
  (`BusRetry.DuplicateExact`). When two publishes of one message overlap, the second can return Ok because the first
  holds the key, and the first can then time out on the full queue and roll back: an Ok was returned and nothing was
  delivered (`BusFailures.OverlapFromInitial`, and with the server's settings `BusFailures.OverlapAtDefaults`). When
  each call begins only after the one before has ended, this cannot happen (`BusRetry.RetriedExactlyOnce`).
- `Replay.ReplayOfFailure`: a run that failed on an executor error cannot be replayed at all, and one that failed on a
  timeout replays only if the executor itself fails with the text of the timeout.
- `Dedupe.ClockGoingBackDiffers`: pruning stops at the first fresh entry, so with a clock that goes back a stale entry
  can still suppress a message, whatever the window and the capacity, as long as that is more than one.
  `Dedupe.PrunedExactWhen` gives the exact condition.
- `ModelBroker.BoundariesAreLost`, `ModelBroker.CollisionVisible`: the cache key hashes its fields without separators,
  so different questions can share a key, and then there are providers with which a broker that is asked both serves a
  wrong answer from its cache.
- `Config.ReadBackExact`: recorded overrides use dotted keys, which name their path exactly when no key contains a dot
  and the first is not empty. `Config.SetPathFails`: an environment assignment below a value that is not an object
  fails (in the code, by panicking).

## Model

| member | source | states |
|---|---|---|
| Parser.ValidateGraph | crates/openings/src/parser.rs:919-979 | accepts exactly the edge lists whose endpoints exist and whose graph has no cycle, with a topological numbering on acceptance; a reported id names no node and is the first such endpoint in edge order |
| Parser.KahnRejects | crates/openings/src/parser.rs:968-976 | when fewer nodes were visited than exist, the graph has a cycle |
| Parser.KahnAccepts | crates/openings/src/parser.rs:946-968 | when all nodes were visited, the order of popping numbers every edge upwards |
| Graph.StuckHasCycle | crates/openings/src/parser.rs:968-976 | a set of nodes each entered from within the set contains an actual cycle |
| Runner.Run | crates/openings/src/runner.rs:235-639 | the whole run is one the model explains; records cover every node; trace and hash are those of the final attempts; success is no failure and the success condition, told by comparing the values on the completed nodes' ports |
| Runner.TraceTells | crates/openings/src/runner.rs:593-619 | a traced node tells its state and its last attempt, with the digest of outputs exactly when there are outputs |
| Guards.GuardDecides | crates/openings/src/runner.rs:388-443 | a node behind one guarded edge runs, in a run without failure, exactly when its source completed and some value on the port compares as the guard says |
| Guards.EdgesDecide | crates/openings/src/runner.rs:388-443 | with any edges: a node runs exactly when every edge into it comes from a completed node whose values the guard accepts and one of those ports is filled, or when it has none |
| Guards.IntegerGuardDecides | crates/openings/src/runner.rs:659-713 | with integers on the port, the comparison is that of integers: more, at least, less, at most, equal, different |
| Guards.StringGuardDecides | crates/openings/src/runner.rs:678-728 | with strings, it is the order of the first character that differs |
| Guards.BooleanGuardDecides | crates/openings/src/runner.rs:678-717 | with booleans, equality and inequality decide and every order fails |
| Guards.NumberGuardDecides | crates/openings/src/runner.rs:659-740 | with numbers of mixed kind, it is the comparison of reals, equal within the tolerance |
| Guards.SuccessExact | crates/openings/src/runner.rs:741-775 | a success condition holds exactly when one, or all, of its listed ports is filled or compares so |
| RunOrder.DeliveriesInOrder | crates/openings/src/runner.rs:388-411 | edges are followed in the order in which their sources completed, and from one source in edge order |
| RunOrder.FirstReadyFirstRun | crates/openings/src/runner.rs:294-443 | if the later of two run nodes was ready after some delivery, so was the earlier |
| RunOrder.RootsRunInOrder | crates/openings/src/runner.rs:275-290 | nodes without inbound edges run first, in the order of the opening |
| RunOrder.HashTells | crates/openings/src/runner.rs:590-629 | two runs that differ in how one node ended have different final hashes if the digests of that end differ and the final digest tells inputs apart |
| Runner.RunLoop | crates/openings/src/runner.rs:294-551 | the work list ends with an empty queue and consistent counters, or stopped at one failed node; it terminates |
| Runner.CountersCount | crates/openings/src/runner.rs:258-264 | in every state of the loop a node's counter is the number of its inbound edges whose source has not succeeded |
| Runner.FollowEdges | crates/openings/src/runner.rs:388-443 | following a completed node's edges keeps counters, flags, buffers and queue those of the deliveries made |
| Runner.ExecuteNode | crates/openings/src/runner.rs:311-546 | attempts 1 to k on the same inputs, k being the first conclusive outcome or the last attempt allowed |
| RunTheorems.AttemptsFollowRule | crates/openings/src/runner.rs:311-546 | each attempt is followed by another exactly when it timed out or failed in a way that may be retried and attempts are left; the last one decides state and error text |
| Runner.Sweep | crates/openings/src/runner.rs:553-586 | the final sweep settles every node that neither succeeded nor failed |
| Runner.BuildTrace | crates/openings/src/runner.rs:590-629 | the trace lists the nodes in opening order and the final hash is fed their last outputs and errors |
| Runner.PushValues | crates/openings/src/runner.rs:30-35 | pushing values one by one appends them to the port, which is created by the first |
| RunModel.QueuedExact | crates/openings/src/runner.rs:413-443 | a node is ever queued exactly when it has no inbound edge or all its edges were delivered, none blocked, something arrived |
| RunModel.QueuedOnce | crates/openings/src/runner.rs:413-443 | no node is queued twice |
| RunModel.DeliveriesExact | crates/openings/src/runner.rs:388-390 | the deliveries of a run are each outgoing edge of each completed node, once |
| RunTheorems.RunRefinesMeaning | crates/openings/src/runner.rs:252-443 | a run without failure ends with exactly the nodes selected by a recursive rule on the graph succeeded, all others skipped |
| RunTheorems.ReadyIsRuns | crates/openings/src/runner.rs:413-434 | readiness as seen by counters, flags and buffers is the rule on the recorded outputs of the sources |
| RunTheorems.SucceededIsRuns | crates/openings/src/runner.rs:567-586 | in a run without failure a node succeeded exactly when the rule on recorded outputs selects it, and is skipped otherwise |
| RunTheorems.PoppedOnce | crates/openings/src/runner.rs:294-309 | no node is popped twice |
| RunTheorems.ExecutedSafely | crates/openings/src/runner.rs:294-443 | also in runs that later fail, a node runs only after all its sources succeeded, with no failed predicate |
| RunTheorems.OpenRunExecutes | crates/openings/src/runner.rs:294-443 | in an accepted opening, a run without failure whose completed nodes pass all predicates and fill all edge ports executes every node, whatever was retried |
| RunTheorems.SmoothRunExecutes | crates/openings/src/runner.rs:294-443 | an executor that always completes and lets everything through has no other runs: none fails and every node is executed |
| RunTheorems.InputsConserved | crates/openings/src/runner.rs:320-411 | each attempt sees, per port, all values that its sources put on the ports its edges come from, in completion and then edge order, each edge once |
| RunTheorems.NodeTotals | crates/openings/src/runner.rs:553-588 | every node ends succeeded, failed or skipped; skipped means no attempt; attempts are numbered from 1 and only the last can hold an output; only the failing node failed |
| RunTheorems.CallsBounded | crates/openings/src/runner.rs:311-316 | a run makes at most the sum of the attempts allowed per node |
| RunTheorems.RunDetermined | crates/openings/src/runner.rs:235-639 | opening and executor determine order, inputs, attempts and final states |
| Replay.Replay | crates/openings/src/replay.rs:24-168 | it fails exactly when the executor breaks on a traced node, in its words; otherwise it matches exactly when every traced node is reproduced, output digest included, and names the others in order |
| Replay.ReplayAgrees | crates/openings/src/replay.rs:41-167 | a run without failure replays with no mismatch and the same hash |
| Replay.ReplayOfFailure | crates/openings/src/replay.rs:41-167 | a failed run replays cleanly exactly when its last call was a refusal, or a timeout that the executor now reports in the same words; an executor error ends the replay |
| Frame.HeaderReadBack | crates/rmp/src/header.rs:79-138 | an encoded header decodes to itself exactly when it is version 0, and otherwise to the error of the first field that is off |
| Frame.HeaderLayout | crates/rmp/src/header.rs:79-93 | each field stands at its offset in the 64 bytes, most significant byte first, reserved fields zero |
| Frame.FrameLayout | crates/rmp/src/header.rs:167-177 | four bytes of length, the header with the body's length, the body |
| Frame.HeaderExact | crates/rmp/src/header.rs:95-138 | an accepted header is version 0 and re-encodes to its own bytes |
| Frame.FrameReadBack | crates/rmp/src/header.rs:167-205 | a frame followed by anything decodes to its header and body exactly when version, limit and 32-bit range allow |
| Frame.FrameExact | crates/rmp/src/header.rs:179-205 | accepted input starts with exactly the encoding of what was decoded |
| Frame.ProperPrefixIncomplete | crates/rmp/src/header.rs:179-190 | every proper prefix of a frame asks for more bytes |
| Frame.StreamReadBack | crates/rmp/src/header.rs:167-205 | back-to-back frames, with a cut-off one at the end, decode to the frames sent |
| Dedupe.DedupeCache.Prune | crates/bus/src/lib.rs:873-886 | drops stale entries from the least recently used end up to the first fresh one |
| Dedupe.DedupeCache.Contains | crates/bus/src/lib.rs:859-862 | prunes, then tells whether the key is there |
| Dedupe.DedupeCache.Insert | crates/bus/src/lib.rs:864-867 | prunes, then makes the key the most recently used, evicting the least recently used one from a full cache |
| Dedupe.DedupeReservation.Rollback | crates/bus/src/lib.rs:908-917 | removes the key, unless committed or already rolled back |
| Dedupe.Reserve | crates/bus/src/lib.rs:679-691 | refused exactly when the key is in the pruned cache, which is then otherwise left alone |
| Dedupe.PrunedExact | crates/bus/src/lib.rs:873-886 | in time order, pruning removes exactly the entries older than the window |
| Dedupe.PrunedExactWhen | crates/bus/src/lib.rs:873-886 | pruning leaves no stale entry if and only if no stale entry stands behind a fresh one |
| Dedupe.CacheIsTimeFilter | crates/bus/src/lib.rs:849-886 | with forward time and no overflow, any sequence of operations is answered as by a plain time filter |
| Dedupe.EvictsOldest | crates/bus/src/lib.rs:859-886 | within the window, the cache holds an entry exactly when it is the last of its key and fewer other keys than the capacity were stored since |
| Dedupe.ClockGoingBackDiffers | crates/bus/src/lib.rs:873-886 | for any window and capacity, a sequence with a clock that goes back on which the two differ exactly when the cache holds more than one entry |
| BusSafety.AtMostOnce | crates/bus/src/lib.rs:412-523 | over every run within the hypotheses, no subscriber is sent a key twice through publish, across timeouts, rollbacks, dropped calls and overlapping publishers |
| BusSafety.CancelHolds | crates/bus/src/lib.rs:919-928 | a dropped call keeps exactly the reservations it held, all of them to be rolled back |
| BusSafety.StepKeeps | crates/bus/src/lib.rs:412-657 | every step keeps the claims: each delivered or reserved key is in the cache or has aged out after its message expired, and is claimed once |
| BusSafety.NoOtherClaim | crates/bus/src/lib.rs:679-691 | a live message that is not a duplicate finds its key unclaimed: an aged-out entry belongs to an expired message |
| BusRetry.RetriedExactlyOnce | crates/bus/src/lib.rs:442-523 | a message published again and again, each call begun after the one before has ended, has been sent exactly once to every subscriber of the call that returns Ok |
| BusCalls.RetriedReaches | crates/bus/src/lib.rs:412-523 | the same for every subscriber that came before the call began and was not taken off in between, by subscription |
| BusCalls.SnapshotReaches | crates/bus/src/lib.rs:431-434 | a subscriber that has not been taken off is in the snapshot of every accepted publish to its topic, once, in the order of subscriptions |
| BusCalls.OpenStays | crates/bus/src/lib.rs:482-523 | a subscriber that does not leave and keeps its receiver open is taken off only by a shutdown |
| BusCalls.BeginDecides | crates/bus/src/lib.rs:412-434 | a publish is accepted exactly on an open bus, by an allowed kind, with a time to live that is neither zero, too long nor over; what it answers, counts and notifies otherwise |
| BusCalls.AnswerIsVerdict | crates/bus/src/lib.rs:435-480 | an accepted publish answers the worst thing that happened to it in the run, and Ok if nothing did |
| BusRouting.SnapshotExact | crates/bus/src/lib.rs:431-434 | an earlier subscriber is in the snapshot exactly when it has not left, been found closed, or been shut down since |
| BusRouting.OpenReached | crates/bus/src/lib.rs:555-580 | by the events alone: a subscriber that neither leaves nor closes is reached by every accepted publish until a shutdown |
| BusRouting.OnlyPublished | crates/bus/src/lib.rs:525-552 | a queue holds only the unchanged messages of publishes to its subscriber's topic, and drop notices only on the drop topic |
| BusRouting.SwitchesExact | crates/bus/src/lib.rs:412-422 | the bus is closed exactly after a shutdown, and decisions are allowed to the kinds last configured |
| BusRetry.InTurnSuffices | crates/bus/src/lib.rs:442-480 | calls that begin one after the other has ended never find the key held |
| BusRetry.DuplicateExact | crates/bus/src/lib.rs:679-691 | the duplicate check tells whether the message has been delivered if and only if no publication holds its key |
| BusRetry.DuplicateIffDelivered | crates/bus/src/lib.rs:679-691 | when nobody holds the key, a live message is refused as a duplicate exactly when it was delivered: failed attempts leave the key out, delivered ones leave it in |
| BusRetry.HeldMisleads | crates/bus/src/lib.rs:679-691 | while another publication holds the key, the message is refused as a duplicate though it has not been delivered |
| BusFailures.RepublishDelivers | crates/bus/src/lib.rs:859-886 | from the initial state, a delivered and still live message is delivered again exactly when more than the window has passed, and refused with Ok otherwise |
| BusFailures.RepublishAtDefaults | crates/bus/src/lib.rs:704-716 | the server's settings and a time to live of a minute allow the second delivery |
| BusFailures.OverlapLosesMessage | crates/bus/src/lib.rs:442-552 | from any state with one open subscriber whose queue is full, a run in which an overlapping publish returns Ok, nothing is pushed and the key is gone |
| BusFailures.OverlapFromInitial | crates/bus/src/lib.rs:412-552 | the initial state leads to such a run, by filling the queue with other messages |
| BusFailures.OverlapAtDefaults | crates/bus/src/lib.rs:704-716 | the server's settings allow such a run |
| BusCounts.BusConserves | crates/bus/src/lib.rs:412-552 | deliveries offered equal data deliveries, duplicate drops, backpressure drops, closed channels and those of dropped calls; the delivered counter is all pushes; queues are bounded and first in, first out |
| ExecutorBus.RepliesMatch | crates/runloopd/src/executor_bus.rs:245-321 | a call that returns a response returns what the executor gave for its own request and reply topic, an executor error as a final failure, whatever timed out, stopped or came late |
| ExecutorBus.NestedNeverRuns | crates/runloopd/src/executor_bus.rs:245-260 | a call for a nested opening has failed with that message and is never sent |
| ExecutorBus.TakenByItsAgent | crates/runloopd/src/executor_bus.rs:48-177 | an invocation is taken only by the worker of the agent that its request names |
| ExecutorBus.ComputedOnce | crates/runloopd/src/executor_bus.rs:37-88 | each call is computed at most once |
| ExecutorBus.StepKeeps | crates/runloopd/src/executor_bus.rs:48-177 | every step keeps the invariant on topics, worker queues, computations and replies |
| Materializer.KnowledgeBase.Propose | crates/kb/src/lib.rs:618-682 | appends with a larger id exactly when valid and not already there; otherwise nothing changes |
| Materializer.KnowledgeBase.LoadEventsAfter | crates/kb/src/lib.rs:1213-1239 | the first events after the watermark, in id order, up to the batch size |
| Materializer.KnowledgeBase.Sync | crates/kb/src/lib.rs:1181-1200 | commits a whole batch with its watermark, or changes nothing; the views stay the fold of the log up to the watermark |
| Materializer.KnowledgeBase.Flush | crates/kb/src/trace_store.rs:155-159 | terminates, and succeeds exactly when every event of the log applies, with the watermark at the last id |
| Materializer.ViewsAreFold | crates/kb/src/lib.rs:1181-1260 | in every state reached by proposes, syncs of any batch sizes and failed or aborted syncs, the views are the fold of the log up to the watermark |
| Materializer.BatchingIrrelevant | crates/kb/src/lib.rs:1181-1200 | two histories with the same log up to their watermarks have the same views |
| Materializer.LastWriterWins | crates/kb/src/lib.rs:1262-1504 | a row holds what the last event that upserts it wrote |
| Materializer.UnwrittenAbsent | crates/kb/src/lib.rs:1262-1504 | a row that no event upserts is not there |
| Materializer.HistoryExact | crates/kb/src/lib.rs:1514-1521 | the entity history holds exactly the events recorded for an entity |
| ViewLaws.FailsExact | crates/kb/src/lib.rs:1262-1504 | an event fails to apply exactly when its payload or provenance lacks a field that its kind requires |
| ViewLaws.WritesExact | crates/kb/src/lib.rs:1276-1504 | the row an event writes holds, field by field, the trimmed or normalized values of its payload, its id, and is keyed as its kind says |
| ViewLaws.MentionsExact | crates/kb/src/lib.rs:1514-1521 | an event is recorded for the entities its payload names, and no others |
| ViewLaws.SameAddressSameRow | crates/kb/src/lib.rs:1783-1809 | contacts given by one address, whatever its case and the white space around it, go to one row |
| ViewLaws.RowsExact | crates/kb/src/lib.rs:1181-1504 | a table holds a row exactly when it is what the payload of the last event to write under that key describes |
| ViewLaws.StateExact | crates/kb/src/lib.rs:1181-1200 | in every consistent state, tables and history describe exactly the events up to the watermark |
| ModelBroker.EffectiveLimit | crates/model-broker/src/lib.rs:222-228 | the limit is the largest positive number within what is wanted and the cap, and missing exactly when nothing is wanted |
| ModelBroker.Broker.Complete | crates/model-broker/src/lib.rs:318-462 | hits exactly on a fresh entry under the key and leaves the store in least-recently-used order; every answer in the log is the provider's, a timeout, or that of an earlier call still within its time to live, within this request's budget; counters are the sums over the log |
| ModelBroker.Broker.CheckCache | crates/model-broker/src/lib.rs:512-527 | a fresh entry is returned and moved to the front, a stale one is removed |
| ModelBroker.Broker.CallProvider | crates/model-broker/src/lib.rs:400-461 | counts an accepted answer and stores it exactly when it has a time to live |
| ModelBroker.Transparent | crates/model-broker/src/lib.rs:361-461 | in a run without key collisions every request is answered as without a cache, except for timeouts of providers that are called |
| ModelBroker.TokensTransparent | crates/model-broker/src/lib.rs:599-610 | without timeouts the token counters are those of a broker without a cache |
| ModelBroker.BoundariesAreLost | crates/model-broker/src/lib.rs:543-570 | text moved from the prompt to the system role keeps the key |
| ModelBroker.CollisionVisible | crates/model-broker/src/lib.rs:361-461 | for any two different questions with one key, to one place or two, there are providers with which a new broker asked both serves the second from its cache, wrongly |
| BrokerCalls.PlaceExact | crates/model-broker/src/lib.rs:318-360 | a request goes to the provider of the first route that covers its model, under that route's name for the model, or is refused for the stated reason |
| BrokerCalls.NoPlaceExact | crates/model-broker/src/lib.rs:325-338 | it is refused for want of a route exactly when no pattern covers its model |
| BrokerCalls.AnswerExact | crates/model-broker/src/lib.rs:400-461 | a completion is passed on with the tokens reported, or one for every four bytes begun, unless they exceed the limit |
| BrokerCalls.AskTwice | crates/model-broker/src/lib.rs:543-570 | with an injective digest, a new broker serves the second of two requests from its cache exactly when the first was answered, still lives, and fed the same bytes; never when they go to one place and differ in the bytes of one field |
| BrokerCalls.HitMeansSameBytes | crates/model-broker/src/lib.rs:361-398 | in any run, a hit repeats a provider's answer to an earlier request that fed the same bytes, within its time and this request's budget |
| BrokerCalls.AskAll | crates/model-broker/src/lib.rs:512-541 | over any list of requests, an answer that still lives is served again if fewer other questions than the capacity came between |
| Templates.ExtractExact | crates/openings/src/parser.rs:1152-1166 | a string is the template of a name exactly when it is that name after `params.`, padded with white space, in double braces |
| Templates.TemplateLeafAt | crates/openings/src/parser.rs:1080-1150 | a template leaf, however padded, becomes the parameter it names, and a string that no template fits stays |
| Templates.ApplyParamTemplates | crates/openings/src/parser.rs:1080-1112 | succeeds exactly on acceptable payloads, with the simultaneous substitution; an error names something really wrong |
| Templates.ApplyTemplatesArray | crates/openings/src/parser.rs:1114-1150 | the same for arrays |
| Templates.ValidateNoTemplates | crates/openings/src/parser.rs:1168-1190 | finds a string with template braces exactly when there is one at some depth |
| Templates.SubstCloses | crates/openings/src/parser.rs:1080-1190 | after a successful substitution no string value at any depth contains template braces |
| Templates.SubstTwice | crates/openings/src/parser.rs:1080-1190 | substituting again, with any parameters, succeeds and changes nothing |
| Templates.SubstAt | crates/openings/src/parser.rs:1080-1150 | at every path, a template holds its parameter and any other leaf is what it was |
| Config.MergeValue | crates/core/src/config.rs:1017-1033 | the in-place merge, in any key order, is the recursive merge |
| Config.MergeAt | crates/core/src/config.rs:1017-1033 | path by path, the patch's leaves win and the base stays where the patch is silent |
| Config.MergeTwice | crates/core/src/config.rs:1017-1033 | merging the same patch again changes nothing |
| Config.SetPathAt | crates/core/src/config.rs:1165-1180 | a set path reads back its value, and paths that are neither above nor below it are untouched |
| Config.SetPathFails | crates/core/src/config.rs:1165-1180 | setting a path fails exactly when something above it is not an object |
| Config.DiffValues | crates/core/src/config.rs:1219-1258 | the recorded overrides turn any tree equal to the first, nulls aside, into the second, and each records a real change with the values before and after |
| Config.ReadBackExact | crates/core/src/config.rs:1240-1252 | a dotted key is read back as its path exactly when no key contains a dot and the first is not empty |
| Config.OverridesTell | crates/core/src/config.rs:1225-1262 | a recorded override names its path and holds the values before and after |
| Config.LoadLayers | crates/core/src/config.rs:128-182 | at every path the environment's last assignment decides, else the last file that speaks, else the default; an unreadable file or a blocked assignment fails; replaying the recorded overrides of all layers on the defaults reproduces it, nulls aside, when keys are legible |

## Left out

- Floating-point rounding: numbers are exact reals, and comparisons use the source's tolerance on them.
- BLAKE3, MessagePack, JSON and YAML text, JSON Schema: function parameters, or parsed trees as input.
- Clocks, backoff delays, random numbers and timestamps of attempts: parameters, or not part of the records.
- Emitted events, log lines, metrics and the locations in parse errors: diagnostics without effect on the state.
- The bus over IPC, the access check beyond decision messages, and the contents of drop notices.
- Runner.Run: the source's local maps are fields of a value that the methods pass along, so aliasing is not modelled.
- Config.SetPathAt: the cursor that walks into the tree is a recursive function on values, so update in place is not modelled.
- Materializer.KnowledgeBase.Sync: one sync is one step; two that overlap, with the watermark read before either commits, are not modelled.
- Materializer.KnowledgeBase.Propose: validation of scope, schema and references is one Boolean of the caller.
- ModelBroker.Broker.Complete: calls come one after the other; interleavings between the cache check and the store are not modelled. Token counts are plain numbers because every answer carries both after estimation.
- ModelBroker.TokensTransparent: the counters are unbounded in the object and reduced to 64 bits when they are read.
- BusSafety.AtMostOnce: publish is a sequence of steps because it awaits between them. A push may time out once it has found the queue full, even if room has come up since, and a call may be dropped between any two of its steps before it rolls back; both allow more runs than the code has. The runs of `BusFailures` do not use that freedom: nothing is received in them, so the queue is full when the push waits and when it times out, and no call is dropped.
- Config.LoadLayers: file values are taken after the renaming of deprecated keys, environment assignments after their names and values have been parsed, and the tree before the last renaming.
- ExecutorBus.RepliesMatch: reply topics are taken to be fresh, and only workers publish on them.
- Replay.ReplayAgrees: the executor answers as it did in the run; executors that depend on anything else are not covered.
- The transport, the daemon engine, the router classifier, HTTP providers, SQL queries, redaction, backup and the command-line tools.
