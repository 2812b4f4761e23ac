/** Conservation of deliveries, bounded queues and first-in-first-out order, over every run. */
module BusCounts {
  import opened Bus

  ghost function SumOf<T>(f: T -> nat, items: seq<T>): nat {
    if items == [] then 0 else f(items[0]) + SumOf(f, items[1..])
  }

  lemma {:induction false} SumUpdate<T>(f: T -> nat, items: seq<T>, k: nat, item: T)
    requires k < |items|
    ensures SumOf(f, items[k := item]) + f(items[k]) == SumOf(f, items) + f(item)
  {
    if k > 0 {
      SumUpdate(f, items[1..], k - 1, item);
      assert items[k := item][1..] == items[1..][k - 1 := item];
    } else {
      assert items[k := item][1..] == items[1..];
    }
  }

  lemma {:induction false} SumAppend<T>(f: T -> nat, items: seq<T>, item: T)
    ensures SumOf(f, items + [item]) == SumOf(f, items) + f(item)
  {
    if items == [] {
      assert items + [item] == [item];
    } else {
      SumAppend(f, items[1..], item);
      assert (items + [item])[1..] == items[1..] + [item];
    }
  }

  ghost function DataCount(pushed: seq<Push>): nat {
    if pushed == [] then 0 else DataCount(pushed[..|pushed| - 1]) + if pushed[|pushed| - 1].Data? then 1 else 0
  }

  ghost function Offered(pub: Publication): nat { |pub.snapshot| }
  ghost function Waiting(pub: Publication): nat { |pub.todo| }
  ghost function ClosedOutcomes(pub: Publication): nat { pub.closedCount }
  ghost function Abandoned(pub: Publication): nat { pub.abandoned }
  ghost function DataPushes(s: Subscriber): nat { DataCount(s.pushed) }
  ghost function AllPushes(s: Subscriber): nat { |s.pushed| }

  /** Each subscriber's pushes are what it received followed by what is queued, and the queue is bounded. */
  ghost predicate Fifo(cfg: Config, b: Bus) {
    forall x :: 0 <= x < |b.subs| ==>
                  b.subs[x].pushed == b.subs[x].received + b.subs[x].queue && |b.subs[x].queue| <= cfg.queueCapacity
  }

  /** Every delivery offered is accounted for, or still open. */
  ghost predicate Balanced(b: Bus) {
    && SumOf(Offered, b.pubs) == SumOf(DataPushes, b.subs) + b.metrics.dropsDuplicate + b.metrics.dropsBackpressure
                                 + SumOf(ClosedOutcomes, b.pubs) + SumOf(Abandoned, b.pubs) + SumOf(Waiting, b.pubs)
    && b.metrics.delivered == SumOf(AllPushes, b.subs)
  }

  /** Replacing one publication and one subscriber. */
  lemma SumsUpdate(b: Bus, b': Bus, p: PubId, x: SubId)
    requires p < |b.pubs| && x < |b.subs|
    requires |b'.pubs| == |b.pubs| && b'.pubs == b.pubs[p := b'.pubs[p]]
    requires |b'.subs| == |b.subs| && b'.subs == b.subs[x := b'.subs[x]]
    ensures SumOf(Offered, b'.pubs) + Offered(b.pubs[p]) == SumOf(Offered, b.pubs) + Offered(b'.pubs[p])
    ensures SumOf(Waiting, b'.pubs) + Waiting(b.pubs[p]) == SumOf(Waiting, b.pubs) + Waiting(b'.pubs[p])
    ensures SumOf(ClosedOutcomes, b'.pubs) + ClosedOutcomes(b.pubs[p]) == SumOf(ClosedOutcomes, b.pubs) + ClosedOutcomes(b'.pubs[p])
    ensures SumOf(Abandoned, b'.pubs) + Abandoned(b.pubs[p]) == SumOf(Abandoned, b.pubs) + Abandoned(b'.pubs[p])
    ensures SumOf(DataPushes, b'.subs) + DataPushes(b.subs[x]) == SumOf(DataPushes, b.subs) + DataPushes(b'.subs[x])
    ensures SumOf(AllPushes, b'.subs) + AllPushes(b.subs[x]) == SumOf(AllPushes, b.subs) + AllPushes(b'.subs[x])
  {
    SumUpdate(Offered, b.pubs, p, b'.pubs[p]);
    SumUpdate(Waiting, b.pubs, p, b'.pubs[p]);
    SumUpdate(ClosedOutcomes, b.pubs, p, b'.pubs[p]);
    SumUpdate(Abandoned, b.pubs, p, b'.pubs[p]);
    SumUpdate(DataPushes, b.subs, x, b'.subs[x]);
    SumUpdate(AllPushes, b.subs, x, b'.subs[x]);
  }

  lemma PushCounts(s: Subscriber, push: Push)
    ensures DataPushes(PushTo(s, push)) == DataPushes(s) + if push.Data? then 1 else 0
    ensures AllPushes(PushTo(s, push)) == AllPushes(s) + 1
  {
    assert (s.pushed + [push])[..|s.pushed|] == s.pushed;
  }

  lemma ReserveBalances(cfg: Config, b: Bus, p: PubId)
    requires Balanced(b) && Enabled(cfg, b, Event.Reserve(p))
    ensures Balanced(AfterReserve(cfg, b, p))
  {
    SumsUpdate(b, AfterReserve(cfg, b, p), p, b.pubs[p].todo[0]);
    ReserveCounts(cfg, b, p);
  }

  /** A duplicate is one subscriber fewer to visit and one more duplicate drop; nothing is pushed. */
  lemma ReserveCounts(cfg: Config, b: Bus, p: PubId)
    requires Enabled(cfg, b, Event.Reserve(p))
    ensures var b', x := AfterReserve(cfg, b, p), b.pubs[p].todo[0];
            && Offered(b'.pubs[p]) == Offered(b.pubs[p]) && Abandoned(b'.pubs[p]) == Abandoned(b.pubs[p])
            && ClosedOutcomes(b'.pubs[p]) == ClosedOutcomes(b.pubs[p])
            && Waiting(b'.pubs[p]) + b'.metrics.dropsDuplicate == Waiting(b.pubs[p]) + b.metrics.dropsDuplicate
            && b'.metrics.delivered == b.metrics.delivered && b'.metrics.dropsBackpressure == b.metrics.dropsBackpressure
            && DataPushes(b'.subs[x]) == DataPushes(b.subs[x]) && AllPushes(b'.subs[x]) == AllPushes(b.subs[x])
  {
  }

  lemma DeliverBalances(cfg: Config, b: Bus, p: PubId, outcome: PushResult)
    requires Balanced(b) && Enabled(cfg, b, Deliver(p, outcome))
    ensures Balanced(AfterDeliver(cfg, b, p, outcome))
  {
    var x := b.pubs[p].todo[0];
    assert outcome.Pushed? || AfterDeliver(cfg, b, p, outcome).subs == b.subs[x := b.subs[x]];
    SumsUpdate(b, AfterDeliver(cfg, b, p, outcome), p, x);
    PushCounts(b.subs[x], Data(b.pubs[p].message, b.pubs[p].now));
  }

  lemma NotifyBalances(cfg: Config, b: Bus, p: PubId, outcome: PushResult)
    requires Balanced(b) && Enabled(cfg, b, Notify(p, outcome))
    ensures Balanced(AfterNotify(cfg, b, p, outcome))
  {
    var x := b.pubs[p].notices[0];
    assert outcome.Pushed? || AfterNotify(cfg, b, p, outcome).subs == b.subs[x := b.subs[x]];
    SumsUpdate(b, AfterNotify(cfg, b, p, outcome), p, x);
    PushCounts(b.subs[x], Notice);
  }

  lemma RollbackBalances(cfg: Config, b: Bus, p: PubId)
    requires Balanced(b) && Enabled(cfg, b, Event.Rollback(p))
    ensures Balanced(AfterRollback(cfg, b, p))
  {
    SumsUpdate(b, AfterRollback(cfg, b, p), p, b.pubs[p].pending[0]);
  }

  lemma Appended(b: Bus, e: Event)
    requires e.Begin?
    ensures var b' := Begun(b, e.topic, e.message, e.now, e.emit, e.kind);
            && |b'.pubs| == |b.pubs| + 1 && b'.pubs == b.pubs + [b'.pubs[|b.pubs|]]
            && b'.subs == b.subs && b'.metrics.delivered == b.metrics.delivered
            && b'.metrics.dropsDuplicate == b.metrics.dropsDuplicate && b'.metrics.dropsBackpressure == b.metrics.dropsBackpressure
            && b'.pubs[|b.pubs|].todo == b'.pubs[|b.pubs|].snapshot && b'.pubs[|b.pubs|].closedCount == 0
            && b'.pubs[|b.pubs|].abandoned == 0
  {
  }

  lemma BeginBalances(cfg: Config, b: Bus, e: Event)
    requires Balanced(b) && e.Begin?
    ensures Balanced(Next(cfg, b, e))
  {
    Appended(b, e);
    var pub := Next(cfg, b, e).pubs[|b.pubs|];
    SumAppend(Offered, b.pubs, pub);
    SumAppend(Waiting, b.pubs, pub);
    SumAppend(ClosedOutcomes, b.pubs, pub);
    SumAppend(Abandoned, b.pubs, pub);
  }

  lemma OtherBalances(cfg: Config, b: Bus, e: Event)
    requires Balanced(b) && Enabled(cfg, b, e)
    requires !(e.Reserve? || e.Deliver? || e.Notify? || e.Rollback? || e.Begin?)
    ensures Balanced(Next(cfg, b, e))
  {
    var b' := Next(cfg, b, e);
    if e.Finish? || e.Wait? || e.Cancel? {
      SumUpdate(Offered, b.pubs, e.p, b'.pubs[e.p]);
      SumUpdate(Waiting, b.pubs, e.p, b'.pubs[e.p]);
      SumUpdate(ClosedOutcomes, b.pubs, e.p, b'.pubs[e.p]);
      SumUpdate(Abandoned, b.pubs, e.p, b'.pubs[e.p]);
    } else if e.Receive? || e.CloseReceiver? {
      SumUpdate(DataPushes, b.subs, e.x, b'.subs[e.x]);
      SumUpdate(AllPushes, b.subs, e.x, b'.subs[e.x]);
    } else if e.Subscribe? {
      SumAppend(DataPushes, b.subs, b'.subs[|b.subs|]);
      SumAppend(AllPushes, b.subs, b'.subs[|b.subs|]);
    }
  }

  lemma StepBalances(cfg: Config, b: Bus, e: Event)
    requires Balanced(b) && Enabled(cfg, b, e)
    ensures Balanced(Next(cfg, b, e))
  {
    match e
    case Begin(_, _, _, _, _) => BeginBalances(cfg, b, e);
    case Reserve(p) => ReserveBalances(cfg, b, p);
    case Deliver(p, outcome) => DeliverBalances(cfg, b, p, outcome);
    case Notify(p, outcome) => NotifyBalances(cfg, b, p, outcome);
    case Rollback(p) => RollbackBalances(cfg, b, p);
    case _ => OtherBalances(cfg, b, e);
  }

  lemma PushFifo(cfg: Config, b: Bus, e: Event)
    requires Fifo(cfg, b) && Enabled(cfg, b, e) && (e.Deliver? || e.Notify?)
    ensures Fifo(cfg, Next(cfg, b, e))
  {
    var b' := Next(cfg, b, e);
    forall x | 0 <= x < |b'.subs|
      ensures b'.subs[x].pushed == b'.subs[x].received + b'.subs[x].queue && |b'.subs[x].queue| <= cfg.queueCapacity
    {
      assert b.subs[x].pushed == b.subs[x].received + b.subs[x].queue;
    }
  }

  lemma StepFifo(cfg: Config, b: Bus, e: Event)
    requires Fifo(cfg, b) && Enabled(cfg, b, e)
    ensures Fifo(cfg, Next(cfg, b, e))
  {
    if e.Deliver? || e.Notify? {
      PushFifo(cfg, b, e);
    }
  }

  lemma {:induction false} RunBalances(cfg: Config, b: Bus, run: seq<Event>)
    requires Balanced(b) && Fifo(cfg, b) && Possible(cfg, b, run)
    ensures Balanced(Final(cfg, b, run)) && Fifo(cfg, Final(cfg, b, run))
    decreases run
  {
    if run != [] {
      StepBalances(cfg, b, run[0]);
      StepFifo(cfg, b, run[0]);
      RunBalances(cfg, Next(cfg, b, run[0]), run[1..]);
    }
  }

  lemma {:induction false} NothingOpen(pubs: seq<Publication>)
    requires forall p :: 0 <= p < |pubs| ==> pubs[p].todo == []
    ensures SumOf(Waiting, pubs) == 0
  {
    if pubs != [] {
      NothingOpen(pubs[1..]);
    }
  }

  /**
   * Over every run, once the accepted publications have visited their subscribers, the deliveries they offered are the
   * data deliveries, duplicate drops, backpressure drops, closed channels and those given up by dropping the call; the
   * delivered counter is all pushes, data and notices; queues stay bounded and first in, first out.
   */
  lemma BusConserves(cfg: Config, run: seq<Event>)
    requires Possible(cfg, Initial(), run)
    ensures var b := Final(cfg, Initial(), run);
            && b.metrics.delivered == SumOf(AllPushes, b.subs)
            && Fifo(cfg, b)
            && ((forall p :: 0 <= p < |b.pubs| ==> b.pubs[p].todo == []) ==>
                  SumOf(Offered, b.pubs) == SumOf(DataPushes, b.subs) + b.metrics.dropsDuplicate
                                            + b.metrics.dropsBackpressure + SumOf(ClosedOutcomes, b.pubs)
                                            + SumOf(Abandoned, b.pubs))
  {
    RunBalances(cfg, Initial(), run);
    var b := Final(cfg, Initial(), run);
    if forall p :: 0 <= p < |b.pubs| ==> b.pubs[p].todo == [] {
      NothingOpen(b.pubs);
    }
  }
}
