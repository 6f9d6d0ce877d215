/** What the blocking queue guarantees in every reachable state. */
module QueueTheorems {
  import opened Common
  import opened QueueProtocol
  import opened QueueInvariant

  ghost predicate Runs<T(!new)>(q: Queue<T>, trace: seq<Event<T>>, q': Queue<T>)
    decreases |trace|
  {
    if trace == [] then q == q'
    else Enabled(q, trace[0]) && Runs(Step(q, trace[0]), trace[1..], q')
  }

  ghost predicate Reachable<T(!new)>(capacity: nat, q: Queue<T>) {
    exists ids: set<nat>, trace: seq<Event<T>> :: Runs(Init(capacity, ids), trace, q)
  }

  lemma {:induction false} RunsKeep<T(!new)>(q: Queue<T>, trace: seq<Event<T>>, q': Queue<T>)
    requires Inv(q) && Runs(q, trace, q')
    ensures Inv(q') && Grows(q, q')
    decreases |trace|
  {
    if trace != [] {
      var m := Step(q, trace[0]);
      StepKeeps(q, trace[0]);
      RunsKeep(m, trace[1..], q');
      assert q.history.pushed <= m.history.pushed <= q'.history.pushed;
    }
  }

  lemma InitInv<T>(capacity: nat, ids: set<nat>)
    requires capacity > 0
    ensures Inv(Init<T>(capacity, ids))
  {
    var q := Init<T>(capacity, ids);
    NoneMoved(q.threads, SleepingPush);
    NoneMoved(q.threads, WokenPush);
    NoneMoved(q.threads, NotifyingPush);
    NoneMoved(q.threads, SleepingPop);
    NoneMoved(q.threads, WokenPop);
    NoneMoved(q.threads, NotifyingPop);
    NoneMoved(q.threads, ReleasingPops);
    NoneMoved(q.threads, ReleasingPushes);
  }

  lemma NoneMoved<T>(threads: map<nat, Thread<T>>, k: Kind)
    requires k != Other && forall t :: t in threads ==> threads[t].Away?
    ensures Members(threads, k) == {}
  {}

  lemma ReachableInv<T(!new)>(capacity: nat, q: Queue<T>)
    requires capacity > 0 && Reachable(capacity, q)
    ensures Inv(q)
  {
    var ids: set<nat>, trace: seq<Event<T>> :| Runs(Init(capacity, ids), trace, q);
    InitInv<T>(capacity, ids);
    RunsKeep(Init(capacity, ids), trace, q);
  }

  /** How many threads stand at a given kind of point. */
  ghost function At<T>(q: Queue<T>, k: Kind): nat { |Members(q.threads, k)| }

  /**
   No wakeup is lost: while a consumer sleeps, every queued item has a woken consumer or a producer
   that has yet to notify; while a producer sleeps on an open queue, the same of every free slot.
   */
  lemma NoLostWakeup<T(!new)>(capacity: nat, q: Queue<T>)
    requires capacity > 0 && Reachable(capacity, q)
    ensures At(q, SleepingPop) > 0 ==> |q.items| <= At(q, WokenPop) + At(q, NotifyingPush)
    ensures At(q, SleepingPush) > 0 && !q.closed ==> q.capacity - |q.items| <= At(q, WokenPush) + At(q, NotifyingPop)
  {
    ReachableInv(capacity, q);
  }

  /** So a consumer never sleeps beside an item with nobody on the way to act on it. */
  lemma SleeperHasHelp<T(!new)>(capacity: nat, q: Queue<T>, t: nat)
    requires capacity > 0 && Reachable(capacity, q) && t in q.threads
    requires (q.threads[t].PopSleep? && (q.items != [] || q.closed)) || (q.threads[t].PushSleep? && (|q.items| < q.capacity || q.closed))
    ensures exists u :: u in q.threads && (Entering(q.threads[u]) || q.threads[u].PushNotify? || q.threads[u].PopNotify?
                                           || q.threads[u].CloseNotifyPops? || q.threads[u].CloseNotifyPushes?)
  {
    ReachableInv(capacity, q);
    var u := Helper(q, t);
    assert u in q.threads;
  }

  lemma Helper<T>(q: Queue<T>, t: nat) returns (u: nat)
    requires Served(q) && Exact(q) && t in q.threads
    requires (q.threads[t].PopSleep? && (q.items != [] || q.closed)) || (q.threads[t].PushSleep? && (|q.items| < q.capacity || q.closed))
    ensures u in q.threads && (Entering(q.threads[u]) || q.threads[u].PushNotify? || q.threads[u].PopNotify?
                               || q.threads[u].CloseNotifyPops? || q.threads[u].CloseNotifyPushes?)
  {
    TallyHas(q, t);
    var n := q.history.tally;
    if q.closed {
      u := CountWitness(q.threads, if n.releasingPops > 0 then ReleasingPops else ReleasingPushes);
    } else if q.threads[t].PopSleep? {
      u := CountWitness(q.threads, if n.wokenPop > 0 then WokenPop else NotifyingPush);
    } else {
      u := CountWitness(q.threads, if n.wokenPush > 0 then WokenPush else NotifyingPop);
    }
  }

  lemma ReleasedIsAwake<T>(q: Queue<T>, u: nat)
    requires Served(q) && Exact(q) && q.history.popsReleased && q.history.pushesReleased && u in q.threads
    ensures !q.threads[u].PushSleep? && !q.threads[u].PopSleep?
  {
    TallyHas(q, u);
  }

  lemma ReturnedCloseReleased<T(!new)>(capacity: nat, q: Queue<T>, t: nat)
    requires capacity > 0 && Reachable(capacity, q) && t in q.threads && q.threads[t].CloseDone?
    ensures q.closed && q.history.popsReleased && q.history.pushesReleased
  {
    ReachableInv(capacity, q);
    assert ThreadOk(q, t);
  }

  lemma LaterState<T(!new)>(capacity: nat, q: Queue<T>, trace: seq<Event<T>>, q': Queue<T>)
    requires capacity > 0 && Reachable(capacity, q) && Runs(q, trace, q')
    ensures Served(q') && Exact(q') && Grows(q, q')
  {
    ReachableInv(capacity, q);
    RunsKeep(q, trace, q');
  }

  /** Once some `close` has returned, nobody sleeps, now or ever after. */
  lemma CloseWakesEverybody<T(!new)>(capacity: nat, q: Queue<T>, t: nat, trace: seq<Event<T>>, q': Queue<T>, u: nat)
    requires capacity > 0 && Reachable(capacity, q) && t in q.threads && q.threads[t].CloseDone? && Runs(q, trace, q')
    ensures q'.closed && (u in q'.threads ==> !q'.threads[u].PushSleep? && !q'.threads[u].PopSleep?)
  {
    ReturnedCloseReleased(capacity, q, t);
    LaterState(capacity, q, trace, q');
    if u in q'.threads {
      ReleasedIsAwake(q', u);
    }
  }

  /** A push is refused only once the queue is closed, a pop comes back empty only if it is closed and drained. */
  lemma AnswersAreJustified<T(!new)>(capacity: nat, q: Queue<T>, t: nat)
    requires capacity > 0 && Reachable(capacity, q) && t in q.threads
    ensures q.threads[t].PushDone? && !q.threads[t].ok ==> q.closed
    ensures q.threads[t].PopDone? && q.threads[t].result.None? ==> q.closed && q.items == []
  {
    ReachableInv(capacity, q);
    assert ThreadOk(q, t);
  }

  /** Nothing enters a closed queue, whatever was under way when it closed, and what was in it stays to be popped. */
  lemma ClosedTakesNothing<T(!new)>(capacity: nat, q: Queue<T>, trace: seq<Event<T>>, q': Queue<T>)
    requires capacity > 0 && Reachable(capacity, q) && q.closed && Runs(q, trace, q')
    ensures q'.closed && q'.history.pushed == q.history.pushed
    ensures q.history.popped <= q'.history.popped <= |q.history.pushed|
    ensures q'.items == q.history.pushed[q'.history.popped..]
  {
    ReachableInv(capacity, q);
    RunsKeep(q, trace, q');
  }

  lemma {:induction false} RunsDeliver<T(!new)>(q: Queue<T>, trace: seq<Event<T>>, q': Queue<T>)
    requires Inv(q) && Delivered(q) && Runs(q, trace, q')
    ensures Delivered(q')
    decreases |trace|
  {
    if trace != [] {
      StepDelivers(q, trace[0], Step(q, trace[0]));
      StepKeeps(q, trace[0]);
      RunsDeliver(Step(q, trace[0]), trace[1..], q');
    }
  }

  lemma ReachableDelivers<T(!new)>(capacity: nat, q: Queue<T>)
    requires capacity > 0 && Reachable(capacity, q)
    ensures Delivered(q)
  {
    var ids: set<nat>, trace: seq<Event<T>> :| Runs(Init(capacity, ids), trace, q);
    InitInv<T>(capacity, ids);
    RunsDeliver(Init(capacity, ids), trace, q);
  }

  /**
   First in, first out, and every item once: the item of ticket k is queued at its place, or carried
   out by exactly one pop, or was returned by one, and in exactly one of these.
   */
  lemma PopsAreFifo<T(!new)>(capacity: nat, q: Queue<T>, k: nat)
    requires capacity > 0 && Reachable(capacity, q) && k < |q.history.pushed|
    ensures q.history.popped <= |q.history.pushed| && q.items == q.history.pushed[q.history.popped..] && |q.items| <= q.capacity
    ensures k < q.history.popped <==> k in q.history.returned || exists t :: CarriedBy(q, t, k)
    ensures k in q.history.returned ==> q.history.returned[k] == q.history.pushed[k] && forall t :: !CarriedBy(q, t, k)
    ensures forall t, u :: CarriedBy(q, t, k) && CarriedBy(q, u, k) ==> t == u
    ensures forall t :: CarriedBy(q, t, k) && q.threads[t].PopDone? ==> q.threads[t].result == Some(q.history.pushed[k])
  {
    ReachableInv(capacity, q);
    ReachableDelivers(capacity, q);
    forall t | CarriedBy(q, t, k)
      ensures k < q.history.popped && (q.threads[t].PopDone? ==> q.threads[t].result == Some(q.history.pushed[k]))
    {
      assert ThreadOk(q, t);
    }
  }

  /** What was pushed or returned under a ticket stays so for ever. */
  lemma ReturnsAreFinal<T(!new)>(capacity: nat, q: Queue<T>, trace: seq<Event<T>>, q': Queue<T>, k: nat)
    requires capacity > 0 && Reachable(capacity, q) && Runs(q, trace, q') && k in q.history.returned
    ensures k in q'.history.returned && q'.history.returned[k] == q.history.returned[k]
    ensures forall t :: !CarriedBy(q', t, k)
  {
    ReachableInv(capacity, q);
    ReachableDelivers(capacity, q);
    RunsKeep(q, trace, q');
    RunsDeliver(q, trace, q');
  }
}
