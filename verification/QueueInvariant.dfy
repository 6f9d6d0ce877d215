/** Every step of the blocking queue keeps its invariant; what follows in every reachable state. */
module QueueInvariant {
  import opened Common
  import opened QueueProtocol

  /** Everything a thread's private condition may depend on only grows. */
  ghost predicate Grows<T>(q: Queue<T>, q': Queue<T>) {
    && q.history.popped <= q'.history.popped && q.history.pushed <= q'.history.pushed
    && (q.closed ==> q'.closed) && (q.history.popsReleased ==> q'.history.popsReleased)
    && (q.history.pushesReleased ==> q'.history.pushesReleased)
    && (q.closed ==> q'.history.pushed == q.history.pushed) && (q.closed && q.items == [] ==> q'.items == [])
    && (forall k :: k in q.history.returned ==> k in q'.history.returned)
  }

  /** A move of one thread keeps the others' conditions. */
  lemma MoveKeepsThreads<T>(q: Queue<T>, q': Queue<T>, t: nat)
    requires ThreadsOk(q) && Grows(q, q') && t in q.threads && q'.threads.Keys == q.threads.Keys
    requires forall u :: u in q.threads && u != t ==> q'.threads[u] == q.threads[u] || q'.threads[u] == Wake(q.threads[u])
    requires ThreadOk(q', t)
    requires forall k: nat :: Carries(q'.threads[t], k) ==> Carries(q.threads[t], k) || k >= q.history.popped
    ensures ThreadsOk(q')
  {
    forall u | u in q'.threads
      ensures ThreadOk(q', u)
    {
      if u != t {
        assert ThreadOk(q, u);
      }
    }
    forall a, b, k: nat | a in q'.threads && b in q'.threads && Carries(q'.threads[a], k) && Carries(q'.threads[b], k)
      ensures a == b
    {
      if a != t {
        assert ThreadOk(q, a) && Carries(q.threads[a], k);
      }
      if b != t {
        assert ThreadOk(q, b) && Carries(q.threads[b], k);
      }
    }
  }

  // -------------------------------------------------------- counting is exact

  ghost predicate Exact<T>(q: Queue<T>) {
    q.history.tally == TallyOf(q.threads)
  }

  lemma GotoExact<T>(q: Queue<T>, t: nat, th: Thread<T>)
    requires Exact(q) && t in q.threads
    ensures Exact(Goto(q, t, th))
  {
    TallyMove(q.threads, t, th);
  }

  lemma AwakenedMembers<T>(threads: map<nat, Thread<T>>, pops: bool, k: Kind)
    ensures var (asleep, awake) := if pops then (SleepingPop, WokenPop) else (SleepingPush, WokenPush);
            var after := Awakened(threads, pops);
            && (k == asleep ==> Members(after, k) == {})
            && (k == awake ==> Members(after, k) == Members(threads, awake) + Members(threads, asleep))
            && (k != asleep && k != awake ==> Members(after, k) == Members(threads, k))
  {}

  lemma WakeAllExact<T>(q: Queue<T>, pops: bool)
    requires Exact(q)
    ensures Exact(WakeAll(q, pops))
  {
    AwakenedMembers(q.threads, pops, SleepingPush);
    AwakenedMembers(q.threads, pops, WokenPush);
    AwakenedMembers(q.threads, pops, NotifyingPush);
    AwakenedMembers(q.threads, pops, SleepingPop);
    AwakenedMembers(q.threads, pops, WokenPop);
    AwakenedMembers(q.threads, pops, NotifyingPop);
    AwakenedMembers(q.threads, pops, ReleasingPops);
    AwakenedMembers(q.threads, pops, ReleasingPushes);
    assert Members(q.threads, SleepingPop) !! Members(q.threads, WokenPop);
    assert Members(q.threads, SleepingPush) !! Members(q.threads, WokenPush);
  }

  lemma NotifyExact<T>(q: Queue<T>, e: Event<T>)
    requires Exact(q) && Enabled(q, e) && e.action.Notify?
    ensures Exact(Step(q, e))
  {
    if e.action.woken.Some? {
      GotoExact(q, e.action.woken.value, Wake(q.threads[e.action.woken.value]));
    }
    GotoExact(WakeOne(q, e.action.woken), e.thread, Step(q, e).threads[e.thread]);
  }

  lemma NotifyAllExact<T>(q: Queue<T>, e: Event<T>)
    requires Exact(q) && Enabled(q, e) && e.action.NotifyAll?
    ensures Exact(Step(q, e))
  {
    var pops := q.threads[e.thread].CloseNotifyPops?;
    WakeAllExact(q, pops);
    GotoExact(WakeAll(q, pops), e.thread, Step(q, e).threads[e.thread]);
  }

  lemma StepExact<T>(q: Queue<T>, e: Event<T>)
    requires Exact(q) && Enabled(q, e)
    ensures Exact(Step(q, e))
  {
    if e.action.Notify? {
      NotifyExact(q, e);
    } else if e.action.NotifyAll? {
      NotifyAllExact(q, e);
    } else {
      GotoExact(q, e.thread, Step(q, e).threads[e.thread]);
    }
  }

  // ----------------------------------------------------- nobody is forgotten

  /** No count is negative, and at least one thread stands at `k`. */
  predicate Has(n: Tally, k: Kind) {
    && n.sleepingPush >= 0 && n.wokenPush >= 0 && n.notifyingPush >= 0 && n.sleepingPop >= 0
    && n.wokenPop >= 0 && n.notifyingPop >= 0 && n.releasingPops >= 0 && n.releasingPushes >= 0
    && match k
       case SleepingPush => n.sleepingPush > 0
       case WokenPush => n.wokenPush > 0
       case NotifyingPush => n.notifyingPush > 0
       case SleepingPop => n.sleepingPop > 0
       case WokenPop => n.wokenPop > 0
       case NotifyingPop => n.notifyingPop > 0
       case ReleasingPops => n.releasingPops > 0
       case ReleasingPushes => n.releasingPushes > 0
       case Other => true
  }

  lemma TallyHas<T>(q: Queue<T>, t: nat)
    requires Exact(q) && t in q.threads
    ensures Has(q.history.tally, KindOf(q.threads[t]))
  {
    CountPositive(q.threads, KindOf(q.threads[t]), t);
  }

  lemma NobodySleeps<T>(q: Queue<T>, pops: bool)
    requires Exact(q) && Wakes(q.threads, pops, None)
    ensures (if pops then q.history.tally.sleepingPop else q.history.tally.sleepingPush) == 0
  {
    assert Members(q.threads, if pops then SleepingPop else SleepingPush) == {};
  }

  lemma PushSectionServed<T>(q: Queue<T>, t: nat)
    requires Served(q) && t in q.threads && (q.threads[t].PushEnter? || q.threads[t].PushWoken?)
    requires Has(q.history.tally, KindOf(q.threads[t]))
    ensures Served(PushSection(q, t, q.threads[t].value))
  {}

  lemma PopSectionServed<T>(q: Queue<T>, t: nat)
    requires Served(q) && t in q.threads && (q.threads[t].PopEnter? || q.threads[t].PopWoken?)
    requires Has(q.history.tally, KindOf(q.threads[t]))
    ensures Served(PopSection(q, t))
  {}

  lemma NotifyServed<T>(q: Queue<T>, e: Event<T>)
    requires Served(q) && Enabled(q, e) && e.action.Notify? && Has(q.history.tally, KindOf(q.threads[e.thread]))
    requires e.action.woken.Some? ==> Has(q.history.tally, KindOf(q.threads[e.action.woken.value]))
    requires e.action.woken.None? ==>
               (if q.threads[e.thread].PushNotify? then q.history.tally.sleepingPop else q.history.tally.sleepingPush) == 0
    ensures Served(Step(q, e))
  {}

  lemma NotifyAllServed<T>(q: Queue<T>, e: Event<T>)
    requires Served(q) && Enabled(q, e) && ThreadOk(q, e.thread) && e.action.NotifyAll?
    requires Has(q.history.tally, KindOf(q.threads[e.thread]))
    ensures Served(Step(q, e))
  {}

  lemma CloseServed<T>(q: Queue<T>, t: nat)
    requires Served(q) && t in q.threads && q.threads[t].CloseEnter? && Has(q.history.tally, Other)
    ensures Served(Goto(q.(closed := true), t, CloseNotifyPops))
  {}

  lemma OtherServed<T>(q: Queue<T>, e: Event<T>)
    requires Served(q) && Enabled(q, e) && ThreadOk(q, e.thread) && !e.action.Notify?
    requires Has(q.history.tally, KindOf(q.threads[e.thread]))
    requires e.action.Enter? ==> q.threads[e.thread].CloseEnter?
    ensures Served(Step(q, e))
  {
    if e.action.NotifyAll? {
      NotifyAllServed(q, e);
    } else if e.action.Enter? {
      CloseServed(q, e.thread);
    }
  }

  lemma StepServed<T>(q: Queue<T>, e: Event<T>)
    requires Served(q) && Exact(q) && Enabled(q, e) && ThreadOk(q, e.thread)
    ensures Served(Step(q, e))
  {
    var th := q.threads[e.thread];
    TallyHas(q, e.thread);
    if e.action.Enter? && (th.PushEnter? || th.PushWoken?) {
      PushSectionServed(q, e.thread);
    } else if e.action.Enter? && (th.PopEnter? || th.PopWoken?) {
      PopSectionServed(q, e.thread);
    } else if e.action.Notify? {
      if e.action.woken.Some? {
        TallyHas(q, e.action.woken.value);
      } else {
        NobodySleeps(q, th.PushNotify?);
      }
      NotifyServed(q, e);
    } else {
      OtherServed(q, e);
    }
  }

  // ----------------------------------------------------- contents and threads

  lemma PushSectionContents<T>(q: Queue<T>, t: nat, value: T)
    requires Contents(q) && t in q.threads
    ensures Contents(PushSection(q, t, value)) && Grows(q, PushSection(q, t, value))
  {}

  lemma PopSectionContents<T>(q: Queue<T>, t: nat)
    requires Contents(q) && t in q.threads
    ensures Contents(PopSection(q, t)) && Grows(q, PopSection(q, t))
  {}

  lemma StepContents<T>(q: Queue<T>, e: Event<T>)
    requires Contents(q) && Enabled(q, e)
    ensures Contents(Step(q, e)) && Grows(q, Step(q, e))
  {
    var th := q.threads[e.thread];
    if e.action.Enter? && (th.PushEnter? || th.PushWoken?) {
      PushSectionContents(q, e.thread, th.value);
    } else if e.action.Enter? && (th.PopEnter? || th.PopWoken?) {
      PopSectionContents(q, e.thread);
    }
  }

  lemma StepKeys<T>(q: Queue<T>, e: Event<T>)
    requires Enabled(q, e)
    ensures Step(q, e).threads.Keys == q.threads.Keys
  {}

  /** Items come and go with the critical sections of push and pop only. */
  lemma StepCounts<T>(q: Queue<T>, e: Event<T>)
    requires Enabled(q, e)
    ensures var th, q' := q.threads[e.thread], Step(q, e);
            var put := if e.action.Enter? && (th.PushEnter? || th.PushWoken?) && !q.closed && |q.items| < q.capacity then 1 else 0;
            var took := if e.action.Enter? && (th.PopEnter? || th.PopWoken?) && q.items != [] then 1 else 0;
            |q'.items| == |q.items| + put - took && q'.history.popped == q.history.popped + took
  {}

  lemma PushSectionThread<T>(q: Queue<T>, t: nat, value: T)
    requires t in q.threads
    ensures ThreadOk(PushSection(q, t, value), t)
    ensures forall k: nat :: !Carries(PushSection(q, t, value).threads[t], k)
  {}

  lemma PopSectionThread<T>(q: Queue<T>, t: nat)
    requires Contents(q) && t in q.threads
    ensures ThreadOk(PopSection(q, t), t)
    ensures forall k: nat :: Carries(PopSection(q, t).threads[t], k) ==> k >= q.history.popped
  {}

  lemma NotifyThread<T>(q: Queue<T>, e: Event<T>)
    requires Enabled(q, e) && ThreadOk(q, e.thread) && e.action.Notify?
    ensures ThreadOk(Step(q, e), e.thread)
    ensures forall k: nat :: Carries(Step(q, e).threads[e.thread], k) ==> Carries(q.threads[e.thread], k)
  {}

  /** What the moving thread itself arrives at is in order. */
  lemma StepOwnThread<T>(q: Queue<T>, e: Event<T>)
    requires Contents(q) && Enabled(q, e) && ThreadOk(q, e.thread)
    ensures var q' := Step(q, e);
            && ThreadOk(q', e.thread)
            && forall k: nat :: Carries(q'.threads[e.thread], k) ==> Carries(q.threads[e.thread], k) || k >= q.history.popped
  {
    var t, th := e.thread, q.threads[e.thread];
    if e.action.Enter? && (th.PushEnter? || th.PushWoken?) {
      PushSectionThread(q, t, th.value);
    } else if e.action.Enter? && (th.PopEnter? || th.PopWoken?) {
      PopSectionThread(q, t);
    } else if e.action.Notify? {
      NotifyThread(q, e);
    }
  }

  lemma StepOtherThreads<T>(q: Queue<T>, e: Event<T>, u: nat)
    requires Enabled(q, e) && u in q.threads && u != e.thread
    ensures var q' := Step(q, e); u in q'.threads && (q'.threads[u] == q.threads[u] || q'.threads[u] == Wake(q.threads[u]))
  {}

  lemma OthersStay<T>(q: Queue<T>, e: Event<T>, q': Queue<T>)
    requires Enabled(q, e) && q' == Step(q, e)
    ensures q'.threads.Keys == q.threads.Keys
    ensures forall u :: u in q.threads && u != e.thread ==> q'.threads[u] == q.threads[u] || q'.threads[u] == Wake(q.threads[u])
  {
    StepKeys(q, e);
    forall u | u in q.threads && u != e.thread
      ensures q'.threads[u] == q.threads[u] || q'.threads[u] == Wake(q.threads[u])
    {
      StepOtherThreads(q, e, u);
    }
  }

  lemma StepThreads<T>(q: Queue<T>, e: Event<T>, q': Queue<T>)
    requires Contents(q) && ThreadsOk(q) && Enabled(q, e) && q' == Step(q, e)
    ensures ThreadsOk(q')
  {
    StepContents(q, e);
    StepOwnThread(q, e);
    OthersStay(q, e, q');
    MoveKeepsThreads(q, q', e.thread);
  }

  // ---------------------------------------------------- every pop is delivered

  /** The step in which a popping thread takes the front item. */
  predicate Takes<T>(q: Queue<T>, e: Event<T>)
    requires e.thread in q.threads
  {
    e.action.Enter? && (q.threads[e.thread].PopEnter? || q.threads[e.thread].PopWoken?) && q.items != []
  }

  lemma BystanderCarries<T>(q: Queue<T>, e: Event<T>, u: nat, k: nat)
    requires Enabled(q, e) && u != e.thread
    ensures CarriedBy(Step(q, e), u, k) <==> CarriedBy(q, u, k)
  {
    StepKeys(q, e);
    if u in q.threads {
      StepOtherThreads(q, e, u);
    }
  }

  /** The mover carries what it takes, and what it carried until it returns. */
  lemma MoverCarries<T>(q: Queue<T>, e: Event<T>, k: nat)
    requires Enabled(q, e)
    ensures CarriedBy(Step(q, e), e.thread, k) <==>
              if Takes(q, e) then k == q.history.popped else CarriedBy(q, e.thread, k) && !e.action.Leave?
  {}

  lemma StepReturns<T>(q: Queue<T>, e: Event<T>)
    requires Enabled(q, e)
    ensures var th, q' := q.threads[e.thread], Step(q, e);
            && q'.history.popped == q.history.popped + (if Takes(q, e) then 1 else 0) && q.history.pushed <= q'.history.pushed
            && q'.history.returned == (if e.action.Leave? && th.PopDone? && th.result.Some?
                                       then q.history.returned[th.ticket := th.result.value] else q.history.returned)
  {
    StepCounts(q, e);
  }

  lemma StepDelivers<T>(q: Queue<T>, e: Event<T>, q': Queue<T>)
    requires Delivered(q) && ThreadsOk(q) && Contents(q) && Enabled(q, e) && q' == Step(q, e)
    ensures Delivered(q')
  {
    var t := e.thread;
    assert ThreadOk(q, t);
    StepReturns(q, e);
    forall u, k: nat | CarriedBy(q', u, k)
      ensures k !in q'.history.returned
    {
      CarriedIsNew(q, e, u, k);
    }
    forall k: nat | k < q'.history.popped
      ensures k in q'.history.returned || exists u :: CarriedBy(q', u, k)
    {
      PoppedIsThere(q, e, k);
    }
  }

  lemma CarriedIsNew<T>(q: Queue<T>, e: Event<T>, u: nat, k: nat)
    requires Delivered(q) && ThreadsOk(q) && Enabled(q, e) && CarriedBy(Step(q, e), u, k)
    ensures k !in Step(q, e).history.returned
  {
    StepReturns(q, e);
    if u != e.thread {
      BystanderCarries(q, e, u, k);
    } else {
      MoverCarries(q, e, k);
    }
  }

  lemma PoppedIsThere<T>(q: Queue<T>, e: Event<T>, k: nat)
    requires Delivered(q) && Enabled(q, e) && k < Step(q, e).history.popped
    ensures k in Step(q, e).history.returned || exists u :: CarriedBy(Step(q, e), u, k)
  {
    StepReturns(q, e);
    MoverCarries(q, e, k);
    if k < q.history.popped && k !in q.history.returned {
      var u :| CarriedBy(q, u, k);
      if u != e.thread {
        BystanderCarries(q, e, u, k);
      } else if e.action.Leave? {
        assert k in Step(q, e).history.returned;
      }
      assert k in Step(q, e).history.returned || CarriedBy(Step(q, e), u, k);
    } else if k !in q.history.returned {
      assert CarriedBy(Step(q, e), e.thread, k);
    }
  }

  lemma StepKeeps<T>(q: Queue<T>, e: Event<T>)
    requires Inv(q) && Enabled(q, e)
    ensures Inv(Step(q, e)) && Grows(q, Step(q, e))
  {
    StepContents(q, e);
    StepServed(q, e);
    StepThreads(q, e, Step(q, e));
    StepExact(q, e);
  }
}
