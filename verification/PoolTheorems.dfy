/** What the thread pool guarantees in every reachable state. */
module PoolTheorems {
  import Q = QueueProtocol
  import QT = QueueTheorems
  import opened PoolProtocol
  import opened PoolInvariant

  lemma InitInv(capacity: nat, workers: set<nat>, callers: set<nat>)
    requires capacity > 0
    ensures Inv(Init(capacity, workers, callers))
  {
    var s := Init(capacity, workers, callers);
    QT.InitInv<Task>(capacity, workers + callers);
    assert Holders(s) == {} && Submitters(s) == {};
  }

  lemma {:induction false} RunsKeep(s: Pool, trace: seq<Event>, s': Pool)
    requires Inv(s) && Runs(s, trace, s')
    ensures Inv(s')
    decreases |trace|
  {
    if trace != [] {
      StepKeeps(s, trace[0]);
      RunsKeep(Step(s, trace[0]), trace[1..], s');
    }
  }

  lemma ReachableInv(s: Pool)
    requires Reachable(s)
    ensures Inv(s)
  {
    var capacity: nat, workers: set<nat>, callers: set<nat>, trace: seq<Event> :|
      capacity > 0 && workers != {} && workers !! callers && Runs(Init(capacity, workers, callers), trace, s);
    InitInv(capacity, workers, callers);
    RunsKeep(Init(capacity, workers, callers), trace, s);
  }

  /** submitted = completed + running + queued + in-flight submissions, so completed never exceeds submitted. */
  lemma CountersBalance(s: Pool)
    requires Reachable(s)
    ensures Shape(s)
    ensures s.submitted == s.completed + |Holders(s)| + |s.queue.items| + |Submitters(s)|
    ensures 0 <= s.completed <= s.submitted
  {
    ReachableInv(s);
  }

  /** Exactly one thread, a worker, has the task of ticket `k` in its hands. */
  ghost predicate InOneHand(s: Pool, k: nat)
    requires Shape(s)
  {
    exists t :: HoldsTicket(s, t, k) && t in s.workers && forall u :: HoldsTicket(s, u, k) ==> u == t
  }

  lemma PoppedTicket(s: Pool, k: nat)
    requires Shape(s) && MembersOk(s) && TicketsOk(s) && k < s.queue.history.popped && k !in s.finished
    ensures InOneHand(s, k)
  {
    assert Accounted(s, k);
    var t :| HoldsTicket(s, t, k);
    assert MemberOk(s, t);
  }

  /** Every accepted task is in exactly one place: queued, in one worker's hands, or run, and run once. */
  lemma EveryTaskInOnePlace(s: Pool, k: nat)
    requires Reachable(s) && k < |s.queue.history.pushed|
    ensures Shape(s) && s.completed == |s.finished|
    ensures k >= s.queue.history.popped ==> k !in s.finished && forall t :: !HoldsTicket(s, t, k)
    ensures k >= s.queue.history.popped ==>
              k - s.queue.history.popped < |s.queue.items| && s.queue.items[k - s.queue.history.popped] == s.queue.history.pushed[k]
    ensures k < s.queue.history.popped && k in s.finished ==> forall t :: !HoldsTicket(s, t, k)
    ensures k < s.queue.history.popped && k !in s.finished ==> InOneHand(s, k)
  {
    ReachableInv(s);
    if k < s.queue.history.popped && k !in s.finished {
      PoppedTicket(s, k);
    }
  }

  lemma NobodyHolds(s: Pool, t: nat)
    requires Shape(s) && t in s.members && MemberOk(s, t) && forall w :: w in s.workers ==> s.members[w].op.Exited?
    ensures !HoldsAny(s.members[t], s.queue.threads[t])
    ensures forall k: nat :: !HoldsTicket(s, t, k)
  {}

  lemma PoppedHasRun(s: Pool, k: nat)
    requires Shape(s) && MembersOk(s) && TicketsOk(s) && forall w :: w in s.workers ==> s.members[w].op.Exited?
    requires k < s.queue.history.popped
    ensures k in s.finished
  {
    assert Accounted(s, k);
    if k !in s.finished {
      var t :| HoldsTicket(s, t, k);
      NobodyHolds(s, t);
    }
  }

  lemma DrainedWhenExited(s: Pool)
    requires Q.Contents(s.queue) && Shape(s) && MembersOk(s) && TicketsOk(s)
    requires s.workers != {} && forall w :: w in s.workers ==> s.members[w].op.Exited?
    ensures s.queue.closed && s.queue.items == [] && Holders(s) == {}
    ensures forall k: nat :: k in s.finished <==> k < |s.queue.history.pushed|
  {
    var w :| w in s.workers;
    assert MemberOk(s, w);
    forall t | t in s.members
      ensures !HoldsAny(s.members[t], s.queue.threads[t])
    {
      NobodyHolds(s, t);
    }
    assert s.queue.history.popped == |s.queue.history.pushed|;
    forall k: nat | k < s.queue.history.popped {
      PoppedHasRun(s, k);
    }
  }

  lemma {:induction false} WorkersStay(s: Pool, trace: seq<Event>, s': Pool)
    requires Inv(s) && Runs(s, trace, s')
    ensures s'.workers == s.workers
    decreases |trace|
  {
    if trace != [] {
      StepKeeps(s, trace[0]);
      WorkersStay(Step(s, trace[0]), trace[1..], s');
    }
  }

  lemma ReachableHasWorkers(s: Pool)
    requires Reachable(s)
    ensures s.workers != {}
  {
    var capacity: nat, workers: set<nat>, callers: set<nat>, trace: seq<Event> :|
      capacity > 0 && workers != {} && workers !! callers && Runs(Init(capacity, workers, callers), trace, s);
    InitInv(capacity, workers, callers);
    WorkersStay(Init(capacity, workers, callers), trace, s);
  }

  /**
   When any external `shutdown` has returned, every worker has exited, the queue is closed and empty,
   and every task ever accepted has run, exactly once; only submissions in flight, all bound to be
   refused, still count as submitted and not completed.
   */
  lemma ShutdownDrains(s: Pool, t: nat)
    requires Reachable(s) && t in s.members && t !in s.workers && s.members[t].op.ShutdownReturned?
    ensures Shape(s) && forall w :: w in s.workers ==> s.members[w].op.Exited?
    ensures s.queue.closed && s.queue.items == []
    ensures forall k: nat :: k in s.finished <==> k < |s.queue.history.pushed|
    ensures s.completed == |s.finished| && s.submitted == s.completed + |Submitters(s)|
  {
    ReachableInv(s);
    ReachableHasWorkers(s);
    assert MemberOk(s, t);
    DrainedWhenExited(s);
  }

  /** In particular a submission that was answered true has run by then. */
  lemma AcceptedTaskHasRun(s: Pool, t: nat, u: nat)
    requires Reachable(s) && t in s.members && t !in s.workers && s.members[t].op.ShutdownReturned?
    requires u in s.members && s.members[u].op.SubmitReturned? && s.members[u].op.ok
    ensures s.members[u].op.ticket in s.finished
    ensures s.members[u].op.ticket < |s.queue.history.pushed| && s.queue.history.pushed[s.members[u].op.ticket] == s.members[u].op.task
  {
    ShutdownDrains(s, t);
    ReachableInv(s);
    assert MemberOk(s, u);
  }

  /** A worker may shut the pool down from inside a task: it never waits to join itself. */
  lemma WorkersNeverJoin(s: Pool, w: nat)
    requires Reachable(s) && w in s.workers
    ensures w in s.members && !s.members[w].op.ShutdownLock? && !s.members[w].op.ShutdownJoin?
  {
    ReachableInv(s);
    assert MemberOk(s, w);
  }
}
