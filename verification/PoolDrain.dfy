/**
 Shutdown terminates.  In every reachable state each step of the pool's own code brings a
 measure down, but for spurious wake-ups, which raise it by one at most; and once shutdown has
 been called, as long as a worker has not exited or a call has not returned, some such step can
 be taken that is not a spurious wake-up: nobody's progress waits for luck.  Only calls that
 tasks or callers newly start are not counted.
 */
module PoolDrain {
  import opened Common
  import Q = QueueProtocol
  import QI = QueueInvariant
  import opened PoolProtocol
  import opened PoolInvariant
  import opened PoolTheorems

  /** A step of the pool or of a running task's end, as opposed to a newly started call. */
  predicate Internal(e: Event) {
    !e.action.StartSubmit? && !e.action.StartShutdown?
  }

  ghost predicate AllInternal(trace: seq<Event>) {
    trace == [] || (Internal(trace[0]) && AllInternal(trace[1..]))
  }

  // ------------------------------------------------------------------- measure

  /** Steps a thread still has ahead of it inside the queue operation it is in, and after it. */
  function CallRank(op: Op, th: Q.Thread<Task>): nat {
    match op
    case SubmitCheck(_) => 9
    case SubmitCount(_) => 8
    case SubmitPush(_) => (if th.PushSleep? then 7 else if th.PushEnter? || th.PushWoken? then 6 else if th.PushNotify? then 5 else 4)
    case SubmitUndo(_) => 3
    case ShutdownSet => 10
    case ShutdownClose =>
      (if th.CloseEnter? then 9 else if th.CloseNotifyPops? then 8 else if th.CloseNotifyPushes? then 7 else 6)
    case ShutdownSelf => 5
    case ShutdownLock => 4
    case ShutdownJoin => 3
    case WorkerPop =>
      (if th.PopSleep? then 4 else if th.PopEnter? || th.PopWoken? then 3 else if th.PopNotify? then 9
       else if th.PopDone? && th.result.Some? then 8 else 2)
    case _ => 0
  }

  function Rank(m: Member, th: Q.Thread<Task>, worker: bool): nat {
    if m.op.Exited? then 0
    else CallRank(m.op, th) + (if m.running.Some? then 7 else if worker && m.op.Idle? then 5 else 0)
  }

  /** The same while the queue is open, where a sleeper has less ahead of it than one who is awake. */
  function OpenCallRank(op: Op, th: Q.Thread<Task>): nat {
    match op
    case SubmitCheck(_) => 17
    case SubmitCount(_) => 16
    case SubmitPush(_) => (if th.PushSleep? then 14 else if th.PushEnter? || th.PushWoken? then 15 else if th.PushNotify? then 4 else 2)
    case SubmitUndo(_) => 1
    case WorkerPop =>
      (if th.PopSleep? then 1 else if th.PopEnter? || th.PopWoken? then 2 else if th.PopNotify? then 7 else 5)
    case _ => CallRank(op, th)
  }

  function OpenRank(m: Member, th: Q.Thread<Task>, worker: bool): nat {
    if m.op.Exited? then 0
    else OpenCallRank(m.op, th) + (if m.running.Some? then 4 else if worker && m.op.Idle? then 3 else 0)
  }

  /** Closing the queue takes every thread from an open rank to a closed one, which is always lower. */
  function RankAt(s: Pool, t: nat): nat {
    if t in s.members && t in s.queue.threads then
      var m, th, worker := s.members[t], s.queue.threads[t], t in s.workers;
      if s.queue.closed then Rank(m, th, worker) else 20 + OpenRank(m, th, worker)
    else 0
  }

  ghost function Total(s: Pool, ids: set<nat>): nat
    decreases |ids|
  {
    if ids == {} then 0
    else
      var t :| t in ids;
      RankAt(s, t) + Total(s, ids - {t})
  }

  lemma {:induction false} TotalExtract(s: Pool, ids: set<nat>, t: nat)
    requires t in ids
    ensures Total(s, ids) == RankAt(s, t) + Total(s, ids - {t})
    decreases |ids|
  {
    var x :| x in ids && Total(s, ids) == RankAt(s, x) + Total(s, ids - {x});
    if x != t {
      TotalExtract(s, ids - {x}, t);
      TotalExtract(s, ids - {t}, x);
      assert ids - {x} - {t} == ids - {t} - {x};
    }
  }

  lemma {:induction false} TotalAtMost(s: Pool, s': Pool, ids: set<nat>)
    requires forall u :: u in ids ==> RankAt(s', u) <= RankAt(s, u)
    ensures Total(s', ids) <= Total(s, ids)
    decreases |ids|
  {
    if ids != {} {
      var t :| t in ids;
      TotalExtract(s, ids, t);
      TotalExtract(s', ids, t);
      TotalAtMost(s, s', ids - {t});
    }
  }

  /** One rank may rise by one. */
  lemma TotalBump(s: Pool, s': Pool, ids: set<nat>, u: nat)
    requires u in ids && RankAt(s', u) <= RankAt(s, u) + 1 && forall v :: v in ids && v != u ==> RankAt(s', v) <= RankAt(s, v)
    ensures Total(s', ids) <= Total(s, ids) + 1
  {
    TotalExtract(s, ids, u);
    TotalExtract(s', ids, u);
    TotalAtMost(s, s', ids - {u});
  }

  /** How much the pool still has to do. */
  ghost function Measure(s: Pool): nat {
    10 * |s.queue.items| + |s.joinable| + Total(s, s.members.Keys)
  }

  predicate Spurious(e: Event) { e.action.InQueue? && e.action.action.WakeSpuriously? }

  /** The step in which a sleeper other than the mover is woken on an open queue. */
  predicate Wakes(s: Pool, e: Event) {
    !s.queue.closed && e.action.InQueue? && e.action.action.Notify? && e.action.action.woken.Some?
  }

  // ------------------------------------------------------------ the mover's rank

  /** What the mover's rank may gain: an item taken is worth ten, an item put costs as much, waking costs one. */
  function Gain(s: Pool, e: Event): int
    requires e.thread in s.members && e.thread in s.queue.threads
  {
    (if Takes(s, e) then 10 else 0) - (if Puts(s, e) then 10 else 0) - (if Wakes(s, e) then 1 else 0)
    + (if Spurious(e) && !s.queue.closed then 2 else 0)
  }

  lemma AdvanceClosed(s: Pool, t: nat)
    requires Shape(s) && t in s.members && CanAdvance(s, t)
    ensures AdvanceStep(s, t).queue.closed == s.queue.closed
  {}

  lemma AdvanceRankFalls(s: Pool, t: nat)
    requires Shape(s) && t in s.members && CanAdvance(s, t) && MemberOk(s, t)
    ensures RankAt(AdvanceStep(s, t), t) < RankAt(s, t)
  {
    AdvanceClosed(s, t);
    var op := s.members[t].op;
    if op.Idle? || op.WorkerPop? {
      WorkerRankFalls(s, t);
    } else if op.SubmitPush? || op.ShutdownClose? {
      LeavingRankFalls(s, t);
    } else {
      OwnRankFalls(s, t);
    }
  }

  lemma WorkerRankFalls(s: Pool, t: nat)
    requires Shape(s) && t in s.members && CanAdvance(s, t) && MemberOk(s, t)
    requires s.members[t].op.Idle? || s.members[t].op.WorkerPop?
    ensures RankAt(AdvanceStep(s, t), t) < RankAt(s, t)
  {}

  lemma LeavingRankFalls(s: Pool, t: nat)
    requires Shape(s) && t in s.members && CanAdvance(s, t) && MemberOk(s, t)
    requires s.members[t].op.SubmitPush? || s.members[t].op.ShutdownClose?
    ensures RankAt(AdvanceStep(s, t), t) < RankAt(s, t)
  {}

  lemma OwnRankFalls(s: Pool, t: nat)
    requires Shape(s) && t in s.members && CanAdvance(s, t)
    requires var op := s.members[t].op; !op.Idle? && !op.WorkerPop? && !op.SubmitPush? && !op.ShutdownClose?
    ensures RankAt(AdvanceStep(s, t), t) < RankAt(s, t)
  {
    var op := s.members[t].op;
    if op.SubmitCheck? || op.SubmitCount? || op.SubmitUndo? {
      SubmitterRankFalls(s, t);
    }
  }

  lemma SubmitterRankFalls(s: Pool, t: nat)
    requires Shape(s) && t in s.members && CanAdvance(s, t)
    requires s.members[t].op.SubmitCheck? || s.members[t].op.SubmitCount? || s.members[t].op.SubmitUndo?
    ensures RankAt(AdvanceStep(s, t), t) < RankAt(s, t)
  {}

  /** A step inside the queue, on the values it concerns. */
  lemma QueueRankFalls(q: Q.Queue<Task>, qe: Q.Event<Task>, m: Member, worker: bool)
    requires Q.Enabled(q, qe) && Linked(m.op, q.threads[qe.thread]) && Q.ThreadOk(q, qe.thread)
    requires m.op.SubmitPush? || m.op.ShutdownClose? || m.op.WorkerPop?
    requires qe.action.Enter? || qe.action.Notify? || qe.action.NotifyAll? || qe.action.WakeSpuriously?
    ensures var th, q' := q.threads[qe.thread], Q.Step(q, qe);
            var takes := qe.action.Enter? && q.items != [] && (th.PopEnter? || th.PopWoken?);
            var puts := qe.action.Enter? && !q.closed && |q.items| < q.capacity && (th.PushEnter? || th.PushWoken?);
            && qe.thread in q'.threads
            && var th' := q'.threads[qe.thread];
               if q.closed then
                 q'.closed && Rank(m, th', worker) < Rank(m, th, worker) + (if takes then 10 else 0)
               else if q'.closed then !takes && !puts && Rank(m, th', worker) < 20
               else OpenRank(m, th', worker) < OpenRank(m, th, worker) + (if takes then 10 else 0) - (if puts then 10 else 0)
                    - (if qe.action.Notify? then 1 else 0) + (if qe.action.WakeSpuriously? then 2 else 0)
  {}

  lemma MoverRankFalls(s: Pool, e: Event)
    requires Shape(s) && Enabled(s, e) && MemberOk(s, e.thread) && Q.ThreadOk(s.queue, e.thread) && Internal(e) && !e.action.JoinWorker?
    ensures RankAt(Step(s, e), e.thread) < RankAt(s, e.thread) + Gain(s, e)
  {
    StepShape(s, e);
    if e.action.Advance? {
      AdvanceRankFalls(s, e.thread);
    } else if e.action.InQueue? {
      QueueRankFalls(s.queue, Q.Event(e.thread, e.action.action), s.members[e.thread], e.thread in s.workers);
    }
  }

  // ---------------------------------------------------------- the others' ranks

  lemma WokenRank(m: Member, th: Q.Thread<Task>, worker: bool)
    ensures Rank(m, Q.Wake(th), worker) <= Rank(m, th, worker)
    ensures OpenRank(m, Q.Wake(th), worker) <= OpenRank(m, th, worker) + 1
    ensures Rank(m, th, worker) < 20
  {}

  lemma StaysClosed(s: Pool, e: Event)
    requires Shape(s) && Enabled(s, e)
    ensures s.queue.closed ==> Step(s, e).queue.closed
  {
    if e.action.Advance? {
      AdvanceClosed(s, e.thread);
    }
  }

  /** On a queue that stays open only a notification moves another thread. */
  lemma OpenBystander(s: Pool, e: Event, u: nat)
    requires Shape(s) && Enabled(s, e) && MemberOk(s, e.thread) && Q.ThreadOk(s.queue, e.thread)
    requires u in s.members && u != e.thread && !Step(s, e).queue.closed && !(Wakes(s, e) && e.action.action.woken == Some(u))
    ensures u in Step(s, e).queue.threads && Step(s, e).queue.threads[u] == s.queue.threads[u]
  {
    if e.action.Advance? {
      AdvanceBystander(s, e.thread, u);
    } else if e.action.InQueue? {
      QuietBystander(s.queue, Q.Event(e.thread, e.action.action), u);
    }
  }

  lemma QuietBystander(q: Q.Queue<Task>, qe: Q.Event<Task>, u: nat)
    requires Q.Enabled(q, qe) && Q.ThreadOk(q, qe.thread) && u in q.threads && u != qe.thread && !Q.Step(q, qe).closed
    requires qe.action.Notify? ==> qe.action.woken != Some(u)
    ensures u in Q.Step(q, qe).threads && Q.Step(q, qe).threads[u] == q.threads[u]
  {}

  lemma BystanderRank(s: Pool, e: Event, u: nat)
    requires Shape(s) && Enabled(s, e) && MemberOk(s, e.thread) && Q.ThreadOk(s.queue, e.thread) && u in s.members && u != e.thread
    ensures RankAt(Step(s, e), u) <= RankAt(s, u) + (if Wakes(s, e) && e.action.action.woken == Some(u) then 1 else 0)
  {
    StepShape(s, e);
    StaysClosed(s, e);
    Bystander(s, e, u);
    WokenRank(s.members[u], s.queue.threads[u], u in s.workers);
    if !Step(s, e).queue.closed && !(Wakes(s, e) && e.action.action.woken == Some(u)) {
      OpenBystander(s, e, u);
    }
  }

  lemma StepTotal(s: Pool, e: Event, s': Pool)
    requires Shape(s) && Enabled(s, e) && MemberOk(s, e.thread) && Q.ThreadOk(s.queue, e.thread) && s' == Step(s, e)
    ensures s'.members.Keys == s.members.Keys
    ensures Total(s', s.members.Keys) - RankAt(s', e.thread)
            <= Total(s, s.members.Keys) - RankAt(s, e.thread) + (if Wakes(s, e) then 1 else 0)
  {
    var t, ids := e.thread, s.members.Keys;
    StepShape(s, e);
    forall u | u in ids - {t}
      ensures RankAt(s', u) <= RankAt(s, u) + (if Wakes(s, e) && e.action.action.woken == Some(u) then 1 else 0)
    {
      BystanderRank(s, e, u);
    }
    TotalExtract(s, ids, t);
    TotalExtract(s', ids, t);
    if Wakes(s, e) && e.action.action.woken.value in ids - {t} {
      TotalBump(s, s', ids - {t}, e.action.action.woken.value);
    } else {
      TotalAtMost(s, s', ids - {t});
    }
  }

  lemma JoinRank(s: Pool, e: Event)
    requires Enabled(s, e) && e.action.JoinWorker?
    ensures RankAt(Step(s, e), e.thread) == RankAt(s, e.thread) && |Step(s, e).joinable| == |s.joinable| - 1
  {}

  lemma OtherJoinable(s: Pool, e: Event)
    requires Enabled(s, e) && !e.action.JoinWorker?
    ensures Step(s, e).joinable == s.joinable
  {}

  /** Every internal step brings the measure down, but for a spurious wake-up on an open queue. */
  lemma StepDecreases(s: Pool, e: Event)
    requires Shape(s) && MembersOk(s) && Q.ThreadsOk(s.queue) && Enabled(s, e) && Internal(e)
    ensures Measure(Step(s, e)) < Measure(s) + (if Spurious(e) then 2 else 0)
  {
    assert MemberOk(s, e.thread) && Q.ThreadOk(s.queue, e.thread);
    StepTotal(s, e, Step(s, e));
    StepItems(s, e);
    if e.action.JoinWorker? {
      JoinRank(s, e);
    } else {
      OtherJoinable(s, e);
      MoverRankFalls(s, e);
    }
  }

  function SpuriousIn(trace: seq<Event>): nat {
    if trace == [] then 0 else (if Spurious(trace[0]) then 1 else 0) + SpuriousIn(trace[1..])
  }

  // ------------------------------------------------------- shutdown under way

  /** Some thread is about to close the queue. */
  predicate Closer(s: Pool, t: nat) {
    t in s.members && t in s.queue.threads && s.members[t].op.ShutdownClose? && s.queue.threads[t].CloseEnter?
  }

  /** Who sets the flag goes on to close the queue. */
  ghost predicate ClosingOk(s: Pool) {
    s.shuttingDown ==> s.queue.closed || exists t :: Closer(s, t)
  }

  predicate Asks(s: Pool, t: nat) { t in s.members && s.members[t].op.ShutdownSet? }

  /** Shutdown was called: the flag is set, or a caller is about to set it. */
  ghost predicate Called(s: Pool) {
    s.shuttingDown || exists t :: Asks(s, t)
  }

  lemma CloserMoves(s: Pool, e: Event)
    requires Shape(s) && Enabled(s, e) && MemberOk(s, e.thread)
    ensures Closer(s, e.thread) ==> Step(s, e).queue.closed || Closer(Step(s, e), e.thread)
    ensures Step(s, e).shuttingDown && !s.shuttingDown ==> Closer(Step(s, e), e.thread)
    ensures Asks(s, e.thread) ==> Step(s, e).shuttingDown
  {
    if e.action.Advance? {
      AdvanceCloser(s, e.thread);
    }
  }

  lemma AdvanceCloser(s: Pool, t: nat)
    requires Shape(s) && t in s.members && CanAdvance(s, t)
    ensures var s' := AdvanceStep(s, t);
            && !Closer(s, t)
            && (s'.shuttingDown && !s.shuttingDown ==> Closer(s', t))
            && (Asks(s, t) ==> s'.shuttingDown)
  {}

  lemma StepClosing(s: Pool, e: Event)
    requires Shape(s) && Enabled(s, e) && MemberOk(s, e.thread) && ClosingOk(s)
    ensures ClosingOk(Step(s, e)) && (Called(s) ==> Called(Step(s, e)))
  {
    var s' := Step(s, e);
    StaysClosed(s, e);
    StepFlags(s, e);
    CloserMoves(s, e);
    if s.shuttingDown && !s.queue.closed {
      var t :| Closer(s, t);
      if t != e.thread {
        Bystander(s, e, t);
      }
      assert s'.queue.closed || Closer(s', t);
    }
    if Called(s) && !s.shuttingDown {
      var t :| Asks(s, t);
      if t != e.thread {
        Bystander(s, e, t);
        assert Asks(s', t);
      }
    }
  }

  lemma DrainStep(s: Pool, trace: seq<Event>, s': Pool) returns (next: Pool)
    requires Inv(s) && ClosingOk(s) && trace != [] && Internal(trace[0]) && Runs(s, trace, s')
    ensures Inv(next) && ClosingOk(next) && (Called(s) ==> Called(next)) && Runs(next, trace[1..], s')
    ensures Measure(next) < Measure(s) + (if Spurious(trace[0]) then 2 else 0)
  {
    assert MemberOk(s, trace[0].thread);
    StepKeeps(s, trace[0]);
    StepClosing(s, trace[0]);
    StepDecreases(s, trace[0]);
    next := Step(s, trace[0]);
  }

  /** No run of internal steps is longer than the measure it starts with and two for each spurious wake-up. */
  lemma {:induction false} DrainIsBounded(s: Pool, trace: seq<Event>, s': Pool)
    requires Inv(s) && ClosingOk(s) && Runs(s, trace, s') && AllInternal(trace)
    ensures Inv(s') && ClosingOk(s') && (Called(s) ==> Called(s'))
    ensures |trace| + Measure(s') <= Measure(s) + 2 * SpuriousIn(trace)
    decreases |trace|
  {
    if trace != [] {
      var next := DrainStep(s, trace, s');
      DrainIsBounded(next, trace[1..], s');
    }
  }

  // ------------------------------------------------------------------ progress

  /** The thread has a step of its own to take; that a sleeper may wake up spuriously is none. */
  ghost predicate CanMove(s: Pool, t: nat) {
    exists a :: Enabled(s, Event(t, a)) && Internal(Event(t, a)) && !Spurious(Event(t, a))
  }

  lemma Moves(s: Pool, t: nat, a: Action)
    requires Enabled(s, Event(t, a)) && Internal(Event(t, a)) && !Spurious(Event(t, a))
    ensures CanMove(s, t)
  {}

  /** A thread inside a queue operation, not asleep, can move. */
  lemma AwakeMoves(s: Pool, t: nat)
    requires Shape(s) && t in s.members && MemberOk(s, t)
    requires s.members[t].op.SubmitPush? || s.members[t].op.ShutdownClose? || s.members[t].op.WorkerPop?
    requires !s.queue.threads[t].PushSleep? && !s.queue.threads[t].PopSleep?
    ensures CanMove(s, t)
  {
    var th := s.queue.threads[t];
    if Q.Entering(th) {
      Moves(s, t, InQueue(Q.Enter));
    } else if th.PushNotify? || th.PopNotify? {
      var woken := SomeSleeper(s, th.PushNotify?);
      Moves(s, t, InQueue(Q.Notify(woken)));
    } else if th.CloseNotifyPops? || th.CloseNotifyPushes? {
      Moves(s, t, InQueue(Q.NotifyAll));
    } else {
      Moves(s, t, Advance);
    }
  }

  lemma SomeSleeper(s: Pool, pops: bool) returns (woken: Option<nat>)
    ensures Q.Wakes(s.queue.threads, pops, woken)
  {
    if u :| u in s.queue.threads && (if pops then s.queue.threads[u].PopSleep? else s.queue.threads[u].PushSleep?) {
      woken := Some(u);
    } else {
      woken := None;
    }
  }

  /** Nobody asleep can move by itself. */
  lemma SleeperCannotMove(s: Pool, t: nat)
    requires Shape(s) && t in s.members && MemberOk(s, t) && (s.queue.threads[t].PushSleep? || s.queue.threads[t].PopSleep?)
    ensures !CanMove(s, t)
  {}

  /** On a closed queue a sleeper has a closing thread that can move. */
  lemma SleeperIsReleased(s: Pool, t: nat) returns (u: nat)
    requires Inv(s) && s.queue.closed && t in s.members && (s.queue.threads[t].PushSleep? || s.queue.threads[t].PopSleep?)
    ensures CanMove(s, u)
  {
    u := Releaser(s.queue, t);
    assert MemberOk(s, u);
    AwakeMoves(s, u);
  }

  lemma Releaser(q: Q.Queue<Task>, t: nat) returns (u: nat)
    requires Q.Inv(q) && q.closed && t in q.threads && (q.threads[t].PushSleep? || q.threads[t].PopSleep?)
    ensures u in q.threads && (q.threads[u].CloseNotifyPops? || q.threads[u].CloseNotifyPushes?)
  {
    QI.TallyHas(q, t);
    var n := q.history.tally;
    u := Q.CountWitness(q.threads, if n.releasingPops > 0 then Q.ReleasingPops else Q.ReleasingPushes);
  }

  /** As long as a worker has not exited, somebody can move without a spurious wake-up. */
  lemma WorkerMoves(s: Pool, w: nat) returns (u: nat)
    requires Inv(s) && s.queue.closed && w in s.workers && !s.members[w].op.Exited?
    ensures CanMove(s, u)
  {
    assert MemberOk(s, w);
    var m := s.members[w];
    u := w;
    if m.op.SubmitPush? || m.op.ShutdownClose? || m.op.WorkerPop? {
      if s.queue.threads[w].PushSleep? || s.queue.threads[w].PopSleep? {
        u := SleeperIsReleased(s, w);
      } else {
        AwakeMoves(s, w);
      }
    } else if Between(m.op) && m.running.Some? {
      Moves(s, w, Finish);
    } else if Between(m.op) {
      IdleWorkerMoves(s, w);
    } else {
      Moves(s, w, Advance);
    }
  }

  /** Between operations and without a task a worker is at its loop head. */
  lemma IdleWorkerMoves(s: Pool, w: nat)
    requires Shape(s) && w in s.workers && MemberOk(s, w) && Between(s.members[w].op) && s.members[w].running.None?
    ensures CanMove(s, w)
  {
    Moves(s, w, Advance);
  }

  /** A caller inside a queue operation can move, or whoever will wake it can. */
  lemma QueueCallerMoves(s: Pool, t: nat) returns (u: nat)
    requires Inv(s) && s.queue.closed && t in s.members && (s.members[t].op.SubmitPush? || s.members[t].op.ShutdownClose?)
    ensures CanMove(s, u)
  {
    assert MemberOk(s, t);
    u := t;
    if s.queue.threads[t].PushSleep? {
      u := SleeperIsReleased(s, t);
    } else {
      AwakeMoves(s, t);
    }
  }

  /** As long as a call has not returned, somebody can move without a spurious wake-up. */
  lemma CallerMoves(s: Pool, t: nat) returns (u: nat)
    requires Inv(s) && s.queue.closed && t in s.members && t !in s.workers && !Between(s.members[t].op)
    ensures CanMove(s, u)
  {
    var op := s.members[t].op;
    u := t;
    if op.SubmitPush? || op.ShutdownClose? {
      u := QueueCallerMoves(s, t);
    } else if op.ShutdownLock? && s.joinHolder.Some? {
      u := JoinerMoves(s, s.joinHolder.value);
    } else if op.ShutdownJoin? {
      u := JoinerMoves(s, t);
    } else {
      assert MemberOk(s, t);
      Moves(s, t, Advance);
    }
  }

  /** The holder of the join mutex can go on, or waits for a worker for whom somebody can move. */
  lemma JoinerMoves(s: Pool, h: nat) returns (u: nat)
    requires Inv(s) && s.queue.closed && h in s.members && s.members[h].op.ShutdownJoin?
    ensures CanMove(s, u)
  {
    u := h;
    if s.joinable == {} {
      Moves(s, h, Advance);
    } else {
      var w :| w in s.joinable;
      if s.members[w].op.Exited? {
        Moves(s, h, JoinWorker(w));
      } else {
        u := WorkerMoves(s, w);
      }
    }
  }

  ghost predicate AtRest(s: Pool) {
    forall t :: t in s.members ==> if t in s.workers then s.members[t].op.Exited? else Between(s.members[t].op)
  }

  /** At rest nothing is left over: every accepted task has run and the counters agree. */
  lemma RestIsComplete(s: Pool)
    requires Q.Contents(s.queue) && Shape(s) && MembersOk(s) && TicketsOk(s) && Balanced(s) && s.workers != {} && AtRest(s)
    ensures s.queue.items == [] && s.completed == s.submitted
    ensures forall k: nat :: k in s.finished <==> k < |s.queue.history.pushed|
  {
    DrainedWhenExited(s);
    NobodySubmits(s);
  }

  lemma NobodySubmits(s: Pool)
    requires Shape(s) && AtRest(s)
    ensures Submitters(s) == {}
  {}

  lemma {:induction false} ClosingRun(s: Pool, trace: seq<Event>, s': Pool)
    requires Inv(s) && ClosingOk(s) && Runs(s, trace, s')
    ensures ClosingOk(s')
    decreases |trace|
  {
    if trace != [] {
      assert MemberOk(s, trace[0].thread);
      StepClosing(s, trace[0]);
      StepKeeps(s, trace[0]);
      ClosingRun(Step(s, trace[0]), trace[1..], s');
    }
  }

  lemma ReachableClosing(s: Pool)
    requires Reachable(s)
    ensures ClosingOk(s)
  {
    var capacity: nat, workers: set<nat>, callers: set<nat>, trace: seq<Event> :|
      capacity > 0 && workers != {} && workers !! callers && Runs(Init(capacity, workers, callers), trace, s);
    InitInv(capacity, workers, callers);
    ClosingRun(Init(capacity, workers, callers), trace, s);
  }

  /** Where nobody can move after shutdown was called, the queue is closed. */
  lemma StuckIsClosed(s: Pool)
    requires Shape(s) && ClosingOk(s) && Called(s) && forall u :: !CanMove(s, u)
    ensures s.queue.closed
  {
    if t :| Asks(s, t) {
      Moves(s, t, Advance);
    } else if !s.queue.closed {
      var t :| Closer(s, t);
      Moves(s, t, InQueue(Q.Enter));
    }
  }

  /**
   Shutdown cannot hang.  From any reachable state in which shutdown has been called, for any number
   of threads and any scheduling: internal steps can go on only a bounded number of times, spurious
   wake-ups apart; and where no step but a spurious wake-up is possible, nobody is asleep either:
   every worker has exited, every call to submit and shutdown has returned, every accepted task has
   run and the two counters agree.
   */
  lemma ShutdownTerminates(s: Pool, trace: seq<Event>, s': Pool)
    requires Reachable(s) && Called(s)
    requires Runs(s, trace, s') && AllInternal(trace)
    ensures |trace| + Measure(s') <= Measure(s) + 2 * SpuriousIn(trace)
    ensures (forall u :: !CanMove(s', u)) ==>
      AtRest(s') && s'.completed == s'.submitted
      && forall k: nat :: k in s'.finished <==> k < |s'.queue.history.pushed|
  {
    ReachableInv(s);
    ReachableClosing(s);
    DrainIsBounded(s, trace, s');
    if forall u :: !CanMove(s', u) {
      ReachableHasWorkers(s);
      WorkersStay(s, trace, s');
      StuckIsClosed(s');
      StuckIsAtRest(s');
      RestIsComplete(s');
    }
  }

  lemma StuckIsAtRest(s: Pool)
    requires Inv(s) && s.queue.closed && forall u :: !CanMove(s, u)
    ensures AtRest(s)
  {
    forall t | t in s.members
      ensures if t in s.workers then s.members[t].op.Exited? else Between(s.members[t].op)
    {
      if t in s.workers && !s.members[t].op.Exited? {
        var u := WorkerMoves(s, t);
      } else if t !in s.workers && !Between(s.members[t].op) {
        var u := CallerMoves(s, t);
      }
    }
  }
}
