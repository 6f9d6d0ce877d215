/** Every step of the pool keeps its invariant; the queue underneath sees only steps of its own. */
module PoolInvariant {
  import opened Common
  import Q = QueueProtocol
  import QI = QueueInvariant
  import opened PoolProtocol

  // ------------------------------------------------------- the queue's share

  /** What a pool step does to the queue, as one of the queue's own steps. */
  function QueueEvent(s: Pool, e: Event): Option<Q.Event<Task>>
    requires e.thread in s.members
  {
    var t, m := e.thread, s.members[e.thread];
    match e.action
    case InQueue(a) => Some(Q.Event(t, a))
    case Advance =>
      (match m.op
       case Idle => Some(Q.Event(t, Q.BeginPop))
       case SubmitCount(task) => Some(Q.Event(t, Q.BeginPush(task)))
       case SubmitPush(_) => Some(Q.Event(t, Q.Leave))
       case ShutdownSet => if s.shuttingDown then None else Some(Q.Event(t, Q.BeginClose))
       case ShutdownClose => Some(Q.Event(t, Q.Leave))
       case WorkerPop => Some(Q.Event(t, Q.Leave))
       case _ => None)
    case _ => None
  }

  /** Every run of the pool is, on its queue, a run of the queue. */
  lemma PoolStepIsQueueStep(s: Pool, e: Event)
    requires Shape(s) && Enabled(s, e) && MemberOk(s, e.thread)
    ensures var s' := Step(s, e);
            match QueueEvent(s, e)
            case None => s'.queue == s.queue
            case Some(qe) => Q.Enabled(s.queue, qe) && s'.queue == Q.Step(s.queue, qe)
  {}

  lemma StepQueue(s: Pool, e: Event)
    requires Q.Inv(s.queue) && Shape(s) && Enabled(s, e) && MemberOk(s, e.thread)
    ensures Q.Inv(Step(s, e).queue) && QI.Grows(s.queue, Step(s, e).queue)
  {
    PoolStepIsQueueStep(s, e);
    if QueueEvent(s, e).Some? {
      QI.StepKeeps(s.queue, QueueEvent(s, e).value);
    }
  }

  /** The pool's own instructions move one thread and neither the items nor the tasks run. */
  lemma AdvanceFrame(s: Pool, t: nat)
    requires Shape(s) && t in s.members && CanAdvance(s, t)
    ensures var s' := AdvanceStep(s, t);
            && Shape(s') && s'.members.Keys == s.members.Keys && s'.workers == s.workers && s'.joinable == s.joinable
            && s'.finished == s.finished && s'.completed == s.completed
            && s'.queue.items == s.queue.items && s'.queue.history.popped == s.queue.history.popped
  {
    if Crosses(s, t) {
      CrossingFrame(s, t);
    }
  }

  /** The next instruction enters or leaves a queue operation. */
  predicate Crosses(s: Pool, t: nat)
    requires t in s.members
  {
    QueueEvent(s, Event(t, Advance)).Some?
  }

  lemma CrossingFrame(s: Pool, t: nat)
    requires Shape(s) && t in s.members && CanAdvance(s, t) && Crosses(s, t)
    ensures var s' := AdvanceStep(s, t);
            && Shape(s') && s'.members.Keys == s.members.Keys && s'.workers == s.workers && s'.joinable == s.joinable
            && s'.finished == s.finished && s'.completed == s.completed
            && s'.queue.items == s.queue.items && s'.queue.history.popped == s.queue.history.popped
  {}

  lemma AdvanceBystander(s: Pool, t: nat, u: nat)
    requires Shape(s) && t in s.members && CanAdvance(s, t) && u in s.members && u != t
    ensures var s' := AdvanceStep(s, t);
            u in s'.members && s'.members[u] == s.members[u] && u in s'.queue.threads && s'.queue.threads[u] == s.queue.threads[u]
  {}

  /** Other threads stay where they are, except that sleepers may be woken. */
  lemma Bystander(s: Pool, e: Event, u: nat)
    requires Shape(s) && Enabled(s, e) && MemberOk(s, e.thread) && u in s.members && u != e.thread
    ensures var s' := Step(s, e);
            && Shape(s') && u in s'.members && s'.members[u] == s.members[u]
            && (s'.queue.threads[u] == s.queue.threads[u] || s'.queue.threads[u] == Q.Wake(s.queue.threads[u]))
  {
    StepShape(s, e);
    if e.action.InQueue? {
      QI.StepOtherThreads(s.queue, Q.Event(e.thread, e.action.action), u);
    } else if e.action.Advance? {
      AdvanceBystander(s, e.thread, u);
    }
  }

  lemma StepShape(s: Pool, e: Event)
    requires Shape(s) && Enabled(s, e) && MemberOk(s, e.thread)
    ensures var s' := Step(s, e); Shape(s') && s'.members.Keys == s.members.Keys && s'.workers == s.workers
  {
    if e.action.InQueue? {
      QI.StepKeys(s.queue, Q.Event(e.thread, e.action.action));
    } else if e.action.Advance? {
      AdvanceFrame(s, e.thread);
    }
  }

  // ------------------------------------------------------------- every thread

  /** The parts of the pool a bystander's condition depends on only move one way. */
  ghost predicate Onward(s: Pool, s': Pool) {
    && s'.workers == s.workers && s'.joinable <= s.joinable && (s.shuttingDown ==> s'.shuttingDown)
    && QI.Grows(s.queue, s'.queue)
  }

  lemma MemberStays(s: Pool, s': Pool, u: nat)
    requires Shape(s) && Shape(s') && Onward(s, s') && u in s.members && u in s'.members && MemberOk(s, u)
    requires s'.members[u] == s.members[u]
    requires s'.queue.threads[u] == s.queue.threads[u] || s'.queue.threads[u] == Q.Wake(s.queue.threads[u])
    ensures MemberOk(s', u)
  {}

  lemma StepFlags(s: Pool, e: Event)
    requires Enabled(s, e)
    ensures var s' := Step(s, e);
            s'.workers == s.workers && s'.joinable <= s.joinable && (s.shuttingDown ==> s'.shuttingDown)
  {}

  lemma StepOnward(s: Pool, e: Event)
    requires Q.Inv(s.queue) && Shape(s) && Enabled(s, e) && MemberOk(s, e.thread)
    ensures Onward(s, Step(s, e))
  {
    StepFlags(s, e);
    StepQueue(s, e);
  }

  lemma BystanderOk(s: Pool, e: Event, u: nat)
    requires Q.Inv(s.queue) && Shape(s) && Enabled(s, e) && MemberOk(s, e.thread) && u in s.members && u != e.thread && MemberOk(s, u)
    ensures Shape(Step(s, e)) && u in Step(s, e).members && MemberOk(Step(s, e), u)
  {
    StepOnward(s, e);
    Bystander(s, e, u);
    MemberStays(s, Step(s, e), u);
  }

  /** The moving thread, when it takes a step inside the queue. */
  lemma QueueMoverOk(s: Pool, e: Event)
    requires Q.Contents(s.queue) && Shape(s) && Enabled(s, e) && MemberOk(s, e.thread) && e.action.InQueue?
    requires Q.ThreadOk(s.queue, e.thread)
    ensures Shape(Step(s, e)) && MemberOk(Step(s, e), e.thread)
  {
    StepShape(s, e);
    QueueMoverLinked(s.queue, s.members[e.thread].op, Q.Event(e.thread, e.action.action));
    QI.StepContents(s.queue, Q.Event(e.thread, e.action.action));
  }

  /** Steps inside an operation stay inside it, and a finished push knows its ticket. */
  lemma QueueMoverLinked(q: Q.Queue<Task>, op: Op, qe: Q.Event<Task>)
    requires Q.Enabled(q, qe) && Linked(op, q.threads[qe.thread]) && Q.ThreadOk(q, qe.thread)
    requires op.SubmitPush? || op.ShutdownClose? || op.WorkerPop?
    requires qe.action.Enter? || qe.action.Notify? || qe.action.NotifyAll? || qe.action.WakeSpuriously?
    ensures var q' := Q.Step(q, qe);
            && qe.thread in q'.threads && Linked(op, q'.threads[qe.thread])
            && (op.SubmitPush? && q'.threads[qe.thread].PushDone? && q'.threads[qe.thread].ok ==>
                  q'.threads[qe.thread].ticket < |q'.history.pushed|
                  && q'.history.pushed[q'.threads[qe.thread].ticket] == op.task)
  {}

  /** The moving thread, when it enters a queue operation. */
  lemma EntererOk(s: Pool, t: nat)
    requires Shape(s) && t in s.members && CanAdvance(s, t) && MemberOk(s, t)
    requires s.members[t].op.Idle? || s.members[t].op.SubmitCount? || (s.members[t].op.ShutdownSet? && !s.shuttingDown)
    ensures Shape(AdvanceStep(s, t)) && MemberOk(AdvanceStep(s, t), t)
  {
    AdvanceFrame(s, t);
  }

  /** The moving thread, when it leaves a queue operation. */
  lemma LeaverOk(s: Pool, t: nat)
    requires Shape(s) && JoinsOk(s) && t in s.members && CanAdvance(s, t) && MemberOk(s, t) && Q.ThreadOk(s.queue, t)
    requires s.members[t].op.SubmitPush? || s.members[t].op.ShutdownClose? || s.members[t].op.WorkerPop?
    ensures Shape(AdvanceStep(s, t)) && MemberOk(AdvanceStep(s, t), t)
  {
    AdvanceFrame(s, t);
  }

  lemma ViaMoverOk(s: Pool, e: Event)
    requires Shape(s) && JoinsOk(s) && Enabled(s, e) && MemberOk(s, e.thread)
    requires e.action.Advance? && QueueEvent(s, e).Some? && Q.ThreadOk(s.queue, e.thread)
    ensures Shape(Step(s, e)) && MemberOk(Step(s, e), e.thread)
  {
    var op := s.members[e.thread].op;
    if op.Idle? || op.SubmitCount? || op.ShutdownSet? {
      EntererOk(s, e.thread);
    } else {
      LeaverOk(s, e.thread);
    }
  }

  /** The moving thread, when it executes the pool's own code. */
  lemma PoolMoverOk(s: Pool, e: Event)
    requires Shape(s) && JoinsOk(s) && Enabled(s, e) && MemberOk(s, e.thread) && QueueEvent(s, e).None?
    ensures Shape(Step(s, e)) && MemberOk(Step(s, e), e.thread)
  {
    if e.action.Advance? {
      OwnCodeOk(s, e.thread);
    } else {
      StarterOk(s, e);
    }
  }

  lemma OwnCodeOk(s: Pool, t: nat)
    requires Shape(s) && JoinsOk(s) && t in s.members && CanAdvance(s, t) && MemberOk(s, t)
    requires !Crosses(s, t)
    ensures Shape(AdvanceStep(s, t)) && MemberOk(AdvanceStep(s, t), t)
  {
    var op := s.members[t].op;
    if op.SubmitCheck? || op.SubmitUndo? {
      SubmitterOk(s, t);
    } else {
      AdvanceFrame(s, t);
    }
  }

  lemma SubmitterOk(s: Pool, t: nat)
    requires Shape(s) && t in s.members && CanAdvance(s, t) && MemberOk(s, t)
    requires s.members[t].op.SubmitCheck? || s.members[t].op.SubmitUndo?
    ensures Shape(AdvanceStep(s, t)) && MemberOk(AdvanceStep(s, t), t)
  {}

  lemma StarterOk(s: Pool, e: Event)
    requires Shape(s) && JoinsOk(s) && Enabled(s, e) && MemberOk(s, e.thread) && !e.action.Advance? && !e.action.InQueue?
    ensures Shape(Step(s, e)) && MemberOk(Step(s, e), e.thread)
  {}

  lemma StepMembers(s: Pool, e: Event)
    requires Inv(s) && Enabled(s, e)
    ensures Shape(Step(s, e)) && MembersOk(Step(s, e))
  {
    var s' := Step(s, e);
    assert MemberOk(s, e.thread) && Q.ThreadOk(s.queue, e.thread);
    StepShape(s, e);
    forall u | u in s'.members
      ensures MemberOk(s', u)
    {
      if u != e.thread {
        BystanderOk(s, e, u);
      } else if e.action.InQueue? {
        QueueMoverOk(s, e);
      } else if QueueEvent(s, e).Some? {
        ViaMoverOk(s, e);
      } else {
        PoolMoverOk(s, e);
      }
    }
  }

  // ------------------------------------------------------------------- tickets

  lemma BystanderHolds(s: Pool, e: Event, u: nat, k: nat)
    requires Shape(s) && Enabled(s, e) && MemberOk(s, e.thread) && u != e.thread
    ensures Shape(Step(s, e)) && (HoldsTicket(Step(s, e), u, k) <==> HoldsTicket(s, u, k))
  {
    StepShape(s, e);
    if u in s.members {
      Bystander(s, e, u);
    }
  }

  /** The step in which a popping thread takes the front item. */
  predicate Takes(s: Pool, e: Event)
    requires e.thread in s.members && e.thread in s.queue.threads
  {
    e.action.InQueue? && QI.Takes(s.queue, Q.Event(e.thread, e.action.action))
  }

  lemma StepCounters(s: Pool, e: Event)
    requires Shape(s) && Enabled(s, e)
    ensures var s' := Step(s, e);
            && s'.queue.history.popped == s.queue.history.popped + (if Takes(s, e) then 1 else 0)
            && s'.finished == (if e.action.Finish? then s.finished + {s.members[e.thread].running.value} else s.finished)
  {
    if e.action.InQueue? {
      QI.StepCounts(s.queue, Q.Event(e.thread, e.action.action));
    } else if e.action.Advance? {
      AdvanceFrame(s, e.thread);
    }
  }

  lemma TakerHolds(s: Pool, e: Event, k: nat)
    requires Shape(s) && Enabled(s, e) && MemberOk(s, e.thread) && Takes(s, e)
    ensures Shape(Step(s, e)) && !HoldsTicket(s, e.thread, k)
    ensures HoldsTicket(Step(s, e), e.thread, k) <==> k == s.queue.history.popped
  {
    StepShape(s, e);
  }

  lemma FinisherHolds(s: Pool, e: Event, k: nat)
    requires Shape(s) && Enabled(s, e) && MemberOk(s, e.thread) && e.action.Finish?
    ensures Shape(Step(s, e)) && !HoldsTicket(Step(s, e), e.thread, k)
    ensures HoldsTicket(s, e.thread, k) <==> s.members[e.thread].running == Some(k)
  {
    StepShape(s, e);
  }

  /** The pool's own instructions only move a task from the queue operation into the running slot. */
  lemma AdvanceHolds(s: Pool, t: nat, k: nat)
    requires Shape(s) && t in s.members && CanAdvance(s, t) && MemberOk(s, t)
    ensures var s' := AdvanceStep(s, t);
            && t in s'.members && t in s'.queue.threads
            && (Holds(s'.members[t], s'.queue.threads[t], k) <==> Holds(s.members[t], s.queue.threads[t], k))
            && (HoldsAny(s'.members[t], s'.queue.threads[t]) <==> HoldsAny(s.members[t], s.queue.threads[t]))
  {}

  lemma QueueHolds(q: Q.Queue<Task>, qe: Q.Event<Task>, m: Member, k: nat)
    requires Q.Enabled(q, qe) && Linked(m.op, q.threads[qe.thread])
    requires m.op.SubmitPush? || m.op.ShutdownClose? || m.op.WorkerPop?
    requires qe.action.Enter? || qe.action.Notify? || qe.action.NotifyAll? || qe.action.WakeSpuriously?
    ensures var th := q.threads[qe.thread];
            var takes := qe.action.Enter? && q.items != [] && (th.PopEnter? || th.PopWoken?);
            var q' := Q.Step(q, qe);
            && qe.thread in q'.threads
            && (!takes ==> (Holds(m, q'.threads[qe.thread], k) <==> Holds(m, th, k)))
            && (HoldsAny(m, q'.threads[qe.thread]) <==> takes || HoldsAny(m, th))
            && (takes ==> !th.PopNotify? && !th.PopDone?)
  {}

  lemma OtherHolds(s: Pool, e: Event, k: nat)
    requires Shape(s) && Enabled(s, e) && MemberOk(s, e.thread) && !e.action.Finish? && !Takes(s, e)
    ensures Shape(Step(s, e)) && (HoldsTicket(Step(s, e), e.thread, k) <==> HoldsTicket(s, e.thread, k))
  {
    StepShape(s, e);
    if e.action.InQueue? {
      QueueHolds(s.queue, Q.Event(e.thread, e.action.action), s.members[e.thread], k);
    } else if e.action.Advance? {
      AdvanceHolds(s, e.thread, k);
    }
  }

  /** The moving thread's hands: filled when it takes, emptied when it finishes, else unchanged. */
  lemma MoverHolds(s: Pool, e: Event, k: nat)
    requires Shape(s) && Enabled(s, e) && MemberOk(s, e.thread)
    ensures var s' := Step(s, e);
            && Shape(s')
            && s'.queue.history.popped == s.queue.history.popped + (if Takes(s, e) then 1 else 0)
            && s'.finished == (if e.action.Finish? then s.finished + {s.members[e.thread].running.value} else s.finished)
            && (HoldsTicket(s', e.thread, k) <==>
                  if Takes(s, e) then k == s.queue.history.popped
                  else HoldsTicket(s, e.thread, k) && !e.action.Finish?)
            && (Takes(s, e) ==> !HoldsTicket(s, e.thread, k))
            && (e.action.Finish? ==> (HoldsTicket(s, e.thread, k) <==> s.members[e.thread].running == Some(k)))
  {
    StepCounters(s, e);
    if Takes(s, e) {
      TakerHolds(s, e, k);
    } else if e.action.Finish? {
      FinisherHolds(s, e, k);
    } else {
      OtherHolds(s, e, k);
    }
  }

  lemma StepTickets(s: Pool, e: Event)
    requires Shape(s) && TicketsOk(s) && Enabled(s, e) && MemberOk(s, e.thread)
    ensures Shape(Step(s, e)) && TicketsOk(Step(s, e))
  {
    var s', t := Step(s, e), e.thread;
    StepShape(s, e);
    forall k: nat | k < s'.queue.history.popped
      ensures Accounted(s', k)
    {
      MoverHolds(s, e, k);
      if k < s.queue.history.popped && k !in s.finished {
        assert Accounted(s, k);
        var u :| HoldsTicket(s, u, k);
        if u != t {
          BystanderHolds(s, e, u, k);
        }
        assert k in s'.finished || HoldsTicket(s', u, k);
      } else if k !in s.finished {
        assert HoldsTicket(s', t, k);
      }
    }
    forall k: nat | k in s'.finished
      ensures k < s'.queue.history.popped
    {
      MoverHolds(s, e, k);
    }
    forall u, k: nat | HoldsTicket(s', u, k)
      ensures k !in s'.finished && k < s'.queue.history.popped
    {
      MoverHolds(s, e, k);
      if u != t {
        BystanderHolds(s, e, u, k);
      }
    }
    forall u, v, k: nat | HoldsTicket(s', u, k) && HoldsTicket(s', v, k)
      ensures u == v
    {
      MoverHolds(s, e, k);
      if u != t {
        BystanderHolds(s, e, u, k);
      }
      if v != t {
        BystanderHolds(s, e, v, k);
      }
    }
  }

  // --------------------------------------------------------------------- joins

  lemma StepJoins(s: Pool, e: Event)
    requires Shape(s) && JoinsOk(s) && Enabled(s, e) && MemberOk(s, e.thread)
    ensures Shape(Step(s, e)) && JoinsOk(Step(s, e))
  {
    StepShape(s, e);
    StepFlags(s, e);
    var s' := Step(s, e);
    forall w | w in s'.workers && w !in s'.joinable
      ensures s'.members[w].op.Exited?
    {
      if w != e.thread {
        Bystander(s, e, w);
      }
    }
    if s.joinHolder.Some? && s.joinHolder.value != e.thread {
      Bystander(s, e, s.joinHolder.value);
    }
  }

  // ------------------------------------------------------------------- counting

  lemma StepHolders(s: Pool, e: Event)
    requires Shape(s) && Enabled(s, e) && MemberOk(s, e.thread)
    ensures Shape(Step(s, e))
    ensures var d := if Takes(s, e) then 1 else if e.action.Finish? then -1 else 0;
            |Holders(Step(s, e))| == |Holders(s)| + d
  {
    var s', t := Step(s, e), e.thread;
    StepShape(s, e);
    forall u | u != t
      ensures u in Holders(s) <==> u in Holders(s')
    {
      if u in s.members {
        Bystander(s, e, u);
      }
    }
    Q.SizeExcept(Holders(s), Holders(s'), t);
    MoverHolder(s, e);
  }

  lemma MoverHolder(s: Pool, e: Event)
    requires Shape(s) && Enabled(s, e) && MemberOk(s, e.thread)
    ensures Shape(Step(s, e))
    ensures var t := e.thread;
            && (Takes(s, e) ==> t !in Holders(s) && t in Holders(Step(s, e)))
            && (e.action.Finish? ==> t in Holders(s) && t !in Holders(Step(s, e)))
            && (!Takes(s, e) && !e.action.Finish? ==> (t in Holders(s) <==> t in Holders(Step(s, e))))
  {
    StepShape(s, e);
    if e.action.InQueue? {
      QueueHolds(s.queue, Q.Event(e.thread, e.action.action), s.members[e.thread], 0);
    } else if e.action.Advance? {
      AdvanceHolds(s, e.thread, 0);
    }
  }

  /** The step in which a submission's item enters the queue. */
  predicate Puts(s: Pool, e: Event)
    requires e.thread in s.members && e.thread in s.queue.threads
  {
    && e.action.InQueue? && e.action.action.Enter? && !s.queue.closed && |s.queue.items| < s.queue.capacity
    && (s.queue.threads[e.thread].PushEnter? || s.queue.threads[e.thread].PushWoken?)
  }

  lemma StepSubmitters(s: Pool, e: Event)
    requires Shape(s) && Enabled(s, e) && MemberOk(s, e.thread)
    ensures Shape(Step(s, e))
    ensures var counted := Step(s, e).submitted - s.submitted;
            |Submitters(Step(s, e))| == |Submitters(s)| + counted - (if Puts(s, e) then 1 else 0)
  {
    var s', t := Step(s, e), e.thread;
    StepShape(s, e);
    forall u | u != t
      ensures u in Submitters(s) <==> u in Submitters(s')
    {
      if u in s.members {
        Bystander(s, e, u);
      }
    }
    Q.SizeExcept(Submitters(s), Submitters(s'), t);
    MoverSubmitter(s, e);
  }

  lemma AdvanceSubmitter(s: Pool, t: nat)
    requires Shape(s) && t in s.members && CanAdvance(s, t) && MemberOk(s, t)
    ensures var s' := AdvanceStep(s, t);
            && t in s'.members && t in s'.queue.threads
            && (if InFlight(s'.members[t], s'.queue.threads[t]) then 1 else 0)
               == (if InFlight(s.members[t], s.queue.threads[t]) then 1 else 0) + s'.submitted - s.submitted
  {}

  lemma QueueSubmitter(q: Q.Queue<Task>, qe: Q.Event<Task>, m: Member)
    requires Q.Enabled(q, qe) && Linked(m.op, q.threads[qe.thread])
    requires m.op.SubmitPush? || m.op.ShutdownClose? || m.op.WorkerPop?
    requires qe.action.Enter? || qe.action.Notify? || qe.action.NotifyAll? || qe.action.WakeSpuriously?
    ensures var th, q' := q.threads[qe.thread], Q.Step(q, qe);
            var puts := qe.action.Enter? && !q.closed && |q.items| < q.capacity && (th.PushEnter? || th.PushWoken?);
            && qe.thread in q'.threads
            && (InFlight(m, q'.threads[qe.thread]) <==> InFlight(m, th) && !puts)
            && (puts ==> InFlight(m, th))
  {}

  lemma MoverSubmitter(s: Pool, e: Event)
    requires Shape(s) && Enabled(s, e) && MemberOk(s, e.thread)
    ensures Shape(Step(s, e))
    ensures var t, s' := e.thread, Step(s, e);
            (if t in Submitters(s') then 1 else 0) - (if t in Submitters(s) then 1 else 0)
            == (s'.submitted - s.submitted) - (if Puts(s, e) then 1 else 0)
  {
    StepShape(s, e);
    if e.action.InQueue? {
      QueueSubmitter(s.queue, Q.Event(e.thread, e.action.action), s.members[e.thread]);
    } else if e.action.Advance? {
      AdvanceSubmitter(s, e.thread);
    }
  }

  lemma StepItems(s: Pool, e: Event)
    requires Shape(s) && Enabled(s, e) && MemberOk(s, e.thread)
    ensures |Step(s, e).queue.items| == |s.queue.items| + (if Puts(s, e) then 1 else 0) - (if Takes(s, e) then 1 else 0)
  {
    if e.action.InQueue? {
      QI.StepCounts(s.queue, Q.Event(e.thread, e.action.action));
    } else if e.action.Advance? {
      AdvanceFrame(s, e.thread);
    }
  }

  /** A task that finishes had not finished before. */
  lemma StepCompleted(s: Pool, e: Event)
    requires Shape(s) && TicketsOk(s) && Enabled(s, e) && MemberOk(s, e.thread)
    ensures var s', d := Step(s, e), if e.action.Finish? then 1 else 0;
            s'.completed == s.completed + d && |s'.finished| == |s.finished| + d
  {
    if e.action.Finish? {
      assert HoldsTicket(s, e.thread, s.members[e.thread].running.value);
    } else if e.action.Advance? {
      AdvanceFrame(s, e.thread);
    }
  }

  lemma StepBalance(s: Pool, e: Event)
    requires Shape(s) && TicketsOk(s) && Balanced(s) && Enabled(s, e) && MemberOk(s, e.thread)
    ensures Shape(Step(s, e)) && Balanced(Step(s, e))
  {
    StepHolders(s, e);
    StepSubmitters(s, e);
    StepItems(s, e);
    StepCompleted(s, e);
  }

  // ------------------------------------------------------------------ every step

  lemma StepKeeps(s: Pool, e: Event)
    requires Inv(s) && Enabled(s, e)
    ensures Inv(Step(s, e)) && Onward(s, Step(s, e))
  {
    assert MemberOk(s, e.thread);
    StepOnward(s, e);
    StepQueue(s, e);
    StepMembers(s, e);
    StepTickets(s, e);
    StepJoins(s, e);
    StepBalance(s, e);
  }
}
