/**
 `ThreadPool` on top of the blocking queue, as an interleaved transition system: any
 number of submitting and shutting-down threads, worker threads that run tasks, and
 tasks that themselves submit or shut down.
 */
module PoolProtocol {
  import opened Common
  import Q = QueueProtocol

  /** A task object; an empty `std::function` is refused. */
  datatype Task = NoTask | Task(id: nat)

  /** Where a thread stands in the pool's own code. */
  datatype Op =
    | Idle                       // a caller's or a task's own code; for a worker without task, the loop head
    | SubmitCheck(task: Task)    // load shutting_down_
    | SubmitCount(task: Task)    // fetch_add submitted_
    | SubmitPush(task: Task)     // in tasks_.push
    | SubmitUndo(task: Task)     // fetch_sub submitted_
    | SubmitReturned(ok: bool, ticket: nat, task: Task)
    | ShutdownSet                // compare-exchange shutting_down_
    | ShutdownClose              // in tasks_.close
    | ShutdownSelf               // is this a worker of the pool?
    | ShutdownLock               // wants join_mutex_
    | ShutdownJoin               // joining the workers
    | ShutdownReturned
    | WorkerPop                  // in tasks_.pop
    | Exited

  /** A thread: its point in the pool, and the ticket of the task it is running, if any. */
  datatype Member = Member(op: Op, running: Option<nat>)

  datatype Pool = Pool(
    queue: Q.Queue<Task>,
    members: map<nat, Member>,
    workers: set<nat>,
    shuttingDown: bool,
    submitted: int,
    completed: int,
    joinHolder: Option<nat>,
    joinable: set<nat>,          // workers_ not yet joined
    finished: set<nat>)          // auxiliary: tickets of the tasks that ran

  function Init(capacity: nat, workers: set<nat>, callers: set<nat>): Pool {
    Pool(Q.Init(capacity, workers + callers), map t | t in workers + callers :: Member(Idle, None), workers,
         false, 0, 0, None, workers, {})
  }

  datatype Action =
    | StartSubmit(task: Task)
    | StartShutdown
    | Finish                            // the task returned or threw; fetch_add completed_
    | Advance                           // the pool's next instruction
    | JoinWorker(worker: nat)
    | InQueue(action: Q.Action<Task>)   // a step inside tasks_

  datatype Event = Event(thread: nat, action: Action)

  predicate Between(op: Op) { op.Idle? || op.SubmitReturned? || op.ShutdownReturned? }

  /** The thread executes code that is not the pool's: a caller, or a worker inside a task. */
  predicate OwnCode(s: Pool, t: nat)
    requires t in s.members
  {
    Between(s.members[t].op) && (t in s.workers ==> s.members[t].running.Some?)
  }

  /** The pool's next instruction can execute. */
  predicate CanAdvance(s: Pool, t: nat)
    requires t in s.members && t in s.queue.threads
  {
    var m, th := s.members[t], s.queue.threads[t];
    match m.op
    case Idle => t in s.workers && m.running.None?
    case SubmitPush(_) => th.PushDone?
    case ShutdownClose => th.CloseDone?
    case ShutdownLock => s.joinHolder.None?
    case ShutdownJoin => s.joinable == {}
    case WorkerPop => th.PopDone?
    case SubmitReturned(_, _, _) => false
    case ShutdownReturned => false
    case Exited => false
    case _ => true
  }

  ghost predicate Enabled(s: Pool, e: Event) {
    && e.thread in s.members && e.thread in s.queue.threads
    && var t, m := e.thread, s.members[e.thread];
       match e.action
       case StartSubmit(_) => OwnCode(s, t)
       case StartShutdown => OwnCode(s, t)
       case Finish => t in s.workers && m.running.Some? && Between(m.op)
       case Advance => CanAdvance(s, t)
       case JoinWorker(w) => m.op.ShutdownJoin? && w in s.joinable && w in s.members && s.members[w].op.Exited?
       case InQueue(a) =>
         && (m.op.SubmitPush? || m.op.ShutdownClose? || m.op.WorkerPop?)
         && (a.Enter? || a.Notify? || a.NotifyAll? || a.WakeSpuriously?)
         && Q.Enabled(s.queue, Q.Event(t, a))
  }

  function At(s: Pool, t: nat, op: Op): Pool
    requires t in s.members
  {
    s.(members := s.members[t := s.members[t].(op := op)])
  }

  /** Leave a queue operation. */
  function Out(s: Pool, t: nat, op: Op): Pool
    requires t in s.members && t in s.queue.threads
  {
    At(s.(queue := Q.Return(s.queue, t)), t, op)
  }

  /** Enter a queue operation. */
  function Via(s: Pool, t: nat, th: Q.Thread<Task>, op: Op): Pool
    requires t in s.members && t in s.queue.threads
  {
    At(s.(queue := Q.Goto(s.queue, t, th)), t, op)
  }

  function AdvanceStep(s: Pool, t: nat): Pool
    requires t in s.members && t in s.queue.threads && CanAdvance(s, t)
  {
    var m, th := s.members[t], s.queue.threads[t];
    match m.op
    case Idle => Via(s, t, Q.PopEnter, WorkerPop)
    case SubmitCheck(task) =>
      At(s, t, if task.NoTask? || s.shuttingDown then SubmitReturned(false, 0, task) else SubmitCount(task))
    case SubmitCount(task) => Via(s.(submitted := s.submitted + 1), t, Q.PushEnter(task), SubmitPush(task))
    case SubmitPush(task) => Out(s, t, if th.ok then SubmitReturned(true, th.ticket, task) else SubmitUndo(task))
    case SubmitUndo(task) => At(s.(submitted := s.submitted - 1), t, SubmitReturned(false, 0, task))
    case ShutdownSet =>
      if s.shuttingDown then At(s, t, ShutdownSelf)
      else Via(s.(shuttingDown := true), t, Q.CloseEnter, ShutdownClose)
    case ShutdownClose => Out(s, t, ShutdownSelf)
    case ShutdownSelf => At(s, t, if t in s.workers then ShutdownReturned else ShutdownLock)
    case ShutdownLock => At(s.(joinHolder := Some(t)), t, ShutdownJoin)
    case ShutdownJoin => At(s.(joinHolder := None), t, ShutdownReturned)
    case WorkerPop =>
      var s1 := Out(s, t, if th.result.Some? then Idle else Exited);
      if th.result.Some? then s1.(members := s1.members[t := Member(Idle, Some(th.ticket))]) else s1
  }

  ghost function Step(s: Pool, e: Event): Pool
    requires Enabled(s, e)
  {
    var t, m := e.thread, s.members[e.thread];
    match e.action
    case StartSubmit(task) => At(s, t, SubmitCheck(task))
    case StartShutdown => At(s, t, ShutdownSet)
    case Finish =>
      s.(completed := s.completed + 1, finished := s.finished + {m.running.value},
         members := s.members[t := Member(Idle, None)])
    case Advance => AdvanceStep(s, t)
    case JoinWorker(w) => s.(joinable := s.joinable - {w})
    case InQueue(a) => s.(queue := Q.Step(s.queue, Q.Event(t, a)))
  }

  ghost predicate Runs(s: Pool, trace: seq<Event>, s': Pool)
    decreases |trace|
  {
    if trace == [] then s == s'
    else Enabled(s, trace[0]) && Runs(Step(s, trace[0]), trace[1..], s')
  }

  /** A state some interleaving reaches on a pool with at least one worker. */
  ghost predicate Reachable(s: Pool) {
    exists capacity: nat, workers: set<nat>, callers: set<nat>, trace: seq<Event> ::
      capacity > 0 && workers != {} && workers !! callers && Runs(Init(capacity, workers, callers), trace, s)
  }

  // --------------------------------------------------------------- invariant

  /** A thread is inside exactly the queue operation its point in the pool says. */
  predicate Linked(op: Op, th: Q.Thread<Task>) {
    match op
    case SubmitPush(task) =>
      th == Q.PushEnter(task) || th == Q.PushSleep(task) || th == Q.PushWoken(task) || th.PushDone?
      || (th.PushNotify? && th.value == task)
    case WorkerPop => th.PopEnter? || th.PopSleep? || th.PopWoken? || th.PopNotify? || th.PopDone?
    case ShutdownClose => th.CloseEnter? || th.CloseNotifyPops? || th.CloseNotifyPushes? || th.CloseDone?
    case _ => th.Away?
  }

  /** The thread has the task of ticket `k` in its hands. */
  predicate Holds(m: Member, th: Q.Thread<Task>, k: nat) {
    m.running == Some(k) || Q.Carries(th, k)
  }

  predicate HoldsAny(m: Member, th: Q.Thread<Task>) {
    m.running.Some? || th.PopNotify? || (th.PopDone? && th.result.Some?)
  }

  /** The thread has counted a submission that is not, or will never be, in the queue. */
  predicate InFlight(m: Member, th: Q.Thread<Task>) {
    m.op.SubmitUndo? || (m.op.SubmitPush? && !th.PushNotify? && !(th.PushDone? && th.ok))
  }

  predicate Shape(s: Pool) {
    s.members.Keys == s.queue.threads.Keys && s.workers <= s.members.Keys && s.joinable <= s.workers
  }

  /** Only a real task is ever on its way to the queue, and only an empty task or a shutdown gets a refusal. */
  predicate AnswerOk(s: Pool, op: Op) {
    && (op.SubmitCount? || op.SubmitPush? || op.SubmitUndo? || (op.SubmitReturned? && op.ok) ==> op.task.Task?)
    && (op.SubmitUndo? ==> s.shuttingDown)
    && (op.SubmitReturned? && !op.ok ==> op.task.NoTask? || s.shuttingDown)
  }

  ghost predicate MemberOk(s: Pool, t: nat)
    requires Shape(s) && t in s.members
  {
    var m, th, h := s.members[t], s.queue.threads[t], s.queue.history;
    && Linked(m.op, th)
    && (m.running.Some? ==> t in s.workers && m.running.value < h.popped && !m.op.WorkerPop? && !m.op.Exited?)
    && (m.op.WorkerPop? || m.op.Exited? ==> t in s.workers)
    && (m.op.Exited? ==> s.queue.closed && s.queue.items == [])
    && (m.op.SubmitReturned? && m.op.ok ==> m.op.ticket < |h.pushed| && h.pushed[m.op.ticket] == m.op.task)
    && AnswerOk(s, m.op)
    && (m.op.SubmitPush? && th.PushDone? && th.ok ==> th.ticket < |h.pushed| && h.pushed[th.ticket] == m.op.task)
    && (m.op.ShutdownReturned? && t !in s.workers ==> s.joinable == {})
    && (m.op.ShutdownClose? ==> s.shuttingDown)
    && (m.op.ShutdownSelf? || m.op.ShutdownLock? || m.op.ShutdownJoin? || m.op.ShutdownReturned? ==> s.shuttingDown)
    && (m.op.ShutdownLock? || m.op.ShutdownJoin? ==> t !in s.workers)
    && (t in s.workers && !m.op.Idle? && !m.op.WorkerPop? && !m.op.Exited? ==> m.running.Some?)
  }

  ghost predicate MembersOk(s: Pool)
    requires Shape(s)
  {
    forall t :: t in s.members ==> MemberOk(s, t)
  }

  predicate HoldsTicket(s: Pool, t: nat, k: nat)
    requires Shape(s)
  {
    t in s.members && Holds(s.members[t], s.queue.threads[t], k)
  }

  ghost predicate Accounted(s: Pool, k: nat)
    requires Shape(s)
  {
    k in s.finished || exists t :: HoldsTicket(s, t, k)
  }

  /** Every popped ticket has run, or is in exactly one thread's hands; never both. */
  ghost predicate TicketsOk(s: Pool)
    requires Shape(s)
  {
    && (forall k: nat :: k < s.queue.history.popped ==> Accounted(s, k))
    && (forall k: nat :: k in s.finished ==> k < s.queue.history.popped)
    && (forall t, k: nat :: HoldsTicket(s, t, k) ==> k !in s.finished && k < s.queue.history.popped)
    && (forall t, u, k: nat :: HoldsTicket(s, t, k) && HoldsTicket(s, u, k) ==> t == u)
  }

  ghost predicate JoinsOk(s: Pool)
    requires Shape(s)
  {
    && (forall w :: w in s.workers && w !in s.joinable ==> s.members[w].op.Exited?)
    && (s.queue.closed ==> s.shuttingDown)
    && (s.joinHolder.Some? ==> s.joinHolder.value in s.members && s.members[s.joinHolder.value].op.ShutdownJoin?)
  }

  function Holders(s: Pool): set<nat>
    requires Shape(s)
  {
    set t | t in s.members && HoldsAny(s.members[t], s.queue.threads[t])
  }

  function Submitters(s: Pool): set<nat>
    requires Shape(s)
  {
    set t | t in s.members && InFlight(s.members[t], s.queue.threads[t])
  }

  /** submitted = completed + running + queued + in-flight submissions. */
  ghost predicate Balanced(s: Pool)
    requires Shape(s)
  {
    && s.completed == |s.finished|
    && s.submitted == s.completed + |Holders(s)| + |s.queue.items| + |Submitters(s)|
  }

  ghost predicate Inv(s: Pool) {
    && Q.Inv(s.queue) && Shape(s) && MembersOk(s) && TicketsOk(s) && JoinsOk(s) && Balanced(s)
  }
}
