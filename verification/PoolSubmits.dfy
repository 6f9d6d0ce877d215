/** What a submitting thread is told, and that its own steps suffice to be told it. */
module PoolSubmits {
  import opened Common
  import Q = QueueProtocol
  import opened PoolProtocol
  import opened PoolInvariant
  import opened PoolTheorems

  // ------------------------------------------------------ the answer and the question

  /** The task a thread is submitting, or was answered about last. */
  function TaskOf(op: Op): Option<Task> {
    match op
    case SubmitCheck(task) => Some(task)
    case SubmitCount(task) => Some(task)
    case SubmitPush(task) => Some(task)
    case SubmitUndo(task) => Some(task)
    case SubmitReturned(_, _, task) => Some(task)
    case _ => None
  }

  /** The task each thread last asked the pool to run. */
  function Asked(asked: map<nat, Task>, trace: seq<Event>): map<nat, Task>
    decreases |trace|
  {
    if trace == [] then asked
    else
      var e := trace[0];
      Asked(if e.action.StartSubmit? then asked[e.thread := e.action.task] else asked, trace[1..])
  }

  ghost predicate Remembers(s: Pool, asked: map<nat, Task>) {
    forall t :: t in s.members && TaskOf(s.members[t].op).Some? ==>
      t in asked && asked[t] == TaskOf(s.members[t].op).value
  }

  /** The pool's own code never forgets or changes the task. */
  lemma AdvanceRemembers(s: Pool, t: nat)
    requires t in s.members && t in s.queue.threads && CanAdvance(s, t)
    ensures var s' := AdvanceStep(s, t);
            && t in s'.members && s'.members == s.members[t := s'.members[t]]
            && (TaskOf(s'.members[t].op).Some? ==> TaskOf(s'.members[t].op) == TaskOf(s.members[t].op))
  {}

  lemma StepTask(s: Pool, e: Event)
    requires Enabled(s, e)
    ensures var s', t := Step(s, e), e.thread;
            && t in s'.members && s'.members == s.members[t := s'.members[t]]
            && (TaskOf(s'.members[t].op).Some? ==>
                  TaskOf(s'.members[t].op) == if e.action.StartSubmit? then Some(e.action.task) else TaskOf(s.members[t].op))
  {
    if e.action.Advance? {
      AdvanceRemembers(s, e.thread);
    }
  }

  lemma StepRemembers(s: Pool, s': Pool, e: Event, asked: map<nat, Task>)
    requires Enabled(s, e) && s' == Step(s, e) && Remembers(s, asked)
    ensures Remembers(s', if e.action.StartSubmit? then asked[e.thread := e.action.task] else asked)
  {
    StepTask(s, e);
  }

  lemma {:induction false} RunRemembers(s: Pool, trace: seq<Event>, s': Pool, asked: map<nat, Task>)
    requires Runs(s, trace, s') && Remembers(s, asked)
    ensures Remembers(s', Asked(asked, trace))
    decreases |trace|
  {
    if trace != [] {
      var e := trace[0];
      StepRemembers(s, Step(s, e), e, asked);
      RunRemembers(Step(s, e), trace[1..], s', if e.action.StartSubmit? then asked[e.thread := e.action.task] else asked);
    }
  }

  /** In every reachable state, a submit that returned false had an empty task or the pool is shutting down. */
  lemma AnswerIsJustified(s: Pool, t: nat)
    requires Reachable(s) && t in s.members && s.members[t].op.SubmitReturned?
    ensures var op, pushed := s.members[t].op, s.queue.history.pushed;
            if op.ok then op.task.Task? && op.ticket < |pushed| && pushed[op.ticket] == op.task
            else op.task.NoTask? || s.shuttingDown
  {
    ReachableInv(s);
    assert MemberOk(s, t);
  }

  /**
   Whatever the interleaving, a submit that returned answers the task its thread asked for last: true, and
   that very task was not empty and entered the queue under the ticket; or false, and it was empty or the
   pool is shutting down.
   */
  lemma AnswersAreJustified(capacity: nat, workers: set<nat>, callers: set<nat>, trace: seq<Event>, s: Pool, t: nat)
    requires capacity > 0 && workers != {} && workers !! callers && Runs(Init(capacity, workers, callers), trace, s)
    requires t in s.members && s.members[t].op.SubmitReturned?
    ensures t in Asked(map[], trace)
    ensures var op, task, pushed := s.members[t].op, Asked(map[], trace)[t], s.queue.history.pushed;
            if op.ok then task.Task? && op.ticket < |pushed| && pushed[op.ticket] == task
            else task.NoTask? || s.shuttingDown
  {
    RunRemembers(Init(capacity, workers, callers), trace, s, map[]);
    AnswerIsJustified(s, t);
  }

  // --------------------------------------------------------- a submitter's own steps

  predicate OnlyBy(trace: seq<Event>, t: nat) {
    forall i :: 0 <= i < |trace| ==> trace[i].thread == t
  }

  /** The thread's points on the way to an acceptance. */
  function Op(k: nat, ticket: nat, task: Task): PoolProtocol.Op {
    if k == 0 then SubmitCheck(task) else if k == 1 then SubmitCount(task)
    else if k < 5 then SubmitPush(task) else SubmitReturned(true, ticket, task)
  }

  function Point(k: nat, ticket: nat, task: Task): Q.Thread<Task> {
    if k == 2 then Q.PushEnter(task) else if k == 3 then Q.PushNotify(ticket, task)
    else if k == 4 then Q.PushDone(true, ticket) else Q.Away
  }

  /** After `k` steps of its own: counted from the second on, pushed from the third on. */
  ghost predicate Along(s0: Pool, s: Pool, t: nat, task: Task, k: nat)
    requires t in s0.members
  {
    var ticket, added := |s0.queue.history.pushed|, if k < 3 then [] else [task];
    && s.members == s0.members[t := s0.members[t].(op := Op(k, ticket, task))]
    && s.workers == s0.workers && !s.shuttingDown
    && s.submitted == s0.submitted + (if k < 2 then 0 else 1)
    && t in s.queue.threads && s.queue.threads[t] == Point(k, ticket, task)
    && !s.queue.closed && s.queue.capacity == s0.queue.capacity && |s0.queue.items| < s0.queue.capacity
    && s.queue.items == s0.queue.items + added
    && s.queue.history.pushed == s0.queue.history.pushed + added
  }

  /** Each of the thread's points has one way on. */
  lemma OneWayOn(s0: Pool, s: Pool, t: nat, task: Task, k: nat, e: Event)
    requires t in s0.members && Along(s0, s, t, task, k) && task.Task? && k < 5
    requires Enabled(s, e) && e.thread == t
    ensures Along(s0, Step(s, e), t, task, k + 1)
  {}

  lemma SomeSleeper(threads: map<nat, Q.Thread<Task>>) returns (woken: Option<nat>)
    ensures Q.Wakes(threads, true, woken)
  {
    if u :| u in threads && threads[u].PopSleep? {
      woken := Some(u);
    } else {
      woken := None;
    }
  }

  lemma AWayOn(s0: Pool, s: Pool, t: nat, task: Task, k: nat) returns (e: Event)
    requires t in s0.members && Along(s0, s, t, task, k) && task.Task? && k < 5
    ensures Enabled(s, e) && e.thread == t
  {
    if k == 2 {
      e := Event(t, InQueue(Q.Enter));
    } else if k == 3 {
      var woken := SomeSleeper(s.queue.threads);
      e := Event(t, InQueue(Q.Notify(woken)));
    } else {
      e := Event(t, Advance);
    }
  }

  lemma {:induction false} AlongTheWay(s0: Pool, s: Pool, t: nat, task: Task, k: nat, trace: seq<Event>, s': Pool)
    requires t in s0.members && Along(s0, s, t, task, k) && task.Task? && k + |trace| <= 5
    requires Runs(s, trace, s') && OnlyBy(trace, t)
    ensures Along(s0, s', t, task, k + |trace|)
    decreases |trace|
  {
    if trace != [] {
      OneWayOn(s0, s, t, task, k, trace[0]);
      AlongTheWay(s0, Step(s, trace[0]), t, task, k + 1, trace[1..], s');
    }
  }

  lemma {:induction false} TheWay(s0: Pool, s: Pool, t: nat, task: Task, k: nat) returns (trace: seq<Event>, s': Pool)
    requires t in s0.members && Along(s0, s, t, task, k) && task.Task? && k <= 5
    ensures Runs(s, trace, s') && OnlyBy(trace, t) && |trace| == 5 - k
    decreases 5 - k
  {
    trace, s' := [], s;
    if k < 5 {
      var e := AWayOn(s0, s, t, task, k);
      OneWayOn(s0, s, t, task, k, e);
      var rest, end := TheWay(s0, Step(s, e), t, task, k + 1);
      trace, s' := [e] + rest, end;
      assert trace[1..] == rest;
    }
  }

  /** The pool runs, its queue has room, and the thread is about to submit a task that is not empty. */
  ghost predicate Welcome(s: Pool, t: nat, task: Task) {
    && Reachable(s) && t in s.members && OwnCode(s, t) && task.Task?
    && !s.shuttingDown && |s.queue.items| < s.queue.capacity
  }

  lemma QueueIsOpen(s: Pool, t: nat)
    requires Reachable(s) && t in s.members && OwnCode(s, t)
    ensures t in s.queue.threads && s.queue.threads[t].Away? && (s.queue.closed ==> s.shuttingDown)
  {
    ReachableInv(s);
    assert MemberOk(s, t);
  }

  lemma StartOn(s: Pool, t: nat, task: Task)
    requires t in s.members && OwnCode(s, t) && task.Task? && !s.shuttingDown && |s.queue.items| < s.queue.capacity
    requires t in s.queue.threads && s.queue.threads[t].Away? && !s.queue.closed
    ensures Enabled(s, Event(t, StartSubmit(task))) && Along(s, Step(s, Event(t, StartSubmit(task))), t, task, 0)
  {}

  lemma FirstStep(s: Pool, t: nat, task: Task)
    requires Welcome(s, t, task)
    ensures Enabled(s, Event(t, StartSubmit(task))) && Along(s, Step(s, Event(t, StartSubmit(task))), t, task, 0)
  {
    QueueIsOpen(s, t);
    StartOn(s, t, task);
  }

  /** Its own six steps then lead to an acceptance, whoever its notification wakes; */
  lemma WelcomeIsAccepted(s: Pool, t: nat, task: Task, trace: seq<Event>, s': Pool)
    requires Welcome(s, t, task)
    requires |trace| == 6 && trace[0] == Event(t, StartSubmit(task)) && OnlyBy(trace, t) && Runs(s, trace, s')
    ensures t in s'.members && s'.members[t].op == SubmitReturned(true, |s.queue.history.pushed|, task)
    ensures s'.queue.history.pushed == s.queue.history.pushed + [task] && s'.queue.items == s.queue.items + [task]
    ensures s'.submitted == s.submitted + 1
  {
    FirstStep(s, t, task);
    AlongTheWay(s, Step(s, trace[0]), t, task, 0, trace[1..], s');
  }

  /** and nothing can keep it from taking them. */
  lemma WelcomeCanReturn(s: Pool, t: nat, task: Task) returns (trace: seq<Event>, s': Pool)
    requires Welcome(s, t, task)
    ensures |trace| == 6 && trace[0] == Event(t, StartSubmit(task)) && OnlyBy(trace, t) && Runs(s, trace, s')
    ensures t in s'.members && s'.members[t].op == SubmitReturned(true, |s.queue.history.pushed|, task)
  {
    FirstStep(s, t, task);
    var first := Event(t, StartSubmit(task));
    var rest, end := TheWay(s, Step(s, first), t, task, 0);
    trace, s' := [first] + rest, end;
    assert trace[1..] == rest;
    WelcomeIsAccepted(s, t, task, trace, s');
  }

  lemma RefusedByTheCheck(s: Pool, s1: Pool, t: nat, task: Task, e: Event)
    requires t in s.members && (task.NoTask? || s.shuttingDown) && s1 == At(s, t, SubmitCheck(task))
    requires Enabled(s1, e) && e.thread == t
    ensures Step(s1, e) == s.(members := s.members[t := s.members[t].(op := SubmitReturned(false, 0, task))])
  {
    assert e.action.Advance?;
    assert Step(s1, e) == At(s1, t, SubmitReturned(false, 0, task));
    assert s1.members[t := s1.members[t].(op := SubmitReturned(false, 0, task))]
        == s.members[t := s.members[t].(op := SubmitReturned(false, 0, task))];
  }

  /** An empty task, or any task once the pool is shutting down, is refused in two steps that change nothing else. */
  lemma RefusedAtOnce(s: Pool, t: nat, task: Task, trace: seq<Event>, s': Pool)
    requires Reachable(s) && t in s.members && OwnCode(s, t) && (task.NoTask? || s.shuttingDown)
    requires |trace| == 2 && trace[0] == Event(t, StartSubmit(task)) && OnlyBy(trace, t) && Runs(s, trace, s')
    ensures s' == s.(members := s.members[t := s.members[t].(op := SubmitReturned(false, 0, task))])
  {
    var s1, rest := Step(s, trace[0]), trace[1..];
    assert rest[0] == trace[1] && rest[1..] == [];
    RefusedByTheCheck(s, s1, t, task, rest[0]);
    assert Runs(Step(s1, rest[0]), rest[1..], s');
  }
}
