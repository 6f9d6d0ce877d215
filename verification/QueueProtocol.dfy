/**
 `BlockingQueue` as an interleaved transition system: one mutex, two condition
 variables, any number of pushing, popping and closing threads.  A critical section,
 which the mutex makes indivisible, is one step; going to sleep releases the mutex in
 the same step, and notifications happen after it was released, as steps of their own.
 Sleepers may also wake spuriously.
 */
module QueueProtocol {
  import opened Common

  datatype Thread<T> =
    | Away
    | PushEnter(value: T)  // wants the mutex
    | PushSleep(value: T)  // waits in not_full_
    | PushWoken(value: T)  // notified, wants the mutex back
    | PushNotify(ticket: nat, value: T)  // pushed and unlocked, about to notify not_empty_
    | PushDone(ok: bool, ticket: nat)
    | PopEnter
    | PopSleep             // waits in not_empty_
    | PopWoken
    | PopNotify(ticket: nat, item: T)  // popped and unlocked, about to notify not_full_
    | PopDone(ticket: nat, result: Option<T>)
    | CloseEnter
    | CloseNotifyPops      // closed and unlocked, about to notify_all not_empty_
    | CloseNotifyPushes    // about to notify_all not_full_
    | CloseDone

  // ---------------------------------------------------------------- counting

  datatype Kind = SleepingPush | WokenPush | NotifyingPush | SleepingPop | WokenPop | NotifyingPop
                | ReleasingPops | ReleasingPushes | Other

  function KindOf<T>(th: Thread<T>): Kind {
    match th
    case PushSleep(_) => SleepingPush
    case PushWoken(_) => WokenPush
    case PushNotify(_, _) => NotifyingPush
    case PopSleep => SleepingPop
    case PopWoken => WokenPop
    case PopNotify(_, _) => NotifyingPop
    case CloseNotifyPops => ReleasingPops
    case CloseNotifyPushes => ReleasingPushes
    case _ => Other
  }

  function Members<T>(threads: map<nat, Thread<T>>, k: Kind): set<nat> {
    set t | t in threads && KindOf(threads[t]) == k
  }

  /** How many threads stand where it matters. */
  datatype Tally = Tally(sleepingPush: int, wokenPush: int, notifyingPush: int,
                         sleepingPop: int, wokenPop: int, notifyingPop: int,
                         releasingPops: int, releasingPushes: int)

  function TallyOf<T>(threads: map<nat, Thread<T>>): Tally {
    Tally(|Members(threads, SleepingPush)|, |Members(threads, WokenPush)|, |Members(threads, NotifyingPush)|,
          |Members(threads, SleepingPop)|, |Members(threads, WokenPop)|, |Members(threads, NotifyingPop)|,
          |Members(threads, ReleasingPops)|, |Members(threads, ReleasingPushes)|)
  }

  function Bump(n: Tally, k: Kind, d: int): Tally {
    match k
    case SleepingPush => n.(sleepingPush := n.sleepingPush + d)
    case WokenPush => n.(wokenPush := n.wokenPush + d)
    case NotifyingPush => n.(notifyingPush := n.notifyingPush + d)
    case SleepingPop => n.(sleepingPop := n.sleepingPop + d)
    case WokenPop => n.(wokenPop := n.wokenPop + d)
    case NotifyingPop => n.(notifyingPop := n.notifyingPop + d)
    case ReleasingPops => n.(releasingPops := n.releasingPops + d)
    case ReleasingPushes => n.(releasingPushes := n.releasingPushes + d)
    case Other => n
  }

  // ------------------------------------------------------------------ state

  datatype Queue<T> = Queue(
    capacity: nat,
    items: seq<T>,
    closed: bool,
    threads: map<nat, Thread<T>>,
    history: History<T>)

  /**
   Auxiliary: apart from the tickets that threads carry along, which are auxiliary too, what a step
   does to the rest of the queue does not depend on it.
   */
  datatype History<T> = History(
    pushed: seq<T>,         // every item ever pushed, in order
    popped: nat,            // how many of them were popped
    returned: map<nat, T>,  // what the pops that returned gave their callers, by ticket
    popsReleased: bool,     // some close has notified all of not_empty_
    pushesReleased: bool,   // some close has notified all of not_full_
    tally: Tally)           // how many threads stand where it matters

  function Init<T>(capacity: nat, ids: set<nat>): Queue<T> {
    Queue(capacity, [], false, map t | t in ids :: Away, History([], 0, map[], false, false, Tally(0, 0, 0, 0, 0, 0, 0, 0)))
  }

  datatype Action<T> =
    | BeginPush(value: T)
    | BeginPop
    | BeginClose
    | Enter              // take the mutex and run the critical section
    | Notify(woken: Option<nat>)
    | NotifyAll
    | WakeSpuriously
    | Leave              // return to the caller

  datatype Event<T> = Event(thread: nat, action: Action<T>)

  /** The thread wants the mutex for a critical section. */
  predicate Entering<T>(th: Thread<T>) {
    th.PushEnter? || th.PushWoken? || th.PopEnter? || th.PopWoken? || th.CloseEnter?
  }

  /** `notify_one` wakes some sleeper if there is one, else nobody. */
  ghost predicate Wakes<T>(threads: map<nat, Thread<T>>, pops: bool, woken: Option<nat>) {
    match woken
    case Some(u) => u in threads && (if pops then threads[u].PopSleep? else threads[u].PushSleep?)
    case None => forall u :: u in threads ==> !(if pops then threads[u].PopSleep? else threads[u].PushSleep?)
  }

  ghost predicate Enabled<T>(q: Queue<T>, e: Event<T>) {
    && e.thread in q.threads
    && var th := q.threads[e.thread];
       match e.action
       case BeginPush(_) => th.Away?
       case BeginPop => th.Away?
       case BeginClose => th.Away?
       case Enter => Entering(th)
       case Notify(woken) => (th.PushNotify? || th.PopNotify?) && Wakes(q.threads, th.PushNotify?, woken)
       case NotifyAll => th.CloseNotifyPops? || th.CloseNotifyPushes?
       case WakeSpuriously => th.PushSleep? || th.PopSleep?
       case Leave => th.PushDone? || th.PopDone? || th.CloseDone?
  }

  function Goto<T>(q: Queue<T>, t: nat, th: Thread<T>): Queue<T>
    requires t in q.threads
  {
    q.(threads := q.threads[t := th],
       history := q.history.(tally := Bump(Bump(q.history.tally, KindOf(q.threads[t]), -1), KindOf(th), 1)))
  }

  /** `push` under the mutex: refuse if closed, append if there is room, else sleep. */
  function PushSection<T>(q: Queue<T>, t: nat, value: T): Queue<T>
    requires t in q.threads
  {
    if q.closed then Goto(q, t, PushDone(false, 0))
    else if |q.items| < q.capacity then
      Goto(q.(items := q.items + [value], history := q.history.(pushed := q.history.pushed + [value])), t,
           PushNotify(|q.history.pushed|, value))
    else Goto(q, t, PushSleep(value))
  }

  /** `pop` under the mutex: take the front if there is one, give up if closed, else sleep. */
  function PopSection<T>(q: Queue<T>, t: nat): Queue<T>
    requires t in q.threads
  {
    if q.items != [] then
      Goto(q.(items := q.items[1..], history := q.history.(popped := q.history.popped + 1)), t,
           PopNotify(q.history.popped, q.items[0]))
    else if q.closed then Goto(q, t, PopDone(0, None))
    else Goto(q, t, PopSleep)
  }

  /** The operation returns to its caller, a pop with what it took. */
  function Return<T>(q: Queue<T>, t: nat): Queue<T>
    requires t in q.threads
  {
    var th := q.threads[t];
    var q' := if th.PopDone? && th.result.Some?
              then q.(history := q.history.(returned := q.history.returned[th.ticket := th.result.value])) else q;
    Goto(q', t, Away)
  }

  function Wake<T>(th: Thread<T>): Thread<T> {
    if th.PushSleep? then PushWoken(th.value) else if th.PopSleep? then PopWoken else th
  }

  function WakeOne<T>(q: Queue<T>, woken: Option<nat>): (r: Queue<T>)
    ensures r.threads.Keys == q.threads.Keys
  {
    if woken.Some? && woken.value in q.threads then Goto(q, woken.value, Wake(q.threads[woken.value])) else q
  }

  function Awakened<T>(threads: map<nat, Thread<T>>, pops: bool): map<nat, Thread<T>> {
    map u | u in threads ::
      if (if pops then threads[u].PopSleep? else threads[u].PushSleep?) then Wake(threads[u]) else threads[u]
  }

  function WakeAll<T>(q: Queue<T>, pops: bool): Queue<T> {
    var h, n := q.history, q.history.tally;
    q.(threads := Awakened(q.threads, pops),
       history := if pops then h.(popsReleased := true, tally := n.(sleepingPop := 0, wokenPop := n.wokenPop + n.sleepingPop))
                  else h.(pushesReleased := true, tally := n.(sleepingPush := 0, wokenPush := n.wokenPush + n.sleepingPush)))
  }

  ghost function Step<T>(q: Queue<T>, e: Event<T>): Queue<T>
    requires Enabled(q, e)
  {
    var t, th := e.thread, q.threads[e.thread];
    match e.action
    case BeginPush(value) => Goto(q, t, PushEnter(value))
    case BeginPop => Goto(q, t, PopEnter)
    case BeginClose => Goto(q, t, CloseEnter)
    case Enter =>
      if th.PushEnter? || th.PushWoken? then PushSection(q, t, th.value)
      else if th.PopEnter? || th.PopWoken? then PopSection(q, t)
      else Goto(q.(closed := true), t, CloseNotifyPops)
    case Notify(woken) =>
      Goto(WakeOne(q, woken), t,
           if th.PushNotify? then PushDone(true, th.ticket) else PopDone(th.ticket, Some(th.item)))
    case NotifyAll =>
      if th.CloseNotifyPops? then Goto(WakeAll(q, true), t, CloseNotifyPushes)
      else Goto(WakeAll(q, false), t, CloseDone)
    case WakeSpuriously => Goto(q, t, Wake(th))
    case Leave => Return(q, t)
  }

  // ---------------------------------------------------------- counting is exact

  /** Two sets that agree except on `t` differ in size by what `t` contributes. */
  lemma SizeExcept(a: set<nat>, b: set<nat>, t: nat)
    requires forall u :: u != t ==> (u in a <==> u in b)
    ensures |b| == |a| - (if t in a then 1 else 0) + (if t in b then 1 else 0)
  {
    assert a - {t} == b - {t};
    if t in a {
      assert a == (a - {t}) + {t};
    } else {
      assert a == a - {t};
    }
    if t in b {
      assert b == (b - {t}) + {t};
    } else {
      assert b == b - {t};
    }
  }

  /** One thread moving changes each count by what that thread contributes. */
  lemma CountMove<T>(threads: map<nat, Thread<T>>, t: nat, th: Thread<T>, k: Kind)
    requires t in threads
    ensures |Members(threads[t := th], k)|
            == |Members(threads, k)| - (if KindOf(threads[t]) == k then 1 else 0) + (if KindOf(th) == k then 1 else 0)
  {
    SizeExcept(Members(threads, k), Members(threads[t := th], k), t);
  }

  lemma TallyMove<T>(threads: map<nat, Thread<T>>, t: nat, th: Thread<T>)
    requires t in threads
    ensures TallyOf(threads[t := th]) == Bump(Bump(TallyOf(threads), KindOf(threads[t]), -1), KindOf(th), 1)
  {
    CountMove(threads, t, th, SleepingPush);
    CountMove(threads, t, th, WokenPush);
    CountMove(threads, t, th, NotifyingPush);
    CountMove(threads, t, th, SleepingPop);
    CountMove(threads, t, th, WokenPop);
    CountMove(threads, t, th, NotifyingPop);
    CountMove(threads, t, th, ReleasingPops);
    CountMove(threads, t, th, ReleasingPushes);
  }

  lemma CountPositive<T>(threads: map<nat, Thread<T>>, k: Kind, t: nat)
    requires t in threads && KindOf(threads[t]) == k
    ensures |Members(threads, k)| > 0
  {
    assert t in Members(threads, k);
  }

  lemma CountWitness<T>(threads: map<nat, Thread<T>>, k: Kind) returns (t: nat)
    requires |Members(threads, k)| > 0
    ensures t in threads && KindOf(threads[t]) == k
  {
    t :| t in Members(threads, k);
  }

  // --------------------------------------------------------------- invariant

  ghost predicate Contents<T>(q: Queue<T>) {
    && q.capacity > 0 && |q.items| <= q.capacity
    && q.history.popped <= |q.history.pushed| && q.items == q.history.pushed[q.history.popped..]
  }

  /** A sleeping popper never leaves more items than wakeups already on their way. */
  predicate PopsServed(items: nat, n: Tally) {
    n.sleepingPop > 0 ==> items <= n.wokenPop + n.notifyingPush
  }

  /** While open, a sleeping pusher never leaves more free slots than wakeups already on their way. */
  predicate PushesServed(capacity: nat, items: nat, closed: bool, n: Tally) {
    n.sleepingPush > 0 && !closed ==> capacity - items <= n.wokenPush + n.notifyingPop
  }

  /** Once closed, whoever still sleeps has a close about to wake everybody. */
  predicate Releasing(closed: bool, popsReleased: bool, pushesReleased: bool, n: Tally) {
    && (popsReleased ==> closed && n.sleepingPop == 0)
    && (pushesReleased ==> popsReleased && n.sleepingPush == 0)
    && (closed && !popsReleased ==> n.releasingPops > 0)
    && (closed && !pushesReleased ==> n.releasingPops + n.releasingPushes > 0)
  }

  ghost predicate Served<T>(q: Queue<T>) {
    var n := q.history.tally;
    && PopsServed(|q.items|, n) && PushesServed(q.capacity, |q.items|, q.closed, n)
    && Releasing(q.closed, q.history.popsReleased, q.history.pushesReleased, n)
  }

  ghost predicate ThreadOk<T>(q: Queue<T>, t: nat)
    requires t in q.threads
  {
    var h := q.history;
    match q.threads[t]
    case PopNotify(k, item) => k < h.popped && k < |h.pushed| && h.pushed[k] == item
    case PopDone(k, result) =>
      if result.Some? then k < h.popped && k < |h.pushed| && h.pushed[k] == result.value
      else q.closed && q.items == []
    case PushNotify(k, value) => k < |h.pushed| && h.pushed[k] == value
    case PushDone(ok, k) => if ok then k < |h.pushed| else q.closed
    case CloseNotifyPops => q.closed
    case CloseNotifyPushes => q.closed && h.popsReleased
    case CloseDone => q.closed && h.popsReleased && h.pushesReleased
    case _ => true
  }

  /** The ticket of the item a thread carries out of the queue. */
  predicate Carries<T>(th: Thread<T>, k: nat) {
    (th.PopNotify? && th.ticket == k) || (th.PopDone? && th.result.Some? && th.ticket == k)
  }

  predicate CarriedBy<T>(q: Queue<T>, t: nat, k: nat) { t in q.threads && Carries(q.threads[t], k) }

  /** Every popped ticket was returned, with its own item, or is carried, and not both. */
  ghost predicate Delivered<T>(q: Queue<T>) {
    var h := q.history;
    && (forall k :: k in h.returned ==> k < h.popped && k < |h.pushed| && h.returned[k] == h.pushed[k])
    && (forall t, k: nat :: CarriedBy(q, t, k) ==> k !in h.returned)
    && (forall k: nat :: k < h.popped ==> k in h.returned || exists t :: CarriedBy(q, t, k))
  }

  ghost predicate ThreadsOk<T>(q: Queue<T>) {
    && (forall t :: t in q.threads ==> ThreadOk(q, t))
    && (forall t, u, k: nat :: t in q.threads && u in q.threads && Carries(q.threads[t], k) && Carries(q.threads[u], k) ==> t == u)
  }

  ghost predicate Inv<T>(q: Queue<T>) {
    Contents(q) && Served(q) && ThreadsOk(q) && q.history.tally == TallyOf(q.threads)
  }
}
