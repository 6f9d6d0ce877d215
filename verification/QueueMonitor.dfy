/**
 `BlockingQueue` as an object: its fields and the code each operation runs under the mutex,
 between waking up and unlocking or going back to sleep.  Each method does to the fields what
 the corresponding critical section of the protocol does, for every state of the threads.
 */
module QueueMonitor {
  import P = QueueProtocol

  datatype Construction<T> = Made(queue: BlockingQueue<T>) | InvalidArgument

  /** What a thread does next after the critical section of `push`. */
  datatype PushTurn = Wait | Refuse | NotifyOne

  datatype PopTurn<T> = Sleep | Drained | Take(item: T)

  class BlockingQueue<T> {
    const capacity: nat
    var items: seq<T>
    var closed: bool

    constructor (capacity: nat)
      requires capacity > 0
      ensures this.capacity == capacity && items == [] && !closed
    {
      this.capacity, items, closed := capacity, [], false;
    }

    /** The protocol state has this queue's fields, whatever its threads are doing. */
    ghost predicate Shows(q: P.Queue<T>)
      reads this
    {
      q.capacity == capacity && q.items == items && q.closed == closed
    }

    method PushLocked(value: T, ghost q: P.Queue<T>, ghost t: nat) returns (turn: PushTurn)
      requires Shows(q) && t in q.threads
      modifies this`items
      ensures Shows(P.PushSection(q, t, value))
      ensures match P.PushSection(q, t, value).threads[t]
              case PushSleep(v) => turn.Wait? && v == value
              case PushDone(ok, _) => turn.Refuse? && !ok
              case PushNotify(_, v) => turn.NotifyOne? && v == value
              case _ => false
    {
      if !(closed || |items| < capacity) {
        return Wait;
      }
      if closed {
        return Refuse;
      }
      items := items + [value];
      turn := NotifyOne;
    }

    method PopLocked(ghost q: P.Queue<T>, ghost t: nat) returns (turn: PopTurn<T>)
      requires Shows(q) && t in q.threads
      modifies this`items
      ensures Shows(P.PopSection(q, t))
      ensures match P.PopSection(q, t).threads[t]
              case PopSleep => turn.Sleep?
              case PopDone(_, result) => turn.Drained? && result.None?
              case PopNotify(_, item) => turn == Take(item)
              case _ => false
    {
      if !(closed || items != []) {
        return Sleep;
      }
      if items == [] {
        return Drained;
      }
      var item := items[0];
      items := items[1..];
      turn := Take(item);
    }

    method CloseLocked(ghost q: P.Queue<T>, ghost t: nat)
      requires Shows(q) && t in q.threads && q.threads[t].CloseEnter?
      modifies this`closed
      ensures Shows(P.Step(q, P.Event(t, P.Enter)))
      ensures P.Step(q, P.Event(t, P.Enter)).threads[t].CloseNotifyPops?
    {
      closed := true;
    }
  }

  /** Capacity zero is refused. */
  method Make<T>(capacity: nat) returns (r: Construction<T>)
    ensures capacity == 0 <==> r.InvalidArgument?
    ensures r.Made? ==> fresh(r.queue) && r.queue.capacity == capacity && r.queue.items == [] && !r.queue.closed
  {
    if capacity == 0 {
      return InvalidArgument;
    }
    var queue := new BlockingQueue<T>(capacity);
    r := Made(queue);
  }
}
