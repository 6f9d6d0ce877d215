/**
 `LockFreeIngress` run one operation at a time, in place on its cell array: the
 ring is then exactly a bounded first-in first-out queue.  Each call is a run of
 the ring protocol in which only the calling thread moves, so what is proved of
 that protocol's reachable states holds of the object.
 */
module IngressQueue {
  import opened Common
  import opened RingProtocol
  import RingTheorems
  import Solo = RingSolo

  class LockFreeIngress<T(0, !new)> {
    const capacity: nat
    const mask: nat
    const cells: array<Cell<T>>
    var enqueue: nat
    var dequeue: nat
    ghost var contents: seq<T>  // the queued items, oldest first

    ghost predicate Layout() {
      && IsPowerOfTwo(capacity) && capacity >= 2
      && mask == capacity - 1 && cells.Length == capacity
    }

    /** No operation in flight: the items fill [dequeue, enqueue), the rest of the lap is free. */
    ghost predicate Valid()
      reads this, cells
    {
      && Layout()
      && enqueue == dequeue + |contents| && |contents| <= capacity
      && (forall k: nat :: dequeue <= k < enqueue ==> cells[k % capacity] == Cell(k + 1, Full(contents[k - dequeue])))
      && (forall k: nat :: enqueue <= k < dequeue + capacity ==> cells[k % capacity] == Cell(k, Empty))
    }

    /** The protocol state has this ring's cells and counters, whatever its threads are doing. */
    ghost predicate Shows(s: Ring<T>)
      reads this, cells
    {
      s.cells == cells[..] && s.enqueue == enqueue && s.dequeue == dequeue && |s.history.phases| == |s.cells|
    }

    constructor (requested: nat)
      ensures Valid() && contents == []
      ensures forall ids :: Shows(Init<T>(capacity, ids))
      ensures RingTheorems.IsRoundedCapacity(requested, capacity)
      ensures fresh(cells)
    {
      var n := RingTheorems.RoundPowerOfTwo(requested);
      capacity := n;
      mask := n - 1;
      cells := new Cell<T>[n](_ => Cell(0, Empty));
      enqueue, dequeue, contents := 0, 0, [];
      new;
      for index := 0 to capacity
        invariant fresh(cells) && enqueue == dequeue == 0 && contents == []
        invariant forall k: nat :: k < index ==> cells[k] == Cell(k, Empty)
        invariant forall k: nat :: index <= k < capacity ==> cells[k].slot == Empty
      {
        cells[index] := cells[index].(sequence := index);
      }
      forall k: nat | k < capacity
        ensures k % capacity == k
      {
        RemainderUnique(k, capacity, 0, k);
      }
    }

    /** Tickets less than a lap apart live in different cells. */
    lemma Apart(a: nat, b: nat)
      requires Layout() && a < b < a + capacity
      ensures a % capacity != b % capacity
    {
      if a % capacity == b % capacity {
        LapApart(a, b, capacity);
      }
    }

    /** What an operation at `enqueue` meets: a free cell, or the oldest item of a full ring. */
    lemma PushSees()
      requires Valid()
      ensures And(enqueue, mask) == enqueue % capacity
      ensures enqueue < dequeue + capacity ==> cells[enqueue % capacity] == Cell(enqueue, Empty)
      ensures enqueue == dequeue + capacity ==> cells[enqueue % capacity].sequence < enqueue
    {
      MaskIsRemainder(enqueue, capacity);
      NextLap(dequeue, capacity);
    }

    lemma PopSees()
      requires Valid()
      ensures And(dequeue, mask) == dequeue % capacity
      ensures dequeue < enqueue ==>
                cells[dequeue % capacity].sequence == dequeue + 1 && cells[dequeue % capacity].slot.Full?
      ensures dequeue == enqueue ==> cells[dequeue % capacity].sequence == dequeue
    {
      MaskIsRemainder(dequeue, capacity);
    }

    /** The winner of the compare-exchange on enqueue_ fills and publishes its cell. */
    method PutTail(index: nat, item: T)
      requires Valid() && |contents| < capacity && index == enqueue % capacity
      modifies this`enqueue, this`contents, cells
      ensures Valid() && contents == old(contents) + [item]
      ensures enqueue == old(enqueue) + 1 && cells[..] == old(cells[..])[index := Cell(old(enqueue) + 1, Full(item))]
    {
      var position := enqueue;
      enqueue, contents := position + 1, contents + [item];
      cells[index] := cells[index].(slot := Full(item));
      cells[index] := cells[index].(sequence := position + 1);
      forall k: nat | dequeue <= k < dequeue + capacity && k != position
        ensures cells[k % capacity] == old(cells[k % capacity])
      {
        Apart(if k < position then k else position, if k < position then position else k);
      }
    }

    /** The compare-exchange on enqueue_ may fail `spurious` times although the values agree. */
    method TryPush(item: T, spurious: nat, ghost s: Ring<T>, ghost t: nat) returns (ok: bool, ghost next: Ring<T>)
      requires Valid() && Shows(s) && Solo.Ready(s, t)
      modifies this`enqueue, this`contents, cells
      ensures Valid()
      ensures ok == (|old(contents)| < capacity)
      ensures contents == if ok then old(contents) + [item] else old(contents)
      ensures Shows(next) && Runs(s, Solo.PushTrace(t, item, spurious, ok), next)
      ensures t in next.threads && next.threads[t] == PushReturned(ok, item, old(enqueue))
    {
      var position := enqueue;
      var failures := spurious;
      while true
        invariant position == enqueue == old(enqueue) && Valid()
        invariant cells[..] == old(cells[..]) && contents == old(contents)
        decreases failures
      {
        PushSees();
        var index := And(position, mask);
        var difference := cells[index].sequence - position;
        if difference == 0 {
          if failures == 0 {
            PutTail(index, item);
            Solo.PushAccepted(s, t, item, spurious);
            return true, Solo.Pushed(s, t, item);
          }
          failures := failures - 1;
        } else if difference < 0 {
          Solo.PushRefused(s, t, item, spurious);
          return false, Goto(s, t, PushReturned(false, item, s.enqueue));
        } else {
          assert false;
        }
      }
    }

    /** The winner of the compare-exchange on dequeue_ empties and releases its cell. */
    method TakeHead(index: nat) returns (result: Option<T>)
      requires Valid() && contents != [] && index == dequeue % capacity
      modifies this`dequeue, this`contents, cells
      ensures Valid() && contents == old(contents)[1..]
      ensures result == Some(old(contents)[0])
      ensures dequeue == old(dequeue) + 1 && cells[..] == old(cells[..])[index := Cell(old(dequeue) + capacity, Empty)]
    {
      var position := dequeue;
      dequeue, contents := position + 1, contents[1..];
      result := Some(cells[index].slot.item);
      cells[index] := cells[index].(slot := Empty);
      cells[index] := cells[index].(sequence := position + capacity);
      NextLap(position, capacity);
      forall k: nat | position < k < position + capacity
        ensures cells[k % capacity] == old(cells[k % capacity])
      {
        Apart(position, k);
      }
    }

    /** The compare-exchange on dequeue_ may fail `spurious` times although the values agree. */
    method TryPop(spurious: nat, ghost s: Ring<T>, ghost t: nat) returns (result: Option<T>, ghost next: Ring<T>)
      requires Valid() && Shows(s) && Solo.Ready(s, t)
      modifies this`dequeue, this`contents, cells
      ensures Valid()
      ensures result.None? <==> old(contents) == []
      ensures result.None? ==> contents == old(contents)
      ensures result.Some? ==> [result.value] + contents == old(contents)
      ensures Shows(next) && Runs(s, Solo.PopTrace(t, spurious, result.Some?), next)
      ensures t in next.threads && next.threads[t] == PopReturned(result)
    {
      var position := dequeue;
      var failures := spurious;
      while true
        invariant position == dequeue == old(dequeue) && Valid()
        invariant cells[..] == old(cells[..]) && contents == old(contents)
        decreases failures
      {
        PopSees();
        var index := And(position, mask);
        var difference := cells[index].sequence - (position + 1);
        if difference == 0 {
          if failures == 0 {
            result := TakeHead(index);
            Solo.PopAccepted(s, t, result.value, spurious);
            next := Solo.Popped(s, t, result.value);
            return;
          }
          failures := failures - 1;
        } else if difference < 0 {
          Solo.PopRefused(s, t, spurious);
          return None, Goto(s, t, PopReturned(None));
        } else {
          assert false;
        }
      }
    }
  }
}
