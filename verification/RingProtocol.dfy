/**
 The bounded multi-producer multi-consumer ring of `LockFreeIngress`, as an
 interleaved transition system.  Every atomic load, compare-exchange and store
 of `try_push` and `try_pop`, and every access to a cell's value, is one step;
 any number of threads interleave their steps in any order.
 */
module RingProtocol {
  import opened Common

  // ---------------------------------------------------------------- indices

  ghost predicate IsPowerOfTwo(n: nat) {
    n == 1 || (n > 1 && n % 2 == 0 && IsPowerOfTwo(n / 2))
  }

  /** Bitwise and of two naturals, bit by bit. */
  function And(a: nat, b: nat): (r: nat)
    ensures r <= b
  {
    if a == 0 || b == 0 then 0
    else 2 * And(a / 2, b / 2) + (a % 2) * (b % 2)
  }

  /** Masking with `capacity - 1` is the remainder, because the capacity is a power of two. */
  lemma {:induction false} MaskIsRemainder(p: nat, n: nat)
    requires IsPowerOfTwo(n)
    ensures And(p, n - 1) == p % n
  {
    if n > 1 && p > 0 {
      var h := n / 2;
      MaskIsRemainder(p / 2, h);
      assert (n - 1) / 2 == h - 1 && (n - 1) % 2 == 1;
      AndOdd(p, n - 1);
      RemainderByHalves(p, h);
      assert n == 2 * h;
    }
  }

  lemma AndOdd(a: nat, b: nat)
    requires a > 0 && b % 2 == 1
    ensures And(a, b) == 2 * And(a / 2, b / 2) + a % 2
  {}

  lemma RemainderByHalves(p: nat, h: nat)
    requires h > 0
    ensures p % (2 * h) == 2 * ((p / 2) % h) + p % 2
  {
    var q, r := (p / 2) / h, (p / 2) % h;
    assert p / 2 == q * h + r;
    assert p == q * (2 * h) + (2 * r + p % 2);
    RemainderUnique(p, 2 * h, q, 2 * r + p % 2);
  }

  lemma {:induction false} Laps(a: nat, b: nat, n: nat)
    ensures a < b ==> a * n + n <= b * n
    decreases b
  {
    if a < b {
      assert b * n == (b - 1) * n + n;
      Laps(a, b - 1, n);
    }
  }

  lemma RemainderUnique(p: nat, n: nat, q: nat, r: nat)
    requires r < n && p == q * n + r
    ensures p % n == r
  {
    assert p == (p / n) * n + p % n;
    Laps(p / n, q, n);
    Laps(q, p / n, n);
  }

  /** Two tickets of one cell are at least a whole lap apart. */
  lemma LapApart(p: nat, q: nat, n: nat)
    requires n > 0 && p % n == q % n && p < q
    ensures p + n <= q
  {
    assert p == (p / n) * n + p % n && q == (q / n) * n + q % n;
    Laps(p / n, q / n, n);
    Laps(q / n, p / n, n);
  }

  lemma NextLap(p: nat, n: nat)
    requires n > 0
    ensures (p + n) % n == p % n
  {
    RemainderUnique(p + n, n, p / n + 1, p % n);
  }

  // ------------------------------------------------------------------ state

  /** A cell's `std::optional` payload; moving out of it leaves it engaged until `reset`. */
  datatype Slot<T> = Empty | Full(item: T) | MovedFrom

  datatype Cell<T> = Cell(sequence: nat, slot: Slot<T>)

  /** Where a thread stands: the next atomic access it will make. */
  datatype Thread<T> =
    | Idle
    | PushLoad(item: T)               // load enqueue_
    | PushInspect(item: T, pos: nat)  // load the cell's sequence
    | PushClaim(item: T, pos: nat)    // compare-exchange enqueue_
    | PushEmplace(item: T, pos: nat)  // construct the value in the cell
    | PushPublish(item: T, pos: nat)  // store pos + 1
    | PushReturned(ok: bool, item: T, pos: nat)
    | PopLoad                         // load dequeue_
    | PopInspect(pos: nat)            // load the cell's sequence
    | PopClaim(pos: nat)              // compare-exchange dequeue_
    | PopMove(pos: nat)               // move the value out
    | PopReset(pos: nat, result: Option<T>)
    | PopRelease(pos: nat, result: Option<T>)  // store pos + capacity
    | PopReturned(result: Option<T>)

  /** What has happened to the ticket a cell currently serves. */
  datatype Phase = Free | Claimed(owner: nat) | Published | Taking(owner: nat)

  /** Auxiliary history: what a step does to the rest of the ring does not depend on it. */
  datatype History<T> = History(
    pushed: seq<T>,                  // item of each claimed push ticket
    delivered: map<nat, Option<T>>,  // what the pop of a ticket returned
    phases: seq<Phase>)

  datatype Ring<T> = Ring(
    cells: seq<Cell<T>>,
    enqueue: nat,
    dequeue: nat,
    threads: map<nat, Thread<T>>,
    history: History<T>)
  {
    function Capacity(): nat { |cells| }

    /** `position & mask_` */
    function Index(pos: nat): (i: nat)
      requires |cells| > 0
      ensures i < |cells|
    {
      And(pos, |cells| - 1)
    }

    ghost predicate WellFormed() {
      |cells| > 0 && |history.phases| == |cells|
    }
  }

  /** The constructor's state: cell i starts at sequence i, both counters at zero. */
  function Init<T>(capacity: nat, ids: set<nat>): Ring<T> {
    Ring(seq(capacity, i requires 0 <= i < capacity => Cell(i, Empty)), 0, 0,
         map t | t in ids :: Idle,
         History([], map[], seq(capacity, i => Free)))
  }

  // ------------------------------------------------------------------ steps

  datatype Action<T> =
    | BeginPush(item: T)
    | BeginPop
    | Advance       // execute the next access
    | SpuriousFail  // compare_exchange_weak may fail with an equal value

  datatype Event<T> = Event(thread: nat, action: Action<T>)

  predicate Resting<T>(th: Thread<T>) {
    th.Idle? || th.PushReturned? || th.PopReturned?
  }

  ghost predicate Enabled<T(!new)>(s: Ring<T>, e: Event<T>) {
    && s.WellFormed()
    && e.thread in s.threads
    && var th := s.threads[e.thread];
       match e.action
       case BeginPush(_) => Resting(th)
       case BeginPop => Resting(th)
       case Advance => !Resting(th)
       case SpuriousFail => th.PushClaim? || th.PopClaim?
  }

  function Goto<T>(s: Ring<T>, t: nat, th: Thread<T>): Ring<T> {
    s.(threads := s.threads[t := th])
  }

  function Touch<T>(s: Ring<T>, pos: nat, c: Cell<T>, phase: Phase): Ring<T>
    requires |s.cells| > 0 && |s.history.phases| == |s.cells|
  {
    s.(cells := s.cells[s.Index(pos) := c],
       history := s.history.(phases := s.history.phases[s.Index(pos) := phase]))
  }

  function StepPush<T>(s: Ring<T>, t: nat, th: Thread<T>): Ring<T>
    requires |s.cells| > 0 && |s.history.phases| == |s.cells|
    requires th.PushLoad? || th.PushInspect? || th.PushClaim? || th.PushEmplace? || th.PushPublish?
  {
    match th
    case PushLoad(item) => Goto(s, t, PushInspect(item, s.enqueue))
    case PushInspect(item, pos) =>
      var difference := s.cells[s.Index(pos)].sequence - pos;
      if difference == 0 then Goto(s, t, PushClaim(item, pos))
      else if difference < 0 then Goto(s, t, PushReturned(false, item, pos))
      else Goto(s, t, PushLoad(item))
    case PushClaim(item, pos) =>
      if s.enqueue == pos then
        var c := s.cells[s.Index(pos)];
        var s1 := Touch(s, pos, c, Claimed(t));
        Goto(s1.(enqueue := pos + 1, history := s1.history.(pushed := s1.history.pushed + [item])),
             t, PushEmplace(item, pos))
      else Goto(s, t, PushInspect(item, s.enqueue))
    case PushEmplace(item, pos) =>
      var c := s.cells[s.Index(pos)];
      Goto(Touch(s, pos, c.(slot := Full(item)), s.history.phases[s.Index(pos)]), t, PushPublish(item, pos))
    case PushPublish(item, pos) =>
      var c := s.cells[s.Index(pos)];
      Goto(Touch(s, pos, c.(sequence := pos + 1), Published), t, PushReturned(true, item, pos))
  }

  function StepPop<T>(s: Ring<T>, t: nat, th: Thread<T>): Ring<T>
    requires |s.cells| > 0 && |s.history.phases| == |s.cells|
    requires th.PopLoad? || th.PopInspect? || th.PopClaim? || th.PopMove? || th.PopReset? || th.PopRelease?
  {
    match th
    case PopLoad => Goto(s, t, PopInspect(s.dequeue))
    case PopInspect(pos) =>
      var difference := s.cells[s.Index(pos)].sequence - (pos + 1);
      if difference == 0 then Goto(s, t, PopClaim(pos))
      else if difference < 0 then Goto(s, t, PopReturned(None))
      else Goto(s, t, PopLoad)
    case PopClaim(pos) =>
      if s.dequeue == pos then
        var c := s.cells[s.Index(pos)];
        Goto(Touch(s, pos, c, Taking(t)).(dequeue := pos + 1), t, PopMove(pos))
      else Goto(s, t, PopInspect(s.dequeue))
    case PopMove(pos) =>
      var c := s.cells[s.Index(pos)];
      var moved := if c.slot.Full? then Cell(c.sequence, MovedFrom) else c;
      var result := if c.slot.Full? then Some(c.slot.item) else None;
      Goto(Touch(s, pos, moved, s.history.phases[s.Index(pos)]), t, PopReset(pos, result))
    case PopReset(pos, result) =>
      var c := s.cells[s.Index(pos)];
      Goto(Touch(s, pos, c.(slot := Empty), s.history.phases[s.Index(pos)]), t, PopRelease(pos, result))
    case PopRelease(pos, result) =>
      var c := s.cells[s.Index(pos)];
      var s1 := Touch(s, pos, c.(sequence := pos + s.Capacity()), Free);
      Goto(s1.(history := s1.history.(delivered := s1.history.delivered[pos := result])),
           t, PopReturned(result))
  }

  ghost function Step<T(!new)>(s: Ring<T>, e: Event<T>): Ring<T>
    requires Enabled(s, e)
  {
    var t, th := e.thread, s.threads[e.thread];
    match e.action
    case BeginPush(item) => Goto(s, t, PushLoad(item))
    case BeginPop => Goto(s, t, PopLoad)
    case SpuriousFail =>
      if th.PushClaim? then Goto(s, t, PushInspect(th.item, s.enqueue)) else Goto(s, t, PopInspect(s.dequeue))
    case Advance =>
      if th.PushLoad? || th.PushInspect? || th.PushClaim? || th.PushEmplace? || th.PushPublish? then StepPush(s, t, th)
      else StepPop(s, t, th)
  }

  /** `s'` is reached from `s` by executing `trace` event by event. */
  ghost predicate Runs<T(!new)>(s: Ring<T>, trace: seq<Event<T>>, s': Ring<T>)
    decreases |trace|
  {
    if trace == [] then s == s'
    else Enabled(s, trace[0]) && Runs(Step(s, trace[0]), trace[1..], s')
  }
}
