/**
 What the ring guarantees in every interleaving of any number of pushes and
 pops, on any capacity a caller may request.
 */
module RingTheorems {
  import opened Common
  import opened RingProtocol
  import opened RingInvariant

  // ---------------------------------------------------------------- capacity

  /** The least power of two that is at least 2 and at least `requested`. */
  ghost predicate IsRoundedCapacity(requested: nat, value: nat) {
    && IsPowerOfTwo(value) && value >= 2 && value >= requested
    && forall other: nat :: IsPowerOfTwo(other) && other >= 2 && other >= requested ==> value <= other
  }

  lemma {:induction false} NoPowerBetween(a: nat, b: nat)
    requires IsPowerOfTwo(a) && IsPowerOfTwo(b) && a < b
    ensures 2 * a <= b
  {
    if a > 1 {
      NoPowerBetween(a / 2, b / 2);
    }
  }

  /** The doubling loop of `round_power_of_two`. */
  method RoundPowerOfTwo(requested: nat) returns (value: nat)
    ensures IsRoundedCapacity(requested, value)
  {
    value := 2;
    while value < requested
      invariant IsPowerOfTwo(value) && value >= 2
      invariant value == 2 || value / 2 < requested
      decreases requested - value
    {
      value := 2 * value;
    }
    forall other: nat | IsPowerOfTwo(other) && other >= 2 && other >= requested
      ensures value <= other
    {
      if other < value {
        NoPowerBetween(other, value);
      }
    }
  }

  /** A state some interleaving reaches on a ring built for `requested` items. */
  ghost predicate Reachable<T(!new)>(requested: nat, s: Ring<T>) {
    exists n: nat, ids: set<nat>, trace: seq<Event<T>> ::
      IsRoundedCapacity(requested, n) && Runs(Init(n, ids), trace, s)
  }

  lemma ReachableInv<T(!new)>(requested: nat, s: Ring<T>)
    requires Reachable(requested, s)
    ensures Inv(s)
  {
    var n: nat, ids: set<nat>, trace: seq<Event<T>> :|
      IsRoundedCapacity(requested, n) && Runs(Init(n, ids), trace, s);
    InitInv<T>(n, ids);
    RunsKeep(Init(n, ids), trace, s);
  }

  // ------------------------------------------- no loss, no duplication, FIFO

  /** The thread that is emptying the cell of popped ticket `k`. */
  ghost predicate InHand<T>(s: Ring<T>, k: nat, t: nat) {
    && t in s.threads && k < |s.history.pushed|
    && (|| s.threads[t] == PopMove(k)
        || s.threads[t] == PopReset(k, Some(s.history.pushed[k]))
        || s.threads[t] == PopRelease(k, Some(s.history.pushed[k])))
  }

  /** The thread that is filling the cell of claimed push ticket `k`. */
  ghost predicate BeingFilled<T>(s: Ring<T>, k: nat, t: nat) {
    && t in s.threads && k < |s.history.pushed|
    && (s.threads[t] == PushEmplace(s.history.pushed[k], k) || s.threads[t] == PushPublish(s.history.pushed[k], k))
  }

  /** The item of ticket `k` is in its cell, ready to be popped. */
  ghost predicate InCell<T>(s: Ring<T>, k: nat)
    requires s.WellFormed()
  {
    s.dequeue <= k < |s.history.pushed| && s.cells[s.Index(k)] == Cell(k + 1, Full(s.history.pushed[k]))
  }

  lemma HolderOf<T>(s: Ring<T>, k: nat, t: nat)
    requires Inv(s) && InHand(s, k, t)
    ensures s.history.phases[k % |s.cells|] == Taking(t) && k < s.dequeue && k !in s.history.delivered
  {
    assert ThreadOk(s, t);
    assert CellOk(s, k % |s.cells|);
    assert TicketOk(s, k);
  }

  lemma FillerOf<T>(s: Ring<T>, k: nat, t: nat)
    requires Inv(s) && BeingFilled(s, k, t)
    ensures s.history.phases[k % |s.cells|] == Claimed(t) && s.dequeue <= k && s.cells[k % |s.cells|].sequence == k
  {
    assert ThreadOk(s, t);
    assert CellOk(s, k % |s.cells|);
  }

  /** A popped ticket is delivered, or in exactly one thread's hands, and not both. */
  lemma PoppedTicket<T>(s: Ring<T>, k: nat)
    requires Inv(s) && k < s.enqueue
    ensures k < s.dequeue <==> k in s.history.delivered || exists t :: InHand(s, k, t)
    ensures k in s.history.delivered ==>
              s.history.delivered[k] == Some(s.history.pushed[k]) && forall t :: !InHand(s, k, t)
    ensures forall t, u :: InHand(s, k, t) && InHand(s, k, u) ==> t == u
  {
    assert TicketOk(s, k);
    assert CellOk(s, k % |s.cells|);
    if k < s.dequeue && k !in s.history.delivered {
      assert InHand(s, k, s.history.phases[k % |s.cells|].owner);
    }
    forall t | InHand(s, k, t) {
      HolderOf(s, k, t);
    }
  }

  /** An unpopped ticket is in its cell, or being put there by exactly one thread, and not both. */
  lemma WaitingTicket<T>(s: Ring<T>, k: nat)
    requires Inv(s) && s.WellFormed() && k < s.enqueue
    ensures s.dequeue <= k <==> InCell(s, k) || exists t :: BeingFilled(s, k, t)
    ensures InCell(s, k) ==> forall t :: !BeingFilled(s, k, t)
    ensures forall t, u :: BeingFilled(s, k, t) && BeingFilled(s, k, u) ==> t == u
  {
    MaskIsRemainder(k, |s.cells|);
    assert CellOk(s, k % |s.cells|);
    if s.dequeue <= k {
      UnpoppedTicket(s, k);
      if s.history.phases[k % |s.cells|].Claimed? {
        assert BeingFilled(s, k, s.history.phases[k % |s.cells|].owner);
      }
    }
    forall t | BeingFilled(s, k, t) {
      FillerOf(s, k, t);
    }
  }

  /**
   Push ticket k names exactly one item, and is in exactly one of four places: delivered as that very
   item, in the hands of exactly one popping thread, published in its cell, or being put there by
   exactly one pushing thread.  The first two are exactly the tickets below `dequeue`.
   */
  lemma EveryTicketAccountedFor<T(!new)>(requested: nat, s: Ring<T>, k: nat)
    requires Reachable(requested, s) && k < s.enqueue
    ensures s.WellFormed() && |s.history.pushed| == s.enqueue && s.dequeue <= s.enqueue
    ensures k < s.dequeue <==> k in s.history.delivered || exists t :: InHand(s, k, t)
    ensures s.dequeue <= k <==> InCell(s, k) || exists t :: BeingFilled(s, k, t)
    ensures k in s.history.delivered ==>
              s.history.delivered[k] == Some(s.history.pushed[k]) && forall t :: !InHand(s, k, t)
    ensures InCell(s, k) ==> forall t :: !BeingFilled(s, k, t)
    ensures forall t, u :: InHand(s, k, t) && InHand(s, k, u) ==> t == u
    ensures forall t, u :: BeingFilled(s, k, t) && BeingFilled(s, k, u) ==> t == u
  {
    ReachableInv(requested, s);
    PoppedTicket(s, k);
    WaitingTicket(s, k);
  }

  /** A claimed, unpopped ticket is the one its cell serves. */
  lemma UnpoppedTicket<T>(s: Ring<T>, k: nat)
    requires Inv(s) && s.dequeue <= k < s.enqueue
    ensures Ticket(s, k % |s.cells|) == k
    ensures s.history.phases[k % |s.cells|].Claimed? || s.history.phases[k % |s.cells|].Published?
  {
    var n := |s.cells|;
    assert CellOk(s, k % n);
    var c := Ticket(s, k % n);
    if c < k {
      LapApart(c, k, n);
    }
    if k < c {
      LapApart(k, c, n);
    }
  }

  /** A push answered true for a ticket of its own item, and that item is in its cell, in a pop's hands or delivered. */
  lemma AcceptedItemIsThere<T(!new)>(requested: nat, s: Ring<T>, t: nat)
    requires Reachable(requested, s) && t in s.threads && s.threads[t].PushReturned? && s.threads[t].ok
    ensures s.WellFormed()
    ensures var k := s.threads[t].pos;
            && k < s.enqueue == |s.history.pushed| && s.history.pushed[k] == s.threads[t].item
            && (InCell(s, k) || k in s.history.delivered || exists u :: InHand(s, k, u))
  {
    ReachableInv(requested, s);
    var k := s.threads[t].pos;
    assert ThreadOk(s, t);
    PoppedTicket(s, k);
    WaitingTicket(s, k);
    if u :| BeingFilled(s, k, u) {
      FillerOf(s, k, u);
    }
  }

  /** At most one thread is between its compare-exchange and its release store on a given cell. */
  lemma ExclusiveWindow<T(!new)>(requested: nat, s: Ring<T>, t: nat, u: nat)
    requires Reachable(requested, s) && t in s.threads && u in s.threads && t != u
    requires Owns(s.threads[t]) && Owns(s.threads[u])
    ensures s.WellFormed()
    ensures s.Index(s.threads[t].pos) != s.Index(s.threads[u].pos)
  {
    ReachableInv(requested, s);
    MaskIsRemainder(s.threads[t].pos, |s.cells|);
    MaskIsRemainder(s.threads[u].pos, |s.cells|);
    assert ThreadOk(s, t) && ThreadOk(s, u);
  }

  /** `emplace` only ever meets an empty cell, and a pop only ever moves from a filled one. */
  lemma AccessesAreClean<T(!new)>(requested: nat, s: Ring<T>, t: nat)
    requires Reachable(requested, s) && t in s.threads
    ensures s.WellFormed()
    ensures s.threads[t].PushEmplace? ==> s.cells[s.Index(s.threads[t].pos)].slot == Empty
    ensures s.threads[t].PopMove? ==>
              && s.threads[t].pos < |s.history.pushed|
              && s.cells[s.Index(s.threads[t].pos)].slot == Full(s.history.pushed[s.threads[t].pos])
  {
    ReachableInv(requested, s);
    if s.threads[t].PushEmplace? || s.threads[t].PopMove? {
      MaskIsRemainder(s.threads[t].pos, |s.cells|);
      assert ThreadOk(s, t);
      assert CellOk(s, s.threads[t].pos % |s.cells|);
    }
  }

  lemma Occupancy<T>(s: Ring<T>)
    requires Inv(s)
    ensures s.enqueue - s.dequeue <= |s.cells|
  {
    if s.dequeue < s.enqueue {
      UnpoppedTicket(s, s.enqueue - 1);
      assert CellOk(s, (s.enqueue - 1) % |s.cells|);
    }
  }

  /** The two counters never drift more than the capacity apart. */
  lemma OccupancyBounded<T(!new)>(requested: nat, s: Ring<T>)
    requires Reachable(requested, s)
    ensures 0 <= s.enqueue - s.dequeue <= s.Capacity()
  {
    ReachableInv(requested, s);
    Occupancy(s);
  }

  // ------------------------------------------------------------ monotonicity

  /** Later states only extend the history and only raise counters and sequence numbers. */
  ghost predicate Extends<T>(s: Ring<T>, s': Ring<T>) {
    && |s'.cells| == |s.cells|
    && s.enqueue <= s'.enqueue && s.dequeue <= s'.dequeue
    && s.history.pushed <= s'.history.pushed
    && (forall k :: k in s.history.delivered ==>
          k in s'.history.delivered && s'.history.delivered[k] == s.history.delivered[k])
    && (forall i: nat :: i < |s.cells| ==> s.cells[i].sequence <= s'.cells[i].sequence)
  }

  lemma StepExtends<T(!new)>(s: Ring<T>, e: Event<T>)
    requires Inv(s) && Enabled(s, e)
    ensures Extends(s, Step(s, e))
  {
    var th := s.threads[e.thread];
    if e.action.Advance? && (Owns(th) || th.PushClaim? || th.PopClaim?) {
      MaskIsRemainder(th.pos, |s.cells|);
      assert ThreadOk(s, e.thread);
      assert TicketOk(s, th.pos);
      assert CellOk(s, th.pos % |s.cells|);
    }
  }

  lemma {:induction false} RunExtends<T(!new)>(s: Ring<T>, trace: seq<Event<T>>, s': Ring<T>)
    requires Inv(s) && Runs(s, trace, s')
    ensures Extends(s, s')
    decreases |trace|
  {
    if trace != [] {
      var m := Step(s, trace[0]);
      StepKeeps(s, trace[0]);
      StepExtends(s, trace[0]);
      RunExtends(m, trace[1..], s');
      assert s.history.pushed <= m.history.pushed <= s'.history.pushed;
    }
  }

  /** From any reachable state on, tickets, deliveries and sequence numbers are final or grow. */
  lemma HistoryIsAppendOnly<T(!new)>(requested: nat, s: Ring<T>, trace: seq<Event<T>>, s': Ring<T>)
    requires Reachable(requested, s) && Runs(s, trace, s')
    ensures Extends(s, s')
  {
    ReachableInv(requested, s);
    RunExtends(s, trace, s');
  }

  // --------------------------------------------------- refusals and retries

  /**
   `try_push` gives up exactly when the ticket one lap back has not been released; then the
   counter has not moved on, and the ring is full or that ticket is still being popped.
   */
  lemma PushRefusalJustified<T(!new)>(requested: nat, s: Ring<T>, t: nat)
    requires Reachable(requested, s) && t in s.threads && s.threads[t].PushInspect?
    ensures s.WellFormed()
    ensures var pos := s.threads[t].pos;
            var after := Step(s, Event(t, Advance)).threads[t];
            var refused := after.PushReturned? && !after.ok;
            var lapBack := pos - s.Capacity();
            && (refused <==> s.cells[s.Index(pos)].sequence < pos)
            && (refused ==>
                && s.enqueue == pos && lapBack >= 0
                && lapBack !in s.history.delivered
                && (s.enqueue - s.dequeue == s.Capacity() || exists u :: InHand(s, lapBack, u)))
  {
    ReachableInv(requested, s);
    var n, pos := |s.cells|, s.threads[t].pos;
    MaskIsRemainder(pos, n);
    assert ThreadOk(s, t);
    if s.cells[pos % n].sequence < pos {
      StaleForPush(s, pos);
      var k: nat := pos - n;
      assert TicketOk(s, k);
      assert CellOk(s, k % n);
      if s.history.phases[pos % n].Taking? {
        assert InHand(s, k, s.history.phases[k % n].owner);
      }
    }
  }

  lemma StaleForPush<T>(s: Ring<T>, pos: nat)
    requires Inv(s) && pos <= s.enqueue && s.cells[pos % |s.cells|].sequence < pos
    ensures s.enqueue == pos && pos >= |s.cells|
    ensures (pos - |s.cells|) % |s.cells| == pos % |s.cells|
    ensures Ticket(s, pos % |s.cells|) == pos - |s.cells|
    ensures s.history.phases[pos % |s.cells|].Taking? || s.enqueue - s.dequeue == |s.cells|
  {
    var n := |s.cells|;
    var c := Ticket(s, pos % n);
    assert CellOk(s, pos % n);
    Occupancy(s);
    LapApart(c, pos, n);
    NextLap(pos - n, n);
  }

  /**
   `try_pop` gives up exactly when the ticket it looks at is unpublished; then it is the head
   ticket, and the ring is empty or the item is still being put in place.
   */
  lemma PopRefusalJustified<T(!new)>(requested: nat, s: Ring<T>, t: nat)
    requires Reachable(requested, s) && t in s.threads && s.threads[t].PopInspect?
    ensures s.WellFormed()
    ensures var pos := s.threads[t].pos;
            var refused := Step(s, Event(t, Advance)).threads[t] == PopReturned(None);
            && (refused <==> s.cells[s.Index(pos)].sequence <= pos)
            && (refused ==> s.dequeue == pos && (s.enqueue == pos || exists u :: BeingFilled(s, pos, u)))
  {
    ReachableInv(requested, s);
    var n, pos := |s.cells|, s.threads[t].pos;
    MaskIsRemainder(pos, n);
    assert ThreadOk(s, t);
    if s.cells[pos % n].sequence <= pos {
      assert TicketOk(s, pos);
      assert CellOk(s, pos % n);
      if pos < s.enqueue {
        UnpoppedOrStale(s, pos);
        assert BeingFilled(s, pos, s.history.phases[pos % n].owner);
      }
    }
  }

  lemma UnpoppedOrStale<T>(s: Ring<T>, pos: nat)
    requires Inv(s) && pos <= s.dequeue && pos < s.enqueue && s.cells[pos % |s.cells|].sequence <= pos
    ensures s.dequeue == pos && s.history.phases[pos % |s.cells|].Claimed? && Ticket(s, pos % |s.cells|) == pos
  {
    assert TicketOk(s, pos);
    assert CellOk(s, pos % |s.cells|);
    if s.dequeue == pos {
      UnpoppedTicket(s, pos);
    }
  }

  /** A thread sent round the loop by a newer sequence number lost its ticket to another claim. */
  lemma RetryMeansProgress<T(!new)>(requested: nat, s: Ring<T>, t: nat)
    requires Reachable(requested, s) && t in s.threads
    ensures s.WellFormed()
    ensures s.threads[t].PushInspect? && Step(s, Event(t, Advance)).threads[t].PushLoad? ==>
              s.threads[t].pos < s.enqueue
    ensures s.threads[t].PopInspect? && Step(s, Event(t, Advance)).threads[t].PopLoad? ==>
              s.threads[t].pos < s.dequeue
  {
    ReachableInv(requested, s);
    var n, th := |s.cells|, s.threads[t];
    if th.PushInspect? || th.PopInspect? {
      MaskIsRemainder(th.pos, n);
      assert CellOk(s, th.pos % n);
      var c := Ticket(s, th.pos % n);
      if th.pos < c {
        LapApart(th.pos, c, n);
      }
    }
  }

  // --------------------------------------------------------------- at rest

  /** With no operation in flight, the cells hold exactly the claimed and unpopped items, in order. */
  lemma QuiescentContents<T(!new)>(requested: nat, s: Ring<T>)
    requires Reachable(requested, s)
    requires forall t :: t in s.threads ==> Resting(s.threads[t])
    ensures s.WellFormed()
    ensures forall k: nat :: k in s.history.delivered <==> k < s.dequeue
    ensures forall k: nat :: s.dequeue <= k < s.enqueue ==>
              k < |s.history.pushed| && s.cells[s.Index(k)] == Cell(k + 1, Full(s.history.pushed[k]))
  {
    ReachableInv(requested, s);
    forall k: nat
      ensures k in s.history.delivered <==> k < s.dequeue
      ensures s.dequeue <= k < s.enqueue ==>
                k < |s.history.pushed| && s.cells[s.Index(k)] == Cell(k + 1, Full(s.history.pushed[k]))
    {
      assert TicketOk(s, k);
      if k < s.enqueue {
        EveryTicketAccountedFor(requested, s, k);
      }
    }
  }

  // ------------------------------------------------ why the capacity is >= 2

  function Go<T>(): Event<T> { Event(0, Advance) }

  function PushAlone<T>(item: T): seq<Event<T>> {
    [Event(0, BeginPush(item)), Go<T>(), Go<T>(), Go<T>(), Go<T>(), Go<T>()]
  }

  lemma RunsStep<T(!new)>(s: Ring<T>, e: Event<T>, m: Ring<T>, rest: seq<Event<T>>, s': Ring<T>)
    requires Enabled(s, e) && Step(s, e) == m && Runs(m, rest, s')
    ensures Runs(s, [e] + rest, s')
  {
    assert ([e] + rest)[1..] == rest;
  }

  lemma OneCellClaim<T(!new)>(s: Ring<T>, item: T, s3: Ring<T>, rest: seq<Event<T>>, s': Ring<T>)
    requires |s.cells| == |s.history.phases| == 1 && s.cells[0].sequence == s.enqueue
    requires s.threads.Keys == {0} && Resting(s.threads[0])
    requires s3 == Goto(s, 0, PushClaim(item, s.enqueue)) && Runs(s3, rest, s')
    ensures Runs(s, [Event(0, BeginPush(item))] + ([Go<T>()] + ([Go<T>()] + rest)), s')
  {
    var s1 := Goto(s, 0, PushLoad(item));
    var s2 := Goto(s, 0, PushInspect(item, s.enqueue));
    RunsStep(s2, Go<T>(), s3, rest, s');
    RunsStep(s1, Go<T>(), s2, [Go<T>()] + rest, s');
    RunsStep(s, Event(0, BeginPush(item)), s1, [Go<T>()] + ([Go<T>()] + rest), s');
  }

  lemma OneCellPublish<T(!new)>(s3: Ring<T>, item: T, s': Ring<T>)
    requires |s3.cells| == |s3.history.phases| == 1 && s3.cells[0].sequence == s3.enqueue
    requires s3.threads == map[0 := PushClaim(item, s3.enqueue)]
    requires s' == Ring([Cell(s3.enqueue + 1, Full(item))], s3.enqueue + 1, s3.dequeue, map[0 := PushReturned(true, item, s3.enqueue)],
                        s3.history.(pushed := s3.history.pushed + [item], phases := [Published]))
    ensures Runs(s3, [Go<T>()] + ([Go<T>()] + ([Go<T>()] + [])), s')
  {
    var p := s3.enqueue;
    var history := s3.history.(pushed := s3.history.pushed + [item], phases := [Claimed(0)]);
    var s4 := Ring(s3.cells, p + 1, s3.dequeue, map[0 := PushEmplace(item, p)], history);
    var s5 := Ring([Cell(p, Full(item))], p + 1, s3.dequeue, map[0 := PushPublish(item, p)], history);
    RunsStep(s5, Go<T>(), s', [], s');
    RunsStep(s4, Go<T>(), s5, [Go<T>()] + [], s');
    RunsStep(s3, Go<T>(), s4, [Go<T>()] + ([Go<T>()] + []), s');
  }

  /** On a one-cell ring "published at p" and "free for p + 1" are the same sequence number. */
  lemma OneCellPush<T(!new)>(s: Ring<T>, item: T, s': Ring<T>)
    requires |s.cells| == |s.history.phases| == 1 && s.cells[0].sequence == s.enqueue
    requires s.threads.Keys == {0} && Resting(s.threads[0])
    requires s' == Ring([Cell(s.enqueue + 1, Full(item))], s.enqueue + 1, s.dequeue, map[0 := PushReturned(true, item, s.enqueue)],
                        s.history.(pushed := s.history.pushed + [item], phases := [Published]))
    ensures Runs(s, PushAlone(item), s')
  {
    var s3 := Goto(s, 0, PushClaim(item, s.enqueue));
    OneCellPublish(s3, item, s');
    OneCellClaim(s, item, s3, [Go<T>()] + ([Go<T>()] + ([Go<T>()] + [])), s');
    assert PushAlone(item) == [Event(0, BeginPush(item))] + ([Go<T>()] + ([Go<T>()] + ([Go<T>()] + ([Go<T>()] + ([Go<T>()] + [])))));
  }

  /** Without the lower bound of 2 a second push overwrites the first item, and both report success. */
  lemma CapacityOneLosesAnItem<T(!new)>(a: T, b: T)
    ensures exists s: Ring<T>, s': Ring<T> ::
              && Runs(Init<T>(1, {0}), PushAlone(a), s) && s.threads == map[0 := PushReturned(true, a, 0)]
              && Runs(s, PushAlone(b), s') && s'.threads == map[0 := PushReturned(true, b, 1)]
              && s'.dequeue == 0 && s'.cells == [Cell(2, Full(b))]
  {
    var s0 := Init<T>(1, {0});
    var s1 := Ring([Cell(1, Full(a))], 1, 0, map[0 := PushReturned(true, a, 0)], History([a], map[], [Published]));
    var s2 := Ring([Cell(2, Full(b))], 2, 0, map[0 := PushReturned(true, b, 1)], History([a, b], map[], [Published]));
    assert s0.history.pushed + [a] == [a] && s1.history.pushed + [b] == [a, b];
    OneCellPush(s0, a, s1);
    OneCellPush(s1, b, s2);
  }
}
