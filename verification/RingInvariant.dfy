/**
 The inductive invariant of the ring: every cell's sequence number tied to both
 counters and to the thread, if any, that owns the cell.
 */
module RingInvariant {
  import opened Common
  import opened RingProtocol

  /** The ticket a cell currently serves, read off its sequence number. */
  function Ticket<T>(s: Ring<T>, i: nat): int
    requires i < |s.cells| && |s.history.phases| == |s.cells|
  {
    if s.history.phases[i].Free? || s.history.phases[i].Claimed? then s.cells[i].sequence
    else s.cells[i].sequence - 1
  }

  ghost predicate Shape<T>(s: Ring<T>) {
    && |s.cells| >= 2 && IsPowerOfTwo(|s.cells|)
    && |s.history.phases| == |s.cells|
    && |s.history.pushed| == s.enqueue
    && s.dequeue <= s.enqueue
  }

  /** A claimed cell is being filled by exactly the thread that owns it. */
  ghost predicate Filling<T>(s: Ring<T>, i: nat, k: nat, o: nat)
    requires Shape(s) && i < |s.cells| && k < s.enqueue
  {
    && o in s.threads
    && var item := s.history.pushed[k];
       || (s.threads[o] == PushEmplace(item, k) && s.cells[i].slot == Empty)
       || (s.threads[o] == PushPublish(item, k) && s.cells[i].slot == Full(item))
  }

  /** A cell being popped is being emptied by exactly the thread that owns it. */
  ghost predicate Emptying<T>(s: Ring<T>, i: nat, k: nat, o: nat)
    requires Shape(s) && i < |s.cells| && k < s.enqueue
  {
    && o in s.threads
    && var item := s.history.pushed[k];
       || (s.threads[o] == PopMove(k) && s.cells[i].slot == Full(item))
       || (s.threads[o] == PopReset(k, Some(item)) && s.cells[i].slot == MovedFrom)
       || (s.threads[o] == PopRelease(k, Some(item)) && s.cells[i].slot == Empty)
  }

  ghost predicate CellOk<T>(s: Ring<T>, i: nat)
    requires Shape(s) && i < |s.cells|
  {
    var k := Ticket(s, i);
    && 0 <= k && k % |s.cells| == i
    && s.enqueue <= k + |s.cells| && k < s.dequeue + |s.cells|
    && match s.history.phases[i]
       case Free => s.enqueue <= k && s.cells[i].slot == Empty
       case Claimed(o) => s.dequeue <= k < s.enqueue && Filling(s, i, k, o)
       case Published => s.dequeue <= k < s.enqueue && s.cells[i].slot == Full(s.history.pushed[k])
       case Taking(o) => k < s.dequeue && Emptying(s, i, k, o)
  }

  /** Ticket `k` was claimed for this item, and is no longer being filled. */
  ghost predicate Pushed<T>(s: Ring<T>, k: nat, item: T)
    requires Shape(s)
  {
    && k < s.enqueue && s.history.pushed[k] == item
    && !(s.history.phases[k % |s.cells|].Claimed? && s.cells[k % |s.cells|].sequence == k)
  }

  ghost predicate ThreadOk<T>(s: Ring<T>, t: nat)
    requires Shape(s) && t in s.threads
  {
    var n := |s.cells|;
    match s.threads[t]
    case PushInspect(_, pos) => pos <= s.enqueue
    case PushClaim(_, pos) =>
      pos < s.enqueue || (pos == s.enqueue && s.cells[pos % n].sequence == pos && s.history.phases[pos % n].Free?)
    case PushEmplace(_, pos) => s.history.phases[pos % n] == Claimed(t) && s.cells[pos % n].sequence == pos
    case PushPublish(_, pos) => s.history.phases[pos % n] == Claimed(t) && s.cells[pos % n].sequence == pos
    case PushReturned(ok, item, pos) => ok ==> Pushed(s, pos, item)
    case PopInspect(pos) => pos <= s.dequeue
    case PopClaim(pos) =>
      pos < s.dequeue || (pos == s.dequeue && s.cells[pos % n].sequence == pos + 1 && s.history.phases[pos % n].Published?)
    case PopMove(pos) => s.history.phases[pos % n] == Taking(t) && s.cells[pos % n].sequence == pos + 1
    case PopReset(pos, _) => s.history.phases[pos % n] == Taking(t) && s.cells[pos % n].sequence == pos + 1
    case PopRelease(pos, _) => s.history.phases[pos % n] == Taking(t) && s.cells[pos % n].sequence == pos + 1
    case _ => true
  }

  /** Every popped ticket was delivered, or is in the hands of the thread emptying its cell. */
  ghost predicate TicketOk<T>(s: Ring<T>, k: nat)
    requires Shape(s)
  {
    && (k in s.history.delivered ==>
        k < s.dequeue && s.history.delivered[k] == Some(s.history.pushed[k]) && Ticket(s, k % |s.cells|) > k)
    && (k < s.dequeue && k !in s.history.delivered ==>
        s.history.phases[k % |s.cells|].Taking? && Ticket(s, k % |s.cells|) == k)
  }

  ghost predicate Cells<T>(s: Ring<T>)
    requires Shape(s)
  {
    forall i: nat :: i < |s.cells| ==> CellOk(s, i)
  }

  ghost predicate Threads<T>(s: Ring<T>)
    requires Shape(s)
  {
    forall t :: t in s.threads ==> ThreadOk(s, t)
  }

  ghost predicate Tickets<T>(s: Ring<T>)
    requires Shape(s)
  {
    forall k: nat :: TicketOk(s, k)
  }

  ghost predicate Inv<T>(s: Ring<T>) {
    Shape(s) && Cells(s) && Threads(s) && Tickets(s)
  }

  // ----------------------------------------------------------- initial state

  lemma InitInv<T>(n: nat, ids: set<nat>)
    requires n >= 2 && IsPowerOfTwo(n)
    ensures Inv(Init<T>(n, ids))
  {
    var s := Init<T>(n, ids);
    forall i: nat | i < n
      ensures CellOk(s, i)
    {
      RemainderUnique(i, n, 0, i);
    }
  }

  // ------------------------------------------------- steps touching no cell

  /** A thread's move that changes only its own program point keeps everything else. */
  lemma GotoKeeps<T>(s: Ring<T>, t: nat, th: Thread<T>)
    requires Inv(s) && t in s.threads
    requires !Owns(s.threads[t])
    requires !Owns(th)
    requires ThreadOk(Goto(s, t, th), t)
    ensures Inv(Goto(s, t, th))
  {
    var s' := Goto(s, t, th);
    forall i: nat | i < |s.cells|
      ensures CellOk(s', i)
    {
      assert CellOk(s, i);
    }
    forall u | u in s'.threads
      ensures ThreadOk(s', u)
    {
      if u != t {
        assert ThreadOk(s, u);
      }
    }
    forall k: nat
      ensures TicketOk(s', k)
    {
      assert TicketOk(s, k);
    }
  }

  /** The thread is between its compare-exchange and its release store. */
  predicate Owns<T>(th: Thread<T>) {
    th.PushEmplace? || th.PushPublish? || th.PopMove? || th.PopReset? || th.PopRelease?
  }

  /** Reading `sequence == pos` at the head of the counter means the cell is free for `pos`. */
  lemma FreeForHead<T>(s: Ring<T>, pos: nat)
    requires Inv(s) && pos == s.enqueue && s.cells[pos % |s.cells|].sequence == pos
    ensures s.history.phases[pos % |s.cells|].Free?
  {
    var n := |s.cells|;
    var i := pos % n;
    assert CellOk(s, i);
    if s.history.phases[i].Published? || s.history.phases[i].Taking? {
      LapApart(pos - 1, pos, n);
      assert false;
    }
  }

  lemma PublishedAtHead<T>(s: Ring<T>, pos: nat)
    requires Inv(s) && pos == s.dequeue && s.cells[pos % |s.cells|].sequence == pos + 1
    ensures s.history.phases[pos % |s.cells|].Published?
  {
    var n := |s.cells|;
    var i := pos % n;
    assert CellOk(s, i);
    if s.history.phases[i].Free? || s.history.phases[i].Claimed? {
      LapApart(pos, pos + 1, n);
      assert false;
    }
  }

  lemma InspectKeeps<T>(s: Ring<T>, t: nat)
    requires Inv(s) && t in s.threads
    requires s.threads[t].PushInspect? || s.threads[t].PopInspect?
    ensures s.threads[t].PushInspect? ==> Inv(StepPush(s, t, s.threads[t]))
    ensures s.threads[t].PopInspect? ==> Inv(StepPop(s, t, s.threads[t]))
  {
    var th := s.threads[t];
    var n := |s.cells|;
    MaskIsRemainder(th.pos, n);
    assert ThreadOk(s, t);
    var seen := s.cells[th.pos % n].sequence;
    if th.PushInspect? {
      if th.pos == s.enqueue && seen == th.pos {
        FreeForHead(s, th.pos);
      }
      GotoKeeps(s, t, StepPush(s, t, th).threads[t]);
    } else {
      if th.pos == s.dequeue && seen == th.pos + 1 {
        PublishedAtHead(s, th.pos);
      }
      GotoKeeps(s, t, StepPop(s, t, th).threads[t]);
    }
  }

  // ------------------------------------------- steps touching a single cell

  lemma ClaimPushCell<T>(s: Ring<T>, t: nat, i: nat)
    requires Inv(s) && t in s.threads && s.threads[t].PushClaim? && s.threads[t].pos == s.enqueue && i < |s.cells|
    ensures var s' := StepPush(s, t, s.threads[t]); Shape(s') && CellOk(s', i)
  {
    var n, pos := |s.cells|, s.threads[t].pos;
    MaskIsRemainder(pos, n);
    assert ThreadOk(s, t);
    assert CellOk(s, i);
    if i != pos % n && s.enqueue == Ticket(s, i) + n {
      NextLap(Ticket(s, i), n);
    }
  }

  lemma ClaimPushThread<T>(s: Ring<T>, t: nat, u: nat)
    requires Inv(s) && t in s.threads && s.threads[t].PushClaim? && s.threads[t].pos == s.enqueue && u in s.threads
    ensures var s' := StepPush(s, t, s.threads[t]); Shape(s') && ThreadOk(s', u)
  {
    MaskIsRemainder(s.threads[t].pos, |s.cells|);
    assert ThreadOk(s, t);
    assert ThreadOk(s, u);
  }

  lemma ClaimPushTicket<T>(s: Ring<T>, t: nat, k: nat)
    requires Inv(s) && t in s.threads && s.threads[t].PushClaim? && s.threads[t].pos == s.enqueue
    ensures var s' := StepPush(s, t, s.threads[t]); Shape(s') && TicketOk(s', k)
  {
    MaskIsRemainder(s.threads[t].pos, |s.cells|);
    assert ThreadOk(s, t);
    assert TicketOk(s, k);
  }

  lemma ClaimPushKeeps<T>(s: Ring<T>, t: nat)
    requires Inv(s) && t in s.threads && s.threads[t].PushClaim? && s.threads[t].pos == s.enqueue
    ensures Inv(StepPush(s, t, s.threads[t]))
  {
    forall i: nat | i < |s.cells| {
      ClaimPushCell(s, t, i);
    }
    forall u | u in s.threads {
      ClaimPushThread(s, t, u);
    }
    forall k: nat {
      ClaimPushTicket(s, t, k);
    }
  }

  lemma ClaimPopCell<T>(s: Ring<T>, t: nat, i: nat)
    requires Inv(s) && t in s.threads && s.threads[t].PopClaim? && s.threads[t].pos == s.dequeue && i < |s.cells|
    ensures var s' := StepPop(s, t, s.threads[t]); Shape(s') && CellOk(s', i)
  {
    var n, pos := |s.cells|, s.threads[t].pos;
    MaskIsRemainder(pos, n);
    assert ThreadOk(s, t);
    assert CellOk(s, pos % n);
    assert CellOk(s, i);
  }

  lemma ClaimPopThread<T>(s: Ring<T>, t: nat, u: nat)
    requires Inv(s) && t in s.threads && s.threads[t].PopClaim? && s.threads[t].pos == s.dequeue && u in s.threads
    ensures var s' := StepPop(s, t, s.threads[t]); Shape(s') && ThreadOk(s', u)
  {
    MaskIsRemainder(s.threads[t].pos, |s.cells|);
    assert ThreadOk(s, t);
    assert CellOk(s, s.threads[t].pos % |s.cells|);
    assert ThreadOk(s, u);
  }

  lemma ClaimPopTicket<T>(s: Ring<T>, t: nat, k: nat)
    requires Inv(s) && t in s.threads && s.threads[t].PopClaim? && s.threads[t].pos == s.dequeue
    ensures var s' := StepPop(s, t, s.threads[t]); Shape(s') && TicketOk(s', k)
  {
    MaskIsRemainder(s.threads[t].pos, |s.cells|);
    assert ThreadOk(s, t);
    assert CellOk(s, s.threads[t].pos % |s.cells|);
    assert TicketOk(s, k);
  }

  lemma ClaimPopKeeps<T>(s: Ring<T>, t: nat)
    requires Inv(s) && t in s.threads && s.threads[t].PopClaim? && s.threads[t].pos == s.dequeue
    ensures Inv(StepPop(s, t, s.threads[t]))
  {
    forall i: nat | i < |s.cells| {
      ClaimPopCell(s, t, i);
    }
    forall u | u in s.threads {
      ClaimPopThread(s, t, u);
    }
    forall k: nat {
      ClaimPopTicket(s, t, k);
    }
  }

  /** Thread `t` changed cell `j` and its own program point, and nothing else. */
  ghost predicate OnlyCell<T>(s: Ring<T>, s': Ring<T>, t: nat, j: nat) {
    && Shape(s) && Shape(s') && t in s.threads && t in s'.threads && j < |s.cells| == |s'.cells|
    && s'.enqueue == s.enqueue && s'.dequeue == s.dequeue
    && s'.history.pushed == s.history.pushed && s'.history.delivered == s.history.delivered
    && s'.threads == s.threads[t := s'.threads[t]]
    && (forall i :: 0 <= i < |s.cells| && i != j ==>
          s'.cells[i] == s.cells[i] && s'.history.phases[i] == s.history.phases[i])
  }

  lemma OtherCellKeeps<T>(s: Ring<T>, s': Ring<T>, t: nat, j: nat, i: nat)
    requires Inv(s) && OnlyCell(s, s', t, j)
    requires s.history.phases[j] == Claimed(t) || s.history.phases[j] == Taking(t)
    requires i < |s.cells| && i != j
    ensures CellOk(s', i)
  {
    assert CellOk(s, i) && CellOk(s, j);
  }

  lemma OtherThreadKeeps<T>(s: Ring<T>, s': Ring<T>, t: nat, j: nat, u: nat)
    requires Inv(s) && OnlyCell(s, s', t, j)
    requires s.history.phases[j] == Claimed(t) || s.history.phases[j] == Taking(t)
    requires u in s.threads && u != t
    requires s'.history.phases[j].Claimed? ==> s.history.phases[j].Claimed? && s'.cells[j].sequence == s.cells[j].sequence
    ensures ThreadOk(s', u)
  {
    assert ThreadOk(s, u);
  }

  /** The owner of a cell may change it as long as the cell keeps its ticket and both stay consistent. */
  lemma OwnCellKeeps<T>(s: Ring<T>, s': Ring<T>, t: nat, j: nat)
    requires Inv(s) && OnlyCell(s, s', t, j)
    requires s.history.phases[j] == Claimed(t) || s.history.phases[j] == Taking(t)
    requires CellOk(s', j) && ThreadOk(s', t) && Ticket(s', j) == Ticket(s, j)
    requires s'.history.phases[j].Taking? <==> s.history.phases[j].Taking?
    ensures Inv(s')
  {
    forall i: nat | i < |s.cells| && i != j {
      OtherCellKeeps(s, s', t, j, i);
    }
    forall u | u in s.threads && u != t {
      OtherThreadKeeps(s, s', t, j, u);
    }
    forall k: nat
      ensures TicketOk(s', k)
    {
      assert TicketOk(s, k);
    }
  }

  lemma EmplaceKeeps<T>(s: Ring<T>, t: nat)
    requires Inv(s) && t in s.threads && s.threads[t].PushEmplace?
    ensures Inv(StepPush(s, t, s.threads[t]))
  {
    var j := s.threads[t].pos % |s.cells|;
    MaskIsRemainder(s.threads[t].pos, |s.cells|);
    assert ThreadOk(s, t);
    assert CellOk(s, j);
    OwnCellKeeps(s, StepPush(s, t, s.threads[t]), t, j);
  }

  lemma PublishKeeps<T>(s: Ring<T>, t: nat)
    requires Inv(s) && t in s.threads && s.threads[t].PushPublish?
    ensures Inv(StepPush(s, t, s.threads[t]))
  {
    var j := s.threads[t].pos % |s.cells|;
    MaskIsRemainder(s.threads[t].pos, |s.cells|);
    assert ThreadOk(s, t);
    assert CellOk(s, j);
    OwnCellKeeps(s, StepPush(s, t, s.threads[t]), t, j);
  }

  lemma MoveKeeps<T>(s: Ring<T>, t: nat)
    requires Inv(s) && t in s.threads && s.threads[t].PopMove?
    ensures Inv(StepPop(s, t, s.threads[t]))
  {
    var j := s.threads[t].pos % |s.cells|;
    MaskIsRemainder(s.threads[t].pos, |s.cells|);
    assert ThreadOk(s, t);
    assert CellOk(s, j);
    OwnCellKeeps(s, StepPop(s, t, s.threads[t]), t, j);
  }

  lemma ResetKeeps<T>(s: Ring<T>, t: nat)
    requires Inv(s) && t in s.threads && s.threads[t].PopReset?
    ensures Inv(StepPop(s, t, s.threads[t]))
  {
    var j := s.threads[t].pos % |s.cells|;
    MaskIsRemainder(s.threads[t].pos, |s.cells|);
    assert ThreadOk(s, t);
    assert CellOk(s, j);
    OwnCellKeeps(s, StepPop(s, t, s.threads[t]), t, j);
  }

  /** The released cell is free for the ticket one lap on. */
  lemma ReleasedCell<T>(s: Ring<T>, t: nat)
    requires Inv(s) && t in s.threads && s.threads[t].PopRelease?
    ensures var s' := StepPop(s, t, s.threads[t]); Shape(s') && CellOk(s', s.threads[t].pos % |s.cells|)
  {
    var n, pos := |s.cells|, s.threads[t].pos;
    MaskIsRemainder(pos, n);
    NextLap(pos, n);
    assert ThreadOk(s, t);
    assert CellOk(s, pos % n);
  }

  lemma ReleaseKeepsCell<T>(s: Ring<T>, t: nat, i: nat)
    requires Inv(s) && t in s.threads && s.threads[t].PopRelease? && i < |s.cells|
    ensures var s' := StepPop(s, t, s.threads[t]); Shape(s') && CellOk(s', i)
  {
    var n, pos := |s.cells|, s.threads[t].pos;
    if i == pos % n {
      ReleasedCell(s, t);
    } else {
      MaskIsRemainder(pos, n);
      assert ThreadOk(s, t);
      assert CellOk(s, i);
    }
  }

  lemma ReleaseKeepsThread<T>(s: Ring<T>, t: nat, u: nat)
    requires Inv(s) && t in s.threads && s.threads[t].PopRelease? && u in s.threads
    ensures var s' := StepPop(s, t, s.threads[t]); Shape(s') && ThreadOk(s', u)
  {
    MaskIsRemainder(s.threads[t].pos, |s.cells|);
    assert ThreadOk(s, t);
    assert ThreadOk(s, u);
  }

  lemma ReleaseKeepsTicket<T>(s: Ring<T>, t: nat, k: nat)
    requires Inv(s) && t in s.threads && s.threads[t].PopRelease?
    ensures var s' := StepPop(s, t, s.threads[t]); Shape(s') && TicketOk(s', k)
  {
    var pos := s.threads[t].pos;
    MaskIsRemainder(pos, |s.cells|);
    assert ThreadOk(s, t);
    assert CellOk(s, pos % |s.cells|);
    assert TicketOk(s, k);
  }

  lemma ReleaseKeeps<T>(s: Ring<T>, t: nat)
    requires Inv(s) && t in s.threads && s.threads[t].PopRelease?
    ensures Inv(StepPop(s, t, s.threads[t]))
  {
    forall i: nat | i < |s.cells| {
      ReleaseKeepsCell(s, t, i);
    }
    forall u | u in s.threads {
      ReleaseKeepsThread(s, t, u);
    }
    forall k: nat {
      ReleaseKeepsTicket(s, t, k);
    }
  }

  // -------------------------------------------------------------- every step

  lemma StepKeeps<T(!new)>(s: Ring<T>, e: Event<T>)
    requires Inv(s) && Enabled(s, e)
    ensures Inv(Step(s, e))
  {
    var t, th := e.thread, s.threads[e.thread];
    if e.action.Advance? {
      match th
      case PushLoad(_) => GotoKeeps(s, t, Step(s, e).threads[t]);
      case PushInspect(_, _) => InspectKeeps(s, t);
      case PushClaim(_, pos) =>
        if pos == s.enqueue { ClaimPushKeeps(s, t); } else { GotoKeeps(s, t, Step(s, e).threads[t]); }
      case PushEmplace(_, _) => EmplaceKeeps(s, t);
      case PushPublish(_, _) => PublishKeeps(s, t);
      case PopLoad => GotoKeeps(s, t, Step(s, e).threads[t]);
      case PopInspect(_) => InspectKeeps(s, t);
      case PopClaim(pos) =>
        if pos == s.dequeue { ClaimPopKeeps(s, t); } else { GotoKeeps(s, t, Step(s, e).threads[t]); }
      case PopMove(_) => MoveKeeps(s, t);
      case PopReset(_, _) => ResetKeeps(s, t);
      case PopRelease(_, _) => ReleaseKeeps(s, t);
    } else {
      GotoKeeps(s, t, Step(s, e).threads[t]);
    }
  }

  lemma {:induction false} RunsKeep<T(!new)>(s: Ring<T>, trace: seq<Event<T>>, s': Ring<T>)
    requires Inv(s) && Runs(s, trace, s')
    ensures Inv(s')
    decreases |trace|
  {
    if trace != [] {
      StepKeeps(s, trace[0]);
      RunsKeep(Step(s, trace[0]), trace[1..], s');
    }
  }
}
