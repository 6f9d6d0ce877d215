/**
 What each step of a push or a pop makes of its own thread, whatever the others do meanwhile: which
 item it carries, which position it looks at, and that only a justified look refuses.
 */
module RingAnswers {
  import opened Common
  import opened RingProtocol
  import opened RingInvariant
  import opened RingTheorems

  /** The item a push carries, or was answered about last. */
  function ItemOf<T>(th: Thread<T>): Option<T> {
    if th.PushLoad? || th.PushInspect? || th.PushClaim? || th.PushEmplace? || th.PushPublish? || th.PushReturned?
    then Some(th.item) else None
  }

  /** A step moves its own thread alone; an item once begun is kept until the push has returned. */
  lemma StepKeepsItem<T(!new)>(s: Ring<T>, e: Event<T>)
    requires Enabled(s, e)
    ensures var s', t := Step(s, e), e.thread;
            && t in s'.threads && s'.threads == s.threads[t := s'.threads[t]]
            && (ItemOf(s'.threads[t]).Some? ==>
                  ItemOf(s'.threads[t]) == if e.action.BeginPush? then Some(e.action.item) else ItemOf(s.threads[t]))
  {}

  /** A thread that turns to a cell turns to the one the counter names now, also after a lost exchange. */
  lemma LooksAreFresh<T(!new)>(s: Ring<T>, e: Event<T>)
    requires Enabled(s, e)
    ensures var s', t := Step(s, e), e.thread;
            && t in s'.threads
            && (s'.threads[t].PushInspect? ==> s'.threads[t].pos == s'.enqueue)
            && (s'.threads[t].PopInspect? ==> s'.threads[t].pos == s'.dequeue)
  {}

  /** Only a look at a cell can refuse: losing the exchange, to another thread or spuriously, never does. */
  lemma OnlyLooksRefuse<T(!new)>(s: Ring<T>, e: Event<T>)
    requires Enabled(s, e)
    ensures var s', t := Step(s, e), e.thread;
            && t in s'.threads
            && (s'.threads[t].PushReturned? && !s'.threads[t].ok ==> s.threads[t].PushInspect? && e.action.Advance?)
            && (s'.threads[t] == PopReturned(None) ==>
                  e.action.Advance? && (s.threads[t].PopInspect? || (s.threads[t].PopRelease? && s.threads[t].result.None?)))
  {}

  /** So, in every run, a step that refuses a push finds the ticket one lap back not yet released. */
  lemma RefusedPushWasFull<T(!new)>(requested: nat, s: Ring<T>, e: Event<T>)
    requires Reachable(requested, s) && Enabled(s, e)
    requires var th := Step(s, e).threads[e.thread]; th.PushReturned? && !th.ok
    ensures var lapBack := s.enqueue - s.Capacity();
            && lapBack >= 0 && lapBack !in s.history.delivered
            && (s.enqueue - s.dequeue == s.Capacity() || exists u :: InHand(s, lapBack, u))
  {
    OnlyLooksRefuse(s, e);
    PushRefusalJustified(requested, s, e.thread);
  }

  lemma ReleasedHasItem<T(!new)>(requested: nat, s: Ring<T>, t: nat)
    requires Reachable(requested, s) && t in s.threads && s.threads[t].PopRelease?
    ensures s.threads[t].result.Some?
  {
    ReachableInv(requested, s);
    assert ThreadOk(s, t);
    assert CellOk(s, s.threads[t].pos % |s.cells|);
  }

  /** And one that refuses a pop finds nothing pushed, or the next item still being stored. */
  lemma RefusedPopWasEmpty<T(!new)>(requested: nat, s: Ring<T>, e: Event<T>)
    requires Reachable(requested, s) && Enabled(s, e) && Step(s, e).threads[e.thread] == PopReturned(None)
    ensures s.enqueue == s.dequeue || exists u :: BeingFilled(s, s.dequeue, u)
  {
    OnlyLooksRefuse(s, e);
    if s.threads[e.thread].PopRelease? {
      ReleasedHasItem(requested, s, e.thread);
    } else {
      PopRefusalJustified(requested, s, e.thread);
    }
  }

  // -------------------------------------------------------------------- over runs

  /** The item each thread last asked the ring to take. */
  function Asked<T>(asked: map<nat, T>, trace: seq<Event<T>>): map<nat, T>
    decreases |trace|
  {
    if trace == [] then asked
    else
      var e := trace[0];
      Asked(if e.action.BeginPush? then asked[e.thread := e.action.item] else asked, trace[1..])
  }

  ghost predicate Remembers<T>(s: Ring<T>, asked: map<nat, T>) {
    forall t :: t in s.threads && ItemOf(s.threads[t]).Some? ==> t in asked && asked[t] == ItemOf(s.threads[t]).value
  }

  lemma StepRemembers<T(!new)>(s: Ring<T>, s': Ring<T>, e: Event<T>, asked: map<nat, T>)
    requires Enabled(s, e) && s' == Step(s, e) && Remembers(s, asked)
    ensures Remembers(s', if e.action.BeginPush? then asked[e.thread := e.action.item] else asked)
  {
    StepKeepsItem(s, e);
  }

  lemma {:induction false} RunRemembers<T(!new)>(s: Ring<T>, trace: seq<Event<T>>, s': Ring<T>, asked: map<nat, T>)
    requires Runs(s, trace, s') && Remembers(s, asked)
    ensures Remembers(s', Asked(asked, trace))
    decreases |trace|
  {
    if trace != [] {
      var e := trace[0];
      StepRemembers(s, Step(s, e), e, asked);
      RunRemembers(Step(s, e), trace[1..], s', if e.action.BeginPush? then asked[e.thread := e.action.item] else asked);
    }
  }

  /**
   Whatever the interleaving, an accepted push put the item its thread asked for, and no other, under
   its ticket; that item is in its cell, in a pop's hands or delivered.
   */
  lemma AcceptedAsAsked<T(!new)>(requested: nat, n: nat, ids: set<nat>, trace: seq<Event<T>>, s: Ring<T>, t: nat)
    requires IsRoundedCapacity(requested, n) && Runs(Init<T>(n, ids), trace, s)
    requires t in s.threads && s.threads[t].PushReturned? && s.threads[t].ok
    ensures s.WellFormed() && t in Asked(map[], trace)
    ensures var k := s.threads[t].pos;
            && k < |s.history.pushed| && s.history.pushed[k] == Asked(map[], trace)[t]
            && (InCell(s, k) || k in s.history.delivered || exists u :: InHand(s, k, u))
  {
    RunRemembers(Init<T>(n, ids), trace, s, map[]);
    assert Reachable(requested, s);
    AcceptedItemIsThere(requested, s, t);
  }
}
