/**
 One operation of the ring while no other thread moves: the runs of the ring protocol that
 `try_push` and `try_pop` make up, access by access, and what they lead to.
 */
module RingSolo {
  import opened Common
  import opened RingProtocol
  import opened RingTheorems

  function Next<T>(t: nat): Event<T> { Event(t, Advance) }

  /** Compare-exchanges that fail although the values agree, each followed by a new look at the cell. */
  function Failures<T>(t: nat, n: nat): seq<Event<T>> {
    if n == 0 then [] else [Event(t, SpuriousFail)] + ([Next<T>(t)] + Failures(t, n - 1))
  }

  /** The accesses of a push: load, inspect, and if accepted claim (at last), emplace and publish. */
  function PushTrace<T>(t: nat, item: T, spurious: nat, ok: bool): seq<Event<T>> {
    [Event(t, BeginPush(item))] + ([Next<T>(t)] + ([Next<T>(t)] +
      (if ok then Failures(t, spurious) + ([Next<T>(t)] + ([Next<T>(t)] + ([Next<T>(t)] + []))) else [])))
  }

  /** The accesses of a pop: load, inspect, and if there is an item claim (at last), move, reset and release. */
  function PopTrace<T>(t: nat, spurious: nat, ok: bool): seq<Event<T>> {
    [Event(t, BeginPop)] + ([Next<T>(t)] + ([Next<T>(t)] +
      (if ok then Failures(t, spurious) + ([Next<T>(t)] + ([Next<T>(t)] + ([Next<T>(t)] + ([Next<T>(t)] + [])))) else [])))
  }

  /** A thread about to start an operation on a ring of any kind. */
  ghost predicate Ready<T(!new)>(s: Ring<T>, t: nat) {
    s.WellFormed() && t in s.threads && Resting(s.threads[t])
  }

  /** The ring after an accepted push. */
  function Pushed<T>(s: Ring<T>, t: nat, item: T): Ring<T>
    requires |s.cells| > 0 && |s.history.phases| == |s.cells|
  {
    var p, i := s.enqueue, s.Index(s.enqueue);
    Ring(s.cells[i := Cell(p + 1, Full(item))], p + 1, s.dequeue, s.threads[t := PushReturned(true, item, p)],
         s.history.(pushed := s.history.pushed + [item], phases := s.history.phases[i := Published]))
  }

  /** The ring after a pop that took the head. */
  function Popped<T>(s: Ring<T>, t: nat, item: T): Ring<T>
    requires |s.cells| > 0 && |s.history.phases| == |s.cells|
  {
    var p, i := s.dequeue, s.Index(s.dequeue);
    Ring(s.cells[i := Cell(p + |s.cells|, Empty)], s.enqueue, p + 1, s.threads[t := PopReturned(Some(item))],
         s.history.(delivered := s.history.delivered[p := Some(item)], phases := s.history.phases[i := Free]))
  }

  // ------------------------------------------------------------------------ push

  /** After a spurious failure the next look leads back to the same claim. */
  lemma LookAgain<T(!new)>(s: Ring<T>, t: nat, m: Ring<T>)
    requires s.WellFormed() && t in s.threads
    requires var th := s.threads[t];
             || (th.PushClaim? && th.pos == s.enqueue && s.cells[s.Index(th.pos)].sequence == th.pos && m == Goto(s, t, PushInspect(th.item, th.pos)))
             || (th.PopClaim? && th.pos == s.dequeue && s.cells[s.Index(th.pos)].sequence == th.pos + 1 && m == Goto(s, t, PopInspect(th.pos)))
    ensures Step(s, Event(t, SpuriousFail)) == m && Step(m, Next<T>(t)) == s
  {
    assert m.threads[t := s.threads[t]] == s.threads;
  }

  lemma FailuresStep<T>(t: nat, n: nat, rest: seq<Event<T>>)
    requires n > 0
    ensures Failures<T>(t, n) + rest == [Event(t, SpuriousFail)] + ([Next<T>(t)] + (Failures<T>(t, n - 1) + rest))
  {}

  lemma {:induction false} PushFailures<T(!new)>(s: Ring<T>, t: nat, item: T, n: nat, rest: seq<Event<T>>, s': Ring<T>)
    requires s.WellFormed() && t in s.threads && s.threads[t] == PushClaim(item, s.enqueue)
    requires s.cells[s.Index(s.enqueue)].sequence == s.enqueue && Runs(s, rest, s')
    ensures Runs(s, Failures(t, n) + rest, s')
    decreases n
  {
    if n == 0 {
      assert Failures<T>(t, n) + rest == rest;
    } else {
      var m, later := Goto(s, t, PushInspect(item, s.enqueue)), Failures<T>(t, n - 1) + rest;
      PushFailures(s, t, item, n - 1, rest, s');
      LookAgain(s, t, m);
      RunsStep(m, Next<T>(t), s, later, s');
      RunsStep(s, Event(t, SpuriousFail), m, [Next<T>(t)] + later, s');
      FailuresStep(t, n, rest);
    }
  }

  /** From the claim on: the cell is taken, filled and published. */
  lemma PushCommit<T(!new)>(s: Ring<T>, t: nat, item: T)
    requires s.WellFormed() && t in s.threads && s.cells[s.Index(s.enqueue)].sequence == s.enqueue
    ensures Runs(Goto(s, t, PushClaim(item, s.enqueue)), [Next<T>(t)] + ([Next<T>(t)] + ([Next<T>(t)] + [])), Pushed(s, t, item))
  {
    var p, i := s.enqueue, s.Index(s.enqueue);
    var h := s.history.(pushed := s.history.pushed + [item], phases := s.history.phases[i := Claimed(t)]);
    var claimed := Ring(s.cells, p + 1, s.dequeue, s.threads[t := PushEmplace(item, p)], h);
    var filled := Ring(s.cells[i := Cell(p, Full(item))], p + 1, s.dequeue, s.threads[t := PushPublish(item, p)], h);
    PushClaimStep(s, t, item, claimed);
    PushEmplaceStep(claimed, t, item, p, filled);
    PushPublishStep(filled, t, item, p, Pushed(s, t, item));
    RunsStep(filled, Next<T>(t), Pushed(s, t, item), [], Pushed(s, t, item));
    RunsStep(claimed, Next<T>(t), filled, [Next<T>(t)] + [], Pushed(s, t, item));
    RunsStep(Goto(s, t, PushClaim(item, p)), Next<T>(t), claimed, [Next<T>(t)] + ([Next<T>(t)] + []), Pushed(s, t, item));
  }

  lemma PushClaimStep<T(!new)>(s: Ring<T>, t: nat, item: T, s': Ring<T>)
    requires s.WellFormed() && t in s.threads
    requires s' == Ring(s.cells, s.enqueue + 1, s.dequeue, s.threads[t := PushEmplace(item, s.enqueue)],
                        s.history.(pushed := s.history.pushed + [item], phases := s.history.phases[s.Index(s.enqueue) := Claimed(t)]))
    ensures Step(Goto(s, t, PushClaim(item, s.enqueue)), Next<T>(t)) == s'
  {
    var i := s.Index(s.enqueue);
    assert s.cells[i := s.cells[i]] == s.cells;
    assert s.threads[t := PushClaim(item, s.enqueue)][t := PushEmplace(item, s.enqueue)] == s'.threads;
  }

  lemma PushEmplaceStep<T(!new)>(s: Ring<T>, t: nat, item: T, p: nat, s': Ring<T>)
    requires s.WellFormed() && t in s.threads && s.threads[t] == PushEmplace(item, p)
    requires var i := s.Index(p); s' == s.(cells := s.cells[i := Cell(s.cells[i].sequence, Full(item))],
                                           threads := s'.threads)
    requires s'.threads == s.threads[t := PushPublish(item, p)]
    ensures Step(s, Next<T>(t)) == s'
  {
    var i := s.Index(p);
    assert s.history.phases[i := s.history.phases[i]] == s.history.phases;
  }

  lemma PushPublishStep<T(!new)>(s: Ring<T>, t: nat, item: T, p: nat, s': Ring<T>)
    requires s.WellFormed() && t in s.threads && s.threads[t] == PushPublish(item, p)
    requires var i := s.Index(p); s' == s.(cells := s'.cells, threads := s'.threads,
                                           history := s.history.(phases := s'.history.phases))
    requires var i := s.Index(p);
             s'.cells == s.cells[i := s.cells[i].(sequence := p + 1)] && s'.history.phases == s.history.phases[i := Published]
    requires s'.threads == s.threads[t := PushReturned(true, item, p)]
    ensures Step(s, Next<T>(t)) == s'
  {}

  lemma PushLook<T(!new)>(s: Ring<T>, t: nat, item: T, seen: Ring<T>, rest: seq<Event<T>>, s': Ring<T>)
    requires Ready(s, t) && Runs(seen, rest, s')
    requires seen == StepPush(Goto(s, t, PushInspect(item, s.enqueue)), t, PushInspect(item, s.enqueue))
    ensures Runs(s, [Event(t, BeginPush(item))] + ([Next<T>(t)] + ([Next<T>(t)] + rest)), s')
  {
    var s1, s2 := Goto(s, t, PushLoad(item)), Goto(s, t, PushInspect(item, s.enqueue));
    assert Goto(s1, t, PushInspect(item, s.enqueue)).threads == s2.threads;
    RunsStep(s2, Next<T>(t), seen, rest, s');
    RunsStep(s1, Next<T>(t), s2, [Next<T>(t)] + rest, s');
    RunsStep(s, Event(t, BeginPush(item)), s1, [Next<T>(t)] + ([Next<T>(t)] + rest), s');
  }

  /** What the look at the cell decides. */
  lemma PushSeen<T(!new)>(s: Ring<T>, t: nat, item: T)
    requires s.WellFormed()
    ensures var p := s.enqueue;
            var seen := StepPush(Goto(s, t, PushInspect(item, p)), t, PushInspect(item, p));
            && (s.cells[s.Index(p)].sequence == p ==> seen == Goto(s, t, PushClaim(item, p)))
            && (s.cells[s.Index(p)].sequence < p ==> seen == Goto(s, t, PushReturned(false, item, p)))
  {
    Twice(s, t, PushInspect(item, s.enqueue), PushClaim(item, s.enqueue));
    Twice(s, t, PushInspect(item, s.enqueue), PushReturned(false, item, s.enqueue));
  }

  lemma Twice<T>(s: Ring<T>, t: nat, a: Thread<T>, b: Thread<T>)
    ensures Goto(Goto(s, t, a), t, b) == Goto(s, t, b)
  {
    assert s.threads[t := a][t := b] == s.threads[t := b];
  }

  /** A push that finds its cell free is accepted, after any number of spurious failures. */
  lemma PushAccepted<T(!new)>(s: Ring<T>, t: nat, item: T, spurious: nat)
    requires Ready(s, t) && s.cells[s.Index(s.enqueue)].sequence == s.enqueue
    ensures Runs(s, PushTrace(t, item, spurious, true), Pushed(s, t, item))
  {
    var claim := Goto(s, t, PushClaim(item, s.enqueue));
    var commit := [Next<T>(t)] + ([Next<T>(t)] + ([Next<T>(t)] + []));
    PushCommit(s, t, item);
    PushFailures(claim, t, item, spurious, commit, Pushed(s, t, item));
    PushSeen(s, t, item);
    PushLook(s, t, item, claim, Failures<T>(t, spurious) + commit, Pushed(s, t, item));
  }

  /** A push that finds its cell a lap behind is refused and changes nothing. */
  lemma PushRefused<T(!new)>(s: Ring<T>, t: nat, item: T, spurious: nat)
    requires Ready(s, t) && s.cells[s.Index(s.enqueue)].sequence < s.enqueue
    ensures Runs(s, PushTrace(t, item, spurious, false), Goto(s, t, PushReturned(false, item, s.enqueue)))
  {
    var refused := Goto(s, t, PushReturned(false, item, s.enqueue));
    PushSeen(s, t, item);
    assert Runs(refused, [], refused);
    PushLook(s, t, item, refused, [], refused);
  }

  // ------------------------------------------------------------------------- pop

  lemma {:induction false} PopFailures<T(!new)>(s: Ring<T>, t: nat, n: nat, rest: seq<Event<T>>, s': Ring<T>)
    requires s.WellFormed() && t in s.threads && s.threads[t] == PopClaim(s.dequeue)
    requires s.cells[s.Index(s.dequeue)].sequence == s.dequeue + 1 && Runs(s, rest, s')
    ensures Runs(s, Failures(t, n) + rest, s')
    decreases n
  {
    if n == 0 {
      assert Failures<T>(t, n) + rest == rest;
    } else {
      var m, later := Goto(s, t, PopInspect(s.dequeue)), Failures<T>(t, n - 1) + rest;
      PopFailures(s, t, n - 1, rest, s');
      LookAgain(s, t, m);
      RunsStep(m, Next<T>(t), s, later, s');
      RunsStep(s, Event(t, SpuriousFail), m, [Next<T>(t)] + later, s');
      FailuresStep(t, n, rest);
    }
  }

  lemma PopClaimStep<T(!new)>(s: Ring<T>, t: nat, s': Ring<T>)
    requires s.WellFormed() && t in s.threads
    requires s' == Ring(s.cells, s.enqueue, s.dequeue + 1, s.threads[t := PopMove(s.dequeue)],
                        s.history.(phases := s.history.phases[s.Index(s.dequeue) := Taking(t)]))
    ensures Step(Goto(s, t, PopClaim(s.dequeue)), Next<T>(t)) == s'
  {
    var i := s.Index(s.dequeue);
    assert s.cells[i := s.cells[i]] == s.cells;
    assert s.threads[t := PopClaim(s.dequeue)][t := PopMove(s.dequeue)] == s'.threads;
  }

  /** Moving the item out and resetting the cell. */
  lemma PopEmptySteps<T(!new)>(s: Ring<T>, t: nat, item: T, p: nat, moved: Ring<T>, s': Ring<T>)
    requires s.WellFormed() && t in s.threads && s.threads[t] == PopMove(p) && s.cells[s.Index(p)].slot == Full(item)
    requires var i := s.Index(p);
             && moved == s.(cells := s.cells[i := Cell(s.cells[i].sequence, MovedFrom)], threads := s.threads[t := PopReset(p, Some(item))])
             && s' == s.(cells := s.cells[i := Cell(s.cells[i].sequence, Empty)], threads := s.threads[t := PopRelease(p, Some(item))])
    ensures Step(s, Next<T>(t)) == moved && Step(moved, Next<T>(t)) == s'
  {
    var i := s.Index(p);
    assert s.history.phases[i := s.history.phases[i]] == s.history.phases;
    assert moved.cells[i := Cell(s.cells[i].sequence, Empty)] == s'.cells;
    assert moved.threads[t := PopRelease(p, Some(item))] == s'.threads;
  }

  lemma PopReleaseStep<T(!new)>(s: Ring<T>, t: nat, item: T, p: nat, s': Ring<T>)
    requires s.WellFormed() && t in s.threads && s.threads[t] == PopRelease(p, Some(item)) && s.cells[s.Index(p)].slot == Empty
    requires var i := s.Index(p);
             s' == Ring(s.cells[i := Cell(p + |s.cells|, Empty)], s.enqueue, s.dequeue, s.threads[t := PopReturned(Some(item))],
                        s.history.(delivered := s.history.delivered[p := Some(item)], phases := s.history.phases[i := Free]))
    ensures Step(s, Next<T>(t)) == s'
  {}

  lemma PopReleased<T(!new)>(s: Ring<T>, t: nat, item: T, empty: Ring<T>)
    requires s.WellFormed() && t in s.threads
    requires var p, i := s.dequeue, s.Index(s.dequeue);
             empty == Ring(s.cells[i := Cell(p + 1, Empty)], s.enqueue, p + 1, s.threads[t := PopMove(p)][t := PopRelease(p, Some(item))],
                           s.history.(phases := s.history.phases[i := Taking(t)]))
    ensures Step(empty, Next<T>(t)) == Popped(s, t, item)
  {
    var p, i, end := s.dequeue, s.Index(s.dequeue), Popped(s, t, item);
    assert empty.cells[i := Cell(p + |s.cells|, Empty)] == end.cells && empty.threads[t := PopReturned(Some(item))] == end.threads;
    assert empty.history.phases[i := Free] == end.history.phases;
    PopReleaseStep(empty, t, item, p, end);
  }

  lemma PopCommit<T(!new)>(s: Ring<T>, t: nat, item: T)
    requires s.WellFormed() && t in s.threads && s.cells[s.Index(s.dequeue)] == Cell(s.dequeue + 1, Full(item))
    ensures Runs(Goto(s, t, PopClaim(s.dequeue)), [Next<T>(t)] + ([Next<T>(t)] + ([Next<T>(t)] + ([Next<T>(t)] + []))), Popped(s, t, item))
  {
    var p, i, end := s.dequeue, s.Index(s.dequeue), Popped(s, t, item);
    var h := s.history.(phases := s.history.phases[i := Taking(t)]);
    var claimed := Ring(s.cells, s.enqueue, p + 1, s.threads[t := PopMove(p)], h);
    var moved := claimed.(cells := s.cells[i := Cell(p + 1, MovedFrom)], threads := claimed.threads[t := PopReset(p, Some(item))]);
    var empty := claimed.(cells := s.cells[i := Cell(p + 1, Empty)], threads := claimed.threads[t := PopRelease(p, Some(item))]);
    PopClaimStep(s, t, claimed);
    PopEmptySteps(claimed, t, item, p, moved, empty);
    PopReleased(s, t, item, empty);
    RunsStep(empty, Next<T>(t), end, [], end);
    RunsStep(moved, Next<T>(t), empty, [Next<T>(t)] + [], end);
    RunsStep(claimed, Next<T>(t), moved, [Next<T>(t)] + ([Next<T>(t)] + []), end);
    RunsStep(Goto(s, t, PopClaim(p)), Next<T>(t), claimed, [Next<T>(t)] + ([Next<T>(t)] + ([Next<T>(t)] + [])), end);
  }

  lemma PopLook<T(!new)>(s: Ring<T>, t: nat, seen: Ring<T>, rest: seq<Event<T>>, s': Ring<T>)
    requires Ready(s, t) && Runs(seen, rest, s')
    requires seen == StepPop(Goto(s, t, PopInspect(s.dequeue)), t, PopInspect(s.dequeue))
    ensures Runs(s, [Event(t, BeginPop)] + ([Next<T>(t)] + ([Next<T>(t)] + rest)), s')
  {
    var s1, s2 := Goto(s, t, PopLoad), Goto(s, t, PopInspect(s.dequeue));
    assert Goto(s1, t, PopInspect(s.dequeue)).threads == s2.threads;
    RunsStep(s2, Next<T>(t), seen, rest, s');
    RunsStep(s1, Next<T>(t), s2, [Next<T>(t)] + rest, s');
    RunsStep(s, Event(t, BeginPop), s1, [Next<T>(t)] + ([Next<T>(t)] + rest), s');
  }

  lemma PopSeen<T(!new)>(s: Ring<T>, t: nat)
    requires s.WellFormed()
    ensures var p := s.dequeue;
            var seen := StepPop(Goto(s, t, PopInspect(p)), t, PopInspect(p));
            && (s.cells[s.Index(p)].sequence == p + 1 ==> seen == Goto(s, t, PopClaim(p)))
            && (s.cells[s.Index(p)].sequence <= p ==> seen == Goto(s, t, PopReturned(None)))
  {
    Twice(s, t, PopInspect(s.dequeue), PopClaim(s.dequeue));
    Twice(s, t, PopInspect(s.dequeue), PopReturned(None));
  }

  /** A pop that finds the head published takes it, after any number of spurious failures. */
  lemma PopAccepted<T(!new)>(s: Ring<T>, t: nat, item: T, spurious: nat)
    requires Ready(s, t) && s.cells[s.Index(s.dequeue)] == Cell(s.dequeue + 1, Full(item))
    ensures Runs(s, PopTrace(t, spurious, true), Popped(s, t, item))
  {
    var claim := Goto(s, t, PopClaim(s.dequeue));
    var commit := [Next<T>(t)] + ([Next<T>(t)] + ([Next<T>(t)] + ([Next<T>(t)] + [])));
    PopCommit(s, t, item);
    PopFailures(claim, t, spurious, commit, Popped(s, t, item));
    PopSeen(s, t);
    PopLook(s, t, claim, Failures<T>(t, spurious) + commit, Popped(s, t, item));
  }

  /** A pop that finds the head unpublished is refused and changes nothing. */
  lemma PopRefused<T(!new)>(s: Ring<T>, t: nat, spurious: nat)
    requires Ready(s, t) && s.cells[s.Index(s.dequeue)].sequence <= s.dequeue
    ensures Runs(s, PopTrace(t, spurious, false), Goto(s, t, PopReturned(None)))
  {
    var refused := Goto(s, t, PopReturned(None));
    PopSeen(s, t);
    assert Runs(refused, [], refused);
    PopLook(s, t, refused, [], refused);
  }

  // ------------------------------------------------------------------ reachable

  lemma {:induction false} RunsAppend<T(!new)>(s: Ring<T>, a: seq<Event<T>>, m: Ring<T>, b: seq<Event<T>>, s': Ring<T>)
    requires Runs(s, a, m) && Runs(m, b, s')
    ensures Runs(s, a + b, s')
    decreases |a|
  {
    if a == [] {
      assert a + b == b;
    } else {
      RunsAppend(Step(s, a[0]), a[1..], m, b, s');
      assert (a + b)[1..] == a[1..] + b;
    }
  }

  lemma StartsReachable<T(!new)>(requested: nat, n: nat, ids: set<nat>)
    requires IsRoundedCapacity(requested, n)
    ensures Reachable(requested, Init<T>(n, ids))
  {
    assert Runs(Init<T>(n, ids), [], Init<T>(n, ids));
  }

  /** A run from a reachable ring leads to a reachable ring. */
  lemma StaysReachable<T(!new)>(requested: nat, s: Ring<T>, trace: seq<Event<T>>, s': Ring<T>)
    requires Reachable(requested, s) && Runs(s, trace, s')
    ensures Reachable(requested, s')
  {
    var n: nat, ids: set<nat>, before: seq<Event<T>> :| IsRoundedCapacity(requested, n) && Runs(Init(n, ids), before, s);
    RunsAppend(Init(n, ids), before, s, trace, s');
  }
}
