/**
 One session of the server and whatever ends it: how what recovery finds afterwards relates to the
 replies that were sent, to those that were not, and to what was there when the session began.
 */
module CommitSessions {
  import opened Common
  import opened Protocol
  import opened Framing
  import opened LogScan
  import opened CommitProtocol
  import opened CommitInvariant
  import opened CommitTheorems
  import opened CommitRefinement

  // ------------------------------------------------------- the exact count

  /** A record is synced, or its frame complete, and its reply not yet formed. */
  predicate InDoubt(h: History) { h.unreleased || Complete(h) }

  /** Replies outstanding, and one more if a mutation is in doubt. */
  function Unanswered(h: History): nat { |h.unsent| + if InDoubt(h) then 1 else 0 }

  /** How many mutations of this session recovery would find beyond those it acknowledged. */
  ghost function Unacknowledged(s: Server): int {
    |Recovered(s)| - s.history.base - (|s.history.acks| - s.history.firstAck)
  }

  lemma CountExactly(parse: Parser, s: Server)
    requires Inv(parse, s)
    ensures var h := s.history;
            |ScanWith(parse, s.disk.bytes).mutations| == h.base + (|h.acks| - h.firstAck) + Unanswered(h)
  {
    RecoveryFinds(parse, s);
  }

  /** The one in doubt is the last mutation recovery finds. */
  predicate DoubtAt(h: History, found: seq<Command>, at: nat) { InDoubt(h) && at == |found| - 1 }

  predicate ExactlyOne(a: bool, b: bool, c: bool) { (a || b || c) && !(a && b) && !(a && c) && !(b && c) }

  lemma PlaceOf(parse: Parser, s: Server, at: nat)
    requires Inv(parse, s) && s.history.base <= at < |ScanWith(parse, s.disk.bytes).mutations|
    ensures ExactlyOne(Acked(s.history, at), Waiting(s.history, at), DoubtAt(s.history, ScanWith(parse, s.disk.bytes).mutations, at))
  {
    RecoveryFinds(parse, s);
    PlaceInLog(parse, s.history, at);
  }

  lemma PlaceInLog(parse: Parser, h: History, at: nat)
    requires LogOk(parse, h) && AcksOk(parse, h) && RepliesOk(h) && Placed(h) && h.base <= at
    ensures Acked(h, at) ==> at < h.hard && !Waiting(h, at) && !(h.unreleased && at == |h.log| - 1)
    ensures Waiting(h, at) ==> at < h.hard && !(h.unreleased && at == |h.log| - 1)
    ensures at < |h.log| ==> Acked(h, at) || Waiting(h, at) || (h.unreleased && at == |h.log| - 1)
  {}

  /**
   What recovery finds of a session, place by place: each mutation behind its base is one that was
   acknowledged for that place, or one whose reply waits to be sent, or the last and in doubt, and
   exactly one of these.  So the unacknowledged ones are as many as unsent replies and the one in doubt.
   */
  lemma UnacknowledgedExactly(s: Server)
    requires Reachable(s)
    ensures forall at: nat :: s.history.base <= at < |Recovered(s)| ==>
              ExactlyOne(Acked(s.history, at), Waiting(s.history, at), DoubtAt(s.history, Recovered(s), at))
    ensures Unacknowledged(s) == Unanswered(s.history)
    ensures s.up ==> |s.history.unsent| == |s.outbox|
  {
    ReachableInv(s);
    CountExactly(ParseCommand, s);
    forall at: nat | s.history.base <= at < |Recovered(s)| {
      PlaceOf(ParseCommand, s, at);
    }
    if s.up {
      SameSize(s.outbox, s.history.unsent);
    }
  }

  lemma SameSize<A, B>(a: map<nat, A>, b: map<nat, B>)
    requires a.Keys == b.Keys
    ensures |a| == |b|
  {
    assert |a| == |a.Keys| && |b| == |b.Keys|;
  }

  // ------------------------------------------------------------- one session

  ghost predicate NoRestart(trace: seq<Event>) {
    trace == [] || (!trace[0].Restart? && NoRestart(trace[1..]))
  }

  ghost predicate Syncs(trace: seq<Event>) {
    trace != [] && (trace[0].Sync? || Syncs(trace[1..]))
  }

  ghost predicate LosesPower(trace: seq<Event>) {
    trace != [] && (trace[0].PowerLoss? || LosesPower(trace[1..]))
  }

  /** Everything that was in the log at `h0` still is, and the session is the same. */
  predicate Intact(h0: History, h: History) {
    && h0.log <= h.log && h0.acks <= h.acks && h.base == h0.base && h.firstAck == h0.firstAck
  }

  /** A power loss took soft records of `h0`, before anything was synced since. */
  predicate Shortened(h0: History, s: Server) {
    var h := s.history;
    && !s.up && h.log <= h0.log && |h.log| < |h0.log| && h.acks == h0.acks && !InDoubt(h)
    && h.unsent == map[] && h0.unsent == map[]
  }

  ghost predicate Since(h0: History, s: Server, synced: bool, lost: bool) {
    || (Intact(h0, s.history) && (synced ==> s.history.hard == |s.history.log|))
    || (!synced && lost && Shortened(h0, s))
  }

  /** The books of a running server between commits. */
  ghost predicate Settled(parse: Parser, h: History) {
    LogOk(parse, h) && Counted(h) && h.pending.None? && !h.unreleased
  }

  lemma SincePowerLoss(parse: Parser, h0: History, s: Server, keep: nat, synced: bool, lost: bool)
    requires Settled(parse, h0) && Inv(parse, s) && Enabled(parse, s, PowerLoss(keep)) && Since(h0, s, synced, lost)
    ensures Since(h0, Step(parse, s, PowerLoss(keep)), synced, true)
  {
    var h := s.history;
    if |Stream(h.log)| > keep {
      CutStream(h.log, keep);
      WholeFramesCover(h.log, keep, h.hard);
      assert h.log[..|h.log|] == h.log;
    }
  }

  lemma SinceStep(parse: Parser, h0: History, s: Server, e: Event, synced: bool, lost: bool)
    requires Settled(parse, h0) && Inv(parse, s) && Enabled(parse, s, e) && !e.Restart? && Since(h0, s, synced, lost)
    ensures Since(h0, Step(parse, s, e), synced || e.Sync?, lost || e.PowerLoss?)
  {
    if e.PowerLoss? {
      SincePowerLoss(parse, h0, s, e.keep, synced, lost);
    }
  }

  lemma {:induction false} SinceRun(parse: Parser, h0: History, s: Server, trace: seq<Event>, s': Server, synced: bool, lost: bool)
    requires Faithful(parse) && Settled(parse, h0) && Inv(parse, s) && Since(h0, s, synced, lost)
    requires Runs(parse, s, trace, s') && NoRestart(trace)
    ensures Inv(parse, s') && Since(h0, s', synced || Syncs(trace), lost || LosesPower(trace))
    decreases |trace|
  {
    if trace != [] {
      var e := trace[0];
      SinceStep(parse, h0, s, e, synced, lost);
      StepKeeps(parse, s, e);
      SinceRun(parse, h0, Step(parse, s, e), trace[1..], s', synced || e.Sync?, lost || e.PowerLoss?);
    }
  }

  lemma PrefixMeans(parse: Parser, a: seq<Bytes>, b: seq<Bytes>)
    requires AllApply(parse, b) && a <= b
    ensures AllApply(parse, a) && Meaning(parse, a) <= Meaning(parse, b)
  {
    assert b == a + b[|a|..];
    MeaningAppend(parse, a, b[|a|..]);
  }

  lemma IntactFinds(parse: Parser, h0: History, s: Server) returns (added: seq<Command>)
    requires Settled(parse, h0) && LogOk(parse, s.history) && DiskOk(parse, s) && Counted(s.history) && Intact(h0, s.history)
    requires s.history.unreleased ==> s.history.pending.None?
    ensures ScanWith(parse, s.disk.bytes).mutations == Meaning(parse, h0.log) + added
    ensures |added| + |h0.unsent| == |s.history.acks| - |h0.acks| + Unanswered(s.history)
  {
    RecoveryFinds(parse, s);
    MeaningLength(parse, h0.log);
    PrefixMeans(parse, h0.log, s.history.log);
    var tail := if Complete(s.history) then [parse(s.history.pending.value).command] else [];
    added := Meaning(parse, s.history.log)[|h0.log|..] + tail;
    PrefixRest(Meaning(parse, h0.log), Meaning(parse, s.history.log), tail);
  }

  lemma PrefixRest<T>(a: seq<T>, b: seq<T>, c: seq<T>)
    requires a <= b
    ensures b + c == a + (b[|a|..] + c)
  {}

  /** What recovery finds after the session, in terms of the books then and at `h0`. */
  lemma SinceFinds(parse: Parser, h0: History, s: Server, synced: bool, lost: bool)
    returns (kept: seq<Command>, added: seq<Command>)
    requires Settled(parse, h0) && Inv(parse, s) && Since(h0, s, synced, lost)
    ensures h0.acks <= s.history.acks
    ensures kept <= Meaning(parse, h0.log) && ScanWith(parse, s.disk.bytes).mutations == kept + added
    ensures synced || !lost ==> kept == Meaning(parse, h0.log)
    ensures kept != Meaning(parse, h0.log) ==> added == [] && s.history.acks == h0.acks
    ensures |added| + |h0.unsent| == |s.history.acks| - |h0.acks| + Unanswered(s.history)
  {
    if Intact(h0, s.history) {
      kept := Meaning(parse, h0.log);
      added := IntactFinds(parse, h0, s);
    } else {
      RecoveryFinds(parse, s);
      PrefixMeans(parse, s.history.log, h0.log);
      kept, added := Meaning(parse, s.history.log), [];
    }
  }

  lemma SessionFinds(parse: Parser, s0: Server, trace: seq<Event>, s: Server) returns (kept: seq<Command>, added: seq<Command>)
    requires Faithful(parse) && Inv(parse, s0) && s0.up && s0.appendable && s0.commit.Free?
    requires Runs(parse, s0, trace, s) && NoRestart(trace)
    ensures var before, after := ScanWith(parse, s0.disk.bytes).mutations, ScanWith(parse, s.disk.bytes).mutations;
            && s0.history.acks <= s.history.acks && Found(s.history.acks, after)
            && kept <= before && after == kept + added
            && (Syncs(trace) || !LosesPower(trace) ==> kept == before)
            && (kept != before ==> added == [] && s.history.acks == s0.history.acks)
            && |added| + |s0.outbox| == |s.history.acks| - |s0.history.acks| + Unanswered(s.history)
  {
    RecoveryFinds(parse, s0);
    SameSize(s0.outbox, s0.history.unsent);
    SinceRun(parse, s0.history, s0, trace, s, false, false);
    kept, added := SinceFinds(parse, s0.history, s, Syncs(trace), LosesPower(trace));
    AcksFound(parse, s);
  }

  /**
   From any moment of a session between two commits, through whatever ends it: recovery finds what it
   would have found then, or less of it if a power loss came before any sync, and after that exactly
   as many mutations as were acknowledged, wait for their reply to be sent or are in doubt.
   */
  lemma SessionRecoversExactly(s0: Server, trace: seq<Event>, s: Server)
    requires Reachable(s0) && s0.up && s0.appendable && s0.commit.Free?
    requires Runs(ParseCommand, s0, trace, s) && NoRestart(trace)
    ensures s0.history.acks <= s.history.acks && Found(s.history.acks, Recovered(s))
    ensures exists kept: seq<Command>, added: seq<Command> ::
              && kept <= Recovered(s0) && Recovered(s) == kept + added
              && (Syncs(trace) || !LosesPower(trace) ==> kept == Recovered(s0))
              && (kept != Recovered(s0) ==> added == [] && s.history.acks == s0.history.acks)
              && |added| + |s0.outbox| == |s.history.acks| - |s0.history.acks| + Unanswered(s.history)
  {
    ReachableInv(s0);
    ParseCommandIsFaithful();
    var kept, added := SessionFinds(ParseCommand, s0, trace, s);
    assert Recovered(s) == kept + added;
  }

  // ------------------------------------------------ one request at a time

  /** A run in which no mutation begins while a reply is outstanding. */
  ghost predicate OneAtATime(parse: Parser, s: Server, trace: seq<Event>, s': Server)
    decreases |trace|
  {
    if trace == [] then s == s'
    else
      && WellFormed(s) && Enabled(parse, s, trace[0]) && (trace[0].Begin? ==> s.outbox == map[])
      && OneAtATime(parse, Step(parse, s, trace[0]), trace[1..], s')
  }

  /** Such a run is a run of the protocol like any other. */
  lemma {:induction false} OneAtATimeRuns(parse: Parser, s: Server, trace: seq<Event>, s': Server)
    requires OneAtATime(parse, s, trace, s')
    ensures Runs(parse, s, trace, s')
    decreases |trace|
  {
    if trace != [] {
      OneAtATimeRuns(parse, Step(parse, s, trace[0]), trace[1..], s');
    }
  }

  /** At most one record is on its way. */
  predicate Few(h: History) {
    |h.unsent| + (if h.unreleased then 1 else 0) + (if h.pending.Some? then 1 else 0) <= 1
  }

  /** At most one record is on its way, and the replies since `h0` went out in the order of the log. */
  predicate InOrder(h0: History, h: History) {
    && Few(h)
    && (forall c :: c in h.unsent ==> h.unsent[c] == |h.log| - 1)
    && |h0.acks| <= |h.acks|
    && (forall k :: |h0.acks| <= k < |h.acks| ==> h.acks[k].at == |h0.log| + k - |h0.acks|)
  }

  /** The latest mutation begun in a run with the log open, or `last` if there is none. */
  ghost function LastBegun(parse: Parser, s: Server, trace: seq<Event>, last: Option<Command>): Option<Command>
    decreases |trace|
  {
    if trace == [] || !WellFormed(s) || !Enabled(parse, s, trace[0]) then last
    else LastBegun(parse, Step(parse, s, trace[0]), trace[1..], Taken(parse, s, trace[0], last))
  }

  ghost function Taken(parse: Parser, s: Server, e: Event, last: Option<Command>): Option<Command> {
    if e.Begin? && s.appendable && Applies(parse, e.payload) then Some(parse(e.payload).command) else last
  }

  /** The record on its way, pending, in flight or waiting for its reply, is that of the latest begun. */
  ghost predicate OnItsWay(parse: Parser, h: History, last: Option<Command>)
    requires LogOk(parse, h)
  {
    && (h.pending.Some? ==> last == Some(parse(h.pending.value).command))
    && (h.unreleased || h.unsent != map[] ==> h.log != [] && last == Some(parse(h.log[|h.log| - 1]).command))
  }

  /** A power loss that takes records leaves less than there was at `h0`. */
  lemma CutIsNotIntact(parse: Parser, h0: History, h: History, keep: nat)
    requires Settled(parse, h0) && LogOk(parse, h) && Counted(h) && Intact(h0, h)
    requires |Stream(h.log[..h.hard])| <= keep < |Stream(h.log)|
    ensures !Intact(h0, Cut(h, keep))
  {
    CutStream(h.log, keep);
    WholeFramesCover(h.log, keep, h.hard);
  }

  lemma BeginOnItsWay(parse: Parser, s: Server, e: Event, last: Option<Command>)
    requires Faithful(parse) && LogOk(parse, s.history) && PhaseOk(s) && OutboxOk(parse, s) && Enabled(parse, s, e) && e.Begin?
    requires s.outbox == map[] && OnItsWay(parse, s.history, last) && LogOk(parse, Step(parse, s, e).history)
    ensures OnItsWay(parse, Step(parse, s, e).history, Taken(parse, s, e, last))
  {
    assert s.history.unsent.Keys == {};
  }

  lemma CommitOnItsWay(parse: Parser, s: Server, e: Event, last: Option<Command>)
    requires LogOk(parse, s.history) && PhaseOk(s) && Enabled(parse, s, e) && !e.Begin? && !e.PowerLoss? && !e.Restart?
    requires Few(s.history) && OnItsWay(parse, s.history, last) && LogOk(parse, Step(parse, s, e).history)
    ensures OnItsWay(parse, Step(parse, s, e).history, last)
  {
    if e.Sync? {
      NoneUnsent(s.history);
    }
  }

  lemma OnItsWayStep(parse: Parser, h0: History, s: Server, e: Event, last: Option<Command>)
    requires Faithful(parse) && Inv(parse, s) && Enabled(parse, s, e) && !e.Restart? && (e.Begin? ==> s.outbox == map[])
    requires Settled(parse, h0) && Intact(h0, s.history) && Few(s.history) && OnItsWay(parse, s.history, last)
    requires LogOk(parse, Step(parse, s, e).history) && Intact(h0, Step(parse, s, e).history)
    ensures OnItsWay(parse, Step(parse, s, e).history, Taken(parse, s, e, last))
  {
    if e.PowerLoss? {
      if |Stream(s.history.log)| > e.keep {
        CutIsNotIntact(parse, h0, s.history, e.keep);
      }
    } else if e.Begin? {
      BeginOnItsWay(parse, s, e, last);
    } else {
      CommitOnItsWay(parse, s, e, last);
    }
  }

  lemma NoneUnsent(h: History)
    requires |h.unsent| == 0
    ensures h.unsent == map[]
  {
    assert h.unsent.Keys == {};
  }

  lemma InOrderSend(parse: Parser, h0: History, s: Server, client: nat)
    requires Settled(parse, h0) && h0.unsent == map[] && LogOk(parse, s.history) && Counted(s.history) && OutboxOk(parse, s)
    requires Enabled(parse, s, Send(client)) && Intact(h0, s.history) && InOrder(h0, s.history)
    ensures InOrder(h0, Step(parse, s, Send(client)).history)
  {
    OneLess(s.history.unsent, client);
    NoneUnsent(Step(parse, s, Send(client)).history);
  }

  lemma InOrderRelease(parse: Parser, h0: History, s: Server)
    requires Inv(parse, s) && Enabled(parse, s, Release) && InOrder(h0, s.history)
    ensures InOrder(h0, Step(parse, s, Release).history)
  {
    NoneUnsent(s.history);
    OneMore(s.history.unsent, s.commit.client, |s.history.log| - 1);
  }

  lemma InOrderStep(parse: Parser, h0: History, s: Server, e: Event)
    requires Settled(parse, h0) && h0.unsent == map[] && Inv(parse, s) && Enabled(parse, s, e) && !e.Restart?
    requires (e.Begin? ==> s.outbox == map[]) && Intact(h0, s.history) && InOrder(h0, s.history)
    ensures Intact(h0, Step(parse, s, e).history) ==> InOrder(h0, Step(parse, s, e).history)
  {
    if e.Send? {
      InOrderSend(parse, h0, s, e.client);
    } else if e.Release? {
      InOrderRelease(parse, h0, s);
    } else if e.Sync? {
      NoneUnsent(s.history);
    } else if e.PowerLoss? && |Stream(s.history.log)| > e.keep {
      CutStream(s.history.log, e.keep);
      WholeFramesCover(s.history.log, e.keep, s.history.hard);
    }
  }

  lemma StaysShortened(parse: Parser, h0: History, s: Server, e: Event)
    requires FileInv(parse, s) && Enabled(parse, s, e) && !e.Restart? && Shortened(h0, s)
    ensures !Intact(h0, Step(parse, s, e).history)
  {}

  /** What a sequential session keeps, as long as nothing of `h0` was lost. */
  ghost predicate Orderly(parse: Parser, h0: History, h: History, last: Option<Command>)
    requires LogOk(parse, h)
  {
    Intact(h0, h) ==> InOrder(h0, h) && OnItsWay(parse, h, last)
  }

  lemma OrderlyNext(parse: Parser, h0: History, s: Server, e: Event, synced: bool, lost: bool, last: Option<Command>, next: Server)
    requires Faithful(parse) && Settled(parse, h0) && h0.unsent == map[] && Inv(parse, s) && Since(h0, s, synced, lost)
    requires Enabled(parse, s, e) && !e.Restart? && (e.Begin? ==> s.outbox == map[]) && next == Step(parse, s, e)
    requires Orderly(parse, h0, s.history, last) && LogOk(parse, next.history)
    ensures Orderly(parse, h0, next.history, Taken(parse, s, e, last))
  {
    if Intact(h0, next.history) {
      if Intact(h0, s.history) {
        InOrderStep(parse, h0, s, e);
        OnItsWayStep(parse, h0, s, e, last);
      } else {
        StaysShortened(parse, h0, s, e);
      }
    }
  }

  lemma SequentialNext(parse: Parser, h0: History, s: Server, trace: seq<Event>, s': Server, synced: bool, lost: bool, last: Option<Command>)
    returns (next: Server)
    requires Faithful(parse) && Settled(parse, h0) && h0.unsent == map[] && Inv(parse, s) && Since(h0, s, synced, lost)
    requires trace != [] && OneAtATime(parse, s, trace, s') && !trace[0].Restart? && Orderly(parse, h0, s.history, last)
    ensures Inv(parse, next) && Since(h0, next, synced || trace[0].Sync?, lost || trace[0].PowerLoss?)
    ensures OneAtATime(parse, next, trace[1..], s') && Orderly(parse, h0, next.history, Taken(parse, s, trace[0], last))
    ensures LastBegun(parse, s, trace, last) == LastBegun(parse, next, trace[1..], Taken(parse, s, trace[0], last))
  {
    next := Step(parse, s, trace[0]);
    SinceStep(parse, h0, s, trace[0], synced, lost);
    StepKeeps(parse, s, trace[0]);
    OrderlyNext(parse, h0, s, trace[0], synced, lost, last, next);
  }

  lemma {:induction false} SequentialRun(parse: Parser, h0: History, s: Server, trace: seq<Event>, s': Server, synced: bool, lost: bool, last: Option<Command>)
    requires Faithful(parse) && Settled(parse, h0) && h0.unsent == map[] && Inv(parse, s) && Since(h0, s, synced, lost)
    requires OneAtATime(parse, s, trace, s') && NoRestart(trace) && Orderly(parse, h0, s.history, last)
    ensures Inv(parse, s') && Since(h0, s', synced || Syncs(trace), lost || LosesPower(trace))
    ensures Orderly(parse, h0, s'.history, LastBegun(parse, s, trace, last))
    decreases |trace|
  {
    if trace != [] {
      var e := trace[0];
      var next := SequentialNext(parse, h0, s, trace, s', synced, lost, last);
      SequentialRun(parse, h0, next, trace[1..], s', synced || e.Sync?, lost || e.PowerLoss?, Taken(parse, s, e, last));
    }
  }

  ghost function Commands(acks: seq<Ack>): seq<Command> {
    seq(|acks|, i requires 0 <= i < |acks| => acks[i].command)
  }

  /** The acknowledgements since `h0`, in the order sent, follow what was there in the log. */
  lemma InOrderFinds(parse: Parser, h0: History, s: Server, kept: seq<Command>, added: seq<Command>)
    requires LogOk(parse, h0) && h0.acks <= s.history.acks && InOrder(h0, s.history)
    requires Found(s.history.acks, kept + added) && |kept| == |h0.log|
    requires |added| >= |s.history.acks| - |h0.acks|
    ensures var sent := s.history.acks[|h0.acks|..]; added[..|sent|] == Commands(sent)
  {
    var sent := s.history.acks[|h0.acks|..];
    forall k | 0 <= k < |sent|
      ensures added[k] == sent[k].command
    {
      assert s.history.acks[|h0.acks| + k] == sent[k];
      assert (kept + added)[|kept| + k] == added[k];
    }
  }

  /** What is left over when the acknowledged ones are taken away is the record on its way. */
  lemma LeftOver(parse: Parser, s: Server, last: Option<Command>, found: seq<Command>)
    requires LogOk(parse, s.history) && DiskOk(parse, s) && OnItsWay(parse, s.history, last) && Unanswered(s.history) > 0
    requires found == ScanWith(parse, s.disk.bytes).mutations && found != []
    ensures last == Some(found[|found| - 1])
  {
    RecoveryFinds(parse, s);
    if !Complete(s.history) {
      LastOfLog(parse, s.history, last);
    }
  }

  lemma LastOfLog(parse: Parser, h: History, last: Option<Command>)
    requires LogOk(parse, h) && OnItsWay(parse, h, last) && Unanswered(h) > 0 && !Complete(h)
    ensures h.log != [] && |Meaning(parse, h.log)| == |h.log| && last == Some(Meaning(parse, h.log)[|h.log| - 1])
  {
    MeaningAt(parse, h.log, |h.log| - 1);
  }

  lemma InOrderSplit(parse: Parser, h0: History, s: Server, synced: bool, lost: bool, last: Option<Command>)
    returns (kept: seq<Command>, extra: seq<Command>)
    requires Settled(parse, h0) && h0.unsent == map[] && Inv(parse, s) && Since(h0, s, synced, lost)
    requires Orderly(parse, h0, s.history, last)
    ensures h0.acks <= s.history.acks && |extra| <= 1 && kept <= Meaning(parse, h0.log)
    ensures synced || !lost ==> kept == Meaning(parse, h0.log)
    ensures ScanWith(parse, s.disk.bytes).mutations == kept + Commands(s.history.acks[|h0.acks|..]) + extra
    ensures extra != [] ==> last == Some(extra[0])
  {
    if Intact(h0, s.history) {
      kept := Meaning(parse, h0.log);
      extra := IntactSplit(parse, h0, s, last);
    } else {
      var added;
      kept, added := SinceFinds(parse, h0, s, synced, lost);
      extra := [];
      assert s.history.acks[|h0.acks|..] == [];
    }
  }

  lemma SplitAt<T>(a: seq<T>, b: seq<T>, n: nat)
    requires n <= |b|
    ensures a + b == a + b[..n] + b[n..]
  {}

  lemma IntactAdded(parse: Parser, h0: History, s: Server) returns (added: seq<Command>)
    requires LogOk(parse, s.history) && DiskOk(parse, s) && AcksOk(parse, s.history) && Counted(s.history)
    requires Settled(parse, h0) && h0.unsent == map[] && Intact(h0, s.history) && InOrder(h0, s.history)
    ensures ScanWith(parse, s.disk.bytes).mutations == Meaning(parse, h0.log) + added
    ensures var sent := s.history.acks[|h0.acks|..];
            |added| == |sent| + Unanswered(s.history) && added[..|sent|] == Commands(sent)
  {
    added := IntactFinds(parse, h0, s);
    AcksFound(parse, s);
    MeaningLength(parse, h0.log);
    InOrderFinds(parse, h0, s, Meaning(parse, h0.log), added);
  }

  lemma IntactSplit(parse: Parser, h0: History, s: Server, last: Option<Command>) returns (extra: seq<Command>)
    requires LogOk(parse, s.history) && DiskOk(parse, s) && AcksOk(parse, s.history) && Counted(s.history)
    requires Settled(parse, h0) && h0.unsent == map[] && Intact(h0, s.history)
    requires InOrder(h0, s.history) && OnItsWay(parse, s.history, last)
    ensures |extra| <= 1 && (extra != [] ==> last == Some(extra[0]))
    ensures ScanWith(parse, s.disk.bytes).mutations == Meaning(parse, h0.log) + Commands(s.history.acks[|h0.acks|..]) + extra
  {
    var added := IntactAdded(parse, h0, s);
    var n := |s.history.acks[|h0.acks|..]|;
    extra := added[n..];
    SplitAt(Meaning(parse, h0.log), added, n);
    if extra != [] {
      LeftOver(parse, s, last, Meaning(parse, h0.log) + added);
    }
  }

  /** What recovery finds after a run: what was there, what was acknowledged since in that order, and perhaps the latest begun. */
  ghost predicate Sequential(parse: Parser, s0: Server, trace: seq<Event>, s: Server, kept: seq<Command>, extra: seq<Command>) {
    var before, after := ScanWith(parse, s0.disk.bytes).mutations, ScanWith(parse, s.disk.bytes).mutations;
    && s0.history.acks <= s.history.acks && |extra| <= 1 && kept <= before
    && (Syncs(trace) || !LosesPower(trace) ==> kept == before)
    && after == kept + Commands(s.history.acks[|s0.history.acks|..]) + extra
    && (extra != [] ==> LastBegun(parse, s0, trace, None) == Some(extra[0]))
  }

  lemma SequentialFinds(parse: Parser, s0: Server, trace: seq<Event>, s: Server) returns (kept: seq<Command>, extra: seq<Command>)
    requires Faithful(parse) && Inv(parse, s0) && s0.up && s0.appendable && s0.commit.Free? && s0.outbox == map[]
    requires OneAtATime(parse, s0, trace, s) && NoRestart(trace)
    ensures Sequential(parse, s0, trace, s, kept, extra)
  {
    RecoveryFinds(parse, s0);
    assert s0.history.unsent.Keys == {};
    SequentialRun(parse, s0.history, s0, trace, s, false, false, None);
    kept, extra := InOrderSplit(parse, s0.history, s, Syncs(trace), LosesPower(trace), LastBegun(parse, s0, trace, None));
  }

  /**
   If the session answers one mutation before it begins the next, recovery finds what was there, then
   the mutations it acknowledged in the order of the replies, then at most one more: the latest begun.
   */
  lemma SequentialSessionRecovers(s0: Server, trace: seq<Event>, s: Server)
    requires Reachable(s0) && s0.up && s0.appendable && s0.commit.Free? && s0.outbox == map[]
    requires OneAtATime(ParseCommand, s0, trace, s) && NoRestart(trace)
    ensures exists kept, extra :: Sequential(ParseCommand, s0, trace, s, kept, extra)
  {
    ReachableInv(s0);
    ParseCommandIsFaithful();
    var kept, extra := SequentialFinds(ParseCommand, s0, trace, s);
  }

  // ------------------------------------------------ when at most one survives

  /** A run that begins no further mutation and starts no further session. */
  ghost predicate NothingNew(trace: seq<Event>) {
    trace == [] || (!trace[0].Begin? && !trace[0].Restart? && NothingNew(trace[1..]))
  }

  lemma FewStep(parse: Parser, s: Server, e: Event)
    requires Inv(parse, s) && Enabled(parse, s, e) && !e.Begin? && !e.Restart? && Few(s.history)
    ensures Few(Step(parse, s, e).history)
  {
    if e.Send? {
      OneLess(s.history.unsent, e.client);
    } else if e.Release? {
      OneMore(s.history.unsent, s.commit.client, |s.history.log| - 1);
    } else if e.PowerLoss? && |Stream(s.history.log)| > e.keep {
      CutStream(s.history.log, e.keep);
      WholeFramesCover(s.history.log, e.keep, s.history.hard);
    }
  }

  lemma {:induction false} FewRun(parse: Parser, s: Server, trace: seq<Event>, s': Server)
    requires Faithful(parse) && Inv(parse, s) && Few(s.history) && Runs(parse, s, trace, s') && NothingNew(trace)
    ensures Inv(parse, s') && Few(s'.history)
    decreases |trace|
  {
    if trace != [] {
      FewStep(parse, s, trace[0]);
      StepKeeps(parse, s, trace[0]);
      FewRun(parse, Step(parse, s, trace[0]), trace[1..], s');
    }
  }

  /** Whatever happens after this request begins, at most one mutation survives unacknowledged. */
  ghost predicate AtMostOneSurvives(s: Server, client: nat, payload: Bytes) {
    forall trace, s' :: Runs(ParseCommand, s, [Begin(client, payload)] + trace, s') && NothingNew(trace) ==> Unacknowledged(s') <= 1
  }

  lemma QuietBegin(s: Server, client: nat, payload: Bytes, trace: seq<Event>, s': Server)
    requires Reachable(s) && s.up && s.appendable && s.commit.Free? && s.outbox == map[]
    requires Runs(ParseCommand, s, [Begin(client, payload)] + trace, s') && NothingNew(trace)
    ensures Unacknowledged(s') <= 1
  {
    ReachableInv(s);
    ParseCommandIsFaithful();
    assert ([Begin(client, payload)] + trace)[1..] == trace;
    var s1 := Step(ParseCommand, s, Begin(client, payload));
    StepKeeps(ParseCommand, s, Begin(client, payload));
    assert s.history.unsent == map[];
    FewRun(ParseCommand, s1, trace, s');
    CountExactly(ParseCommand, s');
  }

  lemma BeginAndWrite(parse: Parser, s: Server, client: nat, payload: Bytes, record: Bytes)
    requires Accepts(parse, s, client, payload, record)
    ensures var n := |Frame(record)|;
            Runs(parse, s, [Begin(client, payload)] + ([Write(n)] + []),
                 AfterWrite(s, client, parse(payload).command, record, n))
  {
    var n := |Frame(record)|;
    var m := parse(payload).command;
    var s1 := s.(commit := Writing(client, m, record, 0), history := s.history.(pending := Some(record), torn := 0));
    var s2 := AfterWrite(s, client, m, record, n);
    assert Frame(record)[0..n] == Frame(record)[..n];
    RunsStep(parse, s1, Write(n), s2, [], s2);
    RunsStep(parse, s, Begin(client, payload), s1, [Write(n)] + [], s2);
  }

  lemma OutstandingReplies(s: Server)
    requires Reachable(s) && s.up && s.outbox != map[]
    ensures |s.history.unsent| > 0
  {
    UnacknowledgedExactly(s);
    var c :| c in s.outbox;
    assert c in s.outbox.Keys;
  }

  lemma CrowdedBegin(s: Server, client: nat, payload: Bytes)
    requires Reachable(s) && s.up && s.appendable && s.commit.Free? && s.outbox != map[]
    requires client !in s.outbox && Request(ParseCommand, payload)
    ensures !AtMostOneSurvives(s, client, payload)
  {
    AcceptsMutation(s, client, payload);
    OutstandingReplies(s);
    var record := RecordOf(ParseCommand, payload);
    var n := |Frame(record)|;
    var s2 := AfterWrite(s, client, ParseCommand(payload).command, record, n);
    BeginAndWrite(ParseCommand, s, client, payload, record);
    assert NothingNew([Write(n)] + []);
    WriteReaches(ParseCommand, s, client, payload, record, n);
    UnacknowledgedExactly(s2);
  }

  /**
   Exactly when at most one mutation can survive unacknowledged: when no reply is outstanding as the
   next mutation begins.
   */
  lemma AtMostOneExactly(s: Server, client: nat, payload: Bytes)
    requires Reachable(s) && s.up && s.appendable && s.commit.Free? && client !in s.outbox && Request(ParseCommand, payload)
    ensures AtMostOneSurvives(s, client, payload) <==> s.outbox == map[]
  {
    if s.outbox == map[] {
      forall trace, s' | Runs(ParseCommand, s, [Begin(client, payload)] + trace, s') && NothingNew(trace)
        ensures Unacknowledged(s') <= 1
      {
        QuietBegin(s, client, payload, trace, s');
      }
    } else {
      CrowdedBegin(s, client, payload);
    }
  }

  // -------------------------------------------------------------- two workers

  lemma FirstSession() returns (s: Server)
    ensures Reachable(s) && s == Fresh(1)
  {
    assert Runs(ParseCommand, START, [], START);
    s := Fresh(1);
    Reaches(ParseCommand, START, Restart, s);
  }

  /** Two requests served one after the other by two workers that have not sent their replies. */
  lemma TwoCommits(first: Bytes, second: Bytes) returns (s: Server)
    requires Request(ParseCommand, first) && Request(ParseCommand, second)
    ensures Reachable(s) && s.up && s.history.sessions == 1 && s.history.acks == []
    ensures s.outbox == map[1 := ParseCommand(first).command, 2 := ParseCommand(second).command]
    ensures s.history.unsent == map[1 := 0, 2 := 1] && !InDoubt(s.history) && WellFormed(s)
  {
    var s0 := FirstSession();
    AcceptsMutation(s0, 1, first);
    var r1, r2 := RecordOf(ParseCommand, first), RecordOf(ParseCommand, second);
    CommitReaches(ParseCommand, s0, 1, first, r1);
    var s1 := AfterCommit(ParseCommand, s0, 1, r1);
    AcceptsMutation(s1, 2, second);
    CommitReaches(ParseCommand, s1, 2, second, r2);
    s := AfterCommit(ParseCommand, s1, 2, r2);
  }

  lemma LosePowerKeepBytes(parse: Parser, s: Server) returns (s': Server)
    requires ReachableBy(parse, s) && WellFormed(s) && s.disk.synced <= |s.disk.bytes| && |Stream(s.history.log)| <= |s.disk.bytes|
    ensures ReachableBy(parse, s') && !s'.up && s'.disk.bytes == s.disk.bytes
    ensures s'.history.acks == s.history.acks && s'.history.sessions == s.history.sessions
    ensures s'.history.base == s.history.base && s'.history.firstAck == s.history.firstAck
  {
    s' := Step(parse, s, PowerLoss(|s.disk.bytes|));
    Reaches(parse, s, PowerLoss(|s.disk.bytes|), s');
    assert s.disk.bytes[..|s.disk.bytes|] == s.disk.bytes;
  }

  /** Two workers: both mutations survive a power loss, in one session, without an acknowledgement. */
  lemma TwoWorkersTwoSurvivors(first: Bytes, second: Bytes)
    requires Request(ParseCommand, first) && Request(ParseCommand, second)
    ensures exists s :: Reachable(s) && !s.up && s.history.sessions == 1 && s.history.acks == [] && Unacknowledged(s) == 2
  {
    var s := TwoCommits(first, second);
    BytesHoldLog(s);
    UnacknowledgedExactly(s);
    TwoKeys(s.history.unsent);
    var s' := LosePowerKeepBytes(ParseCommand, s);
    assert Unacknowledged(s') == Unacknowledged(s);
  }

  lemma BytesHoldLog(s: Server)
    requires Reachable(s)
    ensures WellFormed(s) && s.disk.synced <= |s.disk.bytes| && |Stream(s.history.log)| <= |s.disk.bytes|
  {
    ReachableInv(s);
  }

  lemma TwoKeys(m: map<nat, nat>)
    requires m == map[1 := 0, 2 := 1]
    ensures |m| == 2
  {
    assert m.Keys == {1, 2};
  }

  lemma SendBoth(parse: Parser, s: Server, c: nat, d: nat) returns (s': Server)
    requires ReachableBy(parse, s) && WellFormed(s) && s.up && c != d
    requires {c, d} <= s.outbox.Keys && {c, d} <= s.history.unsent.Keys
    ensures ReachableBy(parse, s')
    ensures s'.history.acks == s.history.acks + [Ack(s.history.unsent[c], s.outbox[c]), Ack(s.history.unsent[d], s.outbox[d])]
  {
    assert c in s.outbox.Keys && d in s.outbox.Keys && c in s.history.unsent.Keys && d in s.history.unsent.Keys;
    var s1 := SendReaches(parse, s, c);
    s' := SendReaches(parse, s1, d);
  }

  /** And their replies can leave in the opposite order to the log. */
  lemma RepliesOvertake(first: Bytes, second: Bytes)
    requires Request(ParseCommand, first) && Request(ParseCommand, second)
    ensures exists s :: Reachable(s)
              && s.history.acks == [Ack(1, ParseCommand(second).command), Ack(0, ParseCommand(first).command)]
  {
    var s := TwoCommits(first, second);
    var s' := SendBoth(ParseCommand, s, 2, 1);
    assert Reachable(s');
  }
}
