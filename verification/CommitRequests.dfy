/**
 What is in the log and what is acknowledged, against what was asked: every mutation recovery finds
 was requested, none more often than it was, in the order the requests took the mutex; and a reply
 answers the request its client made.
 */
module CommitRequests {
  import opened Protocol
  import opened Framing
  import opened LogScan
  import opened CommitProtocol
  import opened CommitInvariant
  import opened CommitTheorems

  // ------------------------------------------------------------ subsequences

  /** `a` can be obtained from `b` by leaving elements out. */
  ghost predicate Subsequence<T>(a: seq<T>, b: seq<T>)
    decreases |b|
  {
    || a == []
    || (b != [] && a[|a| - 1] == b[|b| - 1] && Subsequence(a[..|a| - 1], b[..|b| - 1]))
    || (b != [] && Subsequence(a, b[..|b| - 1]))
  }

  lemma SubsequenceBoth<T>(a: seq<T>, b: seq<T>, x: T)
    requires Subsequence(a, b)
    ensures Subsequence(a + [x], b + [x])
  {
    assert (a + [x])[..|a|] == a && (b + [x])[..|b|] == b;
  }

  lemma SubsequenceMore<T>(a: seq<T>, b: seq<T>, x: T)
    requires Subsequence(a, b)
    ensures Subsequence(a, b + [x])
  {
    assert (b + [x])[..|b|] == b;
  }

  lemma {:induction false} SubsequenceLess<T>(a: seq<T>, b: seq<T>, n: nat)
    requires Subsequence(a, b) && n <= |a|
    ensures Subsequence(a[..n], b)
    decreases |b|
  {
    if n == |a| {
      assert a[..n] == a;
    } else if n > 0 {
      var a', b' := a[..|a| - 1], b[..|b| - 1];
      if Subsequence(a', b') {
        SubsequenceLess(a', b', n);
        assert a'[..n] == a[..n];
      } else {
        SubsequenceLess(a, b', n);
      }
    }
  }

  // ---------------------------------------------------------- what was asked

  /** The mutations asked for in a run, in the order the requests took the mutex. */
  ghost function Requests(parse: Parser, trace: seq<Event>): seq<Command> {
    if trace == [] then [] else Asked(parse, trace[0]) + Requests(parse, trace[1..])
  }

  ghost function Asked(parse: Parser, e: Event): seq<Command> {
    if e.Begin? && Applies(parse, e.payload) then [parse(e.payload).command] else []
  }

  /** The mutations of the log and the one whose frame was begun after it. */
  ghost function Begun(parse: Parser, h: History): seq<Command>
    requires LogOk(parse, h)
  {
    Meaning(parse, h.log) + if h.pending.Some? then [parse(h.pending.value).command] else []
  }

  lemma BeginAsked(parse: Parser, s: Server, e: Event, asked: seq<Command>)
    requires Faithful(parse) && FileInv(parse, s) && Enabled(parse, s, e) && e.Begin? && Subsequence(Begun(parse, s.history), asked)
    requires LogOk(parse, Step(parse, s, e).history)
    ensures Subsequence(Begun(parse, Step(parse, s, e).history), asked + Asked(parse, e))
  {
    var m := parse(e.payload).command;
    if s.appendable {
      assert Begun(parse, s.history) == Meaning(parse, s.history.log);
      SubsequenceBoth(Meaning(parse, s.history.log), asked, m);
    } else {
      SubsequenceMore(Begun(parse, s.history), asked, m);
    }
  }

  /** A step other than a begin leaves what was begun, or a shorter part of it. */
  lemma StepShortens(parse: Parser, s: Server, e: Event) returns (n: nat)
    requires FileInv(parse, s) && Enabled(parse, s, e) && !e.Begin? && LogOk(parse, Step(parse, s, e).history)
    ensures n <= |Begun(parse, s.history)| && Begun(parse, Step(parse, s, e).history) == Begun(parse, s.history)[..n]
  {
    var h, begun := s.history, Begun(parse, s.history);
    MeaningLength(parse, h.log);
    n := |begun|;
    assert begun[..n] == begun;
    if e.Sync? {
      LogGrows(parse, h.log, s.commit.record);
    } else if e.PowerLoss? && |Stream(h.log)| > e.keep {
      n := CutShortens(parse, h, e.keep);
    } else if e.Restart? && Complete(h) {
      LogGrows(parse, h.log, h.pending.value);
    } else if e.Restart? {
      n := |h.log|;
    }
  }

  lemma CutShortens(parse: Parser, h: History, keep: nat) returns (n: nat)
    requires LogOk(parse, h) && |Stream(h.log)| > keep && LogOk(parse, Cut(h, keep))
    ensures n <= |Begun(parse, h)| && Begun(parse, Cut(h, keep)) == Begun(parse, h)[..n]
  {
    CutStream(h.log, keep);
    var j := WholeFrames(h.log, keep);
    MeaningLength(parse, h.log);
    n := j + 1;
    assert h.log[..n] == h.log[..j] + [h.log[j]];
    LogGrows(parse, h.log[..j], h.log[j]);
    assert h.log == h.log[..n] + h.log[n..];
    MeaningAppend(parse, h.log[..n], h.log[n..]);
    MeaningLength(parse, h.log[..n]);
  }

  lemma StepAsked(parse: Parser, s: Server, e: Event, asked: seq<Command>)
    requires Faithful(parse) && Inv(parse, s) && Enabled(parse, s, e) && Subsequence(Begun(parse, s.history), asked)
    ensures Inv(parse, Step(parse, s, e)) && Subsequence(Begun(parse, Step(parse, s, e).history), asked + Asked(parse, e))
  {
    StepKeeps(parse, s, e);
    if e.Begin? {
      BeginAsked(parse, s, e, asked);
    } else {
      var n := StepShortens(parse, s, e);
      SubsequenceLess(Begun(parse, s.history), asked, n);
      assert asked + [] == asked;
    }
  }

  lemma AskedNext(parse: Parser, s: Server, trace: seq<Event>, s': Server, asked: seq<Command>) returns (next: Server)
    requires Faithful(parse) && Inv(parse, s) && trace != [] && Runs(parse, s, trace, s') && Subsequence(Begun(parse, s.history), asked)
    ensures Inv(parse, next) && Runs(parse, next, trace[1..], s')
    ensures Subsequence(Begun(parse, next.history), asked + Asked(parse, trace[0]))
  {
    StepAsked(parse, s, trace[0], asked);
    next := Step(parse, s, trace[0]);
  }

  lemma RequestsOf(parse: Parser, trace: seq<Event>, asked: seq<Command>)
    requires trace != []
    ensures asked + Requests(parse, trace) == (asked + Asked(parse, trace[0])) + Requests(parse, trace[1..])
  {}

  lemma {:induction false} RunAsked(parse: Parser, s: Server, trace: seq<Event>, s': Server, asked: seq<Command>)
    requires Faithful(parse) && Inv(parse, s) && Runs(parse, s, trace, s') && Subsequence(Begun(parse, s.history), asked)
    ensures Inv(parse, s') && Subsequence(Begun(parse, s'.history), asked + Requests(parse, trace))
    decreases |trace|
  {
    if trace == [] {
      assert asked + [] == asked;
    } else {
      var next := AskedNext(parse, s, trace, s', asked);
      RequestsOf(parse, trace, asked);
      RunAsked(parse, next, trace[1..], s', asked + Asked(parse, trace[0]));
    }
  }

  lemma FoundAsked(parse: Parser, trace: seq<Event>, s: Server)
    requires Faithful(parse) && Runs(parse, START, trace, s)
    ensures Subsequence(ScanWith(parse, s.disk.bytes).mutations, Requests(parse, trace))
  {
    StartInv(parse);
    RunAsked(parse, START, trace, s, []);
    assert [] + Requests(parse, trace) == Requests(parse, trace);
    RecoveryFinds(parse, s);
    var begun := Begun(parse, s.history);
    var n := if Complete(s.history) then |begun| else |s.history.log|;
    SubsequenceLess(begun, Requests(parse, trace), n);
    assert begun[..n] == ScanWith(parse, s.disk.bytes).mutations;
  }

  /**
   Whatever happened, recovery finds only mutations that were asked for, each no more often than it
   was, in the order in which their requests took the mutex.
   */
  lemma RecoveredWasAsked(trace: seq<Event>, s: Server)
    requires Runs(ParseCommand, START, trace, s)
    ensures Subsequence(Recovered(s), Requests(ParseCommand, trace))
  {
    ParseCommandIsFaithful();
    FoundAsked(ParseCommand, trace, s);
  }

  // ------------------------------------------------------ whom a reply answers

  /** Each client's latest request for a mutation, after a run that began with `known`. */
  ghost function LatestOf(parse: Parser, known: map<nat, Command>, trace: seq<Event>): map<nat, Command>
    decreases |trace|
  {
    if trace == [] then known else LatestOf(parse, Heard(parse, known, trace[0]), trace[1..])
  }

  ghost function Heard(parse: Parser, known: map<nat, Command>, e: Event): map<nat, Command> {
    if e.Begin? && Applies(parse, e.payload) then known[e.client := parse(e.payload).command] else known
  }

  /** Replies formed, and the commit in progress, are for their clients' latest requests. */
  ghost predicate Answers(s: Server, known: map<nat, Command>) {
    && (forall c :: c in s.outbox ==> c in known && known[c] == s.outbox[c])
    && (s.commit.Free? || (s.commit.client in known && known[s.commit.client] == s.commit.command))
  }

  lemma StepAnswers(parse: Parser, s: Server, e: Event, known: map<nat, Command>)
    requires WellFormed(s) && Enabled(parse, s, e) && Answers(s, known)
    ensures Answers(Step(parse, s, e), Heard(parse, known, e))
  {}

  lemma {:induction false} RunAnswers(parse: Parser, s: Server, trace: seq<Event>, s': Server, known: map<nat, Command>)
    requires Runs(parse, s, trace, s') && Answers(s, known)
    ensures Answers(s', LatestOf(parse, known, trace))
    decreases |trace|
  {
    if trace != [] {
      StepAnswers(parse, s, trace[0], known);
      RunAnswers(parse, Step(parse, s, trace[0]), trace[1..], s', Heard(parse, known, trace[0]));
    }
  }

  /**
   A reply acknowledges the mutation its client last asked for, and names a place where recovery finds
   that very mutation.
   */
  lemma ReplyAnswersRequest(trace: seq<Event>, s: Server, client: nat)
    requires Runs(ParseCommand, START, trace, s) && s.up && client in s.outbox
    ensures var known := LatestOf(ParseCommand, map[], trace);
            && client in known && client in s.history.unsent && WellFormed(s)
            && Step(ParseCommand, s, Send(client)).history.acks
               == s.history.acks + [Ack(s.history.unsent[client], known[client])]
            && s.history.unsent[client] < |Recovered(s)| && Recovered(s)[s.history.unsent[client]] == known[client]
  {
    OutstandingReply(trace, s, client);
    AnswersLatest(ParseCommand, trace, s, client);
    SendAcknowledges(ParseCommand, s, client);
  }

  lemma AnswersLatest(parse: Parser, trace: seq<Event>, s: Server, client: nat)
    requires Runs(parse, START, trace, s) && client in s.outbox
    ensures client in LatestOf(parse, map[], trace) && LatestOf(parse, map[], trace)[client] == s.outbox[client]
  {
    RunAnswers(parse, START, trace, s, map[]);
  }

  lemma SendAcknowledges(parse: Parser, s: Server, client: nat)
    requires WellFormed(s) && s.up && client in s.outbox && client in s.history.unsent
    ensures Step(parse, s, Send(client)).history.acks == s.history.acks + [Ack(s.history.unsent[client], s.outbox[client])]
  {}

  lemma OutstandingReply(trace: seq<Event>, s: Server, client: nat)
    requires Runs(ParseCommand, START, trace, s) && s.up && client in s.outbox
    ensures client in s.history.unsent && WellFormed(s)
    ensures s.history.unsent[client] < |Recovered(s)| && Recovered(s)[s.history.unsent[client]] == s.outbox[client]
  {
    assert Reachable(s);
    ReachableInv(s);
    OutstandingIsFound(ParseCommand, s, client);
  }

  lemma OutstandingIsFound(parse: Parser, s: Server, client: nat)
    requires LogOk(parse, s.history) && DiskOk(parse, s) && OutboxOk(parse, s) && s.up && client in s.outbox
    ensures client in s.history.unsent && WellFormed(s)
    ensures var found := ScanWith(parse, s.disk.bytes).mutations;
            s.history.unsent[client] < |found| && found[s.history.unsent[client]] == s.outbox[client]
  {
    RecoveryFinds(parse, s);
    MeaningAt(parse, s.history.log, s.history.unsent[client]);
  }
}
