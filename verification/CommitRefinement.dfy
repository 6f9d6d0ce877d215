/**
 What one request or one start of the server does, as a run of the commit protocol: the
 states in which the server's objects are found between requests are reachable ones, so
 everything proved about reachable states holds of them.
 */
module CommitRefinement {
  import opened Common
  import opened Protocol
  import opened Framing
  import opened LogScan
  import opened Wals
  import opened CommitProtocol
  import opened CommitTheorems

  lemma {:induction false} RunsThen(parse: Parser, s: Server, trace: seq<Event>, s': Server, e: Event)
    requires Runs(parse, s, trace, s') && WellFormed(s') && Enabled(parse, s', e)
    ensures Runs(parse, s, trace + [e], Step(parse, s', e))
    decreases |trace|
  {
    if trace == [] {
      assert trace + [e] == [e] && [e][1..] == [];
    } else {
      RunsThen(parse, Step(parse, s, trace[0]), trace[1..], s', e);
      assert (trace + [e])[1..] == trace[1..] + [e];
    }
  }

  lemma Reaches(parse: Parser, s: Server, e: Event, s': Server)
    requires ReachableBy(parse, s) && WellFormed(s) && Enabled(parse, s, e) && s' == Step(parse, s, e)
    ensures ReachableBy(parse, s')
  {
    var trace :| Runs(parse, START, trace, s);
    RunsThen(parse, START, trace, s, e);
  }

  /** A server whose mutation mutex is free. */
  predicate Ready(s: Server) { s.up && s.commit.Free? }

  /** It can take a request for a mutation from `client`, whose record will be `record`. */
  ghost predicate Accepts(parse: Parser, s: Server, client: nat, payload: Bytes, record: Bytes) {
    && ReachableBy(parse, s) && WellFormed(s) && Ready(s) && s.appendable && client !in s.outbox && Request(parse, payload)
    && record == RecordOf(parse, payload) && |record| <= MAX_PAYLOAD && parse(record) == parse(payload)
  }

  /** The protocol after `n` bytes of the frame of `record` were written. */
  function AfterWrite(s: Server, client: nat, command: Command, record: Bytes, n: nat): Server
    requires |record| < WIRE_LIMIT && n <= |Frame(record)|
  {
    s.(disk := s.disk.(bytes := s.disk.bytes + Frame(record)[..n]),
       commit := if n == 4 + |record| then Syncing(client, command, record) else Writing(client, command, record, n),
       history := s.history.(pending := Some(record), torn := n))
  }

  lemma WriteReaches(parse: Parser, s: Server, client: nat, payload: Bytes, record: Bytes, n: nat)
    requires Accepts(parse, s, client, payload, record) && n <= |Frame(record)|
    ensures ReachableBy(parse, AfterWrite(s, client, parse(payload).command, record, n))
  {
    var m := parse(payload).command;
    var s1 := s.(commit := Writing(client, m, record, 0), history := s.history.(pending := Some(record), torn := 0));
    Reaches(parse, s, Begin(client, payload), s1);
    assert Frame(record)[0..n] == Frame(record)[..n];
    Reaches(parse, s1, Write(n), AfterWrite(s, client, m, record, n));
  }

  /** The failed append: the bytes written stay, nothing else happened, the log is closed. */
  lemma RefusalReaches(parse: Parser, s: Server, client: nat, payload: Bytes, record: Bytes, n: nat) returns (s': Server)
    requires Accepts(parse, s, client, payload, record) && n <= |Frame(record)|
    ensures ReachableBy(parse, s') && Ready(s') && !s'.appendable && s'.store == s.store && s'.outbox == s.outbox
    ensures s'.disk == File(s.disk.bytes + Frame(record)[..n], s.disk.synced) && s'.history.acks == s.history.acks
  {
    WriteReaches(parse, s, client, payload, record, n);
    var s2 := AfterWrite(s, client, parse(payload).command, record, n);
    s' := s2.(appendable := false, commit := Free);
    Reaches(parse, s2, if n == 4 + |record| then SyncFails else WriteFails, s');
  }

  /** The server after a successful commit whose reply is not yet sent. */
  function AfterCommit(parse: Parser, s: Server, client: nat, record: Bytes): Server
    requires |record| < WIRE_LIMIT && Applies(parse, record)
  {
    var h, m := s.history, parse(record).command;
    var bytes := s.disk.bytes + Frame(record);
    s.(disk := File(bytes, |bytes|), store := Effect(s.store, m), outbox := s.outbox[client := m],
       history := h.(log := h.log + [record], pending := None, torn := 0, hard := |h.log| + 1, exposed := false,
                     unsent := h.unsent[client := |h.log|], unreleased := false, released := h.released + 1))
  }

  /** The successful commit: written, synced, applied, and the mutex free again. */
  lemma CommitReaches(parse: Parser, s: Server, client: nat, payload: Bytes, record: Bytes)
    requires Accepts(parse, s, client, payload, record)
    ensures ReachableBy(parse, AfterCommit(parse, s, client, record))
  {
    WriteReaches(parse, s, client, payload, record, |Frame(record)|);
    var m, h := parse(payload).command, s.history;
    var s2 := AfterWrite(s, client, m, record, |Frame(record)|);
    assert Frame(record)[..|Frame(record)|] == Frame(record);
    var s3 := s2.(disk := s2.disk.(synced := |s2.disk.bytes|), commit := Synced(client, m, record),
                  history := h.(log := h.log + [record], pending := None, torn := 0, hard := |h.log| + 1,
                                unreleased := true, exposed := false));
    Reaches(parse, s2, Sync, s3);
    var s4 := s3.(store := Effect(s3.store, m), commit := Applied(client, m, record));
    Reaches(parse, s3, Apply, s4);
    Reaches(parse, s4, Release, AfterCommit(parse, s, client, record));
  }

  /** A positive reply goes out. */
  lemma SendReaches(parse: Parser, s: Server, client: nat) returns (s': Server)
    requires ReachableBy(parse, s) && WellFormed(s) && s.up && client in s.outbox && client in s.history.unsent
    ensures ReachableBy(parse, s') && s' == Step(parse, s, Send(client))
    ensures s'.history.acks == s.history.acks + [Ack(s.history.unsent[client], s.outbox[client])]
  {
    s' := Step(parse, s, Send(client));
    Reaches(parse, s, Send(client), s');
  }

  /** The whole service of an accepted mutation, whether or not its reply goes out. */
  lemma ServedReaches(parse: Parser, s: Server, client: nat, payload: Bytes, record: Bytes, sent: bool) returns (s': Server)
    requires Accepts(parse, s, client, payload, record)
    ensures ReachableBy(parse, s') && Ready(s') && s'.appendable && s'.store == Effect(s.store, parse(payload).command)
    ensures s'.history.acks == s.history.acks + (if sent then [Ack(|s.history.log|, parse(payload).command)] else [])
    ensures s'.outbox.Keys == (if sent then s.outbox.Keys else s.outbox.Keys + {client})
    ensures s'.disk == File(s.disk.bytes + Frame(record), |s.disk.bytes| + 4 + |record|)
  {
    CommitReaches(parse, s, client, payload, record);
    s' := AfterCommit(parse, s, client, record);
    if sent {
      s' := SendReaches(parse, s', client);
    }
  }

  lemma AcceptsMutation(s: Server, client: nat, payload: Bytes)
    requires Reachable(s) && Ready(s) && s.appendable && client !in s.outbox && Request(ParseCommand, payload)
    ensures Accepts(ParseCommand, s, client, payload, RecordOf(ParseCommand, payload))
  {
    ReachableInv(s);
    LoggedMutationReplays(payload);
  }

  /** What a request for a mutation does to a server with a log, given what the machine and the network did. */
  lemma MutationReaches(s: Server, client: nat, payload: Bytes, n: nat, synced: bool, sent: bool) returns (s': Server)
    requires Reachable(s) && Ready(s) && client !in s.outbox && Request(ParseCommand, payload)
    requires n <= 4 + |RecordOf(ParseCommand, payload)|
    ensures Reachable(s') && Ready(s')
    ensures var m, record := ParseCommand(payload).command, RecordOf(ParseCommand, payload);
            |record| <= MAX_PAYLOAD &&
            if !s.appendable then s' == s
            else if n == 4 + |record| && synced then
              && s'.appendable && s'.store == Effect(s.store, m)
              && s'.history.acks == s.history.acks + (if sent then [Ack(|s.history.log|, m)] else [])
              && s'.outbox.Keys == (if sent then s.outbox.Keys else s.outbox.Keys + {client})
              && s'.disk == File(s.disk.bytes + Frame(record), |s.disk.bytes| + 4 + |record|)
            else
              && !s'.appendable && s'.store == s.store && s'.history.acks == s.history.acks && s'.outbox == s.outbox
              && s'.disk == File(s.disk.bytes + Frame(record)[..n], s.disk.synced)
  {
    LoggedMutationReplays(payload);
    var record := RecordOf(ParseCommand, payload);
    if !s.appendable {
      s' := s;
    } else {
      AcceptsMutation(s, client, payload);
      if n == 4 + |record| && synced {
        s' := ServedReaches(ParseCommand, s, client, payload, record, sent);
      } else {
        s' := RefusalReaches(ParseCommand, s, client, payload, record, n);
      }
    }
  }

  /** A successful start: the file is what recovery left, the store what it replayed. */
  lemma StartReaches(s: Server) returns (s': Server)
    requires Reachable(s) && !s.up
    ensures Reachable(s') && Ready(s') && s'.appendable && s'.history.acks == s.history.acks
    ensures var scan := ScanLog(s.disk.bytes);
            && !scan.ending.Malformed? && s'.store == Replay(map[], scan.mutations)
            && s'.disk == if scan.ending.CleanEnd? then s.disk else File(s.disk.bytes[..scan.size], scan.size)
  {
    AcknowledgedSurvive(s);
    ReachableInv(s);
    s' := Step(ParseCommand, s, Restart);
    Reaches(ParseCommand, s, Restart, s');
  }

  /** A failed start leaves the file alone or with its torn tail cut off. */
  lemma FailedStartReaches(s: Server, truncated: bool) returns (s': Server)
    requires Reachable(s) && !s.up
    ensures Reachable(s') && !s'.up && s'.history.acks == s.history.acks
    ensures var scan := ScanLog(s.disk.bytes);
            s'.disk == if truncated && scan.ending.TornEnd? then CutBack(s.disk, scan.size) else s.disk
  {
    ReachableInv(s);
    s' := Step(ParseCommand, s, RestartFails(truncated));
    Reaches(ParseCommand, s, RestartFails(truncated), s');
  }
}
