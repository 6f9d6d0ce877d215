/**
 What the commit path guarantees over every run: any number of sessions, failed
 writes and syncs, kills and power losses at any step.
 */
module CommitTheorems {
  import opened Common
  import opened Protocol
  import opened Framing
  import opened LogScan
  import opened Wals
  import opened CommitProtocol
  import opened CommitInvariant

  ghost predicate WellFormed(s: Server) {
    Fit(s.history.log, WIRE_LIMIT - 1)
  }

  ghost predicate Runs(parse: Parser, s: Server, trace: seq<Event>, s': Server)
    decreases |trace|
  {
    if trace == [] then s == s'
    else WellFormed(s) && Enabled(parse, s, trace[0]) && Runs(parse, Step(parse, s, trace[0]), trace[1..], s')
  }

  ghost predicate ReachableBy(parse: Parser, s: Server) {
    exists trace :: Runs(parse, START, trace, s)
  }

  /** A state some run of the server and its machine reaches. */
  ghost predicate Reachable(s: Server) {
    ReachableBy(ParseCommand, s)
  }

  lemma ParseCommandIsFaithful()
    ensures Faithful(ParseCommand)
  {
    forall payload | Applies(ParseCommand, payload)
      ensures |RecordOf(ParseCommand, payload)| <= |payload|
      ensures ParseCommand(RecordOf(ParseCommand, payload)) == ParseCommand(payload)
    {
      LoggedMutationReplays(payload);
    }
  }

  lemma {:induction false} RunsKeep(parse: Parser, s: Server, trace: seq<Event>, s': Server)
    requires Faithful(parse) && Inv(parse, s) && Runs(parse, s, trace, s')
    ensures Inv(parse, s')
    decreases |trace|
  {
    if trace != [] {
      StepKeeps(parse, s, trace[0]);
      RunsKeep(parse, Step(parse, s, trace[0]), trace[1..], s');
    }
  }

  lemma StartInv(parse: Parser)
    ensures Inv(parse, START)
  {
    assert Stream([]) + [] == [];
  }

  lemma ReachableInv(s: Server)
    requires Reachable(s)
    ensures Inv(ParseCommand, s)
  {
    var trace :| Runs(ParseCommand, START, trace, s);
    ParseCommandIsFaithful();
    StartInv(ParseCommand);
    RunsKeep(ParseCommand, START, trace, s);
  }

  // --------------------------------------------------------- what recovery finds

  /** What recovery would replay if the process started on this disk now. */
  ghost function Recovered(s: Server): seq<Command> { ScanLog(s.disk.bytes).mutations }

  /** Every acknowledged mutation is there, each at the place it was acknowledged for, no two at one place. */
  ghost predicate Found(acks: seq<Ack>, mutations: seq<Command>) {
    && (forall i :: 0 <= i < |acks| ==> acks[i].at < |mutations| && mutations[acks[i].at] == acks[i].command)
    && (forall i, j :: 0 <= i < j < |acks| ==> acks[i].at != acks[j].at)
  }

  lemma {:induction false} MeaningAt(parse: Parser, log: seq<Bytes>, i: nat)
    requires AllApply(parse, log) && i < |log|
    ensures |Meaning(parse, log)| == |log| && Meaning(parse, log)[i] == parse(log[i]).command
    decreases |log|
  {
    if |log| > 1 {
      MeaningAt(parse, log[1..], if i == 0 then 0 else i - 1);
    } else {
      assert log[1..] == [];
    }
  }

  lemma {:induction false} MeaningLength(parse: Parser, log: seq<Bytes>)
    requires AllApply(parse, log)
    ensures |Meaning(parse, log)| == |log|
    decreases |log|
  {
    if log != [] {
      MeaningLength(parse, log[1..]);
    }
  }

  /** The frame begun after the log is complete. */
  predicate Complete(h: History) { h.pending.Some? && h.torn == 4 + |h.pending.value| }

  /** Recovery finds the records of the log and a completed pending one. */
  lemma RecoveryFinds(parse: Parser, s: Server)
    requires LogOk(parse, s.history) && DiskOk(parse, s)
    ensures var h, found := s.history, ScanWith(parse, s.disk.bytes);
            && !found.ending.Malformed?
            && |Meaning(parse, h.log)| == |h.log|
            && found.mutations == Meaning(parse, h.log) + if Complete(h) then [parse(h.pending.value).command] else []
  {
    DiskScan(parse, s);
    MeaningLength(parse, s.history.log);
    if Complete(s.history) {
      LogGrows(parse, s.history.log, s.history.pending.value);
    }
  }

  lemma AcksFound(parse: Parser, s: Server)
    requires LogOk(parse, s.history) && DiskOk(parse, s) && AcksOk(parse, s.history)
    ensures Found(s.history.acks, ScanWith(parse, s.disk.bytes).mutations)
  {
    RecoveryFinds(parse, s);
    var h := s.history;
    forall i | 0 <= i < |h.acks|
      ensures Meaning(parse, h.log)[h.acks[i].at] == h.acks[i].command
    {
      MeaningAt(parse, h.log, h.acks[i].at);
    }
  }

  /**
   In every reachable state recovery accepts the file and finds every mutation ever acknowledged, at
   the place it was acknowledged for.  In all it finds no more than the positive replies ever formed,
   sent or not, and one more for each session.
   */
  lemma AcknowledgedSurvive(s: Server)
    requires Reachable(s)
    ensures !ScanLog(s.disk.bytes).ending.Malformed? && Found(s.history.acks, Recovered(s))
    ensures |s.history.acks| <= s.history.released
    ensures |Recovered(s)| <= s.history.released + s.history.sessions
  {
    ReachableInv(s);
    InvFinds(ParseCommand, s);
  }

  /** The same of the disk a power loss at this very step would leave, whatever it keeps. */
  lemma AcknowledgedSurvivePowerLoss(s: Server, keep: nat)
    requires Reachable(s) && s.disk.synced <= keep <= |s.disk.bytes|
    ensures var found := ScanLog(s.disk.bytes[..keep]);
            && !found.ending.Malformed? && Found(s.history.acks, found.mutations)
            && |found.mutations| <= s.history.released + s.history.sessions
  {
    ReachableInv(s);
    var s' := Step(ParseCommand, s, PowerLoss(keep));
    AfterPowerLoss(ParseCommand, s, keep, s');
    PowerLossDisk(ParseCommand, s, keep);
    InvFinds(ParseCommand, s');
  }

  lemma AfterPowerLoss(parse: Parser, s: Server, keep: nat, s': Server)
    requires LogOk(parse, s.history) && DiskOk(parse, s) && AcksOk(parse, s.history) && RepliesOk(s.history) && Counted(s.history)
    requires Enabled(parse, s, PowerLoss(keep)) && s' == Step(parse, s, PowerLoss(keep))
    ensures LogOk(parse, s'.history) && AcksOk(parse, s'.history) && Counted(s'.history)
    ensures s'.history.acks == s.history.acks && s'.history.released == s.history.released
    ensures s'.history.sessions == s.history.sessions
  {
    CutAcks(parse, s, keep);
  }

  lemma PowerLossDisk(parse: Parser, s: Server, keep: nat)
    requires LogOk(parse, s.history) && DiskOk(parse, s) && Enabled(parse, s, PowerLoss(keep))
    ensures var s' := Step(parse, s, PowerLoss(keep)); LogOk(parse, s'.history) && DiskOk(parse, s')
  {
    CutDisk(parse, s, keep);
  }

  lemma InvFinds(parse: Parser, s: Server)
    requires LogOk(parse, s.history) && DiskOk(parse, s) && AcksOk(parse, s.history) && Counted(s.history)
    ensures var found := ScanWith(parse, s.disk.bytes);
            && !found.ending.Malformed? && Found(s.history.acks, found.mutations)
            && |found.mutations| <= s.history.released + s.history.sessions
  {
    RecoveryFinds(parse, s);
    AcksFound(parse, s);
  }

  lemma {:induction false} AcksOnlyGrow(parse: Parser, s: Server, trace: seq<Event>, s': Server)
    requires Runs(parse, s, trace, s')
    ensures s.history.acks <= s'.history.acks
    decreases |trace|
  {
    if trace != [] {
      AcksOnlyGrow(parse, Step(parse, s, trace[0]), trace[1..], s');
    }
  }

  /** Once sent, an acknowledgement holds of every later recovery, and its mutation never moves. */
  lemma SentNeverLost(s: Server, trace: seq<Event>, s': Server)
    requires Reachable(s) && Runs(ParseCommand, s, trace, s')
    ensures Found(s.history.acks, Recovered(s'))
  {
    ReachableInv(s);
    ParseCommandIsFaithful();
    RunsKeep(ParseCommand, s, trace, s');
    AcksOnlyGrow(ParseCommand, s, trace, s');
    AcksFound(ParseCommand, s');
  }

  // --------------------------------------------------- what readers may rely on

  lemma ShownAndLast(parse: Parser, s: Server) returns (shown: seq<Command>, last: seq<Command>)
    requires FileInv(parse, s) && s.up
    ensures |last| <= 1 && ScanWith(parse, s.disk.bytes).mutations == shown + last && s.store == Replay(map[], shown)
    ensures (s.commit.Free? && s.appendable) || s.commit.Applied? ==> last == []
  {
    RecoveryFinds(parse, s);
    var h := s.history;
    shown, last := Meaning(parse, Visible(s)), [];
    if s.commit.Synced? {
      LastMeaning(parse, h.log);
      last := [parse(h.log[|h.log| - 1]).command];
    } else if Complete(h) {
      last := [parse(h.pending.value).command];
    }
  }

  /**
   The store is always the replay of the mutations in the log, but for at most the last of them: one
   in flight between its write and its effect, or one whose sync failed and closed the log.
   */
  lemma StoreIsReplayOfLog(s: Server)
    requires Reachable(s) && s.up
    ensures exists shown: seq<Command>, last: seq<Command> ::
              && |last| <= 1 && Recovered(s) == shown + last && s.store == Replay(map[], shown)
              && ((s.commit.Free? && s.appendable) || s.commit.Applied? ==> last == [])
  {
    ReachableInv(s);
    var shown, last := ShownAndLast(ParseCommand, s);
    assert Recovered(s) == shown + last;
  }

  /** So between commits a reader finds exactly what the last mutation of the key in the log wrote. */
  lemma ReadersSeeLastWrite(s: Server, key: Bytes)
    requires Reachable(s) && s.up && ((s.commit.Free? && s.appendable) || s.commit.Applied?)
    ensures LastWrite(Recovered(s), key) == if key in s.store then Some(s.store[key]) else None
  {
    ReachableInv(s);
    var shown, last := ShownAndLast(ParseCommand, s);
    assert shown + [] == shown;
    ReplayIsLastWrite(shown, key);
  }

  /** The mutations a GET in this state has seen the effect of. */
  ghost function Observed(parse: Parser, s: Server): seq<Command>
    requires AllApply(parse, Visible(s))
  {
    Meaning(parse, Visible(s))
  }

  /** No later run, whatever happens in it, makes recovery forget any of them. */
  ghost predicate Durable(parse: Parser, s: Server)
    requires AllApply(parse, Visible(s))
  {
    forall trace, s' :: Runs(parse, s, trace, s') ==> Observed(parse, s) <= ScanWith(parse, s'.disk.bytes).mutations
  }

  /** Records begun within the synced bytes stay in the log. */
  ghost predicate Kept(records: seq<Bytes>, s: Server) {
    records <= s.history.log && Fit(records, WIRE_LIMIT - 1) && |Stream(records)| <= s.disk.synced
  }

  lemma PowerLossKeepsRecords(parse: Parser, records: seq<Bytes>, s: Server, keep: nat)
    requires LogOk(parse, s.history) && DiskOk(parse, s) && Kept(records, s) && Enabled(parse, s, PowerLoss(keep))
    ensures Kept(records, Step(parse, s, PowerLoss(keep)))
  {
    var h, n := s.history, |records|;
    assert h.log[..n] == records;
    if |Stream(h.log)| > keep {
      WholeFramesCover(h.log, keep, n);
    }
  }

  lemma RestartKeepsRecords(parse: Parser, records: seq<Bytes>, s: Server, e: Event)
    requires LogOk(parse, s.history) && DiskOk(parse, s) && Kept(records, s) && Enabled(parse, s, e) && (e.Restart? || e.RestartFails?)
    ensures Kept(records, Step(parse, s, e))
  {
    var h, n := s.history, |records|;
    assert h.log[..n] == records;
    StreamPrefixGrows(h.log, n);
    DiskScan(parse, s);
    if Complete(h) {
      LogGrows(parse, h.log, h.pending.value);
    }
  }

  lemma StepKeepsRecords(parse: Parser, records: seq<Bytes>, s: Server, e: Event)
    requires FileInv(parse, s) && Enabled(parse, s, e) && Kept(records, s)
    ensures Kept(records, Step(parse, s, e))
  {
    if e.PowerLoss? {
      PowerLossKeepsRecords(parse, records, s, e.keep);
    } else if e.Restart? || e.RestartFails? {
      RestartKeepsRecords(parse, records, s, e);
    }
  }

  lemma {:induction false} RunKeepsRecords(parse: Parser, records: seq<Bytes>, s: Server, trace: seq<Event>, s': Server)
    requires Faithful(parse) && Inv(parse, s) && Kept(records, s) && Runs(parse, s, trace, s')
    ensures Inv(parse, s') && Kept(records, s')
    decreases |trace|
  {
    if trace != [] {
      StepKeepsRecords(parse, records, s, trace[0]);
      StepKeeps(parse, s, trace[0]);
      RunKeepsRecords(parse, records, Step(parse, s, trace[0]), trace[1..], s');
    }
  }

  /** Kept records are found, first and in order, by any later recovery. */
  lemma KeptAreRecovered(parse: Parser, records: seq<Bytes>, s: Server)
    requires FileInv(parse, s) && Kept(records, s)
    ensures AllApply(parse, records) && Meaning(parse, records) <= ScanWith(parse, s.disk.bytes).mutations
  {
    RecoveryFinds(parse, s);
    var h, n := s.history, |records|;
    assert h.log == records + h.log[n..];
    MeaningAppend(parse, records, h.log[n..]);
  }

  lemma VisiblePart(parse: Parser, s: Server)
    requires LogOk(parse, s.history)
    ensures AllApply(parse, Visible(s)) && Visible(s) <= s.history.log
    ensures Fit(Visible(s), WIRE_LIMIT - 1) && |Stream(Visible(s))| <= |Stream(s.history.log)|
  {
    var n := |Visible(s)|;
    assert s.history.log[..n] == Visible(s);
    StreamPrefixGrows(s.history.log, n);
  }

  lemma AllHardIsSynced(parse: Parser, s: Server)
    requires LogOk(parse, s.history) && DiskOk(parse, s)
    ensures s.history.hard == |s.history.log| <==> |Stream(s.history.log)| <= s.disk.synced
  {
    var h := s.history;
    assert h.log[..|h.log|] == h.log;
    if h.hard < |h.log| {
      StreamPrefixGrows(h.log, h.hard + 1);
    }
  }

  /**
   Exactly when what readers see is safe from every later run: unless this session came up on a clean
   file with unsynced bytes, which recovery neither cuts nor syncs, and has synced nothing since.
   */
  lemma DurableExactly(parse: Parser, s: Server)
    requires Faithful(parse) && Inv(parse, s) && s.up
    ensures AllApply(parse, Visible(s))
    ensures Durable(parse, s) <==> !s.history.exposed
  {
    VisiblePart(parse, s);
    AllHardIsSynced(parse, s);
    if s.history.exposed {
      LosesSomething(parse, s);
    } else {
      forall trace, s' | Runs(parse, s, trace, s')
        ensures Observed(parse, s) <= ScanWith(parse, s'.disk.bytes).mutations
      {
        RunKeepsRecords(parse, Visible(s), s, trace, s');
        KeptAreRecovered(parse, Visible(s), s');
      }
    }
  }

  /** With a soft record in the store, a power loss that keeps only the synced bytes undoes it. */
  lemma LosesSomething(parse: Parser, s: Server)
    requires FileInv(parse, s) && s.up && s.history.exposed && AllApply(parse, Visible(s))
    ensures |ScanWith(parse, s.disk.bytes[..s.disk.synced]).mutations| < |Observed(parse, s)|
    ensures !Durable(parse, s)
  {
    var h, keep := s.history, s.disk.synced;
    assert Visible(s) == h.log;
    AllHardIsSynced(parse, s);
    var s' := Step(parse, s, PowerLoss(keep));
    assert Runs(parse, s', [], s');
    RunsStep(parse, s, PowerLoss(keep), s', [], s');
    LessIsFound(parse, s, s', keep);
  }

  lemma LessIsFound(parse: Parser, s: Server, s': Server, keep: nat)
    requires FileInv(parse, s) && Enabled(parse, s, PowerLoss(keep)) && s' == Step(parse, s, PowerLoss(keep))
    requires |Stream(s.history.log)| > keep
    ensures |ScanWith(parse, s'.disk.bytes).mutations| < |Meaning(parse, s.history.log)|
  {
    var h := s.history;
    CutDisk(parse, s, keep);
    PowerLossFile(parse, s, keep);
    CutStream(h.log, keep);
    RecoveryFinds(parse, s');
    MeaningLength(parse, h.log);
    assert h.log[..|h.log|] == h.log;
  }

  /** In particular what a reader of an unexposed server saw is a prefix of what every later recovery finds. */
  lemma ObservedNeverUndone(s: Server, trace: seq<Event>, s': Server)
    requires Reachable(s) && s.up && !s.history.exposed && Runs(ParseCommand, s, trace, s')
    ensures AllApply(ParseCommand, Visible(s)) && Observed(ParseCommand, s) <= Recovered(s')
  {
    ReachableInv(s);
    ParseCommandIsFaithful();
    DurableExactly(ParseCommand, s);
  }

  // ------------------------------------- stops that leave no whole frame unsynced

  /** Nothing in the log is soft, and a stopped server has no whole frame after it that is not synced. */
  ghost predicate Solid(s: Server) {
    s.history.hard == |s.history.log| && (!s.up && Complete(s.history) ==> s.disk.synced == |s.disk.bytes|)
  }

  /** No frame is written whole and unsynced; an incomplete one the next start cuts off and syncs. */
  predicate CleanStop(s: Server) { !Complete(s.history) }

  /** A run in which the process, however often it stops, never stops with a whole frame unsynced. */
  ghost predicate StopsCleanly(parse: Parser, s: Server, trace: seq<Event>)
    decreases |trace|
  {
    trace == [] || !WellFormed(s) || !Enabled(parse, s, trace[0])
    || ((trace[0].Kill? ==> CleanStop(s)) && StopsCleanly(parse, Step(parse, s, trace[0]), trace[1..]))
  }

  lemma SolidStep(parse: Parser, s: Server, e: Event)
    requires FileInv(parse, s) && Solid(s) && Enabled(parse, s, e) && (e.Kill? ==> CleanStop(s))
    ensures Solid(Step(parse, s, e))
  {
    if e.Restart? || e.RestartFails? {
      DiskScan(parse, s);
    }
  }

  lemma {:induction false} SolidRun(parse: Parser, s: Server, trace: seq<Event>, s': Server)
    requires Faithful(parse) && Inv(parse, s) && Solid(s) && Runs(parse, s, trace, s') && StopsCleanly(parse, s, trace)
    ensures Inv(parse, s') && Solid(s')
    decreases |trace|
  {
    if trace != [] {
      SolidStep(parse, s, trace[0]);
      StepKeeps(parse, s, trace[0]);
      SolidRun(parse, Step(parse, s, trace[0]), trace[1..], s');
    }
  }

  /** If the process never stops with a whole frame unsynced, everything a GET shows is durable at once. */
  lemma DurableUnderCleanStops(trace: seq<Event>, s: Server)
    requires Runs(ParseCommand, START, trace, s) && s.up && StopsCleanly(ParseCommand, START, trace)
    ensures AllApply(ParseCommand, Visible(s)) && Durable(ParseCommand, s)
  {
    ParseCommandIsFaithful();
    StartInv(ParseCommand);
    SolidRun(ParseCommand, START, trace, s);
    DurableExactly(ParseCommand, s);
  }

  lemma RunsStep(parse: Parser, s: Server, e: Event, m: Server, rest: seq<Event>, s': Server)
    requires WellFormed(s) && Enabled(parse, s, e) && Step(parse, s, e) == m && Runs(parse, m, rest, s')
    ensures Runs(parse, s, [e] + rest, s')
  {
    assert ([e] + rest)[1..] == rest;
  }

  function NoBooks(sessions: nat): History {
    History([], None, 0, 0, [], map[], false, 0, sessions, 0, 0, false)
  }

  /** A server that came up on an empty log, in its n-th session. */
  function Fresh(n: nat): Server {
    Server(File([], 0), true, true, map[], Free, map[], NoBooks(n))
  }

  /** Its file after a record was written completely and the sync failed. */
  function Unsynced(record: Bytes, up: bool): Server
    requires |record| < WIRE_LIMIT
  {
    Server(File(Frame(record), 0), up, false, map[], Free, map[], NoBooks(1).(pending := Some(record), torn := |Frame(record)|))
  }

  lemma WriteThenFailedSync(parse: Parser, payload: Bytes, rest: seq<Event>, s': Server)
    requires Faithful(parse) && Request(parse, payload)
    requires |RecordOf(parse, payload)| <= MAX_PAYLOAD && Runs(parse, Unsynced(RecordOf(parse, payload), true), rest, s')
    ensures var record := RecordOf(parse, payload);
            Runs(parse, Fresh(1), [Begin(0, payload)] + ([Write(|Frame(record)|)] + ([SyncFails] + rest)), s')
  {
    var record := RecordOf(parse, payload);
    var frame := Frame(record);
    var s0 := Fresh(1);
    var m := parse(payload).command;
    var s1 := s0.(commit := Writing(0, m, record, 0), history := s0.history.(pending := Some(record)));
    var s2 := s1.(disk := File(frame, 0), commit := Syncing(0, m, record), history := s1.history.(torn := |frame|));
    assert [] + frame[0..|frame|] == frame;
    RunsStep(parse, s2, SyncFails, Unsynced(record, true), rest, s');
    RunsStep(parse, s1, Write(|frame|), s2, [SyncFails] + rest, s');
    RunsStep(parse, s0, Begin(0, payload), s1, [Write(|frame|)] + ([SyncFails] + rest), s');
  }

  /** The session after the kill: the unsynced record is in the store, and nothing made it durable. */
  function Exposed(parse: Parser, record: Bytes): Server
    requires |record| < WIRE_LIMIT && Applies(parse, record)
  {
    Server(File(Frame(record), 0), true, true, Effect(map[], parse(record).command), Free, map[],
           NoBooks(2).(log := [record], base := 1, exposed := true))
  }

  lemma KillThenRestart(parse: Parser, record: Bytes)
    requires |record| <= MAX_PAYLOAD && Applies(parse, record)
    ensures Runs(parse, Unsynced(record, true), [Kill] + ([Restart] + []), Exposed(parse, record))
  {
    var down := Unsynced(record, false);
    assert Frame(record) + [] == Frame(record);
    ScanFirst(parse, record, []);
    assert Replay(map[], [parse(record).command]) == Replay(Effect(map[], parse(record).command), [parse(record).command][1..]);
    assert [] + [record] == [record];
    RunsStep(parse, down, Restart, Exposed(parse, record), [], Exposed(parse, record));
    RunsStep(parse, Unsynced(record, true), Kill, down, [Restart] + [], Exposed(parse, record));
  }

  /** The server shows the value of a SET it never acknowledged, and a power loss now would lose it. */
  ghost predicate ServesButMayLose(parse: Parser, s: Server, m: Command) {
    && m.Set? && s.up && s.history.acks == [] && s.store == map[m.key := m.value]
    && Enabled(parse, s, PowerLoss(0)) && ScanWith(parse, s.disk.bytes[..0]).mutations == []
  }

  lemma ExposureRun(parse: Parser, payload: Bytes) returns (trace: seq<Event>, s: Server)
    requires Faithful(parse) && Request(parse, payload) && parse(payload).command.Set?
    ensures Runs(parse, START, trace, s) && ServesButMayLose(parse, s, parse(payload).command)
  {
    var record := RecordOf(parse, payload);
    assert |record| <= |payload| && parse(record) == parse(payload);
    s := Exposed(parse, record);
    KillThenRestart(parse, record);
    WriteThenFailedSync(parse, payload, [Kill] + ([Restart] + []), s);
    var rest := [Begin(0, payload)] + ([Write(|Frame(record)|)] + ([SyncFails] + ([Kill] + ([Restart] + []))));
    RunsStep(parse, START, Restart, Fresh(1), rest, s);
    trace := [Restart] + rest;
    assert s.disk.bytes[..0] == [];
  }

  /**
   With kills the guarantee fails: for any SET there is a run that never acknowledges it, yet whose
   next session serves its value, and a power loss in that session then loses it.
   */
  lemma KilledServerServesUnsyncedValue(payload: Bytes)
    requires Request(ParseCommand, payload) && ParseCommand(payload).command.Set?
    ensures exists s :: Reachable(s) && ServesButMayLose(ParseCommand, s, ParseCommand(payload).command)
  {
    ParseCommandIsFaithful();
    var trace, s := ExposureRun(ParseCommand, payload);
    assert Reachable(s);
  }

  // ------------------------------------------------------------- reply lengths

  ghost predicate ValuesFit(store: Store) {
    forall k :: k in store ==> |store[k]| + 6 <= MAX_PAYLOAD
  }

  ghost predicate SetsFit(mutations: seq<Command>) {
    forall i :: 0 <= i < |mutations| && mutations[i].Set? ==> |mutations[i].value| + 6 <= MAX_PAYLOAD
  }

  lemma {:induction false} ReplayFits(store: Store, mutations: seq<Command>)
    requires ValuesFit(store) && SetsFit(mutations)
    ensures ValuesFit(Replay(store, mutations))
    decreases |mutations|
  {
    if mutations != [] {
      ReplayFits(Effect(store, mutations[0]), mutations[1..]);
    }
  }

  /** "SET k " is at least as long as "VALUE ", so a value that came in as a request goes out as a reply. */
  lemma ParsedValueFits(record: Bytes)
    requires |record| <= MAX_PAYLOAD && ParseCommand(record).Parsed? && ParseCommand(record).command.Set?
    ensures |ParseCommand(record).command.value| + 6 <= MAX_PAYLOAD
  {
    ParsedIsClean(record);
  }

  lemma {:induction false} MeaningFits(log: seq<Bytes>)
    requires AllApply(ParseCommand, log)
    ensures SetsFit(Meaning(ParseCommand, log))
    decreases |log|
  {
    if log != [] {
      MeaningFits(log[1..]);
      if ParseCommand(log[0]).command.Set? {
        ParsedValueFits(log[0]);
      }
    }
  }

  /** In every session, recovered values included, "VALUE " and any stored value fit one frame. */
  lemma EveryStoredValueFitsAReply(s: Server)
    requires Reachable(s) && s.up
    ensures ValuesFit(s.store)
  {
    ReachableInv(s);
    VisiblePart(ParseCommand, s);
    MeaningFits(Visible(s));
    ReplayFits(map[], Meaning(ParseCommand, Visible(s)));
  }
}
