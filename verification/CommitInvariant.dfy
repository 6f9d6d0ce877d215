/** Every step of the commit path keeps the file, the log, the acknowledgements and the store in agreement. */
module CommitInvariant {
  import opened Common
  import opened Protocol
  import opened Framing
  import opened LogScan
  import opened CommitProtocol

  // ------------------------------------------------------------ bookkeeping

  /** Adding one record to the log. */
  lemma LogGrows(parse: Parser, log: seq<Bytes>, record: Bytes)
    requires AllApply(parse, log) && |record| <= MAX_PAYLOAD && Applies(parse, record)
    ensures AllApply(parse, log + [record])
    ensures Stream(log + [record]) == Stream(log) + Frame(record)
    ensures Meaning(parse, log + [record]) == Meaning(parse, log) + [parse(record).command]
  {
    StreamAppend(log, [record]);
    StreamOne(record);
    MeaningAppend(parse, log, [record]);
    MeaningOne(parse, record);
  }

  /** Whole frames counted in `n` bytes are at least those known to lie within them. */
  lemma {:induction false} WholeFramesCover(payloads: seq<Bytes>, n: nat, j: nat)
    requires Fit(payloads, WIRE_LIMIT - 1) && j <= |payloads| && |Stream(payloads[..j])| <= n
    ensures j <= WholeFrames(payloads, n)
    decreases |payloads|
  {
    if j > 0 {
      var rest := payloads[1..];
      assert payloads[..j][1..] == rest[..j - 1];
      assert Stream(payloads[..j]) == Frame(payloads[0]) + Stream(rest[..j - 1]);
      WholeFramesCover(rest, n - (4 + |payloads[0]|), j - 1);
    }
  }

  lemma StreamPrefixGrows(payloads: seq<Bytes>, j: nat)
    requires Fit(payloads, WIRE_LIMIT - 1) && j <= |payloads|
    ensures |Stream(payloads[..j])| <= |Stream(payloads)|
  {
    assert payloads == payloads[..j] + payloads[j..];
    StreamAppend(payloads[..j], payloads[j..]);
  }

  // ------------------------------------------------- the file, step by step

  lemma BeginFile(parse: Parser, s: Server, client: nat, payload: Bytes)
    requires Faithful(parse) && FileInv(parse, s) && Enabled(parse, s, Begin(client, payload))
    ensures FileInv(parse, Step(parse, s, Begin(client, payload)))
  {
    if s.appendable {
      var record := RecordOf(parse, payload);
      assert |record| <= |payload| && parse(record) == parse(payload);
      assert Frame(record)[..0] == [];
    }
  }

  lemma WriteFile(parse: Parser, s: Server, count: nat)
    requires FileInv(parse, s) && Enabled(parse, s, Write(count))
    ensures FileInv(parse, Step(parse, s, Write(count)))
  {
    var Writing(_, _, record, written) := s.commit;
    FrameExtends(Stream(s.history.log), Frame(record), written, written + count);
  }

  lemma FrameExtends(before: Bytes, frame: Bytes, written: nat, upto: nat)
    requires written <= upto <= |frame|
    ensures (before + frame[..written]) + frame[written..upto] == before + frame[..upto]
  {
    assert frame[..upto] == frame[..written] + frame[written..upto];
  }

  lemma SyncFile(parse: Parser, s: Server)
    requires FileInv(parse, s) && Enabled(parse, s, Sync)
    ensures FileInv(parse, Step(parse, s, Sync))
  {
    var h, record := s.history, s.commit.record;
    LogGrows(parse, h.log, record);
    var s' := Step(parse, s, Sync);
    assert Frame(record)[..h.torn] == Frame(record);
    assert s'.history.log[..s'.history.hard] == s'.history.log;
    assert Stream(s'.history.log) + [] == Stream(s'.history.log);
    assert Visible(s') == h.log;
  }

  lemma ApplyFile(parse: Parser, s: Server)
    requires FileInv(parse, s) && Enabled(parse, s, Apply)
    ensures FileInv(parse, Step(parse, s, Apply))
  {
    var log, s' := s.history.log, Step(parse, s, Apply);
    LastMeaning(parse, log);
    assert Visible(s) == log[..|log| - 1] && Visible(s') == log;
    ReplayOne(map[], Meaning(parse, log[..|log| - 1]), parse(log[|log| - 1]).command);
  }

  lemma LastMeaning(parse: Parser, log: seq<Bytes>)
    requires AllApply(parse, log) && log != []
    ensures Applies(parse, log[|log| - 1]) && AllApply(parse, log[..|log| - 1])
    ensures Meaning(parse, log) == Meaning(parse, log[..|log| - 1]) + [parse(log[|log| - 1]).command]
  {
    var before, last := log[..|log| - 1], log[|log| - 1];
    assert log == before + [last];
    MeaningOne(parse, last);
    MeaningAppend(parse, before, [last]);
  }

  /** Forming and sending replies, failing and being killed leave log and file alone. */
  lemma QuietFile(parse: Parser, s: Server, e: Event)
    requires FileInv(parse, s) && Enabled(parse, s, e)
    requires e.Release? || e.Send? || e.WriteFails? || e.SyncFails? || e.Kill?
    ensures FileInv(parse, Step(parse, s, e))
  {
    var s' := Step(parse, s, e);
    SameLog(parse, s, s');
  }

  lemma SameLog(parse: Parser, s: Server, s': Server)
    requires LogOk(parse, s.history) && DiskOk(parse, s) && s'.disk == s.disk && s.history.firstAck <= |s'.history.acks|
    requires var h, h' := s.history, s'.history;
             h'.log == h.log && h'.pending == h.pending && h'.torn == h.torn && h'.hard == h.hard && h'.base == h.base
             && h'.firstAck == h.firstAck
    ensures LogOk(parse, s'.history) && DiskOk(parse, s')
  {}

  /** What a power loss leaves of the file is a shorter log and the start of one more frame. */
  lemma CutDisk(parse: Parser, s: Server, keep: nat)
    requires LogOk(parse, s.history) && DiskOk(parse, s) && s.disk.synced <= keep <= |s.disk.bytes|
    ensures var h := Cut(s.history, keep);
            && LogOk(parse, h) && s.disk.bytes[..keep] == Stream(h.log) + Tail(h)
            && |Stream(h.log[..h.hard])| <= keep
  {
    var h := s.history;
    var size := |Stream(h.log)|;
    var h' := Cut(h, keep);
    if size <= keep {
      assert s.disk.bytes[..keep] == Stream(h.log) + Tail(h)[..keep - size];
      assert h.log[..|h.log|] == h.log;
      if h.pending.Some? {
        assert Frame(h.pending.value)[..h.torn][..keep - size] == Frame(h.pending.value)[..keep - size];
      }
    } else {
      CutStream(h.log, keep);
      assert s.disk.bytes[..keep] == Stream(h.log)[..keep];
      var j := WholeFrames(h.log, keep);
      assert h.log[..|h.log|] == h.log;
      assert h'.log[..h'.hard] == h.log[..j];
    }
  }

  lemma PowerLossFile(parse: Parser, s: Server, keep: nat)
    requires FileInv(parse, s) && Enabled(parse, s, PowerLoss(keep))
    ensures FileInv(parse, Step(parse, s, PowerLoss(keep)))
  {
    CutDisk(parse, s, keep);
  }

  lemma TailScan(parse: Parser, h: History)
    requires LogOk(parse, h)
    ensures var scan := ScanWith(parse, Tail(h));
            if h.pending.Some? && h.torn == 4 + |h.pending.value|
            then scan == Scan([parse(h.pending.value).command], h.torn, CleanEnd)
            else scan == Scan([], 0, if h.torn == 0 then CleanEnd else TornEnd)
  {
    var tail := Tail(h);
    if h.pending.Some? && h.torn == 4 + |h.pending.value| {
      var record := h.pending.value;
      assert tail == Frame(record) + [];
      ScanFirst(parse, record, []);
    } else {
      if h.torn > 0 {
        assert |tail| < 4 + |h.pending.value| && tail == Frame(h.pending.value)[..|tail|];
      }
      ScanOfTorn(parse, tail);
    }
  }

  /** Recovery reads back exactly the log, plus a completed pending record, and never refuses the file. */
  lemma DiskScan(parse: Parser, s: Server)
    requires LogOk(parse, s.history) && DiskOk(parse, s)
    ensures var h := Adopt(s.history, s.disk.synced == |s.disk.bytes|);
            var scan := ScanWith(parse, s.disk.bytes);
            && AllApply(parse, h.log) && scan.mutations == Meaning(parse, h.log)
            && scan.size == |Stream(h.log)|
            && !scan.ending.Malformed?
            && (scan.ending.TornEnd? <==> h.log == s.history.log && s.history.torn > 0)
            && s.disk.bytes[..scan.size] == Stream(h.log)
  {
    var h := s.history;
    ScanOfStream(parse, h.log, Tail(h));
    TailScan(parse, h);
    if h.pending.Some? && h.torn == 4 + |h.pending.value| {
      LogGrows(parse, h.log, h.pending.value);
      assert Frame(h.pending.value)[..h.torn] == Frame(h.pending.value);
    } else {
      assert Meaning(parse, h.log) + [] == Meaning(parse, h.log);
    }
  }

  /** After a restart the records within the synced bytes are exactly the hard ones. */
  lemma AdoptHard(h: History, size: nat, synced: nat)
    requires Fit(h.log, WIRE_LIMIT - 1) && h.hard <= |h.log| && HardExactly(h, synced) && synced <= size
    requires var log' := Adopt(h, synced == size).log;
             Fit(log', WIRE_LIMIT - 1) && ((log' == h.log && h.torn > 0) || |Stream(log')| == size)
    ensures var h' := Adopt(h, synced == size);
            && h'.hard <= |h'.log|
            && HardExactly(h', if h'.log == h.log && h.torn > 0 then |Stream(h'.log)| else synced)
  {
    var log' := Adopt(h, synced == size).log;
    assert log'[..|log'|] == log';
    assert log'[..h.hard] == h.log[..h.hard];
    if h.hard < |h.log| {
      assert log'[..h.hard + 1] == h.log[..h.hard + 1];
    }
  }

  /** Restarting leaves the log's frames and nothing else, hard as far as they were synced. */
  lemma RestartDisk(parse: Parser, s: Server)
    requires FileInv(parse, s) && Enabled(parse, s, Restart)
    ensures var s' := Step(parse, s, Restart); LogOk(parse, s'.history) && DiskOk(parse, s')
  {
    DiskScan(parse, s);
    var h, s' := s.history, Step(parse, s, Restart);
    AdoptHard(h, |s.disk.bytes|, s.disk.synced);
    assert Stream(s'.history.log) + [] == Stream(s'.history.log);
  }

  /** The guard of the branch that leaves a clean file unsynced decides whether a record is soft. */
  lemma RestartExposure(parse: Parser, s: Server)
    requires FileInv(parse, s) && Enabled(parse, s, Restart)
    ensures ExposureOk(Step(parse, s, Restart))
  {
    DiskScan(parse, s);
    RestartDisk(parse, s);
    var h' := Step(parse, s, Restart).history;
    assert h'.log[..|h'.log|] == h'.log;
  }

  lemma RestartFile(parse: Parser, s: Server)
    requires FileInv(parse, s) && Enabled(parse, s, Restart)
    ensures FileInv(parse, Step(parse, s, Restart))
  {
    DiskScan(parse, s);
    RestartDisk(parse, s);
    RestartExposure(parse, s);
  }

  lemma RestartFailsFile(parse: Parser, s: Server, truncated: bool)
    requires FileInv(parse, s) && Enabled(parse, s, RestartFails(truncated))
    ensures FileInv(parse, Step(parse, s, RestartFails(truncated)))
  {
    DiskScan(parse, s);
    StreamPrefixGrows(s.history.log, s.history.hard);
    if s.history.pending.Some? {
      assert Frame(s.history.pending.value)[..0] == [];
    }
    assert Stream(s.history.log) + [] == Stream(s.history.log);
  }

  lemma StepFile(parse: Parser, s: Server, e: Event)
    requires Faithful(parse) && FileInv(parse, s) && Enabled(parse, s, e)
    ensures FileInv(parse, Step(parse, s, e))
  {
    match e
    case Begin(client, payload) => BeginFile(parse, s, client, payload);
    case Write(count) => WriteFile(parse, s, count);
    case Sync => SyncFile(parse, s);
    case Apply => ApplyFile(parse, s);
    case PowerLoss(keep) => PowerLossFile(parse, s, keep);
    case Restart => RestartFile(parse, s);
    case RestartFails(truncated) => RestartFailsFile(parse, s, truncated);
    case _ => QuietFile(parse, s, e);
  }

  // ------------------------------------------------ the books, step by step

  lemma OneMore(m: map<nat, nat>, c: nat, v: nat)
    requires c !in m
    ensures |m[c := v]| == |m| + 1
  {
    assert m[c := v].Keys == m.Keys + {c};
  }

  lemma OneLess(m: map<nat, nat>, c: nat)
    requires c in m
    ensures |m - {c}| == |m| - 1
  {
    assert (m - {c}).Keys == m.Keys - {c};
  }

  lemma FormedOk(h: History, client: nat)
    requires RepliesOk(h) && Counted(h) && h.unreleased && h.hard == |h.log| && client !in h.unsent
    ensures RepliesOk(Formed(h, client)) && Counted(Formed(h, client))
  {
    OneMore(h.unsent, client, |h.log| - 1);
  }

  lemma ReleaseBooks(parse: Parser, s: Server)
    requires LogOk(parse, s.history) && PhaseOk(s) && CommandOk(parse, s) && BooksInv(parse, s) && Enabled(parse, s, Release)
    requires LogOk(parse, Step(parse, s, Release).history)
    ensures BooksInv(parse, Step(parse, s, Release))
  {
    FormedOk(s.history, s.commit.client);
    FormedPlaced(s.history, s.commit.client);
    FormedOutbox(parse, s);
  }

  lemma FormedPlaced(h: History, client: nat)
    requires Placed(h) && client !in h.unsent && h.log != []
    ensures Placed(Formed(h, client))
  {
    var h' := Formed(h, client);
    forall at: nat | h.base <= at < |h.log|
      ensures Acked(h', at) || Waiting(h', at)
    {
      if Acked(h, at) {
        var i :| h.firstAck <= i < |h.acks| && h.acks[i].at == at;
        assert h'.acks[i].at == at;
      } else if Waiting(h, at) {
        var c :| c in h.unsent && h.unsent[c] == at;
        assert c in h'.unsent && h'.unsent[c] == at;
      } else {
        assert client in h'.unsent && h'.unsent[client] == at;
      }
    }
  }

  lemma FormedOutbox(parse: Parser, s: Server)
    requires LogOk(parse, s.history) && OutboxOk(parse, s) && PhaseOk(s) && CommandOk(parse, s) && Enabled(parse, s, Release)
    ensures var s' := Step(parse, s, Release); LogOk(parse, s'.history) && OutboxOk(parse, s')
  {}

  lemma SentAcks(parse: Parser, h: History, client: nat, command: Command)
    requires LogOk(parse, h) && AcksOk(parse, h) && RepliesOk(h) && client in h.unsent
    requires command == parse(h.log[h.unsent[client]]).command
    ensures LogOk(parse, Sent(h, client, command)) && AcksOk(parse, Sent(h, client, command))
  {}

  lemma SentReplies(h: History, client: nat, command: Command)
    requires RepliesOk(h) && client in h.unsent
    ensures RepliesOk(Sent(h, client, command))
  {}

  lemma SentCounted(h: History, client: nat, command: Command)
    requires Counted(h) && client in h.unsent
    ensures Counted(Sent(h, client, command))
  {
    OneLess(h.unsent, client);
  }

  lemma SendBooks(parse: Parser, s: Server, client: nat)
    requires LogOk(parse, s.history) && BooksInv(parse, s) && Enabled(parse, s, Send(client))
    ensures LogOk(parse, Step(parse, s, Send(client)).history) && BooksInv(parse, Step(parse, s, Send(client)))
  {
    SentAcks(parse, s.history, client, s.outbox[client]);
    SentReplies(s.history, client, s.outbox[client]);
    SentCounted(s.history, client, s.outbox[client]);
    SentPlaced(s.history, client, s.outbox[client]);
  }

  lemma SentPlaced(h: History, client: nat, command: Command)
    requires Placed(h) && client in h.unsent && h.firstAck <= |h.acks|
    ensures Placed(Sent(h, client, command))
  {
    var h' := Sent(h, client, command);
    forall at: nat | h.base <= at < |h.log|
      ensures Acked(h', at) || Waiting(h', at) || (h.unreleased && at == |h.log| - 1)
    {
      if Acked(h, at) {
        var i :| h.firstAck <= i < |h.acks| && h.acks[i].at == at;
        assert h'.acks[i].at == at;
      } else if Waiting(h, at) {
        var c :| c in h.unsent && h.unsent[c] == at;
        if c == client {
          assert h'.acks[|h.acks|].at == at;
        } else {
          assert c in h'.unsent && h'.unsent[c] == at;
        }
      }
    }
  }

  /** A synced record enters the books as the one in flight. */
  lemma SyncBooks(parse: Parser, s: Server)
    requires FileInv(parse, s) && BooksInv(parse, s) && Enabled(parse, s, Sync)
    requires LogOk(parse, Step(parse, s, Sync).history)
    ensures BooksInv(parse, Step(parse, s, Sync))
  {
    SyncedPlaced(s.history, Step(parse, s, Sync).history);
  }

  lemma SyncedPlaced(h: History, h': History)
    requires Placed(h) && !h.unreleased && h'.unreleased && |h'.log| == |h.log| + 1 && h'.base == h.base
    requires h'.acks == h.acks && h'.firstAck == h.firstAck && h'.unsent == h.unsent
    ensures Placed(h')
  {
    forall at: nat | h'.base <= at < |h.log|
      ensures Acked(h', at) || Waiting(h', at)
    {
      assert Acked(h, at) == Acked(h', at) && Waiting(h, at) == Waiting(h', at);
    }
  }

  /** Steps that neither sync nor touch replies only move the pending frame. */
  /** Of the history, these steps touch only the record under way. */
  lemma QuietHistory(parse: Parser, s: Server, e: Event, s': Server)
    requires PhaseOk(s) && Fit(s.history.log, WIRE_LIMIT - 1) && Enabled(parse, s, e) && s' == Step(parse, s, e)
    requires e.Begin? || e.Write? || e.WriteFails? || e.SyncFails? || e.Apply? || e.Kill? || e.RestartFails?
    ensures s'.history == s.history.(pending := s'.history.pending, torn := s'.history.torn)
    ensures s'.history.pending == s.history.pending || (e.Begin? && s.up && s.appendable && s.commit.Free?)
  {}

  lemma QuietBooks(parse: Parser, s: Server, e: Event)
    requires PhaseOk(s) && LogOk(parse, s.history) && BooksInv(parse, s) && Enabled(parse, s, e)
    requires e.Begin? || e.Write? || e.WriteFails? || e.SyncFails? || e.Apply? || e.Kill? || e.RestartFails?
    requires LogOk(parse, Step(parse, s, e).history)
    ensures BooksInv(parse, Step(parse, s, e))
  {
    QuietHistory(parse, s, e, Step(parse, s, e));
    SameBooks(parse, s, Step(parse, s, e));
  }

  /** The books do not depend on how much of the pending frame is written. */
  lemma SameBooks(parse: Parser, s: Server, s': Server)
    requires LogOk(parse, s.history) && AcksOk(parse, s.history) && RepliesOk(s.history) && Counted(s.history) && Placed(s.history)
    requires s'.history == s.history.(pending := s'.history.pending, torn := s'.history.torn) && LogOk(parse, s'.history)
    requires s'.history.pending.Some? ==> !s.history.unreleased && (s.history.pending.Some? || (RoomForOne(s) && s.up && s.appendable && s.commit.Free?))
    ensures AcksOk(parse, s'.history) && RepliesOk(s'.history) && Counted(s'.history) && Placed(s'.history)
  {
    SamePlaced(s.history, s'.history);
  }

  lemma SamePlaced(h: History, h': History)
    requires Placed(h) && h'.acks == h.acks && h'.firstAck == h.firstAck && h'.unsent == h.unsent && h'.base == h.base
    requires |h'.log| == |h.log| && h'.unreleased == h.unreleased
    ensures Placed(h')
  {
    forall at: nat | h'.base <= at < |h'.log|
      ensures Acked(h', at) || Waiting(h', at) || (h'.unreleased && at == |h'.log| - 1)
    {
      assert Acked(h, at) == Acked(h', at) && Waiting(h, at) == Waiting(h', at);
    }
  }

  /** Records from `j` on, none of them hard, leave without an acknowledgement or an outstanding reply. */
  lemma CutBooks(parse: Parser, h: History, h': History, j: nat)
    requires LogOk(parse, h) && AcksOk(parse, h) && RepliesOk(h) && Counted(h) && h.hard <= j < |h.log|
    requires h' == h.(log := h.log[..j], hard := j, base := if j < h.base then j else h.base, pending := Some(h.log[j]), torn := h'.torn)
    requires LogOk(parse, h')
    ensures AcksOk(parse, h') && RepliesOk(h') && Counted(h')
  {}

  /** A power loss takes no acknowledgement with it. */
  lemma CutAcks(parse: Parser, s: Server, keep: nat)
    requires LogOk(parse, s.history) && DiskOk(parse, s) && s.disk.synced <= keep <= |s.disk.bytes|
    requires AcksOk(parse, s.history) && RepliesOk(s.history) && Counted(s.history)
    ensures var h := Cut(s.history, keep);
            && LogOk(parse, h) && AcksOk(parse, h) && RepliesOk(h) && Counted(h)
            && h.acks == s.history.acks && s.history.hard <= h.hard
            && (Placed(s.history) ==> Placed(h))
  {
    CutDisk(parse, s, keep);
    var h := s.history;
    if |Stream(h.log)| > keep {
      CutStream(h.log, keep);
      WholeFramesCover(h.log, keep, h.hard);
      CutBooks(parse, h, Cut(h, keep), WholeFrames(h.log, keep));
    } else if Placed(h) {
      SamePlaced(h, Cut(h, keep));
    }
  }

  /** The new session starts behind every record and every acknowledgement there is. */
  lemma AdoptBooks(parse: Parser, h: History, allSynced: bool)
    requires LogOk(parse, h) && AcksOk(parse, h) && Counted(h)
    requires LogOk(parse, Adopt(h, allSynced)) && h.hard <= Adopt(h, allSynced).hard
    ensures var h' := Adopt(h, allSynced); AcksOk(parse, h') && RepliesOk(h') && Counted(h')
  {}

  lemma RestartBooks(parse: Parser, s: Server)
    requires FileInv(parse, s) && BooksInv(parse, s) && Enabled(parse, s, Restart)
    requires LogOk(parse, Step(parse, s, Restart).history)
    ensures BooksInv(parse, Step(parse, s, Restart))
  {
    AdoptBooks(parse, s.history, s.disk.synced == |s.disk.bytes|);
  }

  lemma StepBooks(parse: Parser, s: Server, e: Event)
    requires FileInv(parse, s) && BooksInv(parse, s) && Enabled(parse, s, e)
    requires LogOk(parse, Step(parse, s, e).history)
    ensures BooksInv(parse, Step(parse, s, e))
  {
    match e
    case Release => ReleaseBooks(parse, s);
    case Send(client) => SendBooks(parse, s, client);
    case Sync => SyncBooks(parse, s);
    case PowerLoss(keep) => CutAcks(parse, s, keep);
    case Restart => RestartBooks(parse, s);
    case _ => QuietBooks(parse, s, e);
  }

  // --------------------------------------------------------------- every step

  lemma StepKeeps(parse: Parser, s: Server, e: Event)
    requires Faithful(parse) && Inv(parse, s) && Enabled(parse, s, e)
    ensures Inv(parse, Step(parse, s, e))
  {
    StepFile(parse, s, e);
    StepBooks(parse, s, e);
  }
}
