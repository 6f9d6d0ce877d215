/**
 The server's commit path over whole lifetimes, step by step.  A worker takes the mutation
 mutex, frames the record, appends it by any number of short writes, syncs, applies it to the
 store and releases the mutex; its reply is sent later, outside the mutex, so the replies of
 several workers can be outstanding at once and leave in any order.  Reads of the store, write
 failures, process kills, power losses and restarts come in between at any point.

 A power loss keeps every synced byte and any prefix of the unsynced ones.  A kill
 loses only the process: the file keeps all its bytes, synced or not.
 */
module CommitProtocol {
  import opened Common
  import opened Protocol
  import opened Framing
  import opened LogScan
  import opened Wals

  type Parser = Bytes -> ParseResult

  /** Where the holder of `mutation_mutex_` stands: whom it serves, what was asked, and the record of it. */
  datatype Commit =
    | Free
    | Writing(client: nat, command: Command, record: Bytes, written: nat)  // in write_file_all
    | Syncing(client: nat, command: Command, record: Bytes)                // in sync_file
    | Synced(client: nat, command: Command, record: Bytes)                 // append_record returned, store not yet changed
    | Applied(client: nat, command: Command, record: Bytes)                // store changed, mutex still held

  datatype Server = Server(
    disk: File,
    up: bool,
    appendable: bool,            // fd_ is open
    store: Store,
    commit: Commit,
    outbox: map<nat, Command>,   // requests whose positive reply is formed and not yet sent
    history: History)

  /** A positive reply that was sent: for which mutation, and where its record is in the log. */
  datatype Ack = Ack(at: nat, command: Command)

  /** Auxiliary: what a step does to the rest of the server does not depend on it. */
  datatype History = History(
    log: seq<Bytes>,         // the records of the complete frames the file is known by
    pending: Option<Bytes>,  // the record whose frame was begun after them,
    torn: nat,               // and how much of that frame is in the file
    hard: nat,               // how many of the records a power loss cannot touch
    acks: seq<Ack>,          // every acknowledgement ever sent, in the order sent
    unsent: map<nat, nat>,   // this session's replies formed and not sent, with their records' places
    unreleased: bool,        // the last record is synced and its reply not yet formed
    released: nat,           // how many positive replies were ever formed
    sessions: nat,           // how often the server came up
    base: nat,               // how many records, and
    firstAck: nat,           // how many acknowledgements there were when this session began
    exposed: bool)           // this session began on unsynced bytes it did not cut, and has synced nothing

  const START :=
    Server(File([], 0), false, false, map[], Free, map[], History([], None, 0, 0, [], map[], false, 0, 0, 0, 0, false))

  datatype Event =
    | Begin(client: nat, payload: Bytes)
    | Write(count: nat)
    | WriteFails
    | Sync
    | SyncFails
    | Apply
    | Release             // the mutex is free again, the reply is formed
    | Send(client: nat)   // the reply goes out; one that fails to go out is never sent
    | Kill
    | PowerLoss(keep: nat)
    | Restart
    | RestartFails(truncated: bool)

  /** The limit the constructor enforces on `max_payload`. */
  predicate Request(parse: Parser, payload: Bytes) {
    |payload| <= MAX_PAYLOAD && Applies(parse, payload)
  }

  function RecordOf(parse: Parser, payload: Bytes): Bytes
    requires Applies(parse, payload)
  {
    Record(parse(payload).command)
  }

  ghost predicate Enabled(parse: Parser, s: Server, e: Event) {
    match e
    case Begin(client, payload) => s.up && s.commit.Free? && client !in s.outbox && Request(parse, payload)
    case Write(count) => s.up && s.commit.Writing? && count <= 4 + |s.commit.record| - s.commit.written
                         && |s.commit.record| < WIRE_LIMIT
    case WriteFails => s.up && s.commit.Writing?
    case Sync => s.up && s.commit.Syncing?
    case SyncFails => s.up && s.commit.Syncing?
    case Apply => s.up && s.commit.Synced?
    case Release => s.up && s.commit.Applied?
    case Send(client) => s.up && client in s.outbox
    case Kill => s.up
    case PowerLoss(keep) => s.disk.synced <= keep <= |s.disk.bytes|
    case Restart => !s.up && !ScanWith(parse, s.disk.bytes).ending.Malformed?
    case RestartFails(_) => !s.up
  }

  function Down(s: Server): Server {
    s.(up := false, appendable := false, store := map[], commit := Free, outbox := map[])
  }

  /** History after losing all but `keep` bytes; all that is left is hard. */
  ghost function Cut(h: History, keep: nat): History
    requires Fit(h.log, WIRE_LIMIT - 1)
  {
    var size := |Stream(h.log)|;
    if size <= keep then h.(torn := keep - size, hard := |h.log|)
    else
      var j := WholeFrames(h.log, keep);
      if j == |h.log| then h
      else h.(log := h.log[..j], hard := j, base := if j < h.base then j else h.base, pending := Some(h.log[j]),
              torn := if keep < |Stream(h.log[..j])| then 0 else keep - |Stream(h.log[..j])|)
  }

  /** History after a restart: a complete pending frame is adopted, an incomplete one is gone. */
  function Adopt(h: History, allSynced: bool): History {
    var adopted := h.pending.Some? && h.torn == 4 + |h.pending.value|;
    var repaired := !adopted && h.torn > 0;
    var log := if adopted then h.log + [h.pending.value] else h.log;
    h.(log := log, pending := None, torn := 0, hard := if repaired || allSynced then |log| else h.hard,
       unsent := map[], unreleased := false, sessions := h.sessions + 1, base := |log|, firstAck := |h.acks|)
  }

  /** History after the reply for the last record was formed. */
  function Formed(h: History, client: nat): History {
    if h.log == [] then h
    else h.(unsent := h.unsent[client := |h.log| - 1], unreleased := false, released := h.released + 1)
  }

  /** History after a reply was sent. */
  function Sent(h: History, client: nat, command: Command): History {
    if client in h.unsent then h.(acks := h.acks + [Ack(h.unsent[client], command)], unsent := h.unsent - {client}) else h
  }

  ghost function Step(parse: Parser, s: Server, e: Event): Server
    requires Enabled(parse, s, e) && Fit(s.history.log, WIRE_LIMIT - 1)
  {
    var h := s.history;
    match e
    case Begin(client, payload) =>
      if !s.appendable then s
      else
        var record := RecordOf(parse, payload);
        s.(commit := Writing(client, parse(payload).command, record, 0), history := h.(pending := Some(record), torn := 0))
    case Write(count) =>
      var Writing(client, command, record, written) := s.commit;
      var upto := written + count;
      s.(disk := s.disk.(bytes := s.disk.bytes + Frame(record)[written..upto]),
         commit := if upto == 4 + |record| then Syncing(client, command, record) else Writing(client, command, record, upto),
         history := h.(torn := upto))
    case WriteFails => s.(appendable := false, commit := Free)
    case Sync =>
      s.(disk := s.disk.(synced := |s.disk.bytes|), commit := Synced(s.commit.client, s.commit.command, s.commit.record),
         history := h.(log := h.log + [s.commit.record], pending := None, torn := 0, hard := |h.log| + 1,
                       unreleased := true, exposed := false))
    case SyncFails => s.(appendable := false, commit := Free)
    case Apply =>
      s.(store := Effect(s.store, s.commit.command), commit := Applied(s.commit.client, s.commit.command, s.commit.record))
    case Release =>
      s.(commit := Free, outbox := s.outbox[s.commit.client := s.commit.command],
         history := Formed(h, s.commit.client))
    case Send(client) => s.(outbox := s.outbox - {client}, history := Sent(h, client, s.outbox[client]))
    case Kill => Down(s)
    case PowerLoss(keep) => Down(s).(disk := File(s.disk.bytes[..keep], keep), history := Cut(h, keep))
    case Restart =>
      var scan := ScanWith(parse, s.disk.bytes);
      s.(disk := if scan.ending.CleanEnd? then s.disk else File(s.disk.bytes[..scan.size], scan.size),
         up := true, appendable := true, store := Replay(map[], scan.mutations), commit := Free, outbox := map[],
         history := Adopt(h, s.disk.synced == |s.disk.bytes|).(
           exposed := scan.ending.CleanEnd? && s.disk.synced < |s.disk.bytes|))
    case RestartFails(truncated) =>
      var scan := ScanWith(parse, s.disk.bytes);
      if truncated && scan.ending.TornEnd? then
        s.(disk := CutBack(s.disk, scan.size), history := h.(torn := 0))
      else s
  }

  // ---------------------------------------------------------------- invariant

  /** A parser whose mutations print to records that parse back and are no longer than the request. */
  ghost predicate Faithful(parse: Parser) {
    forall payload :: Applies(parse, payload) ==>
      && |RecordOf(parse, payload)| <= |payload|
      && parse(RecordOf(parse, payload)) == parse(payload)
  }

  ghost predicate LogOk(parse: Parser, h: History) {
    && AllApply(parse, h.log) && h.hard <= |h.log| && h.base <= |h.log| && h.firstAck <= |h.acks|
    && (h.pending.Some? ==> |h.pending.value| <= MAX_PAYLOAD && Applies(parse, h.pending.value) && h.torn <= 4 + |h.pending.value|)
    && (h.pending.None? ==> h.torn == 0)
  }

  ghost function Tail(h: History): Bytes
    requires h.pending.Some? ==> |h.pending.value| <= MAX_PAYLOAD && h.torn <= 4 + |h.pending.value|
  {
    if h.pending.None? then [] else Frame(h.pending.value)[..h.torn]
  }

  /** The hard records are exactly those whose frames lie within the synced bytes. */
  ghost predicate HardExactly(h: History, synced: nat)
    requires Fit(h.log, WIRE_LIMIT - 1) && h.hard <= |h.log|
  {
    && |Stream(h.log[..h.hard])| <= synced
    && (h.hard < |h.log| ==> synced < |Stream(h.log[..h.hard + 1])|)
  }

  ghost predicate DiskOk(parse: Parser, s: Server)
    requires LogOk(parse, s.history)
  {
    && s.disk.bytes == Stream(s.history.log) + Tail(s.history)
    && s.disk.synced <= |s.disk.bytes| && HardExactly(s.history, s.disk.synced)
  }

  /** Every acknowledgement names a hard record of its own; this session's lie behind its base. */
  ghost predicate AcksOk(parse: Parser, h: History)
    requires LogOk(parse, h)
  {
    && (forall i :: 0 <= i < |h.acks| ==> h.acks[i].at < h.hard && h.acks[i].command == parse(h.log[h.acks[i].at]).command)
    && (forall i, j :: 0 <= i < j < |h.acks| ==> h.acks[i].at != h.acks[j].at)
    && (forall i :: 0 <= i < |h.acks| ==> (h.firstAck <= i <==> h.base <= h.acks[i].at))
  }

  /** Every outstanding reply is for a record of this session that no other reply is for. */
  ghost predicate RepliesOk(h: History) {
    && (forall c :: c in h.unsent ==> h.base <= h.unsent[c] < h.hard && Unspoken(h, h.unsent[c]))
    && (forall c, d :: c in h.unsent && d in h.unsent && h.unsent[c] == h.unsent[d] ==> c == d)
    && (h.unreleased ==> h.base < |h.log| && h.pending.None? && Unspoken(h, |h.log| - 1)
                         && forall c :: c in h.unsent ==> h.unsent[c] != |h.log| - 1)
  }

  predicate Unspoken(h: History, at: nat) {
    forall i :: 0 <= i < |h.acks| ==> h.acks[i].at != at
  }

  /** A reply for the record at this place was sent in this session. */
  predicate Acked(h: History, at: nat) {
    exists i :: h.firstAck <= i < |h.acks| && h.acks[i].at == at
  }

  /** A reply for the record at this place is formed and not sent. */
  predicate Waiting(h: History, at: nat) {
    exists c :: c in h.unsent && h.unsent[c] == at
  }

  /** Every record of this session was acknowledged, waits for its reply, or is the one in flight. */
  ghost predicate Placed(h: History) {
    forall at: nat :: h.base <= at < |h.log| ==> Acked(h, at) || Waiting(h, at) || (h.unreleased && at == |h.log| - 1)
  }

  /** The books: every record of this session was acknowledged, waits to be, or is the one in flight. */
  ghost predicate Counted(h: History) {
    && |h.log| - h.base == |h.acks| - h.firstAck + |h.unsent| + (if h.unreleased then 1 else 0)
    && |h.acks| + |h.unsent| <= h.released
    && |h.log| + (if h.pending.Some? then 1 else 0) <= h.released + h.sessions
    && (h.hard == |h.log| || (|h.log| == h.base && h.unsent == map[] && !h.unreleased))
  }

  ghost predicate OutboxOk(parse: Parser, s: Server)
    requires LogOk(parse, s.history)
  {
    var h := s.history;
    if s.up then
      && s.outbox.Keys == h.unsent.Keys
      && forall c :: c in h.unsent ==> h.unsent[c] < |h.log| && s.outbox[c] == parse(h.log[h.unsent[c]]).command
    else s.outbox == map[]
  }

  ghost predicate PhaseOk(s: Server) {
    var h := s.history;
    match s.commit
    case Free =>
      && (s.up ==> !h.unreleased)
      && (s.up && s.appendable ==> h.pending.None?)
    case Writing(client, _, record, written) =>
      && Busy(s, client) && !h.unreleased && h.pending == Some(record) && h.torn == written
    case Syncing(client, _, record) =>
      && Busy(s, client) && !h.unreleased && h.pending == Some(record) && h.torn == 4 + |record|
    case Synced(client, _, record) => InFlight(s, client, record)
    case Applied(client, _, record) => InFlight(s, client, record)
  }

  /** The record being committed is the one of what was asked. */
  predicate CommandOk(parse: Parser, s: Server) {
    s.commit.Free? || (Applies(parse, s.commit.record) && parse(s.commit.record) == Parsed(s.commit.command))
  }

  predicate Busy(s: Server, client: nat) {
    s.up && s.appendable && client !in s.outbox
  }

  /** The record of the commit in progress is the last of the log, durable and not acknowledged. */
  ghost predicate InFlight(s: Server, client: nat, record: Bytes) {
    var h := s.history;
    && Busy(s, client) && h.unreleased && h.pending.None?
    && h.log != [] && |h.log| == h.hard && h.log[|h.log| - 1] == record
  }

  /** The records the store reflects: all of the log, but for one synced and not yet applied. */
  function Visible(s: Server): seq<Bytes> {
    if s.commit.Synced? && s.history.log != [] then s.history.log[..|s.history.log| - 1] else s.history.log
  }

  ghost predicate StoreOk(parse: Parser, s: Server)
    requires LogOk(parse, s.history)
  {
    s.up ==> s.store == Replay(map[], Meaning(parse, Visible(s)))
  }

  /** A running server is exposed exactly while some record of its log is soft. */
  predicate ExposureOk(s: Server) {
    s.up ==> (s.history.exposed <==> s.history.hard < |s.history.log|)
  }

  /** Before it begins its next commit a session has room for one more unacknowledged record. */
  predicate RoomForOne(s: Server) {
    s.up && s.appendable && s.commit.Free? ==> |s.history.log| < s.history.released + s.history.sessions
  }

  /** The file, the phase of the commit and the store agree with the log. */
  ghost predicate FileInv(parse: Parser, s: Server) {
    LogOk(parse, s.history) && DiskOk(parse, s) && PhaseOk(s) && CommandOk(parse, s) && StoreOk(parse, s) && ExposureOk(s)
  }

  /** Acknowledgements and outstanding replies agree with the log. */
  ghost predicate BooksInv(parse: Parser, s: Server)
    requires LogOk(parse, s.history)
  {
    && AcksOk(parse, s.history) && RepliesOk(s.history) && Counted(s.history) && Placed(s.history)
    && OutboxOk(parse, s) && RoomForOne(s)
  }

  ghost predicate Inv(parse: Parser, s: Server) {
    FileInv(parse, s) && BooksInv(parse, s)
  }
}
