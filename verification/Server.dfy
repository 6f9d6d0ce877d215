/** `Server`: the constructor's guards and `execute`, one request at a time. */
module Servers {
  import opened Common
  import opened Protocol
  import opened Framing
  import opened LogScan
  import opened Wals
  import opened CommitTheorems
  import P = CommitProtocol
  import R = CommitRefinement

  const U64 := 0x1_0000_0000_0000_0000

  function Decimal(n: nat): Bytes {
    if n < 10 then [48 + n] else Decimal(n / 10) + [48 + n % 10]
  }

  /** The number a text of digits stands for. */
  function Value(digits: Bytes): int {
    if digits == [] then 0 else 10 * Value(digits[..|digits| - 1]) + (digits[|digits| - 1] as int - '0' as int)
  }

  /** `n` in decimal, without leading zeros. */
  ghost predicate Numeral(digits: Bytes, n: nat) {
    && digits != [] && Value(digits) == n && (|digits| > 1 ==> digits[0] != '0' as int)
    && forall i :: 0 <= i < |digits| ==> '0' as int <= digits[i] <= '9' as int
  }

  lemma MoreDigits(digits: Bytes, n: nat, last: nat)
    requires Numeral(digits, n) && n > 0 && last < 10
    ensures Numeral(digits + ['0' as int + last], 10 * n + last)
  {
    var more := digits + ['0' as int + last];
    assert more[..|digits|] == digits;
    if |digits| == 1 {
      assert digits[..|digits| - 1] == [];
      assert Value(digits) == digits[0] as int - '0' as int;
    }
  }

  lemma {:induction false} DecimalReads(n: nat)
    ensures Numeral(Decimal(n), n)
    decreases n
  {
    if n < 10 {
      assert Decimal(n)[..0] == [];
    } else {
      DecimalReads(n / 10);
      MoreDigits(Decimal(n / 10), n / 10, n % 10);
      assert n / 10 > 0;
    }
  }

  function Pow10(k: nat): nat {
    if k == 0 then 1 else 10 * Pow10(k - 1)
  }

  lemma {:induction false} DecimalLength(n: nat, k: nat)
    requires k > 0 && n < Pow10(k)
    ensures |Decimal(n)| <= k
    decreases k
  {
    if n >= 10 {
      assert Pow10(k) == 10 * Pow10(k - 1);
      DecimalLength(n / 10, k - 1);
    }
  }

  lemma DecimalOfU64(n: nat)
    requires n < U64
    ensures |Decimal(n)| <= 20
  {
    assert Pow10(5) == 100000 by {
      assert Pow10(3) == 1000;
    }
    assert Pow10(10) == 100000 * Pow10(5) by {
      assert Pow10(8) == 1000 * Pow10(5);
    }
    assert Pow10(15) == 100000 * Pow10(10) by {
      assert Pow10(13) == 1000 * Pow10(10);
    }
    assert Pow10(20) == 100000 * Pow10(15) by {
      assert Pow10(18) == 1000 * Pow10(15);
    }
    DecimalLength(n, 20);
  }

  /** What a request sees of the thread pool's counters. */
  datatype PoolStats = PoolStats(submitted: nat, completed: nat)

  function StatsReply(keys: nat, stats: PoolStats): Bytes {
    Text("keys=") + Decimal(keys) + Text(" submitted=") + Decimal(stats.submitted) + Text(" completed=") + Decimal(stats.completed)
  }

  /** The reply names the three counters, each as a numeral that reads back to it. */
  lemma StatsRead(keys: nat, stats: PoolStats) returns (a: Bytes, b: Bytes, c: Bytes)
    ensures StatsReply(keys, stats) == Text("keys=") + a + Text(" submitted=") + b + Text(" completed=") + c
    ensures Numeral(a, keys) && Numeral(b, stats.submitted) && Numeral(c, stats.completed)
  {
    a, b, c := Decimal(keys), Decimal(stats.submitted), Decimal(stats.completed);
    DecimalReads(keys);
    DecimalReads(stats.submitted);
    DecimalReads(stats.completed);
  }

  lemma StatsFit(keys: nat, stats: PoolStats)
    requires keys < U64 && stats.submitted < U64 && stats.completed < U64
    ensures |StatsReply(keys, stats)| <= 100
  {
    DecimalOfU64(keys);
    DecimalOfU64(stats.submitted);
    DecimalOfU64(stats.completed);
  }

  /** What recovery needs of the configured log when reads and seeks go well. */
  ghost predicate Recoverable(opening: Opened, bytes: Bytes, truncates: seq<CallChoice>, syncs: seq<CallChoice>) {
    match opening
    case Missing => true
    case Denied => false
    case Open =>
      match ScanLog(bytes).ending
      case CleanEnd => true
      case TornEnd => Succeeds(truncates) && Succeeds(syncs)
      case Malformed => false
  }

  class Server {
    const wal: Wal
    const store: KvStore
    const maxPayload: nat
    var error: Option<string>

    /** A server that started: limits consistent, every stored value small enough to send back. */
    ghost predicate Ready()
      reads this, wal, store
    {
      error.None? && maxPayload <= MAX_PAYLOAD && wal.Valid() && ValuesFit(store.values)
    }

    /** The guards of the constructor, in order: payload limit, log opened, log recovered. */
    constructor (maxPayload: nat, wal: Wal, opening: Opened, reading: seq<ReadChoice>, seeks: seq<bool>,
                 truncates: seq<CallChoice>, syncs: seq<CallChoice>)
      requires wal.Valid()
      modifies wal`file
      ensures this.wal == wal && this.maxPayload == maxPayload && fresh(store)
      ensures error.None? ==> Ready() && (wal.configured ==> wal.descriptor)
      ensures error.None? && (!wal.configured || opening.Missing?) ==> store.values == map[] && wal.file == old(wal.file)
      ensures error.None? && wal.configured ==> !opening.Denied?
      ensures error.None? && wal.configured && opening.Open? ==>
                var scan := ScanLog(old(wal.file).bytes);
                && !scan.ending.Malformed?
                && store.values == Replay(map[], scan.mutations)
                && wal.file == if scan.ending.CleanEnd? then old(wal.file) else File(old(wal.file).bytes[..scan.size], scan.size)
      ensures error.Some? && wal.file != old(wal.file) ==>
                var scan := ScanLog(old(wal.file).bytes);
                scan.ending.TornEnd? && wal.file == CutBack(old(wal.file), scan.size)
      ensures maxPayload > MAX_PAYLOAD || (wal.configured && !wal.descriptor) ==> error.Some? && wal.file == old(wal.file)
      ensures error == if maxPayload > 65536 then Some("max_payload exceeds the supported protocol limit")
                       else if wal.configured && !wal.descriptor then Some("could not open the configured write-ahead log")
                       else if error.Some? then Some("could not recover the write-ahead log") else None
      ensures Faultless(reading) && true !in seeks ==>
                (error.None? <==>
                   && maxPayload <= 65536
                   && (wal.configured ==> wal.descriptor && Recoverable(opening, old(wal.file).bytes, truncates, syncs)))
    {
      var values := new KvStore();
      this.wal, this.store, this.maxPayload, error := wal, values, maxPayload, None;
      new;
      if maxPayload > MAX_PAYLOAD {
        error := Some("max_payload exceeds the supported protocol limit");
        return;
      }
      if wal.configured && !wal.descriptor {
        error := Some("could not open the configured write-ahead log");
        return;
      }
      ghost var data := wal.file.bytes;
      var recovered := wal.Recover(store, opening, reading, seeks, truncates, syncs);
      if !recovered {
        error := Some("could not recover the write-ahead log");
        return;
      }
      if wal.configured && opening.Open? {
        RecoveredFits(data);
      }
    }

    /** Answers one request received under the payload limit; the reply always fits a frame. */
    method Execute(request: Bytes, writes: seq<WriteChoice>, syncs: seq<CallChoice>, stats: PoolStats) returns (reply: Bytes)
      requires Ready() && |request| <= maxPayload
      requires |store.values| < U64 && stats.submitted < U64 && stats.completed < U64
      modifies wal`file, wal`descriptor, store
      ensures Ready() && |reply| <= MAX_PAYLOAD
      ensures var parsed := ParseCommand(request);
              && (parsed.ParseError? || !IsMutation(parsed.command) ==>
                    store.values == old(store.values) && wal.file == old(wal.file) && wal.descriptor == old(wal.descriptor))
              && (parsed.ParseError? ==> reply == Text("ERR ") + Text(parsed.message))
              && (parsed == Parsed(Ping) ==> reply == Text("PONG"))
              && (parsed == Parsed(Stats) ==> reply == StatsReply(|store.values|, stats))
              && (parsed.Parsed? && parsed.command.Get? ==>
                    reply == if parsed.command.key in store.values then Text("VALUE ") + store.values[parsed.command.key]
                             else Text("NOT_FOUND"))
              && (parsed.Parsed? && IsMutation(parsed.command) ==> 
                    Committed(old(wal.descriptor), old(wal.file), old(store.values), parsed.command,
                              Written(writes, 4 + |Record(parsed.command)|), Succeeds(syncs), reply))
    {
      var parsed := ParseCommand(request);
      if parsed.ParseError? {
        return Text("ERR ") + Text(parsed.message);
      }
      if IsMutation(parsed.command) {
        reply := Mutate(request, parsed.command, writes, syncs);
        return;
      }
      match parsed.command
      case Ping => reply := Text("PONG");
      case Stats =>
        StatsFit(|store.values|, stats);
        reply := StatsReply(|store.values|, stats);
      case Get(key) =>
        var value := store.Lookup(key);
        reply := if value.Some? then Text("VALUE ") + value.value else Text("NOT_FOUND");
    }

    /** SET or DEL under `mutation_mutex_`: log it first, then change the store. */
    method Mutate(request: Bytes, m: Command, writes: seq<WriteChoice>, syncs: seq<CallChoice>) returns (reply: Bytes)
      requires Ready() && |request| <= maxPayload && ParseCommand(request) == Parsed(m) && IsMutation(m)
      modifies wal`file, wal`descriptor, store
      ensures Ready() && |reply| <= MAX_PAYLOAD
      ensures Committed(old(wal.descriptor), old(wal.file), old(store.values), m,
                        Written(writes, 4 + |Record(m)|), Succeeds(syncs), reply)
    {
      var logged := Append(request, m, writes, syncs);
      if !logged {
        return Text("ERR WAL failure");
      }
      match m
      case Del(key) =>
        var found := store.Erase(key);
        reply := if found then Text("DELETED") else Text("NOT_FOUND");
      case Set(key, value) =>
        ParsedValueFits(request);
        store.Put(key, value);
        reply := Text("OK");
    }

    /**
     A mutation's outcome.  It is logged, synced, applied and acknowledged exactly if the log took
     the whole frame and synced it; else the store is untouched and the log accepts nothing more.
     */
    ghost predicate Committed(open: bool, file: File, values: Store, m: Command, n: nat, synced: bool, reply: Bytes)
      requires IsMutation(m) && n <= 4 + |Record(m)|
      reads wal, store
    {
      && |Record(m)| <= MAX_PAYLOAD
      && var accepted := !wal.configured || (open && n == 4 + |Record(m)| && synced);
         && store.values == (if accepted then Effect(values, m) else values)
         && reply == (if !accepted then Text("ERR WAL failure") else if m.Set? then Text("OK")
                      else if m.key in values then Text("DELETED") else Text("NOT_FOUND"))
         && (if !wal.configured || !open then wal.file == file && wal.descriptor == open
             else if accepted then wal.file == File(file.bytes + Frame(Record(m)), |file.bytes| + 4 + |Record(m)|) && wal.descriptor
             else wal.file == File(file.bytes + Frame(Record(m))[..n], file.synced) && !wal.descriptor)
    }

    /** `append_set` or `append_del`. */
    method Append(ghost request: Bytes, m: Command, writes: seq<WriteChoice>, syncs: seq<CallChoice>) returns (ok: bool)
      requires Ready() && |request| <= maxPayload && ParseCommand(request) == Parsed(m) && IsMutation(m)
      modifies wal`file, wal`descriptor
      ensures wal.Valid() && |Record(m)| <= MAX_PAYLOAD
      ensures var n := Written(writes, 4 + |Record(m)|);
              && ok == (!wal.configured || (old(wal.descriptor) && n == 4 + |Record(m)| && Succeeds(syncs)))
              && (if !wal.configured || !old(wal.descriptor) then wal.file == old(wal.file) && wal.descriptor == old(wal.descriptor)
                  else && wal.descriptor == ok
                       && wal.file == File(old(wal.file).bytes + Frame(Record(m))[..n],
                                           if ok then |old(wal.file).bytes| + 4 + |Record(m)| else old(wal.file).synced))
    {
      ParsedIsClean(request);
      var outcome, written := wal.AppendRecord(Record(m), writes, syncs);
      ok := outcome.Logged?;
    }

    /** The protocol state `world` describes this server between two requests. */
    ghost predicate Mirrors(world: P.Server)
      reads wal, store
    {
      && wal.configured && R.Ready(world)
      && world.disk == wal.file && world.appendable == wal.descriptor && world.store == store.values
    }

    /**
     A request of `client` on a server with a log, and its reply if that goes out: whatever the machine
     does and whoever else has replies outstanding, the server stays mirrored by a reachable state of
     the commit protocol, and exactly the positive replies sent for mutations are its acknowledgements.
     */
    method Serve(request: Bytes, writes: seq<WriteChoice>, syncs: seq<CallChoice>, stats: PoolStats,
                 ghost client: nat, ghost sent: bool, ghost world: P.Server)
      returns (reply: Bytes, ghost next: P.Server)
      requires Ready() && |request| <= maxPayload && Mirrors(world) && Reachable(world) && client !in world.outbox
      requires |store.values| < U64 && stats.submitted < U64 && stats.completed < U64
      modifies wal`file, wal`descriptor, store
      ensures Ready() && Mirrors(next) && Reachable(next)
      ensures var parsed := ParseCommand(request);
              var positive := parsed.Parsed? && IsMutation(parsed.command) && reply != Text("ERR WAL failure");
              && next.history.acks == world.history.acks
                   + (if positive && sent then [P.Ack(|world.history.log|, parsed.command)] else [])
              && next.outbox.Keys == world.outbox.Keys + (if positive && !sent then {client} else {})
    {
      ghost var parsed := ParseCommand(request);
      reply := Execute(request, writes, syncs, stats);
      if parsed.Parsed? && IsMutation(parsed.command) {
        next := R.MutationReaches(world, client, request, Written(writes, 4 + |Record(parsed.command)|), Succeeds(syncs), sent);
        FailureIsNoSuccess();
      } else {
        next := world;
      }
    }

    /** Starts a server on the file a down machine holds. */
    static method Start(maxPayload: nat, wal: Wal, opening: Opened, reading: seq<ReadChoice>, seeks: seq<bool>,
                        truncates: seq<CallChoice>, syncs: seq<CallChoice>, ghost world: P.Server)
      returns (server: Server, ghost next: P.Server)
      requires wal.Valid() && wal.configured && Reachable(world) && !world.up && world.disk == wal.file
      requires opening.Missing? ==> wal.file.bytes == []
      modifies wal`file
      ensures Reachable(next) && next.disk == wal.file && next.history.acks == world.history.acks
      ensures server.wal == wal && (if server.error.None? then server.Ready() && server.Mirrors(next) else !next.up)
      ensures Faultless(reading) && true !in seeks ==>
                (server.error.None? <==>
                   && maxPayload <= 65536 && wal.descriptor && !opening.Denied?
                   && (opening.Open? && ScanLog(old(wal.file).bytes).ending.TornEnd? ==> Succeeds(truncates) && Succeeds(syncs)))
    {
      AcknowledgedSurvive(world);
      server := new Server(maxPayload, wal, opening, reading, seeks, truncates, syncs);
      if server.error.None? {
        next := R.StartReaches(world);
      } else {
        next := R.FailedStartReaches(world, wal.file != world.disk);
      }
    }
  }

  lemma FailureIsNoSuccess()
    ensures Text("ERR WAL failure") != Text("OK") && Text("ERR WAL failure") != Text("DELETED")
    ensures Text("ERR WAL failure") != Text("NOT_FOUND")
  {
    assert |"ERR WAL failure"| == 15 && |"NOT_FOUND"| == 9;
  }

  /** Replaying any log recovery accepts gives a store whose values all fit a reply. */
  lemma {:induction false} ScanFits(data: Bytes)
    ensures SetsFit(ScanLog(data).mutations)
    decreases |data|
  {
    if data != [] {
      var next := NextFrame(data, MAX_PAYLOAD);
      if next.Whole? && Applies(ParseCommand, next.payload) {
        ScanFits(data[4 + |next.payload|..]);
        if ParseCommand(next.payload).command.Set? {
          ParsedValueFits(next.payload);
        }
      }
    }
  }

  lemma RecoveredFits(data: Bytes)
    ensures ValuesFit(Replay(map[], ScanLog(data).mutations))
  {
    ScanFits(data);
    ReplayFits(map[], ScanLog(data).mutations);
  }
}
