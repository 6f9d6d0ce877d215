/** The key-value store and the write-ahead log, as objects updated in place. */
module Wals {
  import opened Common
  import opened Protocol
  import opened Framing
  import opened LogScan

  class KvStore {
    var values: Store

    constructor ()
      ensures values == map[]
    {
      values := map[];
    }

    method Put(key: Bytes, value: Bytes)
      modifies this
      ensures values == Effect(old(values), Set(key, value))
    {
      values := values[key := value];
    }

    method Lookup(key: Bytes) returns (value: Option<Bytes>)
      ensures value.Some? <==> key in values
      ensures value.Some? ==> value.value == values[key]
    {
      value := if key in values then Some(values[key]) else None;
    }

    method Erase(key: Bytes) returns (found: bool)
      modifies this
      ensures values == Effect(old(values), Del(key))
      ensures found <==> key in old(values)
    {
      found := key in values;
      values := values - {key};
    }
  }

  /** A file: its bytes, and how many of them are known to survive a power loss. */
  datatype File = File(bytes: Bytes, synced: nat)

  /** What one `write`, or one `fsync` or `ftruncate`, does. */
  datatype WriteChoice = Accept(count: nat) | WriteInterrupted | WriteError
  datatype CallChoice = Done | CallInterrupted | CallError

  datatype Opened = Open | Missing | Denied

  datatype RecordRead = NoMore | TornRecord | BadLength | ReadFault | Got(payload: Bytes)

  datatype LoopEnd = Finished | TornAt | Aborted

  datatype AppendOutcome = Logged | NotLogged | LengthError

  /** The call is retried while interrupted; the first other answer decides. */
  predicate Succeeds(script: seq<CallChoice>) {
    script == [] || (if script[0].CallInterrupted? then Succeeds(script[1..]) else script[0].Done?)
  }

  /** How many of `n` bytes get written when short writes and interruptions are retried. */
  function Written(script: seq<WriteChoice>, n: nat): (r: nat)
    ensures r <= n
    decreases |script|
  {
    if n == 0 then 0
    else if script == [] then n
    else
      match script[0]
      case Accept(count) => if count < n then (if count == 0 then 0 else count + Written(script[1..], n - count)) else n
      case WriteInterrupted => Written(script[1..], n)
      case WriteError => 0
  }

  /** A call succeeds unless an error comes before any success. */
  lemma {:induction false} SucceedsExactly(script: seq<CallChoice>)
    ensures Succeeds(script) <==>
            forall i :: 0 <= i < |script| && script[i].CallError? ==> exists j :: 0 <= j < i && script[j].Done?
    decreases |script|
  {
    if script != [] && script[0].CallInterrupted? {
      SucceedsExactly(script[1..]);
      assert forall i :: 0 < i < |script| ==> script[i] == script[1..][i - 1];
    }
  }

  /** The writer gives up at an error and at a write that accepts nothing. */
  predicate Stops(choice: WriteChoice) { choice.WriteError? || choice == Accept(0) }

  function FirstStop(script: seq<WriteChoice>): (k: nat)
    ensures k <= |script| && (k < |script| ==> Stops(script[k])) && forall i :: 0 <= i < k ==> !Stops(script[i])
  {
    if script == [] || Stops(script[0]) then 0 else 1 + FirstStop(script[1..])
  }

  /** What the first `k` writes would accept together. */
  function Accepted(script: seq<WriteChoice>, k: nat): nat
    requires k <= |script|
  {
    if k == 0 then 0
    else Accepted(script, k - 1) + if script[k - 1].Accept? then script[k - 1].count else 0
  }

  lemma {:induction false} AcceptedCons(script: seq<WriteChoice>, k: nat)
    requires 0 < k <= |script|
    ensures Accepted(script, k) == (if script[0].Accept? then script[0].count else 0) + Accepted(script[1..], k - 1)
    decreases k
  {
    if k > 1 {
      AcceptedCons(script, k - 1);
    }
  }

  /** All bytes get written, unless the writes before the first that stops the writer accept fewer. */
  lemma {:induction false} WrittenExactly(script: seq<WriteChoice>, n: nat)
    ensures var k := FirstStop(script);
            Written(script, n) == if k == |script| || n <= Accepted(script, k) then n else Accepted(script, k)
    decreases |script|
  {
    var k := FirstStop(script);
    if n > 0 && script != [] && k > 0 {
      AcceptedCons(script, k);
      if script[0].WriteInterrupted? {
        WrittenExactly(script[1..], n);
      } else if script[0].count < n {
        WrittenExactly(script[1..], n - script[0].count);
      }
    }
  }

  /** A file truncated to `size` bytes, not yet synced. */
  function CutBack(f: File, size: nat): File
    requires size <= |f.bytes|
  {
    File(f.bytes[..size], if f.synced < size then f.synced else size)
  }

  lemma AppendPart(base: Bytes, bytes: Bytes, from: nat, n: nat)
    requires from + n <= |bytes|
    ensures (base + bytes[..from]) + bytes[from..from + n] == base + bytes[..from + n]
  {
    assert bytes[..from + n] == bytes[..from] + bytes[from..from + n];
  }

  class Wal {
    const configured: bool  // a path was given
    var file: File
    var descriptor: bool    // fd_ is open for appending

    ghost predicate Valid()
      reads this
    {
      file.synced <= |file.bytes|
    }

    constructor (configured: bool, file: File, appendable: bool)
      requires file.synced <= |file.bytes|
      ensures Valid() && this.configured == configured && this.file == file && descriptor == (configured && appendable)
    {
      this.configured, this.file, this.descriptor := configured, file, configured && appendable;
    }

    /** `write_file_all`: short writes and interruptions are retried, anything else gives up. */
    method WriteFileAll(bytes: Bytes, script: seq<WriteChoice>) returns (ok: bool, written: nat)
      requires Valid()
      modifies this`file
      ensures Valid() && written == Written(script, |bytes|) && (ok <==> written == |bytes|)
      ensures file == File(old(file).bytes + bytes[..written], old(file).synced)
    {
      written := 0;
      var choices := script;
      while written < |bytes|
        invariant Valid() && written <= |bytes|
        invariant written + Written(choices, |bytes| - written) == Written(script, |bytes|)
        invariant file == File(old(file).bytes + bytes[..written], old(file).synced)
        decreases |bytes| - written, |choices|
      {
        var choice := Accept(|bytes| - written);
        if choices != [] {
          choice, choices := choices[0], choices[1..];
        }
        match choice
        case Accept(count) =>
          if count == 0 {
            return false, written;
          }
          var n := if count < |bytes| - written then count else |bytes| - written;
          AppendPart(old(file).bytes, bytes, written, n);
          file := file.(bytes := file.bytes + bytes[written..written + n]);
          written := written + n;
        case WriteInterrupted =>
        case WriteError => return false, written;
      }
      ok := true;
    }

    /** `sync_file`: retry while interrupted. */
    method SyncFile(script: seq<CallChoice>) returns (ok: bool)
      requires Valid()
      modifies this`file
      ensures Valid() && file == if ok then File(old(file).bytes, |old(file).bytes|) else old(file)
      ensures ok <==> Succeeds(script)
    {
      var choices := script;
      while choices != [] && choices[0].CallInterrupted?
        invariant Succeeds(script) == Succeeds(choices)
        decreases |choices|
      {
        choices := choices[1..];
      }
      ok := choices == [] || choices[0].Done?;
      if ok {
        file := file.(synced := |file.bytes|);
      }
    }

    /**
     `append_record`: logged means the whole frame is in the file and everything is synced;
     otherwise at most a prefix of the frame is there and the log accepts nothing more.
     */
    method AppendRecord(record: Bytes, writes: seq<WriteChoice>, syncs: seq<CallChoice>)
      returns (outcome: AppendOutcome, written: nat)
      requires Valid()
      modifies this`file, this`descriptor
      ensures Valid()
      ensures !configured ==> outcome.Logged? && file == old(file) && descriptor == old(descriptor)
      ensures configured && !old(descriptor) ==> outcome.NotLogged? && file == old(file) && !descriptor
      ensures configured && old(descriptor) && |record| >= WIRE_LIMIT ==> outcome.LengthError? && file == old(file) && descriptor
      ensures configured && old(descriptor) && |record| < WIRE_LIMIT ==>
                && written == Written(writes, |Frame(record)|) && !outcome.LengthError?
                && (outcome.Logged? <==> written == |Frame(record)| && Succeeds(syncs))
                && IsFrame(Frame(record), record)
                && file.bytes == old(file).bytes + Frame(record)[..written]
                && descriptor == outcome.Logged?
                && file.synced == (if outcome.Logged? then |file.bytes| else old(file).synced)
    {
      written := 0;
      if !configured {
        return Logged, 0;
      }
      if !descriptor {
        return NotLogged, 0;
      }
      var frame := EncodeFrame(record);
      if frame.None? {
        return LengthError, 0;
      }
      var ok;
      ok, written := WriteFileAll(frame.value, writes);
      if ok {
        ok := SyncFile(syncs);
      }
      if !ok {
        descriptor := false;
        return NotLogged, written;
      }
      outcome := Logged;
    }

    /** `repair_torn_tail`: cut the file back to its complete frames, then sync. */
    method RepairTornTail(size: nat, truncates: seq<CallChoice>, syncs: seq<CallChoice>) returns (ok: bool)
      requires Valid() && size <= |file.bytes|
      modifies this`file
      ensures Valid()
      ensures ok <==> Succeeds(truncates) && Succeeds(syncs)
      ensures ok ==> file == File(old(file).bytes[..size], size)
      ensures !ok ==> file == if Succeeds(truncates) then CutBack(old(file), size) else old(file)
    {
      var choices := truncates;
      while choices != [] && choices[0].CallInterrupted?
        invariant Succeeds(truncates) == Succeeds(choices)
        decreases |choices|
      {
        choices := choices[1..];
      }
      if choices != [] && choices[0].CallError? {
        return false;
      }
      file := CutBack(file, size);
      ok := SyncFile(syncs);
    }

    /** The part of the recovery loop that reads one record from the log. */
    method ReadRecord(input: Source) returns (r: RecordRead)
      requires input.Valid()
      modifies input
      ensures input.Valid() && input.cursor >= old(input.cursor)
      ensures var rest := input.data[old(input.cursor)..];
              match r
              case NoMore => rest == []
              case TornRecord => rest != [] && NextFrame(rest, MAX_PAYLOAD).Incomplete?
              case BadLength => rest != [] && NextFrame(rest, MAX_PAYLOAD).Oversized?
              case ReadFault => true
              case Got(payload) => rest != [] && NextFrame(rest, MAX_PAYLOAD) == Whole(payload)
                                   && input.cursor == old(input.cursor) + 4 + |payload|
      ensures Faultless(old(input.script)) ==> Faultless(input.script) && !r.ReadFault?
    {
      ghost var rest := input.data[input.cursor..];
      var status, header := input.ReadExact(4);
      assert header == rest[..|header|];
      if status.Eof? {
        return if |header| == 0 then NoMore else TornRecord;
      }
      if !status.Ok? {
        return ReadFault;
      }
      var length := LengthOf(header);
      if length > MAX_PAYLOAD {
        return BadLength;
      }
      var payload;
      status, payload := input.ReadExact(length);
      assert payload == rest[4..4 + |payload|];
      if status.Eof? {
        return TornRecord;
      }
      r := if status.Ok? then Got(payload) else ReadFault;
    }

    /** The part of the recovery loop that applies one record; anything but SET and DEL is refused. */
    method ApplyRecord(parse: Bytes -> ParseResult, store: KvStore, payload: Bytes) returns (ok: bool)
      modifies store
      ensures ok <==> Applies(parse, payload)
      ensures store.values == if ok then Effect(old(store.values), parse(payload).command) else old(store.values)
    {
      var parsed := parse(payload);
      if !parsed.Parsed? {
        return false;
      }
      match parsed.command
      case Set(key, value) =>
        store.Put(key, value);
        ok := true;
      case Del(key) =>
        var _ := store.Erase(key);
        ok := true;
      case _ => ok := false;
    }

    /** The recovery loop: replay records until the log ends, is torn, or must be refused. */
    method ReplayLog(parse: Bytes -> ParseResult, input: Source, store: KvStore, seeks: seq<bool>)
      returns (end: LoopEnd, completeSize: nat)
      requires input.Valid() && input.cursor == 0
      modifies input, store
      ensures var scan := ScanWith(parse, input.data);
              match end
              case Finished => scan.ending.CleanEnd?
              case TornAt => scan.ending.TornEnd? && completeSize == scan.size
              case Aborted => Faultless(old(input.script)) && true !in seeks ==> scan.ending.Malformed?
      ensures !end.Aborted? ==> store.values == Replay(old(store.values), ScanWith(parse, input.data).mutations)
    {
      ghost var done: seq<Command> := [];
      completeSize := 0;
      var turn := 0;
      assert input.data[0..] == input.data;
      while true
        invariant input.Valid() && input.cursor == completeSize
        invariant Faultless(old(input.script)) ==> Faultless(input.script)
        invariant store.values == Replay(old(store.values), done)
        invariant Progress(parse, input.data, completeSize, done)
        decreases |input.data| - completeSize
      {
        ProgressEnds(parse, input.data, completeSize, done);
        var r := ReadRecord(input);
        match r
        case NoMore => return Finished, completeSize;
        case TornRecord => return TornAt, completeSize;
        case BadLength => return Aborted, completeSize;
        case ReadFault => return Aborted, completeSize;
        case Got(payload) =>
          ghost var done' := if parse(payload).Parsed? then done + [parse(payload).command] else done;
          ProgressGot(parse, input.data, completeSize, done, payload, input.cursor, done');
          var applied := ApplyRecord(parse, store, payload);
          if !applied || (turn < |seeks| && seeks[turn]) {
            return Aborted, completeSize;
          }
          ReplayOne(old(store.values), done, parse(payload).command);
          done := done';
          turn := turn + 1;
          completeSize := input.cursor;
      }
    }

    /**
     `recover`: replay complete frames into the store, cut a torn tail, refuse anything else.
     `seeks` says for each frame whether `lseek` fails after it.
     */
    method Recover(store: KvStore, opening: Opened, reading: seq<ReadChoice>, seeks: seq<bool>,
                   truncates: seq<CallChoice>, syncs: seq<CallChoice>) returns (ok: bool)
      requires Valid()
      modifies this`file, store
      ensures Valid()
      ensures !configured ==> ok && file == old(file) && store.values == old(store.values)
      ensures configured && !opening.Open? ==>
                ok == opening.Missing? && file == old(file) && store.values == old(store.values)
      ensures configured && opening.Open? && ok ==>
                var scan := ScanLog(old(file).bytes);
                && !scan.ending.Malformed?
                && store.values == Replay(old(store.values), scan.mutations)
                && file == if scan.ending.CleanEnd? then old(file) else File(old(file).bytes[..scan.size], scan.size)
      ensures configured && opening.Open? && !ok ==>
                var scan := ScanLog(old(file).bytes);
                file == old(file) || (scan.ending.TornEnd? && file == CutBack(old(file), scan.size))
      ensures configured && opening.Open? && Faultless(reading) && true !in seeks ==>
                var scan := ScanLog(old(file).bytes);
                ok <==> scan.ending.CleanEnd? || (scan.ending.TornEnd? && Succeeds(truncates) && Succeeds(syncs))
    {
      if !configured {
        return true;
      }
      if !opening.Open? {
        return opening.Missing?;
      }
      var input := new Source(file.bytes, reading);
      var end, completeSize := ReplayLog(ParseCommand, input, store, seeks);
      match end
      case Finished => ok := true;
      case TornAt => ok := RepairTornTail(completeSize, truncates, syncs);
      case Aborted => ok := false;
    }
  }

  /** The first `size` bytes mean `done`; the scan goes on from there. */
  ghost predicate Progress(parse: Bytes -> ParseResult, data: Bytes, size: nat, done: seq<Command>) {
    && size <= |data|
    && var rest := ScanWith(parse, data[size..]);
       ScanWith(parse, data) == Scan(done + rest.mutations, size + rest.size, rest.ending)
  }

  lemma ProgressEnds(parse: Bytes -> ParseResult, data: Bytes, size: nat, done: seq<Command>)
    requires Progress(parse, data, size, done)
    ensures var rest := data[size..];
            && (rest == [] ==> ScanWith(parse, data) == Scan(done, size, CleanEnd))
            && (rest != [] && NextFrame(rest, MAX_PAYLOAD).Incomplete? ==> ScanWith(parse, data) == Scan(done, size, TornEnd))
            && (rest != [] && NextFrame(rest, MAX_PAYLOAD).Oversized? ==> ScanWith(parse, data).ending.Malformed?)
  {
    assert done + [] == done;
  }

  lemma ProgressGot(parse: Bytes -> ParseResult, data: Bytes, size: nat, done: seq<Command>, payload: Bytes,
                    size': nat, done': seq<Command>)
    requires Progress(parse, data, size, done) && size' == size + 4 + |payload|
    requires data[size..] != [] && NextFrame(data[size..], MAX_PAYLOAD) == Whole(payload)
    ensures Applies(parse, payload) && done' == done + [parse(payload).command] ==> Progress(parse, data, size', done')
    ensures !Applies(parse, payload) ==> ScanWith(parse, data).ending.Malformed?
  {
    if Applies(parse, payload) && done' == done + [parse(payload).command] {
      var rest, n := data[size..], 4 + |payload|;
      var later := ScanWith(parse, data[size'..]);
      assert ScanWith(parse, rest) == ScanCons(parse(payload).command, n, later) by {
        assert rest[n..] == data[size'..];
      }
      ScanShift(done, size, parse(payload).command, n, later);
    }
  }

  lemma ScanShift(done: seq<Command>, size: nat, m: Command, n: nat, later: Scan)
    ensures var rest := ScanCons(m, n, later);
            Scan(done + rest.mutations, size + rest.size, rest.ending)
            == Scan((done + [m]) + later.mutations, (size + n) + later.size, later.ending)
  {
    assert done + ([m] + later.mutations) == (done + [m]) + later.mutations;
  }
}
