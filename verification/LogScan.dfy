/**
 What a log file means: the mutations of its complete frames, and whether it ends
 cleanly, in a torn frame, or in something recovery must refuse.
 */
module LogScan {
  import opened Common
  import opened Protocol
  import opened Framing

  type Store = map<Bytes, Bytes>

  function Effect(store: Store, m: Command): Store {
    match m
    case Set(key, value) => store[key := value]
    case Del(key) => store - {key}
    case _ => store
  }

  function Replay(store: Store, mutations: seq<Command>): Store
    decreases |mutations|
  {
    if mutations == [] then store else Replay(Effect(store, mutations[0]), mutations[1..])
  }

  lemma {:induction false} ReplayAppend(store: Store, a: seq<Command>, b: seq<Command>)
    ensures Replay(store, a + b) == Replay(Replay(store, a), b)
    decreases |a|
  {
    if a == [] {
      assert a + b == b;
    } else {
      ReplayAppend(Effect(store, a[0]), a[1..], b);
      assert (a + b)[1..] == a[1..] + b;
    }
  }

  /** The value the last mutation of a key left it with, if any. */
  function LastWrite(mutations: seq<Command>, key: Bytes): Option<Bytes> {
    if mutations == [] then None
    else
      var last := mutations[|mutations| - 1];
      if last.Set? && last.key == key then Some(last.value)
      else if last.Del? && last.key == key then None
      else LastWrite(mutations[..|mutations| - 1], key)
  }

  /** A lookup after replay finds exactly what the last mutation of the key wrote. */
  lemma {:induction false} ReplayIsLastWrite(mutations: seq<Command>, key: Bytes)
    ensures var store := Replay(map[], mutations);
            LastWrite(mutations, key) == if key in store then Some(store[key]) else None
    decreases |mutations|
  {
    if mutations != [] {
      var n := |mutations| - 1;
      assert mutations == mutations[..n] + [mutations[n]];
      ReplayOne(map[], mutations[..n], mutations[n]);
      ReplayIsLastWrite(mutations[..n], key);
    }
  }

  lemma ReplayOne(store: Store, a: seq<Command>, m: Command)
    ensures Replay(store, a + [m]) == Effect(Replay(store, a), m)
  {
    ReplayAppend(store, a, [m]);
    assert Replay(Replay(store, a), [m]) == Replay(Effect(Replay(store, a), m), [m][1..]);
  }

  // ------------------------------------------------------------------ scanning

  datatype Ending = CleanEnd | TornEnd | Malformed
  datatype Scan = Scan(mutations: seq<Command>, size: nat, ending: Ending)

  /** A record recovery applies: it parses to a mutation. */
  predicate Applies(parse: Bytes -> ParseResult, record: Bytes) {
    parse(record).Parsed? && IsMutation(parse(record).command)
  }

  function ScanCons(m: Command, n: nat, rest: Scan): Scan {
    Scan([m] + rest.mutations, n + rest.size, rest.ending)
  }

  /** The recovery loop's reading of a file, for any way of parsing a record. */
  function ScanWith(parse: Bytes -> ParseResult, data: Bytes): (r: Scan)
    ensures r.size <= |data| && (r.ending.CleanEnd? ==> r.size == |data|)
    decreases |data|
  {
    if data == [] then Scan([], 0, CleanEnd)
    else
      match NextFrame(data, MAX_PAYLOAD)
      case Incomplete => Scan([], 0, TornEnd)
      case Oversized => Scan([], 0, Malformed)
      case Whole(payload) =>
        if !Applies(parse, payload) then Scan([], 0, Malformed)
        else
          ScanCons(parse(payload).command, 4 + |payload|, ScanWith(parse, data[4 + |payload|..]))
  }

  function ScanLog(data: Bytes): Scan { ScanWith(ParseCommand, data) }

  ghost predicate AllApply(parse: Bytes -> ParseResult, records: seq<Bytes>) {
    Fit(records, MAX_PAYLOAD) && forall i :: 0 <= i < |records| ==> Applies(parse, records[i])
  }

  function Meaning(parse: Bytes -> ParseResult, records: seq<Bytes>): seq<Command>
    requires AllApply(parse, records)
  {
    if records == [] then [] else [parse(records[0]).command] + Meaning(parse, records[1..])
  }

  lemma ApplyAppend(parse: Bytes -> ParseResult, a: seq<Bytes>, b: seq<Bytes>)
    requires AllApply(parse, a) && AllApply(parse, b)
    ensures AllApply(parse, a + b)
  {
    assert forall i :: 0 <= i < |a + b| ==> (a + b)[i] == if i < |a| then a[i] else b[i - |a|];
  }

  lemma {:induction false} MeaningAppend(parse: Bytes -> ParseResult, a: seq<Bytes>, b: seq<Bytes>)
    requires AllApply(parse, a) && AllApply(parse, b)
    ensures AllApply(parse, a + b) && Meaning(parse, a + b) == Meaning(parse, a) + Meaning(parse, b)
    decreases |a|
  {
    ApplyAppend(parse, a, b);
    if a == [] {
      assert a + b == b;
    } else {
      MeaningAppend(parse, a[1..], b);
      assert (a + b)[0] == a[0] && (a + b)[1..] == a[1..] + b;
      var first := [parse(a[0]).command];
      assert Meaning(parse, a + b) == first + (Meaning(parse, a[1..]) + Meaning(parse, b));
    }
  }

  lemma MeaningOne(parse: Bytes -> ParseResult, record: Bytes)
    requires |record| <= MAX_PAYLOAD && Applies(parse, record)
    ensures AllApply(parse, [record]) && Meaning(parse, [record]) == [parse(record).command]
  {
    assert [record][1..] == [];
  }

  lemma ScanFirst(parse: Bytes -> ParseResult, record: Bytes, rest: Bytes)
    requires |record| <= MAX_PAYLOAD && Applies(parse, record)
    ensures ScanWith(parse, Frame(record) + rest)
            == ScanCons(parse(record).command, 4 + |record|, ScanWith(parse, rest))
  {
    FrameFirst(record, rest, MAX_PAYLOAD);
  }

  /** Scanning a stream of records followed by any bytes finds the records first. */
  lemma {:induction false} ScanOfStream(parse: Bytes -> ParseResult, records: seq<Bytes>, rest: Bytes)
    requires AllApply(parse, records)
    ensures var s := ScanWith(parse, rest);
            ScanWith(parse, Stream(records) + rest)
            == Scan(Meaning(parse, records) + s.mutations, |Stream(records)| + s.size, s.ending)
    decreases |records|
  {
    if records == [] {
      assert Stream(records) + rest == rest;
    } else {
      var later, m := Stream(records[1..]) + rest, Meaning(parse, records[1..]);
      assert ScanWith(parse, Frame(records[0]) + later)
        == ScanCons(parse(records[0]).command, 4 + |records[0]|, ScanWith(parse, later)) by {
        ScanFirst(parse, records[0], later);
      }
      ScanOfStream(parse, records[1..], rest);
      assert Stream(records) + rest == Frame(records[0]) + later;
      assert [parse(records[0]).command] + (m + ScanWith(parse, rest).mutations)
        == ([parse(records[0]).command] + m) + ScanWith(parse, rest).mutations;
    }
  }

  lemma ScanOfTorn(parse: Bytes -> ParseResult, tail: Bytes)
    requires Torn(tail, MAX_PAYLOAD)
    ensures ScanWith(parse, tail) == Scan([], 0, if tail == [] then CleanEnd else TornEnd)
  {
    TornIsIncomplete(tail, MAX_PAYLOAD);
  }

  // ---------------------------------------------------------- scanning is stable

  lemma NextFrameLocal(data: Bytes, other: Bytes, max: nat)
    requires NextFrame(data, max).Whole?
    requires var n := 4 + |NextFrame(data, max).payload|; n <= |other| && n <= |data| && other[..n] == data[..n]
    ensures NextFrame(other, max) == NextFrame(data, max)
  {
    var n := 4 + |NextFrame(data, max).payload|;
    assert other[..4] == other[..n][..4] == data[..n][..4] == data[..4];
    assert other[4..n] == other[..n][4..] == data[..n][4..] == data[4..n];
  }

  /** A cut behind the first record leaves that record first. */
  lemma FirstRecordOfCut(parse: Bytes -> ParseResult, data: Bytes, size: nat)
    requires data != [] && NextFrame(data, MAX_PAYLOAD).Whole? && Applies(parse, NextFrame(data, MAX_PAYLOAD).payload)
    requires 4 + |NextFrame(data, MAX_PAYLOAD).payload| <= size <= |data|
    ensures var payload := NextFrame(data, MAX_PAYLOAD).payload;
            var n := 4 + |payload|;
            ScanWith(parse, data[..size]) == ScanCons(parse(payload).command, n, ScanWith(parse, data[n..][..size - n]))
  {
    var n := 4 + |NextFrame(data, MAX_PAYLOAD).payload|;
    var cut := data[..size];
    assert cut[..n] == data[..n];
    NextFrameLocal(data, cut, MAX_PAYLOAD);
    assert cut[n..] == data[n..][..size - n];
  }

  /** After the torn tail is cut, scanning again finds the same mutations and a clean end. */
  lemma {:induction false} RescanAfterRepair(parse: Bytes -> ParseResult, data: Bytes)
    requires !ScanWith(parse, data).ending.Malformed?
    ensures var s := ScanWith(parse, data); ScanWith(parse, data[..s.size]) == Scan(s.mutations, s.size, CleanEnd)
    decreases |data|
  {
    if data != [] && NextFrame(data, MAX_PAYLOAD).Whole? {
      var payload := NextFrame(data, MAX_PAYLOAD).payload;
      var n := 4 + |payload|;
      var later := ScanWith(parse, data[n..]);
      assert ScanWith(parse, data) == ScanCons(parse(payload).command, n, later);
      RescanAfterRepair(parse, data[n..]);
      FirstRecordOfCut(parse, data, n + later.size);
    } else {
      assert data[..0] == [];
    }
  }

  lemma FirstRecordStays(parse: Bytes -> ParseResult, data: Bytes, more: Bytes)
    requires data != [] && NextFrame(data, MAX_PAYLOAD).Whole? && Applies(parse, NextFrame(data, MAX_PAYLOAD).payload)
    ensures var payload := NextFrame(data, MAX_PAYLOAD).payload;
            var n := 4 + |payload|;
            n <= |data| && ScanWith(parse, data + more) == ScanCons(parse(payload).command, n, ScanWith(parse, data[n..] + more))
  {
    var n := 4 + |NextFrame(data, MAX_PAYLOAD).payload|;
    var all := data + more;
    assert all[..n] == data[..n];
    NextFrameLocal(data, all, MAX_PAYLOAD);
    assert all[n..] == data[n..] + more;
  }

  lemma ScanConsAppend(m: Command, n: nat, s: Scan, t: Scan)
    ensures ScanCons(m, n, Scan(s.mutations + t.mutations, s.size + t.size, t.ending))
            == Scan(ScanCons(m, n, s).mutations + t.mutations, ScanCons(m, n, s).size + t.size, t.ending)
  {
    assert [m] + (s.mutations + t.mutations) == ([m] + s.mutations) + t.mutations;
  }

  /** What is appended after a clean end is found after what was there. */
  lemma {:induction false} ScanAfterClean(parse: Bytes -> ParseResult, data: Bytes, more: Bytes)
    requires ScanWith(parse, data).ending.CleanEnd?
    ensures var s, t := ScanWith(parse, data), ScanWith(parse, more);
            ScanWith(parse, data + more) == Scan(s.mutations + t.mutations, s.size + t.size, t.ending)
    decreases |data|
  {
    if data == [] {
      assert data + more == more;
    } else {
      var payload := NextFrame(data, MAX_PAYLOAD).payload;
      FirstRecordStays(parse, data, more);
      ScanAfterClean(parse, data[4 + |payload|..], more);
      ScanConsAppend(parse(payload).command, 4 + |payload|, ScanWith(parse, data[4 + |payload|..]), ScanWith(parse, more));
    }
  }

  // ---------------------------------------------------------------- exact reading

  /** What the scan makes of the bytes that follow the last record it applies. */
  ghost predicate EndsAs(parse: Bytes -> ParseResult, rest: Bytes, ending: Ending) {
    match ending
    case CleanEnd => rest == []
    case TornEnd => 0 < |rest| < 4 || exists n: nat :: Announces(rest, n) && n <= 65536 && |rest| < 4 + n
    case Malformed =>
      exists n: nat :: Announces(rest, n) && (n > 65536 || (4 + n <= |rest| && !Applies(parse, rest[4..4 + n])))
  }

  /** The data begins with a record that applies. */
  predicate Continues(parse: Bytes -> ParseResult, data: Bytes) {
    data != [] && NextFrame(data, MAX_PAYLOAD).Whole? && Applies(parse, NextFrame(data, MAX_PAYLOAD).payload)
  }

  lemma EndsAtOnce(parse: Bytes -> ParseResult, data: Bytes)
    requires !Continues(parse, data)
    ensures var s := ScanWith(parse, data); s.mutations == [] && s.size == 0 && EndsAs(parse, data, s.ending)
  {
    assert |data| >= 4 ==> Announces(data, LengthOf(data[..4]));
  }

  lemma StreamOfOneMore(payload: Bytes, later: seq<Bytes>, rest: Bytes, records: seq<Bytes>)
    requires |payload| < WIRE_LIMIT && Fit(later, WIRE_LIMIT - 1) && records == [payload] + later
    ensures Fit(records, WIRE_LIMIT - 1) && Stream(records) == Frame(payload) + Stream(later)
    ensures Stream(records) + rest == Frame(payload) + (Stream(later) + rest)
  {
    assert records[1..] == later;
  }

  lemma OneMoreRecord(parse: Bytes -> ParseResult, data: Bytes, payload: Bytes, later: seq<Bytes>, rest: Bytes, records: seq<Bytes>)
    requires Continues(parse, data) && NextFrame(data, MAX_PAYLOAD) == Whole(payload) && AllApply(parse, later)
    requires |payload| <= MAX_PAYLOAD && 4 + |payload| <= |data| && records == [payload] + later
    requires data == Frame(payload) + data[4 + |payload|..] && data[4 + |payload|..] == Stream(later) + rest
    ensures AllApply(parse, records) && data == Stream(records) + rest && |Stream(records)| == 4 + |payload| + |Stream(later)|
    ensures Meaning(parse, records) == [parse(payload).command] + Meaning(parse, later)
  {
    MeaningOne(parse, payload);
    MeaningAppend(parse, [payload], later);
    StreamOfOneMore(payload, later, rest, records);
  }

  /**
   Every file splits into the frames of records that apply, in order, and a rest: nothing after a clean
   end, a frame cut short at a torn one, and too long a frame or one that is no mutation otherwise.
   */
  lemma {:induction false} ScanExactly(parse: Bytes -> ParseResult, data: Bytes)
    returns (records: seq<Bytes>, rest: Bytes)
    ensures AllApply(parse, records) && data == Stream(records) + rest
    ensures var s := ScanWith(parse, data);
            s.mutations == Meaning(parse, records) && s.size == |Stream(records)| && EndsAs(parse, rest, s.ending)
    decreases |data|
  {
    if Continues(parse, data) {
      var payload := NextFrame(data, MAX_PAYLOAD).payload;
      WholeIsFrame(data, payload, MAX_PAYLOAD);
      var later;
      later, rest := ScanExactly(parse, data[4 + |payload|..]);
      records := [payload] + later;
      OneMoreRecord(parse, data, payload, later, rest, records);
    } else {
      records, rest := [], data;
      EndsAtOnce(parse, data);
      assert Stream([]) + data == data;
    }
  }

  /** The three endings exclude each other, so the bytes decide which one it is. */
  lemma OneEnding(parse: Bytes -> ParseResult, rest: Bytes, a: Ending, b: Ending)
    requires EndsAs(parse, rest, a) && EndsAs(parse, rest, b)
    ensures a == b
  {}
}
