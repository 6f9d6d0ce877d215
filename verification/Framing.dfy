/**
 Length-prefixed frames over a byte stream that may deliver any number of bytes
 at a time, be interrupted, time out or fail.
 */
module Framing {
  import opened Common
  import opened Protocol

  // ------------------------------------------------------------------ encoding

  const WIRE_LIMIT := 0x1_0000_0000

  /** A 32-bit length in network byte order. */
  function Header(n: nat): (h: Bytes)
    requires n < WIRE_LIMIT
    ensures |h| == 4
  {
    [n / 0x100_0000, n / 0x1_0000 % 0x100, n / 0x100 % 0x100, n % 0x100]
  }

  function LengthOf(h: Bytes): nat
    requires |h| == 4
  {
    (h[0] as int) * 0x100_0000 + (h[1] as int) * 0x1_0000 + (h[2] as int) * 0x100 + h[3] as int
  }

  lemma HeaderRoundTrip(n: nat)
    requires n < WIRE_LIMIT
    ensures LengthOf(Header(n)) == n
  {
    assert n / 0x1_0000 / 0x100 == n / 0x100_0000;
    assert n / 0x100 / 0x100 == n / 0x1_0000;
  }

  function Base256(a: int, b: int, c: int, d: int): int { ((a * 256 + b) * 256 + c) * 256 + d }

  /** The first four bytes are the digits of `n` in base 256, most significant first. */
  ghost predicate Announces(data: Bytes, n: nat) {
    |data| >= 4 && n == Base256(data[0], data[1], data[2], data[3])
  }

  /** On the wire: the length of the payload, then the payload. */
  ghost predicate IsFrame(f: Bytes, payload: Bytes) {
    |f| == 4 + |payload| && Announces(f, |payload|) && f[4..] == payload
  }

  lemma HeaderAnnounces(n: nat)
    requires n < WIRE_LIMIT
    ensures Announces(Header(n), n)
  {
    HeaderRoundTrip(n);
  }

  lemma DigitsAreUnique(a: Byte, b: Byte, x: int, y: int)
    requires x * 256 + a == y * 256 + b
    ensures x == y && a == b
  {}

  /** No other four bytes announce the same length, */
  lemma AnnouncedBy(data: Bytes, other: Bytes, n: nat)
    requires Announces(data, n) && Announces(other, n)
    ensures data[..4] == other[..4]
  {
    var a: int, b: int, c: int := data[0], data[1], data[2];
    var x: int, y: int, z: int := other[0], other[1], other[2];
    DigitsAreUnique(data[3], other[3], (a * 256 + b) * 256 + c, (x * 256 + y) * 256 + z);
    DigitsAreUnique(data[2], other[2], a * 256 + b, x * 256 + y);
    DigitsAreUnique(data[1], other[1], a, x);
  }

  /** so a payload has one frame. */
  lemma FrameIsUnique(f: Bytes, other: Bytes, payload: Bytes)
    requires IsFrame(f, payload) && IsFrame(other, payload)
    ensures f == other
  {
    AnnouncedBy(f, other, |payload|);
    assert f == f[..4] + f[4..] && other == other[..4] + other[4..];
  }

  function Frame(payload: Bytes): (f: Bytes)
    requires |payload| < WIRE_LIMIT
    ensures |f| == 4 + |payload|
  {
    Header(|payload|) + payload
  }

  lemma FrameIsFrame(payload: Bytes)
    requires |payload| < WIRE_LIMIT
    ensures IsFrame(Frame(payload), payload)
  {
    HeaderAnnounces(|payload|);
  }

  /** `encode_frame`; a payload too long for the wire length is refused, as by the thrown length_error. */
  method EncodeFrame(payload: Bytes) returns (frame: Option<Bytes>)
    ensures frame.None? <==> |payload| >= WIRE_LIMIT
    ensures frame.Some? ==> frame.value == Frame(payload) && IsFrame(frame.value, payload)
  {
    if |payload| >= WIRE_LIMIT {
      return None;
    }
    var buffer := new Byte[4 + |payload|];
    var header := Header(|payload|);
    for i := 0 to 4
      invariant buffer[..i] == header[..i]
    {
      buffer[i] := header[i];
    }
    for i := 0 to |payload|
      invariant buffer[..4] == header && buffer[4..4 + i] == payload[..i]
    {
      buffer[4 + i] := payload[i];
    }
    FrameIsFrame(payload);
    frame := Some(buffer[..]);
    assert buffer[..] == buffer[..4] + buffer[4..4 + |payload|];
  }

  // ------------------------------------------------------- frames in a stream

  datatype Next = Whole(payload: Bytes) | Oversized | Incomplete

  /** The first frame of a byte sequence, as a reader with limit `max` must see it. */
  function NextFrame(data: Bytes, max: nat): Next {
    if |data| < 4 then Incomplete
    else if LengthOf(data[..4]) > max then Oversized
    else if |data| < 4 + LengthOf(data[..4]) then Incomplete
    else Whole(data[4..4 + LengthOf(data[..4])])
  }

  /** Which bytes hold a whole frame, which too long a one, and which none yet. */
  lemma NextFrameExactly(data: Bytes, max: nat, n: nat)
    requires |data| >= 4 ==> Announces(data, n)
    ensures NextFrame(data, max) ==
            if |data| < 4 then Incomplete else if n > max then Oversized
            else if |data| < 4 + n then Incomplete else Whole(data[4..4 + n])
  {}

  lemma PrefixIsFrame(data: Bytes, n: nat, f: Bytes, payload: Bytes)
    requires Announces(data, n) && 4 + n <= |data| && f == data[..4 + n] && payload == data[4..4 + n]
    ensures IsFrame(f, payload)
  {}

  lemma OnlyFrame(f: Bytes, payload: Bytes)
    requires IsFrame(f, payload) && |payload| < WIRE_LIMIT
    ensures f == Frame(payload)
  {
    FrameIsFrame(payload);
    FrameIsUnique(f, Frame(payload), payload);
  }

  /** A whole frame at the start of the data is the frame of its payload. */
  lemma WholeIsFrame(data: Bytes, payload: Bytes, max: nat)
    requires max < WIRE_LIMIT && NextFrame(data, max) == Whole(payload)
    ensures |payload| <= max && 4 + |payload| <= |data| && data == Frame(payload) + data[4 + |payload|..]
  {
    var n := LengthOf(data[..4]);
    NextFrameExactly(data, max, n);
    PrefixIsFrame(data, n, data[..4 + n], payload);
    OnlyFrame(data[..4 + n], payload);
  }

  ghost predicate Fit(payloads: seq<Bytes>, max: nat) {
    forall i :: 0 <= i < |payloads| ==> |payloads[i]| <= max
  }

  ghost function Stream(payloads: seq<Bytes>): Bytes
    requires Fit(payloads, WIRE_LIMIT - 1)
  {
    if payloads == [] then [] else Frame(payloads[0]) + Stream(payloads[1..])
  }

  lemma {:induction false} StreamAppend(a: seq<Bytes>, b: seq<Bytes>)
    requires Fit(a, WIRE_LIMIT - 1) && Fit(b, WIRE_LIMIT - 1)
    ensures Fit(a + b, WIRE_LIMIT - 1) && Stream(a + b) == Stream(a) + Stream(b)
    decreases |a|
  {
    if a == [] {
      assert a + b == b;
    } else {
      StreamAppend(a[1..], b);
      assert (a + b)[1..] == a[1..] + b;
      assert Stream(a + b) == Frame(a[0]) + (Stream(a[1..]) + Stream(b));
    }
  }

  lemma StreamOne(payload: Bytes)
    requires |payload| < WIRE_LIMIT
    ensures Stream([payload]) == Frame(payload)
  {
    assert Stream([payload][1..]) == [];
  }

  /** How many whole frames fit in the first `n` bytes. */
  ghost function WholeFrames(payloads: seq<Bytes>, n: nat): (j: nat)
    requires Fit(payloads, WIRE_LIMIT - 1)
    ensures j <= |payloads|
    decreases |payloads|
  {
    if payloads == [] || n < 4 + |payloads[0]| then 0
    else 1 + WholeFrames(payloads[1..], n - (4 + |payloads[0]|))
  }

  /** Any prefix of a stream is a shorter stream and a start of the frame that follows. */
  lemma {:induction false} CutStream(payloads: seq<Bytes>, n: nat)
    requires Fit(payloads, WIRE_LIMIT - 1) && n <= |Stream(payloads)|
    ensures var j := WholeFrames(payloads, n);
            && |Stream(payloads[..j])| <= n
            && (if j == |payloads| then n == |Stream(payloads)|
                else var over := n - |Stream(payloads[..j])|;
                     && over < 4 + |payloads[j]|
                     && Stream(payloads)[..n] == Stream(payloads[..j]) + Frame(payloads[j])[..over])
    decreases |payloads|
  {
    var j := WholeFrames(payloads, n);
    if payloads == [] {
      assert payloads[..0] == [];
    } else if n < 4 + |payloads[0]| {
      assert payloads[..0] == [];
      assert Stream(payloads)[..n] == Frame(payloads[0])[..n];
    } else {
      var first, rest := Frame(payloads[0]), payloads[1..];
      CutStream(rest, n - |first|);
      assert payloads[..j][1..] == rest[..j - 1];
      assert Stream(payloads[..j]) == first + Stream(rest[..j - 1]);
      if j < |payloads| {
        CutDeeper(first, Stream(rest), Stream(rest[..j - 1]), Frame(rest[j - 1])[..n - |Stream(payloads[..j])|], n);
      } else {
        assert payloads[..j] == payloads;
      }
    }
  }

  lemma CutDeeper(first: Bytes, rest: Bytes, before: Bytes, over: Bytes, n: nat)
    requires |first| <= n <= |first| + |rest| && rest[..n - |first|] == before + over
    ensures (first + rest)[..n] == (first + before) + over
  {
    assert (first + rest)[..n] == first + rest[..n - |first|];
  }

  /** A stream cut inside a frame: what is there of a frame whose length fits. */
  ghost predicate Torn(tail: Bytes, max: nat) {
    tail == [] || exists p: Bytes :: |p| <= max && |p| < WIRE_LIMIT && |tail| < 4 + |p| && tail == Frame(p)[..|tail|]
  }

  lemma FrameFirst(payload: Bytes, rest: Bytes, max: nat)
    requires |payload| <= max && |payload| < WIRE_LIMIT
    ensures NextFrame(Frame(payload) + rest, max) == Whole(payload)
    ensures (Frame(payload) + rest)[4 + |payload|..] == rest
  {
    var data := Frame(payload) + rest;
    HeaderRoundTrip(|payload|);
    assert data[..4] == Header(|payload|);
    assert data[4..4 + |payload|] == payload;
  }

  lemma TornIsIncomplete(tail: Bytes, max: nat)
    requires Torn(tail, max)
    ensures NextFrame(tail, max) == Incomplete
  {
    if tail != [] && |tail| >= 4 {
      var p: Bytes :| |p| <= max && |p| < WIRE_LIMIT && |tail| < 4 + |p| && tail == Frame(p)[..|tail|];
      HeaderRoundTrip(|p|);
      assert tail[..4] == Frame(p)[..4] == Header(|p|);
    }
  }

  // ------------------------------------------------------------------- reading

  /** What the operating system does at one `read`: deliver up to `count` bytes, or report a condition. */
  datatype ReadChoice = Deliver(count: nat) | Interrupt | TimeOut | Fail

  datatype ReadResult = Data(bytes: Bytes) | EndOfFile | Eintr | Eagain | Error

  datatype IoStatus = Ok | Eof | WouldBlock | Failed | TooLarge

  ghost predicate Faultless(script: seq<ReadChoice>) {
    forall i :: 0 <= i < |script| ==> script[i].Deliver? || script[i].Interrupt?
  }

  /** A delivered frame, one too large and the end of the stream, told apart by the announced length. */
  ghost predicate Decides(rest: Bytes, max: nat, status: IoStatus, payload: Bytes) {
    match status
    case Ok => Announces(rest, |payload|) && |payload| <= max && 4 + |payload| <= |rest| && payload == rest[4..4 + |payload|]
    case TooLarge => exists n: nat :: Announces(rest, n) && n > max
    case Eof => |rest| < 4 || exists n: nat :: Announces(rest, n) && n <= max && |rest| < 4 + n
    case _ => true
  }

  /** A readable descriptor: all bytes it will ever yield, and how each read behaves. */
  class Source {
    const data: Bytes
    var cursor: nat
    var script: seq<ReadChoice>

    ghost predicate Valid()
      reads this
    {
      cursor <= |data|
    }

    constructor (data: Bytes, script: seq<ReadChoice>)
      ensures Valid() && this.data == data && cursor == 0 && this.script == script
    {
      this.data, this.cursor, this.script := data, 0, script;
    }

    /** `::read(fd, buffer, n)`; once the script is used up, reads deliver all they can. */
    method Read(n: nat) returns (r: ReadResult)
      requires Valid() && n > 0
      modifies this
      ensures Valid() && cursor >= old(cursor)
      ensures r.Data? ==> 0 < |r.bytes| <= n && cursor == old(cursor) + |r.bytes| && r.bytes == data[old(cursor)..cursor]
      ensures !r.Data? ==> cursor == old(cursor)
      ensures r.EndOfFile? ==> cursor == |data|
      ensures script == if old(script) == [] then [] else old(script)[1..]
      ensures r.Eintr? <==> old(script) != [] && old(script)[0].Interrupt?
      ensures r.Eagain? <==> old(script) != [] && old(script)[0].TimeOut?
      ensures r.Error? <==> old(script) != [] && old(script)[0].Fail?
      ensures Faultless(old(script)) ==> Faultless(script) && !r.Eagain? && !r.Error?
    {
      var choice := Deliver(n);
      if script != [] {
        choice, script := script[0], script[1..];
      }
      match choice
      case Interrupt => r := Eintr;
      case TimeOut => r := Eagain;
      case Fail => r := Error;
      case Deliver(count) =>
        var available := |data| - cursor;
        if available == 0 {
          r := EndOfFile;
        } else {
          var k := if 0 < count < n then count else n;
          k := if k < available then k else available;
          r := Data(data[cursor..cursor + k]);
          cursor := cursor + k;
        }
    }

    /** The accumulation loop of `read_exact`. */
    method ReadExact(n: nat) returns (status: IoStatus, bytes: Bytes)
      requires Valid()
      modifies this
      ensures Valid() && cursor == old(cursor) + |bytes| && bytes == data[old(cursor)..cursor]
      ensures |bytes| <= n && (status.Ok? <==> |bytes| == n)
      ensures status.Eof? ==> cursor == |data|
      ensures !status.TooLarge?
      ensures forall c :: c in script ==> c in old(script)
      ensures (status.WouldBlock? ==> TimeOut in old(script)) && (status.Failed? ==> Fail in old(script))
      ensures Faultless(old(script)) ==> Faultless(script) && (status.Ok? || status.Eof?)
    {
      bytes := [];
      while |bytes| < n
        invariant Valid() && |bytes| <= n && cursor == old(cursor) + |bytes| && bytes == data[old(cursor)..cursor]
        invariant forall c :: c in script ==> c in old(script)
        invariant Faultless(old(script)) ==> Faultless(script)
        decreases n - |bytes|, |script|
      {
        var r := Read(n - |bytes|);
        match r
        case Data(more) => bytes := bytes + more;
        case EndOfFile => return Eof, bytes;
        case Eintr =>
        case Eagain => return WouldBlock, bytes;
        case Error => return Failed, bytes;
      }
      status := Ok;
    }

    /** `recv_frame`: header, limit check, payload. */
    method RecvFrame(max: nat) returns (status: IoStatus, payload: Bytes)
      requires Valid()
      modifies this
      ensures Valid() && cursor >= old(cursor)
      ensures status.Ok? ==>
                NextFrame(data[old(cursor)..], max) == Whole(payload) && cursor == old(cursor) + 4 + |payload|
      ensures status.TooLarge? ==> NextFrame(data[old(cursor)..], max) == Oversized
      ensures status.Eof? ==> NextFrame(data[old(cursor)..], max) == Incomplete
      ensures Decides(data[old(cursor)..], max, status, payload)
      ensures !status.Ok? ==> payload == []
      ensures (status.WouldBlock? ==> TimeOut in old(script)) && (status.Failed? ==> Fail in old(script))
      ensures Faultless(old(script)) ==> Faultless(script) && (status.Ok? || status.Eof? || status.TooLarge?)
    {
      ghost var rest := data[cursor..];
      assert |rest| >= 4 ==> Announces(rest, LengthOf(rest[..4]));
      var headerStatus, header := ReadExact(4);
      assert header == rest[..|header|];
      if !headerStatus.Ok? {
        return headerStatus, [];
      }
      var length := LengthOf(header);
      if length > max {
        return TooLarge, [];
      }
      var payloadStatus, bytes := ReadExact(length);
      assert bytes == rest[4..4 + |bytes|];
      if !payloadStatus.Ok? {
        return payloadStatus, [];
      }
      return Ok, bytes;
    }
  }

  // ------------------------------------------------------- a whole connection

  /** What a reader meets after `n` of the payloads. */
  lemma StreamStep(payloads: seq<Bytes>, n: nat, tail: Bytes, max: nat)
    requires max < WIRE_LIMIT && Fit(payloads, max) && Torn(tail, max) && n <= |payloads|
    ensures var rest := Stream(payloads[n..]) + tail;
            if n == |payloads| then NextFrame(rest, max) == Incomplete
            else && NextFrame(rest, max) == Whole(payloads[n])
                 && 4 + |payloads[n]| <= |rest|
                 && rest[4 + |payloads[n]|..] == Stream(payloads[n + 1..]) + tail
  {
    var left := payloads[n..];
    if n == |payloads| {
      assert Stream(left) + tail == tail;
      TornIsIncomplete(tail, max);
    } else {
      var later := Stream(left[1..]) + tail;
      assert left[0] == payloads[n] && left[1..] == payloads[n + 1..];
      assert Stream(left) + tail == Frame(left[0]) + later;
      FrameFirst(left[0], later, max);
    }
  }

  /** A reader of `data` meets these payloads, one frame after the other, and then no whole frame. */
  ghost predicate Yields(data: Bytes, payloads: seq<Bytes>, max: nat)
    decreases |payloads|
  {
    if payloads == [] then NextFrame(data, max) == Incomplete
    else && NextFrame(data, max) == Whole(payloads[0]) && 4 + |payloads[0]| <= |data|
         && Yields(data[4 + |payloads[0]|..], payloads[1..], max)
  }

  lemma {:induction false} StreamYields(payloads: seq<Bytes>, tail: Bytes, max: nat)
    requires max < WIRE_LIMIT && Fit(payloads, max) && Torn(tail, max)
    ensures Yields(Stream(payloads) + tail, payloads, max)
    decreases |payloads|
  {
    assert payloads[0..] == payloads;
    StreamStep(payloads, 0, tail, max);
    if payloads != [] {
      StreamYields(payloads[1..], tail, max);
    }
  }

  lemma YieldsNext(data: Bytes, cursor: nat, payloads: seq<Bytes>, n: nat, max: nat)
    requires cursor <= |data| && n <= |payloads| && Yields(data[cursor..], payloads[n..], max)
    ensures NextFrame(data[cursor..], max) == if n == |payloads| then Incomplete else Whole(payloads[n])
    ensures n < |payloads| ==> var next := cursor + 4 + |payloads[n]|;
              next <= |data| && Yields(data[next..], payloads[n + 1..], max)
  {
    if n < |payloads| {
      assert payloads[n..][1..] == payloads[n + 1..];
      assert data[cursor..][4 + |payloads[n]|..] == data[cursor + 4 + |payloads[n]|..];
    }
  }

  lemma OneMoreReceived(payloads: seq<Bytes>, received: seq<Bytes>, payload: Bytes)
    requires |received| < |payloads| && received == payloads[..|received|] && payload == payloads[|received|]
    ensures received + [payload] == payloads[..|received| + 1]
  {}

  /** Reads frames until one does not arrive. */
  method ReceiveFrames(source: Source, max: nat, ghost payloads: seq<Bytes>)
    returns (received: seq<Bytes>, status: IoStatus)
    requires source.Valid() && source.cursor == 0 && Yields(source.data, payloads, max)
    modifies source
    ensures received <= payloads && !status.Ok? && !status.TooLarge?
    ensures status.Eof? ==> received == payloads
    ensures Faultless(old(source.script)) ==> status.Eof?
  {
    received := [];
    assert payloads[0..] == payloads && source.data[0..] == source.data;
    while true
      invariant source.Valid() && |received| <= |payloads| && received == payloads[..|received|]
      invariant Yields(source.data[source.cursor..], payloads[|received|..], max)
      invariant Faultless(old(source.script)) ==> Faultless(source.script)
      decreases |payloads| - |received|
    {
      ghost var n, from := |received|, source.cursor;
      YieldsNext(source.data, from, payloads, n, max);
      var payload;
      status, payload := source.RecvFrame(max);
      if !status.Ok? {
        return;
      }
      OneMoreReceived(payloads, received, payload);
      received := received + [payload];
    }
  }

  /**
   Whatever the cutting, the frames received are the ones sent, in order; without faults they are all
   of them, and the stream then reports end of file.
   */
  method ReceiveAll(source: Source, max: nat, ghost payloads: seq<Bytes>, ghost tail: Bytes)
    returns (received: seq<Bytes>, status: IoStatus)
    requires source.Valid() && source.cursor == 0
    requires max < WIRE_LIMIT && Fit(payloads, max) && Torn(tail, max)
    requires source.data == Stream(payloads) + tail
    modifies source
    ensures received <= payloads && !status.Ok? && !status.TooLarge?
    ensures status.Eof? ==> received == payloads
    ensures Faultless(old(source.script)) ==> status.Eof?
  {
    StreamYields(payloads, tail, max);
    received, status := ReceiveFrames(source, max, payloads);
  }
}
