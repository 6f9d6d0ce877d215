/**
 The text commands carried by a frame: trimming, splitting, validating and
 parsing, and the records the server prints for its log.
 */
module Protocol {

  type Byte = b: int | 0 <= b < 256
  type Bytes = seq<Byte>

  const MAX_PAYLOAD := 65536
  const SPACE: Byte := 32

  /** The bytes of an ASCII text: its character codes. */
  function Text(s: string): (r: Bytes)
    ensures |r| == |s| && forall i :: 0 <= i < |s| && s[i] as int < 256 ==> r[i] == s[i] as int
  {
    seq(|s|, i requires 0 <= i < |s| => s[i] as int % 256)
  }

  const PING: Bytes := [80, 73, 78, 71]
  const STATS: Bytes := [83, 84, 65, 84, 83]
  const GET: Bytes := [71, 69, 84]
  const DEL: Bytes := [68, 69, 76]
  const SET: Bytes := [83, 69, 84]

  /** `std::isspace` in the C locale. */
  predicate IsSpace(b: Byte) { b == 32 || 9 <= b <= 13 }

  /** The set `find_first_of(" \t\r\n")` looks for; smaller than IsSpace. */
  predicate IsSeparator(b: Byte) { b == 32 || b == 9 || b == 13 || b == 10 }

  predicate IsAlnum(b: Byte) { 48 <= b <= 57 || 65 <= b <= 90 || 97 <= b <= 122 }

  predicate IsKeyByte(b: Byte) { IsAlnum(b) || b == 95 || b == 45 || b == 46 || b == 58 }

  // ----------------------------------------------------------------- trimming

  function TrimFront(text: Bytes): Bytes {
    if text != [] && IsSpace(text[0]) then TrimFront(text[1..]) else text
  }

  function TrimBack(text: Bytes): Bytes {
    if text != [] && IsSpace(text[|text| - 1]) then TrimBack(text[..|text| - 1]) else text
  }

  function Trim(text: Bytes): Bytes { TrimBack(TrimFront(text)) }

  ghost predicate Trimmed(text: Bytes) {
    text == [] || (!IsSpace(text[0]) && !IsSpace(text[|text| - 1]))
  }

  ghost predicate AllSpace(text: Bytes) {
    forall i :: 0 <= i < |text| ==> IsSpace(text[i])
  }

  lemma {:induction false} TrimFrontIs(text: Bytes) returns (n: nat)
    ensures n <= |text| && AllSpace(text[..n]) && TrimFront(text) == text[n..]
    ensures n < |text| ==> !IsSpace(text[n])
    decreases |text|
  {
    n := 0;
    if text != [] && IsSpace(text[0]) {
      var m := TrimFrontIs(text[1..]);
      n := m + 1;
      assert text[1..][m..] == text[n..];
      forall i | 0 <= i < n
        ensures IsSpace(text[i])
      {
        if i > 0 {
          assert text[i] == text[1..][..m][i - 1];
        }
      }
    }
  }

  lemma {:induction false} TrimBackIs(text: Bytes) returns (n: nat)
    ensures n <= |text| && AllSpace(text[n..]) && TrimBack(text) == text[..n]
    ensures n > 0 ==> !IsSpace(text[n - 1])
    decreases |text|
  {
    n := |text|;
    if text != [] && IsSpace(text[|text| - 1]) {
      n := TrimBackIs(text[..|text| - 1]);
      assert text[..|text| - 1][..n] == text[..n];
      forall i | n <= i < |text|
        ensures IsSpace(text[i])
      {
        if i < |text| - 1 {
          assert text[i] == text[..|text| - 1][n..][i - n];
        }
      }
    }
  }

  /** Trimming cuts white space off both ends and nothing else; what is left starts and ends with text. */
  lemma TrimIs(text: Bytes) returns (from: nat, upto: nat)
    ensures from <= upto <= |text| && Trim(text) == text[from..upto]
    ensures AllSpace(text[..from]) && AllSpace(text[upto..])
    ensures Trimmed(Trim(text))
  {
    from := TrimFrontIs(text);
    var front := text[from..];
    var n := TrimBackIs(front);
    upto := from + n;
    assert front[..n] == text[from..upto];
    assert text[upto..] == front[n..];
    if n > 0 {
      assert text[from..upto][0] == text[from];
      assert text[from..upto][n - 1] == front[n - 1];
    }
  }

  lemma TrimmedStays(text: Bytes)
    requires Trimmed(text)
    ensures Trim(text) == text
  {}

  /** The two cursor loops of `trim`. */
  method TrimText(text: Bytes) returns (trimmed: Bytes)
    ensures trimmed == Trim(text)
  {
    trimmed := text;
    while trimmed != [] && IsSpace(trimmed[0])
      invariant TrimFront(trimmed) == TrimFront(text)
      decreases |trimmed|
    {
      trimmed := trimmed[1..];
    }
    while trimmed != [] && IsSpace(trimmed[|trimmed| - 1])
      invariant TrimBack(trimmed) == TrimBack(TrimFront(text))
      decreases |trimmed|
    {
      trimmed := trimmed[..|trimmed| - 1];
    }
  }

  // ---------------------------------------------------------------- splitting

  /** Position of the first separator, or the length if there is none. */
  function FindSeparator(text: Bytes): (k: nat)
    ensures k <= |text|
    ensures forall i :: 0 <= i < k ==> !IsSeparator(text[i])
    ensures k < |text| ==> IsSeparator(text[k])
  {
    if text == [] || IsSeparator(text[0]) then 0 else 1 + FindSeparator(text[1..])
  }

  function SplitOnce(text: Bytes): (Bytes, Bytes) {
    var t := Trim(text);
    var k := FindSeparator(t);
    if k == |t| then (t, []) else (t[..k], Trim(t[k + 1..]))
  }

  ghost predicate HasByte(text: Bytes, b: Byte) {
    exists i :: 0 <= i < |text| && text[i] == b
  }

  lemma TrimShrinks(text: Bytes)
    ensures |Trim(text)| <= |text| && Trimmed(Trim(text))
    ensures forall b :: HasByte(Trim(text), b) ==> HasByte(text, b)
  {
    var from, upto := TrimIs(text);
    forall b | HasByte(Trim(text), b)
      ensures HasByte(text, b)
    {
      var i :| 0 <= i < |Trim(text)| && Trim(text)[i] == b;
      assert text[from + i] == b;
    }
  }

  /** What splitting can yield: trimmed parts, shorter than the text by at least the separator. */
  lemma SplitOnceIs(text: Bytes)
    ensures var (head, tail) := SplitOnce(text);
            && Trimmed(tail)
            && |head| + |tail| <= |text| && (tail != [] ==> |head| + 1 + |tail| <= |text|)
            && (forall b :: HasByte(tail, b) ==> HasByte(text, b))
  {
    var t := Trim(text);
    TrimShrinks(text);
    var k := FindSeparator(t);
    if k < |t| {
      TrimShrinks(t[k + 1..]);
      forall b | HasByte(Trim(t[k + 1..]), b)
        ensures HasByte(text, b)
      {
        var i :| 0 <= i < |t[k + 1..]| && t[k + 1..][i] == b;
        assert t[k + 1 + i] == b;
      }
    }
  }

  /** Splitting what was joined with one blank gives the two parts back. */
  lemma SplitJoined(head: Bytes, tail: Bytes)
    requires head != [] && tail != [] && Trimmed(tail) && !IsSpace(head[0])
    requires forall i :: 0 <= i < |head| ==> !IsSeparator(head[i])
    ensures SplitOnce(head + [SPACE] + tail) == (head, tail)
  {
    var text := head + [SPACE] + tail;
    assert text[0] == head[0] && text[|text| - 1] == tail[|tail| - 1];
    TrimmedStays(text);
    var k := FindSeparator(text);
    assert text[|head|] == SPACE;
    assert forall i :: 0 <= i < |head| ==> text[i] == head[i];
    assert k == |head|;
    assert text[..k] == head && text[k + 1..] == tail;
    TrimmedStays(tail);
  }

  lemma SplitAlone(head: Bytes)
    requires head != [] && !IsSpace(head[0]) && !IsSpace(head[|head| - 1])
    requires forall i :: 0 <= i < |head| ==> !IsSeparator(head[i])
    ensures SplitOnce(head) == (head, [])
  {
    TrimmedStays(head);
  }

  // ------------------------------------------------------------------ commands

  datatype Command = Ping | Stats | Get(key: Bytes) | Del(key: Bytes) | Set(key: Bytes, value: Bytes)
  datatype ParseResult = Parsed(command: Command) | ParseError(message: string)

  predicate ValidKey(key: Bytes) {
    0 < |key| <= 128 && forall i :: 0 <= i < |key| ==> IsKeyByte(key[i])
  }

  function ParseCommand(payload: Bytes): ParseResult {
    if exists i :: 0 <= i < |payload| && payload[i] == 0 then ParseError("NUL bytes are not valid command text")
    else
      var (verb, arguments) := SplitOnce(payload);
      if verb == PING && arguments == [] then Parsed(Ping)
      else if verb == STATS && arguments == [] then Parsed(Stats)
      else if verb == GET || verb == DEL then
        var (key, extra) := SplitOnce(arguments);
        if !ValidKey(key) || extra != [] then ParseError("GET/DEL requires exactly one safe key")
        else if verb == GET then Parsed(Get(key))
        else Parsed(Del(key))
      else if verb == SET then
        var (key, value) := SplitOnce(arguments);
        if !ValidKey(key) || value == [] then ParseError("SET requires a safe key and a non-empty value")
        else Parsed(Set(key, value))
      else ParseError("unknown or malformed command")
  }

  // ------------------------------------------------------------- log records

  predicate IsMutation(c: Command) { c.Set? || c.Del? }

  /** The text `append_set` or `append_del` writes for a mutation. */
  function Record(m: Command): Bytes
    requires IsMutation(m)
  {
    match m
    case Set(key, value) => SET + [SPACE] + (key + [SPACE] + value)
    case Del(key) => DEL + [SPACE] + key
  }

  /** What parsing guarantees about a mutation. */
  ghost predicate Clean(m: Command) {
    && IsMutation(m) && ValidKey(m.key)
    && (m.Set? ==> m.value != [] && Trimmed(m.value) && !HasByte(m.value, 0))
  }

  lemma ParsedIsClean(payload: Bytes)
    requires ParseCommand(payload).Parsed? && IsMutation(ParseCommand(payload).command)
    ensures Clean(ParseCommand(payload).command)
    ensures |Record(ParseCommand(payload).command)| <= |payload|
  {
    var (verb, arguments) := SplitOnce(payload);
    SplitOnceIs(payload);
    SplitOnceIs(arguments);
    var (key, value) := SplitOnce(arguments);
    assert !HasByte(payload, 0);
    if value != [] {
      assert !HasByte(value, 0);
    }
  }

  lemma KeyIsOneWord(key: Bytes)
    requires ValidKey(key)
    ensures Trimmed(key) && !HasByte(key, 0)
    ensures forall i :: 0 <= i < |key| ==> !IsSeparator(key[i])
  {}

  lemma NoZero(a: Bytes, b: Bytes)
    requires !HasByte(a, 0) && !HasByte(b, 0)
    ensures !HasByte(a + [SPACE] + b, 0)
  {
    var text := a + [SPACE] + b;
    forall i | 0 <= i < |text|
      ensures text[i] != 0
    {
      assert text[i] == if i < |a| then a[i] else if i == |a| then SPACE else b[i - |a| - 1];
    }
  }

  lemma DelReplays(key: Bytes)
    requires ValidKey(key)
    ensures ParseCommand(Record(Del(key))) == Parsed(Del(key))
  {
    KeyIsOneWord(key);
    NoZero(DEL, key);
    SplitJoined(DEL, key);
    SplitAlone(key);
    assert !HasByte(Record(Del(key)), 0);
  }

  lemma SetArguments(key: Bytes, value: Bytes)
    requires Clean(Set(key, value))
    ensures var arguments := key + [SPACE] + value;
            && arguments != [] && Trimmed(arguments) && !HasByte(arguments, 0) && SplitOnce(arguments) == (key, value)
  {
    KeyIsOneWord(key);
    NoZero(key, value);
    var arguments := key + [SPACE] + value;
    assert arguments[0] == key[0] && arguments[|arguments| - 1] == value[|value| - 1];
    SplitJoined(key, value);
  }

  lemma ParsesAsSet(payload: Bytes, arguments: Bytes, key: Bytes, value: Bytes)
    requires !HasByte(payload, 0) && SplitOnce(payload) == (SET, arguments) && SplitOnce(arguments) == (key, value)
    requires ValidKey(key) && value != []
    ensures ParseCommand(payload) == Parsed(Set(key, value))
  {}

  lemma SetReplays(key: Bytes, value: Bytes)
    requires Clean(Set(key, value))
    ensures ParseCommand(Record(Set(key, value))) == Parsed(Set(key, value))
  {
    SetArguments(key, value);
    var arguments := key + [SPACE] + value;
    NoZero(SET, arguments);
    SplitJoined(SET, arguments);
    ParsesAsSet(Record(Set(key, value)), arguments, key, value);
  }

  /**
   Every mutation the server logs is replayable: whatever request it was parsed from, its record
   parses back to it and is no longer than that request.
   */
  lemma LoggedMutationReplays(payload: Bytes)
    requires ParseCommand(payload).Parsed? && IsMutation(ParseCommand(payload).command)
    ensures var m := ParseCommand(payload).command;
            ParseCommand(Record(m)) == Parsed(m) && |Record(m)| <= |payload|
  {
    ParsedIsClean(payload);
    match ParseCommand(payload).command
    case Set(key, value) => SetReplays(key, value);
    case Del(key) => DelReplays(key);
  }

  // ------------------------------------------------------------- canonical text

  /** The shortest request for a command. */
  function Print(c: Command): Bytes {
    match c
    case Ping => PING
    case Stats => STATS
    case Get(key) => GET + [SPACE] + key
    case Del(_) => Record(c)
    case Set(_, _) => Record(c)
  }

  lemma GetParses(key: Bytes)
    requires ValidKey(key)
    ensures ParseCommand(Print(Get(key))) == Parsed(Get(key))
  {
    KeyIsOneWord(key);
    NoZero(GET, key);
    SplitJoined(GET, key);
    SplitAlone(key);
    assert !HasByte(Print(Get(key)), 0);
  }

  lemma WordsParse()
    ensures ParseCommand(PING) == Parsed(Ping) && ParseCommand(STATS) == Parsed(Stats)
  {
    SplitAlone(PING);
    SplitAlone(STATS);
  }

  lemma PrintIsShortest(payload: Bytes)
    requires ParseCommand(payload).Parsed?
    ensures |Print(ParseCommand(payload).command)| <= |payload|
  {
    var (verb, arguments) := SplitOnce(payload);
    SplitOnceIs(payload);
    SplitOnceIs(arguments);
  }

  /** Whatever a request parses to, that command's canonical text parses to it too and is no longer. */
  lemma EveryCommandRoundTrips(payload: Bytes)
    requires ParseCommand(payload).Parsed?
    ensures var c := ParseCommand(payload).command;
            ParseCommand(Print(c)) == Parsed(c) && |Print(c)| <= |payload|
  {
    PrintIsShortest(payload);
    WordsParse();
    var c := ParseCommand(payload).command;
    if IsMutation(c) {
      LoggedMutationReplays(payload);
    } else if c.Get? {
      GetParses(c.key);
    }
  }
}
