/**
 Which bytes are requests: the grammar the parser accepts, said as concatenations of white space,
 verbs and arguments, and which message every other payload gets.
 */
module Grammar {
  import opened Protocol

  // ------------------------------------------------------------------- trimming

  /** `core` with white space around it. */
  ghost predicate Around(text: Bytes, core: Bytes) {
    exists before, after :: AllSpace(before) && AllSpace(after) && text == before + core + after
  }

  lemma TrimIsAround(text: Bytes)
    ensures Around(text, Trim(text)) && Trimmed(Trim(text))
  {
    var from, upto := TrimIs(text);
    assert text == text[..from] + text[from..upto] + text[upto..];
  }

  lemma SpaceBefore(text: Bytes, n: nat)
    requires n <= |text| && AllSpace(text[..n])
    ensures forall i :: 0 <= i < n ==> IsSpace(text[i])
  {
    assert forall i :: 0 <= i < n ==> text[..n][i] == text[i];
  }

  lemma SpaceAfter(text: Bytes, n: nat)
    requires n <= |text| && AllSpace(text[n..])
    ensures forall i :: n <= i < |text| ==> IsSpace(text[i])
  {
    forall i | n <= i < |text|
      ensures IsSpace(text[i])
    {
      assert text[n..][i - n] == text[i];
    }
  }

  /** Where white space ends and begins again, text without white space at its ends is found only once. */
  lemma CutsMeet(text: Bytes, first: nat, end: nat, from: nat, upto: nat)
    requires first < end <= |text| && !IsSpace(text[first]) && !IsSpace(text[end - 1])
    requires AllSpace(text[..first]) && AllSpace(text[end..])
    requires from <= upto <= |text| && AllSpace(text[..from]) && AllSpace(text[upto..]) && Trimmed(text[from..upto])
    ensures from == first && upto == end
  {
    SpaceBefore(text, first);
    SpaceBefore(text, from);
    SpaceAfter(text, end);
    SpaceAfter(text, upto);
    assert from <= first && end <= upto;
    assert text[from..upto][0] == text[from] && text[from..upto][upto - from - 1] == text[upto - 1];
  }

  lemma Slices(before: Bytes, core: Bytes, after: Bytes)
    ensures var text, first, end := before + core + after, |before|, |before| + |core|;
            && text[..first] == before && text[first..end] == core && text[end..] == after
            && (core != [] ==> text[first] == core[0] && text[end - 1] == core[|core| - 1])
  {}

  /** Trimming finds the one core without white space at its ends. */
  lemma TrimFinds(text: Bytes, core: Bytes)
    requires Around(text, core) && Trimmed(core)
    ensures Trim(text) == core
  {
    var before, after :| AllSpace(before) && AllSpace(after) && text == before + core + after;
    var from, upto := TrimIs(text);
    var first, end := |before|, |before| + |core|;
    Slices(before, core, after);
    if core != [] {
      CutsMeet(text, first, end, from, upto);
    } else {
      SpaceBefore(text, first);
      SpaceAfter(text, end);
      NothingButSpace(text, from, upto);
    }
  }

  lemma NothingButSpace(text: Bytes, from: nat, upto: nat)
    requires from <= upto <= |text| && Trimmed(text[from..upto]) && forall i :: 0 <= i < |text| ==> IsSpace(text[i])
    ensures text[from..upto] == []
  {
    var middle := text[from..upto];
  }

  // ------------------------------------------------------------------ splitting

  ghost predicate NoSeparator(word: Bytes) {
    forall i :: 0 <= i < |word| ==> !IsSeparator(word[i])
  }

  /** `head`, a separator, more white space, `tail`. */
  ghost predicate Joined(text: Bytes, head: Bytes, tail: Bytes) {
    exists separator: Byte, space :: IsSeparator(separator) && AllSpace(space) && text == head + [separator] + space + tail
  }

  /** The two parts of trimmed text: a first word, and what follows it if anything does. */
  ghost predicate Parts(core: Bytes, head: Bytes, tail: Bytes) {
    && NoSeparator(head) && Trimmed(tail)
    && (if tail == [] then core == head else Joined(core, head, tail))
  }

  /** After a separator inside trimmed text there is more text, up to the end. */
  lemma RestIsText(t: Bytes, k: nat, from: nat, upto: nat)
    requires Trimmed(t) && k < |t| && IsSeparator(t[k])
    requires var rest := t[k + 1..]; from <= upto <= |rest| && AllSpace(rest[..from]) && AllSpace(rest[upto..])
    ensures from < upto == |t[k + 1..]|
  {
    var rest := t[k + 1..];
    assert k < |t| - 1;
    assert t[|t| - 1] == rest[|rest| - 1];
    SpaceBefore(rest, from);
    SpaceAfter(rest, upto);
  }

  lemma SplitHasParts(text: Bytes)
    ensures var (head, tail) := SplitOnce(text); Parts(Trim(text), head, tail)
  {
    var t := Trim(text);
    var k := FindSeparator(t);
    TrimIsAround(text);
    if k < |t| {
      var rest := t[k + 1..];
      var from, upto := TrimIs(rest);
      RestIsText(t, k, from, upto);
      assert t == t[..k] + [t[k]] + rest[..from] + Trim(rest);
    }
  }

  lemma JoinedSplits(core: Bytes, head: Bytes, separator: Byte, space: Bytes, tail: Bytes)
    requires IsSeparator(separator) && AllSpace(space) && core == head + [separator] + space + tail
    requires NoSeparator(head) && Trimmed(tail)
    ensures FindSeparator(core) == |head| && core[..|head|] == head && Trim(core[|head| + 1..]) == tail
  {
    assert core[|head|] == separator;
    assert forall i :: 0 <= i < |head| ==> core[i] == head[i];
    var rest := core[|head| + 1..];
    assert rest == space + tail + [] && AllSpace([]);
    TrimFinds(rest, tail);
  }

  lemma PartsAreSplit(text: Bytes, core: Bytes, head: Bytes, tail: Bytes)
    requires Around(text, core) && Trimmed(core) && Parts(core, head, tail)
    ensures SplitOnce(text) == (head, tail)
  {
    TrimFinds(text, core);
    if tail != [] {
      var separator: Byte, space :| IsSeparator(separator) && AllSpace(space) && core == head + [separator] + space + tail;
      JoinedSplits(core, head, separator, space, tail);
    }
  }

  // -------------------------------------------------------------------- requests

  /** White space and separators, as characters. */
  lemma ByteClasses(b: Byte)
    ensures IsSeparator(b) <==> b in Text(" \t\r\n")
    ensures IsSpace(b) <==> b in Text(" \t\r\n") || b == 11 || b == 12
  {
    assert Text(" \t\r\n") == [32, 9, 13, 10];
  }

  /** A key: 1 to 128 ASCII letters, digits and `_-.:`. */
  ghost predicate SafeKey(key: Bytes) {
    && 1 <= |key| <= 128
    && forall i :: 0 <= i < |key| ==>
         || '0' as int <= key[i] <= '9' as int || 'A' as int <= key[i] <= 'Z' as int || 'a' as int <= key[i] <= 'z' as int
         || key[i] in Text("_-.:")
  }

  lemma KeyExactly(key: Bytes)
    ensures ValidKey(key) <==> SafeKey(key)
  {
    assert Text("_-.:") == [95, 45, 46, 58];
  }

  /** The text of a command: its verb, and its arguments where it has some. */
  ghost predicate Form(c: Command, core: Bytes) {
    match c
    case Ping => core == Text("PING")
    case Stats => core == Text("STATS")
    case Get(key) => SafeKey(key) && Joined(core, Text("GET"), key)
    case Del(key) => SafeKey(key) && Joined(core, Text("DEL"), key)
    case Set(key, value) =>
      && SafeKey(key) && value != [] && Trimmed(value)
      && exists arguments :: Joined(core, Text("SET"), arguments) && Joined(arguments, key, value)
  }

  /** The payload asks for `c`. */
  ghost predicate Says(payload: Bytes, c: Command) {
    !HasByte(payload, 0) && exists core :: Around(payload, core) && Form(c, core)
  }

  lemma Spelling()
    ensures PING == Text("PING") && STATS == Text("STATS")
    ensures GET == Text("GET") && DEL == Text("DEL") && SET == Text("SET")
  {}

  /** The records of the log are requests too, with single blanks. */
  lemma RecordText(key: Bytes, value: Bytes)
    ensures Record(Set(key, value)) == Text("SET ") + key + Text(" ") + value
    ensures Record(Del(key)) == Text("DEL ") + key
  {
    assert Text("SET ") == SET + [SPACE] && Text("DEL ") == DEL + [SPACE] && Text(" ") == [SPACE];
  }

  lemma JoinedIsTrimmed(core: Bytes, head: Bytes, tail: Bytes)
    requires Joined(core, head, tail) && head != [] && !IsSpace(head[0]) && tail != [] && Trimmed(tail)
    ensures Trimmed(core) && core != []
  {
    var separator: Byte, space :| IsSeparator(separator) && AllSpace(space) && core == head + [separator] + space + tail;
    assert core[0] == head[0] && core[|core| - 1] == tail[|tail| - 1];
  }

  /** A request for `c` splits as the parser expects. */
  lemma KeyRequestSplits(payload: Bytes, core: Bytes, verb: Bytes, key: Bytes)
    requires Around(payload, core) && ValidKey(key) && Joined(core, verb, key)
    requires verb != [] && !IsSpace(verb[0]) && NoSeparator(verb)
    ensures SplitOnce(payload) == (verb, key) && SplitOnce(key) == (key, [])
  {
    KeyIsOneWord(key);
    JoinedIsTrimmed(core, verb, key);
    PartsAreSplit(payload, core, verb, key);
    SplitAlone(key);
  }

  lemma SetRequestSplits(payload: Bytes, core: Bytes, arguments: Bytes, key: Bytes, value: Bytes)
    requires Around(payload, core) && ValidKey(key) && value != [] && Trimmed(value)
    requires Joined(core, SET, arguments) && Joined(arguments, key, value)
    ensures SplitOnce(payload) == (SET, arguments) && SplitOnce(arguments) == (key, value)
  {
    KeyIsOneWord(key);
    JoinedIsTrimmed(arguments, key, value);
    JoinedIsTrimmed(core, SET, arguments);
    PartsAreSplit(payload, core, SET, arguments);
    assert arguments == [] + arguments + [] && AllSpace([]);
    PartsAreSplit(arguments, arguments, key, value);
  }

  lemma WordSplits(payload: Bytes, word: Bytes)
    requires Around(payload, word) && word != [] && Trimmed(word) && NoSeparator(word)
    ensures SplitOnce(payload) == (word, [])
  {
    PartsAreSplit(payload, word, word, []);
  }

  lemma ParsesAsKey(payload: Bytes, verb: Bytes, key: Bytes)
    requires !HasByte(payload, 0) && SplitOnce(payload) == (verb, key) && SplitOnce(key) == (key, []) && ValidKey(key)
    ensures verb == GET ==> ParseCommand(payload) == Parsed(Get(key))
    ensures verb == DEL ==> ParseCommand(payload) == Parsed(Del(key))
  {}

  lemma ParsesAsWord(payload: Bytes, word: Bytes)
    requires !HasByte(payload, 0) && SplitOnce(payload) == (word, [])
    ensures word == PING ==> ParseCommand(payload) == Parsed(Ping)
    ensures word == STATS ==> ParseCommand(payload) == Parsed(Stats)
  {}

  lemma CoreParses(payload: Bytes, core: Bytes, c: Command)
    requires !HasByte(payload, 0) && Around(payload, core) && Form(c, core)
    ensures ParseCommand(payload) == Parsed(c)
  {
    Spelling();
    if c.Get? || c.Del? || c.Set? {
      KeyExactly(c.key);
    }
    match c
    case Ping =>
      WordSplits(payload, PING);
      ParsesAsWord(payload, PING);
    case Stats =>
      WordSplits(payload, STATS);
      ParsesAsWord(payload, STATS);
    case Get(key) =>
      KeyRequestSplits(payload, core, GET, key);
      ParsesAsKey(payload, GET, key);
    case Del(key) =>
      KeyRequestSplits(payload, core, DEL, key);
      ParsesAsKey(payload, DEL, key);
    case Set(key, value) =>
      var arguments :| Joined(core, SET, arguments) && Joined(arguments, key, value);
      SetRequestSplits(payload, core, arguments, key, value);
      ParsesAsSet(payload, arguments, key, value);
  }

  lemma RequestParses(payload: Bytes, c: Command)
    requires Says(payload, c)
    ensures ParseCommand(payload) == Parsed(c)
  {
    var core :| Around(payload, core) && Form(c, core);
    CoreParses(payload, core, c);
  }

  lemma ArgumentsStay(payload: Bytes)
    ensures var (verb, arguments) := SplitOnce(payload); Trim(arguments) == arguments && Parts(Trim(payload), verb, arguments)
  {
    SplitHasParts(payload);
    TrimmedStays(SplitOnce(payload).1);
  }

  lemma ParsedForm(payload: Bytes, core: Bytes, verb: Bytes, arguments: Bytes, key: Bytes, rest: Bytes, c: Command)
    requires ParseCommand(payload) == Parsed(c) && SplitOnce(payload) == (verb, arguments) && SplitOnce(arguments) == (key, rest)
    requires Parts(core, verb, arguments) && Parts(arguments, key, rest)
    ensures Form(c, core)
  {
    Spelling();
    KeyExactly(key);
  }

  lemma ParsedIsRequest(payload: Bytes, c: Command)
    requires ParseCommand(payload) == Parsed(c)
    ensures Says(payload, c)
  {
    var (verb, arguments) := SplitOnce(payload);
    var (key, rest) := SplitOnce(arguments);
    TrimIsAround(payload);
    ArgumentsStay(payload);
    SplitHasParts(arguments);
    ParsedForm(payload, Trim(payload), verb, arguments, key, rest, c);
    assert !HasByte(payload, 0);
  }

  /** The parser accepts exactly the requests of the grammar, each as the one command it says. */
  lemma ParsesExactly(payload: Bytes, c: Command)
    ensures ParseCommand(payload) == Parsed(c) <==> Says(payload, c)
  {
    if Says(payload, c) {
      RequestParses(payload, c);
    }
    if ParseCommand(payload) == Parsed(c) {
      ParsedIsRequest(payload, c);
    }
  }

  // ---------------------------------------------------------------------- errors

  /** The first word of the payload is `verb`. */
  ghost predicate StartsWith(payload: Bytes, verb: Bytes) {
    exists core, arguments :: Around(payload, core) && Trimmed(core) && Parts(core, verb, arguments)
  }

  lemma VerbExactly(payload: Bytes, verb: Bytes)
    ensures SplitOnce(payload).0 == verb <==> StartsWith(payload, verb)
  {
    TrimIsAround(payload);
    SplitHasParts(payload);
    if StartsWith(payload, verb) {
      var core, arguments :| Around(payload, core) && Trimmed(core) && Parts(core, verb, arguments);
      PartsAreSplit(payload, core, verb, arguments);
    }
  }

  /** Everything that is no request gets the message for its zero byte or else for its verb. */
  lemma ErrorsExactly(payload: Bytes)
    ensures ParseCommand(payload).Parsed? <==> exists c :: Says(payload, c)
    ensures ParseCommand(payload).ParseError? ==>
              ParseCommand(payload).message ==
              if HasByte(payload, 0) then "NUL bytes are not valid command text"
              else if StartsWith(payload, Text("GET")) || StartsWith(payload, Text("DEL")) then "GET/DEL requires exactly one safe key"
              else if StartsWith(payload, Text("SET")) then "SET requires a safe key and a non-empty value"
              else "unknown or malformed command"
  {
    forall c
      ensures ParseCommand(payload) == Parsed(c) <==> Says(payload, c)
    {
      ParsesExactly(payload, c);
    }
    Spelling();
    VerbExactly(payload, GET);
    VerbExactly(payload, DEL);
    VerbExactly(payload, SET);
  }
}
