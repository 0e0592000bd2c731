/** Both clients on the bytes of a response: their read loops, their size limits, and what each makes of the line. */
module ResponseWire {

  import opened Results
  import opened JsonText
  import opened JsonStrings
  import opened JsonParse
  import opened HookOutput
  import opened NativeScanner
  import opened NativeClient
  import opened NativeRefinement

  // ---- the line -----------------------------------------------------------------------------

  function LineEnd(buffer: string, k: nat): (n: nat)
    requires k <= |buffer|
    ensures k <= n <= |buffer|
    decreases |buffer| - k
  {
    if k < |buffer| && buffer[k] != '\n' && buffer[k] != '\r' then LineEnd(buffer, k + 1) else k
  }

  /** The loop that cuts the response at its first line break. */
  method CutLine(buffer: string) returns (line: string)
    ensures line == buffer[..LineEnd(buffer, 0)]
    ensures line <= buffer && '\n' !in line && '\r' !in line
    ensures |line| < |buffer| ==> buffer[|line|] == '\n' || buffer[|line|] == '\r'
  {
    var k := 0;
    while k < |buffer| && buffer[k] != '\n' && buffer[k] != '\r'
      invariant k <= |buffer| && LineEnd(buffer, k) == LineEnd(buffer, 0)
      invariant forall i :: 0 <= i < k ==> buffer[i] != '\n' && buffer[i] != '\r'
    {
      k := k + 1;
    }
    line := buffer[..k];
  }

  lemma {:induction false} LineEndAt(buffer: string, k: nat, n: nat)
    requires k <= n <= |buffer| && (forall i :: k <= i < n ==> buffer[i] != '\n' && buffer[i] != '\r')
    requires n == |buffer| || buffer[n] == '\n'
    ensures LineEnd(buffer, k) == n
    decreases n - k
  {
    if k < n { LineEndAt(buffer, k + 1, n); }
  }

  function FirstLine(buffer: string): string {
    buffer[..LineEnd(buffer, 0)]
  }

  /** What the daemon writes for a response. */
  function Wire(v: Json): string {
    Serialize(v) + ['\n']
  }

  /** The first line of the part of a response that arrived. */
  lemma LineOfPart(v: Json, n: nat)
    requires WellFormed(v) && n <= |Wire(v)|
    ensures FirstLine(Wire(v)[..n]) == if n < |Serialize(v)| then Serialize(v)[..n] else Serialize(v)
  {
    var s := Serialize(v);
    var buffer := Wire(v)[..n];
    SerializePrintable(v);
    forall i | 0 <= i < |buffer| && i < |s| ensures buffer[i] == s[i] {}
    var end := if n <= |s| then n else |s|;
    LineEndAt(buffer, 0, end);
    assert buffer[..end] == s[..end];
  }

  // ---- the native client -----------------------------------------------------------------------

  const MAX_RESPONSE_BYTES := 1_048_576

  /** Where the native read loop stops: at the end of what the peer sends, at a newline, or when the buffer is full. */
  predicate Received(sent: string, n: nat) {
    && n <= |sent| && n <= MAX_RESPONSE_BYTES
    && (n == |sent| || n == MAX_RESPONSE_BYTES || '\n' in sent[..n])
  }

  /** The native read loop on what the peer sends before it closes; `amount` says how much each read delivers. */
  method ReadResponse(sent: string, amount: nat -> nat) returns (n: nat)
    ensures Received(sent, n)
  {
    n := 0;
    while n < MAX_RESPONSE_BYTES && n < |sent|
      invariant n <= |sent| && n <= MAX_RESPONSE_BYTES
    {
      var room := if MAX_RESPONSE_BYTES < |sent| then MAX_RESPONSE_BYTES - n else |sent| - n;
      var k := if 1 <= amount(n) <= room then amount(n) else room;
      n := n + k;
      if '\n' in sent[..n] { return; }
    }
  }

  /** The native client on what arrived. */
  function NativeOutput(received: string): Result<string, ExitCode> {
    Decide(FirstLine(received))
  }

  // ---- the Python client -----------------------------------------------------------------------

  const MAX_BYTES := 1_000_000
  const CHUNK: nat := 8192

  /** How `_read_json_line` stops: it raises on the first chunk past the limit, and otherwise stops at a newline or the end. */
  predicate ReadUpTo(sent: string, n: nat, raised: bool) {
    && n <= |sent| && (raised <==> n > MAX_BYTES)
    && (raised || n == |sent| || '\n' in sent[..n])
  }

  /** The loop of `_read_json_line` on what the peer sends before it closes. */
  method ReadJsonLine(sent: string, amount: nat -> nat) returns (n: nat, raised: bool)
    ensures ReadUpTo(sent, n, raised)
  {
    n, raised := 0, false;
    while n < |sent|
      invariant n <= |sent| && n <= MAX_BYTES
    {
      var room := if CHUNK < |sent| - n then CHUNK else |sent| - n;
      var k := if 1 <= amount(n) <= room then amount(n) else room;
      var before := n;
      n := n + k;
      if n > MAX_BYTES { return n, true; }
      if '\n' in sent[before..n] {
        assert forall c :: c in sent[before..n] ==> c in sent[..n];
        return;
      }
    }
  }

  /** `_read_json_line` and the extractor, on the part of the response that was read; None where the client falls back. */
  function PythonOutput(received: string, raised: bool): Option<Json> {
    if raised || FirstLine(received) == "" then None
    else match Parse(FirstLine(received))
         case None => None
         case Some(v) => if v.Obj? then ExtractOutput(v) else None
  }

  // ---- what parsing keeps ------------------------------------------------------------------------

  lemma {:induction false} MergedPlain(cs: seq<Code>, key: string)
    requires Plain(key)
    ensures Merged(cs) == Codes(key) <==> cs == Codes(key)
    decreases |cs|
  {
    if cs == [] {
      assert |Codes(key)| == |key|;
    } else if key != "" {
      var codes := Codes(key);
      assert codes[0] == key[0] as int && PlainCode(codes[0]) && codes == [codes[0]] + codes[1..];
      assert Plain(key[1..]) && codes[1..] == Codes(key[1..]);
      assert cs == [cs[0]] + cs[1..];
      if !(|cs| >= 2 && High(cs[0]) && Low(cs[1])) {
        MergedPlain(cs[1..], key[1..]);
        assert Merged(cs)[0] == cs[0] && Merged(cs)[1..] == Merged(cs[1..]);
      } else {
        assert Merged(cs)[0] >= 0x1_0000;
      }
    }
  }

  function ReadIfAny(v: Option<Json>): Option<Json> {
    if v.Some? then Some(Read(v.value)) else None
  }

  lemma {:induction false} GetRead(ms: seq<Member>, key: string)
    requires Plain(key)
    ensures Get(ReadMembers(ms), Codes(key)) == ReadIfAny(Get(ms, Codes(key)))
    decreases |ms|
  {
    hide Merged, Read;
    if ms != [] {
      MergedPlain(ms[0].key, key);
      GetRead(ms[1..], key);
      assert ReadMembers(ms)[0] == ReadMember(ms[0]) && ReadMembers(ms)[1..] == ReadMembers(ms[1..]);
    }
  }

  lemma ReadKind(v: Json)
    ensures Read(v).Obj? == v.Obj? && Read(v).Str? == v.Str? && Read(v).Bool? == v.Bool?
    ensures forall b :: Read(v) == Bool(b) <==> v == Bool(b)
    ensures v.Obj? ==> Read(v).members == ReadMembers(v.members)
  {
  }

  lemma ReadEvent(v: Json)
    ensures Read(v) == Str(PRE_TOOL_USE) <==> v == Str(PRE_TOOL_USE)
  {
    KeyPlain();
    if v.Str? { MergedPlain(v.chars, "PreToolUse"); }
  }

  /** Validity is a matter of plain keys, Booleans and one plain string, all of which parsing keeps. */
  lemma ValidRead(v: Json)
    ensures IsValidOutput(Read(v)) <==> IsValidOutput(v)
  {
    hide Read, Get;
    KeyPlain();
    ReadKind(v);
    if v.Obj? {
      GetRead(v.members, "continue");
      GetRead(v.members, "hookSpecificOutput");
      var cont, hook := Get(v.members, CONTINUE), Get(v.members, HOOK_SPECIFIC);
      if cont.Some? { ReadKind(cont.value); }
      if hook.Some? {
        ReadKind(hook.value);
        if hook.value.Obj? {
          var ms := hook.value.members;
          GetRead(ms, "hookEventName");
          GetRead(ms, "permissionDecision");
          if Get(ms, HOOK_EVENT).Some? { ReadEvent(Get(ms, HOOK_EVENT).value); }
          if Get(ms, PERMISSION).Some? { ReadKind(Get(ms, PERMISSION).value); }
        }
      }
    }
  }

  lemma ExtractRead(v: Json)
    ensures ExtractOutput(Read(v)) == ReadIfAny(ExtractOutput(v))
  {
    hide Read, Get, IsValidOutput;
    KeyPlain();
    ReadKind(v);
    if v.Obj? {
      GetRead(v.members, "ok");
      GetRead(v.members, "output");
      if Get(v.members, OK_KEY).Some? { ReadKind(Get(v.members, OK_KEY).value); }
    }
    var body := EnvelopeBody(v);
    if body.Some? { ValidRead(body.value); }
  }

  // ---- end to end ----------------------------------------------------------------------------------

  lemma NativeIff(v: Json, n: nat)
    requires WellFormed(v) && n <= |Wire(v)|
    ensures var native, output := NativeOutput(Wire(v)[..n]), ExtractOutput(v);
            && (native.Ok? <==> |Serialize(v)| <= n && output.Some? && ContinueAbsentOrBoolean(output.value))
            && (native.Ok? ==> native.value == Serialize(output.value))
  {
    hide Decide, ExtractOutput, ContinueAbsentOrBoolean, Serialize, FirstLine, WellFormed, Wire;
    LineOfPart(v, n);
    NativeDecidesAsPython(v);
    if n < |Serialize(v)| { TruncatedRejected(v, Serialize(v)[..n]); }
  }

  lemma PythonPart(v: Json, n: nat)
    requires WellFormed(v) && n < |Serialize(v)|
    ensures var line := Serialize(v)[..n]; Parse(line).None? || !Parse(line).value.Obj?
  {
    hide Parse, WellFormed, ParseValue, Ws;
    var s := Serialize(v);
    var line := s[..n];
    Starts(v);
    if v.Obj? {
      TruncatedNotParsed(v, line);
    } else {
      assert line != "" ==> line[0] == s[0];
      WsStays(line);
      ObjectsOnly(v);
      ObjectsBegin(line);
    }
  }

  lemma ObjectsOnly(v: Json)
    requires WellFormed(v) && !v.Obj?
    ensures Serialize(v) != "" && Serialize(v)[0] != '{'
  {
  }

  lemma PythonIff(v: Json, n: nat, raised: bool)
    requires WellFormed(v) && n <= |Wire(v)|
    ensures PythonOutput(Wire(v)[..n], raised)
            == if |Serialize(v)| <= n && !raised then ReadIfAny(ExtractOutput(v)) else None
  {
    hide ExtractOutput, Parse, Read, Serialize, FirstLine, WellFormed, Wire;
    LineOfPart(v, n);
    Starts(v);
    if n < |Serialize(v)| {
      PythonPart(v, n);
    } else {
      ParseOfSerialize(v);
      ReadKind(v);
      ExtractRead(v);
      if !v.Obj? { NoExtract(v); }
    }
  }

  lemma NoExtract(v: Json)
    requires !v.Obj?
    ensures ExtractOutput(v) == None
  {
  }

  lemma OutputWellFormed(v: Json)
    requires WellFormed(v) && ExtractOutput(v).Some?
    ensures WellFormed(ExtractOutput(v).value)
  {
    hide IsValidOutput;
    if v.Obj? { GetWellFormed(v.members, OUTPUT); }
  }

  lemma StoppedAtEnd(v: Json, sent: string, n: nat)
    requires WellFormed(v) && sent <= Wire(v) && n <= |sent| && '\n' in sent[..n]
    ensures n == |sent| == |Wire(v)|
  {
    SerializePrintable(v);
    assert forall j :: 0 <= j < |Serialize(v)| ==> Wire(v)[j] == Serialize(v)[j] && Wire(v)[j] != '\n';
    var i :| 0 <= i < n && sent[..n][i] == '\n';
    assert Wire(v)[i] == '\n';
  }

  /**
   End to end, from the bytes that the daemon got out before the connection ended: the native client
   accepts exactly if the whole text arrived within its buffer, the response carries a valid output and
   that output's `continue` is absent or Boolean; the Python client accepts exactly if the whole text
   arrived, no more than its own limit did, and the response carries a valid output; and where both
   accept, what the native client emits parses to the object that the Python client returns.
   */
  lemma ClientsOnTheWire(v: Json, sent: string, n: nat, m: nat, raised: bool)
    requires WellFormed(v) && sent <= Wire(v) && Received(sent, n) && ReadUpTo(sent, m, raised)
    ensures var native, python, output := NativeOutput(sent[..n]), PythonOutput(sent[..m], raised), ExtractOutput(v);
            && (native.Ok? <==> output.Some? && ContinueAbsentOrBoolean(output.value)
                                && |Serialize(v)| <= |sent| && |Serialize(v)| <= MAX_RESPONSE_BYTES)
            && (python.Some? <==> output.Some? && |Serialize(v)| <= |sent| && |sent| <= MAX_BYTES)
            && (native.Ok? && python.Some? ==> Parse(native.value) == python)
  {
    hide ExtractOutput, ContinueAbsentOrBoolean, Serialize, Parse, Read, NativeOutput, PythonOutput, WellFormed;
    assert sent[..n] == Wire(v)[..n] && sent[..m] == Wire(v)[..m];
    NativeIff(v, n);
    PythonIff(v, m, raised);
    if '\n' in sent[..n] { StoppedAtEnd(v, sent, n); }
    if '\n' in sent[..m] { StoppedAtEnd(v, sent, m); }
    if ExtractOutput(v).Some? {
      OutputWellFormed(v);
      ParseOfSerialize(ExtractOutput(v).value);
    }
  }

  /** On a whole response, the two clients part exactly at a `continue` that is not a Boolean, and between their limits. */
  lemma ClientsPartIff(v: Json, n: nat, m: nat, raised: bool)
    requires WellFormed(v) && Received(Wire(v), n) && ReadUpTo(Wire(v), m, raised)
    ensures var native, python, output := NativeOutput(Wire(v)[..n]), PythonOutput(Wire(v)[..m], raised), ExtractOutput(v);
            && (native.Ok? && python.None? <==>
                  && output.Some? && ContinueAbsentOrBoolean(output.value)
                  && MAX_BYTES <= |Serialize(v)| <= MAX_RESPONSE_BYTES)
            && (python.Some? && native.Err? <==>
                  output.Some? && !ContinueAbsentOrBoolean(output.value) && |Serialize(v)| < MAX_BYTES)
  {
    hide ExtractOutput, ContinueAbsentOrBoolean, Serialize, Parse, NativeOutput, PythonOutput, WellFormed, Received, ReadUpTo;
    ClientsOnTheWire(v, Wire(v), n, m, raised);
  }

  // ---- a response between the limits ----------------------------------------------------------------

  const LETTER: Code := 'a' as int
  const PAD := Codes("pad")

  /** `continue` and a string of the given length. */
  function Padded(k: nat): Json {
    Obj([Member(CONTINUE, Bool(true)), Member(PAD, Str(seq(k, _ => LETTER)))])
  }

  lemma {:induction false} EscapedLetters(cs: seq<Code>)
    requires forall i :: 0 <= i < |cs| ==> PlainCode(cs[i])
    ensures |Escaped(cs)| == |cs|
  {
    hide EscapeCode;
    if cs != [] {
      EscapeCodeStarts(cs[0]);
      EscapedLetters(cs[1..]);
    }
  }

  lemma PaddedLength(k: nat)
    ensures |Serialize(Padded(k))| == k + 26
  {
    hide Escaped;
    var letters := seq(k, _ => LETTER);
    EscapedLetters(letters);
    assert forall i :: 0 <= i < |CONTINUE| ==> CONTINUE[i] == "continue"[i] as int;
    assert forall i :: 0 <= i < |PAD| ==> PAD[i] == "pad"[i] as int;
    EscapedLetters(CONTINUE);
    EscapedLetters(PAD);
    var ms := Padded(k).members;
    assert ms[1..] == [ms[1]] && |MemberText(ms[0])| == 15 && |MemberText(ms[1])| == k + 6 + 2;
    assert MembersText(ms) == MemberText(ms[0]) + ([','] + MemberText(ms[1]));
  }

  /** For every size between the limits there is a response that the native client emits and the Python client refuses. */
  lemma BetweenTheLimits(size: nat, n: nat, m: nat, raised: bool)
    requires MAX_BYTES <= size <= MAX_RESPONSE_BYTES
    requires Received(Wire(Padded(size - 26)), n) && ReadUpTo(Wire(Padded(size - 26)), m, raised)
    ensures var wire := Wire(Padded(size - 26)); NativeOutput(wire[..n]).Ok? && PythonOutput(wire[..m], raised).None?
  {
    hide Serialize, NativeOutput, PythonOutput, Received, ReadUpTo, Padded;
    var v := Padded(size - 26);
    PaddedLength(size - 26);
    PaddedValid(size - 26);
    ClientsPartIff(v, n, m, raised);
  }

  lemma PaddedValid(k: nat)
    ensures WellFormed(Padded(k)) && ExtractOutput(Padded(k)) == Some(Padded(k)) && ContinueAbsentOrBoolean(Padded(k))
  {
    var v := Padded(k);
    assert CONTINUE[0] == 'c' as int && PAD[0] == 'p' as int && OK_KEY[0] == 'o' as int;
    GetPair(v.members[0], v.members[1], CONTINUE);
    GetPair(v.members[0], v.members[1], OK_KEY);
    assert WellFormed(v.members[0].value) && WellFormed(v.members[1].value);
  }
}
