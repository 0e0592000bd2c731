/**
 The native client's decision on a response line: which exit code it returns, or which
 text it emits. Each C function is a method with the C loop; its contract is the
 corresponding function of `NativeScanner` or of this module.
 */
module NativeClient {

  import opened Results
  import opened JsonText
  import opened NativeScanner

  /** `strncmp` against a literal, then a character that may follow a Boolean. */
  predicate TokenMatchesBool(s: string, p: nat, token: string)
    requires p <= |s|
  {
    p + |token| <= |s| && s[p..p + |token|] == token &&
    (var next := At(s, p + |token|); next == NUL || next == ',' || next == '}' || IsSpace(next))
  }

  /** The text is blank, then one bracketed object, then blank to its end. */
  function WholeObject(s: string): (r: Option<nat>)
    ensures r.Some? ==> r.value < |s|
  {
    var root := SkipWs(s, 0);
    if At(s, root) != '{' then None else
    match MatchBracket(s, root, '{', '}')
    case None => None
    case Some(rootEnd) => if At(s, SkipWs(s, rootEnd)) != NUL then None else Some(root)
  }

  predicate ValidHookObject(s: string, hook: nat)
    requires hook < |s|
  {
    s[hook] == '{' &&
    match FindKey(s, hook, "hookEventName")
    case None => false
    case Some((eventStart, eventEnd)) =>
      s[eventStart..eventEnd] == "\"PreToolUse\"" &&
      match FindKey(s, hook, "permissionDecision")
      case None => true
      case Some((start, end)) => s[start] == '"' && ParseString(s, start) == Some(end)
  }

  predicate ValidHookText(s: string) {
    match WholeObject(s)
    case None => false
    case Some(root) =>
      match FindKey(s, root, "continue")
      case Some((start, _)) => TokenMatchesBool(s, start, "true") || TokenMatchesBool(s, start, "false")
      case None =>
        match FindKey(s, root, "hookSpecificOutput")
        case None => false
        case Some((start, _)) => ValidHookObject(s, start)
  }

  type ExitCode = int

  function EnvelopeSpan(s: string): (r: Result<(nat, nat), ExitCode>)
    ensures r.Ok? ==> r.value.0 <= r.value.1 <= |s|
  {
    var root := SkipWs(s, 0);
    if At(s, root) != '{' then Err(13) else
    match WholeObject(s)
    case None => Err(16)
    case Some(_) =>
      match FindKey(s, root, "ok")
      case None => Err(14)
      case Some((okStart, _)) =>
        if !TokenMatchesBool(s, okStart, "true") then Err(17) else
        match FindKey(s, root, "output")
        case None => Err(14)
        case Some((start, end)) => if s[start] != '{' then Err(15) else Ok((start, end))
  }

  /** What `main` does with the response line: an exit code, or the text it emits. */
  function Decide(line: string): Result<string, ExitCode> {
    var root := SkipWs(line, 0);
    if line == "" || At(line, root) != '{' then Err(13) else
    match WholeObject(line)
    case None => Err(16)
    case Some(_) =>
      var span: Result<(nat, nat), ExitCode> :=
        match FindKey(line, root, "ok")
        case None => Ok((0, |line|))
        case Some((okStart, _)) =>
          if !TokenMatchesBool(line, okStart, "true") then Err(17) else EnvelopeSpan(line);
      match span
      case Err(code) => Err(code)
      case Ok((start, end)) =>
        var emit := line[start..end];
        if ValidHookText(emit) then Ok(emit) else Err(18)
  }

  // ---- the C functions -------------------------------------------------------

  method SkipWsC(s: string, start: nat) returns (p: nat)
    requires start <= |s|
    ensures p == SkipWs(s, start)
  {
    p := start;
    while At(s, p) != NUL && IsSpace(At(s, p))
      invariant start <= p <= |s| && SkipWs(s, p) == SkipWs(s, start)
      decreases |s| - p
    {
      p := p + 1;
    }
  }

  method ParseJsonString(s: string, start: nat) returns (found: bool, end: nat)
    requires start <= |s|
    ensures found == ParseString(s, start).Some?
    ensures found ==> end == ParseString(s, start).value
  {
    found, end := false, 0;
    if At(s, start) != '"' { return; }
    var p := start + 1;
    while At(s, p) != NUL
      invariant start < p <= |s| && StringClose(s, p) == StringClose(s, start + 1)
      decreases |s| - p
    {
      if s[p] == '\\' {
        p := p + 1;
        if At(s, p) == NUL { return; }
        p := p + 1;
      } else if s[p] == '"' {
        return true, p + 1;
      } else {
        p := p + 1;
      }
    }
  }

  method FindMatchingBracket(s: string, start: nat, open: char, close: char) returns (found: bool, end: nat)
    requires start <= |s|
    ensures found == MatchBracket(s, start, open, close).Some?
    ensures found ==> end == MatchBracket(s, start, open, close).value
  {
    found, end := false, 0;
    if At(s, start) != open { return; }
    var depth, inString, escaped := 0, false, false;
    var p := start;
    while At(s, p) != NUL
      invariant start <= p <= |s|
      invariant MatchFrom(s, p, depth, inString, escaped, open, close) == MatchFrom(s, start, 0, false, false, open, close)
      invariant escaped ==> inString
      decreases |s| - p
    {
      var c := s[p];
      p := p + 1;
      if inString {
        if escaped { escaped := false; continue; }
        if c == '\\' { escaped := true; continue; }
        if c == '"' { inString := false; }
        continue;
      }
      if c == '"' { inString := true; continue; }
      if c == open { depth := depth + 1; continue; }
      if c == close {
        depth := depth - 1;
        if depth == 0 { return true, p; }
      }
    }
  }

  method SkipJsonValue(s: string, start: nat) returns (found: bool, end: nat)
    requires start <= |s|
    ensures found == SkipValue(s, start).Some?
    ensures found ==> end == SkipValue(s, start).value
  {
    found, end := false, 0;
    if At(s, start) == NUL { return; }
    if s[start] == '"' { found, end := ParseJsonString(s, start); return; }
    if s[start] == '{' { found, end := FindMatchingBracket(s, start, '{', '}'); return; }
    if s[start] == '[' { found, end := FindMatchingBracket(s, start, '[', ']'); return; }
    var q := start;
    while At(s, q) != NUL && !IsSpace(s[q]) && s[q] != ',' && s[q] != '}' && s[q] != ']'
      invariant start <= q <= |s| && TokenEnd(s, q) == TokenEnd(s, start)
      decreases |s| - q
    {
      q := q + 1;
    }
    return q != start, q;
  }

  /** The first half of the member loop's body. */
  method ScanMember(s: string, start: nat, objectEnd: nat) returns (found: bool, m: Span)
    requires start <= |s|
    ensures found == MemberAt(s, start, objectEnd).Some?
    ensures found ==> m == MemberAt(s, start, objectEnd).value
  {
    found, m := false, Span(0, 0, 0, 0);
    var p := SkipWsC(s, start);
    if At(s, p) == NUL || p >= objectEnd || At(s, p) == '}' { return; }
    var isString, keyEnd := ParseJsonString(s, p);
    if !isString || keyEnd > objectEnd { return; }
    var colon := SkipWsC(s, keyEnd);
    if At(s, colon) != ':' { return; }
    var valueStart := SkipWsC(s, colon + 1);
    var skipped, valueEnd := SkipJsonValue(s, valueStart);
    if !skipped || valueEnd > objectEnd { return; }
    return true, Span(p, keyEnd, valueStart, valueEnd);
  }

  method FindObjectKeyValue(s: string, objectStart: nat, key: string) returns (found: bool, valueStart: nat, valueEnd: nat)
    requires objectStart <= |s|
    ensures found == FindKey(s, objectStart, key).Some?
    ensures found ==> (valueStart, valueEnd) == FindKey(s, objectStart, key).value
  {
    found, valueStart, valueEnd := false, 0, 0;
    var matched, objectEnd := FindMatchingBracket(s, objectStart, '{', '}');
    if !matched { return; }
    var p := objectStart + 1;
    while true
      invariant objectStart < p <= |s|
      invariant FindKeyFrom(s, p, objectEnd, key) == FindKeyFrom(s, objectStart + 1, objectEnd, key)
      decreases |s| - p
    {
      var scanned, m := ScanMember(s, p, objectEnd);
      if !scanned { return; }
      if KeyMatches(s, m.keyStart, m.keyEnd, key) { return true, m.valueStart, m.valueEnd; }
      p := SkipWsC(s, m.valueEnd);
      if At(s, p) != ',' { return; }
      p := p + 1;
    }
  }

  method WholeObjectC(s: string) returns (whole: bool, root: nat)
    ensures root == SkipWs(s, 0)
    ensures whole == WholeObject(s).Some?
  {
    root := SkipWsC(s, 0);
    var matched, rootEnd := FindMatchingBracket(s, root, '{', '}');
    if !matched { return false, root; }
    var rest := SkipWsC(s, rootEnd);
    whole := At(s, rest) == NUL;
  }

  method HasValidHookOutput(s: string) returns (valid: bool)
    ensures valid == ValidHookText(s)
  {
    valid := false;
    var whole, root := WholeObjectC(s);
    if !whole { return; }
    var found, start, end := FindObjectKeyValue(s, root, "continue");
    if found {
      return TokenMatchesBool(s, start, "true") || TokenMatchesBool(s, start, "false");
    }
    found, start, end := FindObjectKeyValue(s, root, "hookSpecificOutput");
    if !found || s[start] != '{' { return; }
    var hook := start;
    found, start, end := FindObjectKeyValue(s, hook, "hookEventName");
    if !found || s[start..end] != "\"PreToolUse\"" { return; }
    found, start, end := FindObjectKeyValue(s, hook, "permissionDecision");
    if !found { return true; }
    if s[start] != '"' { return; }
    var parsed, parsedEnd := ParseJsonString(s, start);
    return parsed && parsedEnd == end;
  }

  method ExtractEnvelopeOutput(s: string) returns (r: Result<(nat, nat), ExitCode>)
    ensures r == EnvelopeSpan(s)
  {
    var whole, root := WholeObjectC(s);
    if At(s, root) != '{' { return Err(13); }
    if !whole { return Err(16); }
    var found, start, end := FindObjectKeyValue(s, root, "ok");
    if !found { return Err(14); }
    if !TokenMatchesBool(s, start, "true") { return Err(17); }
    found, start, end := FindObjectKeyValue(s, root, "output");
    if !found { return Err(14); }
    if s[start] != '{' { return Err(15); }
    return Ok((start, end));
  }

  method RunNativeClient(line: string) returns (r: Result<string, ExitCode>)
    ensures r == Decide(line)
  {
    var whole, root := WholeObjectC(line);
    if line == "" || At(line, root) != '{' { return Err(13); }
    if !whole { return Err(16); }
    var emitStart, emitEnd := 0, |line|;
    var hasOk, start, end := FindObjectKeyValue(line, root, "ok");
    if hasOk {
      if !TokenMatchesBool(line, start, "true") { return Err(17); }
      var span := ExtractEnvelopeOutput(line);
      if span.Err? { return Err(span.error); }
      emitStart, emitEnd := span.value.0, span.value.1;
    }
    var emit := line[emitStart..emitEnd];
    var valid := HasValidHookOutput(emit);
    return if valid then Ok(emit) else Err(18);
  }
}
