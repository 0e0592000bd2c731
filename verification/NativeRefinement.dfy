/**
 The native client against the Python client, on everything the daemon can write:
 when the C scanner accepts the text, the Python test accepts the parsed value, and the
 emitted text is the output object's own text.
 */
module NativeRefinement {

  import opened Results
  import opened JsonText
  import opened NativeScanner
  import opened NativeClient
  import opened HookOutput

  lemma KeyPlain()
    ensures Plain("continue") && Plain("hookSpecificOutput") && Plain("hookEventName")
    ensures Plain("permissionDecision") && Plain("ok") && Plain("output") && Plain("PreToolUse")
  {
  }

  lemma {:induction false} GetWellFormed(ms: seq<Member>, key: seq<Code>)
    requires forall i :: 0 <= i < |ms| ==> WellFormed(ms[i].value)
    ensures Get(ms, key).Some? ==> WellFormed(Get(ms, key).value)
  {
    if ms != [] && ms[0].key != key { GetWellFormed(ms[1..], key); }
  }

  /** A written value reads as a Boolean token exactly if it is that Boolean. */
  lemma BoolTokenIff(s: string, p: nat, w: Json, b: bool)
    requires WellFormed(w) && HasAt(s, p, Serialize(w)) && p + |Serialize(w)| < |s|
    requires s[p + |Serialize(w)|] == ',' || s[p + |Serialize(w)|] == '}'
    ensures TokenMatchesBool(s, p, if b then "true" else "false") <==> w == Bool(b)
  {
    var token := if b then "true" else "false";
    FirstChar(w);
    HasAtDrop(s, p, Serialize(w), 0);
    if TokenMatchesBool(s, p, token) {
      assert s[p..p + |token|][0] == token[0];
    }
  }

  /** A written value is the literal `"PreToolUse"` exactly if it is that string. */
  lemma EventTextIff(w: Json)
    requires WellFormed(w)
    ensures Serialize(w) == "\"PreToolUse\"" <==> w == Str(PRE_TOOL_USE)
  {
    KeyPlain();
    FirstChar(w);
    if w.Str? {
      EscapedPlainIff(w.chars, "PreToolUse");
      assert Serialize(w)[1..|Serialize(w)| - 1] == Escaped(w.chars);
      assert "\"PreToolUse\""[1..11] == "PreToolUse";
      assert ['"'] + "PreToolUse" + ['"'] == "\"PreToolUse\"";
    }
  }

  lemma WholeObjectExact(o: Json)
    requires o.Obj? && WellFormed(o)
    ensures WholeObject(Serialize(o)) == Some(0) && SkipWs(Serialize(o), 0) == 0 && At(Serialize(o), 0) == '{'
  {
    var s := Serialize(o);
    assert s[0..|s|] == s;
    MatchBracketExact(s, 0, o);
  }

  lemma EventIff(s: string, hook: nat, ms: seq<Member>, r: Option<(nat, nat)>)
    requires WellFormed(Obj(ms)) && HasAt(s, hook, Serialize(Obj(ms)))
    requires r == FindKey(s, hook, "hookEventName")
    ensures (r.Some? && s[r.value.0..r.value.1] == "\"PreToolUse\"") <==> Get(ms, HOOK_EVENT) == Some(Str(PRE_TOOL_USE))
  {
    hide FindKey;
    KeyPlain();
    FindKeyExact(s, hook, "hookEventName", ms);
    GetWellFormed(ms, HOOK_EVENT);
    if Get(ms, HOOK_EVENT).Some? { EventTextIff(Get(ms, HOOK_EVENT).value); }
  }

  lemma PermissionIff(s: string, hook: nat, ms: seq<Member>, r: Option<(nat, nat)>)
    requires WellFormed(Obj(ms)) && HasAt(s, hook, Serialize(Obj(ms)))
    requires r == FindKey(s, hook, "permissionDecision")
    ensures (r.None? || (s[r.value.0] == '"' && ParseString(s, r.value.0) == Some(r.value.1)))
            <==> (Get(ms, PERMISSION).None? || Get(ms, PERMISSION).value.Str?)
  {
    hide FindKey;
    KeyPlain();
    FindKeyExact(s, hook, "permissionDecision", ms);
    GetWellFormed(ms, PERMISSION);
    if Get(ms, PERMISSION).Some? {
      var w := Get(ms, PERMISSION).value;
      FirstChar(w);
      HasAtDrop(s, r.value.0, Serialize(w), 0);
      if w.Str? { ParseStringExact(s, r.value.0, w.chars); }
    }
  }

  lemma HookObjectIff(s: string, hook: nat, w: Json)
    requires WellFormed(w) && HasAt(s, hook, Serialize(w)) && hook < |s|
    ensures ValidHookObject(s, hook) <==>
              && w.Obj? && Get(w.members, HOOK_EVENT) == Some(Str(PRE_TOOL_USE))
              && (Get(w.members, PERMISSION).None? || Get(w.members, PERMISSION).value.Str?)
  {
    hide FindKey, ParseString;
    FirstChar(w);
    HasAtDrop(s, hook, Serialize(w), 0);
    if w.Obj? {
      EventIff(s, hook, w.members, FindKey(s, hook, "hookEventName"));
      PermissionIff(s, hook, w.members, FindKey(s, hook, "permissionDecision"));
    }
  }

  /** The C test on an object's text, and the Python test on the object. */
  lemma ValidHookTextIff(o: Json)
    requires o.Obj? && WellFormed(o)
    ensures ValidHookText(Serialize(o)) <==> IsValidOutput(o) && ContinueAbsentOrBoolean(o)
  {
    hide FindKey, WholeObject, TokenMatchesBool, ValidHookObject;
    var s := Serialize(o);
    KeyPlain();
    WholeObjectExact(o);
    assert HasAt(s, 0, s) by { assert s[0..|s|] == s; }
    FindKeyExact(s, 0, "continue", o.members);
    FindKeyExact(s, 0, "hookSpecificOutput", o.members);
    GetWellFormed(o.members, CONTINUE);
    GetWellFormed(o.members, HOOK_SPECIFIC);
    var cont, hook := Get(o.members, CONTINUE), Get(o.members, HOOK_SPECIFIC);
    if cont.Some? {
      var (start, _) := FindKey(s, 0, "continue").value;
      BoolTokenIff(s, start, cont.value, true);
      BoolTokenIff(s, start, cont.value, false);
    } else if hook.Some? {
      HookObjectIff(s, FindKey(s, 0, "hookSpecificOutput").value.0, hook.value);
    }
  }

  /** What the envelope's two keys say, in the text and in the parsed response. */
  lemma EnvelopeExact(ms: seq<Member>)
    requires WellFormed(Obj(ms))
    ensures var s, ok, body := Serialize(Obj(ms)), Get(ms, OK_KEY), Get(ms, OUTPUT);
            && (FindKey(s, 0, "ok").Some? <==> ok.Some?)
            && (ok.Some? ==> (TokenMatchesBool(s, FindKey(s, 0, "ok").value.0, "true") <==> ok.value == Bool(true)))
            && (ok == Some(Bool(true)) ==>
                  match EnvelopeSpan(s)
                  case Err(_) => body.None? || !body.value.Obj?
                  case Ok((start, end)) => body.Some? && body.value.Obj? && s[start..end] == Serialize(body.value))
  {
    hide FindKey, WholeObject, TokenMatchesBool;
    var s := Serialize(Obj(ms));
    KeyPlain();
    WholeObjectExact(Obj(ms));
    assert HasAt(s, 0, s) by { assert s[0..|s|] == s; }
    FindKeyExact(s, 0, "ok", ms);
    FindKeyExact(s, 0, "output", ms);
    GetWellFormed(ms, OK_KEY);
    GetWellFormed(ms, OUTPUT);
    if Get(ms, OK_KEY).Some? {
      BoolTokenIff(s, FindKey(s, 0, "ok").value.0, Get(ms, OK_KEY).value, true);
    }
    if Get(ms, OUTPUT).Some? {
      var start := FindKey(s, 0, "output").value.0;
      FirstChar(Get(ms, OUTPUT).value);
      HasAtDrop(s, start, Serialize(Get(ms, OUTPUT).value), 0);
    }
  }

  /**
   On every response the daemon can write, the native client accepts exactly if the Python
   client does and the output's `continue` is absent or Boolean; it then emits the text of
   the very object the Python client returns.
   */
  lemma NativeDecidesAsPython(v: Json)
    requires WellFormed(v)
    ensures var native, python := Decide(Serialize(v)), ExtractOutput(v);
            && (native.Ok? <==> python.Some? && ContinueAbsentOrBoolean(python.value))
            && (native.Ok? ==> native.value == Serialize(python.value))
  {
    hide FindKey, WholeObject, TokenMatchesBool, EnvelopeSpan, ValidHookText, IsValidOutput;
    var s := Serialize(v);
    FirstChar(v);
    if v.Obj? {
      WholeObjectExact(v);
      EnvelopeExact(v.members);
      GetWellFormed(v.members, OUTPUT);
      assert s[0..|s|] == s;
      var body := EnvelopeBody(v);
      if body.Some? && body.value.Obj? {
        ValidHookTextIff(body.value);
      } else if body.Some? {
        NotAnObject(body.value);
      }
    } else {
      assert SkipWs(s, 0) == 0;
    }
  }

  lemma NotAnObject(o: Json)
    requires !o.Obj?
    ensures !IsValidOutput(o)
  {
  }

  // ---- texts cut short ---------------------------------------------------------

  predicate Printable(t: string) {
    forall i :: 0 <= i < |t| ==> ' ' <= t[i] <= '~'
  }

  lemma EscapeCodePrintable(c: Code)
    ensures Printable(EscapeCode(c))
  {
  }

  lemma {:induction false} EscapedPrintable(cs: seq<Code>)
    ensures Printable(Escaped(cs))
  {
    hide EscapeCode;
    if cs != [] {
      EscapeCodePrintable(cs[0]);
      EscapedPrintable(cs[1..]);
    }
  }

  lemma PrintableWrap(open: char, t: string, close: char)
    requires Printable(t) && ' ' <= open <= '~' && ' ' <= close <= '~'
    ensures Printable([open] + t + [close])
  {
  }

  lemma {:induction false} SerializePrintable(v: Json)
    requires WellFormed(v)
    ensures Printable(Serialize(v))
    decreases v, 0
  {
    match v
    case Str(cs) =>
      EscapedPrintable(cs);
      PrintableWrap('"', Escaped(cs), '"');
    case Arr(items) =>
      ItemsPrintable(items);
      PrintableWrap('[', ItemsText(items), ']');
    case Obj(members) =>
      MembersPrintable(members);
      PrintableWrap('{', MembersText(members), '}');
    case _ =>
  }

  lemma {:induction false} ItemsPrintable(xs: seq<Json>)
    requires forall i :: 0 <= i < |xs| ==> WellFormed(xs[i])
    ensures Printable(ItemsText(xs))
    decreases xs, 0
  {
    if xs != [] {
      SerializePrintable(xs[0]);
      ItemsPrintable(xs[1..]);
    }
  }

  lemma {:induction false} MemberPrintable(m: Member)
    requires WellFormed(m.value)
    ensures Printable(MemberText(m))
    decreases m, 1
  {
    EscapedPrintable(m.key);
    PrintableWrap('"', Escaped(m.key), '"');
    SerializePrintable(m.value);
  }

  lemma {:induction false} MembersPrintable(ms: seq<Member>)
    requires forall i :: 0 <= i < |ms| ==> WellFormed(ms[i].value)
    ensures Printable(MembersText(ms))
    decreases ms, 0
  {
    if ms != [] {
      MemberPrintable(ms[0]);
      MembersPrintable(ms[1..]);
    }
  }

  /** The matcher's answer on a text does not change when more text follows. */
  lemma {:induction false} MatchPrefix(t: string, s: string, p: nat, depth: int, inString: bool, escaped: bool, open: char, close: char)
    requires t <= s && p <= |t| && MatchFrom(t, p, depth, inString, escaped, open, close).Some?
    ensures MatchFrom(s, p, depth, inString, escaped, open, close) == MatchFrom(t, p, depth, inString, escaped, open, close)
    decreases |t| - p
  {
    if inString {
      MatchPrefix(t, s, p + 1, depth, escaped || s[p] != '"', !escaped && s[p] == '\\', open, close);
    } else if s[p] == '"' {
      MatchPrefix(t, s, p + 1, depth, true, false, open, close);
    } else if s[p] == open {
      MatchPrefix(t, s, p + 1, depth + 1, false, false, open, close);
    } else if s[p] == close {
      if depth - 1 != 0 { MatchPrefix(t, s, p + 1, depth - 1, false, false, open, close); }
    } else {
      MatchPrefix(t, s, p + 1, depth, false, false, open, close);
    }
  }

  /** A response cut short is never accepted. */
  lemma TruncatedRejected(v: Json, t: string)
    requires WellFormed(v) && t < Serialize(v)
    ensures Decide(t).Err?
  {
    var s := Serialize(v);
    FirstChar(v);
    if t != "" {
      assert t[0] == s[0] && SkipWs(t, 0) == 0;
      if v.Obj? && MatchBracket(t, 0, '{', '}').Some? {
        assert s[0..|s|] == s;
        MatchBracketExact(s, 0, v);
        MatchPrefix(t, s, 0, 0, false, false, '{', '}');
      }
    }
  }

  /** The clients do part: a `continue` that is a number hides a valid hook decision from the native one. */
  lemma ContinueNumberParts()
    ensures exists v ::
              && WellFormed(v) && ExtractOutput(v) == Some(v)
              && !ContinueAbsentOrBoolean(v) && Decide(Serialize(v)).Err?
  {
    hide Decide, Serialize, WellFormed;
    var hook := Obj([Member(HOOK_EVENT, Str(PRE_TOOL_USE))]);
    var v := Obj([Member(CONTINUE, Number("0")), Member(HOOK_SPECIFIC, hook)]);
    assert CONTINUE[0] == 'c' as int && HOOK_SPECIFIC[0] == 'h' as int && OK_KEY[0] == 'o' as int;
    assert |HOOK_EVENT| == 13 && |PERMISSION| == 18;
    GetPair(Member(CONTINUE, Number("0")), Member(HOOK_SPECIFIC, hook), CONTINUE);
    GetPair(Member(CONTINUE, Number("0")), Member(HOOK_SPECIFIC, hook), HOOK_SPECIFIC);
    GetPair(Member(CONTINUE, Number("0")), Member(HOOK_SPECIFIC, hook), OK_KEY);
    GetOne(Member(HOOK_EVENT, Str(PRE_TOOL_USE)), HOOK_EVENT);
    GetOne(Member(HOOK_EVENT, Str(PRE_TOOL_USE)), PERMISSION);
    assert WellFormed(v) by { SampleWellFormed(v, hook); }
    NativeDecidesAsPython(v);
  }

  lemma GetOne(m: Member, key: seq<Code>)
    ensures Get([m], key) == if m.key == key then Some(m.value) else None
  {
    assert [m][1..] == [];
  }

  lemma GetPair(m: Member, m': Member, key: seq<Code>)
    ensures Get([m, m'], key) == if m.key == key then Some(m.value) else if m'.key == key then Some(m'.value) else None
  {
    assert [m, m'][1..] == [m'];
    GetOne(m', key);
  }

  lemma SampleWellFormed(v: Json, hook: Json)
    requires hook == Obj([Member(HOOK_EVENT, Str(PRE_TOOL_USE))])
    requires v == Obj([Member(CONTINUE, Number("0")), Member(HOOK_SPECIFIC, hook)])
    ensures WellFormed(v)
  {
    assert WellFormed(hook);
    assert WellFormed(Number("0"));
  }
}
