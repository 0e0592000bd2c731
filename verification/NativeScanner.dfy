/**
 The hand-written JSON scanner of the native PreToolUse client, as functions of the
 NUL-terminated text and a position in it. `NativeClient` has the C loops themselves.
 */
module NativeScanner {

  import opened Results
  import opened JsonText

  /** `*p`: past the last character stands the terminator. */
  function At(s: string, p: nat): (c: char)
    requires p <= |s|
    ensures c != NUL ==> p < |s| && c == s[p]
  {
    if p < |s| then s[p] else NUL
  }

  /** `isspace` in the C locale. */
  predicate IsSpace(c: char) {
    c == ' ' || '\t' <= c <= '\r'
  }

  function SkipWs(s: string, p: nat): (q: nat)
    requires p <= |s|
    ensures p <= q <= |s|
    decreases |s| - p
  {
    if At(s, p) != NUL && IsSpace(At(s, p)) then SkipWs(s, p + 1) else p
  }

  /** The position after the quote that ends a string, from inside it. */
  function StringClose(s: string, p: nat): (r: Option<nat>)
    requires p <= |s|
    ensures r.Some? ==> p < r.value <= |s|
    decreases |s| - p
  {
    if At(s, p) == NUL then None
    else if s[p] == '\\' then (if At(s, p + 1) == NUL then None else StringClose(s, p + 2))
    else if s[p] == '"' then Some(p + 1)
    else StringClose(s, p + 1)
  }

  function ParseString(s: string, p: nat): (r: Option<nat>)
    requires p <= |s|
    ensures r.Some? ==> p + 2 <= r.value <= |s|
  {
    if At(s, p) != '"' then None else StringClose(s, p + 1)
  }

  /** One run of the bracket matcher's loop from position p. */
  function MatchFrom(s: string, p: nat, depth: int, inString: bool, escaped: bool, open: char, close: char): (r: Option<nat>)
    requires p <= |s|
    ensures r.Some? ==> p < r.value <= |s|
    decreases |s| - p
  {
    if At(s, p) == NUL then None
    else if inString then
      MatchFrom(s, p + 1, depth, escaped || s[p] != '"', !escaped && s[p] == '\\', open, close)
    else if s[p] == '"' then MatchFrom(s, p + 1, depth, true, false, open, close)
    else if s[p] == open then MatchFrom(s, p + 1, depth + 1, false, false, open, close)
    else if s[p] == close then
      if depth - 1 == 0 then Some(p + 1) else MatchFrom(s, p + 1, depth - 1, false, false, open, close)
    else MatchFrom(s, p + 1, depth, false, false, open, close)
  }

  function MatchBracket(s: string, p: nat, open: char, close: char): (r: Option<nat>)
    requires p <= |s|
    ensures r.Some? ==> p < r.value <= |s|
  {
    if At(s, p) != open then None else MatchFrom(s, p, 0, false, false, open, close)
  }

  predicate EndsToken(c: char) {
    c == NUL || IsSpace(c) || c == ',' || c == '}' || c == ']'
  }

  function TokenEnd(s: string, p: nat): (q: nat)
    requires p <= |s|
    ensures p <= q <= |s|
    decreases |s| - p
  {
    if EndsToken(At(s, p)) then p else TokenEnd(s, p + 1)
  }

  function SkipValue(s: string, p: nat): (r: Option<nat>)
    requires p <= |s|
    ensures r.Some? ==> p < r.value <= |s|
  {
    if At(s, p) == NUL then None
    else if s[p] == '"' then ParseString(s, p)
    else if s[p] == '{' then MatchBracket(s, p, '{', '}')
    else if s[p] == '[' then MatchBracket(s, p, '[', ']')
    else if TokenEnd(s, p) == p then None
    else Some(TokenEnd(s, p))
  }

  /** The text between the quotes at p and keyEnd is the key. */
  predicate KeyMatches(s: string, p: nat, keyEnd: nat, key: string)
    requires p + 2 <= keyEnd <= |s|
  {
    keyEnd - p - 2 == |key| && s[p + 1..keyEnd - 1] == key
  }

  datatype Span = Span(keyStart: nat, keyEnd: nat, valueStart: nat, valueEnd: nat)

  /** One `"key" : value` from just after `{` or a comma; None where the C loop gives up. */
  function MemberAt(s: string, p: nat, objectEnd: nat): (r: Option<Span>)
    requires p <= |s|
    ensures r.Some? ==> var m := r.value;
            p <= m.keyStart && m.keyStart + 2 <= m.keyEnd < m.valueStart < m.valueEnd <= |s|
  {
    var q := SkipWs(s, p);
    if At(s, q) == NUL || q >= objectEnd || At(s, q) == '}' then None else
    var keyEnd := ParseString(s, q);
    if keyEnd.None? || keyEnd.value > objectEnd then None else
    var colon := SkipWs(s, keyEnd.value);
    if At(s, colon) != ':' then None else
    var valueStart := SkipWs(s, colon + 1);
    var valueEnd := SkipValue(s, valueStart);
    if valueEnd.None? || valueEnd.value > objectEnd then None
    else Some(Span(q, keyEnd.value, valueStart, valueEnd.value))
  }

  /** The member loop. */
  function FindKeyFrom(s: string, p: nat, objectEnd: nat, key: string): (r: Option<(nat, nat)>)
    requires p <= |s|
    ensures r.Some? ==> p <= r.value.0 < r.value.1 <= |s|
    decreases |s| - p
  {
    match MemberAt(s, p, objectEnd)
    case None => None
    case Some(m) =>
      if KeyMatches(s, m.keyStart, m.keyEnd, key) then Some((m.valueStart, m.valueEnd))
      else
        var comma := SkipWs(s, m.valueEnd);
        if At(s, comma) == ',' then FindKeyFrom(s, comma + 1, objectEnd, key) else None
  }

  function FindKey(s: string, start: nat, key: string): (r: Option<(nat, nat)>)
    requires start <= |s|
    ensures r.Some? ==> start < r.value.0 < r.value.1 <= |s|
  {
    var objectEnd := MatchBracket(s, start, '{', '}');
    if objectEnd.None? then None else FindKeyFrom(s, start + 1, objectEnd.value, key)
  }

  // ---- reading written text -------------------------------------------------

  /** The text t stands at position p of s. */
  predicate HasAt(s: string, p: nat, t: string) {
    p + |t| <= |s| && s[p..p + |t|] == t
  }

  lemma HasAtSplit(s: string, p: nat, a: string, b: string)
    ensures HasAt(s, p, a + b) <==> HasAt(s, p, a) && HasAt(s, p + |a|, b)
  {
    if p + |a| + |b| <= |s| {
      var l, r := s[p..p + |a|], s[p + |a|..p + |a| + |b|];
      assert s[p..p + |a + b|] == l + r;
      assert (l + r)[..|a|] == l && (a + b)[..|a|] == a;
      assert (l + r)[|a|..] == r && (a + b)[|a|..] == b;
    }
  }

  lemma HasAtDrop(s: string, p: nat, t: string, k: nat)
    requires HasAt(s, p, t) && k <= |t|
    ensures HasAt(s, p + k, t[k..])
    ensures forall i :: 0 <= i < |t| ==> s[p + i] == t[i]
  {
    assert t == t[..k] + t[k..];
    HasAtSplit(s, p, t[..k], t[k..]);
    forall i | 0 <= i < |t| ensures s[p + i] == t[i] {
      assert s[p..p + |t|][i] == t[i];
    }
  }

  lemma {:induction false} StringCloseBody(s: string, p: nat, t: string)
    requires HasAt(s, p, t + ['"']) && Body(t)
    ensures StringClose(s, p) == Some(p + |t| + 1)
    decreases |t|
  {
    HasAtSplit(s, p, t, ['"']);
    if t == "" {
      HasAtDrop(s, p, ['"'], 0);
    } else {
      var k := if t[0] == '\\' then 2 else 1;
      HasAtDrop(s, p, t, k);
      HasAtSplit(s, p + k, t[k..], ['"']);
      StringCloseBody(s, p + k, t[k..]);
    }
  }

  /** Where the matcher's three variables stand after a stretch of text, if it got through. */
  datatype Walked = Live(depth: int, inString: bool, escaped: bool) | Stopped

  function Walk(t: string, st: Walked, open: char, close: char): Walked {
    if t == "" || st.Stopped? then st
    else if t[0] == NUL then Stopped
    else if st.inString then
      Walk(t[1..], Live(st.depth, st.escaped || t[0] != '"', !st.escaped && t[0] == '\\'), open, close)
    else if t[0] == '"' then Walk(t[1..], Live(st.depth, true, false), open, close)
    else if t[0] == open then Walk(t[1..], Live(st.depth + 1, false, false), open, close)
    else if t[0] == close then
      if st.depth - 1 == 0 then Stopped else Walk(t[1..], Live(st.depth - 1, false, false), open, close)
    else Walk(t[1..], Live(st.depth, false, false), open, close)
  }

  lemma {:induction false} WalkConcat(a: string, b: string, st: Walked, open: char, close: char)
    ensures Walk(a + b, st, open, close) == Walk(b, Walk(a, st, open, close), open, close)
    decreases |a|
  {
    if a == "" {
      assert a + b == b;
    } else if st.Live? {
      assert (a + b)[1..] == a[1..] + b;
      if a[0] == NUL {
      } else if st.inString {
        WalkConcat(a[1..], b, Live(st.depth, st.escaped || a[0] != '"', !st.escaped && a[0] == '\\'), open, close);
      } else if a[0] == '"' {
        WalkConcat(a[1..], b, Live(st.depth, true, false), open, close);
      } else {
        WalkConcat(a[1..], b, Live(st.depth + 1, false, false), open, close);
        WalkConcat(a[1..], b, Live(st.depth - 1, false, false), open, close);
        WalkConcat(a[1..], b, Live(st.depth, false, false), open, close);
      }
    }
  }

  /** Crossing a stretch of text takes the matcher from one loop state to another. */
  lemma {:induction false} MatchWalk(s: string, p: nat, t: string, st: Walked, open: char, close: char)
    requires HasAt(s, p, t) && st.Live? && Walk(t, st, open, close).Live?
    ensures var st' := Walk(t, st, open, close);
            MatchFrom(s, p, st.depth, st.inString, st.escaped, open, close)
            == MatchFrom(s, p + |t|, st'.depth, st'.inString, st'.escaped, open, close)
    decreases |t|
  {
    if t != "" {
      HasAtDrop(s, p, t, 1);
      if st.inString {
        MatchWalk(s, p + 1, t[1..], Live(st.depth, st.escaped || t[0] != '"', !st.escaped && t[0] == '\\'), open, close);
      } else {
        var d := if t[0] == '"' then st.depth else if t[0] == open then st.depth + 1
                 else if t[0] == close then st.depth - 1 else st.depth;
        MatchWalk(s, p + 1, t[1..], Live(d, t[0] == '"', false), open, close);
      }
    }
  }

  /** The matcher, at depth d and outside strings, crosses t and comes out as it went in. */
  predicate Neutral(t: string, d: int, open: char, close: char) {
    Walk(t, Live(d, false, false), open, close) == Live(d, false, false)
  }

  predicate Pair(open: char, close: char) {
    (open == '{' && close == '}') || (open == '[' && close == ']')
  }

  lemma NeutralConcat(a: string, b: string, d: int, open: char, close: char)
    requires Neutral(a, d, open, close) && Neutral(b, d, open, close)
    ensures Neutral(a + b, d, open, close)
  {
    WalkConcat(a, b, Live(d, false, false), open, close);
  }

  lemma {:induction false} WalkBody(t: string, d: int, open: char, close: char)
    requires Body(t)
    ensures Walk(t, Live(d, true, false), open, close) == Live(d, true, false)
    decreases |t|
  {
    if t == "" {
    } else if t[0] == '\\' {
      WalkBody(t[2..], d, open, close);
      assert t[1..][1..] == t[2..];
      assert Walk(t[1..], Live(d, true, true), open, close) == Walk(t[2..], Live(d, true, false), open, close);
    } else {
      WalkBody(t[1..], d, open, close);
    }
  }

  lemma NeutralQuoted(cs: seq<Code>, d: int, open: char, close: char)
    requires Pair(open, close)
    ensures Neutral(Quoted(cs), d, open, close)
  {
    var t := Escaped(cs);
    EscapedIsBody(cs);
    WalkBody(t, d, open, close);
    assert Quoted(cs)[1..] == t + ['"'];
    WalkConcat(t, ['"'], Live(d, true, false), open, close);
    assert ['"'][1..] == "";
    assert Walk("", Live(d, false, false), open, close) == Live(d, false, false);
  }

  /** Text that the matcher passes over: no quote, bracket or terminator. */
  predicate Inert(t: string) {
    forall i :: 0 <= i < |t| ==> t[i] !in {'"', '{', '}', '[', ']', NUL}
  }

  lemma {:induction false} NeutralInert(t: string, d: int, open: char, close: char)
    requires Inert(t) && Pair(open, close)
    ensures Neutral(t, d, open, close)
    decreases |t|
  {
    if t != "" { NeutralInert(t[1..], d, open, close); }
  }

  lemma NeutralBracketed(o: char, inner: string, c: char, d: int, open: char, close: char)
    requires Pair(o, c) && Pair(open, close) && d >= 1
    requires Neutral(inner, if o == open then d + 1 else d, open, close)
    ensures Neutral([o] + inner + [c], d, open, close)
  {
    var e := if o == open then d + 1 else d;
    var t := [o] + inner + [c];
    assert t[1..] == inner + [c] && [c][1..] == "";
    WalkConcat(inner, [c], Live(e, false, false), open, close);
    assert Walk([c], Live(e, false, false), open, close) == Walk("", Live(d, false, false), open, close);
  }

  /** Inside an open bracket, the matcher crosses every written value unchanged. */
  lemma {:induction false} NeutralValue(v: Json, d: int, open: char, close: char)
    requires WellFormed(v) && d >= 1 && Pair(open, close)
    ensures Neutral(Serialize(v), d, open, close)
    decreases v, 0
  {
    match v
    case Str(cs) => NeutralQuoted(cs, d, open, close);
    case Arr(items) =>
      var e := if open == '[' then d + 1 else d;
      NeutralItems(items, e, open, close);
      NeutralBracketed('[', ItemsText(items), ']', d, open, close);
    case Obj(members) =>
      var e := if open == '{' then d + 1 else d;
      NeutralMembers(members, e, open, close);
      NeutralBracketed('{', MembersText(members), '}', d, open, close);
    case _ => NeutralInert(Serialize(v), d, open, close);
  }

  lemma {:induction false} NeutralItems(xs: seq<Json>, d: int, open: char, close: char)
    requires (forall i :: 0 <= i < |xs| ==> WellFormed(xs[i])) && d >= 1 && Pair(open, close)
    ensures Neutral(ItemsText(xs), d, open, close)
    decreases xs, 0
  {
    if xs != [] { NeutralValue(xs[0], d, open, close); }
    if |xs| > 1 {
      NeutralInert([','], d, open, close);
      NeutralItems(xs[1..], d, open, close);
      NeutralConcat([','], ItemsText(xs[1..]), d, open, close);
      NeutralConcat(Serialize(xs[0]), [','] + ItemsText(xs[1..]), d, open, close);
    }
  }

  lemma {:induction false} NeutralMember(m: Member, d: int, open: char, close: char)
    requires WellFormed(m.value) && d >= 1 && Pair(open, close)
    ensures Neutral(MemberText(m), d, open, close)
    decreases m, 1
  {
    NeutralQuoted(m.key, d, open, close);
    NeutralInert([':'], d, open, close);
    NeutralValue(m.value, d, open, close);
    NeutralConcat([':'], Serialize(m.value), d, open, close);
    NeutralConcat(Quoted(m.key), [':'] + Serialize(m.value), d, open, close);
  }

  lemma {:induction false} NeutralMembers(ms: seq<Member>, d: int, open: char, close: char)
    requires (forall i :: 0 <= i < |ms| ==> WellFormed(ms[i].value)) && d >= 1 && Pair(open, close)
    ensures Neutral(MembersText(ms), d, open, close)
    decreases ms, 0
  {
    if ms != [] { NeutralMember(ms[0], d, open, close); }
    if |ms| > 1 {
      NeutralInert([','], d, open, close);
      NeutralMembers(ms[1..], d, open, close);
      NeutralConcat([','], MembersText(ms[1..]), d, open, close);
      NeutralConcat(MemberText(ms[0]), [','] + MembersText(ms[1..]), d, open, close);
    }
  }

  lemma MatchBracketed(s: string, p: nat, open: char, inner: string, close: char)
    requires Pair(open, close) && HasAt(s, p, [open] + inner + [close]) && Neutral(inner, 1, open, close)
    ensures MatchBracket(s, p, open, close) == Some(p + |inner| + 2)
  {
    assert [open] + inner + [close] == [open] + (inner + [close]);
    HasAtSplit(s, p, [open], inner + [close]);
    HasAtSplit(s, p + 1, inner, [close]);
    HasAtDrop(s, p, [open], 0);
    MatchWalk(s, p + 1, inner, Live(1, false, false), open, close);
    HasAtDrop(s, p + 1 + |inner|, [close], 0);
  }

  /** The bracket matcher finds exactly the end of a written object or array. */
  lemma MatchBracketExact(s: string, p: nat, v: Json)
    requires WellFormed(v) && (v.Obj? || v.Arr?) && HasAt(s, p, Serialize(v))
    ensures MatchBracket(s, p, if v.Obj? then '{' else '[', if v.Obj? then '}' else ']') == Some(p + |Serialize(v)|)
  {
    if v.Obj? {
      NeutralMembers(v.members, 1, '{', '}');
      MatchBracketed(s, p, '{', MembersText(v.members), '}');
    } else {
      NeutralItems(v.items, 1, '[', ']');
      MatchBracketed(s, p, '[', ItemsText(v.items), ']');
    }
  }

  lemma {:induction false} TokenEndExact(s: string, p: nat, t: string)
    requires HasAt(s, p, t) && (forall i :: 0 <= i < |t| ==> !EndsToken(t[i]))
    requires EndsToken(At(s, p + |t|))
    ensures TokenEnd(s, p) == p + |t|
    decreases |t|
  {
    if t != "" {
      HasAtDrop(s, p, t, 1);
      TokenEndExact(s, p + 1, t[1..]);
    }
  }

  lemma ParseStringExact(s: string, p: nat, cs: seq<Code>)
    requires HasAt(s, p, Quoted(cs))
    ensures At(s, p) == '"' && ParseString(s, p) == Some(p + |Quoted(cs)|)
  {
    var t := Escaped(cs);
    EscapedIsBody(cs);
    assert Quoted(cs) == ['"'] + (t + ['"']);
    HasAtSplit(s, p, ['"'], t + ['"']);
    HasAtDrop(s, p, ['"'], 0);
    StringCloseBody(s, p + 1, t);
  }

  /** A written value starts with a character that tells its kind and is never blank. */
  lemma FirstChar(v: Json)
    requires WellFormed(v)
    ensures |Serialize(v)| > 0
    ensures var c := Serialize(v)[0];
            && c != NUL && !IsSpace(c) && c != '}'
            && (c == '{' <==> v.Obj?) && (c == '[' <==> v.Arr?) && (c == '"' <==> v.Str?)
            && (c == 't' <==> v == Bool(true)) && (c == 'f' <==> v == Bool(false))
  {
  }

  /** A written value followed by a separator is skipped exactly. */
  lemma SkipValueExact(s: string, p: nat, v: Json)
    requires WellFormed(v) && HasAt(s, p, Serialize(v)) && EndsToken(At(s, p + |Serialize(v)|))
    ensures SkipValue(s, p) == Some(p + |Serialize(v)|)
  {
    hide ParseString, MatchBracket, TokenEnd, ItemsText, MembersText, Escaped;
    FirstChar(v);
    HasAtDrop(s, p, Serialize(v), 0);
    match v
    case Str(cs) => ParseStringExact(s, p, cs);
    case Arr(_) => MatchBracketExact(s, p, v);
    case Obj(_) => MatchBracketExact(s, p, v);
    case _ => TokenEndExact(s, p, Serialize(v));
  }

  lemma CharAt(s: string, p: nat, c: char)
    requires HasAt(s, p, [c])
    ensures p < |s| && s[p] == c
  {
    HasAtDrop(s, p, [c], 0);
  }

  /** Where the four parts of `head : tail sep` stand. */
  lemma MemberLayout(s: string, p: nat, head: string, tail: string, sep: char)
    requires HasAt(s, p, head + ([':'] + tail) + [sep])
    ensures HasAt(s, p, head) && HasAt(s, p + |head| + 1, tail)
    ensures At(s, p + |head|) == ':' && At(s, p + |head| + 1 + |tail|) == sep
  {
    HasAtSplit(s, p, head + ([':'] + tail), [sep]);
    HasAtSplit(s, p, head, [':'] + tail);
    HasAtSplit(s, p + |head|, [':'], tail);
    CharAt(s, p + |head|, ':');
    CharAt(s, p + |head| + 1 + |tail|, sep);
  }

  lemma MemberAtParts(s: string, p: nat, objectEnd: nat, keyEnd: nat, valueEnd: nat)
    requires p < keyEnd < |s| && At(s, p) == '"' && ParseString(s, p) == Some(keyEnd)
    requires At(s, keyEnd) == ':' && At(s, keyEnd + 1) != NUL && !IsSpace(At(s, keyEnd + 1))
    requires SkipValue(s, keyEnd + 1) == Some(valueEnd) && valueEnd <= objectEnd
    ensures MemberAt(s, p, objectEnd) == Some(Span(p, keyEnd, keyEnd + 1, valueEnd))
  {
    assert SkipWs(s, p) == p && SkipWs(s, keyEnd) == keyEnd && SkipWs(s, keyEnd + 1) == keyEnd + 1;
  }

  lemma SpansOfMember(s: string, p: nat, objectEnd: nat, m: Member, sep: char)
    requires WellFormed(m.value) && HasAt(s, p, MemberText(m) + [sep]) && (sep == ',' || sep == '}')
    requires p + |MemberText(m)| <= objectEnd
    ensures HasAt(s, p, Quoted(m.key)) && HasAt(s, p + |Quoted(m.key)| + 1, Serialize(m.value))
    ensures At(s, p + |MemberText(m)|) == sep
    ensures MemberAt(s, p, objectEnd)
            == Some(Span(p, p + |Quoted(m.key)|, p + |Quoted(m.key)| + 1, p + |MemberText(m)|))
  {
    hide Quoted, Serialize, WellFormed, MemberAt, SkipValue, ParseString, HasAt;
    var keyEnd := p + |Quoted(m.key)|;
    assert MemberText(m) == Quoted(m.key) + ([':'] + Serialize(m.value));
    MemberLayout(s, p, Quoted(m.key), Serialize(m.value), sep);
    ParseStringExact(s, p, m.key);
    FirstChar(m.value);
    HasAtDrop(s, keyEnd + 1, Serialize(m.value), 0);
    SkipValueExact(s, keyEnd + 1, m.value);
    MemberAtParts(s, p, objectEnd, keyEnd, keyEnd + 1 + |Serialize(m.value)|);
  }

  lemma KeyMatchesIff(s: string, p: nat, cs: seq<Code>, key: string)
    requires Plain(key) && HasAt(s, p, Quoted(cs))
    ensures KeyMatches(s, p, p + |Quoted(cs)|, key) <==> cs == Codes(key)
  {
    var t := Escaped(cs);
    assert Quoted(cs) == ['"'] + (t + ['"']);
    HasAtSplit(s, p, ['"'], t + ['"']);
    HasAtSplit(s, p + 1, t, ['"']);
    EscapedPlainIff(cs, key);
  }

  /** The scanner's span is the text of the value that the parsed object has for the key, up to its separator. */
  predicate SpanIs(s: string, r: Option<(nat, nat)>, v: Option<Json>) {
    match v
    case None => r == None
    case Some(w) =>
      && r.Some? && HasAt(s, r.value.0, Serialize(w)) && r.value.1 == r.value.0 + |Serialize(w)|
      && r.value.1 < |s| && (s[r.value.1] == ',' || s[r.value.1] == '}')
  }

  lemma FindKeyTurn(s: string, p: nat, objectEnd: nat, key: string, m: Span)
    requires p <= |s| && MemberAt(s, p, objectEnd) == Some(m) && !IsSpace(At(s, m.valueEnd))
    ensures FindKeyFrom(s, p, objectEnd, key)
            == if KeyMatches(s, m.keyStart, m.keyEnd, key) then Some((m.valueStart, m.valueEnd))
               else if At(s, m.valueEnd) == ',' then FindKeyFrom(s, m.valueEnd + 1, objectEnd, key) else None
  {
    hide MemberAt;
    assert SkipWs(s, m.valueEnd) == m.valueEnd;
  }

  /** One turn of the member loop on a written member, given what the later turns find. */
  lemma FindKeyStep(s: string, p: nat, objectEnd: nat, key: string, m: Member, sep: char,
                    r: Option<(nat, nat)>, later: Option<(nat, nat)>)
    requires Plain(key) && WellFormed(m.value)
    requires HasAt(s, p, MemberText(m) + [sep]) && (sep == ',' || sep == '}') && p + |MemberText(m)| <= objectEnd
    requires r == FindKeyFrom(s, p, objectEnd, key)
    requires later == if sep == ',' then FindKeyFrom(s, p + |MemberText(m)| + 1, objectEnd, key) else None
    ensures if m.key == Codes(key) then SpanIs(s, r, Some(m.value)) else r == later
  {
    hide MemberAt;
    SpansOfMember(s, p, objectEnd, m, sep);
    KeyMatchesIff(s, p, m.key, key);
    FindKeyTurn(s, p, objectEnd, key,
                Span(p, p + |Quoted(m.key)|, p + |Quoted(m.key)| + 1, p + |MemberText(m)|));
  }

  /** Where the first member and the others stand. */
  lemma MembersLayout(s: string, p: nat, ms: seq<Member>)
    requires ms != [] && HasAt(s, p, MembersText(ms) + ['}'])
    ensures |ms| == 1 ==> |MembersText(ms)| == |MemberText(ms[0])| && HasAt(s, p, MemberText(ms[0]) + ['}'])
    ensures |ms| > 1 ==>
              && |MembersText(ms)| == |MemberText(ms[0])| + 1 + |MembersText(ms[1..])|
              && HasAt(s, p, MemberText(ms[0]) + [','])
              && HasAt(s, p + |MemberText(ms[0])| + 1, MembersText(ms[1..]) + ['}'])
  {
    if |ms| > 1 {
      var head, rest := MemberText(ms[0]), MembersText(ms[1..]);
      assert MembersText(ms) + ['}'] == (head + [',']) + (rest + ['}']);
      HasAtSplit(s, p, head + [','], rest + ['}']);
    }
  }

  lemma GetFirst(ms: seq<Member>, key: seq<Code>)
    requires ms != []
    ensures Get(ms, key) == if ms[0].key == key then Some(ms[0].value) else if |ms| == 1 then None else Get(ms[1..], key)
  {
    if |ms| == 1 { assert ms[1..] == []; }
  }

  lemma {:induction false} FindKeyInMembers(s: string, p: nat, objectEnd: nat, key: string, ms: seq<Member>, r: Option<(nat, nat)>)
    requires ms != [] && Plain(key) && (forall i :: 0 <= i < |ms| ==> WellFormed(ms[i].value))
    requires HasAt(s, p, MembersText(ms) + ['}']) && p + |MembersText(ms)| <= objectEnd
    requires r == FindKeyFrom(s, p, objectEnd, key)
    ensures SpanIs(s, r, Get(ms, Codes(key)))
    decreases |ms|
  {
    hide FindKeyFrom;
    MembersLayout(s, p, ms);
    GetFirst(ms, Codes(key));
    if |ms| == 1 {
      FindKeyStep(s, p, objectEnd, key, ms[0], '}', r, None);
    } else {
      var next := p + |MemberText(ms[0])| + 1;
      var later := FindKeyFrom(s, next, objectEnd, key);
      FindKeyInMembers(s, next, objectEnd, key, ms[1..], later);
      FindKeyStep(s, p, objectEnd, key, ms[0], ',', r, later);
    }
  }

  lemma ObjectLayout(s: string, p: nat, ms: seq<Member>)
    requires HasAt(s, p, Serialize(Obj(ms)))
    ensures |Serialize(Obj(ms))| == |MembersText(ms)| + 2 && HasAt(s, p + 1, MembersText(ms) + ['}'])
  {
    assert Serialize(Obj(ms)) == ['{'] + (MembersText(ms) + ['}']);
    HasAtSplit(s, p, ['{'], MembersText(ms) + ['}']);
  }

  lemma SpanOfNothing(s: string)
    ensures SpanIs(s, None, None)
  {
  }

  lemma FindKeyInEmpty(s: string, p: nat, objectEnd: nat, key: string)
    requires HasAt(s, p, MembersText([]) + ['}'])
    ensures FindKeyFrom(s, p, objectEnd, key) == None
  {
    assert MembersText([]) + ['}'] == ['}'];
    CharAt(s, p, '}');
    assert MemberAt(s, p, objectEnd) == None;
  }

  /**
   On every written object the scanner finds a plain key exactly if the object has it,
   and the span it returns is exactly the text of that key's value.
   */
  lemma FindKeyExact(s: string, p: nat, key: string, ms: seq<Member>)
    requires WellFormed(Obj(ms)) && Plain(key) && HasAt(s, p, Serialize(Obj(ms)))
    ensures SpanIs(s, FindKey(s, p, key), Get(ms, Codes(key)))
  {
    hide FindKeyFrom, MatchBracket, SpanIs;
    var objectEnd := p + |Serialize(Obj(ms))|;
    MatchBracketExact(s, p, Obj(ms));
    ObjectLayout(s, p, ms);
    if ms == [] {
      FindKeyInEmpty(s, p + 1, objectEnd, key);
      assert SpanIs(s, None, None) by { SpanOfNothing(s); }
    } else {
      FindKeyInMembers(s, p + 1, objectEnd, key, ms, FindKeyFrom(s, p + 1, objectEnd, key));
    }
  }
}
