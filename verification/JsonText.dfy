/**
 JSON values and the text that the daemon's `json.dumps(..., separators=(",", ":"))`
 writes for them (sections 4 to 7 of RFC 8259, ASCII output).
 */
module JsonText {

  import opened Results

  /** A character of a Python string: any code point, lone surrogates included. */
  type Code = c: int | 0 <= c < 0x11_0000

  datatype Json =
    | Null
    | Bool(b: bool)
    | Number(text: string)
    | Str(chars: seq<Code>)
    | Arr(items: seq<Json>)
    | Obj(members: seq<Member>)

  datatype Member = Member(key: seq<Code>, value: Json)

  const NUL: char := '\0'

  /** `payload.get(key)` on a parsed object. */
  function Get(ms: seq<Member>, key: seq<Code>): Option<Json> {
    if ms == [] then None
    else if ms[0].key == key then Some(ms[0].value)
    else Get(ms[1..], key)
  }

  /** The code points of an ASCII literal. */
  function Codes(s: string): (r: seq<Code>)
    requires forall i :: 0 <= i < |s| ==> s[i] < 128 as char
    ensures |r| == |s| && forall i :: 0 <= i < |s| ==> r[i] == s[i] as int
  {
    seq(|s|, i requires 0 <= i < |s| => s[i] as int)
  }

  // ---- writing ------------------------------------------------------------

  function HexDigit(d: int): (c: char)
    requires 0 <= d < 16
    ensures c != '"' && c != '\\' && c != NUL
  {
    if d < 10 then ('0' as int + d) as char else ('a' as int + d - 10) as char
  }

  function UnicodeEscape(u: int): string
    requires 0 <= u < 0x1_0000
  {
    ['\\', 'u', HexDigit(u / 4096), HexDigit(u / 256 % 16), HexDigit(u / 16 % 16), HexDigit(u % 16)]
  }

  predicate PlainCode(c: int) {
    32 <= c <= 126 && c != '"' as int && c != '\\' as int
  }

  /** How the encoder writes one character inside a string literal. */
  function EscapeCode(c: Code): string {
    if PlainCode(c) then [c as char]
    else if c == '"' as int then ['\\', '"']
    else if c == '\\' as int then ['\\', '\\']
    else if c == 10 then ['\\', 'n']
    else if c == 13 then ['\\', 'r']
    else if c == 9 then ['\\', 't']
    else if c == 8 then ['\\', 'b']
    else if c == 12 then ['\\', 'f']
    else if c < 0x1_0000 then UnicodeEscape(c)
    else UnicodeEscape(0xd800 + (c - 0x1_0000) / 1024) + UnicodeEscape(0xdc00 + (c - 0x1_0000) % 1024)
  }

  function Escaped(cs: seq<Code>): string {
    if cs == [] then "" else EscapeCode(cs[0]) + Escaped(cs[1..])
  }

  function Quoted(cs: seq<Code>): string {
    ['"'] + Escaped(cs) + ['"']
  }

  function Serialize(v: Json): string
    decreases v, 0
  {
    match v
    case Null => "null"
    case Bool(b) => if b then "true" else "false"
    case Number(text) => text
    case Str(cs) => Quoted(cs)
    case Arr(items) => ['['] + ItemsText(items) + [']']
    case Obj(members) => ['{'] + MembersText(members) + ['}']
  }

  function ItemsText(xs: seq<Json>): string
    decreases xs, 0
  {
    if xs == [] then ""
    else if |xs| == 1 then Serialize(xs[0])
    else Serialize(xs[0]) + ([','] + ItemsText(xs[1..]))
  }

  function MemberText(m: Member): string
    decreases m, 1
  {
    Quoted(m.key) + ([':'] + Serialize(m.value))
  }

  function MembersText(ms: seq<Member>): string
    decreases ms, 0
  {
    if ms == [] then ""
    else if |ms| == 1 then MemberText(ms[0])
    else MemberText(ms[0]) + ([','] + MembersText(ms[1..]))
  }

  // ---- what makes a text a JSON text --------------------------------------

  predicate TokenChar(c: char) {
    '0' <= c <= '9' || c in {'+', '-', '.', 'e', 'E'}
  }

  predicate StartsNumber(t: string) {
    t != "" && ('0' <= t[0] <= '9' || (|t| >= 2 && t[0] == '-' && '0' <= t[1] <= '9'))
  }

  /** Number tokens, with the three non-finite ones Python writes. */
  predicate NumberToken(t: string) {
    || t in {"NaN", "Infinity", "-Infinity"}
    || (StartsNumber(t) && forall i :: 0 <= i < |t| ==> TokenChar(t[i]))
  }

  predicate WellFormed(v: Json)
    decreases v
  {
    match v
    case Number(text) => NumberToken(text)
    case Arr(items) => forall i :: 0 <= i < |items| ==> WellFormed(items[i])
    case Obj(members) => forall i :: 0 <= i < |members| ==> WellFormed(members[i].value)
    case _ => true
  }

  /**
   A string literal's inside: every backslash is followed by one more character,
   and nothing else is a quote. Both scanners cross such text without leaving it.
   */
  predicate Body(t: string) {
    || t == ""
    || (t[0] == '\\' && |t| >= 2 && t[1] != NUL && Body(t[2..]))
    || (t[0] != '\\' && t[0] != '"' && t[0] != NUL && Body(t[1..]))
  }

  lemma {:induction false} BodyConcat(a: string, b: string)
    requires Body(a) && Body(b)
    ensures Body(a + b)
  {
    if a == "" {
      assert a + b == b;
    } else if a[0] == '\\' {
      BodyConcat(a[2..], b);
      assert (a + b)[2..] == a[2..] + b;
    } else {
      BodyConcat(a[1..], b);
      assert (a + b)[1..] == a[1..] + b;
    }
  }

  lemma UnicodeEscapeIsBody(u: int)
    requires 0 <= u < 0x1_0000
    ensures Body(UnicodeEscape(u))
  {
    var t := UnicodeEscape(u);
    assert t[2..][1..] == t[3..] && t[3..][1..] == t[4..] && t[4..][1..] == t[5..] && t[5..][1..] == "";
    assert Body(t[5..]) && Body(t[4..]) && Body(t[3..]) && Body(t[2..]);
  }

  lemma EscapeCodeIsBody(c: Code)
    ensures Body(EscapeCode(c))
  {
    var t := EscapeCode(c);
    if PlainCode(c) {
      assert t[1..] == "";
    } else if c < 0x1_0000 {
      if |t| == 2 { assert t[2..] == ""; } else { UnicodeEscapeIsBody(c); }
    } else {
      var hi, lo := 0xd800 + (c - 0x1_0000) / 1024, 0xdc00 + (c - 0x1_0000) % 1024;
      UnicodeEscapeIsBody(hi);
      UnicodeEscapeIsBody(lo);
      BodyConcat(UnicodeEscape(hi), UnicodeEscape(lo));
    }
  }

  lemma {:induction false} EscapedIsBody(cs: seq<Code>)
    ensures Body(Escaped(cs))
  {
    if cs != [] {
      EscapeCodeIsBody(cs[0]);
      EscapedIsBody(cs[1..]);
      BodyConcat(EscapeCode(cs[0]), Escaped(cs[1..]));
    }
  }

  // ---- plain keys ----------------------------------------------------------

  /** A literal that the encoder writes unchanged, such as every key the C client looks for. */
  predicate Plain(key: string) {
    forall i :: 0 <= i < |key| ==> PlainCode(key[i] as int)
  }

  /** The written form of a string is a given plain literal only if the string is that literal. */
  lemma {:induction false} EscapedPlainIff(cs: seq<Code>, key: string)
    requires Plain(key)
    ensures Escaped(cs) == key <==> cs == Codes(key)
  {
    hide EscapeCode, Codes;
    if cs != [] {
      var head, tail := EscapeCode(cs[0]), Escaped(cs[1..]);
      EscapeCodeStarts(cs[0]);
      assert Escaped(cs)[0] == head[0];
      if key != "" {
        assert PlainCode(key[0] as int) && Plain(key[1..]);
        EscapedPlainIff(cs[1..], key[1..]);
        assert key == [key[0]] + key[1..] && cs == [cs[0]] + cs[1..];
        assert Codes(key) == [key[0] as int] + Codes(key[1..]);
        assert PlainCode(cs[0]) ==> (head + tail)[1..] == tail;
      }
    }
  }

  lemma EscapeCodeStarts(c: Code)
    ensures PlainCode(c) ==> EscapeCode(c) == [c as char]
    ensures EscapeCode(c) != "" && (!PlainCode(c) ==> EscapeCode(c)[0] == '\\')
  {
  }
}
