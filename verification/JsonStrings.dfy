/** Reading string literals back (section 7 of RFC 8259), as the partner of how they are written. */
module JsonStrings {

  import opened Results
  import opened JsonText

  function HexValue(c: char): (r: Option<int>)
    ensures r.Some? ==> 0 <= r.value < 16
  {
    if '0' <= c <= '9' then Some(c as int - '0' as int)
    else if 'a' <= c <= 'f' then Some(c as int - 'a' as int + 10)
    else if 'A' <= c <= 'F' then Some(c as int - 'A' as int + 10)
    else None
  }

  /** The code unit of a `\u` escape at the start of a text. */
  function UnitAt(t: string): (r: Option<int>)
    ensures r.Some? ==> 0 <= r.value < 0x1_0000
  {
    if |t| < 6 || t[0] != '\\' || t[1] != 'u' then None
    else match (HexValue(t[2]), HexValue(t[3]), HexValue(t[4]), HexValue(t[5]))
         case (Some(a), Some(b), Some(c), Some(d)) => Some(4096 * a + 256 * b + 16 * c + d)
         case _ => None
  }

  predicate High(u: int) {
    0xd800 <= u < 0xdc00
  }

  predicate Low(u: int) {
    0xdc00 <= u < 0xe000
  }

  function Combined(high: int, low: int): Code
    requires High(high) && Low(low)
  {
    0x1_0000 + (high - 0xd800) * 1024 + (low - 0xdc00)
  }

  function Simple(c: char): Option<Code> {
    if c == '"' || c == '\\' || c == '/' then Some(c as int)
    else if c == 'n' then Some(10)
    else if c == 'r' then Some(13)
    else if c == 't' then Some(9)
    else if c == 'b' then Some(8)
    else if c == 'f' then Some(12)
    else None
  }

  /** The first character of a literal's inside, and the length of what stands for it. */
  function First(t: string): Option<(Code, nat)>
    requires t != ""
  {
    if t[0] != '\\' then (if t[0] == '"' || t[0] as int < 32 then None else Some((t[0] as int, 1)))
    else if |t| < 2 then None
    else if t[1] != 'u' then (match Simple(t[1]) case Some(c) => Some((c, 2)) case None => None)
    else match UnitAt(t)
         case None => None
         case Some(u) =>
           if High(u) && UnitAt(t[6..]).Some? && Low(UnitAt(t[6..]).value) then Some((Combined(u, UnitAt(t[6..]).value), 12))
           else Some((u, 6))
  }

  function Unescape(t: string): Option<seq<Code>>
    decreases |t|
  {
    if t == "" then Some([])
    else match First(t)
         case None => None
         case Some((c, n)) =>
           if n > |t| then None
           else match Unescape(t[n..])
                case None => None
                case Some(rest) => Some([c] + rest)
  }

  // ---- round trip -------------------------------------------------------------------------

  lemma HexRoundTrip(d: int)
    requires 0 <= d < 16
    ensures HexValue(HexDigit(d)) == Some(d)
  {
  }

  lemma Digits(u: int)
    requires 0 <= u < 0x1_0000
    ensures u == 4096 * (u / 4096) + 256 * (u / 256 % 16) + 16 * (u / 16 % 16) + u % 16
    ensures 0 <= u / 4096 < 16
  {
    assert u / 256 == 16 * (u / 4096) + u / 256 % 16;
    assert u / 16 == 16 * (u / 256) + u / 16 % 16;
  }

  lemma UnitOfEscape(u: int, rest: string)
    requires 0 <= u < 0x1_0000
    ensures UnitAt(UnicodeEscape(u) + rest) == Some(u) && |UnicodeEscape(u)| == 6
    ensures (UnicodeEscape(u) + rest)[6..] == rest
  {
    hide HexDigit, HexValue;
    Digits(u);
    HexRoundTrip(u / 4096);
    HexRoundTrip(u / 256 % 16);
    HexRoundTrip(u / 16 % 16);
    HexRoundTrip(u % 16);
    var t := UnicodeEscape(u) + rest;
    assert t[..6] == UnicodeEscape(u);
    assert t[2] == UnicodeEscape(u)[2] && t[3] == UnicodeEscape(u)[3] && t[4] == UnicodeEscape(u)[4] && t[5] == UnicodeEscape(u)[5];
  }

  /** What the reader makes of a written string: a lone high surrogate takes a low one that follows it. */
  function Merged(cs: seq<Code>): seq<Code> {
    if cs == [] then []
    else if |cs| >= 2 && High(cs[0]) && Low(cs[1]) then [Combined(cs[0], cs[1])] + Merged(cs[2..])
    else [cs[0]] + Merged(cs[1..])
  }

  /** The text after a character starts with a low unit exactly if the next character is one. */
  lemma LowFollows(cs: seq<Code>)
    ensures (UnitAt(Escaped(cs)).Some? && Low(UnitAt(Escaped(cs)).value)) <==> cs != [] && Low(cs[0])
    ensures cs != [] && Low(cs[0]) ==> UnitAt(Escaped(cs)) == Some(cs[0])
  {
    hide UnitAt, UnicodeEscape;
    if cs == [] {
      NoUnit("");
    } else {
      var c, rest := cs[0], Escaped(cs[1..]);
      if WrittenAsUnit(c) {
        UnitOfEscape(c, rest);
      } else if c >= 0x1_0000 {
        var hi, lo := 0xd800 + (c - 0x1_0000) / 1024, 0xdc00 + (c - 0x1_0000) % 1024;
        assert Escaped(cs) == UnicodeEscape(hi) + (UnicodeEscape(lo) + rest);
        UnitOfEscape(hi, UnicodeEscape(lo) + rest);
      } else {
        ShortEscape(c);
        assert Escaped(cs)[0] == EscapeCode(c)[0] && (|EscapeCode(c)| == 2 ==> Escaped(cs)[1] == EscapeCode(c)[1]);
        NoUnit(Escaped(cs));
      }
    }
  }

  /** A character that is written as one `\u` escape. */
  predicate WrittenAsUnit(c: Code) {
    c < 0x1_0000 && EscapeCode(c) == UnicodeEscape(c)
  }

  lemma ShortEscape(c: Code)
    requires c < 0x1_0000 && !WrittenAsUnit(c)
    ensures var e := EscapeCode(c);
            || (e == [c as char] && PlainCode(c))
            || (|e| == 2 && e[0] == '\\' && e[1] != 'u' && Simple(e[1]) == Some(c))
  {
  }

  lemma NoUnit(t: string)
    requires |t| < 2 || t[0] != '\\' || t[1] != 'u'
    ensures UnitAt(t) == None
  {
  }

  lemma FirstOfShort(c: Code, rest: string)
    requires c < 0x1_0000 && !WrittenAsUnit(c)
    ensures EscapeCode(c) != "" && First(EscapeCode(c) + rest) == Some((c, |EscapeCode(c)|))
  {
    hide EscapeCode;
    ShortEscape(c);
    var e := EscapeCode(c);
    assert (e + rest)[0] == e[0] && (|e| == 2 ==> (e + rest)[1] == e[1]);
  }

  lemma FirstOfUnit(c: Code, rest: string)
    requires WrittenAsUnit(c)
    ensures var t := EscapeCode(c) + rest;
            First(t) == if High(c) && UnitAt(rest).Some? && Low(UnitAt(rest).value) then Some((Combined(c, UnitAt(rest).value), 12))
                        else Some((c, 6))
    ensures |EscapeCode(c)| == 6
  {
    hide UnitAt, EscapeCode;
    UnitOfEscape(c, rest);
    assert (UnicodeEscape(c) + rest)[0] == '\\' && (UnicodeEscape(c) + rest)[1] == 'u';
  }

  lemma FirstOfPair(c: Code, rest: string)
    requires c >= 0x1_0000
    ensures First(EscapeCode(c) + rest) == Some((c, 12)) && |EscapeCode(c)| == 12
  {
    hide UnitAt;
    var hi, lo := 0xd800 + (c - 0x1_0000) / 1024, 0xdc00 + (c - 0x1_0000) % 1024;
    var t := UnicodeEscape(hi) + (UnicodeEscape(lo) + rest);
    assert EscapeCode(c) + rest == t;
    UnitOfEscape(hi, UnicodeEscape(lo) + rest);
    UnitOfEscape(lo, rest);
    assert t[0] == '\\' && t[1] == 'u';
  }

  lemma ReadStep(t: string, c: Code, n: nat, rest: string)
    requires t != "" && First(t) == Some((c, n)) && n <= |t| && t[n..] == rest && Unescape(rest).Some?
    ensures Unescape(t) == Some([c] + Unescape(rest).value)
  {
    hide First;
    assert n > 0 by { FirstConsumes(t); }
  }

  lemma FirstConsumes(t: string)
    requires t != "" && First(t).Some?
    ensures First(t).value.1 > 0
  {
    hide UnitAt;
  }

  /** Every written string reads back, but for lone surrogates that stand next to each other as a pair. */
  lemma {:induction false} UnescapeIsMerged(cs: seq<Code>)
    ensures Unescape(Escaped(cs)) == Some(Merged(cs))
    decreases |cs|
  {
    hide UnitAt, EscapeCode, First, WrittenAsUnit, Unescape;
    if cs == [] {
      ReadNothing();
    } else {
      var c, rest := cs[0], Escaped(cs[1..]);
      var t := EscapeCode(c) + rest;
      UnescapeIsMerged(cs[1..]);
      LowFollows(cs[1..]);
      if c >= 0x1_0000 {
        FirstOfPair(c, rest);
        assert t[12..] == rest;
        ReadStep(t, c, 12, rest);
      } else if !WrittenAsUnit(c) {
        FirstOfShort(c, rest);
        SurrogateIsUnit(c);
        assert t[|EscapeCode(c)|..] == rest;
        ReadStep(t, c, |EscapeCode(c)|, rest);
      } else {
        FirstOfUnit(c, rest);
        assert t[6..] == rest;
        if |cs| >= 2 && High(c) && Low(cs[1]) {
          UnescapeIsMerged(cs[2..]);
          SurrogateIsUnit(cs[1]);
          FirstOfUnit(cs[1], Escaped(cs[2..]));
          assert cs[1..][1..] == cs[2..] && rest == EscapeCode(cs[1]) + Escaped(cs[2..]);
          assert t[12..] == Escaped(cs[2..]);
          ReadStep(t, Combined(c, cs[1]), 12, Escaped(cs[2..]));
        } else {
          ReadStep(t, c, 6, rest);
        }
      }
    }
  }

  lemma ReadNothing()
    ensures Unescape("") == Some([])
  {
  }

  lemma SurrogateIsUnit(c: Code)
    ensures High(c) || Low(c) ==> WrittenAsUnit(c)
  {
  }

  predicate Paired(cs: seq<Code>) {
    exists i :: 0 <= i < |cs| - 1 && High(cs[i]) && Low(cs[i + 1])
  }

  lemma {:induction false} MergedSameIff(cs: seq<Code>)
    ensures Merged(cs) == cs <==> !Paired(cs)
    ensures |Merged(cs)| <= |cs| && (Paired(cs) ==> |Merged(cs)| < |cs|)
    decreases |cs|
  {
    if cs != [] {
      var rest := cs[1..];
      if |cs| >= 2 && High(cs[0]) && Low(cs[1]) {
        MergedSameIff(cs[2..]);
      } else {
        MergedSameIff(rest);
        assert cs == [cs[0]] + rest;
        if Paired(cs) {
          var i :| 0 <= i < |cs| - 1 && High(cs[i]) && Low(cs[i + 1]);
          assert i > 0 && rest[i - 1] == cs[i] && rest[i] == cs[i + 1];
        }
        if Paired(rest) {
          var i :| 0 <= i < |rest| - 1 && High(rest[i]) && Low(rest[i + 1]);
          assert cs[i + 1] == rest[i] && cs[i + 1 + 1] == rest[i + 1];
        }
      }
    }
  }
}
