/** Python string helpers that the modelled code relies on. */
module Text {

  /** The characters for which `str.isspace` holds, hence what `strip` removes. */
  predicate IsBlank(c: char) {
    var n := c as int;
    || 9 <= n <= 13 || 28 <= n <= 32 || n == 133 || n == 160 || n == 5760 || 8192 <= n <= 8202
    || n == 8232 || n == 8233 || n == 8239 || n == 8287 || n == 12288
  }

  predicate AllBlank(s: string) {
    forall i :: 0 <= i < |s| ==> IsBlank(s[i])
  }

  function StripLeft(s: string): (r: string)
    ensures r != "" ==> !IsBlank(r[0])
    ensures |r| <= |s| && r == s[|s| - |r|..] && AllBlank(s[..|s| - |r|])
  {
    if s != "" && IsBlank(s[0]) then
      var r := StripLeft(s[1..]);
      assert s[..|s| - |r|] == [s[0]] + s[1..][..|s| - 1 - |r|];
      r
    else s
  }

  function StripRight(s: string): (r: string)
    ensures r != "" ==> !IsBlank(r[|r| - 1])
    ensures r <= s && AllBlank(s[|r|..])
  {
    if s != "" && IsBlank(s[|s| - 1]) then
      var r := StripRight(s[..|s| - 1]);
      assert s[|r|..] == s[..|s| - 1][|r|..] + [s[|s| - 1]];
      r
    else s
  }

  function Strip(s: string): string {
    StripRight(StripLeft(s))
  }

  /** A text that begins and ends with visible characters is its own strip. */
  predicate Trimmed(s: string) {
    s != "" ==> !IsBlank(s[0]) && !IsBlank(s[|s| - 1])
  }

  lemma StripTrimmed(s: string)
    requires Trimmed(s)
    ensures Strip(s) == s
  {
  }

  lemma StripIsTrimmed(s: string)
    ensures Trimmed(Strip(s))
  {
    var l := StripLeft(s);
    if Strip(s) != "" { assert Strip(s)[0] == l[0]; }
  }

  lemma BlankStrips(s: string)
    ensures AllBlank(s) <==> Strip(s) == ""
  {
    hide IsBlank;
    var l := StripLeft(s);
    assert s == s[..|s| - |l|] + l;
    assert l != "" ==> l[0] == s[|s| - |l|] && !IsBlank(s[|s| - |l|]);
  }

  /** A line or statement as a list: stripped, and left out if nothing is left of it. */
  function Flushed(line: string): seq<string> {
    if Strip(line) != "" then [Strip(line)] else []
  }

  lemma StripShrinks(s: string)
    ensures |Strip(s)| <= |s| && (Trimmed(s) <==> |Strip(s)| == |s|)
  {
    StripIsTrimmed(s);
    if Trimmed(s) { StripTrimmed(s); }
    assert |Strip(s)| == |s| ==> StripLeft(s) == s && Strip(s) == s;
  }

  /** Encoded length in UTF-8. */
  function Utf8Length(s: string): nat {
    if s == "" then 0
    else
      var n := s[0] as int;
      (if n < 0x80 then 1 else if n < 0x800 then 2 else if n < 0x1_0000 then 3 else 4) + Utf8Length(s[1..])
  }
}
