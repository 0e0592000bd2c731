/** What a resource scope matches: glob matching of its entries, against the attenuation test on them. */
module ResourceScope {

  import opened Results
  import opened Text
  import opened Paths
  import opened Lists
  import opened BiscuitChain

  // ---- fnmatch ---------------------------------------------------------------------------

  /** A glob pattern's parts; a bracket expression is kept as its text. */
  datatype Tok = Star | Any | Set(body: string) | Lit(c: char)

  function Close(p: string, j: nat): (k: nat)
    requires j <= |p|
    ensures j <= k <= |p| && (k < |p| ==> p[k] == ']')
    decreases |p| - j
  {
    if j < |p| && p[j] != ']' then Close(p, j + 1) else j
  }

  /** Where a bracket expression at the start of a text closes; a `]` right after the opening is part of it. */
  function SetEnd(p: string): (k: nat)
    requires p != ""
    ensures 1 <= k <= |p| && (k < |p| ==> p[k] == ']')
  {
    var j := if |p| > 1 && p[1] == '!' then 2 else 1;
    Close(p, if j < |p| && p[j] == ']' then j + 1 else j)
  }

  function Tokens(p: string): seq<Tok>
    decreases |p|
  {
    if p == "" then []
    else if p[0] == '*' then [Star] + Tokens(p[1..])
    else if p[0] == '?' then [Any] + Tokens(p[1..])
    else if p[0] == '[' && SetEnd(p) < |p| then [Set(p[1..SetEnd(p)])] + Tokens(p[SetEnd(p) + 1..])
    else [Lit(p[0])] + Tokens(p[1..])
  }

  /** Whether a bracket expression has a character is a parameter. */
  predicate Takes(inSet: (string, char) -> bool, t: Tok, c: char) {
    match t
    case Star => false
    case Any => true
    case Set(body) => inSet(body, c)
    case Lit(d) => c == d
  }

  predicate Matches(inSet: (string, char) -> bool, ts: seq<Tok>, s: string)
    decreases |ts| + |s|
  {
    if ts == [] then s == ""
    else if ts[0] == Star then Matches(inSet, ts[1..], s) || (s != "" && Matches(inSet, ts, s[1..]))
    else s != "" && Takes(inSet, ts[0], s[0]) && Matches(inSet, ts[1..], s[1..])
  }

  /** `fnmatch.fnmatchcase`. */
  predicate Glob(inSet: (string, char) -> bool, pattern: string, s: string) {
    Matches(inSet, Tokens(pattern), s)
  }

  /** A sanitized resource is in scope if some non-empty entry matches it, and the wildcard entry stands alone. */
  predicate Touches(inSet: (string, char) -> bool, scope: seq<string>, resource: string) {
    StarAlone(scope) && exists i :: 0 <= i < |scope| && scope[i] != "" && Glob(inSet, scope[i], resource)
  }

  // ---- patterns of literals and stars ------------------------------------------------------

  predicate StarOnly(p: string) {
    '?' !in p && '[' !in p
  }

  predicate Literal(p: string) {
    StarOnly(p) && '*' !in p
  }

  /** Only stars, and literals that are neither a star nor the given character. */
  predicate PlainToks(ts: seq<Tok>, z: char) {
    forall i :: 0 <= i < |ts| ==> ts[i] == Star || (ts[i].Lit? && ts[i].c != '*' && ts[i].c != z)
  }

  lemma {:induction false} TokensPlain(p: string, z: char)
    requires StarOnly(p) && z !in p
    ensures PlainToks(Tokens(p), z)
  {
    if p != "" {
      assert p[0] in p && forall c :: c in p[1..] ==> c in p;
      TokensPlain(p[1..], z);
    }
  }

  lemma {:induction false} LiteralMatchesItself(inSet: (string, char) -> bool, c: string, s: string)
    requires Literal(c)
    ensures Glob(inSet, c, s) <==> s == c
  {
    if c != "" {
      assert c[0] in c && forall x :: x in c[1..] ==> x in c;
      var ts := Tokens(c);
      assert ts[0] == Lit(c[0]) && ts[1..] == Tokens(c[1..]);
      if s != "" {
        LiteralMatchesItself(inSet, c[1..], s[1..]);
        assert c == [c[0]] + c[1..] && s == [s[0]] + s[1..];
      }
    }
  }

  /** If a pattern matches the text of another, it matches whatever the other matches. */
  lemma {:induction false} MatchCompose(inSet: (string, char) -> bool, ts: seq<Tok>, c: string, s: string)
    requires PlainToks(ts, '*') && StarOnly(c) && Matches(inSet, ts, c) && Glob(inSet, c, s)
    ensures Matches(inSet, ts, s)
    decreases |ts| + |c| + |s|
  {
    if c != "" {
      assert c[0] in c && forall x :: x in c[1..] ==> x in c;
      assert Tokens(c)[1..] == Tokens(c[1..]);
    }
    if ts != [] {
      if ts[0] == Star && Matches(inSet, ts[1..], c) {
        MatchCompose(inSet, ts[1..], c, s);
      } else if ts[0] == Star {
        if c[0] == '*' && Glob(inSet, c[1..], s) {
          MatchCompose(inSet, ts, c[1..], s);
        } else if c[0] == '*' {
          MatchCompose(inSet, ts, c, s[1..]);
        } else {
          MatchCompose(inSet, ts, c[1..], s[1..]);
        }
      } else {
        MatchCompose(inSet, ts[1..], c[1..], s[1..]);
      }
    }
  }

  /** The text with every star replaced by one character. */
  function Filled(c: string, z: char): (r: string)
    ensures |r| == |c|
  {
    if c == "" then "" else [if c[0] == '*' then z else c[0]] + Filled(c[1..], z)
  }

  lemma {:induction false} FilledMatches(inSet: (string, char) -> bool, c: string, z: char)
    requires StarOnly(c)
    ensures Glob(inSet, c, Filled(c, z))
  {
    if c != "" {
      assert c[0] in c && forall x :: x in c[1..] ==> x in c;
      FilledMatches(inSet, c[1..], z);
      var ts, s := Tokens(c), Filled(c, z);
      assert ts[1..] == Tokens(c[1..]) && s[1..] == Filled(c[1..], z);
      if c[0] == '*' { assert Matches(inSet, ts[1..], s[1..]) && Matches(inSet, ts, s[1..]); }
    }
  }

  lemma {:induction false} FilledLiteral(c: string, z: char)
    requires '*' !in c
    ensures Filled(c, z) == c
  {
    if c != "" {
      assert c[0] in c && forall x :: x in c[1..] ==> x in c;
      FilledLiteral(c[1..], z);
    }
  }

  /** A pattern that does not mention the character takes it only by a star, so it takes the star itself. */
  lemma {:induction false} UnfilledMatches(inSet: (string, char) -> bool, ts: seq<Tok>, c: string, z: char)
    requires PlainToks(ts, z) && Matches(inSet, ts, Filled(c, z))
    ensures Matches(inSet, ts, c)
    decreases |ts| + |c|
  {
    if ts != [] {
      if c != "" { assert Filled(c, z)[1..] == Filled(c[1..], z); }
      if ts[0] == Star && Matches(inSet, ts[1..], Filled(c, z)) {
        UnfilledMatches(inSet, ts[1..], c, z);
      } else if ts[0] == Star {
        UnfilledMatches(inSet, ts, c[1..], z);
      } else {
        UnfilledMatches(inSet, ts[1..], c[1..], z);
      }
    }
  }

  // ---- when a narrowed scope matches no more ------------------------------------------------

  /** A child entry that can be compared: a literal, or stars and literals against parents of that kind, with a character none of them mentions. */
  predicate Comparable(entry: string, parent: seq<string>, z: char) {
    Literal(entry) || (StarOnly(entry) && forall k :: 0 <= k < |parent| ==> StarOnly(parent[k]) && z !in parent[k])
  }

  /** Some parent entry matches the text of the entry. */
  predicate Globbed(inSet: (string, char) -> bool, entry: string, parent: seq<string>) {
    exists k :: 0 <= k < |parent| && parent[k] != "" && Glob(inSet, parent[k], entry)
  }

  lemma EntryTouchesLess(inSet: (string, char) -> bool, entry: string, parent: seq<string>, z: char, resource: string)
    requires Comparable(entry, parent, z) && StarAlone(parent) && Globbed(inSet, entry, parent) && Glob(inSet, entry, resource)
    ensures Touches(inSet, parent, resource)
  {
    hide Matches, Tokens, StarAlone;
    var k :| 0 <= k < |parent| && parent[k] != "" && Glob(inSet, parent[k], entry);
    if Literal(entry) {
      LiteralMatchesItself(inSet, entry, resource);
    } else {
      TokensPlain(parent[k], z);
      MatchCompose(inSet, Tokens(parent[k]), entry, resource);
    }
  }

  lemma EntryIsGlobbed(inSet: (string, char) -> bool, entry: string, parent: seq<string>, z: char)
    requires Comparable(entry, parent, z) && Touches(inSet, parent, Filled(entry, z))
    ensures Globbed(inSet, entry, parent)
  {
    hide Matches, Tokens, StarAlone;
    var k :| 0 <= k < |parent| && parent[k] != "" && Glob(inSet, parent[k], Filled(entry, z));
    if Literal(entry) {
      FilledLiteral(entry, z);
    } else {
      TokensPlain(parent[k], z);
      UnfilledMatches(inSet, Tokens(parent[k]), entry, z);
    }
  }

  /**
   A child's scope matches no resource beyond its parent's exactly if the text of each of its
   entries is matched by some entry of the parent.
   */
  lemma TouchesNoMoreIff(inSet: (string, char) -> bool, child: seq<string>, parent: seq<string>, z: char)
    requires StarAlone(child) && StarAlone(parent) && forall i :: 0 <= i < |child| ==> Comparable(child[i], parent, z)
    ensures (forall r :: Touches(inSet, child, r) ==> Touches(inSet, parent, r))
            <==> forall i :: 0 <= i < |child| && child[i] != "" ==> Globbed(inSet, child[i], parent)
  {
    hide Glob, StarAlone, Comparable, Globbed;
    if forall r :: Touches(inSet, child, r) ==> Touches(inSet, parent, r) {
      forall i | 0 <= i < |child| && child[i] != "" ensures Globbed(inSet, child[i], parent) {
        assert StarOnly(child[i]) by { ComparableIsStarOnly(child[i], parent, z); }
        FilledMatches(inSet, child[i], z);
        assert Touches(inSet, child, Filled(child[i], z));
        EntryIsGlobbed(inSet, child[i], parent, z);
      }
    }
    if forall i :: 0 <= i < |child| && child[i] != "" ==> Globbed(inSet, child[i], parent) {
      forall r | Touches(inSet, child, r) ensures Touches(inSet, parent, r) {
        var i :| 0 <= i < |child| && child[i] != "" && Glob(inSet, child[i], r);
        EntryTouchesLess(inSet, child[i], parent, z, r);
      }
    }
  }

  lemma ComparableIsStarOnly(entry: string, parent: seq<string>, z: char)
    requires Comparable(entry, parent, z)
    ensures StarOnly(entry)
  {
  }

  // ---- all patterns, one way ------------------------------------------------------------------

  /** Whether one pattern takes in another part by part: a star takes any parts, and no other part takes a star. */
  predicate Covers(inSet: (string, char) -> bool, ts: seq<Tok>, cs: seq<Tok>)
    decreases |ts| + |cs|
  {
    if ts == [] then cs == []
    else if ts[0] == Star then Covers(inSet, ts[1..], cs) || (cs != [] && Covers(inSet, ts, cs[1..]))
    else cs != [] && TakesPart(inSet, ts[0], cs[0]) && Covers(inSet, ts[1..], cs[1..])
  }

  predicate TakesPart(inSet: (string, char) -> bool, t: Tok, c: Tok) {
    match c
    case Star => false
    case Any => t == Any
    case Set(_) => t == Any || t == c
    case Lit(x) => Takes(inSet, t, x)
  }

  /** A pattern that takes in another matches whatever the other matches, brackets and question marks included. */
  lemma {:induction false} CoversCompose(inSet: (string, char) -> bool, ts: seq<Tok>, cs: seq<Tok>, s: string)
    requires Covers(inSet, ts, cs) && Matches(inSet, cs, s)
    ensures Matches(inSet, ts, s)
    decreases |ts| + |cs| + |s|
  {
    if ts != [] {
      if ts[0] == Star && Covers(inSet, ts[1..], cs) {
        CoversCompose(inSet, ts[1..], cs, s);
      } else if ts[0] == Star {
        if cs[0] == Star && Matches(inSet, cs[1..], s) {
          CoversCompose(inSet, ts, cs[1..], s);
        } else if cs[0] == Star {
          CoversCompose(inSet, ts, cs, s[1..]);
        } else {
          CoversCompose(inSet, ts, cs[1..], s[1..]);
        }
      } else {
        CoversCompose(inSet, ts[1..], cs[1..], s[1..]);
      }
    }
  }

  predicate EntryTaken(inSet: (string, char) -> bool, entry: string, parent: seq<string>) {
    exists k :: 0 <= k < |parent| && parent[k] != "" && Covers(inSet, Tokens(parent[k]), Tokens(entry))
  }

  /** For entries of any kind: if each is taken in by an entry of the parent, the child's scope matches no resource beyond the parent's. */
  lemma TakenTouchesNoMore(inSet: (string, char) -> bool, child: seq<string>, parent: seq<string>, resource: string)
    requires StarAlone(parent) && (forall i :: 0 <= i < |child| && child[i] != "" ==> EntryTaken(inSet, child[i], parent))
    requires Touches(inSet, child, resource)
    ensures Touches(inSet, parent, resource)
  {
    hide Matches, Covers, Tokens, StarAlone;
    var i :| 0 <= i < |child| && child[i] != "" && Glob(inSet, child[i], resource);
    var k :| 0 <= k < |parent| && parent[k] != "" && Covers(inSet, Tokens(parent[k]), Tokens(child[i]));
    CoversCompose(inSet, Tokens(parent[k]), Tokens(child[i]), resource);
  }

  // ---- a scope that passes the attenuation test and still matches more -----------------------

  lemma NormalOneTwo()
    ensures NormalizeCwd("/a") == Ok(Some("/a")) && NormalizeCwd("/a/b") == Ok(Some("/a/b"))
  {
    hide Split, Strip, KeepSegments;
    StripTrimmed("/a");
    StripTrimmed("/a/b");
    assert "/a" == ['/'] + "a" && "/a/b" == ['/'] + "a/b" && "a/b" == "a" + ['/'] + "b";
    SplitSlash("a");
    SplitSlash("a/b");
    SplitOne("a");
    SplitOne("b");
    SplitHead("a", "b");
    KeepKept(["a"]);
    KeepKept(["a", "b"]);
    KeepEmptyHead(["a"]);
    KeepEmptyHead(["a", "b"]);
    assert Split("/a") == [""] + ["a"] && Split("/a/b") == [""] + ["a", "b"];
    assert Join(["a"]) == "a" && ["a", "b"][1..] == ["b"] && Join(["b"]) == "b" && Join(["a", "b"]) == "a/b";
    assert ".." !in Split("/a") && ".." !in Split("/a/b");
  }

  lemma BelowNarrower()
    ensures ScopeEntryNarrower("/a/b", "/a")
  {
    hide NormalizeCwd;
    NormalOneTwo();
    assert "/a" + ['/'] <= "/a/b";
  }

  /** The attenuation test takes `/a` to contain `/a/b`; as a pattern, `/a` matches itself only. */
  lemma NarrowedScopeTouchesMore(inSet: (string, char) -> bool)
    ensures DeriveScope(["/a"], ["/a/b"]) == Some(["/a/b"])
    ensures Touches(inSet, ["/a/b"], "/a/b") && !Touches(inSet, ["/a"], "/a/b")
  {
    hide NormalizeCwd, Tokens, Matches;
    BelowNarrower();
    DedupeDistinct(["/a/b"]);
    assert EntryCovered("/a/b", ["/a"]) by { assert ["/a"][0] == "/a"; }
    LiteralMatchesItself(inSet, "/a/b", "/a/b");
    LiteralMatchesItself(inSet, "/a", "/a/b");
    assert ["/a/b"][0] == "/a/b";
  }
}
