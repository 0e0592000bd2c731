/** What glob patterns match, read from their characters. */
module GlobMeaning {

  import opened Paths
  import opened ResourceScope

  /** The same length, and the same characters but at question marks. */
  predicate Agree(p: string, s: string) {
    |s| == |p| && forall i :: 0 <= i < |p| ==> p[i] == '?' || p[i] == s[i]
  }

  lemma AgreeRest(p: string, s: string)
    requires p != "" && s != ""
    ensures Agree(p, s) <==> (p[0] == '?' || p[0] == s[0]) && Agree(p[1..], s[1..])
  {
    var q, t := p[1..], s[1..];
    assert forall i :: 0 <= i < |q| ==> q[i] == p[i + 1];
    assert forall i :: 0 <= i < |t| ==> t[i] == s[i + 1];
    if (p[0] == '?' || p[0] == s[0]) && Agree(q, t) {
      forall i | 0 <= i < |p| ensures p[i] == '?' || p[i] == s[i] { assert i > 0 ==> q[i - 1] == '?' || q[i - 1] == t[i - 1]; }
    }
  }

  /** Without stars and brackets, a pattern matches the texts of its length that agree with it but at its question marks. */
  lemma {:induction false} QuestionMarks(inSet: (string, char) -> bool, p: string, s: string)
    requires '*' !in p && '[' !in p
    ensures Glob(inSet, p, s) <==> Agree(p, s)
  {
    if p != "" {
      assert p[0] in p && forall x :: x in p[1..] ==> x in p;
      assert Tokens(p)[1..] == Tokens(p[1..]);
      if s != "" {
        QuestionMarks(inSet, p[1..], s[1..]);
        AgreeRest(p, s);
      }
    }
  }

  predicate EndsIn(s: string, b: string) {
    |b| <= |s| && s[|s| - |b|..] == b
  }

  lemma {:induction false} StarThen(inSet: (string, char) -> bool, b: string, s: string)
    requires Literal(b)
    ensures Matches(inSet, [Star] + Tokens(b), s) <==> EndsIn(s, b)
    decreases |s|
  {
    var ts := [Star] + Tokens(b);
    assert ts[1..] == Tokens(b);
    LiteralMatchesItself(inSet, b, s);
    if s != "" {
      StarThen(inSet, b, s[1..]);
      assert |b| < |s| ==> s[|s| - |b|..] == s[1..][|s| - 1 - |b|..];
      assert |b| == |s| ==> s[0..] == s;
    }
  }

  lemma {:induction false} LiteralTokens(a: string, p: string)
    requires Literal(a)
    ensures Tokens(a + p) == Tokens(a) + Tokens(p)
  {
    if a == "" {
      assert a + p == p;
    } else {
      assert a[0] in a && forall x :: x in a[1..] ==> x in a;
      assert (a + p)[1..] == a[1..] + p;
      LiteralTokens(a[1..], p);
    }
  }

  lemma {:induction false} LiteralThen(inSet: (string, char) -> bool, a: string, ts: seq<Tok>, s: string)
    requires Literal(a)
    ensures Matches(inSet, Tokens(a) + ts, s) <==> a <= s && Matches(inSet, ts, s[|a|..])
  {
    var all := Tokens(a) + ts;
    if a == "" {
      assert all == ts && s[0..] == s;
    } else {
      assert a[0] in a && forall x :: x in a[1..] ==> x in a;
      assert all[0] == Lit(a[0]) && all[1..] == Tokens(a[1..]) + ts;
      if s != "" {
        LiteralThen(inSet, a[1..], ts, s[1..]);
        assert a == [a[0]] + a[1..] && s == [s[0]] + s[1..];
        assert |a| <= |s| ==> s[|a|..] == s[1..][|a| - 1..];
      }
    }
  }

  /** A star between two literal parts matches exactly the texts that start with the one and end, after it, with the other. */
  lemma StarBetween(inSet: (string, char) -> bool, a: string, b: string, s: string)
    requires Literal(a) && Literal(b)
    ensures Glob(inSet, a + ['*'] + b, s) <==> a <= s && EndsIn(s[|a|..], b)
  {
    hide Matches, Tokens;
    var rest := ['*'] + b;
    assert a + ['*'] + b == a + rest;
    LiteralTokens(a, rest);
    assert Tokens(rest) == [Star] + Tokens(b) by { StarFirst(b); }
    LiteralThen(inSet, a, [Star] + Tokens(b), s);
    if a <= s { StarThen(inSet, b, s[|a|..]); }
  }

  lemma StarFirst(b: string)
    ensures Tokens(['*'] + b) == [Star] + Tokens(b)
  {
    assert (['*'] + b)[1..] == b;
  }

  lemma {:induction false} CloseAt(p: string, j: nat, k: nat)
    requires j <= k < |p| && p[k] == ']' && forall i :: j <= i < k ==> p[i] != ']'
    ensures Close(p, j) == k
    decreases k - j
  {
    if j < k { CloseAt(p, j + 1, k); }
  }

  lemma OneSet(inSet: (string, char) -> bool, body: string, s: string)
    ensures Matches(inSet, [Set(body)], s) <==> |s| == 1 && inSet(body, s[0])
  {
    assert [Set(body)][1..] == [];
    assert s != "" ==> (Matches(inSet, [], s[1..]) <==> |s| == 1);
  }

  /** A closed bracket expression matches one character, of those in it; a closing bracket right after its start belongs to it. */
  lemma BracketTakesOne(inSet: (string, char) -> bool, body: string, s: string)
    requires body != "" && body != "!" && (forall i :: 1 <= i < |body| ==> body[i] == ']' ==> i == 1 && body[0] == '!')
    ensures Glob(inSet, ['['] + body + [']'], s) <==> |s| == 1 && inSet(body, s[0])
  {
    var p := ['['] + body + [']'];
    var k := |body| + 1;
    assert p[k] == ']' && p[1..k] == body && p[k + 1..] == "";
    assert forall i :: 1 <= i < k ==> p[i] == body[i - 1];
    var j := if p[1] == '!' then 2 else 1;
    var from: nat := if j < |p| && p[j] == ']' then j + 1 else j;
    assert from <= k && forall i :: from <= i < k ==> p[i] != ']';
    CloseAt(p, from, k);
    assert SetEnd(p) == k;
    assert Tokens(p) == [Set(body)] + Tokens("") && Tokens("") == [];
    OneSet(inSet, body, s);
  }

  lemma {:induction false} NeverCloses(p: string, j: nat)
    requires j <= |p| && forall i :: j <= i < |p| ==> p[i] != ']'
    ensures Close(p, j) == |p|
    decreases |p| - j
  {
    if j < |p| { NeverCloses(p, j + 1); }
  }

  /** A bracket that is never closed stands for itself. */
  lemma {:induction false} OpenBrackets(inSet: (string, char) -> bool, p: string, s: string)
    requires '*' !in p && '?' !in p && ']' !in p
    ensures Glob(inSet, p, s) <==> s == p
  {
    if p != "" {
      assert p[0] in p && forall x :: x in p[1..] ==> x in p;
      assert forall i :: 0 <= i < |p| ==> p[i] in p;
      NeverCloses(p, 1);
      if |p| >= 2 { NeverCloses(p, 2); }
      assert Tokens(p)[0] == Lit(p[0]) && Tokens(p)[1..] == Tokens(p[1..]);
      if s != "" {
        OpenBrackets(inSet, p[1..], s[1..]);
        assert p == [p[0]] + p[1..] && s == [s[0]] + s[1..];
      }
    }
  }
}
