/** The receipt chain file: tokens on lines, the parent lookup in its tail, and chain verification. */
module ReceiptChain {

  import opened Results
  import opened Text

  /** Collision-free hashing: a digest is known by the text it was taken from. */
  datatype Digest = Sha(text: string)

  /** The claims of a receipt that the hook reads; `body` is all the rest. */
  datatype Claims = Claims(stepId: string, verdict: string, grantId: string, sideEffect: string, parent: Option<Digest>, body: string)

  /** The signing key and its public half. */
  datatype Signer = Signer(sign: Claims -> string, open: string -> Option<Claims>)

  /** Tokens are visible ASCII, as compact JWTs are. */
  predicate TokenText(t: string) {
    t != "" && forall i :: 0 <= i < |t| ==> t[i] as int < 128 && !IsBlank(t[i])
  }

  ghost predicate Sound(key: Signer) {
    forall c :: key.open(key.sign(c)) == Some(c) && TokenText(key.sign(c))
  }

  // ---- lines --------------------------------------------------------------------------

  /** The characters at which `str.splitlines` breaks. */
  predicate IsBreak(c: char) {
    var n := c as int;
    10 <= n <= 13 || 28 <= n <= 30 || n == 133 || n == 8232 || n == 8233
  }

  /** The non-blank stripped lines of a text whose first line has begun. */
  function LinesFrom(line: string, s: string): seq<string>
    decreases |s|
  {
    if s == "" then Flushed(line)
    else if IsBreak(s[0]) then Flushed(line) + LinesFrom("", s[1..])
    else LinesFrom(line + [s[0]], s[1..])
  }

  function Lines(s: string): seq<string> {
    LinesFrom("", s)
  }

  /** A chain file as appends build it. */
  function FileOf(tokens: seq<string>): string {
    if tokens == [] then "" else FileOf(tokens[..|tokens| - 1]) + tokens[|tokens| - 1] + "\n"
  }

  predicate AllTokens(tokens: seq<string>) {
    forall i :: 0 <= i < |tokens| ==> TokenText(tokens[i])
  }

  lemma {:induction false} LinesSplit(line: string, a: string, b: string)
    ensures LinesFrom(line, a + "\n" + b) == LinesFrom(line, a + "\n") + Lines(b)
    decreases |a|
  {
    hide Strip;
    if a == "" {
      assert a + "\n" + b == "\n" + b && ("\n" + b)[1..] == b && (a + "\n")[1..] == "";
      assert Lines("") == [] by { StripTrimmed(""); }
    } else {
      assert (a + "\n" + b)[1..] == a[1..] + "\n" + b && (a + "\n")[1..] == a[1..] + "\n";
      if IsBreak(a[0]) { LinesSplit("", a[1..], b); } else { LinesSplit(line + [a[0]], a[1..], b); }
    }
  }

  lemma {:induction false} LinesOfToken(line: string, t: string)
    requires TokenText(line + t)
    ensures LinesFrom(line, t + "\n") == [line + t]
    decreases |t|
  {
    hide Strip;
    if t == "" {
      assert (t + "\n")[1..] == "" && line + t == line;
      StripTrimmed(line);
      StripTrimmed("");
    } else {
      assert !IsBlank((line + t)[|line|]) && (line + t)[|line|] == t[0];
      BreakIsBlank(t[0]);
      assert (t + "\n")[1..] == t[1..] + "\n" && line + [t[0]] + t[1..] == line + t;
      LinesOfToken(line + [t[0]], t[1..]);
    }
  }

  lemma BreakIsBlank(c: char)
    ensures IsBreak(c) ==> IsBlank(c)
  {
  }

  /** Reading the file gives back the tokens that were appended. */
  lemma {:induction false} LinesOfFile(tokens: seq<string>)
    requires AllTokens(tokens)
    ensures Lines(FileOf(tokens)) == tokens
    decreases |tokens|
  {
    hide Strip, TokenText;
    if tokens == [] {
      StripTrimmed("");
    } else {
      var init, t := tokens[..|tokens| - 1], tokens[|tokens| - 1];
      LinesOfFile(init);
      assert "" + t == t;
      LinesOfToken("", t);
      if init == [] {
        assert FileOf(tokens) == t + "\n";
      } else {
        var pre := FileWithoutNewline(init);
        assert FileOf(tokens) == pre + "\n" + (t + "\n");
        LinesSplit("", pre, t + "\n");
      }
      assert tokens == init + [t];
    }
  }

  /** A non-empty chain file ends in a newline. */
  lemma FileWithoutNewline(tokens: seq<string>) returns (pre: string)
    requires tokens != []
    ensures FileOf(tokens) == pre + "\n"
  {
    pre := FileOf(tokens[..|tokens| - 1]) + tokens[|tokens| - 1];
  }

  // ---- the parent lookup -------------------------------------------------------------

  const TAIL_BYTES := 16 * 1024

  function Tail(content: string): string {
    if |content| <= TAIL_BYTES then content else content[|content| - TAIL_BYTES..]
  }

  /** `_previous_receipt_hash_unlocked`; an absent file reads as an empty one. */
  function PreviousHash(content: string): Option<Digest> {
    var lines := Lines(Tail(content));
    if lines == [] then None else Some(Sha(lines[|lines| - 1]))
  }

  /** The last line, after any part of the file before it that still ends its own line. */
  lemma LastLineOf(x: string, t: string)
    requires TokenText(t) && (x == "" || x[|x| - 1] == '\n')
    ensures Lines(x + t + "\n") != [] && Lines(x + t + "\n")[|Lines(x + t + "\n")| - 1] == t
  {
    hide LinesFrom, TokenText;
    assert "" + t == t;
    LinesOfToken("", t);
    if x == "" {
      assert x + t + "\n" == t + "\n";
    } else {
      var pre := x[..|x| - 1];
      assert x == pre + "\n";
      assert x + t + "\n" == pre + "\n" + (t + "\n");
      LinesSplit("", pre, t + "\n");
    }
  }

  lemma SuffixIsToken(t: string, k: nat)
    requires TokenText(t) && k < |t|
    ensures TokenText(t[k..])
  {
  }

  lemma {:induction false} LastFits(tokens: seq<string>, t: string)
    requires tokens != [] && AllTokens(tokens) && t == tokens[|tokens| - 1] && |t| + 1 <= TAIL_BYTES
    ensures PreviousHash(FileOf(tokens)) == Some(Sha(t))
  {
    hide LinesFrom, TokenText;
    var content := FileOf(tokens);
    var pre := FileOf(tokens[..|tokens| - 1]);
    var cut := if |content| <= TAIL_BYTES then 0 else |content| - TAIL_BYTES;
    var x := pre[cut..];
    assert Tail(content) == x + t + "\n";
    if x != "" && tokens[..|tokens| - 1] != [] {
      var p := FileWithoutNewline(tokens[..|tokens| - 1]);
      assert pre == p + "\n" && x[|x| - 1] == '\n';
    }
    LastLineOf(x, t);
  }

  lemma LastTooLong(tokens: seq<string>, t: string)
    requires tokens != [] && AllTokens(tokens) && t == tokens[|tokens| - 1] && |t| + 1 > TAIL_BYTES
    ensures PreviousHash(FileOf(tokens)).Some? && PreviousHash(FileOf(tokens)) != Some(Sha(t))
  {
    hide LinesFrom, TokenText, Tail;
    var k := |t| + 1 - TAIL_BYTES;
    var s := t[k..];
    SuffixIsToken(t, k);
    TailOfLong(FileOf(tokens[..|tokens| - 1]), t, k);
    LastLineOf("", s);
    assert "" + s + "\n" == s + "\n";
  }

  lemma TailOfLong(pre: string, t: string, k: nat)
    requires k == |t| + 1 - TAIL_BYTES && 0 < k <= |t|
    ensures Tail(pre + t + "\n") == t[k..] + "\n"
  {
    var content := pre + t + "\n";
    assert |content| > TAIL_BYTES && content[|pre| + k..] == t[k..] + "\n";
  }

  /** The tail lookup names the last appended token exactly if that token and its newline fit in the tail. */
  lemma PreviousIsLastIff(tokens: seq<string>)
    requires tokens != [] && AllTokens(tokens)
    ensures PreviousHash(FileOf(tokens)) == Some(Sha(tokens[|tokens| - 1])) <==> |tokens[|tokens| - 1]| + 1 <= TAIL_BYTES
  {
    hide PreviousHash, FileOf, TokenText;
    var t := tokens[|tokens| - 1];
    if |t| + 1 <= TAIL_BYTES { LastFits(tokens, t); } else { LastTooLong(tokens, t); }
  }

  lemma PreviousOfEmpty()
    ensures PreviousHash("") == None
  {
    StripTrimmed("");
  }

  // ---- verification --------------------------------------------------------------------

  /** The parent that a token at this place must name. */
  function Expected(tokens: seq<string>, i: nat): Option<Digest>
    requires i < |tokens|
  {
    if i == 0 then None else Some(Sha(tokens[i - 1]))
  }

  predicate Links(key: Signer, tokens: seq<string>, i: nat)
    requires i < |tokens|
  {
    key.open(tokens[i]).Some? && key.open(tokens[i]).value.parent == Expected(tokens, i)
  }

  predicate Verifies(key: Signer, tokens: seq<string>) {
    forall i :: 0 <= i < |tokens| ==> Links(key, tokens, i)
  }

  function Opened(key: Signer, tokens: seq<string>): (r: seq<Claims>)
    requires Verifies(key, tokens)
  {
    seq(|tokens|, i requires 0 <= i < |tokens| => (assert Links(key, tokens, i); key.open(tokens[i]).value))
  }

  /** `verify_chain`; None where it raises. */
  function VerifyChain(key: Signer, tokens: seq<string>): Option<seq<Claims>> {
    if Verifies(key, tokens) then Some(Opened(key, tokens)) else None
  }

  /** Its two passes: every signature first, then every link. */
  method VerifyReceipts(key: Signer, tokens: seq<string>) returns (r: Option<seq<Claims>>)
    ensures r == VerifyChain(key, tokens)
  {
    var verified: seq<Claims> := [];
    var i := 0;
    while i < |tokens|
      invariant 0 <= i == |verified| <= |tokens|
      invariant forall k :: 0 <= k < i ==> key.open(tokens[k]) == Some(verified[k])
    {
      var claims := key.open(tokens[i]);
      if claims.None? {
        assert !Links(key, tokens, i);
        return None;
      }
      verified := verified + [claims.value];
      i := i + 1;
    }
    i := 0;
    while i < |tokens|
      invariant 0 <= i <= |tokens|
      invariant forall k :: 0 <= k < i ==> Links(key, tokens, k)
    {
      if i == 0 {
        if verified[0].parent != None {
          assert !Links(key, tokens, 0);
          return None;
        }
      } else if verified[i].parent != Some(Sha(tokens[i - 1])) {
        assert !Links(key, tokens, i);
        return None;
      }
      i := i + 1;
    }
    assert verified == Opened(key, tokens);
    return Some(verified);
  }

  // ---- counting ------------------------------------------------------------------------

  predicate EndsWith(s: string, suffix: string) {
    |suffix| <= |s| && s[|s| - |suffix|..] == suffix
  }

  /** A permitted call: a pre receipt with a compliant verdict. */
  predicate Permits(c: Claims) {
    EndsWith(c.stepId, ":pre") && c.verdict == "compliant"
  }

  predicate Counted(c: Claims, grant: string) {
    Permits(c) && c.grantId == grant
  }

  function Spent(spent: map<string, nat>, cls: string): nat {
    if cls in spent then spent[cls] else 0
  }

  function Bump(spent: map<string, nat>, cls: string): map<string, nat> {
    spent[cls := Spent(spent, cls) + 1]
  }

  datatype Count = Count(total: nat, byClass: map<string, nat>)

  function Add(n: Count, c: Claims): Count {
    Count(n.total + 1, Bump(n.byClass, c.sideEffect))
  }

  /** The permitted calls of a grant among some receipts. */
  function Recount(claims: seq<Claims>, grant: string): Count {
    if claims == [] then Count(0, map[])
    else
      var n, last := Recount(claims[..|claims| - 1], grant), claims[|claims| - 1];
      if Counted(last, grant) then Add(n, last) else n
  }

  /** The receipts of a grant that permitted a call, by their places. */
  function PermittedAt(claims: seq<Claims>, grant: string): set<int> {
    set i | 0 <= i < |claims|
            && |claims[i].stepId| >= 4 && claims[i].stepId[|claims[i].stepId| - 4..] == ":pre"
            && claims[i].verdict == "compliant" && claims[i].grantId == grant
  }

  function OfClass(claims: seq<Claims>, places: set<int>, cls: string): set<int> {
    set i | i in places && 0 <= i < |claims| && claims[i].sideEffect == cls
  }

  lemma PermittedMore(claims: seq<Claims>, grant: string)
    requires claims != []
    ensures var n := |claims| - 1; var init := claims[..n];
            && (Counted(claims[n], grant) <==> n in PermittedAt(claims, grant))
            && PermittedAt(init, grant) == PermittedAt(claims, grant) - {n}
            && forall cls :: OfClass(init, PermittedAt(init, grant), cls) == OfClass(claims, PermittedAt(claims, grant), cls) - {n}
  {
    var n := |claims| - 1;
    var init := claims[..n];
    assert forall i :: 0 <= i < n ==> init[i] == claims[i];
    assert Counted(claims[n], grant) <==> n in PermittedAt(claims, grant);
    assert PermittedAt(init, grant) == PermittedAt(claims, grant) - {n};
  }

  lemma WithoutOne(s: set<int>, n: int)
    ensures |s - {n}| == if n in s then |s| - 1 else |s|
  {
    if n !in s { assert s - {n} == s; }
  }

  /**
   What a recount says: the total is the number of compliant pre receipts of the grant, and a class is
   listed exactly if there is one of it, with their number.
   */
  lemma {:induction false} RecountMeaning(claims: seq<Claims>, grant: string, cls: string)
    ensures var n, places := Recount(claims, grant), PermittedAt(claims, grant);
            var ofClass := OfClass(claims, places, cls);
            && n.total == |places|
            && (cls in n.byClass <==> ofClass != {})
            && (cls in n.byClass ==> n.byClass[cls] == |ofClass|)
  {
    hide PermittedAt, OfClass, Counted;
    if claims == [] {
      assert PermittedAt([], grant) == {} && OfClass([], {}, cls) == {} by { NoneAt(grant, cls); }
    } else {
      var last := |claims| - 1;
      var places := PermittedAt(claims, grant);
      RecountMeaning(claims[..last], grant, cls);
      PermittedMore(claims, grant);
      WithoutOne(places, last);
      WithoutOne(OfClass(claims, places, cls), last);
      LastOfClass(claims, places, cls);
    }
  }

  lemma LastOfClass(claims: seq<Claims>, places: set<int>, cls: string)
    requires claims != []
    ensures |claims| - 1 in OfClass(claims, places, cls) <==> |claims| - 1 in places && claims[|claims| - 1].sideEffect == cls
  {
  }

  lemma NoneAt(grant: string, cls: string)
    ensures PermittedAt([], grant) == {} && OfClass([], {}, cls) == {}
  {
  }

  /** The filter and the loop that count them. */
  method CountPermitted(claims: seq<Claims>, grant: string) returns (n: Count)
    ensures n == Recount(claims, grant)
    ensures n.total == |PermittedAt(claims, grant)|
    ensures forall cls :: cls in n.byClass ==> n.byClass[cls] == |OfClass(claims, PermittedAt(claims, grant), cls)|
    ensures forall cls :: cls in n.byClass <==> OfClass(claims, PermittedAt(claims, grant), cls) != {}
  {
    hide PermittedAt, OfClass;
    var total: nat := 0;
    var byClass: map<string, nat> := map[];
    var i := 0;
    while i < |claims|
      invariant 0 <= i <= |claims| && Count(total, byClass) == Recount(claims[..i], grant)
    {
      assert claims[..i + 1][..i] == claims[..i];
      if Counted(claims[i], grant) {
        total := total + 1;
        byClass := Bump(byClass, claims[i].sideEffect);
      }
      i := i + 1;
    }
    assert claims[..|claims|] == claims;
    RecountMeaning(claims, grant, "");
    forall cls
      ensures cls in byClass ==> byClass[cls] == |OfClass(claims, PermittedAt(claims, grant), cls)|
      ensures cls in byClass <==> OfClass(claims, PermittedAt(claims, grant), cls) != {}
    {
      RecountMeaning(claims, grant, cls);
    }
    return Count(total, byClass);
  }

  ghost predicate AtLeast(a: Count, b: Count) {
    a.total >= b.total && forall cls :: Spent(a.byClass, cls) >= Spent(b.byClass, cls)
  }

  lemma AddMonotone(a: Count, b: Count, c: Claims)
    requires AtLeast(a, b)
    ensures AtLeast(Add(a, c), Add(b, c)) && AtLeast(Add(a, c), b)
  {
    forall cls ensures Spent(Add(a, c).byClass, cls) >= Spent(Add(b, c).byClass, cls) >= Spent(b.byClass, cls) {
      assert Spent(a.byClass, cls) >= Spent(b.byClass, cls);
    }
  }
}
