/** The projection of tool names to kernel ops, from the keywords among their components. */
module ToolProjection {

  import opened Results
  import opened Text
  import opened BpfPolicy
  import opened BpfLower

  const EXEC_WORDS := {"bash", "sh", "shell", "exec", "execute", "run", "subprocess", "invoke", "spawn", "terminal", "cmd",
                       "powershell", "script", "make", "npm", "pip", "cargo"}
  const SEND_WORDS := {"email", "sms", "slack", "teams", "webhook", "twilio", "sendgrid", "mailgun", "ses", "push",
                       "notification", "alert"}
  const WRITE_WORDS := {"write", "create", "edit", "update", "delete", "append", "truncate", "overwrite", "save", "modify"}
  const NET_WORDS := {"http", "fetch", "download", "upload", "request", "curl", "wget", "connect", "api", "web"}

  predicate IsSeparator(c: char) {
    c == '_' || c == '-' || IsBlank(c)
  }

  /** The components of a lower-case name whose first component has begun; an empty one matches no keyword. */
  function PartsFrom(part: string, s: string): set<string>
    decreases |s|
  {
    if s == "" then {part}
    else if IsSeparator(s[0]) then {part} + PartsFrom("", s[1..])
    else PartsFrom(part + [s[0]], s[1..])
  }

  /** The first table that has one of the components. */
  function OpOfParts(parts: set<string>): Option<Op> {
    if parts * EXEC_WORDS != {} then Some(Exec)
    else if parts * SEND_WORDS != {} then Some(ExternalSend)
    else if parts * WRITE_WORDS != {} then Some(FileWrite)
    else if parts * NET_WORDS != {} then Some(NetConnect)
    else None
  }

  /** `_tool_to_bpf_op` of a lower-cased name. */
  function ToolOp(name: string): Option<Op> {
    OpOfParts(PartsFrom("", name))
  }

  function Priority(op: Option<Op>): nat {
    match op
    case Some(Exec) => 0
    case Some(ExternalSend) => 1
    case Some(FileWrite) => 2
    case Some(NetConnect) => 3
    case _ => 4
  }

  lemma {:induction false} PartsJoin(part: string, a: string, sep: char, b: string)
    requires IsSeparator(sep)
    ensures PartsFrom(part, a + [sep] + b) == PartsFrom(part, a) + PartsFrom("", b)
    decreases |a|
  {
    if a == "" {
      assert a + [sep] + b == [sep] + b && ([sep] + b)[1..] == b;
    } else {
      assert (a + [sep] + b)[1..] == a[1..] + [sep] + b;
      if IsSeparator(a[0]) { PartsJoin("", a[1..], sep, b); } else { PartsJoin(part + [a[0]], a[1..], sep, b); }
    }
  }

  // ---- components as the characters show them --------------------------------------------------

  predicate Unseparated(s: string) {
    forall i :: 0 <= i < |s| ==> !IsSeparator(s[i])
  }

  /** A component ends at separators or at the ends of the name. */
  predicate ComponentAt(s: string, i: int, x: string) {
    && 0 <= i && i + |x| <= |s| && s[i..i + |x|] == x && Unseparated(x)
    && (i == 0 || IsSeparator(s[i - 1])) && (i + |x| == |s| || IsSeparator(s[i + |x|]))
  }

  ghost predicate HasComponent(s: string, x: string) {
    exists i :: ComponentAt(s, i, x)
  }

  lemma {:induction false} PartsOne(part: string, s: string)
    requires Unseparated(s)
    ensures PartsFrom(part, s) == {part + s}
    decreases |s|
  {
    if s == "" {
      assert part + s == part;
    } else {
      assert part + [s[0]] + s[1..] == part + s;
      PartsOne(part + [s[0]], s[1..]);
    }
  }

  lemma OnlyComponent(s: string, x: string)
    requires Unseparated(s)
    ensures HasComponent(s, x) <==> x == s
  {
    hide IsSeparator;
    if HasComponent(s, x) {
      var i :| ComponentAt(s, i, x);
      assert i == 0 && |x| == |s| && s[0..|s|] == s;
    } else {
      assert s[0..|s|] == s && ComponentAt(s, 0, s);
    }
  }

  /** Where the first component ends. */
  lemma {:induction false} FirstSeparator(s: string) returns (n: nat)
    ensures n <= |s| && Unseparated(s[..n]) && (n < |s| ==> IsSeparator(s[n]))
  {
    hide IsSeparator;
    if s == "" || IsSeparator(s[0]) {
      n := 0;
    } else {
      var k := FirstSeparator(s[1..]);
      n := k + 1;
      assert s[..n] == [s[0]] + s[1..][..k];
    }
  }

  lemma FirstComponent(a: string, sep: char, b: string, x: string)
    requires Unseparated(a) && IsSeparator(sep)
    ensures ComponentAt(a + [sep] + b, 0, x) <==> x == a
  {
    hide IsSeparator;
    var s := a + [sep] + b;
    assert s[0..|a|] == a && s[|a|] == sep;
    assert forall k :: 0 <= k < |a| ==> s[k] == a[k];
    assert |x| <= |s| && s[0..|x|] == x ==> forall k :: 0 <= k < |x| ==> x[k] == s[k];
  }

  lemma LaterComponent(s: string, n: int, i: int, x: string)
    requires 0 < n <= |s| && IsSeparator(s[n - 1]) && i >= n
    ensures ComponentAt(s, i, x) <==> ComponentAt(s[n..], i - n, x)
  {
    hide IsSeparator;
    var b := s[n..];
    if i + |x| <= |s| { SliceOfTail(s, n, i, i + |x|); }
    assert n < i <= |s| ==> s[i - 1] == b[i - 1 - n];
    assert i + |x| < |s| ==> s[i + |x|] == b[i - n + |x|];
  }

  lemma FirstOrLater(a: string, sep: char, b: string, i: int, x: string)
    requires Unseparated(a) && ComponentAt(a + [sep] + b, i, x)
    ensures i == 0 || i > |a|
  {
    hide IsSeparator;
    var s := a + [sep] + b;
    assert forall k :: 0 <= k < |a| ==> s[k] == a[k];
  }

  lemma ComponentsAfter(a: string, sep: char, b: string, x: string)
    requires Unseparated(a) && IsSeparator(sep)
    ensures HasComponent(a + [sep] + b, x) <==> x == a || HasComponent(b, x)
  {
    hide IsSeparator, ComponentAt, Unseparated;
    var s, n := a + [sep] + b, |a| + 1;
    assert s[n - 1] == sep && s[n..] == b;
    FirstComponent(a, sep, b, x);
    if HasComponent(s, x) {
      var i :| ComponentAt(s, i, x);
      FirstOrLater(a, sep, b, i, x);
      if i > 0 { LaterComponent(s, n, i, x); }
    }
    if HasComponent(b, x) {
      var i :| ComponentAt(b, i, x);
      assert i >= 0 by { PlaceIsNat(b, i, x); }
      LaterComponent(s, n, n + i, x);
      assert ComponentAt(s, n + i, x);
    }
  }

  lemma PlaceIsNat(s: string, i: int, x: string)
    requires ComponentAt(s, i, x)
    ensures i >= 0
  {
  }

  lemma SliceOfTail(s: string, n: int, i: int, j: int)
    requires 0 <= n <= i <= j <= |s|
    ensures s[i..j] == s[n..][i - n..j - n]
  {
  }

  /** The loop finds exactly the components that the characters show. */
  lemma {:induction false} PartsIff(s: string, x: string)
    ensures x in PartsFrom("", s) <==> HasComponent(s, x)
    decreases |s|
  {
    hide HasComponent, IsSeparator, PartsFrom;
    var n := FirstSeparator(s);
    if n == |s| {
      assert s[..n] == s && "" + s == s;
      PartsOne("", s);
      OnlyComponent(s, x);
    } else {
      var a, b := s[..n], s[n + 1..];
      assert s == a + [s[n]] + b && "" + a == a;
      PartsJoin("", a, s[n], b);
      PartsOne("", a);
      ComponentsAfter(a, s[n], b, x);
      PartsIff(b, x);
    }
  }

  ghost predicate HasWord(s: string, words: set<string>) {
    exists x :: x in words && HasComponent(s, x)
  }

  lemma HasWordIff(s: string, words: set<string>)
    ensures HasWord(s, words) <==> PartsFrom("", s) * words != {}
  {
    hide HasComponent, PartsFrom;
    if HasWord(s, words) {
      var x :| x in words && HasComponent(s, x);
      PartsIff(s, x);
      assert x in PartsFrom("", s) * words;
    }
    if PartsFrom("", s) * words != {} {
      var x :| x in PartsFrom("", s) * words;
      PartsIff(s, x);
    }
  }

  /** A name is projected to the first op in priority order of which it has a keyword among its components. */
  lemma ToolOpMeaning(name: string)
    ensures ToolOp(name) ==
              if HasWord(name, EXEC_WORDS) then Some(Exec)
              else if HasWord(name, SEND_WORDS) then Some(ExternalSend)
              else if HasWord(name, WRITE_WORDS) then Some(FileWrite)
              else if HasWord(name, NET_WORDS) then Some(NetConnect)
              else None
  {
    hide HasWord, PartsFrom;
    HasWordIff(name, EXEC_WORDS);
    HasWordIff(name, SEND_WORDS);
    HasWordIff(name, WRITE_WORDS);
    HasWordIff(name, NET_WORDS);
  }

  /** A name without underscores, dashes and white space is looked up whole. */
  lemma WholeName(name: string)
    requires forall i :: 0 <= i < |name| ==> name[i] != '_' && name[i] != '-' && !IsBlank(name[i])
    ensures ToolOp(name) ==
              if name in EXEC_WORDS then Some(Exec)
              else if name in SEND_WORDS then Some(ExternalSend)
              else if name in WRITE_WORDS then Some(FileWrite)
              else if name in NET_WORDS then Some(NetConnect)
              else None
  {
    hide IsBlank;
    assert "" + name == name;
    PartsOne("", name);
    assert forall words: set<string> :: {name} * words == if name in words then {name} else {};
  }

  // ---- joined names ------------------------------------------------------------------------------

  lemma UnionOp(x: set<string>, y: set<string>)
    ensures OpOfParts(x + y) == if Priority(OpOfParts(x)) <= Priority(OpOfParts(y)) then OpOfParts(x) else OpOfParts(y)
  {
    assert (x + y) * EXEC_WORDS == x * EXEC_WORDS + y * EXEC_WORDS;
    assert (x + y) * SEND_WORDS == x * SEND_WORDS + y * SEND_WORDS;
    assert (x + y) * WRITE_WORDS == x * WRITE_WORDS + y * WRITE_WORDS;
    assert (x + y) * NET_WORDS == x * NET_WORDS + y * NET_WORDS;
  }

  /** A name made of two names names the op of whichever comes first in the priority order. */
  lemma JoinedNames(a: string, sep: char, b: string)
    requires sep == '_' || sep == '-' || IsBlank(sep)
    ensures ToolOp(a + [sep] + b) == if Priority(ToolOp(a)) <= Priority(ToolOp(b)) then ToolOp(a) else ToolOp(b)
  {
    PartsJoin("", a, sep, b);
    UnionOp(PartsFrom("", a), PartsFrom("", b));
  }

  // ---- the compiler with this projection ----------------------------------------------------

  /** The compiler's environment: names are lower-cased before they are projected. */
  function Projecting(lower: string -> string, isNet: string -> bool): Env {
    Env((tool: string) => ToolOp(lower(tool)), isNet)
  }

  method LowerMission(lower: string -> string, isNet: string -> bool, m: Mission) returns (r: Option<Plan>)
    ensures r.Some? <==> Lowerable(m)
    ensures r.Some? ==> Represents(Projecting(lower, isNet), m, r.value)
  {
    r := LowerToPlan(Projecting(lower, isNet), m);
  }

  function Earlier(a: Option<Op>, b: Option<Op>): Option<Op> {
    if Priority(a) <= Priority(b) then a else b
  }

  /**
   A mission that restricts no class and forbids one tool, whose name joins two names, lowers to a
   plan that denies exactly one op: whichever of the two names' ops comes first in the priority order.
   */
  lemma JoinedForbiddenDenies(lower: string -> string, isNet: string -> bool, m: Mission, p: Plan, tool: string, a: string, sep: char, b: string, op: Op)
    requires Represents(Projecting(lower, isNet), m, p) && m.classes == [] && m.forbidden == [tool]
    requires lower(tool) == a + [sep] + b && (sep == '_' || sep == '-' || IsBlank(sep))
    ensures Lookup(p.entries, op) == Some(Deny) <==> Earlier(ToolOp(a), ToolOp(b)) == Some(op)
  {
    hide ToolOp, ScopePaths, AnySubpath, PolicyPaths, PolicyNets, Nets, AddAllNew, DeclaredTier2, Lookup, WellFormed;
    JoinedNames(a, sep, b);
    var env := Projecting(lower, isNet);
    assert Lookup(p.entries, op) == DeclaredAction(env, m, op);
    assert m.forbidden[0] == tool && env.project(tool) == ToolOp(a + [sep] + b);
  }
}
