/** Deriving a child passport, and the round trip from what was derived to what verification grants. */
module BiscuitDerive {

  import opened Results
  import opened Text
  import opened Paths
  import opened Lists
  import opened PassportFacts
  import opened BiscuitChain
  import opened BiscuitVerify
  import opened BiscuitAttenuation

  /** The arguments of `derive_child_biscuit`; None is an argument left out. */
  datatype Request = Request(
    spiffeId: string,
    tools: Option<seq<string>>,
    scope: Option<seq<string>>,
    maxCalls: Option<int>,
    maxDuration: Option<int>,
    caps: Option<map<string, int>>,
    cwd: Option<string>)

  /** What a derivation decides before it writes the block. */
  datatype Grant = Grant(
    spiffeId: string,
    tools: seq<string>,
    forbidden: seq<string>,
    scope: seq<string>,
    scopeCleared: bool,
    maxCalls: int,
    exp: int,
    caps: map<string, int>,
    cwd: Option<string>)

  // ---- deciding the grant ------------------------------------------------------------

  function Without(xs: seq<string>, ys: seq<string>): (r: seq<string>)
    ensures forall x :: x in r <==> x in xs && x !in ys
  {
    if xs == [] then []
    else
      assert xs == [xs[0]] + xs[1..];
      var rest := Without(xs[1..], ys);
      if xs[0] in ys then rest else [xs[0]] + rest
  }

  function FinalTools(p: Effective, requested: Option<seq<string>>): Option<seq<string>> {
    if requested.None? then Some(p.allowed)
    else
      var tools := Dedupe(requested.value);
      if forall t :: t in tools ==> t in p.allowed && t !in p.forbidden then Some(tools) else None
  }

  function FinalForbidden(p: Effective, tools: seq<string>): seq<string> {
    Sorted(Dedupe(p.forbidden + Without(p.allowed, tools)))
  }

  function FinalScope(p: Effective, requested: Option<seq<string>>): Option<seq<string>> {
    if requested.None? then Some(p.scope) else DeriveScope(p.scope, requested.value)
  }

  function FinalCalls(p: Effective, requested: Option<int>): Option<int> {
    if requested.None? then Some(p.maxCalls)
    else if 0 <= requested.value <= p.maxCalls then requested else None
  }

  function FinalDuration(p: Effective, requested: Option<int>): Option<int> {
    if requested.None? then Some(p.maxDuration)
    else if 0 < requested.value <= p.maxDuration then requested else None
  }

  predicate CapAllowed(p: Effective, sideEffect: string, cap: int) {
    sideEffect in p.classes && 0 <= cap && (sideEffect in p.caps ==> cap <= p.caps[sideEffect])
  }

  function FinalCaps(p: Effective, requested: Option<map<string, int>>): Option<map<string, int>> {
    if requested.None? then Some(p.caps)
    else if MapAllowed(p, requested.value) then Some(p.caps + requested.value)
    else None
  }

  predicate MapAllowed(p: Effective, caps: map<string, int>) {
    forall x :: x in caps ==> CapAllowed(p, x, caps[x])
  }

  function AsMap(items: seq<(string, int)>): map<string, int> {
    if items == [] then map[] else AsMap(items[..|items| - 1])[items[|items| - 1].0 := items[|items| - 1].1]
  }

  predicate DistinctKeys(items: seq<(string, int)>) {
    forall i, j :: 0 <= i < j < |items| ==> items[i].0 != items[j].0
  }

  predicate AllAllowed(p: Effective, items: seq<(string, int)>) {
    forall i :: 0 <= i < |items| ==> CapAllowed(p, items[i].0, items[i].1)
  }

  lemma {:induction false} AllAllowedIff(p: Effective, items: seq<(string, int)>)
    requires DistinctKeys(items)
    ensures forall x :: x in AsMap(items) ==> exists i :: 0 <= i < |items| && items[i].0 == x
    ensures AllAllowed(p, items) <==> MapAllowed(p, AsMap(items))
  {
    hide CapAllowed;
    if items != [] {
      var init, last := items[..|items| - 1], items[|items| - 1];
      AllAllowedIff(p, init);
      assert AllAllowed(p, items) <==> AllAllowed(p, init) && CapAllowed(p, last.0, last.1) by {
        assert items == init + [last];
      }
      assert last.0 !in AsMap(init) && AsMap(items) == AsMap(init)[last.0 := last.1];
      if MapAllowed(p, AsMap(items)) {
        assert CapAllowed(p, last.0, AsMap(items)[last.0]);
        forall x | x in AsMap(init) ensures CapAllowed(p, x, AsMap(init)[x]) {
          assert CapAllowed(p, x, AsMap(items)[x]);
        }
      }
    }
  }

  /** The loop over the requested per-class budgets, in the dictionary's order. */
  method MergeCaps(p: Effective, items: seq<(string, int)>) returns (r: Option<map<string, int>>)
    requires DistinctKeys(items)
    ensures r == FinalCaps(p, Some(AsMap(items)))
  {
    hide CapAllowed, MapAllowed;
    AllAllowedIff(p, items);
    var caps, i := p.caps, 0;
    while i < |items|
      invariant 0 <= i <= |items| && caps == p.caps + AsMap(items[..i])
      invariant forall k :: 0 <= k < i ==> CapAllowed(p, items[k].0, items[k].1)
    {
      if !CapAllowed(p, items[i].0, items[i].1) { return None; }
      caps := caps[items[i].0 := items[i].1];
      assert items[..i + 1][..i] == items[..i];
      i := i + 1;
    }
    assert items[..|items|] == items;
    return Some(caps);
  }

  /** Everything the derivation checks and computes from the parent's verified context. */
  function Decide(p: Effective, r: Request, now: int): Option<Grant> {
    var tools, scope, calls := FinalTools(p, r.tools), FinalScope(p, r.scope), FinalCalls(p, r.maxCalls);
    var duration, caps, cwd := FinalDuration(p, r.maxDuration), FinalCaps(p, r.caps), DeriveCwd(p.cwd, r.cwd);
    if !p.delegationAllowed || p.maxDepth <= 0 || Strip(r.spiffeId) == ""
       || tools.None? || scope.None? || calls.None? || duration.None? || caps.None? || cwd.None?
    then None
    else
      var exp := if p.exp <= now + duration.value then p.exp else now + duration.value;
      if exp <= now then None
      else Some(Grant(Strip(r.spiffeId), tools.value, FinalForbidden(p, tools.value), scope.value,
                      r.scope.Some? && scope.value == [], calls.value, exp, caps.value, cwd.value))
  }

  // ---- writing the block ----------------------------------------------------------------

  const NAMES: nat := 16

  /** The fact names of a derived block, in the order in which they are added. */
  function NameAt(k: nat): Name {
    if k == 0 then Jti else if k == 1 then ParentJti else if k == 2 then SpiffeId else if k == 3 then Iat
    else if k == 4 then Exp else if k == 5 then MaxToolCalls else if k == 6 then MaxDuration
    else if k == 7 then DelegationAllowed else if k == 8 then MaxDelegationDepth else if k == 9 then Cwd
    else if k == 10 then AllowedTool else if k == 11 then ForbiddenTool else if k == 12 then ResourceScope
    else if k == 13 then ResourceScopeEmpty else if k == 14 then AllowedSideEffectClass else MaxToolCallsPerClass
  }

  /** The rows written under each name. */
  ghost function Written(p: Effective, g: Grant, jti: string, now: int, name: Name): seq<seq<Term>> {
    match name
    case Jti => [[TStr(jti)]]
    case ParentJti => [[TStr(p.jti)]]
    case SpiffeId => [[TStr(g.spiffeId)]]
    case Iat => [[TInt(now)]]
    case Exp => [[TInt(g.exp)]]
    case MaxToolCalls => [[TInt(g.maxCalls)]]
    case MaxDuration => [[TInt(g.exp - now)]]
    case DelegationAllowed => [[TBool(p.maxDepth - 1 > 0)]]
    case MaxDelegationDepth => [[TInt(p.maxDepth - 1)]]
    case Cwd => if g.cwd.Some? then [[TStr(g.cwd.value)]] else []
    case AllowedTool => StrRows(g.tools)
    case ForbiddenTool => StrRows(g.forbidden)
    case ResourceScope => StrRows(g.scope)
    case ResourceScopeEmpty => if g.scopeCleared then [[TBool(true)]] else []
    case AllowedSideEffectClass => StrRows(p.classes)
    case MaxToolCallsPerClass => AllCapRows(g.caps)
    case _ => []
  }

  ghost function Writer(p: Effective, g: Grant, jti: string, now: int): Name -> seq<seq<Term>> {
    (name: Name) => Written(p, g, jti, now, name)
  }

  ghost function ChildBlock(p: Effective, g: Grant, jti: string, now: int): (b: Block)
    ensures b.checks == [g.exp]
  {
    Block(Flatten(GroupsOf(NAMES, NameAt, Writer(p, g, jti, now))), [g.exp])
  }

  /** `derive_child_biscuit`: the parent verifies under the default skews, and the block is appended; None where it raises. */
  ghost function Derive(parent: seq<Block>, r: Request, jti: string, now: int): Option<Block> {
    match Verify(parent, now, FUTURE_SKEW, PAST_SKEW)
    case None => None
    case Some(p) =>
      match Decide(p, r, now)
      case None => None
      case Some(g) => Some(ChildBlock(p, g, jti, now))
  }

  // ---- reading the block back ----------------------------------------------------------

  lemma DerivedNamesDiffer()
    ensures NamesDiffer(NAMES, NameAt)
  {
  }

  lemma ReadsWhatWasWritten(p: Effective, g: Grant, jti: string, now: int, k: nat)
    requires k < NAMES
    ensures Rows(ChildBlock(p, g, jti, now).facts, NameAt(k)) == Written(p, g, jti, now, NameAt(k))
  {
    hide Rows, Flatten, Written, NameAt;
    DerivedNamesDiffer();
    NamedRows(NAMES, NameAt, Writer(p, g, jti, now), k);
  }

  /** The child that the written block declares. */
  function Intended(p: Effective, g: Grant, jti: string, now: int): Child {
    Child(jti, g.spiffeId, p.jti, now, g.exp, g.maxCalls, g.exp - now, p.maxDepth - 1 > 0, p.maxDepth - 1,
          DeclaredIfAny(g.forbidden), DeclaredIfAny(g.tools),
          if g.scopeCleared then Some([]) else DeclaredIfAny(g.scope), DeclaredIfAny(p.classes),
          if g.caps == map[] then None else Some(g.caps), g.cwd)
  }

  lemma ScalarsReadBack(p: Effective, g: Grant, jti: string, now: int)
    ensures var f := ChildBlock(p, g, jti, now).facts;
            && RequiredStr(f, Jti) == Some(jti) && RequiredStr(f, ParentJti) == Some(p.jti)
            && RequiredStr(f, SpiffeId) == Some(g.spiffeId) && RequiredInt(f, Iat) == Some(now)
            && RequiredInt(f, Exp) == Some(g.exp) && RequiredInt(f, MaxToolCalls) == Some(g.maxCalls)
            && RequiredInt(f, MaxDuration) == Some(g.exp - now)
            && RequiredBool(f, DelegationAllowed) == Some(p.maxDepth - 1 > 0)
            && RequiredInt(f, MaxDelegationDepth) == Some(p.maxDepth - 1)
            && OptionalStr(f, Cwd) == Some(g.cwd)
  {
    hide Rows, ChildBlock, AllCapRows;
    ReadsWhatWasWritten(p, g, jti, now, 0);
    ReadsWhatWasWritten(p, g, jti, now, 1);
    ReadsWhatWasWritten(p, g, jti, now, 2);
    ReadsWhatWasWritten(p, g, jti, now, 3);
    ReadsWhatWasWritten(p, g, jti, now, 4);
    ReadsWhatWasWritten(p, g, jti, now, 5);
    ReadsWhatWasWritten(p, g, jti, now, 6);
    ReadsWhatWasWritten(p, g, jti, now, 7);
    ReadsWhatWasWritten(p, g, jti, now, 8);
    ReadsWhatWasWritten(p, g, jti, now, 9);
  }

  lemma ListsReadBack(p: Effective, g: Grant, jti: string, now: int)
    requires g.scopeCleared ==> g.scope == []
    ensures var f := ChildBlock(p, g, jti, now).facts;
            && DeclaredStrs(f, AllowedTool) == Some(DeclaredIfAny(g.tools))
            && DeclaredStrs(f, ForbiddenTool) == Some(DeclaredIfAny(g.forbidden))
            && DeclaredStrs(f, ResourceScope) == Some(DeclaredIfAny(g.scope))
            && DeclaredStrs(f, AllowedSideEffectClass) == Some(DeclaredIfAny(p.classes))
            && (Rows(f, ResourceScopeEmpty) != [] <==> g.scopeCleared) && EmptyMarkerOk(f)
            && PairValues(f, MaxToolCallsPerClass) == Some(g.caps)
            && (Rows(f, MaxToolCallsPerClass) == [] <==> g.caps == map[])
  {
    hide Rows, ChildBlock, AllCapRows, DeclaredStrs, PairValues;
    ReadsWhatWasWritten(p, g, jti, now, 10);
    ReadsWhatWasWritten(p, g, jti, now, 11);
    ReadsWhatWasWritten(p, g, jti, now, 12);
    ReadsWhatWasWritten(p, g, jti, now, 13);
    ReadsWhatWasWritten(p, g, jti, now, 14);
    ReadsWhatWasWritten(p, g, jti, now, 15);
    var f := ChildBlock(p, g, jti, now).facts;
    StrsReadBack(f, AllowedTool, g.tools);
    StrsReadBack(f, ForbiddenTool, g.forbidden);
    StrsReadBack(f, ResourceScope, g.scope);
    StrsReadBack(f, AllowedSideEffectClass, p.classes);
    CapsReadBack(f, g.caps);
  }

  /** The block that is written reads back as the child that was intended. */
  lemma BlockReadsBack(p: Effective, g: Grant, jti: string, now: int)
    requires g.scopeCleared ==> g.scope == []
    ensures ReadChild(ChildBlock(p, g, jti, now)) == Some(Intended(p, g, jti, now))
  {
    hide ChildBlock, Rows, RequiredStr, RequiredInt, RequiredBool, OptionalStr, DeclaredStrs, PairValues, EmptyMarkerOk;
    ScalarsReadBack(p, g, jti, now);
    ListsReadBack(p, g, jti, now);
  }

  // ---- what verification makes of it ------------------------------------------------------

  lemma StarStaysAlone(blocks: seq<Block>, now: int)
    requires FromBlocks(blocks, now).Some?
    ensures StarAlone(FromBlocks(blocks, now).value.scope)
    decreases |blocks|
  {
    hide Rows, NumbersNarrow, ToolsNarrow, ClassesNarrow, CapsNarrow, DeriveCwd, ReadChild, EmptyMarkerOk;
    hide RequiredStr, RequiredInt, RequiredBool, OptionalStr, StrValues, PairValues;
    if |blocks| > 1 { StarStaysAlone(blocks[..|blocks| - 1], now); }
  }

  /** The context handed out has the members of the one that was folded. */
  lemma CanonicalSame(e: Effective)
    ensures var p := Canonical(e);
            && (forall t :: t in p.allowed <==> t in e.allowed) && (forall t :: t in p.forbidden <==> t in e.forbidden)
            && (forall t :: t in p.scope <==> t in e.scope) && (forall t :: t in p.classes <==> t in e.classes)
            && (p.scope == [UNRESTRICTED] <==> e.scope == [UNRESTRICTED])
            && (p.allowed == [] <==> e.allowed == []) && (p.forbidden == [] <==> e.forbidden == [])
            && (p.scope == [] <==> e.scope == []) && (p.classes == [] <==> e.classes == [])
  {
    hide Sorted;
    SortedSame(e.allowed);
    SortedSame(e.forbidden);
    SortedSame(e.scope);
    SortedSame(e.classes);
    SortedSingle(e.scope, UNRESTRICTED);
  }

  lemma ScopeNarrows(e: Effective, requested: Option<seq<string>>, scope: seq<string>)
    requires StarAlone(e.scope) && FinalScope(Canonical(e), requested) == Some(scope)
    ensures DeriveScope(e.scope, scope) == Some(Dedupe(scope))
    ensures requested.None? && scope == [] ==> e.scope == []
  {
    hide Sorted, ScopeEntryNarrower;
    CanonicalSame(e);
    var p := Canonical(e);
    if requested.None? {
      if UNRESTRICTED in scope { DedupeDistinct(scope); }
      forall i | 0 <= i < |Dedupe(scope)| ensures EntryCovered(Dedupe(scope)[i], e.scope) {
        EntryCoveredSelf(e.scope);
        assert Dedupe(scope)[i] in e.scope;
      }
    } else {
      DedupeDistinct(scope);
      if e.scope != [UNRESTRICTED] {
        forall i | 0 <= i < |scope| ensures EntryCovered(scope[i], e.scope) {
          assert EntryCovered(scope[i], p.scope);
          var k :| 0 <= k < |p.scope| && ScopeEntryNarrower(scope[i], p.scope[k]);
          assert p.scope[k] in e.scope;
        }
      }
    }
  }

  lemma ForbiddenMembers(p: Effective, tools: seq<string>)
    ensures forall t :: t in FinalForbidden(p, tools) <==> t in p.forbidden || (t in p.allowed && t !in tools)
  {
    hide Sorted;
    SortedSame(Dedupe(p.forbidden + Without(p.allowed, tools)));
  }

  lemma ToolsStayNarrow(e: Effective, g: Grant, requested: Option<seq<string>>, c: Child)
    requires FinalTools(Canonical(e), requested) == Some(g.tools) && g.forbidden == FinalForbidden(Canonical(e), g.tools)
    requires c.allowed == DeclaredIfAny(g.tools) && c.forbidden == DeclaredIfAny(g.forbidden)
    ensures ToolsNarrow(e, c)
    ensures g.forbidden == [] ==> e.forbidden == []
  {
    hide FinalForbidden, Canonical;
    var p := Canonical(e);
    CanonicalSame(e);
    ForbiddenMembers(p, g.tools);
    assert forall t :: t in Inherit(c.forbidden, e.forbidden) <==> t in g.forbidden by {
      if g.forbidden == [] { assert forall t :: t in e.forbidden ==> t in g.forbidden; }
    }
    assert e.forbidden != [] ==> e.forbidden[0] in g.forbidden;
  }

  /** What the request and the parent must satisfy for the derived passport to be worth what was derived. */
  predicate Redeemable(p: Effective, r: Request, now: int) {
    && p.iat <= now
    && (r.maxCalls.None? ==> 0 <= p.maxCalls)
    && (forall x :: x in p.caps && !(r.caps.Some? && x in r.caps.value) ==> 0 <= p.caps[x])
    && (r.cwd.None? && p.cwd.Some? ==> NormalizeCwd(p.cwd.value) == Ok(Some(p.cwd.value)))
    && (r.cwd.Some? && NormalizeCwd(r.cwd.value).Ok? && NormalizeCwd(r.cwd.value).value.Some? ==>
          Trimmed(NormalizeCwd(r.cwd.value).value.value))
  }

  /** The context that the derivation decided on. */
  function Granted(p: Effective, g: Grant, jti: string, now: int): Effective {
    p.(spiffeId := g.spiffeId, jti := jti, parentJti := Some(p.jti), iat := now, exp := g.exp,
       maxCalls := g.maxCalls, maxDuration := g.exp - now, delegationAllowed := p.maxDepth - 1 > 0, maxDepth := p.maxDepth - 1,
       cwd := g.cwd, allowed := if g.tools == [] then p.allowed else Sorted(g.tools), forbidden := Sorted(g.forbidden),
       scope := Sorted(Dedupe(g.scope)), classes := Sorted(p.classes), caps := g.caps)
  }

  lemma NumbersNarrowIff(e: Effective, r: Request, g: Grant, jti: string, now: int)
    requires Decide(Canonical(e), r, now) == Some(g)
    ensures NumbersNarrow(e, Intended(Canonical(e), g, jti, now)) <==> e.iat <= now && (r.maxCalls.None? ==> 0 <= e.maxCalls)
  {
    hide Sorted, FinalForbidden, FinalTools, FinalScope, FinalCaps, DeriveCwd, Strip;
  }

  lemma CapsNarrowIff(e: Effective, requested: Option<map<string, int>>, caps: map<string, int>, c: Child)
    requires FinalCaps(Canonical(e), requested) == Some(caps) && c.caps == if caps == map[] then None else Some(caps)
    ensures CapsNarrow(e, c) <==> forall x :: x in e.caps && !(requested.Some? && x in requested.value) ==> 0 <= e.caps[x]
    ensures Inherit(c.caps, e.caps) == caps
  {
    hide Sorted;
    assert Canonical(e).caps == e.caps && forall x :: x in e.caps ==> x in caps;
    if requested.Some? {
      forall x | x in requested.value ensures CapAllowed(Canonical(e), x, requested.value[x]) && caps[x] == requested.value[x] {
      }
    }
  }

  lemma CwdNarrowIff(parent: Option<string>, requested: Option<string>, cwd: Option<string>)
    requires DeriveCwd(parent, requested) == Some(cwd)
    ensures DeriveCwd(parent, cwd) == Some(cwd) <==>
              && (requested.None? && parent.Some? ==> NormalizeCwd(parent.value) == Ok(Some(parent.value)))
              && (requested.Some? && NormalizeCwd(requested.value).Ok? && NormalizeCwd(requested.value).value.Some? ==>
                    Trimmed(NormalizeCwd(requested.value).value.value))
  {
    hide NormalizeCwd;
    if requested.Some? && cwd.Some? { NormalizeStableIff(requested.value, cwd.value); }
  }

  /** The derived child narrows its parent exactly if the numbers, the caps and the cwd allow it. */
  lemma NarrowsIff(e: Effective, r: Request, g: Grant, jti: string, now: int)
    requires StarAlone(e.scope) && Decide(Canonical(e), r, now) == Some(g)
    ensures var c := Intended(Canonical(e), g, jti, now);
            Narrows(e, c) <==>
              && NumbersNarrow(e, c) && CapsNarrow(e, c) && DeriveCwd(e.cwd, g.cwd).Some?
  {
    hide Sorted, Canonical, NumbersNarrow, CapsNarrow, ToolsNarrow, DeriveScope, DeriveCwd;
    hide FinalForbidden, FinalTools, FinalScope, FinalCaps, FinalCalls, FinalDuration, Strip;
    var c := Intended(Canonical(e), g, jti, now);
    ToolsStayNarrow(e, g, r.tools, c);
    ScopeNarrows(e, r.scope, g.scope);
    CanonicalSame(e);
    assert DeriveScope(e.scope, []).Some? by { EmptyScopeDerives(e.scope); }
  }

  lemma EmptyScopeDerives(scope: seq<string>)
    ensures DeriveScope(scope, []) == Some([])
  {
  }

  lemma AppliedLists(e: Effective, r: Request, g: Grant, jti: string, now: int)
    requires StarAlone(e.scope) && Decide(Canonical(e), r, now) == Some(g)
    requires Narrows(e, Intended(Canonical(e), g, jti, now))
    ensures var v, w := Canonical(Apply(e, Intended(Canonical(e), g, jti, now))), Granted(Canonical(e), g, jti, now);
            v.allowed == w.allowed && v.forbidden == w.forbidden && v.scope == w.scope && v.classes == w.classes
  {
    hide Sorted, Narrows, DeriveScope, DeriveCwd, FinalForbidden, FinalTools, FinalScope, FinalCaps, FinalCalls, FinalDuration, Strip;
    var c := Intended(Canonical(e), g, jti, now);
    ToolsStayNarrow(e, g, r.tools, c);
    ScopeNarrows(e, r.scope, g.scope);
    EmptyScopeDerives(e.scope);
    CanonicalSame(e);
    assert Dedupe([]) == [];
  }

  lemma AppliedIsGranted(e: Effective, r: Request, g: Grant, jti: string, now: int)
    requires StarAlone(e.scope) && Decide(Canonical(e), r, now) == Some(g)
    requires Narrows(e, Intended(Canonical(e), g, jti, now))
    ensures Canonical(Apply(e, Intended(Canonical(e), g, jti, now))) == Granted(Canonical(e), g, jti, now)
            <==> DeriveCwd(e.cwd, g.cwd) == Some(g.cwd)
  {
    hide Sorted, NumbersNarrow, ToolsNarrow, ClassesNarrow, CapsNarrow, DeriveScope, DeriveCwd;
    hide FinalForbidden, FinalTools, FinalScope, FinalCaps, FinalCalls, FinalDuration, Strip;
    var c := Intended(Canonical(e), g, jti, now);
    assert Inherit(c.caps, e.caps) == g.caps by { CapsNarrowIff(e, r.caps, g.caps, c); }
    AppliedLists(e, r, g, jti, now);
  }

  /** Appending the block leaves the authorizer and the iat walk satisfied. */
  lemma StillAuthorized(parent: seq<Block>, block: Block, now: int)
    requires Authorized(parent, now) && IatWalkOk(parent, now, FUTURE_SKEW, PAST_SKEW)
    requires Rows(block.facts, Iat) == [[TInt(now)]] && (forall i :: 0 <= i < |block.checks| ==> now <= block.checks[i])
    ensures Authorized(parent + [block], now) && IatWalkOk(parent + [block], now, FUTURE_SKEW, PAST_SKEW)
  {
    hide Rows;
    var blocks := parent + [block];
    assert blocks[0] == parent[0];
    assert IatRowsOk(Rows(block.facts, Iat), now, FUTURE_SKEW, PAST_SKEW);
    forall i | 0 <= i < |blocks|
      ensures ChecksHold(blocks[i], now) && IatRowsOk(Rows(blocks[i].facts, Iat), now, FUTURE_SKEW, PAST_SKEW)
    {
      if i < |parent| { assert blocks[i] == parent[i]; } else { assert blocks[i] == block; }
    }
  }

  lemma AppendedFold(parent: seq<Block>, r: Request, g: Grant, jti: string, now: int)
    requires FromBlocks(parent, now).Some? && Decide(Canonical(FromBlocks(parent, now).value), r, now) == Some(g)
    ensures var e := FromBlocks(parent, now).value;
            FromBlocks(parent + [ChildBlock(Canonical(e), g, jti, now)], now) == Attenuate(e, Intended(Canonical(e), g, jti, now), now)
  {
    hide Attenuate, Canonical, ReadRoot, Intended, ReadChild;
    var e := FromBlocks(parent, now).value;
    var block := ChildBlock(Canonical(e), g, jti, now);
    assert (parent + [block])[..|parent|] == parent;
    assert g.scopeCleared ==> g.scope == [];
    BlockReadsBack(Canonical(e), g, jti, now);
  }

  /**
   The round trip: verifying a derived passport at once gives back the very context that the
   derivation decided on, exactly if the parent and the request are redeemable.
   */
  lemma DerivedIsGrantedIff(parent: seq<Block>, r: Request, jti: string, now: int)
    requires Derive(parent, r, jti, now).Some?
    ensures var p := Verify(parent, now, FUTURE_SKEW, PAST_SKEW).value;
            Verify(parent + [Derive(parent, r, jti, now).value], now, FUTURE_SKEW, PAST_SKEW)
              == Some(Granted(p, Decide(p, r, now).value, jti, now))
            <==> Redeemable(p, r, now)
  {
    hide FromBlocks, Authorized, IatWalkOk, ChildBlock, Decide, Granted, Narrows, NumbersNarrow, CapsNarrow, DeriveCwd, Apply;
    var e := FromBlocks(parent, now).value;
    var p := Canonical(e);
    var g := Decide(p, r, now).value;
    var c := Intended(p, g, jti, now);
    var block := ChildBlock(p, g, jti, now);
    assert now <= g.exp && DeriveCwd(e.cwd, r.cwd) == Some(g.cwd) && FinalCaps(p, r.caps) == Some(g.caps) by { DecideFacts(p, r, g, now); }
    assert Rows(block.facts, Iat) == [[TInt(now)]] by { ReadsWhatWasWritten(p, g, jti, now, 3); }
    StillAuthorized(parent, block, now);
    StarStaysAlone(parent, now);
    AppendedFold(parent, r, g, jti, now);
    NarrowsIff(e, r, g, jti, now);
    NumbersNarrowIff(e, r, g, jti, now);
    CapsNarrowIff(e, r.caps, g.caps, c);
    CwdNarrowIff(e.cwd, r.cwd, g.cwd);
    if Narrows(e, c) { AppliedIsGranted(e, r, g, jti, now); }
  }

  lemma DecideFacts(p: Effective, r: Request, g: Grant, now: int)
    requires Decide(p, r, now) == Some(g)
    ensures now <= g.exp && DeriveCwd(p.cwd, r.cwd) == Some(g.cwd) && FinalCaps(p, r.caps) == Some(g.caps)
    ensures FinalTools(p, r.tools) == Some(g.tools) && g.forbidden == FinalForbidden(p, g.tools)
  {
  }

  lemma OwnChecksStay(parent: seq<Block>, p: Effective, g: Grant, jti: string, now: int)
    requires OwnChecksOnly(parent)
    ensures OwnChecksOnly(parent + [ChildBlock(p, g, jti, now)])
  {
    hide ChildBlock, RequiredInt;
    var block := ChildBlock(p, g, jti, now);
    var blocks := parent + [block];
    ScalarsReadBack(p, g, jti, now);
    assert blocks[0] == parent[0];
    forall i, k | 0 <= i < |blocks| && 0 <= k < |blocks[i].checks|
      ensures RequiredInt(blocks[i].facts, Exp) == Some(blocks[i].checks[k])
    {
      if i < |parent| { assert blocks[i] == parent[i]; } else { assert blocks[i] == block; }
    }
  }

  /** A passport so derived is accepted from the future skew before its derivation up to its own expiry or the root's age limit, whichever comes first. */
  lemma DerivedWindow(parent: seq<Block>, r: Request, jti: string, now: int, t: int)
    requires Derive(parent, r, jti, now).Some? && OwnChecksOnly(parent)
    requires Redeemable(Verify(parent, now, FUTURE_SKEW, PAST_SKEW).value, r, now)
    ensures parent != [] && ReadRoot(parent[0]).Some?
    ensures var p := Verify(parent, now, FUTURE_SKEW, PAST_SKEW).value;
            Verify(parent + [Derive(parent, r, jti, now).value], t, FUTURE_SKEW, PAST_SKEW).Some? <==>
              now - FUTURE_SKEW <= t && t <= Decide(p, r, now).value.exp && t <= ReadRoot(parent[0]).value.iat + PAST_SKEW
  {
    hide FromBlocks, Chain, Authorized, IatWalkOk, ChildBlock, Decide, Redeemable, OwnChecksOnly, ChildrenLive, ReadRoot;
    var p := Verify(parent, now, FUTURE_SKEW, PAST_SKEW).value;
    var g := Decide(p, r, now).value;
    var blocks := parent + [ChildBlock(p, g, jti, now)];
    DerivedIsGrantedIff(parent, r, jti, now);
    FoldIsChain(blocks, now);
    OwnChecksStay(parent, p, g, jti, now);
    AcceptanceWindow(blocks, t, FUTURE_SKEW, PAST_SKEW);
    assert Canonical(Chain(blocks).value) == Granted(p, g, jti, now);
    assert parent != [] by { ParentHasRoot(parent, now); }
    assert blocks[0] == parent[0];
  }

  lemma ParentHasRoot(parent: seq<Block>, now: int)
    requires Authorized(parent, now)
    ensures parent != []
  {
  }

  // ---- what the request means for tools ----------------------------------------------------

  function Longest(xs: seq<string>): (n: nat)
    ensures forall x :: x in xs ==> |x| <= n
  {
    if xs == [] then 0
    else
      assert xs == [xs[0]] + xs[1..];
      var rest := Longest(xs[1..]);
      if |xs[0]| > rest then |xs[0]| else rest
  }

  function Fresh(xs: seq<string>): (r: string)
    ensures r !in xs
  {
    var r := seq(Longest(xs) + 1, _ => 'x');
    assert |r| > Longest(xs);
    r
  }

  lemma GrantedTools(p: Effective, r: Request, g: Grant, jti: string, now: int, t: string)
    requires Decide(p, r, now) == Some(g)
    ensures t in Granted(p, g, jti, now).allowed <==> t in if g.tools == [] then p.allowed else g.tools
    ensures t in Granted(p, g, jti, now).forbidden <==> t in p.forbidden || (t in p.allowed && t !in g.tools)
  {
    hide Sorted, FinalForbidden;
    DecideFacts(p, r, g, now);
    SortedSame(g.tools);
    SortedSame(g.forbidden);
    ForbiddenMembers(p, g.tools);
  }

  /** A request that names no tools passes on exactly the parent's. */
  lemma UnnamedToolsPassOn(p: Effective, r: Request, jti: string, now: int, t: string)
    requires Decide(p, r, now).Some? && r.tools.None?
    ensures MayCall(Granted(p, Decide(p, r, now).value, jti, now), t) <==> MayCall(p, t)
  {
    hide Granted, Decide, FinalForbidden;
    var g := Decide(p, r, now).value;
    DecideFacts(p, r, g, now);
    GrantedTools(p, r, g, jti, now, t);
    GrantedTools(p, r, g, jti, now, "*");
  }

  lemma NamedToolsAreTheTools(p: Effective, r: Request, jti: string, now: int, t: string)
    requires Decide(p, r, now).Some? && r.tools.Some?
    requires "*" !in p.allowed || (r.tools.value != [] && "*" !in r.tools.value)
    ensures MayCall(Granted(p, Decide(p, r, now).value, jti, now), t) <==> t in r.tools.value
  {
    hide Granted, Decide, FinalForbidden;
    var g := Decide(p, r, now).value;
    DecideFacts(p, r, g, now);
    assert forall x :: x in g.tools <==> x in r.tools.value;
    assert r.tools.value != [] ==> r.tools.value[0] in g.tools;
    GrantedTools(p, r, g, jti, now, t);
    GrantedTools(p, r, g, jti, now, "*");
  }

  /**
   A request that names its tools grants exactly those, and an empty list grants none, if and
   only if the parent is not a wildcard, or the list is not empty and not itself a wildcard.
   */
  lemma NamedToolsExactIff(p: Effective, r: Request, jti: string, now: int)
    requires Decide(p, r, now).Some? && r.tools.Some?
    ensures (forall t :: MayCall(Granted(p, Decide(p, r, now).value, jti, now), t) <==> t in r.tools.value)
            <==> "*" !in p.allowed || (r.tools.value != [] && "*" !in r.tools.value)
  {
    hide Granted, Decide, FinalForbidden;
    if "*" !in p.allowed || (r.tools.value != [] && "*" !in r.tools.value) {
      forall t { NamedToolsAreTheTools(p, r, jti, now, t); }
    } else {
      var g := Decide(p, r, now).value;
      DecideFacts(p, r, g, now);
      var t := Fresh(p.allowed + p.forbidden + r.tools.value);
      GrantedTools(p, r, g, jti, now, t);
      GrantedTools(p, r, g, jti, now, "*");
      assert MayCall(Granted(p, g, jti, now), t) && t !in r.tools.value;
    }
  }

  /** A cwd that normalizes to a trailing blank is derived, but not granted as derived. */
  lemma BlankCwdIsNotGranted(parent: seq<Block>, r: Request, jti: string, now: int)
    requires Derive(parent, r, jti, now).Some? && r.cwd == Some("/a /")
    ensures var p := Verify(parent, now, FUTURE_SKEW, PAST_SKEW).value;
            Verify(parent + [Derive(parent, r, jti, now).value], now, FUTURE_SKEW, PAST_SKEW)
              != Some(Granted(p, Decide(p, r, now).value, jti, now))
  {
    hide FromBlocks, Authorized, IatWalkOk, Canonical, Decide, ChildBlock, Granted, Redeemable;
    BlankIsNotRedeemable(Verify(parent, now, FUTURE_SKEW, PAST_SKEW).value, r, now);
    DerivedIsGrantedIff(parent, r, jti, now);
  }

  lemma BlankIsNotRedeemable(p: Effective, r: Request, now: int)
    requires r.cwd == Some("/a /")
    ensures !Redeemable(p, r, now)
  {
    hide NormalizeCwd;
    BlankSurvives();
  }

  lemma BlankSurvives()
    ensures NormalizeCwd("/a /") == Ok(Some("/a ")) && !Trimmed("/a ")
  {
    hide Split, Strip, KeepSegments;
    var s := "/a /";
    StripTrimmed(s);
    assert s == ['/'] + "a /" && "a /" == "a " + ['/'] + "";
    SplitSlash("a /");
    SplitHead("a ", "");
    SplitOne("");
    assert Split(s) == [""] + ["a ", ""];
    KeepEmptyHead(["a ", ""]);
    KeepsOne();
    assert Join(["a "]) == "a " && Slashes(s) == "/" && "/" + "a " == "/a ";
    assert ".." !in Split(s);
  }

  lemma KeepsOne()
    ensures KeepSegments(["a ", ""]) == ["a "]
  {
    assert ["a ", ""][1..] == [""] && [""][1..] == [];
  }
}
