/**
 The authority that a chain of Biscuit blocks carries: the fold of `_context_from_blocks`,
 and its meaning as attenuation.
 */
module BiscuitChain {

  import opened Results
  import opened Paths
  import opened Lists
  import opened PassportFacts

  const UNRESTRICTED := "**"

  datatype Effective = Effective(
    agentId: string,
    mission: string,
    issuer: string,
    spiffeId: string,
    jti: string,
    parentJti: Option<string>,
    iat: int,
    exp: int,
    maxCalls: int,
    maxDuration: int,
    delegationAllowed: bool,
    maxDepth: int,
    cwd: Option<string>,
    allowed: seq<string>,
    forbidden: seq<string>,
    scope: seq<string>,
    classes: seq<string>,
    caps: map<string, int>)

  /** What a child block declares; a None list is one it inherits. */
  datatype Child = Child(
    jti: string,
    spiffeId: string,
    parentJti: string,
    iat: int,
    exp: int,
    maxCalls: int,
    maxDuration: int,
    delegationAllowed: bool,
    maxDepth: int,
    forbidden: Option<seq<string>>,
    allowed: Option<seq<string>>,
    scope: Option<seq<string>>,
    classes: Option<seq<string>>,
    caps: Option<map<string, int>>,
    cwd: Option<string>)

  // ---- reading the blocks --------------------------------------------------------

  /** A `resource_scope_empty` marker must be true and must stand alone. */
  predicate EmptyMarkerOk(facts: seq<Fact>) {
    Rows(facts, ResourceScopeEmpty) == []
    || (RequiredBool(facts, ResourceScopeEmpty) == Some(true) && Rows(facts, ResourceScope) == [])
  }

  predicate StarAlone(scope: seq<string>) {
    UNRESTRICTED in scope ==> scope == [UNRESTRICTED]
  }

  function ReadRoot(block: Block): Option<Effective> {
    var f := block.facts;
    var agentId, mission, issuer := RequiredStr(f, AgentId), RequiredStr(f, Mission), RequiredStr(f, IssuerSpiffeId);
    var spiffeId, jti := RequiredStr(f, SpiffeId), RequiredStr(f, Jti);
    var iat, exp := RequiredInt(f, Iat), RequiredInt(f, Exp);
    var maxCalls, maxDuration := RequiredInt(f, MaxToolCalls), RequiredInt(f, MaxDuration);
    var delegation, maxDepth := RequiredBool(f, DelegationAllowed), RequiredInt(f, MaxDelegationDepth);
    var parentJti, cwd, missionId := OptionalStr(f, ParentJti), OptionalStr(f, Cwd), OptionalStr(f, MissionId);
    var allowed, forbidden := StrValues(f, AllowedTool), StrValues(f, ForbiddenTool);
    var scope, classes := StrValues(f, ResourceScope), StrValues(f, AllowedSideEffectClass);
    var caps := PairValues(f, MaxToolCallsPerClass);
    if agentId.None? || mission.None? || issuer.None? || spiffeId.None? || jti.None? || iat.None? || exp.None?
       || maxCalls.None? || maxDuration.None? || delegation.None? || maxDepth.None? || parentJti.None? || cwd.None?
       || missionId.None? || allowed.None? || forbidden.None? || scope.None? || classes.None? || caps.None?
       || !StarAlone(scope.value) || !EmptyMarkerOk(f)
    then None
    else Some(Effective(agentId.value, mission.value, issuer.value, spiffeId.value, jti.value, parentJti.value,
                        iat.value, exp.value, maxCalls.value, maxDuration.value, delegation.value, maxDepth.value,
                        cwd.value, allowed.value, forbidden.value, scope.value, classes.value, caps.value))
  }

  function ReadChild(block: Block): Option<Child> {
    var f := block.facts;
    var jti, spiffeId, parentJti := RequiredStr(f, Jti), RequiredStr(f, SpiffeId), RequiredStr(f, ParentJti);
    var iat, exp := RequiredInt(f, Iat), RequiredInt(f, Exp);
    var maxCalls, maxDuration := RequiredInt(f, MaxToolCalls), RequiredInt(f, MaxDuration);
    var delegation, maxDepth := RequiredBool(f, DelegationAllowed), RequiredInt(f, MaxDelegationDepth);
    var forbidden, allowed := DeclaredStrs(f, ForbiddenTool), DeclaredStrs(f, AllowedTool);
    var scope, classes := DeclaredStrs(f, ResourceScope), DeclaredStrs(f, AllowedSideEffectClass);
    var caps := PairValues(f, MaxToolCallsPerClass);
    var cwd := OptionalStr(f, Cwd);
    if jti.None? || spiffeId.None? || parentJti.None? || iat.None? || exp.None? || maxCalls.None? || maxDuration.None?
       || delegation.None? || maxDepth.None? || forbidden.None? || allowed.None? || scope.None? || classes.None?
       || caps.None? || cwd.None? || !EmptyMarkerOk(f)
    then None
    else Some(Child(jti.value, spiffeId.value, parentJti.value, iat.value, exp.value, maxCalls.value, maxDuration.value,
                    delegation.value, maxDepth.value, forbidden.value, allowed.value,
                    if Rows(f, ResourceScopeEmpty) != [] then Some([]) else scope.value, classes.value,
                    if Rows(f, MaxToolCallsPerClass) == [] then None else Some(caps.value), cwd.value))
  }

  // ---- one attenuation step --------------------------------------------------------

  predicate ScopeEntryNarrower(child: string, parent: string) {
    || child == parent
    || parent == UNRESTRICTED
    || (child != UNRESTRICTED && child != "" && child[0] == '/' && parent != "" && parent[0] == '/'
        && match (NormalizeCwd(child), NormalizeCwd(parent))
           case (Ok(Some(c)), Ok(Some(p))) => IsSubpath(c, p)
           case _ => false)
  }

  predicate EntryCovered(entry: string, parentScope: seq<string>) {
    exists i :: 0 <= i < |parentScope| && ScopeEntryNarrower(entry, parentScope[i])
  }

  /** `_derive_resource_scope` for a declared child scope; None where it raises. */
  function DeriveScope(parentScope: seq<string>, childScope: seq<string>): Option<seq<string>> {
    var child := Dedupe(childScope);
    if !StarAlone(child) then None
    else if child == [] then Some([])
    else if parentScope == [UNRESTRICTED] then Some(child)
    else if forall i :: 0 <= i < |child| ==> EntryCovered(child[i], parentScope) then Some(child)
    else None
  }

  /** `_derive_child_cwd`; None where it raises. */
  function DeriveCwd(parentCwd: Option<string>, childCwd: Option<string>): Option<Option<string>> {
    if childCwd.None? then Some(parentCwd)
    else match NormalizeCwd(childCwd.value)
         case Err(_) => None
         case Ok(None) => if parentCwd.Some? then None else Some(None)
         case Ok(Some(cwd)) => if parentCwd.None? || IsSubpath(cwd, parentCwd.value) then Some(Some(cwd)) else None
  }

  predicate NumbersNarrow(e: Effective, c: Child) {
    && e.delegationAllowed && e.maxDepth > 0 && c.parentJti == e.jti
    && e.iat <= c.iat && c.exp <= e.exp && c.iat < c.exp
    && 0 <= c.maxCalls <= e.maxCalls && 0 < c.maxDuration <= e.maxDuration
    && 0 <= c.maxDepth <= e.maxDepth - 1 && (c.delegationAllowed ==> c.maxDepth != 0)
  }

  function Inherit<T>(declared: Option<T>, inherited: T): T {
    if declared.Some? then declared.value else inherited
  }

  predicate ToolsNarrow(e: Effective, c: Child) {
    var allowed, forbidden := Inherit(c.allowed, e.allowed), Inherit(c.forbidden, e.forbidden);
    && (forall t :: t in e.forbidden ==> t in forbidden)
    && ("*" !in e.allowed ==>
          "*" !in allowed && forall t :: t in allowed && t !in forbidden ==> t in e.allowed && t !in e.forbidden)
  }

  predicate ClassesNarrow(e: Effective, c: Child) {
    c.classes.Some? && e.classes != [] ==> forall x :: x in c.classes.value ==> x in e.classes
  }

  predicate CapsNarrow(e: Effective, c: Child) {
    c.caps.Some? ==>
      && (forall x :: x in e.caps ==> x in c.caps.value)
      && (forall x :: x in c.caps.value ==> 0 <= c.caps.value[x] && (x in e.caps ==> c.caps.value[x] <= e.caps[x]))
  }

  /** The checks of one child block that do not depend on the clock. */
  predicate Narrows(e: Effective, c: Child) {
    && NumbersNarrow(e, c) && ToolsNarrow(e, c) && ClassesNarrow(e, c) && CapsNarrow(e, c)
    && (c.scope.Some? ==> DeriveScope(e.scope, c.scope.value).Some?)
    && DeriveCwd(e.cwd, c.cwd).Some?
  }

  function Apply(e: Effective, c: Child): Effective
    requires Narrows(e, c)
  {
    Effective(e.agentId, e.mission, e.issuer, c.spiffeId, c.jti, Some(c.parentJti), c.iat, c.exp, c.maxCalls, c.maxDuration,
              c.delegationAllowed, c.maxDepth, DeriveCwd(e.cwd, c.cwd).value,
              Inherit(c.allowed, e.allowed), Inherit(c.forbidden, e.forbidden),
              if c.scope.Some? then DeriveScope(e.scope, c.scope.value).value else e.scope,
              Inherit(c.classes, e.classes), Inherit(c.caps, e.caps))
  }

  function Attenuate(e: Effective, c: Child, now: int): Option<Effective> {
    if Narrows(e, c) && now <= c.exp then Some(Apply(e, c)) else None
  }

  // ---- the fold -----------------------------------------------------------------------

  function StepBlock(e: Effective, block: Block, now: int): Option<Effective> {
    match ReadChild(block)
    case None => None
    case Some(c) => Attenuate(e, c, now)
  }

  /** `_context_from_blocks`, before its lists are sorted; None where it raises. */
  function FromBlocks(blocks: seq<Block>, now: int): Option<Effective> {
    if blocks == [] then None
    else if |blocks| == 1 then ReadRoot(blocks[0])
    else match FromBlocks(blocks[..|blocks| - 1], now)
         case None => None
         case Some(e) => StepBlock(e, blocks[|blocks| - 1], now)
  }

  method ContextFromBlocks(blocks: seq<Block>, now: int) returns (r: Option<Effective>)
    ensures r == FromBlocks(blocks, now)
  {
    hide ReadRoot, StepBlock;
    if blocks == [] { return None; }
    r := ReadRoot(blocks[0]);
    assert blocks[..1] == [blocks[0]];
    var n := 1;
    while n < |blocks| && r.Some?
      invariant 1 <= n <= |blocks| && r == FromBlocks(blocks[..n], now)
    {
      r := StepBlock(r.value, blocks[n], now);
      assert blocks[..n + 1][..n] == blocks[..n];
      n := n + 1;
    }
    if r.None? { RejectedPrefix(blocks, n, now); }
    assert blocks[..|blocks|] == blocks;
  }

  /** A chain stays rejected whatever is appended to it. */
  lemma {:induction false} RejectedPrefix(blocks: seq<Block>, n: nat, now: int)
    requires 1 <= n <= |blocks| && FromBlocks(blocks[..n], now) == None
    ensures FromBlocks(blocks, now) == None
    decreases |blocks|
  {
    hide ReadRoot, StepBlock;
    if n == |blocks| {
      assert blocks[..n] == blocks;
    } else {
      assert blocks[..|blocks| - 1][..n] == blocks[..n];
      RejectedPrefix(blocks[..|blocks| - 1], n, now);
    }
  }
}
