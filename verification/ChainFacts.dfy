/** What an accepted chain says in its blocks' own facts: the links between neighbours, and where each part of the leaf's context comes from. */
module ChainFacts {

  import opened Results
  import opened Text
  import opened Paths
  import opened PathMeaning
  import opened Lists
  import opened PassportFacts
  import opened BiscuitChain
  import opened BiscuitAttenuation
  import opened BiscuitVerify
  import BiscuitDerive

  // ---- the links ------------------------------------------------------------------------------

  predicate AtMost(a: Option<int>, b: Option<int>) {
    a.Some? && b.Some? && a.value <= b.value
  }

  predicate LessThan(a: Option<int>, b: Option<int>) {
    a.Some? && b.Some? && a.value < b.value
  }

  /** The parent may delegate, and the child names it as its parent. */
  predicate DelegationLink(f: seq<Fact>, g: seq<Fact>) {
    && RequiredBool(f, DelegationAllowed) == Some(true)
    && RequiredStr(g, ParentJti).Some? && RequiredStr(g, ParentJti) == RequiredStr(f, Jti)
    && AtMost(Some(0), RequiredInt(g, MaxDelegationDepth)) && LessThan(RequiredInt(g, MaxDelegationDepth), RequiredInt(f, MaxDelegationDepth))
    && (RequiredBool(g, DelegationAllowed) == Some(true) ==> LessThan(Some(0), RequiredInt(g, MaxDelegationDepth)))
  }

  /** The child's time and budgets lie within the parent's. */
  predicate NumbersLink(f: seq<Fact>, g: seq<Fact>) {
    && AtMost(RequiredInt(f, Iat), RequiredInt(g, Iat)) && AtMost(RequiredInt(g, Exp), RequiredInt(f, Exp))
    && LessThan(RequiredInt(g, Iat), RequiredInt(g, Exp))
    && AtMost(Some(0), RequiredInt(g, MaxToolCalls)) && AtMost(RequiredInt(g, MaxToolCalls), RequiredInt(f, MaxToolCalls))
    && LessThan(Some(0), RequiredInt(g, MaxDuration)) && AtMost(RequiredInt(g, MaxDuration), RequiredInt(f, MaxDuration))
  }

  /** A context whose numbers are those of the facts. */
  predicate FactsOf(e: Effective, f: seq<Fact>) {
    && RequiredStr(f, Jti) == Some(e.jti) && RequiredStr(f, SpiffeId) == Some(e.spiffeId)
    && RequiredInt(f, Iat) == Some(e.iat) && RequiredInt(f, Exp) == Some(e.exp)
    && RequiredInt(f, MaxToolCalls) == Some(e.maxCalls) && RequiredInt(f, MaxDuration) == Some(e.maxDuration)
    && RequiredBool(f, DelegationAllowed) == Some(e.delegationAllowed) && RequiredInt(f, MaxDelegationDepth) == Some(e.maxDepth)
  }

  lemma RootFacts(block: Block)
    requires ReadRoot(block).Some?
    ensures FactsOf(ReadRoot(block).value, block.facts)
  {
    hide RequiredStr, RequiredInt, RequiredBool, OptionalStr, StrValues, PairValues, EmptyMarkerOk, StarAlone;
  }

  lemma ChildFacts(block: Block)
    requires ReadChild(block).Some?
    ensures var c, f := ReadChild(block).value, block.facts;
            && RequiredStr(f, Jti) == Some(c.jti) && RequiredStr(f, SpiffeId) == Some(c.spiffeId)
            && RequiredStr(f, ParentJti) == Some(c.parentJti)
            && RequiredInt(f, Iat) == Some(c.iat) && RequiredInt(f, Exp) == Some(c.exp)
            && RequiredInt(f, MaxToolCalls) == Some(c.maxCalls) && RequiredInt(f, MaxDuration) == Some(c.maxDuration)
            && RequiredBool(f, DelegationAllowed) == Some(c.delegationAllowed) && RequiredInt(f, MaxDelegationDepth) == Some(c.maxDepth)
  {
    hide RequiredStr, RequiredInt, RequiredBool, OptionalStr, DeclaredStrs, PairValues, EmptyMarkerOk, Rows;
  }

  lemma {:induction false} LeafFacts(blocks: seq<Block>)
    requires Chain(blocks).Some?
    ensures blocks != [] && FactsOf(Chain(blocks).value, blocks[|blocks| - 1].facts)
  {
    hide ReadRoot, ReadChild, RequiredStr, RequiredInt, RequiredBool, Narrows, Inherit, DeriveCwd, DeriveScope;
    if |blocks| == 1 { RootFacts(blocks[0]); } else { ChildFacts(blocks[|blocks| - 1]); }
  }

  lemma LinkIff(e: Effective, f: seq<Fact>, block: Block)
    requires FactsOf(e, f) && ReadChild(block).Some?
    ensures NumbersNarrow(e, ReadChild(block).value) <==> DelegationLink(f, block.facts) && NumbersLink(f, block.facts)
  {
    hide ReadChild, RequiredStr, RequiredInt, RequiredBool;
    ChildFacts(block);
  }

  // ---- what one block may change -------------------------------------------------------------------

  /** The child's lists over what it inherits. */
  function Heir(e: Effective, c: Child): Effective {
    e.(allowed := Inherit(c.allowed, e.allowed), forbidden := Inherit(c.forbidden, e.forbidden), classes := Inherit(c.classes, e.classes))
  }

  /** The tool check says: what is denied stays denied, and the child may call no tool that the parent may not. */
  lemma ToolsNarrowIff(e: Effective, c: Child)
    ensures ToolsNarrow(e, c) <==>
              && (forall t :: t in e.forbidden ==> t in Heir(e, c).forbidden)
              && (forall t :: MayCall(Heir(e, c), t) ==> MayCall(e, t))
  {
    var l := Heir(e, c);
    if "*" in l.allowed && "*" !in e.allowed { WildcardReaches(e, l); }
    if (forall t :: t in e.forbidden ==> t in l.forbidden) && (forall t :: MayCall(l, t) ==> MayCall(e, t)) && "*" !in e.allowed {
      forall t | t in l.allowed && t !in l.forbidden ensures t in e.allowed && t !in e.forbidden { assert MayCall(l, t); }
    }
  }

  lemma WildcardReaches(e: Effective, l: Effective)
    requires "*" in l.allowed && "*" !in e.allowed
    ensures exists t :: MayCall(l, t) && !MayCall(e, t)
  {
    var t := BiscuitDerive.Fresh(e.allowed + l.forbidden);
    assert MayCall(l, t) && !MayCall(e, t);
  }

  /** The class check says: the child may cause no side effect that the parent may not. */
  lemma ClassesNarrowIff(e: Effective, c: Child)
    requires Declared(c)
    ensures ClassesNarrow(e, c) <==> forall x :: MayCause(Heir(e, c), x) ==> MayCause(e, x)
  {
    var l := Heir(e, c);
    if (forall x :: MayCause(l, x) ==> MayCause(e, x)) && c.classes.Some? && e.classes != [] {
      forall x | x in c.classes.value ensures x in e.classes { assert MayCause(l, x); }
    }
  }

  /** The cap check says: every cap stays, none is raised, none is negative. */
  ghost predicate CapsLink(e: Effective, c: Child) {
    c.caps.Some? ==> forall x :: (x in e.caps ==> x in c.caps.value && c.caps.value[x] <= e.caps[x]) && (x in c.caps.value ==> 0 <= c.caps.value[x])
  }

  lemma CapsNarrowIff(e: Effective, c: Child)
    ensures CapsNarrow(e, c) <==> CapsLink(e, c)
  {
  }

  /** An entry is narrower if it is the same, the parent is unrestricted, or both are paths that do not go upward and it lies below. */
  ghost predicate EntryLink(child: string, parent: string) {
    || child == parent || parent == "**"
    || (child != "" && child[0] == '/' && parent != "" && parent[0] == '/'
        && !Upward(Strip(child)) && !Upward(Strip(parent)) && Below(Strip(child), Strip(parent)))
  }

  lemma EntryNarrowerIff(child: string, parent: string)
    ensures ScopeEntryNarrower(child, parent) <==> EntryLink(child, parent)
  {
    hide IsSubpath, NormPath, Below, Upward, Strip, Split;
    if child != "" && child[0] == '/' && parent != "" && parent[0] == '/' {
      StripKeepsSlash(child);
      StripKeepsSlash(parent);
      UpwardSplit(Strip(child));
      UpwardSplit(Strip(parent));
      NormalizedSubpathIff(Strip(child), Strip(parent));
    }
  }

  /** A declared scope is accepted if it is empty, or the wildcard stands alone and every entry is narrower than one of the parent's. */
  ghost predicate ScopeLink(parent: seq<string>, child: seq<string>) {
    && ("**" in child ==> forall x :: x in child ==> x == "**")
    && (parent == ["**"] || forall x :: x in child ==> exists p :: p in parent && EntryLink(x, p))
  }

  lemma DeriveScopeIff(parent: seq<string>, child: seq<string>)
    ensures DeriveScope(parent, child).Some? <==> ScopeLink(parent, child)
    ensures DeriveScope(parent, child).Some? ==> DeriveScope(parent, child).value == Dedupe(child)
  {
    hide ScopeEntryNarrower, EntryLink;
    var d := Dedupe(child);
    forall x, p ensures ScopeEntryNarrower(x, p) <==> EntryLink(x, p) { EntryNarrowerIff(x, p); }
    StarAloneIff(d);
    if d != [] && parent != [UNRESTRICTED] {
      forall i | 0 <= i < |d| ensures EntryCovered(d[i], parent) <==> exists p :: p in parent && EntryLink(d[i], p) {
        CoveredIff(d[i], parent);
      }
      if forall i :: 0 <= i < |d| ==> EntryCovered(d[i], parent) {
        forall x | x in child ensures exists p :: p in parent && EntryLink(x, p) { assert x in d; }
      }
      if forall x :: x in child ==> exists p :: p in parent && EntryLink(x, p) {
        forall i | 0 <= i < |d| ensures EntryCovered(d[i], parent) { assert d[i] in child; }
      }
    }
  }

  lemma CoveredIff(x: string, parent: seq<string>)
    ensures EntryCovered(x, parent) <==> exists p :: p in parent && EntryLink(x, p)
  {
    hide ScopeEntryNarrower, EntryLink;
    forall p ensures ScopeEntryNarrower(x, p) <==> EntryLink(x, p) { EntryNarrowerIff(x, p); }
    if exists p :: p in parent && EntryLink(x, p) {
      var p :| p in parent && EntryLink(x, p);
      var i :| 0 <= i < |parent| && parent[i] == p;
      assert ScopeEntryNarrower(x, parent[i]);
    }
  }

  lemma StarAloneIff(d: seq<string>)
    requires forall i, j :: 0 <= i < j < |d| ==> d[i] != d[j]
    ensures StarAlone(d) <==> ("**" in d ==> forall x :: x in d ==> x == "**")
  {
    assert |d| > 1 ==> d[0] in d && d[1] in d && d[0] != d[1];
  }

  /** A declared cwd is accepted if it is blank where the parent has none, or absolute, not upward, and the parent's or below it. */
  ghost predicate CwdLink(parent: Option<string>, child: Option<string>) {
    child.Some? ==>
      var s := Strip(child.value);
      if s == "" then parent.None?
      else s[0] == '/' && !Upward(s) && (parent.Some? ==> IsSubpath(Lead(s) + Join(SegmentsOf(s)), parent.value))
  }

  lemma DeriveCwdIff(parent: Option<string>, child: Option<string>)
    ensures DeriveCwd(parent, child).Some? <==> CwdLink(parent, child)
    ensures DeriveCwd(parent, child).Some? ==>
              DeriveCwd(parent, child).value ==
                if child.None? then parent
                else if Strip(child.value) == "" then None
                else Some(Lead(Strip(child.value)) + Join(SegmentsOf(Strip(child.value))))
  {
    hide NormalizeCwd, IsSubpath, Strip, Upward, Lead, SegmentsOf, Join;
    if child.Some? { NormalizeMeaning(child.value); }
  }

  // ---- one block, and the whole chain ------------------------------------------------------------------

  /** What the lists, caps, scope and cwd of a child must satisfy. */
  ghost predicate ListsLink(e: Effective, c: Child) {
    && (forall t :: t in e.forbidden ==> t in Heir(e, c).forbidden)
    && (forall t :: MayCall(Heir(e, c), t) ==> MayCall(e, t))
    && (forall x :: MayCause(Heir(e, c), x) ==> MayCause(e, x))
    && CapsLink(e, c) && (c.scope.Some? ==> ScopeLink(e.scope, c.scope.value)) && CwdLink(e.cwd, c.cwd)
  }

  lemma NarrowsIff(e: Effective, f: seq<Fact>, block: Block)
    requires FactsOf(e, f) && ReadChild(block).Some?
    ensures Narrows(e, ReadChild(block).value) <==>
              DelegationLink(f, block.facts) && NumbersLink(f, block.facts) && ListsLink(e, ReadChild(block).value)
  {
    hide ReadChild, FactsOf, DelegationLink, NumbersLink, NumbersNarrow, ToolsNarrow, ClassesNarrow, CapsNarrow, CapsLink;
    hide DeriveScope, DeriveCwd, ScopeLink, CwdLink, MayCall, MayCause, Heir;
    var c := ReadChild(block).value;
    ReadChildDeclared(block);
    LinkIff(e, f, block);
    ToolsNarrowIff(e, c);
    ClassesNarrowIff(e, c);
    CapsNarrowIff(e, c);
    if c.scope.Some? { DeriveScopeIff(e.scope, c.scope.value); }
    DeriveCwdIff(e.cwd, c.cwd);
  }

  /** Block i continues the chain before it. */
  ghost predicate LinkedAt(blocks: seq<Block>, i: int)
    requires 1 <= i < |blocks|
  {
    && ReadChild(blocks[i]).Some?
    && DelegationLink(blocks[i - 1].facts, blocks[i].facts) && NumbersLink(blocks[i - 1].facts, blocks[i].facts)
    && (Chain(blocks[..i]).Some? ==> ListsLink(Chain(blocks[..i]).value, ReadChild(blocks[i]).value))
  }

  lemma StepLinked(blocks: seq<Block>)
    requires |blocks| >= 2 && Chain(blocks[..|blocks| - 1]).Some?
    ensures Chain(blocks).Some? <==> LinkedAt(blocks, |blocks| - 1)
  {
    hide ReadChild, ReadRoot, Narrows, Apply, DelegationLink, NumbersLink, ListsLink, FactsOf;
    var n := |blocks| - 1;
    var init := blocks[..n];
    LeafFacts(init);
    assert init[|init| - 1] == blocks[n - 1];
    if ReadChild(blocks[n]).Some? { NarrowsIff(Chain(init).value, blocks[n - 1].facts, blocks[n]); }
  }

  /**
   A chain is sound exactly if its root can be read and every later block can be read, names the block
   before it as its parent, which allows delegation and has depth left, keeps within that block's time
   and budgets, and adds nothing to what the chain before it permits.
   */
  lemma {:induction false} SoundIff(blocks: seq<Block>)
    ensures Chain(blocks).Some? <==>
              blocks != [] && ReadRoot(blocks[0]).Some? && forall i :: 1 <= i < |blocks| ==> LinkedAt(blocks, i)
    decreases |blocks|
  {
    hide ReadRoot, ChainStep, LinkedAt;
    if |blocks| >= 2 {
      var n := |blocks| - 1;
      var init := blocks[..n];
      SoundIff(init);
      assert init[0] == blocks[0];
      forall i | 1 <= i < n ensures LinkedAt(init, i) <==> LinkedAt(blocks, i) { LinkedPrefix(blocks, n, i); }
      if Chain(init).Some? { StepLinked(blocks); }
    }
  }

  lemma LinkedPrefix(blocks: seq<Block>, n: int, i: int)
    requires 1 <= i < n <= |blocks|
    ensures LinkedAt(blocks[..n], i) <==> LinkedAt(blocks, i)
  {
    hide ReadChild, Chain, DelegationLink, NumbersLink, ListsLink;
    assert blocks[..n][..i] == blocks[..i] && blocks[..n][i] == blocks[i] && blocks[..n][i - 1] == blocks[i - 1];
  }

  /** In the facts of an accepted chain, every block names the one before it, and that one allows delegation. */
  lemma AcceptedIsLinked(blocks: seq<Block>, now: int, future: int, past: int, i: int)
    requires Verify(blocks, now, future, past).Some? && 1 <= i < |blocks|
    ensures RequiredStr(blocks[i].facts, ParentJti).Some?
    ensures RequiredStr(blocks[i].facts, ParentJti) == RequiredStr(blocks[i - 1].facts, Jti)
    ensures RequiredBool(blocks[i - 1].facts, DelegationAllowed) == Some(true)
    ensures LessThan(RequiredInt(blocks[i].facts, MaxDelegationDepth), RequiredInt(blocks[i - 1].facts, MaxDelegationDepth))
  {
    hide Chain, ReadChild, ReadRoot, NumbersLink, ListsLink, RequiredStr, RequiredInt, RequiredBool, Authorized, IatWalkOk, FromBlocks;
    FoldIsChain(blocks, now);
    SoundIff(blocks);
    assert LinkedAt(blocks, i);
  }

  /** A chain with a block that names another parent, or whose parent does not allow delegation, is accepted at no moment. */
  lemma UnlinkedNeverAccepted(blocks: seq<Block>, now: int, future: int, past: int, i: int)
    requires 1 <= i < |blocks|
    requires || RequiredStr(blocks[i].facts, ParentJti) != RequiredStr(blocks[i - 1].facts, Jti)
             || RequiredBool(blocks[i - 1].facts, DelegationAllowed) != Some(true)
    ensures Verify(blocks, now, future, past) == None && FromBlocks(blocks, now) == None
  {
    hide Chain, ReadChild, ReadRoot, NumbersLink, ListsLink, RequiredStr, RequiredInt, RequiredBool, Authorized, IatWalkOk, FromBlocks;
    FoldIsChain(blocks, now);
    SoundIff(blocks);
    assert Chain(blocks).Some? ==> LinkedAt(blocks, i);
  }

  // ---- where the leaf's lists come from -----------------------------------------------------------------

  /** The last block that has a fact of the name, or the root if no later one has. */
  predicate LastWith(blocks: seq<Block>, name: Name, i: int) {
    && 0 <= i < |blocks| && (i > 0 ==> Rows(blocks[i].facts, name) != [])
    && forall j :: i < j < |blocks| ==> Rows(blocks[j].facts, name) == []
  }

  /** The names whose facts make up a list that a child may leave to its parent. */
  predicate ListName(name: Name) {
    name == AllowedTool || name == ForbiddenTool || name == AllowedSideEffectClass
  }

  function ListOf(e: Effective, name: Name): seq<string>
    requires ListName(name)
  {
    match name case AllowedTool => e.allowed case ForbiddenTool => e.forbidden case _ => e.classes
  }

  function DeclaredOf(c: Child, name: Name): Option<seq<string>>
    requires ListName(name)
  {
    match name case AllowedTool => c.allowed case ForbiddenTool => c.forbidden case _ => c.classes
  }

  lemma ChildList(block: Block, name: Name)
    requires ReadChild(block).Some? && ListName(name)
    ensures DeclaredOf(ReadChild(block).value, name) == if Rows(block.facts, name) == [] then None else StrValues(block.facts, name)
  {
    hide Rows, RequiredStr, RequiredInt, RequiredBool, OptionalStr, EmptyMarkerOk, StrValues, PairValues;
  }

  lemma ChildCaps(block: Block)
    requires ReadChild(block).Some?
    ensures ReadChild(block).value.caps == if Rows(block.facts, MaxToolCallsPerClass) == [] then None else PairValues(block.facts, MaxToolCallsPerClass)
  {
    hide Rows, RequiredStr, RequiredInt, RequiredBool, OptionalStr, EmptyMarkerOk, DeclaredStrs, PairValues;
  }

  lemma RootLists(block: Block, name: Name)
    requires ReadRoot(block).Some? && ListName(name)
    ensures var e, f := ReadRoot(block).value, block.facts;
            && Some(ListOf(e, name)) == StrValues(f, name) && Some(e.caps) == PairValues(f, MaxToolCallsPerClass)
            && RequiredStr(f, AgentId) == Some(e.agentId) && RequiredStr(f, Mission) == Some(e.mission)
            && RequiredStr(f, IssuerSpiffeId) == Some(e.issuer)
  {
    hide Rows, RequiredStr, RequiredInt, RequiredBool, OptionalStr, EmptyMarkerOk, StrValues, PairValues, StarAlone;
  }

  /** One more block on a sound chain. */
  lemma AppliedLists(blocks: seq<Block>, name: Name)
    requires |blocks| >= 2 && Chain(blocks).Some? && ListName(name)
    ensures Chain(blocks[..|blocks| - 1]).Some? && ReadChild(blocks[|blocks| - 1]).Some?
    ensures var e, c, l := Chain(blocks[..|blocks| - 1]).value, ReadChild(blocks[|blocks| - 1]).value, Chain(blocks).value;
            && ListOf(l, name) == Inherit(DeclaredOf(c, name), ListOf(e, name)) && l.caps == Inherit(c.caps, e.caps)
            && l.agentId == e.agentId && l.mission == e.mission && l.issuer == e.issuer
  {
    hide ReadRoot, ReadChild, Narrows;
  }

  /** Each list of a sound chain's leaf is the one that the last block with a fact of its name declares. */
  lemma {:induction false} LeafList(blocks: seq<Block>, name: Name, i: int)
    requires Chain(blocks).Some? && ListName(name) && LastWith(blocks, name, i)
    ensures Some(ListOf(Chain(blocks).value, name)) == StrValues(blocks[i].facts, name)
    decreases |blocks|
  {
    if |blocks| == 1 {
      RootLists(blocks[0], name);
    } else {
      hide Chain, ReadChild, Rows, StrValues, ListOf, DeclaredOf, ListName;
      AppliedLists(blocks, name);
      ChildList(blocks[|blocks| - 1], name);
      var k := LastInInit(blocks, name, i);
      LeafList(blocks[..|blocks| - 1], name, k);
    }
  }

  /** So are its caps; whose passport it is, and what for, the root says. */
  lemma {:induction false} LeafCapsAndRoot(blocks: seq<Block>, i: int)
    requires Chain(blocks).Some? && LastWith(blocks, MaxToolCallsPerClass, i)
    ensures var e, f := Chain(blocks).value, blocks[0].facts;
            && Some(e.caps) == PairValues(blocks[i].facts, MaxToolCallsPerClass)
            && RequiredStr(f, AgentId) == Some(e.agentId) && RequiredStr(f, Mission) == Some(e.mission)
            && RequiredStr(f, IssuerSpiffeId) == Some(e.issuer)
    decreases |blocks|
  {
    if |blocks| == 1 {
      RootLists(blocks[0], AllowedTool);
    } else {
      hide Chain, ReadChild, Rows, PairValues, RequiredStr, ListOf, DeclaredOf;
      AppliedLists(blocks, AllowedTool);
      ChildCaps(blocks[|blocks| - 1]);
      var k := LastInInit(blocks, MaxToolCallsPerClass, i);
      LeafCapsAndRoot(blocks[..|blocks| - 1], k);
    }
  }

  /** The last such block before the last block. */
  lemma LastInInit(blocks: seq<Block>, name: Name, i: int) returns (k: int)
    requires |blocks| >= 2 && LastWith(blocks, name, i)
    ensures LastWith(blocks[..|blocks| - 1], name, k) && 0 <= k < |blocks| - 1 && blocks[..|blocks| - 1][k] == blocks[k]
    ensures Rows(blocks[|blocks| - 1].facts, name) == [] ==> k == i
    ensures Rows(blocks[|blocks| - 1].facts, name) != [] ==> i == |blocks| - 1
  {
    hide Rows;
    if i < |blocks| - 1 { k := i; } else { k := SomeLast(blocks[..|blocks| - 1], name); }
  }

  lemma {:induction false} SomeLast(blocks: seq<Block>, name: Name) returns (k: int)
    requires blocks != []
    ensures LastWith(blocks, name, k)
    decreases |blocks|
  {
    hide Rows;
    var n := |blocks| - 1;
    if n == 0 || Rows(blocks[n].facts, name) != [] {
      k := n;
    } else {
      k := SomeLast(blocks[..n], name);
      assert forall j :: k < j < n ==> blocks[..n][j] == blocks[j];
    }
  }

  // ---- its scope and cwd ---------------------------------------------------------------------------------

  predicate DeclaresScope(f: seq<Fact>) {
    Rows(f, ResourceScope) != [] || Rows(f, ResourceScopeEmpty) != []
  }

  /** The last block that declares a scope or clears it, or the root if no later one does. */
  predicate LastScope(blocks: seq<Block>, i: int) {
    0 <= i < |blocks| && (i > 0 ==> DeclaresScope(blocks[i].facts)) && forall j :: i < j < |blocks| ==> !DeclaresScope(blocks[j].facts)
  }

  /** What a block's scope facts say: the marker clears it, and otherwise repeated entries count once. */
  predicate ScopeSays(f: seq<Fact>, root: bool, scope: seq<string>) {
    if Rows(f, ResourceScopeEmpty) != [] then scope == []
    else StrValues(f, ResourceScope).Some? && scope == if root then StrValues(f, ResourceScope).value else Dedupe(StrValues(f, ResourceScope).value)
  }

  lemma ChildScope(block: Block)
    requires ReadChild(block).Some?
    ensures var c, f := ReadChild(block).value, block.facts;
            && (c.scope.Some? <==> DeclaresScope(f)) && (c.scope.Some? ==> ScopeSays(f, false, Dedupe(c.scope.value)))
            && OptionalStr(f, Cwd) == Some(c.cwd)
  {
    hide Rows, RequiredStr, RequiredInt, RequiredBool, OptionalStr, EmptyMarkerOk, StrValues, PairValues, Dedupe;
    assert Dedupe([]) == [] by { NothingToDedupe(); }
  }

  lemma NothingToDedupe()
    ensures Dedupe([]) == []
  {
  }

  lemma RootScope(block: Block)
    requires ReadRoot(block).Some?
    ensures ScopeSays(block.facts, true, ReadRoot(block).value.scope) && OptionalStr(block.facts, Cwd) == Some(ReadRoot(block).value.cwd)
  {
    hide RequiredStr, RequiredInt, OptionalStr, PairValues, StarAlone;
  }

  lemma AppliedScope(blocks: seq<Block>)
    requires |blocks| >= 2 && Chain(blocks).Some?
    ensures Chain(blocks[..|blocks| - 1]).Some? && ReadChild(blocks[|blocks| - 1]).Some?
    ensures var e, c, l := Chain(blocks[..|blocks| - 1]).value, ReadChild(blocks[|blocks| - 1]).value, Chain(blocks).value;
            && l.scope == (if c.scope.Some? then Dedupe(c.scope.value) else e.scope)
            && DeriveCwd(e.cwd, c.cwd) == Some(l.cwd)
  {
    hide ReadRoot, ReadChild, NumbersNarrow, ToolsNarrow, ClassesNarrow, CapsNarrow, DeriveScope, DeriveCwd;
    var e, c := Chain(blocks[..|blocks| - 1]).value, ReadChild(blocks[|blocks| - 1]).value;
    if c.scope.Some? { DeriveScopeIff(e.scope, c.scope.value); }
  }

  /** The scope of a sound chain's leaf is what the last block that declares or clears one says. */
  lemma {:induction false} LeafScope(blocks: seq<Block>, i: int)
    requires Chain(blocks).Some? && LastScope(blocks, i)
    ensures ScopeSays(blocks[i].facts, i == 0, Chain(blocks).value.scope)
    decreases |blocks|
  {
    hide ReadRoot, ReadChild, DeclaresScope, ScopeSays;
    if |blocks| == 1 {
      RootScope(blocks[0]);
    } else {
      hide Chain;
      AppliedScope(blocks);
      ChildScope(blocks[|blocks| - 1]);
      if i < |blocks| - 1 {
        var init := blocks[..|blocks| - 1];
        assert forall j :: 0 <= j < |init| ==> init[j] == blocks[j];
        LeafScope(init, i);
      }
    }
  }

  /** The normal form of a declared cwd, or none if it is blank. */
  function NormalCwd(said: string): Option<string> {
    var s := Strip(said);
    if s == "" then None else Some(Lead(s) + Join(SegmentsOf(s)))
  }

  /** What a block's cwd fact says: the root's is kept as it is written. */
  predicate CwdSays(f: seq<Fact>, root: bool, cwd: Option<string>) {
    var said := OptionalStr(f, Cwd);
    said.Some? && if root then cwd == said.value else said.value.Some? && cwd == NormalCwd(said.value.value)
  }

  lemma AppliedCwd(blocks: seq<Block>)
    requires |blocks| >= 2 && Chain(blocks).Some?
    ensures Chain(blocks[..|blocks| - 1]).Some?
    ensures var e, l, f := Chain(blocks[..|blocks| - 1]).value, Chain(blocks).value, blocks[|blocks| - 1].facts;
            if Rows(f, Cwd) == [] then l.cwd == e.cwd else CwdSays(f, false, l.cwd)
  {
    hide Chain, ReadChild, Rows, RequiredStr, Strip, Lead, SegmentsOf, Join, DeriveCwd;
    var n := |blocks| - 1;
    AppliedScope(blocks);
    ChildScope(blocks[n]);
    DeriveCwdIff(Chain(blocks[..n]).value.cwd, ReadChild(blocks[n]).value.cwd);
  }

  /** The cwd of a sound chain's leaf is what the last block with one says. */
  lemma {:induction false} LeafCwd(blocks: seq<Block>, i: int)
    requires Chain(blocks).Some? && LastWith(blocks, Cwd, i)
    ensures CwdSays(blocks[i].facts, i == 0, Chain(blocks).value.cwd)
    decreases |blocks|
  {
    if |blocks| == 1 {
      RootScope(blocks[0]);
    } else {
      hide Chain, Rows, CwdSays;
      AppliedCwd(blocks);
      var k := LastInInit(blocks, Cwd, i);
      LeafCwd(blocks[..|blocks| - 1], k);
    }
  }

  // ---- the marker of a cleared scope ------------------------------------------------------------------------

  lemma ReadMarker(block: Block)
    requires (ReadRoot(block).Some? || ReadChild(block).Some?) && Rows(block.facts, ResourceScopeEmpty) != []
    ensures Rows(block.facts, ResourceScopeEmpty) == [[TBool(true)]] && Rows(block.facts, ResourceScope) == []
  {
    hide Rows, RequiredStr, RequiredInt, OptionalStr, DeclaredStrs, StrValues, PairValues, StarAlone;
    var rows := Rows(block.facts, ResourceScopeEmpty);
    assert rows[0] == [TBool(true)] && rows == [rows[0]];
  }

  lemma SoundReads(blocks: seq<Block>, i: int)
    requires Chain(blocks).Some? && 0 <= i < |blocks|
    ensures ReadRoot(blocks[i]).Some? || ReadChild(blocks[i]).Some?
  {
    hide Chain, ReadRoot, ReadChild, DelegationLink, NumbersLink, ListsLink;
    SoundIff(blocks);
    if i > 0 { assert LinkedAt(blocks, i); }
  }

  /** It is a single true, beside no scope entry; a chain with any other marker is accepted at no moment. */
  lemma BadMarkerNeverAccepted(blocks: seq<Block>, now: int, future: int, past: int, i: int)
    requires 0 <= i < |blocks| && Rows(blocks[i].facts, ResourceScopeEmpty) != []
    requires Rows(blocks[i].facts, ResourceScopeEmpty) != [[TBool(true)]] || Rows(blocks[i].facts, ResourceScope) != []
    ensures Verify(blocks, now, future, past) == None
  {
    hide Chain, Rows, Authorized, IatWalkOk, FromBlocks, ReadRoot, ReadChild;
    FoldIsChain(blocks, now);
    if Chain(blocks).Some? {
      SoundReads(blocks, i);
      ReadMarker(blocks[i]);
    }
  }
}
