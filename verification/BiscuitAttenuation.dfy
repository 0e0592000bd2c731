/** Attenuation over chains of any length: no descendant has authority that an ancestor lacks. */
module BiscuitAttenuation {

  import opened Results
  import opened Paths
  import opened Lists
  import opened PassportFacts
  import opened BiscuitChain

  // ---- what each dimension permits --------------------------------------------------

  /** A tool may be called if it is not denied and is allowed by name or by the wildcard. */
  predicate MayCall(e: Effective, tool: string) {
    tool !in e.forbidden && (tool in e.allowed || "*" in e.allowed)
  }

  /** No declared class means no restriction by class. */
  predicate MayCause(e: Effective, sideEffect: string) {
    e.classes == [] || sideEffect in e.classes
  }

  /** The calls of a class that fit both its cap, if it has one, and the total budget. */
  predicate MaySpend(e: Effective, sideEffect: string, calls: int) {
    calls <= e.maxCalls && (sideEffect in e.caps ==> calls <= e.caps[sideEffect])
  }

  predicate CwdWithin(child: Option<string>, parent: Option<string>) {
    parent.Some? ==> child.Some? && IsSubpath(child.value, parent.value)
  }

  predicate ScopeWithin(child: seq<string>, parent: seq<string>) {
    forall i :: 0 <= i < |child| ==> EntryCovered(child[i], parent)
  }

  predicate ToolsWithin(child: Effective, parent: Effective) {
    && (forall t :: t in parent.forbidden ==> t in child.forbidden)
    && ("*" !in parent.allowed ==>
          "*" !in child.allowed && forall t :: t in child.allowed && t !in child.forbidden ==> t in parent.allowed && t !in parent.forbidden)
  }

  predicate ClassesWithin(child: Effective, parent: Effective) {
    parent.classes != [] ==> child.classes != [] && forall x :: x in child.classes ==> x in parent.classes
  }

  predicate CapsWithin(child: Effective, parent: Effective) {
    forall x :: x in parent.caps ==> x in child.caps && child.caps[x] <= parent.caps[x]
  }

  predicate NumbersWithin(child: Effective, parent: Effective) {
    && child.maxCalls <= parent.maxCalls && child.maxDuration <= parent.maxDuration
    && parent.iat <= child.iat && child.exp <= parent.exp && child.maxDepth <= parent.maxDepth
    && child.agentId == parent.agentId && child.mission == parent.mission && child.issuer == parent.issuer
  }

  /** Contained on every dimension at once. */
  predicate Within(child: Effective, parent: Effective) {
    && NumbersWithin(child, parent) && ToolsWithin(child, parent) && ClassesWithin(child, parent) && CapsWithin(child, parent)
    && ScopeWithin(child.scope, parent.scope) && CwdWithin(child.cwd, parent.cwd)
  }

  // ---- containment means fewer permissions --------------------------------------------

  lemma EntryNarrowerTransitive(a: string, b: string, c: string)
    requires ScopeEntryNarrower(a, b) && ScopeEntryNarrower(b, c)
    ensures ScopeEntryNarrower(a, c)
  {
    hide IsSubpath, NormalizeCwd;
    if a != b && b != c && c != UNRESTRICTED {
      SubpathTransitive(NormalizeCwd(a).value.value, NormalizeCwd(b).value.value, NormalizeCwd(c).value.value);
    }
  }

  lemma CoveredTransitive(entry: string, child: seq<string>, parent: seq<string>)
    requires EntryCovered(entry, child) && ScopeWithin(child, parent)
    ensures EntryCovered(entry, parent)
  {
    hide ScopeEntryNarrower;
    var i :| 0 <= i < |child| && ScopeEntryNarrower(entry, child[i]);
    var j :| 0 <= j < |parent| && ScopeEntryNarrower(child[i], parent[j]);
    EntryNarrowerTransitive(entry, child[i], parent[j]);
  }

  /** Whatever tool, side effect or spend the contained authority permits, the containing one permits too. */
  lemma WithinPermitsLess(child: Effective, parent: Effective, tool: string, sideEffect: string, calls: int)
    requires Within(child, parent)
    ensures MayCall(child, tool) ==> MayCall(parent, tool)
    ensures MayCause(child, sideEffect) ==> MayCause(parent, sideEffect)
    ensures MaySpend(child, sideEffect, calls) ==> MaySpend(parent, sideEffect, calls)
  {
    hide EntryCovered;
  }

  lemma EntryCoveredSelf(scope: seq<string>)
    ensures ScopeWithin(scope, scope)
  {
    hide NormalizeCwd;
    forall i | 0 <= i < |scope| ensures EntryCovered(scope[i], scope) {
      assert ScopeEntryNarrower(scope[i], scope[i]);
    }
  }

  lemma WithinReflexive(e: Effective)
    ensures Within(e, e)
  {
    hide EntryCovered;
    EntryCoveredSelf(e.scope);
  }

  lemma WithinTransitive(a: Effective, b: Effective, c: Effective)
    requires Within(a, b) && Within(b, c)
    ensures Within(a, c)
  {
    hide EntryCovered, IsSubpath;
    forall i | 0 <= i < |a.scope| ensures EntryCovered(a.scope[i], c.scope) {
      CoveredTransitive(a.scope[i], b.scope, c.scope);
    }
    if c.cwd.Some? { SubpathTransitive(a.cwd.value, b.cwd.value, c.cwd.value); }
  }

  // ---- one block --------------------------------------------------------------------------

  lemma DeriveScopeWithin(parent: seq<string>, child: seq<string>)
    requires DeriveScope(parent, child).Some?
    ensures ScopeWithin(DeriveScope(parent, child).value, parent)
  {
    hide NormalizeCwd;
    if parent == [UNRESTRICTED] {
      var d := DeriveScope(parent, child).value;
      forall i | 0 <= i < |d| ensures EntryCovered(d[i], parent) {
        assert ScopeEntryNarrower(d[i], parent[0]);
      }
    }
  }

  lemma DeriveCwdWithin(parent: Option<string>, child: Option<string>)
    requires DeriveCwd(parent, child).Some?
    ensures CwdWithin(DeriveCwd(parent, child).value, parent)
  {
    hide NormalizeCwd;
    if parent.Some? { assert IsSubpath(parent.value, parent.value); }
  }

  /** Declared lists are never empty: a block declares them by having a fact for them. */
  predicate Declared(c: Child) {
    (c.classes.Some? ==> c.classes.value != []) && (c.allowed.Some? ==> c.allowed.value != [])
  }

  lemma ReadChildDeclared(block: Block)
    requires ReadChild(block).Some?
    ensures Declared(ReadChild(block).value)
  {
    hide RequiredStr, RequiredInt, RequiredBool, OptionalStr, PairValues, EmptyMarkerOk;
    assert forall name :: DeclaredStrs(block.facts, name).Some? && DeclaredStrs(block.facts, name).value.Some?
             ==> DeclaredStrs(block.facts, name).value.value != [];
  }

  lemma ApplyWithin(e: Effective, c: Child)
    requires Narrows(e, c) && Declared(c)
    ensures Within(Apply(e, c), e) && Apply(e, c).maxDepth < e.maxDepth && Apply(e, c).maxDepth >= 0
  {
    hide DeriveScope, DeriveCwd, EntryCovered;
    if c.scope.Some? { DeriveScopeWithin(e.scope, c.scope.value); } else { EntryCoveredSelf(e.scope); }
    DeriveCwdWithin(e.cwd, c.cwd);
  }

  lemma StepWithin(e: Effective, block: Block, now: int)
    requires StepBlock(e, block, now).Some?
    ensures Within(StepBlock(e, block, now).value, e)
    ensures 0 <= StepBlock(e, block, now).value.maxDepth < e.maxDepth
  {
    hide ReadChild, Narrows, Apply, Within;
    ReadChildDeclared(block);
    ApplyWithin(e, ReadChild(block).value);
  }

  // ---- the whole chain ---------------------------------------------------------------------

  lemma {:induction false} PrefixAccepted(blocks: seq<Block>, n: nat, now: int)
    requires 1 <= n <= |blocks| && FromBlocks(blocks, now).Some?
    ensures FromBlocks(blocks[..n], now).Some?
  {
    hide FromBlocks;
    if FromBlocks(blocks[..n], now) == None { RejectedPrefix(blocks, n, now); }
  }

  /**
   In every accepted chain the leaf is contained in every ancestor on all dimensions, and
   the remaining depth has fallen by at least the number of blocks between them.
   */
  lemma {:induction false} LeafWithinEveryAncestor(blocks: seq<Block>, n: nat, now: int)
    requires 1 <= n <= |blocks| && FromBlocks(blocks, now).Some?
    ensures FromBlocks(blocks[..n], now).Some?
    ensures var leaf, ancestor := FromBlocks(blocks, now).value, FromBlocks(blocks[..n], now).value;
            Within(leaf, ancestor) && leaf.maxDepth <= ancestor.maxDepth - (|blocks| - n)
    ensures n < |blocks| ==> FromBlocks(blocks, now).value.maxDepth >= 0
    decreases |blocks|
  {
    hide ReadRoot, StepBlock, Within;
    PrefixAccepted(blocks, n, now);
    var leaf := FromBlocks(blocks, now).value;
    if n == |blocks| {
      assert blocks[..n] == blocks;
      WithinReflexive(leaf);
    } else {
      var init := blocks[..|blocks| - 1];
      assert init[..n] == blocks[..n];
      LeafWithinEveryAncestor(init, n, now);
      StepWithin(FromBlocks(init, now).value, blocks[|blocks| - 1], now);
      WithinTransitive(leaf, FromBlocks(init, now).value, FromBlocks(blocks[..n], now).value);
    }
  }

  /** An accepted chain has at most one block more than the root's depth. */
  lemma ChainLengthBounded(blocks: seq<Block>, now: int)
    requires |blocks| >= 2 && FromBlocks(blocks, now).Some?
    ensures ReadRoot(blocks[0]).Some? && |blocks| <= ReadRoot(blocks[0]).value.maxDepth + 1
  {
    hide ReadRoot, StepBlock, Within;
    LeafWithinEveryAncestor(blocks, 1, now);
    assert blocks[..1] == [blocks[0]];
  }
}
