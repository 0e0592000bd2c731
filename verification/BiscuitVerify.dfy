/** Verification of a whole passport at a moment: the token's own checks, the iat walk, the fold. */
module BiscuitVerify {

  import opened Results
  import opened Lists
  import opened PassportFacts
  import opened BiscuitChain

  const FUTURE_SKEW := 300
  const PAST_SKEW := 30 * 86400

  /** The authorizer: every check holds, and the authority block names an agent. */
  predicate Authorized(blocks: seq<Block>, now: int) {
    && blocks != []
    && (exists i :: 0 <= i < |Rows(blocks[0].facts, AgentId)| && |Rows(blocks[0].facts, AgentId)[i]| == 1)
    && forall i :: 0 <= i < |blocks| ==> ChecksHold(blocks[i], now)
  }

  predicate ChecksHold(block: Block, now: int) {
    forall i :: 0 <= i < |block.checks| ==> now <= block.checks[i]
  }

  /** A zero skew disables its side of the bound. */
  predicate IatRowOk(row: seq<Term>, now: int, future: int, past: int) {
    && |row| >= 1 && row[0].TInt?
    && (future != 0 ==> row[0].i <= now + future)
    && (past != 0 ==> row[0].i >= now - past)
  }

  predicate IatRowsOk(rows: seq<seq<Term>>, now: int, future: int, past: int) {
    forall i :: 0 <= i < |rows| ==> IatRowOk(rows[i], now, future, past)
  }

  predicate IatWalkOk(blocks: seq<Block>, now: int, future: int, past: int)
    requires blocks != []
  {
    && Rows(blocks[0].facts, Iat) != []
    && forall i :: 0 <= i < |blocks| ==> IatRowsOk(Rows(blocks[i].facts, Iat), now, future, past)
  }

  /** The walk over every iat row of every block. */
  method WalkIat(blocks: seq<Block>, now: int, future: int, past: int) returns (ok: bool)
    requires blocks != []
    ensures ok == IatWalkOk(blocks, now, future, past)
  {
    var b := 0;
    while b < |blocks|
      invariant 0 <= b <= |blocks|
      invariant forall i :: 0 <= i < b ==> IatRowsOk(Rows(blocks[i].facts, Iat), now, future, past)
      invariant b > 0 ==> Rows(blocks[0].facts, Iat) != []
    {
      var rows := Rows(blocks[b].facts, Iat);
      if rows == [] && b == 0 { return false; }
      var k := 0;
      while k < |rows|
        invariant 0 <= k <= |rows|
        invariant forall i :: 0 <= i < k ==> IatRowOk(rows[i], now, future, past)
      {
        var row := rows[k];
        if |row| == 0 || !row[0].TInt? { return false; }
        if future != 0 && row[0].i > now + future { return false; }
        if past != 0 && row[0].i < now - past { return false; }
        k := k + 1;
      }
      b := b + 1;
    }
    return true;
  }

  /** The context's lists are sorted before they are handed out. */
  function Canonical(e: Effective): Effective {
    e.(allowed := Sorted(e.allowed), forbidden := Sorted(e.forbidden), scope := Sorted(e.scope), classes := Sorted(e.classes))
  }

  /** `verify_biscuit_passport` after the signature; None where it raises. */
  function Verify(blocks: seq<Block>, now: int, future: int, past: int): Option<Effective> {
    if Authorized(blocks, now) && IatWalkOk(blocks, now, future, past) && FromBlocks(blocks, now).Some?
    then Some(Canonical(FromBlocks(blocks, now).value)) else None
  }

  /** The lists that verification hands out are sorted, and are the folded ones up to order. */
  lemma HandsOutSorted(blocks: seq<Block>, now: int, future: int, past: int)
    requires Verify(blocks, now, future, past).Some?
    ensures var v, e := Verify(blocks, now, future, past).value, FromBlocks(blocks, now).value;
            && Ascending(v.allowed) && Ascending(v.forbidden) && Ascending(v.scope) && Ascending(v.classes)
            && multiset(v.allowed) == multiset(e.allowed) && multiset(v.forbidden) == multiset(e.forbidden)
            && multiset(v.scope) == multiset(e.scope) && multiset(v.classes) == multiset(e.classes)
  {
    hide FromBlocks, Authorized, IatWalkOk, Sorted, Ascending;
    var e := FromBlocks(blocks, now).value;
    SortedAscending(e.allowed);
    SortedSame(e.allowed);
    SortedAscending(e.forbidden);
    SortedSame(e.forbidden);
    SortedAscending(e.scope);
    SortedSame(e.scope);
    SortedAscending(e.classes);
    SortedSame(e.classes);
  }

  // ---- the acceptance window -----------------------------------------------------------

  /** The fold without its clock test: whether the chain is sound at all. */
  function Chain(blocks: seq<Block>): Option<Effective> {
    if blocks == [] then None
    else if |blocks| == 1 then ReadRoot(blocks[0])
    else match Chain(blocks[..|blocks| - 1])
         case None => None
         case Some(e) => ChainStep(e, blocks[|blocks| - 1])
  }

  function ChainStep(e: Effective, block: Block): Option<Effective> {
    match ReadChild(block)
    case None => None
    case Some(c) => if Narrows(e, c) then Some(Apply(e, c)) else None
  }

  /** The clock test of the fold: no child block has expired. */
  predicate ChildrenLive(blocks: seq<Block>, now: int) {
    forall i :: 1 <= i < |blocks| ==> ChildLive(blocks[i], now)
  }

  predicate ChildLive(block: Block, now: int) {
    var exp := RequiredInt(block.facts, Exp);
    exp.Some? && now <= exp.value
  }

  lemma StepIsChainStep(e: Effective, block: Block, now: int)
    ensures StepBlock(e, block, now) == if ChildLive(block, now) then ChainStep(e, block) else None
    ensures ChainStep(e, block).Some? ==>
              && RequiredInt(block.facts, Iat) == Some(ChainStep(e, block).value.iat)
              && RequiredInt(block.facts, Exp) == Some(ChainStep(e, block).value.exp)
              && e.iat <= ChainStep(e, block).value.iat && ChainStep(e, block).value.exp <= e.exp
  {
    hide Rows, DeriveScope, DeriveCwd, ToolsNarrow, ClassesNarrow, CapsNarrow, EmptyMarkerOk, DeclaredStrs, PairValues, OptionalStr;
  }

  lemma {:induction false} FoldIsChain(blocks: seq<Block>, now: int)
    ensures FromBlocks(blocks, now) == if ChildrenLive(blocks, now) then Chain(blocks) else None
    decreases |blocks|
  {
    hide ReadRoot, StepBlock, ChainStep, ChildLive;
    if |blocks| > 1 {
      var init, last := blocks[..|blocks| - 1], blocks[|blocks| - 1];
      FoldIsChain(init, now);
      assert ChildrenLive(blocks, now) <==> ChildrenLive(init, now) && ChildLive(last, now) by {
        assert forall i :: 1 <= i < |init| ==> blocks[i] == init[i];
      }
      if Chain(init).Some? { StepIsChainStep(Chain(init).value, last, now); }
    }
  }

  lemma RootTimes(block: Block)
    requires ReadRoot(block).Some?
    ensures RequiredInt(block.facts, Iat) == Some(ReadRoot(block).value.iat)
    ensures RequiredInt(block.facts, Exp) == Some(ReadRoot(block).value.exp)
    ensures RequiredStr(block.facts, AgentId).Some?
  {
    hide Rows, EmptyMarkerOk, StrValues, PairValues, OptionalStr;
  }

  predicate Between(block: Block, low: int, high: int, exp: int) {
    var iat, end := RequiredInt(block.facts, Iat), RequiredInt(block.facts, Exp);
    iat.Some? && end.Some? && low <= iat.value <= high && exp <= end.value
  }

  /** Along a sound chain the iat only rises and the exp only falls, so the two ends bound every block. */
  lemma {:induction false} EndsBoundBlocks(blocks: seq<Block>)
    requires Chain(blocks).Some?
    ensures blocks != [] && ReadRoot(blocks[0]).Some?
    ensures var root, leaf := ReadRoot(blocks[0]).value, Chain(blocks).value;
            && root.iat <= leaf.iat && leaf.exp <= root.exp
            && (forall i :: 0 <= i < |blocks| ==> Between(blocks[i], root.iat, leaf.iat, leaf.exp))
            && Between(blocks[|blocks| - 1], leaf.iat, leaf.iat, leaf.exp)
            && RequiredInt(blocks[|blocks| - 1].facts, Exp) == Some(leaf.exp)
    decreases |blocks|
  {
    hide ReadRoot, ChainStep, RequiredInt, RequiredStr;
    if |blocks| == 1 {
      RootTimes(blocks[0]);
    } else {
      var init, last := blocks[..|blocks| - 1], blocks[|blocks| - 1];
      EndsBoundBlocks(init);
      StepIsChainStep(Chain(init).value, last, 0);
      var root, leaf := ReadRoot(blocks[0]).value, Chain(blocks).value;
      forall i | 0 <= i < |blocks| ensures Between(blocks[i], root.iat, leaf.iat, leaf.exp) {
        if i < |init| { assert blocks[i] == init[i] && Between(init[i], root.iat, Chain(init).value.iat, Chain(init).value.exp); }
      }
    }
  }

  /** The root carries the check that issuing adds, and no block carries any but its own expiry. */
  predicate OwnChecksOnly(blocks: seq<Block>) {
    && blocks != [] && RequiredInt(blocks[0].facts, Exp).Some?
    && blocks[0].checks == [RequiredInt(blocks[0].facts, Exp).value]
    && forall i, k :: 0 <= i < |blocks| && 0 <= k < |blocks[i].checks| ==>
         RequiredInt(blocks[i].facts, Exp) == Some(blocks[i].checks[k])
  }

  lemma IatRowsIff(block: Block, now: int, future: int, past: int, iat: int)
    requires RequiredInt(block.facts, Iat) == Some(iat) && future != 0 && past != 0
    ensures Rows(block.facts, Iat) != []
    ensures IatRowsOk(Rows(block.facts, Iat), now, future, past) <==> now - past <= iat <= now + future
  {
  }

  lemma WalkIff(blocks: seq<Block>, now: int, future: int, past: int)
    requires Chain(blocks).Some? && future != 0 && past != 0
    ensures blocks != [] && ReadRoot(blocks[0]).Some?
    ensures IatWalkOk(blocks, now, future, past)
            <==> Chain(blocks).value.iat - future <= now <= ReadRoot(blocks[0]).value.iat + past
  {
    hide ReadRoot, Chain, RequiredInt, IatRowsOk, Rows;
    EndsBoundBlocks(blocks);
    var root, leaf := ReadRoot(blocks[0]).value, Chain(blocks).value;
    forall i | 0 <= i < |blocks|
      ensures RequiredInt(blocks[i].facts, Iat).Some? && root.iat <= RequiredInt(blocks[i].facts, Iat).value <= leaf.iat
      ensures Rows(blocks[i].facts, Iat) != []
      ensures IatRowsOk(Rows(blocks[i].facts, Iat), now, future, past)
              <==> now - past <= RequiredInt(blocks[i].facts, Iat).value <= now + future
    {
      assert Between(blocks[i], root.iat, leaf.iat, leaf.exp);
      IatRowsIff(blocks[i], now, future, past, RequiredInt(blocks[i].facts, Iat).value);
    }
    RootTimes(blocks[0]);
    var last := blocks[|blocks| - 1];
    assert RequiredInt(last.facts, Iat) == Some(leaf.iat);
    assert RequiredInt(blocks[0].facts, Iat) == Some(root.iat);
  }

  lemma AuthorizedIff(blocks: seq<Block>, now: int)
    requires Chain(blocks).Some? && OwnChecksOnly(blocks)
    ensures (Authorized(blocks, now) && ChildrenLive(blocks, now)) <==> now <= Chain(blocks).value.exp
  {
    hide ReadRoot, Chain, RequiredInt;
    EndsBoundBlocks(blocks);
    var root, leaf := ReadRoot(blocks[0]).value, Chain(blocks).value;
    RootTimes(blocks[0]);
    assert |Rows(blocks[0].facts, AgentId)| == 1 && |Rows(blocks[0].facts, AgentId)[0]| == 1;
    if now <= leaf.exp {
      forall i | 0 <= i < |blocks| ensures ChecksHold(blocks[i], now) && (i > 0 ==> ChildLive(blocks[i], now)) {
        assert Between(blocks[i], root.iat, leaf.iat, leaf.exp);
      }
    } else if |blocks| == 1 {
      assert !(now <= blocks[0].checks[0]) && !ChecksHold(blocks[0], now);
    } else {
      assert !ChildLive(blocks[|blocks| - 1], now);
    }
  }

  /**
   The walk over every block's iat and exp collapses to the chain's two ends: a sound chain
   is accepted at `now` exactly from its leaf's iat, less the future skew, up to its leaf's
   expiry and its root's iat plus the past skew.
   */
  lemma AcceptanceWindow(blocks: seq<Block>, now: int, future: int, past: int)
    requires Chain(blocks).Some? && OwnChecksOnly(blocks) && future != 0 && past != 0
    ensures blocks != [] && ReadRoot(blocks[0]).Some?
    ensures var root, leaf := ReadRoot(blocks[0]).value, Chain(blocks).value;
            && (Verify(blocks, now, future, past).Some? <==>
                  leaf.iat - future <= now && now <= leaf.exp && now <= root.iat + past)
            && (Verify(blocks, now, future, past).Some? ==> Verify(blocks, now, future, past).value == Canonical(leaf))
  {
    hide ReadRoot, Chain, FromBlocks, IatWalkOk, Authorized, ChildrenLive, OwnChecksOnly, Canonical;
    EndsBoundBlocks(blocks);
    FoldIsChain(blocks, now);
    WalkIff(blocks, now, future, past);
    AuthorizedIff(blocks, now);
  }

  /** An unsound chain is accepted at no moment. */
  lemma UnsoundNeverAccepted(blocks: seq<Block>, now: int, future: int, past: int)
    requires Chain(blocks).None?
    ensures Verify(blocks, now, future, past) == None
  {
    hide Chain, FromBlocks, ChildrenLive;
    FoldIsChain(blocks, now);
  }
}
