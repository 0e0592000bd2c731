/** What a derivation means for whoever asked for it: when it is refused, and what the derived passport then grants. */
module DeriveRequest {

  import opened Results
  import opened Text
  import opened Paths
  import opened Lists
  import opened PassportFacts
  import opened BiscuitChain
  import opened BiscuitVerify
  import opened BiscuitAttenuation
  import opened BiscuitDerive
  import ChainFacts

  // ---- when it is refused -----------------------------------------------------------------------

  /** Each requested cap is of a class that the parent lists, is not negative, and does not raise the parent's. */
  predicate CapsAsked(p: Effective, r: Request) {
    r.caps.Some? ==> forall x :: x in r.caps.value ==>
      x in p.classes && 0 <= r.caps.value[x] && (x in p.caps ==> r.caps.value[x] <= p.caps[x])
  }

  /** What may be asked of a parent's context. */
  ghost predicate MayAsk(p: Effective, r: Request, now: int) {
    && p.delegationAllowed && p.maxDepth > 0 && now < p.exp && Strip(r.spiffeId) != ""
    && (r.tools.Some? ==> forall t :: t in r.tools.value ==> t in p.allowed && t !in p.forbidden)
    && (r.scope.Some? ==> ChainFacts.ScopeLink(p.scope, r.scope.value))
    && (r.maxCalls.Some? ==> 0 <= r.maxCalls.value <= p.maxCalls)
    && (if r.maxDuration.Some? then 0 < r.maxDuration.value <= p.maxDuration else 0 < p.maxDuration)
    && CapsAsked(p, r) && ChainFacts.CwdLink(p.cwd, r.cwd)
  }

  lemma ToolsAsked(p: Effective, requested: Option<seq<string>>)
    ensures FinalTools(p, requested).Some? <==>
              (requested.Some? ==> forall t :: t in requested.value ==> t in p.allowed && t !in p.forbidden)
  {
  }

  lemma CapsDecided(p: Effective, r: Request)
    ensures FinalCaps(p, r.caps).Some? <==> CapsAsked(p, r)
  {
  }

  /** A derivation succeeds exactly if the parent verifies and may be asked for it. */
  lemma DeriveSucceedsIff(parent: seq<Block>, r: Request, jti: string, now: int)
    ensures Derive(parent, r, jti, now).Some? <==>
              && Verify(parent, now, FUTURE_SKEW, PAST_SKEW).Some?
              && MayAsk(Verify(parent, now, FUTURE_SKEW, PAST_SKEW).value, r, now)
  {
    hide Verify, ChildBlock, FinalForbidden, FinalTools, FinalCaps, DeriveScope, DeriveCwd, ChainFacts.ScopeLink, ChainFacts.CwdLink, Strip, CapsAsked;
    var v := Verify(parent, now, FUTURE_SKEW, PAST_SKEW);
    if v.Some? {
      ToolsAsked(v.value, r.tools);
      CapsDecided(v.value, r);
      if r.scope.Some? { ChainFacts.DeriveScopeIff(v.value.scope, r.scope.value); }
      ChainFacts.DeriveCwdIff(v.value.cwd, r.cwd);
    }
  }

  // ---- what it grants -----------------------------------------------------------------------------

  function Or<T>(asked: Option<T>, inherited: T): T {
    if asked.Some? then asked.value else inherited
  }

  function Min(a: int, b: int): int {
    if a <= b then a else b
  }

  /** The numbers and the identity of the derived context, from the parent's and the request. */
  predicate NumbersAsAsked(v: Effective, p: Effective, r: Request, jti: string, now: int) {
    && v.maxCalls == Or(r.maxCalls, p.maxCalls)
    && v.exp == Min(p.exp, now + Or(r.maxDuration, p.maxDuration)) && v.maxDuration == v.exp - now && v.iat == now
    && v.jti == jti && v.parentJti == Some(p.jti) && v.spiffeId == Strip(r.spiffeId)
    && v.maxDepth == p.maxDepth - 1 && v.delegationAllowed == (p.maxDepth > 1)
    && v.agentId == p.agentId && v.mission == p.mission && v.issuer == p.issuer
  }

  /** Its scope has the requested entries, its caps are the requested ones over the parent's, its classes the parent's. */
  ghost predicate ListsAsAsked(v: Effective, p: Effective, r: Request) {
    && (forall x :: x in v.scope <==> x in Or(r.scope, p.scope))
    && (forall x :: x in v.caps <==> x in p.caps || (r.caps.Some? && x in r.caps.value))
    && (forall x :: x in v.caps ==> v.caps[x] == if r.caps.Some? && x in r.caps.value then r.caps.value[x] else p.caps[x])
    && (forall x :: x in v.classes <==> x in p.classes)
  }

  lemma DecidedNumbers(p: Effective, r: Request, g: Grant, jti: string, now: int)
    requires Decide(p, r, now) == Some(g)
    ensures NumbersAsAsked(Granted(p, g, jti, now), p, r, jti, now)
  {
    hide FinalTools, FinalForbidden, FinalScope, FinalCaps, DeriveCwd, Sorted, Dedupe, Strip;
  }

  lemma DecidedLists(p: Effective, r: Request, g: Grant, jti: string, now: int)
    requires Decide(p, r, now) == Some(g)
    ensures ListsAsAsked(Granted(p, g, jti, now), p, r)
  {
    hide FinalTools, FinalForbidden, DeriveCwd, Sorted, Strip, ScopeEntryNarrower;
    SortedSame(Dedupe(g.scope));
    SortedSame(p.classes);
    if r.scope.Some? { ChainFacts.DeriveScopeIff(p.scope, r.scope.value); }
    assert forall x :: x in g.scope <==> x in Or(r.scope, p.scope);
  }

  /** What verification makes of the derived block is what was decided, but for the cwd. */
  lemma AcceptedButCwd(parent: seq<Block>, r: Request, jti: string, now: int)
    requires Derive(parent, r, jti, now).Some?
    requires Verify(parent + [Derive(parent, r, jti, now).value], now, FUTURE_SKEW, PAST_SKEW).Some?
    ensures var p := Verify(parent, now, FUTURE_SKEW, PAST_SKEW).value;
            var v := Verify(parent + [Derive(parent, r, jti, now).value], now, FUTURE_SKEW, PAST_SKEW).value;
            && Decide(p, r, now).Some?
            && v.(cwd := None) == Granted(p, Decide(p, r, now).value, jti, now).(cwd := None)
            && DeriveCwd(p.cwd, Decide(p, r, now).value.cwd) == Some(v.cwd)
  {
    hide FromBlocks, Authorized, IatWalkOk, ChildBlock, Decide, Granted, Narrows, Apply, DeriveCwd;
    var e := FromBlocks(parent, now).value;
    var p := Canonical(e);
    var g := Decide(p, r, now).value;
    StarStaysAlone(parent, now);
    AppendedFold(parent, r, g, jti, now);
    AppliedButCwd(e, r, g, jti, now);
  }

  lemma AppliedButCwd(e: Effective, r: Request, g: Grant, jti: string, now: int)
    requires StarAlone(e.scope) && Decide(Canonical(e), r, now) == Some(g) && Narrows(e, Intended(Canonical(e), g, jti, now))
    ensures var v := Canonical(Apply(e, Intended(Canonical(e), g, jti, now)));
            && v.(cwd := None) == Granted(Canonical(e), g, jti, now).(cwd := None)
            && DeriveCwd(e.cwd, g.cwd) == Some(v.cwd)
  {
    hide Sorted, NumbersNarrow, ToolsNarrow, ClassesNarrow, CapsNarrow, DeriveScope, DeriveCwd;
    hide FinalForbidden, FinalTools, FinalScope, FinalCaps, FinalCalls, FinalDuration, Strip;
    var c := Intended(Canonical(e), g, jti, now);
    assert Inherit(c.caps, e.caps) == g.caps by { CapsNarrowIff(e, r.caps, g.caps, c); }
    AppliedLists(e, r, g, jti, now);
  }

  /**
   The derived passport in the terms of the request: the calls asked for, the time asked for or what is
   left of the parent's, exactly the scope entries asked for, each cap asked for and the parent's
   others, the parent's classes, one level less to delegate; and the tools asked for or the parent's.
   */
  lemma DerivedAsAsked(parent: seq<Block>, r: Request, jti: string, now: int)
    requires Derive(parent, r, jti, now).Some?
    requires Verify(parent + [Derive(parent, r, jti, now).value], now, FUTURE_SKEW, PAST_SKEW).Some?
    ensures var p := Verify(parent, now, FUTURE_SKEW, PAST_SKEW).value;
            var v := Verify(parent + [Derive(parent, r, jti, now).value], now, FUTURE_SKEW, PAST_SKEW).value;
            && NumbersAsAsked(v, p, r, jti, now) && ListsAsAsked(v, p, r)
            && (r.tools.None? ==> forall t :: MayCall(v, t) <==> MayCall(p, t))
            && (r.tools.Some? && ("*" !in p.allowed || (r.tools.value != [] && "*" !in r.tools.value)) ==>
                  forall t :: MayCall(v, t) <==> t in r.tools.value)
  {
    hide Verify, Derive, Decide, Granted, MayCall, NumbersAsAsked, ListsAsAsked, DeriveCwd;
    Decided(parent, r, jti, now);
    var p := Verify(parent, now, FUTURE_SKEW, PAST_SKEW).value;
    var v := Verify(parent + [Derive(parent, r, jti, now).value], now, FUTURE_SKEW, PAST_SKEW).value;
    AcceptedButCwd(parent, r, jti, now);
    var g := Decide(p, r, now).value;
    var w := Granted(p, g, jti, now);
    DecidedNumbers(p, r, g, jti, now);
    DecidedLists(p, r, g, jti, now);
    SameButCwd(v, w, p, r, jti, now);
    if r.tools.None? {
      forall t ensures MayCall(v, t) <==> MayCall(p, t) { UnnamedToolsPassOn(p, r, jti, now, t); }
    } else if "*" !in p.allowed || (r.tools.value != [] && "*" !in r.tools.value) {
      forall t ensures MayCall(v, t) <==> t in r.tools.value { NamedToolsAreTheTools(p, r, jti, now, t); }
    }
  }

  lemma SameButCwd(v: Effective, w: Effective, p: Effective, r: Request, jti: string, now: int)
    requires v.(cwd := None) == w.(cwd := None)
    ensures NumbersAsAsked(v, p, r, jti, now) == NumbersAsAsked(w, p, r, jti, now) && ListsAsAsked(v, p, r) == ListsAsAsked(w, p, r)
    ensures forall t :: MayCall(v, t) <==> MayCall(w, t)
  {
  }

  /** And its cwd is the normal form of the one asked for, or the parent's, exactly if the request is redeemable. */
  lemma DerivedCwdIff(parent: seq<Block>, r: Request, jti: string, now: int)
    requires Derive(parent, r, jti, now).Some?
    ensures var p := Verify(parent, now, FUTURE_SKEW, PAST_SKEW).value;
            var v := Verify(parent + [Derive(parent, r, jti, now).value], now, FUTURE_SKEW, PAST_SKEW);
            (v.Some? && v.value.cwd == if r.cwd.None? then p.cwd else ChainFacts.NormalCwd(r.cwd.value)) <==> Redeemable(p, r, now)
  {
    hide Verify, Derive, Decide, Granted, Redeemable, DeriveCwd, ChainFacts.NormalCwd;
    Decided(parent, r, jti, now);
    var p := Verify(parent, now, FUTURE_SKEW, PAST_SKEW).value;
    var v := Verify(parent + [Derive(parent, r, jti, now).value], now, FUTURE_SKEW, PAST_SKEW);
    var g := Decide(p, r, now).value;
    DecidedCwd(p, r, g, now);
    DerivedIsGrantedIff(parent, r, jti, now);
    GrantedCwd(p, g, jti, now);
    if v.Some? { AcceptedButCwd(parent, r, jti, now); }
  }

  lemma Decided(parent: seq<Block>, r: Request, jti: string, now: int)
    requires Derive(parent, r, jti, now).Some?
    ensures Verify(parent, now, FUTURE_SKEW, PAST_SKEW).Some? && Decide(Verify(parent, now, FUTURE_SKEW, PAST_SKEW).value, r, now).Some?
  {
    hide Verify, Decide;
  }

  lemma GrantedCwd(p: Effective, g: Grant, jti: string, now: int)
    ensures Granted(p, g, jti, now).cwd == g.cwd
  {
    hide Sorted, Dedupe;
  }

  lemma DecidedCwd(p: Effective, r: Request, g: Grant, now: int)
    requires Decide(p, r, now) == Some(g)
    ensures g.cwd == if r.cwd.None? then p.cwd else ChainFacts.NormalCwd(r.cwd.value)
  {
    hide Decide, Strip, DeriveCwd;
    DecideFacts(p, r, g, now);
    ChainFacts.DeriveCwdIff(p.cwd, r.cwd);
  }
}
