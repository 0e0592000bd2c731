/** From issuing to deriving: a passport that is issued for delegation can be delegated, and grants what it should. */
module BiscuitLifecycle {

  import opened Results
  import opened Text
  import opened Paths
  import opened PassportFacts
  import opened BiscuitChain
  import opened BiscuitVerify
  import opened BiscuitAttenuation
  import opened BiscuitDerive
  import BiscuitIssue

  /** A derivation that asks for nothing but a new holder. */
  function PlainRequest(spiffeId: string): Request {
    Request(spiffeId, None, None, None, None, None, None)
  }

  /** What a mission needs to be delegated as it is. */
  predicate Delegable(m: BiscuitIssue.MissionPassport) {
    && BiscuitIssue.Constructed(m) && m.delegationAllowed && m.maxDepth > 0 && m.maxCalls >= 0 && m.maxDuration > 0
    && (forall x :: x in m.caps ==> m.caps[x] >= 0)
    && (m.cwd.Some? ==> NormalizeCwd(m.cwd.value) == Ok(Some(m.cwd.value)))
  }

  lemma PlainDecides(e: Effective, spiffeId: string, t: int)
    requires e.delegationAllowed && e.maxDepth > 0 && e.maxDuration > 0 && t < e.exp && Strip(spiffeId) != ""
    ensures Decide(Canonical(e), PlainRequest(spiffeId), t).Some?
  {
    hide FinalForbidden, Strip;
  }

  predicate Redeems(e: Effective, t: int) {
    && e.delegationAllowed && e.maxDepth > 0 && e.maxDuration > 0 && e.maxCalls >= 0 && e.iat <= t < e.exp
    && (forall x :: x in e.caps ==> e.caps[x] >= 0)
    && (e.cwd.Some? ==> NormalizeCwd(e.cwd.value) == Ok(Some(e.cwd.value)))
  }

  lemma PlainRedeems(e: Effective, spiffeId: string, t: int)
    requires Redeems(e, t)
    ensures Redeemable(Canonical(e), PlainRequest(spiffeId), t)
  {
    hide NormalizeCwd;
  }

  lemma SameCalls(e: Effective, tool: string)
    ensures MayCall(Canonical(e), tool) <==> MayCall(e, tool)
  {
    CanonicalSame(e);
  }

  /** Any verified passport with delegation left can be passed on as it is; the child verifies at once and may call the same tools. */
  lemma CanBePassedOn(parent: seq<Block>, e: Effective, spiffeId: string, child: string, t: int, tool: string)
    requires Verify(parent, t, FUTURE_SKEW, PAST_SKEW) == Some(Canonical(e)) && Redeems(e, t) && Strip(spiffeId) != ""
    ensures Derive(parent, PlainRequest(spiffeId), child, t).Some?
    ensures var v := Verify(parent + [Derive(parent, PlainRequest(spiffeId), child, t).value], t, FUTURE_SKEW, PAST_SKEW);
            v.Some? && (MayCall(v.value, tool) <==> MayCall(e, tool))
  {
    hide Verify, Decide, Redeemable, Granted, ChildBlock, MayCall, Strip, Canonical;
    var p, r := Canonical(e), PlainRequest(spiffeId);
    PlainDecides(e, spiffeId, t);
    PlainRedeems(e, spiffeId, t);
    DerivedIsGrantedIff(parent, r, child, t);
    UnnamedToolsPassOn(p, r, child, t, tool);
    SameCalls(e, tool);
  }

  lemma IssuedRedeems(m: BiscuitIssue.MissionPassport, holder: string, issuer: string, jti: string, iat: int, exp: int, t: int)
    requires Delegable(m) && iat <= t < exp
    ensures Redeems(BiscuitIssue.AsIssued(m, holder, issuer, jti, iat, exp), t)
  {
    hide NormalizeCwd;
  }

  /**
   At every moment of an issued passport's life but its last, a delegable mission can be passed on
   as it is; the child verifies at once, and may call exactly the tools of the mission.
   */
  lemma IssuedCanBePassedOn(m: BiscuitIssue.MissionPassport, issuer: string, ttl: int, jti: string, now: int,
                            spiffeId: string, child: string, t: int, tool: string)
    requires Delegable(m) && BiscuitIssue.Issue(m, issuer, ttl, jti, now).Some? && Strip(spiffeId) != ""
    requires now <= t < now + ttl && t <= now + PAST_SKEW
    ensures Derive([BiscuitIssue.Issue(m, issuer, ttl, jti, now).value], PlainRequest(spiffeId), child, t).Some?
    ensures var parent := [BiscuitIssue.Issue(m, issuer, ttl, jti, now).value];
            var v := Verify(parent + [Derive(parent, PlainRequest(spiffeId), child, t).value], t, FUTURE_SKEW, PAST_SKEW);
            v.Some? && (MayCall(v.value, tool) <==> MayCall(BiscuitIssue.AsIssued(m, Strip(m.holder.value), Strip(issuer), jti, now, now + ttl), tool))
  {
    hide BiscuitIssue.RootBlock, Verify, Derive, Redeems, MayCall, Strip, Canonical, BiscuitIssue.AsIssued, NormalizeCwd;
    var e := BiscuitIssue.AsIssued(m, Strip(m.holder.value), Strip(issuer), jti, now, now + ttl);
    var parent := [BiscuitIssue.Issue(m, issuer, ttl, jti, now).value];
    BiscuitIssue.IssuedIsGranted(m, issuer, ttl, jti, now, t);
    IssuedRedeems(m, Strip(m.holder.value), Strip(issuer), jti, now, now + ttl, t);
    CanBePassedOn(parent, e, spiffeId, child, t, tool);
  }

  // ---- a cwd that ends in white space --------------------------------------------------------

  function BlankRequest(spiffeId: string): Request {
    Request(spiffeId, None, None, None, None, None, Some("/a /"))
  }

  lemma BlankDecides(e: Effective, spiffeId: string, t: int)
    requires Redeems(e, t) && e.cwd == None && Strip(spiffeId) != ""
    ensures Decide(Canonical(e), BlankRequest(spiffeId), t).Some?
  {
    hide FinalForbidden, Strip, NormalizeCwd;
    BlankSurvives();
  }

  /** A passport issued without a cwd lets a child be derived with the cwd "/a /", and what verification grants is not what was derived. */
  lemma BlankCwdIsDerivedAndNotGranted(m: BiscuitIssue.MissionPassport, issuer: string, ttl: int, jti: string, now: int,
                                       spiffeId: string, child: string, t: int)
    requires Delegable(m) && m.cwd == None && BiscuitIssue.Issue(m, issuer, ttl, jti, now).Some? && Strip(spiffeId) != ""
    requires now <= t < now + ttl && t <= now + PAST_SKEW
    ensures Derive([BiscuitIssue.Issue(m, issuer, ttl, jti, now).value], BlankRequest(spiffeId), child, t).Some?
    ensures var parent, r := [BiscuitIssue.Issue(m, issuer, ttl, jti, now).value], BlankRequest(spiffeId);
            var p := Verify(parent, t, FUTURE_SKEW, PAST_SKEW).value;
            Verify(parent + [Derive(parent, r, child, t).value], t, FUTURE_SKEW, PAST_SKEW)
              != Some(Granted(p, Decide(p, r, t).value, child, t))
  {
    hide BiscuitIssue.RootBlock, Verify, Decide, ChildBlock, Granted, Redeems, Strip, Canonical, NormalizeCwd;
    var e := BiscuitIssue.AsIssued(m, Strip(m.holder.value), Strip(issuer), jti, now, now + ttl);
    var parent := [BiscuitIssue.Issue(m, issuer, ttl, jti, now).value];
    BiscuitIssue.IssuedIsGranted(m, issuer, ttl, jti, now, t);
    IssuedRedeems(m, Strip(m.holder.value), Strip(issuer), jti, now, now + ttl, t);
    BlankDecides(e, spiffeId, t);
    BlankCwdIsNotGranted(parent, BlankRequest(spiffeId), child, t);
  }
}
