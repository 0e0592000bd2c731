/** Issuing a passport, and the round trip from the mission to what verification grants. */
module BiscuitIssue {

  import opened Results
  import opened Text
  import opened Lists
  import opened PassportFacts
  import opened BiscuitChain
  import opened BiscuitVerify

  /** The fields of a `MissionPassport` that a Biscuit carries; its id is the given one, or the derived default. */
  datatype MissionPassport = MissionPassport(
    agentId: string,
    mission: string,
    missionId: string,
    holder: Option<string>,
    allowed: seq<string>,
    forbidden: seq<string>,
    scope: seq<string>,
    classes: seq<string>,
    caps: map<string, int>,
    maxCalls: int,
    maxDuration: int,
    delegationAllowed: bool,
    maxDepth: int,
    parentJti: Option<string>,
    cwd: Option<string>)

  /** What `__post_init__` makes sure of. */
  predicate Constructed(m: MissionPassport) {
    StarAlone(m.scope)
  }

  const NAMES: nat := 19

  /** The fact names of an authority block, in the order in which they are added. */
  function NameAt(k: nat): Name {
    if k == 0 then AgentId else if k == 1 then SpiffeId else if k == 2 then IssuerSpiffeId else if k == 3 then Mission
    else if k == 4 then MissionId else if k == 5 then Jti else if k == 6 then Iat else if k == 7 then Exp
    else if k == 8 then MaxToolCalls else if k == 9 then MaxDuration else if k == 10 then DelegationAllowed
    else if k == 11 then MaxDelegationDepth else if k == 12 then ParentJti else if k == 13 then Cwd
    else if k == 14 then AllowedTool else if k == 15 then ForbiddenTool else if k == 16 then ResourceScope
    else if k == 17 then AllowedSideEffectClass else MaxToolCallsPerClass
  }

  function OptionalRow(x: Option<string>): seq<seq<Term>> {
    if x.Some? then [[TStr(x.value)]] else []
  }

  ghost function Written(m: MissionPassport, holder: string, issuer: string, jti: string, iat: int, exp: int, name: Name): seq<seq<Term>> {
    match name
    case AgentId => [[TStr(m.agentId)]]
    case SpiffeId => [[TStr(holder)]]
    case IssuerSpiffeId => [[TStr(issuer)]]
    case Mission => [[TStr(m.mission)]]
    case MissionId => [[TStr(m.missionId)]]
    case Jti => [[TStr(jti)]]
    case Iat => [[TInt(iat)]]
    case Exp => [[TInt(exp)]]
    case MaxToolCalls => [[TInt(m.maxCalls)]]
    case MaxDuration => [[TInt(m.maxDuration)]]
    case DelegationAllowed => [[TBool(m.delegationAllowed)]]
    case MaxDelegationDepth => [[TInt(m.maxDepth)]]
    case ParentJti => OptionalRow(m.parentJti)
    case Cwd => OptionalRow(m.cwd)
    case AllowedTool => StrRows(m.allowed)
    case ForbiddenTool => StrRows(m.forbidden)
    case ResourceScope => StrRows(m.scope)
    case AllowedSideEffectClass => StrRows(m.classes)
    case MaxToolCallsPerClass => AllCapRows(m.caps)
    case _ => []
  }

  ghost function Writer(m: MissionPassport, holder: string, issuer: string, jti: string, iat: int, exp: int): Name -> seq<seq<Term>> {
    (name: Name) => Written(m, holder, issuer, jti, iat, exp, name)
  }

  ghost function RootBlock(m: MissionPassport, holder: string, issuer: string, jti: string, iat: int, exp: int): (b: Block)
    ensures b.checks == [exp]
  {
    Block(Flatten(GroupsOf(NAMES, NameAt, Writer(m, holder, issuer, jti, iat, exp))), [exp])
  }

  /** `issue_biscuit_passport`; None where it raises. */
  ghost function Issue(m: MissionPassport, issuer: string, ttl: int, jti: string, now: int): Option<Block> {
    if Strip(m.agentId) == "" || m.holder.None? || Strip(m.holder.value) == "" || Strip(issuer) == "" || ttl <= 0 then None
    else Some(RootBlock(m, Strip(m.holder.value), Strip(issuer), jti, now, now + ttl))
  }

  lemma IssuedNamesDiffer()
    ensures NamesDiffer(NAMES, NameAt) && forall k :: 0 <= k < NAMES ==> NameAt(k) != ResourceScopeEmpty
  {
  }

  lemma ReadsWhatWasWritten(m: MissionPassport, holder: string, issuer: string, jti: string, iat: int, exp: int, k: nat)
    requires k < NAMES
    ensures Rows(RootBlock(m, holder, issuer, jti, iat, exp).facts, NameAt(k)) == Written(m, holder, issuer, jti, iat, exp, NameAt(k))
    ensures Rows(RootBlock(m, holder, issuer, jti, iat, exp).facts, ResourceScopeEmpty) == []
  {
    hide Rows, Flatten, Written, NameAt;
    IssuedNamesDiffer();
    NamedRows(NAMES, NameAt, Writer(m, holder, issuer, jti, iat, exp), k);
    UnnamedRows(NAMES, NameAt, Writer(m, holder, issuer, jti, iat, exp), ResourceScopeEmpty);
  }

  lemma NamesReadBack(m: MissionPassport, holder: string, issuer: string, jti: string, iat: int, exp: int)
    ensures var f := RootBlock(m, holder, issuer, jti, iat, exp).facts;
            && RequiredStr(f, AgentId) == Some(m.agentId) && RequiredStr(f, SpiffeId) == Some(holder)
            && RequiredStr(f, IssuerSpiffeId) == Some(issuer) && RequiredStr(f, Mission) == Some(m.mission)
            && OptionalStr(f, MissionId) == Some(Some(m.missionId)) && RequiredStr(f, Jti) == Some(jti)
            && OptionalStr(f, ParentJti) == Some(m.parentJti) && OptionalStr(f, Cwd) == Some(m.cwd)
  {
    hide Rows, RootBlock, AllCapRows, Strip;
    ReadsWhatWasWritten(m, holder, issuer, jti, iat, exp, 0);
    ReadsWhatWasWritten(m, holder, issuer, jti, iat, exp, 1);
    ReadsWhatWasWritten(m, holder, issuer, jti, iat, exp, 2);
    ReadsWhatWasWritten(m, holder, issuer, jti, iat, exp, 3);
    ReadsWhatWasWritten(m, holder, issuer, jti, iat, exp, 4);
    ReadsWhatWasWritten(m, holder, issuer, jti, iat, exp, 5);
    ReadsWhatWasWritten(m, holder, issuer, jti, iat, exp, 12);
    ReadsWhatWasWritten(m, holder, issuer, jti, iat, exp, 13);
  }

  lemma NumbersReadBack(m: MissionPassport, holder: string, issuer: string, jti: string, iat: int, exp: int)
    ensures var f := RootBlock(m, holder, issuer, jti, iat, exp).facts;
            && RequiredInt(f, Iat) == Some(iat) && RequiredInt(f, Exp) == Some(exp)
            && RequiredInt(f, MaxToolCalls) == Some(m.maxCalls) && RequiredInt(f, MaxDuration) == Some(m.maxDuration)
            && RequiredBool(f, DelegationAllowed) == Some(m.delegationAllowed) && RequiredInt(f, MaxDelegationDepth) == Some(m.maxDepth)
  {
    hide Rows, RootBlock, AllCapRows, Strip;
    ReadsWhatWasWritten(m, holder, issuer, jti, iat, exp, 6);
    ReadsWhatWasWritten(m, holder, issuer, jti, iat, exp, 7);
    ReadsWhatWasWritten(m, holder, issuer, jti, iat, exp, 8);
    ReadsWhatWasWritten(m, holder, issuer, jti, iat, exp, 9);
    ReadsWhatWasWritten(m, holder, issuer, jti, iat, exp, 10);
    ReadsWhatWasWritten(m, holder, issuer, jti, iat, exp, 11);
  }

  lemma ListsReadBack(m: MissionPassport, holder: string, issuer: string, jti: string, iat: int, exp: int)
    ensures var f := RootBlock(m, holder, issuer, jti, iat, exp).facts;
            && StrValues(f, AllowedTool) == Some(m.allowed) && StrValues(f, ForbiddenTool) == Some(m.forbidden)
            && StrValues(f, ResourceScope) == Some(m.scope) && StrValues(f, AllowedSideEffectClass) == Some(m.classes)
            && PairValues(f, MaxToolCallsPerClass) == Some(m.caps) && EmptyMarkerOk(f)
  {
    hide Rows, RootBlock, AllCapRows, PairValues, StrValues, Strip;
    var f := RootBlock(m, holder, issuer, jti, iat, exp).facts;
    ReadsWhatWasWritten(m, holder, issuer, jti, iat, exp, 14);
    ReadsWhatWasWritten(m, holder, issuer, jti, iat, exp, 15);
    ReadsWhatWasWritten(m, holder, issuer, jti, iat, exp, 16);
    ReadsWhatWasWritten(m, holder, issuer, jti, iat, exp, 17);
    ReadsWhatWasWritten(m, holder, issuer, jti, iat, exp, 18);
    ListReadBack(f, AllowedTool, m.allowed);
    ListReadBack(f, ForbiddenTool, m.forbidden);
    ListReadBack(f, ResourceScope, m.scope);
    ListReadBack(f, AllowedSideEffectClass, m.classes);
    CapsReadBack(f, m.caps);
  }

  lemma ListReadBack(facts: seq<Fact>, name: Name, xs: seq<string>)
    requires Rows(facts, name) == StrRows(xs)
    ensures StrValues(facts, name) == Some(xs)
  {
    assert Strings(StrRows(xs)) == xs;
  }

  /** The context that a mission is issued as. */
  function AsIssued(m: MissionPassport, holder: string, issuer: string, jti: string, iat: int, exp: int): Effective
  {
    Effective(m.agentId, m.mission, issuer, holder, jti, m.parentJti, iat, exp, m.maxCalls, m.maxDuration,
              m.delegationAllowed, m.maxDepth, m.cwd, m.allowed, m.forbidden, m.scope, m.classes, m.caps)
  }

  lemma RootReadsBack(m: MissionPassport, holder: string, issuer: string, jti: string, iat: int, exp: int)
    ensures ReadRoot(RootBlock(m, holder, issuer, jti, iat, exp)) == if StarAlone(m.scope) then Some(AsIssued(m, holder, issuer, jti, iat, exp)) else None
  {
    hide RootBlock, Rows, RequiredStr, RequiredInt, RequiredBool, OptionalStr, StrValues, PairValues, EmptyMarkerOk, StarAlone, Strip;
    NamesReadBack(m, holder, issuer, jti, iat, exp);
    NumbersReadBack(m, holder, issuer, jti, iat, exp);
    ListsReadBack(m, holder, issuer, jti, iat, exp);
  }

  lemma RootChecksItself(m: MissionPassport, holder: string, issuer: string, jti: string, iat: int, exp: int)
    ensures OwnChecksOnly([RootBlock(m, holder, issuer, jti, iat, exp)])
  {
    hide RootBlock, RequiredInt;
    NumbersReadBack(m, holder, issuer, jti, iat, exp);
  }

  /**
   The round trip of issuing: an issued passport is accepted exactly while its time lasts, at most
   for the past skew, and grants the mission that it was issued for, its lists sorted.
   */
  lemma IssuedIsGranted(m: MissionPassport, issuer: string, ttl: int, jti: string, now: int, t: int)
    requires Constructed(m) && Issue(m, issuer, ttl, jti, now).Some?
    ensures var r := Verify([Issue(m, issuer, ttl, jti, now).value], t, FUTURE_SKEW, PAST_SKEW);
            && (r.Some? <==> now - FUTURE_SKEW <= t <= now + ttl && t <= now + PAST_SKEW)
            && (r.Some? ==> r.value == Canonical(AsIssued(m, Strip(m.holder.value), Strip(issuer), jti, now, now + ttl)))
  {
    hide RootBlock, ReadRoot, Verify, Canonical, AsIssued, OwnChecksOnly, Strip, StarAlone;
    var block := RootBlock(m, Strip(m.holder.value), Strip(issuer), jti, now, now + ttl);
    RootReadsBack(m, Strip(m.holder.value), Strip(issuer), jti, now, now + ttl);
    RootChecksItself(m, Strip(m.holder.value), Strip(issuer), jti, now, now + ttl);
    assert Chain([block]) == ReadRoot(block);
    AcceptanceWindow([block], t, FUTURE_SKEW, PAST_SKEW);
    assert ReadRoot(block).value.iat == now && ReadRoot(block).value.exp == now + ttl by {
      IssuedTimes(m, Strip(m.holder.value), Strip(issuer), jti, now, now + ttl);
    }
  }

  lemma IssuedTimes(m: MissionPassport, holder: string, issuer: string, jti: string, iat: int, exp: int)
    ensures AsIssued(m, holder, issuer, jti, iat, exp).iat == iat && AsIssued(m, holder, issuer, jti, iat, exp).exp == exp
  {
  }
}
