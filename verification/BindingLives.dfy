/**
 The life of one reservation over every run: from when to when its handle resolves and for whom,
 which transactions end it, and what each of them leaves.
 */
module BindingLives {

  import opened Results
  import opened Text
  import opened ChildBindings
  import opened BindingRuns

  // ---- no handle resolves past its time ---------------------------------------------------------

  /** Every answer of the adapter with this handle expires by this time. */
  predicate SpawnedUntil(evs: seq<Event>, handle: Handle, t: Time) {
    forall i :: 0 <= i < |evs| ==> SpawnUntil(evs[i], handle, t)
  }

  predicate SpawnUntil(ev: Event, handle: Handle, t: Time) {
    ev.DoSpawn? && ev.handle == handle ==> ev.expiresAt <= t
  }

  predicate RecordUntil(r: Record, handle: Handle, t: Time) {
    r.handle == handle ==> r.expiresAt <= t
  }

  predicate PhaseUntil(phase: Phase, handle: Handle, t: Time) {
    phase.Spawned? && phase.handle == handle ==> phase.expiresAt <= t
  }

  predicate Until(sys: System, handle: Handle, t: Time) {
    && (forall k :: k in sys.store.reservations ==> RecordUntil(sys.store.reservations[k], handle, t))
    && (forall p :: p in sys.phases ==> PhaseUntil(sys.phases[p], handle, t))
  }

  lemma AroundUntil(sys: System, ev: Event, handle: Handle, t: Time)
    requires Until(sys, handle, t) && SpawnUntil(ev, handle, t)
    ensures Until(Around(sys, ev, true), handle, t)
  {
    hide StopTarget, IndexesAgree, MayAnswer, ReserveCheck;
  }

  lemma BodyUntil(sys: System, ev: Event, handle: Handle, t: Time)
    requires Inv(sys) && Until(sys, handle, t)
    ensures forall k :: k in Body(sys, ev).reservations ==> RecordUntil(Body(sys, ev).reservations[k], handle, t)
  {
    hide Consistent, Validate, HandlesFromAdapter, ReservesGuarded, Body;
    BodyKeeps(sys, ev);
    BodyKeys(sys, ev);
    if ev.DoReserveWrite? && sys.Phase(ev.p).Spawned? {
      NewReservation(sys, ev);
      assert PhaseUntil(sys.phases[ev.p], handle, t);
    } else {
      forall k | k in Body(sys, ev).reservations ensures RecordUntil(Body(sys, ev).reservations[k], handle, t) {
        assert RecordUntil(sys.store.reservations[k], handle, t);
      }
    }
  }

  lemma StepUntil(sys: System, ev: Event, handle: Handle, t: Time)
    requires Inv(sys) && Until(sys, handle, t) && SpawnUntil(ev, handle, t)
    ensures Until(Next(sys, ev, true), handle, t)
  {
    hide Inv, Body, Around, Commit, RecordUntil, PhaseUntil, SpawnUntil;
    AroundUntil(sys, ev, handle, t);
    BodyUntil(sys, ev, handle, t);
    NextStore(sys, ev);
    CommitChoice(sys.store, Body(sys, ev), Io(ev));
  }

  lemma {:induction false} RunUntil(sys: System, evs: seq<Event>, handle: Handle, t: Time)
    requires Inv(sys) && Until(sys, handle, t) && SpawnedUntil(evs, handle, t)
    ensures Until(Run(sys, evs, true), handle, t)
    decreases |evs|
  {
    hide Inv, Until, Next, SpawnUntil;
    if evs != [] {
      assert SpawnUntil(evs[0], handle, t);
      StepInv(sys, evs[0]);
      StepUntil(sys, evs[0], handle, t);
      RunUntil(Next(sys, evs[0], true), evs[1..], handle, t);
    }
  }

  /** Over every run, a handle that was spawned to expire at some time resolves for no one from then on. */
  lemma ExpiredHandleNeverResolves(evs: seq<Event>, handle: Handle, t: Time, b: Digest, now: Time)
    requires SpawnedUntil(evs, handle, t) && t <= now
    ensures var s := Run(Start, evs, true).store; IndexesAgree(s) && !ResolvesTo(s, b, now, handle)
  {
    hide Run, Validate, HandlesFromAdapter, ReservesGuarded, SpawnedUntil;
    StartInv();
    RunInv(Start, evs);
    RunUntil(Start, evs, handle, t);
    var s := Run(Start, evs, true).store;
    if b in s.bindings { assert RecordUntil(s.reservations[s.bindings[b]], handle, t); }
  }

  // ---- what each transaction leaves ---------------------------------------------------------------

  /** A reconcile leaves live exactly the live records whose handles the adapter still vouches for, and says why the others ended. */
  lemma ReconcileDecides(s: State, answers: map<Handle, Answer>, k: Digest)
    requires k in s.reservations
    ensures Reconcile(s, answers) == s.(reservations := Reconcile(s, answers).reservations)
    ensures k in Reconcile(s, answers).reservations
    ensures var r, r' := s.reservations[k], Reconcile(s, answers).reservations[k];
            var over := r.status == Closed || r.status == Expired;
            && (Live(r') <==> Live(r) && r.handle in answers && answers[r.handle] == AdapterOther)
            && (over || (r.handle in answers && answers[r.handle] == AdapterOther) ==> r' == r)
            && (r'.status == Expired <==> if over then r.status == Expired else r.handle in answers && answers[r.handle] == AdapterExpired)
            && (r'.status == Closed <==> if over then r.status == Closed else r.handle in answers && answers[r.handle] == AdapterClosed)
  {
  }

  /** An unnamed start taints the session and quarantines exactly the pending records of its type. */
  lemma StartUnnamedDecides(s: State, agentType: string, k: Digest)
    requires k in s.reservations
    ensures var s' := StartUnnamed(s, agentType);
            && s'.taint.Some? && s'.bindings == s.bindings && s'.blocked == s.blocked && k in s'.reservations
            && (s'.reservations[k].status == Pending <==> s.reservations[k].status == Pending && s.reservations[k].agentType != agentType)
            && (s.reservations[k].status != Pending ==> s'.reservations[k] == s.reservations[k])
            && (s'.reservations[k].status == Quarantined <==>
                  s.reservations[k].status == Quarantined || (s.reservations[k].status == Pending && s.reservations[k].agentType == agentType))
  {
  }

  /** An unnamed stop taints the session and leaves no record live: each live one is quarantined, and no other changes. */
  lemma StopUnnamedDecides(s: State, k: Digest)
    requires k in s.reservations
    ensures var s' := StopUnnamed(s);
            && s'.taint.Some? && s'.bindings == s.bindings && s'.blocked == s.blocked && k in s'.reservations
            && !Live(s'.reservations[k])
            && (s'.reservations[k].status == Quarantined <==> s.reservations[k].status == Quarantined || Live(s.reservations[k]))
            && (!Live(s.reservations[k]) ==> s'.reservations[k] == s.reservations[k])
  {
  }

  /** A stop of an agent that was never bound blocks it; of a bound one it changes nothing yet, and finds its live reservation. */
  lemma StopBeginDecides(s: State, b: Digest)
    requires Consistent(s)
    ensures var s' := StopBegin(s, b);
            && (b in s'.blocked <==> b in s.blocked || b !in s.bindings)
            && s'.reservations == s.reservations && s'.bindings == s.bindings && s'.taint == s.taint
            && (forall c :: c != b ==> (c in s'.blocked <==> c in s.blocked))
            && (StopTarget(s, b).Some? <==> b in s.bindings && Live(s.reservations[s.bindings[b]]))
            && (StopTarget(s, b).Some? ==> StopTarget(s, b).value in s.reservations && s.reservations[StopTarget(s, b).value].bindingKey == Some(b))
  {
  }

  /** The second half of a stop closes the record, or quarantines it with the adapter's code, and touches no other. */
  lemma StopEndDecides(s: State, key: Digest, failure: Option<string>, k: Digest)
    requires key in s.reservations && k in s.reservations
    ensures var s' := StopEnd(s, key, failure);
            && s' == s.(reservations := s'.reservations) && k in s'.reservations
            && (k != key ==> s'.reservations[k] == s.reservations[k])
            && (failure == None ==> s'.reservations[key].status == Closed && s'.reservations[key].terminalCode == s.reservations[key].terminalCode)
            && (failure.Some? ==> s'.reservations[key].status == Quarantined && s'.reservations[key].terminalCode == failure)
  {
  }

  /** A cancel quarantines exactly the live records with the handle, with its code. */
  lemma CancelDecides(s: State, handle: Handle, code: string, k: Digest)
    requires k in s.reservations
    ensures var s', r := Cancel(s, handle, code), s.reservations[k];
            && s' == s.(reservations := s'.reservations) && k in s'.reservations
            && (Live(s'.reservations[k]) <==> Live(r) && r.handle != handle)
            && (Live(r) && r.handle == handle ==> s'.reservations[k].status == Quarantined && s'.reservations[k].terminalCode == Some(code))
            && (!(Live(r) && r.handle == handle) ==> s'.reservations[k] == r)
  {
  }

  /** A start reports the handle, exactly if the agent is then bound to a live record, of that very record. */
  lemma StartOutcomeTruthful(s: State, b: Digest, agentType: string, now: Time)
    requires Consistent(s)
    ensures IndexesAgree(BindStart(s, b, agentType, now))
    ensures var s', o := BindStart(s, b, agentType, now), StartOutcome(s, b, agentType, now);
            && (o.handle.Some? <==> b in s'.bindings && s'.reservations[s'.bindings[b]].status == Bound)
            && (o.handle.Some? <==> o.seen == Has(Bound))
            && (o.handle.Some? ==>
                  var r := s'.reservations[s'.bindings[b]]; o.handle == Some(r.handle) && o.fingerprint == Some(r.fingerprint))
            && (o.handle.Some? && b !in s.bindings ==> ResolvesTo(s', b, now, o.handle.value))
  {
    hide SameFingerprint, AnyExpired, PendingUnbound;
    BindStartKeeps(s, b, agentType, now);
    if b !in s.blocked && b !in s.bindings {
      var eligible := Eligible(s.reservations, agentType, now);
      if eligible != {} && SameFingerprint(s.reservations, eligible) { AgedKeepsEligible(s, agentType, now, Least(eligible)); }
    }
  }

  /** A pending record of the type, and one whose time is over. */
  predicate Waiting(r: Record, agentType: string) {
    r.agentType == agentType && r.status == Pending
  }

  predicate TooLate(r: Record, agentType: string, now: Time) {
    r.agentType == agentType && (r.status == Expired || (r.status == Pending && r.expiresAt <= now))
  }

  /** Two records that a start could take and that were reserved under different policies. */
  predicate Disagree(s: State, agentType: string, now: Time) {
    exists j, k :: j in s.reservations && k in s.reservations
      && Waiting(s.reservations[j], agentType) && s.reservations[j].expiresAt > now
      && Waiting(s.reservations[k], agentType) && s.reservations[k].expiresAt > now
      && s.reservations[j].fingerprint != s.reservations[k].fingerprint
  }

  predicate NoneLeft(s: State, agentType: string, now: Time) {
    forall k :: k in s.reservations && Waiting(s.reservations[k], agentType) ==> s.reservations[k].expiresAt <= now
  }

  /** Why a start of a new agent blocks it, and what it reports. */
  lemma StartBlocksWhy(s: State, b: Digest, agentType: string, now: Time)
    requires Consistent(s) && b !in s.blocked && b !in s.bindings
    ensures var s', o := BindStart(s, b, agentType, now), StartOutcome(s, b, agentType, now);
            var late := exists k :: k in s.reservations && TooLate(s.reservations[k], agentType, now);
            && (b in s'.blocked <==> NoneLeft(s, agentType, now) || Disagree(s, agentType, now))
            && (NoneLeft(s, agentType, now) ==>
                  s'.blocked[b] == (if late then HandleExpired else MissingReservation)
                  && o == Outcome(if late then Has(Expired) else ObservedOnly, None, None))
            && (Disagree(s, agentType, now) ==> s'.blocked[b] == AmbiguousPolicy && o == Outcome(Has(Quarantined), None, None))
  {
    hide IndexesAgree, PendingUnbound, BlockedUnbound, AnyExpired, SameFingerprint, Eligible, Aged;
    var eligible := Eligible(s.reservations, agentType, now);
    AnyLate(s, agentType, now);
    DisagreeIff(s, agentType, now);
    assert NoneLeft(s, agentType, now) <==> eligible == {} by {
      if eligible != {} { var k :| k in eligible; assert Waiting(s.reservations[k], agentType); }
    }
  }

  lemma AnyLate(s: State, agentType: string, now: Time)
    ensures AnyExpired(Aged(s.reservations, agentType, now), agentType) <==>
              exists k :: k in s.reservations && TooLate(s.reservations[k], agentType, now)
  {
    var rs := Aged(s.reservations, agentType, now);
    if AnyExpired(rs, agentType) {
      var k :| k in rs && rs[k].agentType == agentType && rs[k].status == Expired;
      assert TooLate(s.reservations[k], agentType, now);
    }
    if exists k :: k in s.reservations && TooLate(s.reservations[k], agentType, now) {
      var k :| k in s.reservations && TooLate(s.reservations[k], agentType, now);
      assert rs[k].agentType == agentType && rs[k].status == Expired;
    }
  }

  lemma DisagreeIff(s: State, agentType: string, now: Time)
    ensures Disagree(s, agentType, now) <==> !SameFingerprint(s.reservations, Eligible(s.reservations, agentType, now))
    ensures Disagree(s, agentType, now) ==> Eligible(s.reservations, agentType, now) != {}
  {
    var e := Eligible(s.reservations, agentType, now);
    assert forall k :: k in e <==> k in s.reservations && Waiting(s.reservations[k], agentType) && s.reservations[k].expiresAt > now;
  }

  /** What a start of a new agent does to every record: the late ones of its type expire, the others of it are taken, left or quarantined. */
  lemma StartLeaves(s: State, b: Digest, agentType: string, now: Time, k: Digest)
    requires Consistent(s) && b !in s.blocked && b !in s.bindings && k in s.reservations
    ensures var s', r := BindStart(s, b, agentType, now), s.reservations[k];
            && k in s'.reservations
            && (!Waiting(r, agentType) ==> s'.reservations[k] == r)
            && (Waiting(r, agentType) && r.expiresAt <= now ==> s'.reservations[k].status == Expired)
            && (Waiting(r, agentType) && r.expiresAt > now ==>
                  s'.reservations[k].status ==
                    if Disagree(s, agentType, now) then Quarantined
                    else if s'.reservations[k].bindingKey == Some(b) then Bound
                    else Pending)
  {
    hide AnyExpired, SameFingerprint, IndexesAgree, BlockedUnbound;
    DisagreeIff(s, agentType, now);
    if Waiting(s.reservations[k], agentType) { assert s.reservations[k].bindingKey == None; }
  }

  // ---- how long a binding lasts ------------------------------------------------------------------

  /** The events that end a bound record: each is its own reason to. */
  predicate EndsBound(sys: System, ev: Event, k: Digest)
    requires k in sys.store.reservations
  {
    var r := sys.store.reservations[k];
    match ev
    case DoReconcile(answers, _) => !(r.handle in answers && answers[r.handle] == AdapterOther)
    case DoResolve(b, now, _) => b in sys.store.bindings && sys.store.bindings[b] == k && r.expiresAt <= now
    case DoStopUnnamed(_) => true
    case DoStopEnd(p, _, _) => sys.Phase(p) == Stopping(k)
    case DoCancel(handle, _, _) => handle == r.handle
    case _ => false
  }

  /** A transaction that goes through. */
  predicate Commits(sys: System, ev: Event) {
    !Refused(sys.store, Body(sys, ev), Io(ev))
  }

  lemma BindStartSparesBound(s: State, b: Digest, agentType: string, now: Time, k: Digest)
    requires k in s.reservations && s.reservations[k].status == Bound
    ensures var s' := BindStart(s, b, agentType, now); k in s'.reservations && s'.reservations[k] == s.reservations[k]
  {
    hide SameFingerprint, AnyExpired;
  }

  lemma ResolveOnBound(s: State, b: Digest, now: Time, k: Digest)
    requires k in s.reservations && s.reservations[k].status == Bound
    ensures var s', r := Resolve(s, b, now), s.reservations[k];
            && k in s'.reservations
            && if b in s.bindings && s.bindings[b] == k && r.expiresAt <= now then s'.reservations[k].status == Expired else s'.reservations[k] == r
  {
  }

  lemma ReserveOnBound(sys: System, ev: Event, k: Digest)
    requires Inv(sys) && k in sys.store.reservations && ev.DoReserveWrite? && sys.Phase(ev.p).Spawned?
    ensures k in Body(sys, ev).reservations && Body(sys, ev).reservations[k] == sys.store.reservations[k]
  {
    hide Consistent, Validate, HandlesFromAdapter, Body;
    NewReservation(sys, ev);
    assert sys.Phase(ev.p).key !in sys.store.reservations;
  }

  /** A bound record stays as it is, or is ended, by exactly these. */
  lemma BodyOnBound(sys: System, ev: Event, k: Digest)
    requires Inv(sys) && k in sys.store.reservations && sys.store.reservations[k].status == Bound
    ensures var s' := Body(sys, ev); k in s'.reservations && (Ended(s'.reservations[k]) <==> EndsBound(sys, ev, k))
    ensures !EndsBound(sys, ev, k) ==> Body(sys, ev).reservations[k] == sys.store.reservations[k]
  {
    hide Inv, Reconcile, StartUnnamed, BindStart, Resolve, StopUnnamed, StopEnd, Cancel, ReserveWrite;
    var s := sys.store;
    match ev
    case DoReconcile(answers, _) => ReconcileDecides(s, answers, k);
    case DoReserveWrite(p, _) => if sys.Phase(p).Spawned? { ReserveOnBound(sys, ev, k); }
    case DoStartUnnamed(agentType, _) => StartUnnamedDecides(s, agentType, k);
    case DoBindStart(b, agentType, now, _) => BindStartSparesBound(s, b, agentType, now, k);
    case DoResolve(b, now, _) => ResolveOnBound(s, b, now, k);
    case DoStopUnnamed(_) => StopUnnamedDecides(s, k);
    case DoStopEnd(p, failure, _) =>
      if sys.Phase(p).Stopping? && sys.Phase(p).key in s.reservations {
        StopEndDecides(s, sys.Phase(p).key, failure, k);
      } else if sys.Phase(p).Stopping? {
        StopEndOfNone(s, sys.Phase(p).key, failure);
      }
    case DoCancel(handle, code, _) => CancelDecides(s, handle, code, k);
    case _ =>
  }

  lemma StopEndOfNone(s: State, key: Digest, failure: Option<string>)
    requires key !in s.reservations
    ensures StopEnd(s, key, failure) == s
  {
  }

  lemma StepOnBound(sys: System, ev: Event, k: Digest)
    requires Inv(sys) && k in sys.store.reservations && sys.store.reservations[k].status == Bound
    ensures var s' := Next(sys, ev, true).store;
            && k in s'.reservations
            && (Ended(s'.reservations[k]) <==> EndsBound(sys, ev, k) && Commits(sys, ev))
            && (!Ended(s'.reservations[k]) ==> s'.reservations[k] == sys.store.reservations[k])
  {
    hide Inv, Body, Around, Next, EndsBound, Validate;
    BodyOnBound(sys, ev, k);
    NextStore(sys, ev);
  }

  /** No transaction of the run ends the record. */
  predicate Undisturbed(sys: System, evs: seq<Event>, k: Digest)
    requires Inv(sys) && k in sys.store.reservations && sys.store.reservations[k].status == Bound
    decreases |evs|
  {
    evs == [] || (
      !(EndsBound(sys, evs[0], k) && Commits(sys, evs[0]))
      && (StepInv(sys, evs[0]); StepOnBound(sys, evs[0], k); StaysBound(sys, evs[0], k); Undisturbed(Next(sys, evs[0], true), evs[1..], k)))
  }

  lemma StaysBound(sys: System, ev: Event, k: Digest)
    requires Inv(sys) && k in sys.store.reservations && sys.store.reservations[k].status == Bound
    requires !(EndsBound(sys, ev, k) && Commits(sys, ev))
    ensures k in Next(sys, ev, true).store.reservations && Next(sys, ev, true).store.reservations[k] == sys.store.reservations[k]
  {
    hide Inv, Next, EndsBound, Commits;
    StepOnBound(sys, ev, k);
  }

  lemma {:induction false} BoundUntilDisturbed(sys: System, evs: seq<Event>, k: Digest)
    requires Inv(sys) && k in sys.store.reservations && sys.store.reservations[k].status == Bound
    ensures var s' := Run(sys, evs, true).store;
            && k in s'.reservations && (Ended(s'.reservations[k]) <==> !Undisturbed(sys, evs, k))
            && (Undisturbed(sys, evs, k) ==> s'.reservations[k] == sys.store.reservations[k])
    decreases |evs|
  {
    hide Inv, Next, EndsBound, Commits;
    if evs != [] {
      var ev, next := evs[0], Next(sys, evs[0], true);
      StepInv(sys, ev);
      StepOnBound(sys, ev, k);
      if EndsBound(sys, ev, k) && Commits(sys, ev) {
        AuthorityNeverReturns(next, evs[1..], k, 0, 0.0);
      } else {
        StaysBound(sys, ev, k);
        BoundUntilDisturbed(next, evs[1..], k);
      }
    }
  }

  /**
   Over every continuation, an agent that is bound resolves to its reservation's handle at a moment
   exactly if that is before the reservation's expiry and no transaction has ended it: no reconcile
   that finds its handle gone, no late resolve, stop or cancel.
   */
  lemma BoundResolvesIff(sys: System, evs: seq<Event>, b: Digest, now: Time)
    requires Inv(sys) && b in sys.store.bindings && sys.store.reservations[sys.store.bindings[b]].status == Bound
    ensures var k := sys.store.bindings[b]; var r := sys.store.reservations[k]; var s' := Run(sys, evs, true).store;
            && IndexesAgree(s')
            && (ResolvesTo(s', b, now, r.handle) <==> now < r.expiresAt && Undisturbed(sys, evs, k))
            && (ResolveOutcome(s', b, now).Ok? ==> ResolvesTo(s', b, now, r.handle))
  {
    hide Run, Undisturbed, Validate, HandlesFromAdapter, ReservesGuarded;
    RunInv(sys, evs);
    BoundUntilDisturbed(sys, evs, sys.store.bindings[b]);
  }

  /** And a start that binds and goes through makes it so, with the eligible reservation of the least key. */
  lemma StartedResolvesIff(sys: System, b: Digest, agentType: string, at: Time, evs: seq<Event>, now: Time)
    requires Inv(sys) && b !in sys.store.bindings && b !in sys.store.blocked
    requires var eligible := Eligible(sys.store.reservations, agentType, at);
             eligible != {} && SameFingerprint(sys.store.reservations, eligible)
    requires Commits(sys, DoBindStart(b, agentType, at, true))
    ensures var k := Least(Eligible(sys.store.reservations, agentType, at)); var r := sys.store.reservations[k];
            var sys' := Next(sys, DoBindStart(b, agentType, at, true), true);
            && Inv(sys') && k in sys'.store.reservations && sys'.store.reservations[k].status == Bound
            && IndexesAgree(Run(sys', evs, true).store)
            && (ResolvesTo(Run(sys', evs, true).store, b, now, r.handle) <==> now < r.expiresAt && Undisturbed(sys', evs, k))
  {
    hide Run, Undisturbed, Inv, Next, SameFingerprint, Eligible, Body, Commits;
    var ev := DoBindStart(b, agentType, at, true);
    StepInv(sys, ev);
    StartCommits(sys, b, agentType, at);
    BoundResolvesIff(Next(sys, ev, true), evs, b, now);
  }

  lemma StartCommits(sys: System, b: Digest, agentType: string, at: Time)
    requires Inv(sys) && b !in sys.store.bindings && b !in sys.store.blocked
    requires var eligible := Eligible(sys.store.reservations, agentType, at);
             eligible != {} && SameFingerprint(sys.store.reservations, eligible)
    requires Commits(sys, DoBindStart(b, agentType, at, true))
    ensures var k := Least(Eligible(sys.store.reservations, agentType, at));
            var s' := Next(sys, DoBindStart(b, agentType, at, true), true).store;
            && b in s'.bindings && s'.bindings[b] == k && k in s'.reservations
            && s'.reservations[k] == sys.store.reservations[k].(status := Bound, bindingKey := Some(b))
  {
    hide SameFingerprint, AnyExpired, Validate, Consistent, HandlesFromAdapter, ReservesGuarded;
    AgedKeepsEligible(sys.store, agentType, at, Least(Eligible(sys.store.reservations, agentType, at)));
  }

  // ---- replays ---------------------------------------------------------------------------------------

  /**
   Over every continuation a request that was once reserved never spawns again: a replay is answered
   with the handle of the first time exactly if the policy is the same and the record has not ended.
   */
  lemma ReplayAnswersFirstHandle(sys: System, evs: seq<Event>, key: Digest, policy: Policy)
    requires Inv(sys) && key in sys.store.reservations
    ensures var r := sys.store.reservations[key]; var s' := Run(sys, evs, true).store;
            var answer := ReserveCheck(s', key, policy);
            && key in s'.reservations && answer.Some?
            && (answer.value.Ok? <==> policy.fingerprint == r.fingerprint && !Ended(s'.reservations[key]))
            && (answer.value.Ok? ==> answer.value.value.handle == Some(r.handle) && answer.value.value.seen == Has(s'.reservations[key].status))
            && (answer.value == Err(ReservationConflict) <==> policy.fingerprint != r.fingerprint)
  {
    hide Run, Validate, HandlesFromAdapter, ReservesGuarded;
    RunInv(sys, evs);
  }

  // ---- operations that are not interrupted ---------------------------------------------------------------

  lemma RunPair(sys: System, a: Event, b: Event)
    ensures Run(sys, [a, b], true) == Next(Next(sys, a, true), b, true)
  {
    hide Next;
    assert [a, b][1..] == [b] && [b][1..] == [];
    RunStep(sys, [a, b], true);
    RunStep(Next(sys, a, true), [b], true);
  }

  lemma LockAndCheck(sys: System, p: Pid, key: Digest, policy: Policy)
    requires sys.lock == None && sys.Phase(p) == Idle && key !in sys.store.reservations
    ensures Run(sys, [TakeLock(p), DoReserveCheck(p, key, policy)], true) == sys.To(p, Reserving(key, policy)).(lock := Some(p))
  {
    hide Validate;
    RunPair(sys, TakeLock(p), DoReserveCheck(p, key, policy));
  }

  lemma SpawnAndWrite(sys: System, p: Pid, key: Digest, policy: Policy, handle: Handle, expiresAt: Time)
    requires sys.Phase(p) == Reserving(key, policy) && key !in sys.store.reservations && MayAnswer(sys.adapter, key, handle)
    requires Validate(ReserveWrite(sys.store, key, policy, handle, expiresAt))
    ensures Run(sys, [DoSpawn(p, handle, expiresAt), DoReserveWrite(p, true)], true) ==
              sys.To(p, Idle).(adapter := sys.adapter[key := handle],
                               store := sys.store.(reservations := sys.store.reservations[key := Record(handle, policy.agentType, policy.fingerprint, Pending, expiresAt, None, None)]))
  {
    hide Validate, MayAnswer;
    var spawned := sys.To(p, Spawned(key, policy, handle, expiresAt)).(adapter := sys.adapter[key := handle]);
    assert Next(sys, DoSpawn(p, handle, expiresAt), true) == spawned;
    assert Next(spawned, DoReserveWrite(p, true), true) == spawned.To(p, Idle).(store := ReserveWrite(sys.store, key, policy, handle, expiresAt));
    assert spawned.phases[p := Idle] == sys.phases[p := Idle];
    RunPair(sys, DoSpawn(p, handle, expiresAt), DoReserveWrite(p, true));
  }

  /** From every state with the lock free, a reserve of a new request that is let through adds exactly its pending record, and gives the lock back. */
  lemma ReserveCompletes(sys: System, p: Pid, key: Digest, policy: Policy, handle: Handle, expiresAt: Time)
    requires sys.lock == None && sys.Phase(p) == Idle && key !in sys.store.reservations && MayAnswer(sys.adapter, key, handle)
    requires Validate(ReserveWrite(sys.store, key, policy, handle, expiresAt))
    ensures var evs := [TakeLock(p), DoReserveCheck(p, key, policy)] + [DoSpawn(p, handle, expiresAt), DoReserveWrite(p, true)] + [DropLock(p)];
            Run(sys, evs, true) ==
              sys.To(p, Idle).(adapter := sys.adapter[key := handle],
                               store := sys.store.(reservations := sys.store.reservations[key := Record(handle, policy.agentType, policy.fingerprint, Pending, expiresAt, None, None)]))
  {
    hide Validate, MayAnswer, Next, ReserveWrite;
    var first, second, third := [TakeLock(p), DoReserveCheck(p, key, policy)], [DoSpawn(p, handle, expiresAt), DoReserveWrite(p, true)], [DropLock(p)];
    RunConcat(sys, first + second, third, true);
    RunConcat(sys, first, second, true);
    LockAndCheck(sys, p, key, policy);
    var held := sys.To(p, Reserving(key, policy)).(lock := Some(p));
    SpawnAndWrite(held, p, key, policy, handle, expiresAt);
    var done := Run(held, second, true);
    assert third[1..] == [];
    RunStep(done, third, true);
    LetGo(done, p);
    assert held.phases[p := Idle] == sys.phases[p := Idle];
  }

  lemma LetGo(sys: System, p: Pid)
    requires sys.lock == Some(p) && sys.Phase(p) == Idle
    ensures Next(sys, DropLock(p), true) == sys.(lock := None)
  {
    hide Validate;
  }

  /** From every state, a stop of a bound agent that is let through ends its reservation, closed or with the adapter's code, and changes nothing else. */
  lemma StopCompletes(sys: System, p: Pid, b: Digest, failure: Option<string>, io: bool)
    requires Inv(sys) && sys.Phase(p) == Idle && b in sys.store.bindings && sys.store.reservations[sys.store.bindings[b]].status == Bound
    requires Validate(StopEnd(sys.store, sys.store.bindings[b], failure))
    ensures var k := sys.store.bindings[b]; var r := sys.store.reservations[k];
            Run(sys, [DoStopBegin(p, b, io), DoStopEnd(p, failure, true)], true) ==
              sys.To(p, Idle).(store := sys.store.(reservations := sys.store.reservations[k :=
                if failure.Some? then r.(status := Quarantined, terminalCode := failure) else r.(status := Closed)]))
  {
    hide Validate, HandlesFromAdapter, ReservesGuarded, Next, StopEnd, PendingUnbound, BlockedUnbound;
    var k := sys.store.bindings[b];
    var begun := sys.To(p, Stopping(k));
    StopBegins(sys, p, b, io);
    StopEnds(begun, p, k, failure);
    assert begun.phases[p := Idle] == sys.phases[p := Idle];
    RunPair(sys, DoStopBegin(p, b, io), DoStopEnd(p, failure, true));
  }

  lemma StopBegins(sys: System, p: Pid, b: Digest, io: bool)
    requires IndexesAgree(sys.store) && sys.Phase(p) == Idle && b in sys.store.bindings
    requires sys.store.reservations[sys.store.bindings[b]].status == Bound
    ensures Next(sys, DoStopBegin(p, b, io), true) == sys.To(p, Stopping(sys.store.bindings[b]))
  {
    hide Validate;
  }

  lemma StopEnds(sys: System, p: Pid, k: Digest, failure: Option<string>)
    requires sys.Phase(p) == Stopping(k) && k in sys.store.reservations && sys.store.reservations[k].status == Bound
    requires Validate(StopEnd(sys.store, k, failure))
    ensures var r := sys.store.reservations[k];
            Next(sys, DoStopEnd(p, failure, true), true) ==
              sys.To(p, Idle).(store := sys.store.(reservations := sys.store.reservations[k :=
                if failure.Some? then r.(status := Quarantined, terminalCode := failure) else r.(status := Closed)]))
  {
    hide Validate;
  }

  /** A process that crashes holds nothing any more, and a spawn that is denied leaves its process idle; neither touches the store. */
  lemma CrashAndDenialRelease(sys: System, p: Pid)
    ensures var c := Next(sys, Crash(p), true);
            c.Phase(p) == Idle && c.lock != Some(p) && c.store == sys.store && c.adapter == sys.adapter
            && (sys.lock != Some(p) ==> c.lock == sys.lock) && forall q :: q != p ==> c.Phase(q) == sys.Phase(q)
    ensures sys.Phase(p).Reserving? ==> Next(sys, SpawnDenied(p), true) == sys.To(p, Idle)
    ensures sys.lock == None ==> Next(sys, TakeLock(p), true).lock == Some(p)
  {
    hide Validate;
  }

  // ---- what is ever stored ---------------------------------------------------------------------------

  /** Not blank, at most so many bytes, no control characters. */
  predicate Legible(s: string, maxBytes: nat) {
    !AllBlank(s) && Utf8Length(s) <= maxBytes && forall i :: 0 <= i < |s| ==> s[i] as int >= 32
  }

  lemma BoundedIsLegible(s: string, maxBytes: nat)
    requires BoundedText(s, maxBytes)
    ensures Legible(s, maxBytes)
  {
    hide IsBlank, Strip;
    BlankStrips(s);
    assert ' ' as int == 32;
    forall i | 0 <= i < |s| ensures s[i] as int >= 32 { assert s[i] >= ' '; }
  }

  /** In every reachable store no table has more than 4096 entries, and every text and time in it can be read back. */
  lemma StoredIsLegible(evs: seq<Event>, k: Digest)
    ensures var s := Run(Start, evs, true).store;
            && |s.reservations| <= 4096 && |s.bindings| <= 4096 && |s.blocked| <= 4096
            && (s.taint.Some? ==> Legible(s.taint.value, 512))
            && (k in s.reservations ==>
                  var r := s.reservations[k];
                  && r.expiresAt > 0.0 && Legible(r.agentType, 256)
                  && (r.terminalCode.Some? ==> Legible(r.terminalCode.value, 256)))
  {
    hide Run, Consistent, HandlesFromAdapter, ReservesGuarded, Linked, BoundedText, Legible;
    StartInv();
    RunInv(Start, evs);
    var s := Run(Start, evs, true).store;
    if s.taint.Some? { BoundedIsLegible(s.taint.value, 512); }
    if k in s.reservations {
      var r := s.reservations[k];
      assert RecordReadable(r);
      BoundedIsLegible(r.agentType, 256);
      if r.terminalCode.Some? { BoundedIsLegible(r.terminalCode.value, 256); }
    }
  }
}
