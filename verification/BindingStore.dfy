/**
 The child-binding store as the hooks use it: an object over the persisted tables whose
 methods are the locked transactions, loop for loop. Each one leaves on disk exactly the
 committed result of the corresponding function of `ChildBindings`.
 */
module BindingStore {

  import opened Results
  import opened Text
  import opened ChildBindings

  // ---- key derivation ---------------------------------------------------------------

  /** `parent \0 session \0 agent`, the text whose digest is the binding key. */
  function KeyText(parent: string, session: string, name: string): string {
    parent + ['\0'] + session + ['\0'] + name
  }

  lemma {:induction false} SplitAtNul(a: string, b: string, a': string, b': string)
    requires '\0' !in a && '\0' !in a' && a + ['\0'] + b == a' + ['\0'] + b'
    ensures a == a' && b == b'
    decreases |a|
  {
    var t, t' := a + ['\0'] + b, a' + ['\0'] + b';
    assert t[0] == (if a == "" then '\0' else a[0]) && t'[0] == (if a' == "" then '\0' else a'[0]);
    if a == "" {
      assert t[1..] == b && t'[1..] == b';
    } else {
      assert t[1..] == a[1..] + ['\0'] + b && t'[1..] == a'[1..] + ['\0'] + b';
      assert a == [a[0]] + a[1..] && a' == [a'[0]] + a'[1..];
      SplitAtNul(a[1..], b, a'[1..], b');
    }
  }

  ghost predicate Injective(hash: string -> Digest) {
    forall x, y :: hash(x) == hash(y) ==> x == y
  }

  /** Two bounded (session, agent) pairs share a binding key only if they are the same pair. */
  lemma KeysSeparatePairs(hash: string -> Digest, parent: string, session: string, agent: string, session': string, agent': string)
    requires Injective(hash) && BoundedText(session, 256) && BoundedText(session', 256)
    ensures hash(KeyText(parent, session, agent)) == hash(KeyText(parent, session', agent'))
            <==> session == session' && agent == agent'
  {
    hide Utf8Length, Strip;
    if hash(KeyText(parent, session, agent)) == hash(KeyText(parent, session', agent')) {
      KeyTextTail(parent, session, agent);
      KeyTextTail(parent, session', agent');
      SplitAtNul(session, agent, session', agent');
    }
  }

  lemma KeyTextTail(parent: string, session: string, agent: string)
    ensures |KeyText(parent, session, agent)| > |parent|
    ensures KeyText(parent, session, agent)[|parent| + 1..] == session + ['\0'] + agent
  {
  }

  /** The control-character test matters: without it different pairs collide. */
  lemma UncheckedKeysCollide(parent: string)
    ensures KeyText(parent, "a", "b" + ['\0'] + "c") == KeyText(parent, "a" + ['\0'] + "b", "c")
  {
    assert KeyText(parent, "a", "b" + ['\0'] + "c") == parent + ['\0', 'a', '\0', 'b', '\0', 'c'];
    assert KeyText(parent, "a" + ['\0'] + "b", "c") == parent + ['\0', 'a', '\0', 'b', '\0', 'c'];
  }

  // ---- the store ---------------------------------------------------------------------

  /** `len({fingerprints}) != 1`, for the eligible reservations. */
  lemma OneFingerprint(rs: map<Digest, Record>, keys: set<Digest>)
    requires keys != {} && keys <= rs.Keys
    ensures SameFingerprint(rs, keys) <==> |set k | k in keys :: rs[k].fingerprint| == 1
  {
    var prints := set k | k in keys :: rs[k].fingerprint;
    var k :| k in keys;
    assert rs[k].fingerprint in prints;
    if SameFingerprint(rs, keys) {
      assert prints == {rs[k].fingerprint};
    }
    if |prints| == 1 {
      forall i, j | i in keys && j in keys ensures rs[i].fingerprint == rs[j].fingerprint {
        OnlyMember(prints, rs[i].fingerprint, rs[j].fingerprint);
      }
    }
  }

  lemma OnlyMember(s: set<string>, x: string, y: string)
    requires |s| == 1 && x in s && y in s
    ensures x == y
  {
    assert |s - {x}| == 0;
  }

  /** How writing the file ends: it goes through, it fails, or it fails once the new file is in place. */
  datatype Io = Written | Failed | FailedAfter

  /** Whether the new state is stored, error or not. */
  predicate Stores(io: Io) {
    io != Failed
  }

  predicate Raised(before: State, after: State, io: Io) {
    after != before && !(Validate(after) && io == Written)
  }

  /** An error that is raised though the state was stored comes only from a write that failed once the file was in place. */
  lemma RaisedButStoredIff(before: State, after: State, io: Io)
    ensures (Raised(before, after, io) && Commit(before, after, Stores(io)) != before) <==>
              after != before && Validate(after) && io == FailedAfter
  {
    hide Validate;
  }

  class Store {
    const parentJti: string
    var reservations: map<Digest, Record>
    var bindings: map<Digest, Digest>
    var blocked: map<Digest, Reason>
    var taint: Option<string>

    ghost function Disk(): State
      reads this
    {
      State(reservations, bindings, blocked, taint)
    }

    constructor (parentJti: string)
      ensures Disk() == EmptyState && this.parentJti == parentJti
    {
      this.parentJti := parentJti;
      reservations, bindings, blocked, taint := map[], map[], map[], None;
    }

    method Persist(after: State, io: Io) returns (ok: bool)
      modifies this
      ensures Disk() == Commit(old(Disk()), after, Stores(io))
      ensures ok == !Raised(old(Disk()), after, io)
      ensures !ok && Disk() != old(Disk()) <==> after != old(Disk()) && Validate(after) && io == FailedAfter
    {
      var before := State(reservations, bindings, blocked, taint);
      RaisedButStoredIff(before, after, io);
      if after == before { return true; }
      if !Validate(after) || io == Failed { return false; }
      reservations, bindings, blocked, taint := after.reservations, after.bindings, after.blocked, after.taint;
      return io == Written;
    }

    method ReconcileAll(answers: map<Handle, Answer>, io: Io) returns (ok: bool)
      modifies this
      ensures Disk() == Commit(old(Disk()), Reconcile(old(Disk()), answers), Stores(io))
      ensures ok == !Raised(old(Disk()), Reconcile(old(Disk()), answers), io)
    {
      var records, todo := reservations, reservations.Keys;
      while todo != {}
        invariant todo <= reservations.Keys && records.Keys == reservations.Keys && Disk() == old(Disk())
        invariant forall k :: k in records ==>
          records[k] == if k in todo then reservations[k]
                        else ReconcileRecord(reservations[k], AnswerFor(answers, reservations[k].handle))
        decreases todo
      {
        var k :| k in todo;
        todo := todo - {k};
        var r := records[k];
        if r.status == Closed || r.status == Expired { continue; }
        match AnswerFor(answers, r.handle)
        case Unavailable => records := records[k := r.Ended(Quarantined, "ADAPTER_STATE_UNAVAILABLE")];
        case AdapterExpired => records := records[k := r.Ended(Expired, "HANDLE_EXPIRED")];
        case AdapterQuarantined => records := records[k := r.Ended(Quarantined, "ADAPTER_QUARANTINED")];
        case AdapterClosed => records := records[k := r.(status := Closed)];
        case AdapterOther =>
      }
      var after := State(records, bindings, blocked, taint);
      assert records == Reconcile(Disk(), answers).reservations;
      ok := Persist(after, io);
    }

    method ReserveSecond(key: Digest, policy: Policy, handle: Handle, expiresAt: Time, io: Io)
      returns (r: Result<Outcome, ErrorCode>)
      modifies this
      ensures Disk() == Commit(old(Disk()), ReserveWrite(old(Disk()), key, policy, handle, expiresAt), Stores(io))
      ensures r.Err? <==>
                || ReserveConflicts(old(Disk()), key, policy, handle)
                || Raised(old(Disk()), ReserveWrite(old(Disk()), key, policy, handle, expiresAt), io)
      ensures r.Ok? ==> r.value == Outcome(Has(Pending), Some(handle), Some(policy.fingerprint))
    {
      if key in reservations && (reservations[key].handle != handle || reservations[key].fingerprint != policy.fingerprint) {
        return Err(ReservationConflict);
      }
      var ok := Persist(State(reservations[key := NewRecord(policy, handle, expiresAt)], bindings, blocked, taint), io);
      return if ok then Ok(Outcome(Has(Pending), Some(handle), Some(policy.fingerprint))) else Err(StateUnavailable);
    }

    /** Quarantines the pending records of a type, for a start event that names no agent. */
    method BindStartUnnamed(agentType: string, io: Io) returns (ok: bool)
      modifies this
      ensures Disk() == Commit(old(Disk()), StartUnnamed(old(Disk()), agentType), Stores(io))
      ensures ok == !Raised(old(Disk()), StartUnnamed(old(Disk()), agentType), io)
    {
      var records, todo := reservations, reservations.Keys;
      while todo != {}
        invariant todo <= reservations.Keys && records.Keys == reservations.Keys && Disk() == old(Disk())
        invariant forall k :: k in records ==>
          records[k] == if k !in todo && reservations[k].status == Pending && reservations[k].agentType == agentType
                        then reservations[k].Ended(Quarantined, "START_AGENT_ID_MISSING") else reservations[k]
        decreases todo
      {
        var k :| k in todo;
        todo := todo - {k};
        if records[k].status == Pending && records[k].agentType == agentType {
          records := records[k := records[k].Ended(Quarantined, "START_AGENT_ID_MISSING")];
        }
      }
      assert records == StartUnnamed(Disk(), agentType).reservations;
      ok := Persist(State(records, bindings, blocked, Some("SubagentStart missing agent_id")), io);
    }

    /** The scan of `bind_start`: ages stale records and gathers the eligible ones. */
    method ScanReservations(agentType: string, now: Time)
      returns (records: map<Digest, Record>, eligible: set<Digest>, expiredForType: bool)
      ensures records == Aged(reservations, agentType, now)
      ensures eligible == Eligible(reservations, agentType, now)
      ensures expiredForType == AnyExpired(records, agentType)
    {
      records, eligible, expiredForType := reservations, {}, false;
      var todo := reservations.Keys;
      while todo != {}
        invariant todo <= reservations.Keys && records.Keys == reservations.Keys
        invariant forall k :: k in records ==>
          records[k] == if k !in todo && Stale(reservations[k], agentType, now)
                        then reservations[k].Ended(Expired, "HANDLE_EXPIRED") else reservations[k]
        invariant eligible == Eligible(reservations, agentType, now) - todo
        invariant expiredForType ==
                  exists k :: k in records && k !in todo && records[k].agentType == agentType && records[k].status == Expired
        decreases todo
      {
        var k :| k in todo;
        todo := todo - {k};
        var r := records[k];
        if r.agentType != agentType { continue; }
        if r.status == Expired { expiredForType := true; continue; }
        if r.status != Pending { continue; }
        if r.expiresAt <= now {
          records := records[k := r.Ended(Expired, "HANDLE_EXPIRED")];
          assert records[k].agentType == agentType && records[k].status == Expired;
          expiredForType := true;
          continue;
        }
        eligible := eligible + {k};
      }
    }

    method BindStartNamed(bindingKey: Digest, agentType: string, now: Time, io: Io) returns (r: Result<Outcome, ErrorCode>)
      requires Consistent(Disk())
      modifies this
      ensures Disk() == Commit(old(Disk()), BindStart(old(Disk()), bindingKey, agentType, now), Stores(io))
      ensures r == if Raised(old(Disk()), BindStart(old(Disk()), bindingKey, agentType, now), io) then Err(StateUnavailable)
                   else Ok(StartOutcome(old(Disk()), bindingKey, agentType, now))
    {
      if bindingKey in blocked { return Ok(Outcome(ObservedOnly, None, None)); }
      if bindingKey in bindings {
        var found := reservations[bindings[bindingKey]];
        return Ok(Outcome(Has(found.status), if found.status == Bound then Some(found.handle) else None, Some(found.fingerprint)));
      }
      var records, eligible, expiredForType := ScanReservations(agentType, now);
      var after, outcome;
      if eligible == {} {
        after := State(records, bindings, blocked[bindingKey := if expiredForType then HandleExpired else MissingReservation], taint);
        outcome := Outcome(if expiredForType then Has(Expired) else ObservedOnly, None, None);
      } else {
        OneFingerprint(reservations, eligible);
        if |set k | k in eligible :: reservations[k].fingerprint| != 1 {
          after := State(Quarantine(records, eligible, "SAME_TYPE_POLICY_AMBIGUOUS"), bindings, blocked[bindingKey := AmbiguousPolicy], taint);
          outcome := Outcome(Has(Quarantined), None, None);
        } else {
          var k := Least(eligible);
          AgedKeepsEligible(Disk(), agentType, now, k);
          var taken := records[k];
          after := State(records[k := taken.(status := Bound, bindingKey := Some(bindingKey))], bindings[bindingKey := k], blocked, taint);
          outcome := Outcome(Has(Bound), Some(taken.handle), Some(taken.fingerprint));
        }
      }
      var ok := Persist(after, io);
      return if ok then Ok(outcome) else Err(StateUnavailable);
    }

    /** `resolve_child`: an expired binding is written off before the call raises. */
    method ResolveChild(hash: string -> Digest, session: string, agent: string, now: Time, io: Io)
      returns (r: Result<Option<Outcome>, ErrorCode>)
      requires Consistent(Disk())
      modifies this
      ensures !BoundedText(session, 256) ==> r == Err(InputInvalid) && Disk() == old(Disk())
      ensures BoundedText(session, 256) && agent == "" ==>
                Disk() == old(Disk()) && r == if old(taint).Some? && old(taint).value != "" then Err(UnboundChildTrace) else Ok(None)
      ensures BoundedText(session, 256) && agent != "" && !BoundedText(agent, 256) ==> r == Err(InputInvalid) && Disk() == old(Disk())
      ensures BoundedText(session, 256) && agent != "" && BoundedText(agent, 256) ==>
                var b := hash(KeyText(parentJti, session, agent));
                && Disk() == Commit(old(Disk()), Resolve(old(Disk()), b, now), Stores(io))
                && (r.Ok? <==> ResolveOutcome(old(Disk()), b, now).Ok?)
                && (r.Ok? ==> r.value == Some(ResolveOutcome(old(Disk()), b, now).value))
    {
      if !BoundedText(session, 256) { return Err(InputInvalid); }
      if agent == "" {
        return if taint.Some? && taint.value != "" then Err(UnboundChildTrace) else Ok(None);
      }
      if !BoundedText(agent, 256) { return Err(InputInvalid); }
      var bindingKey := hash(KeyText(parentJti, session, agent));
      if bindingKey !in bindings { return Err(BindingMissing); }
      var k := bindings[bindingKey];
      var found := reservations[k];
      if found.status != Bound { return Err(BindingEnded(found.status)); }
      if found.expiresAt <= now {
        var ok := Persist(State(reservations[k := found.Ended(Expired, "HANDLE_EXPIRED")], bindings, blocked, taint), io);
        return if ok then Err(BindingEnded(Expired)) else Err(StateUnavailable);
      }
      return Ok(Some(Outcome(Has(Bound), Some(found.handle), Some(found.fingerprint))));
    }

    method StopUnnamedAll(io: Io) returns (ok: bool)
      modifies this
      ensures Disk() == Commit(old(Disk()), StopUnnamed(old(Disk())), Stores(io))
      ensures ok == !Raised(old(Disk()), StopUnnamed(old(Disk())), io)
    {
      var records, todo := reservations, reservations.Keys;
      while todo != {}
        invariant todo <= reservations.Keys && records.Keys == reservations.Keys && Disk() == old(Disk())
        invariant forall k :: k in records ==>
          records[k] == if k !in todo && Live(reservations[k])
                        then reservations[k].Ended(Quarantined, "STOP_AGENT_ID_MISSING") else reservations[k]
        decreases todo
      {
        var k :| k in todo;
        todo := todo - {k};
        if records[k].status == Pending || records[k].status == Bound {
          records := records[k := records[k].Ended(Quarantined, "STOP_AGENT_ID_MISSING")];
        }
      }
      assert records == StopUnnamed(Disk()).reservations;
      ok := Persist(State(records, bindings, blocked, Some("SubagentStop missing agent_id")), io);
    }

    /** The first transaction of `stop`; `target` is the reservation to close next. */
    method StopFirst(bindingKey: Digest, io: Io) returns (target: Option<Digest>, ok: bool)
      requires Consistent(Disk())
      modifies this
      ensures Disk() == Commit(old(Disk()), StopBegin(old(Disk()), bindingKey), Stores(io))
      ensures target == StopTarget(old(Disk()), bindingKey)
      ensures ok == !Raised(old(Disk()), StopBegin(old(Disk()), bindingKey), io)
    {
      if bindingKey !in bindings {
        ok := Persist(State(reservations, bindings, blocked[bindingKey := StopBeforeStart], taint), io);
        return None, ok;
      }
      var k := bindings[bindingKey];
      return if reservations[k].status == Bound then Some(k) else None, true;
    }

    method StopSecond(key: Digest, failure: Option<string>, io: Io) returns (ok: bool)
      requires key in reservations
      modifies this
      ensures Disk() == Commit(old(Disk()), StopEnd(old(Disk()), key, failure), Stores(io))
      ensures ok == !Raised(old(Disk()), StopEnd(old(Disk()), key, failure), io)
    {
      var found := reservations[key];
      var ended := if failure.Some? then found.Ended(Quarantined, failure.value) else found.(status := Closed);
      ok := Persist(State(reservations[key := ended], bindings, blocked, taint), io);
    }

    method CancelReservation(handle: Handle, code: string, io: Io) returns (ok: bool)
      modifies this
      ensures Disk() == Commit(old(Disk()), Cancel(old(Disk()), handle, code), Stores(io))
      ensures ok == !Raised(old(Disk()), Cancel(old(Disk()), handle, code), io)
    {
      var records, todo := reservations, reservations.Keys;
      while todo != {}
        invariant todo <= reservations.Keys && records.Keys == reservations.Keys && Disk() == old(Disk())
        invariant forall k :: k in records ==>
          records[k] == if k !in todo && reservations[k].handle == handle && Live(reservations[k])
                        then reservations[k].Ended(Quarantined, code) else reservations[k]
        decreases todo
      {
        var k :| k in todo;
        todo := todo - {k};
        if records[k].handle == handle && (records[k].status == Pending || records[k].status == Bound) {
          records := records[k := records[k].Ended(Quarantined, code)];
        }
      }
      assert records == Cancel(Disk(), handle, code).reservations;
      ok := Persist(State(records, bindings, blocked, taint), io);
    }
  }
}
