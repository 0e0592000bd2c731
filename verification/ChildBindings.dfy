/**
 The persisted child-binding state and the body of every locked transaction on it, as
 functions from one state to the next. `BindingStore` has the transactions themselves;
 `BindingRuns` interleaves them.
 */
module ChildBindings {

  import opened Results
  import opened Text

  /** A SHA-256 digest; its hexadecimal text sorts as the number does. */
  type Digest = nat
  type Handle = string
  type Time = real

  datatype Status = Pending | Bound | Closed | Quarantined | Expired

  datatype Reason = HandleExpired | MissingReservation | AmbiguousPolicy | StopBeforeStart

  datatype Record = Record(
    handle: Handle,
    agentType: string,
    fingerprint: string,
    status: Status,
    expiresAt: Time,
    bindingKey: Option<Digest>,
    terminalCode: Option<string>)
  {
    function Ended(status: Status, code: string): Record {
      this.(status := status, terminalCode := Some(code))
    }
  }

  datatype State = State(
    reservations: map<Digest, Record>,
    bindings: map<Digest, Digest>,
    blocked: map<Digest, Reason>,
    taint: Option<string>)

  datatype Policy = Policy(agentType: string, fingerprint: string, maxToolCalls: nat)

  /** How an outcome reports the child: a record's status, or seen without any authority. */
  datatype Seen = Has(status: Status) | ObservedOnly

  datatype Outcome = Outcome(seen: Seen, handle: Option<Handle>, fingerprint: Option<string>)

  datatype ErrorCode =
    | InputInvalid
    | StateUnavailable
    | ReservationConflict
    | ReservationClosed
    | BindingMissing
    | BindingEnded(status: Status)
    | UnboundChildTrace

  const MAX_RECORDS := 4096
  const EmptyState := State(map[], map[], map[], None)

  /** `_bounded_text`: not blank, short enough in UTF-8, no control characters. */
  predicate BoundedText(value: string, maxBytes: nat) {
    Strip(value) != "" && Utf8Length(value) <= maxBytes && forall i :: 0 <= i < |value| ==> value[i] >= ' '
  }

  // ---- validity ------------------------------------------------------------------

  /** Every binding points to the reservation that names it, and the other way round. */
  predicate IndexesAgree(s: State) {
    && (forall b :: b in s.bindings ==>
          s.bindings[b] in s.reservations && s.reservations[s.bindings[b]].bindingKey == Some(b))
    && (forall k :: k in s.reservations && s.reservations[k].bindingKey.Some? ==>
          s.reservations[k].bindingKey.value in s.bindings && s.bindings[s.reservations[k].bindingKey.value] == k)
  }

  predicate PendingUnbound(s: State) {
    forall k :: k in s.reservations && s.reservations[k].status == Pending ==> s.reservations[k].bindingKey == None
  }

  predicate BlockedUnbound(s: State) {
    forall b :: b in s.blocked ==> b !in s.bindings
  }

  /** What `_validate` asks of the references between the three tables. */
  predicate Linked(s: State) {
    IndexesAgree(s) && PendingUnbound(s) && BlockedUnbound(s)
  }

  predicate RecordReadable(r: Record) {
    r.expiresAt > 0.0 && BoundedText(r.agentType, 256) && (r.terminalCode.Some? ==> BoundedText(r.terminalCode.value, 256))
  }

  predicate FieldsReadable(s: State) {
    && (forall k :: k in s.reservations ==> RecordReadable(s.reservations[k]))
    && (s.taint.Some? ==> BoundedText(s.taint.value, 512))
  }

  predicate WithinLimits(s: State) {
    |s.reservations| <= MAX_RECORDS && |s.bindings| <= MAX_RECORDS && |s.blocked| <= MAX_RECORDS
  }

  /** `_validate`. */
  predicate Validate(s: State) {
    WithinLimits(s) && FieldsReadable(s) && Linked(s)
  }

  /** The invariant of the protocol: what `_validate` asks, and no bound record without a binding. */
  predicate Consistent(s: State) {
    && Linked(s)
    && forall k :: k in s.reservations && s.reservations[k].status == Bound ==> s.reservations[k].bindingKey.Some?
  }

  /**
   What every transaction leaves stored: an unchanged state is not written, and a changed one is
   stored if it validates and the file system puts the new file in place (`io`); otherwise the
   file stays as it was. The body's own error does not matter here.
   */
  function Commit(before: State, after: State, io: bool): State {
    if after != before && Validate(after) && io then after else before
  }

  predicate Refused(before: State, after: State, io: bool) {
    after != before && !(Validate(after) && io)
  }

  // ---- the transactions' bodies ----------------------------------------------------

  function MapRecords(rs: map<Digest, Record>, f: Record -> Record): (r: map<Digest, Record>) {
    map k | k in rs :: f(rs[k])
  }

  datatype Answer = Unavailable | AdapterExpired | AdapterQuarantined | AdapterClosed | AdapterOther

  function AnswerFor(answers: map<Handle, Answer>, handle: Handle): Answer {
    if handle in answers then answers[handle] else Unavailable
  }

  function ReconcileRecord(r: Record, answer: Answer): Record {
    if r.status == Closed || r.status == Expired then r
    else match answer
         case Unavailable => r.Ended(Quarantined, "ADAPTER_STATE_UNAVAILABLE")
         case AdapterExpired => r.Ended(Expired, "HANDLE_EXPIRED")
         case AdapterQuarantined => r.Ended(Quarantined, "ADAPTER_QUARANTINED")
         case AdapterClosed => r.(status := Closed)
         case AdapterOther => r
  }

  function Reconcile(s: State, answers: map<Handle, Answer>): State {
    s.(reservations := MapRecords(s.reservations, (r: Record) => ReconcileRecord(r, AnswerFor(answers, r.handle))))
  }

  /** The first transaction of `reserve_agent`: None lets the reservation go on. */
  function ReserveCheck(s: State, key: Digest, policy: Policy): Option<Result<Outcome, ErrorCode>> {
    if key !in s.reservations then None
    else
      var r := s.reservations[key];
      if r.fingerprint != policy.fingerprint then Some(Err(ReservationConflict))
      else if r.status == Pending || r.status == Bound then
        Some(Ok(Outcome(Has(r.status), Some(r.handle), Some(policy.fingerprint))))
      else Some(Err(ReservationClosed))
  }

  function NewRecord(policy: Policy, handle: Handle, expiresAt: Time): Record {
    Record(handle, policy.agentType, policy.fingerprint, Pending, expiresAt, None, None)
  }

  predicate ReserveConflicts(s: State, key: Digest, policy: Policy, handle: Handle) {
    key in s.reservations && (s.reservations[key].handle != handle || s.reservations[key].fingerprint != policy.fingerprint)
  }

  /** The second transaction of `reserve_agent`. */
  function ReserveWrite(s: State, key: Digest, policy: Policy, handle: Handle, expiresAt: Time): State {
    if ReserveConflicts(s, key, policy, handle) then s
    else s.(reservations := s.reservations[key := NewRecord(policy, handle, expiresAt)])
  }

  function StartUnnamed(s: State, agentType: string): State {
    s.(taint := Some("SubagentStart missing agent_id"),
       reservations := MapRecords(s.reservations, (r: Record) =>
         if r.status == Pending && r.agentType == agentType then r.Ended(Quarantined, "START_AGENT_ID_MISSING") else r))
  }

  predicate Stale(r: Record, agentType: string, now: Time) {
    r.agentType == agentType && r.status == Pending && r.expiresAt <= now
  }

  function Aged(rs: map<Digest, Record>, agentType: string, now: Time): map<Digest, Record> {
    MapRecords(rs, (r: Record) => if Stale(r, agentType, now) then r.Ended(Expired, "HANDLE_EXPIRED") else r)
  }

  /** The reservations a starting child of this type may take. */
  function Eligible(rs: map<Digest, Record>, agentType: string, now: Time): (e: set<Digest>)
    ensures forall k :: k in e <==> k in rs && rs[k].agentType == agentType && rs[k].status == Pending && rs[k].expiresAt > now
  {
    set k | k in rs && rs[k].agentType == agentType && rs[k].status == Pending && rs[k].expiresAt > now
  }

  predicate AnyExpired(rs: map<Digest, Record>, agentType: string) {
    exists k :: k in rs && rs[k].agentType == agentType && rs[k].status == Expired
  }

  predicate SameFingerprint(rs: map<Digest, Record>, keys: set<Digest>)
    requires keys <= rs.Keys
  {
    forall j, k :: j in keys && k in keys ==> rs[j].fingerprint == rs[k].fingerprint
  }

  function Quarantine(rs: map<Digest, Record>, keys: set<Digest>, code: string): map<Digest, Record> {
    map k | k in rs :: if k in keys then rs[k].Ended(Quarantined, code) else rs[k]
  }

  function Least(keys: set<Digest>): (k: Digest)
    requires keys != {}
    ensures k in keys && forall j :: j in keys ==> k <= j
  {
    LeastExists(keys);
    var k :| k in keys && forall j :: j in keys ==> k <= j;
    k
  }

  lemma {:induction false} LeastExists(keys: set<Digest>)
    requires keys != {}
    ensures exists k :: k in keys && forall j :: j in keys ==> k <= j
  {
    var k :| k in keys;
    var rest := keys - {k};
    if rest == {} {
      assert keys == {k};
    } else {
      LeastExists(rest);
      var m :| m in rest && forall j :: j in rest ==> m <= j;
      var least := if m <= k then m else k;
      assert least in keys && forall j :: j in keys ==> least <= j by {
        forall j | j in keys ensures least <= j { if j != k { assert j in rest; } }
      }
    }
  }

  /** The transaction of `bind_start` for a named agent. */
  function BindStart(s: State, bindingKey: Digest, agentType: string, now: Time): State {
    if bindingKey in s.blocked || bindingKey in s.bindings then s
    else
      var rs := Aged(s.reservations, agentType, now);
      var eligible := Eligible(s.reservations, agentType, now);
      if eligible == {} then
        var reason := if AnyExpired(rs, agentType) then HandleExpired else MissingReservation;
        s.(reservations := rs, blocked := s.blocked[bindingKey := reason])
      else if !SameFingerprint(s.reservations, eligible) then
        s.(reservations := Quarantine(rs, eligible, "SAME_TYPE_POLICY_AMBIGUOUS"),
           blocked := s.blocked[bindingKey := AmbiguousPolicy])
      else
        var k := Least(eligible);
        s.(reservations := rs[k := rs[k].(status := Bound, bindingKey := Some(bindingKey))],
           bindings := s.bindings[bindingKey := k])
  }

  function StartOutcome(s: State, bindingKey: Digest, agentType: string, now: Time): Outcome
    requires IndexesAgree(s)
  {
    if bindingKey in s.blocked then Outcome(ObservedOnly, None, None)
    else if bindingKey in s.bindings then
      var r := s.reservations[s.bindings[bindingKey]];
      Outcome(Has(r.status), if r.status == Bound then Some(r.handle) else None, Some(r.fingerprint))
    else
      var eligible := Eligible(s.reservations, agentType, now);
      if eligible == {} then
        Outcome(if AnyExpired(Aged(s.reservations, agentType, now), agentType) then Has(Expired) else ObservedOnly, None, None)
      else if !SameFingerprint(s.reservations, eligible) then Outcome(Has(Quarantined), None, None)
      else
        var r := s.reservations[Least(eligible)];
        Outcome(Has(Bound), Some(r.handle), Some(r.fingerprint))
  }

  /** `resolve_child` for a named agent: the handle whose authority the caller gets, or why none. */
  function ResolveOutcome(s: State, bindingKey: Digest, now: Time): Result<Outcome, ErrorCode>
    requires IndexesAgree(s)
  {
    if bindingKey !in s.bindings then Err(BindingMissing)
    else
      var r := s.reservations[s.bindings[bindingKey]];
      if r.status != Bound then Err(BindingEnded(r.status))
      else if r.expiresAt <= now then Err(BindingEnded(Expired))
      else Ok(Outcome(Has(Bound), Some(r.handle), Some(r.fingerprint)))
  }

  /** Its transaction: a binding found past its time is written off, although the call raises. */
  function Resolve(s: State, bindingKey: Digest, now: Time): State {
    if bindingKey in s.bindings && s.bindings[bindingKey] in s.reservations
       && s.reservations[s.bindings[bindingKey]].status == Bound && s.reservations[s.bindings[bindingKey]].expiresAt <= now
    then
      var k := s.bindings[bindingKey];
      s.(reservations := s.reservations[k := s.reservations[k].Ended(Expired, "HANDLE_EXPIRED")])
    else s
  }

  predicate Live(r: Record) {
    r.status == Pending || r.status == Bound
  }

  function StopUnnamed(s: State): State {
    s.(taint := Some("SubagentStop missing agent_id"),
       reservations := MapRecords(s.reservations, (r: Record) => if Live(r) then r.Ended(Quarantined, "STOP_AGENT_ID_MISSING") else r))
  }

  /** The first transaction of `stop`. */
  function StopBegin(s: State, bindingKey: Digest): State {
    if bindingKey in s.bindings then s else s.(blocked := s.blocked[bindingKey := StopBeforeStart])
  }

  /** The reservation whose handle `stop` goes on to close, if any. */
  function StopTarget(s: State, bindingKey: Digest): Option<Digest>
    requires IndexesAgree(s)
  {
    if bindingKey in s.bindings && s.reservations[s.bindings[bindingKey]].status == Bound
    then Some(s.bindings[bindingKey]) else None
  }

  /** The second transaction of `stop`: closed, or quarantined with the adapter's error code. */
  function StopEnd(s: State, key: Digest, failure: Option<string>): State {
    if key !in s.reservations then s
    else
      var r := s.reservations[key];
      s.(reservations := s.reservations[key :=
        if failure.Some? then r.Ended(Quarantined, failure.value) else r.(status := Closed)])
  }

  function Cancel(s: State, handle: Handle, code: string): State {
    s.(reservations := MapRecords(s.reservations, (r: Record) =>
      if r.handle == handle && Live(r) then r.Ended(Quarantined, code) else r))
  }

  // ---- how records may change ----------------------------------------------------

  function Rank(status: Status): nat {
    match status
    case Pending => 0
    case Bound => 1
    case _ => 2
  }

  /** The same grant later on: identity fixed, status only forward, a binding never lost or changed. */
  predicate Later(r: Record, r': Record) {
    && r'.handle == r.handle && r'.agentType == r.agentType && r'.fingerprint == r.fingerprint && r'.expiresAt == r.expiresAt
    && Rank(r.status) <= Rank(r'.status)
    && (r.bindingKey.Some? ==> r'.bindingKey == r.bindingKey)
    && (r.bindingKey.None? && r'.bindingKey.Some? ==> r.status == Pending)
  }

  /** No reservation is lost or comes back, no binding moves, no block or taint is lifted. */
  predicate Evolves(s: State, s': State) {
    && (forall k :: k in s.reservations ==> k in s'.reservations && Later(s.reservations[k], s'.reservations[k]))
    && (forall b :: b in s.bindings ==> b in s'.bindings && s'.bindings[b] == s.bindings[b])
    && (forall b :: b in s.blocked ==> b in s'.blocked)
    && (s.taint.Some? ==> s'.taint.Some?)
  }

  lemma EvolvesReflexive(s: State)
    ensures Evolves(s, s)
  {
  }

  lemma EvolvesTransitive(s: State, s': State, s'': State)
    requires Evolves(s, s') && Evolves(s', s'')
    ensures Evolves(s, s'')
  {
  }

  /** The record as it was, or the same record ended. */
  predicate Ends(r: Record, r': Record) {
    Later(r, r') && r'.bindingKey == r.bindingKey && (r'.status != r.status ==> Rank(r'.status) == 2)
  }

  /** A change that at most ends records. */
  predicate OnlyEnds(s: State, s': State) {
    && s'.bindings == s.bindings && s'.blocked == s.blocked
    && s'.reservations.Keys == s.reservations.Keys
    && (s.taint.Some? ==> s'.taint.Some?)
    && forall k :: k in s.reservations ==> Ends(s.reservations[k], s'.reservations[k])
  }

  lemma OnlyEndsKeeps(s: State, s': State)
    requires Consistent(s) && OnlyEnds(s, s')
    ensures Consistent(s') && Evolves(s, s')
  {
  }

  lemma ReconcileEnds(r: Record, answer: Answer)
    ensures Ends(r, ReconcileRecord(r, answer))
  {
  }

  lemma ReconcileKeeps(s: State, answers: map<Handle, Answer>)
    requires Consistent(s)
    ensures Consistent(Reconcile(s, answers)) && Evolves(s, Reconcile(s, answers))
  {
    hide Consistent, Evolves, Ends, ReconcileRecord;
    forall k | k in s.reservations ensures Ends(s.reservations[k], Reconcile(s, answers).reservations[k]) {
      ReconcileEnds(s.reservations[k], AnswerFor(answers, s.reservations[k].handle));
    }
    OnlyEndsKeeps(s, Reconcile(s, answers));
  }

  lemma StartUnnamedKeeps(s: State, agentType: string)
    requires Consistent(s)
    ensures Consistent(StartUnnamed(s, agentType)) && Evolves(s, StartUnnamed(s, agentType))
  {
    hide Consistent, Evolves;
    OnlyEndsKeeps(s, StartUnnamed(s, agentType));
  }

  lemma StopUnnamedKeeps(s: State)
    requires Consistent(s)
    ensures Consistent(StopUnnamed(s)) && Evolves(s, StopUnnamed(s))
  {
    hide Consistent, Evolves;
    OnlyEndsKeeps(s, StopUnnamed(s));
  }

  lemma CancelKeeps(s: State, handle: Handle, code: string)
    requires Consistent(s)
    ensures Consistent(Cancel(s, handle, code)) && Evolves(s, Cancel(s, handle, code))
  {
    hide Consistent, Evolves;
    OnlyEndsKeeps(s, Cancel(s, handle, code));
  }

  lemma ResolveKeeps(s: State, bindingKey: Digest, now: Time)
    requires Consistent(s)
    ensures Consistent(Resolve(s, bindingKey, now)) && Evolves(s, Resolve(s, bindingKey, now))
  {
    hide Consistent, Evolves;
    OnlyEndsKeeps(s, Resolve(s, bindingKey, now));
  }

  lemma BlockKeeps(s: State, bindingKey: Digest, reason: Reason)
    requires Consistent(s) && bindingKey !in s.bindings
    ensures Consistent(s.(blocked := s.blocked[bindingKey := reason]))
    ensures Evolves(s, s.(blocked := s.blocked[bindingKey := reason]))
  {
  }

  lemma StopBeginKeeps(s: State, bindingKey: Digest)
    requires Consistent(s)
    ensures Consistent(StopBegin(s, bindingKey)) && Evolves(s, StopBegin(s, bindingKey))
  {
    if bindingKey !in s.bindings { BlockKeeps(s, bindingKey, StopBeforeStart); }
  }

  /** The second half of a stop ends a record that has left pending, whatever happened in between. */
  lemma StopEndKeeps(s: State, key: Digest, failure: Option<string>)
    requires Consistent(s)
    ensures Consistent(StopEnd(s, key, failure)) && Evolves(s, StopEnd(s, key, failure))
  {
    hide Consistent, Evolves;
    OnlyEndsKeeps(s, StopEnd(s, key, failure));
  }

  /** A second reserve transaction is safe exactly as long as its key is still free. */
  lemma ReserveWriteKeeps(s: State, key: Digest, policy: Policy, handle: Handle, expiresAt: Time)
    requires Consistent(s) && key !in s.reservations
    ensures var s' := ReserveWrite(s, key, policy, handle, expiresAt); Consistent(s') && Evolves(s, s')
  {
  }

  lemma AgedOnlyEnds(s: State, agentType: string, now: Time)
    ensures OnlyEnds(s, s.(reservations := Aged(s.reservations, agentType, now)))
  {
  }

  lemma QuarantineOnlyEnds(s: State, keys: set<Digest>, code: string)
    ensures OnlyEnds(s, s.(reservations := Quarantine(s.reservations, keys, code)))
  {
  }

  lemma BindStartKeeps(s: State, bindingKey: Digest, agentType: string, now: Time)
    requires Consistent(s)
    ensures Consistent(BindStart(s, bindingKey, agentType, now)) && Evolves(s, BindStart(s, bindingKey, agentType, now))
  {
    hide Consistent, Evolves, OnlyEnds, Quarantine, Aged, SameFingerprint, AnyExpired, Least, Eligible;
    if bindingKey in s.blocked || bindingKey in s.bindings {
      EvolvesReflexive(s);
    } else {
      var aged := s.(reservations := Aged(s.reservations, agentType, now));
      AgedOnlyEnds(s, agentType, now);
      OnlyEndsKeeps(s, aged);
      var eligible := Eligible(s.reservations, agentType, now);
      if eligible == {} {
        BlockKeeps(aged, bindingKey, if AnyExpired(aged.reservations, agentType) then HandleExpired else MissingReservation);
      } else if SameFingerprint(s.reservations, eligible) {
        AgedKeepsEligible(s, agentType, now, Least(eligible));
        TakeKeeps(aged, Least(eligible), bindingKey);
      } else {
        var ended := aged.(reservations := Quarantine(aged.reservations, eligible, "SAME_TYPE_POLICY_AMBIGUOUS"));
        QuarantineOnlyEnds(aged, eligible, "SAME_TYPE_POLICY_AMBIGUOUS");
        OnlyEndsKeeps(aged, ended);
        BlockKeeps(ended, bindingKey, AmbiguousPolicy);
        EvolvesTransitive(aged, ended, BindStart(s, bindingKey, agentType, now));
      }
      EvolvesTransitive(s, aged, BindStart(s, bindingKey, agentType, now));
    }
  }

  lemma AgedKeepsEligible(s: State, agentType: string, now: Time, k: Digest)
    requires k in Eligible(s.reservations, agentType, now)
    ensures k in s.reservations && Aged(s.reservations, agentType, now)[k] == s.reservations[k] && s.reservations[k].status == Pending
  {
  }

  /** Binding a pending reservation to a fresh agent. */
  lemma TakeKeeps(s: State, k: Digest, bindingKey: Digest)
    requires Consistent(s) && k in s.reservations && s.reservations[k].status == Pending
    requires bindingKey !in s.blocked && bindingKey !in s.bindings
    ensures var s' := s.(reservations := s.reservations[k := s.reservations[k].(status := Bound, bindingKey := Some(bindingKey))],
                         bindings := s.bindings[bindingKey := k]);
            Consistent(s') && Evolves(s, s')
  {
  }

  /** A refused commit changes nothing, a granted one is the body's state: either way both facts survive. */
  lemma CommitKeeps(s: State, s': State, io: bool)
    requires Consistent(s) && Consistent(s') && Evolves(s, s')
    ensures Consistent(Commit(s, s', io)) && Evolves(s, Commit(s, s', io))
  {
  }

  /**
   What a named start does, record by record. The agent ends up either bound or blocked, and
   bound exactly if the eligible reservations agree on one policy; it then takes the one with
   the least key. Stale reservations of the type expire, disagreeing ones are quarantined,
   and no other record changes status.
   */
  lemma BindStartDecides(s: State, b: Digest, agentType: string, now: Time)
    requires Consistent(s) && b !in s.blocked && b !in s.bindings
    ensures var s', eligible := BindStart(s, b, agentType, now), Eligible(s.reservations, agentType, now);
            && (b in s'.bindings <==> b !in s'.blocked)
            && (b in s'.bindings <==> eligible != {} && SameFingerprint(s.reservations, eligible))
            && (b in s'.bindings ==> s'.bindings[b] in eligible && forall k :: k in eligible ==> s'.bindings[b] <= k)
            && s'.reservations.Keys == s.reservations.Keys
            && forall k :: k in s.reservations ==>
                 s'.reservations[k].status ==
                   if Stale(s.reservations[k], agentType, now) then Expired
                   else if k !in eligible then s.reservations[k].status
                   else if !SameFingerprint(s.reservations, eligible) then Quarantined
                   else if s'.bindings[b] == k then Bound
                   else Pending
  {
    hide SameFingerprint, AnyExpired, IndexesAgree, PendingUnbound;
  }
}
