/**
 Every interleaving of the child-binding transactions by any number of hook processes:
 the two-transaction operations `reserve_agent` and `stop`, the adapter calls between
 them, failed writes, crashes, and the trace lock that the PreToolUse hook holds.
 */
module BindingRuns {

  import opened Results
  import opened Text
  import opened ChildBindings
  import BindingStore

  type Pid = nat

  /** Where a process stands between two transactions of one operation. */
  datatype Phase =
    | Idle
    | Reserving(key: Digest, policy: Policy)
    | Spawned(key: Digest, policy: Policy, handle: Handle, expiresAt: Time)
    | Stopping(key: Digest)

  /** The adapter is known by the handle it gave to each request. */
  datatype System = System(store: State, adapter: map<Digest, Handle>, lock: Option<Pid>, phases: map<Pid, Phase>)
  {
    function Phase(p: Pid): Phase {
      if p in phases then phases[p] else Idle
    }

    function To(p: Pid, phase: Phase): System {
      this.(phases := phases[p := phase])
    }

    function Write(after: State, io: bool): System {
      this.(store := Commit(store, after, io))
    }
  }

  datatype Event =
    | TakeLock(p: Pid)
    | DropLock(p: Pid)
    | Crash(p: Pid)
    | DoReconcile(answers: map<Handle, Answer>, io: bool)
    | DoReserveCheck(p: Pid, key: Digest, policy: Policy)
    | DoSpawn(p: Pid, handle: Handle, expiresAt: Time)
    | SpawnDenied(p: Pid)
    | DoReserveWrite(p: Pid, io: bool)
    | DoStartUnnamed(agentType: string, io: bool)
    | DoBindStart(bindingKey: Digest, agentType: string, now: Time, io: bool)
    | DoResolve(bindingKey: Digest, now: Time, io: bool)
    | DoStopUnnamed(io: bool)
    | DoStopBegin(p: Pid, bindingKey: Digest, io: bool)
    | DoStopEnd(p: Pid, failure: Option<string>, io: bool)
    | DoCancel(handle: Handle, code: string, io: bool)

  const Start := System(EmptyState, map[], None, map[])

  /** A request keeps its handle; another request gets another one. */
  predicate MayAnswer(adapter: map<Digest, Handle>, key: Digest, handle: Handle) {
    if key in adapter then adapter[key] == handle else forall k :: k in adapter ==> adapter[k] != handle
  }

  /** The state body of an event's store transaction; the state itself for the other events. */
  function Body(sys: System, ev: Event): State {
    var s := sys.store;
    match ev
    case DoReconcile(answers, _) => Reconcile(s, answers)
    case DoReserveWrite(p, _) =>
      var phase := sys.Phase(p);
      if phase.Spawned? then ReserveWrite(s, phase.key, phase.policy, phase.handle, phase.expiresAt) else s
    case DoStartUnnamed(agentType, _) => StartUnnamed(s, agentType)
    case DoBindStart(bindingKey, agentType, now, _) => BindStart(s, bindingKey, agentType, now)
    case DoResolve(bindingKey, now, _) => Resolve(s, bindingKey, now)
    case DoStopUnnamed(_) => StopUnnamed(s)
    case DoStopBegin(p, bindingKey, _) => if sys.Phase(p) == Idle then StopBegin(s, bindingKey) else s
    case DoStopEnd(p, failure, _) =>
      var phase := sys.Phase(p);
      if phase.Stopping? then StopEnd(s, phase.key, failure) else s
    case DoCancel(handle, code, _) => Cancel(s, handle, code)
    case _ => s
  }

  predicate Io(ev: Event) {
    match ev
    case DoReconcile(_, io) => io
    case DoReserveWrite(_, io) => io
    case DoStartUnnamed(_, io) => io
    case DoBindStart(_, _, _, io) => io
    case DoResolve(_, _, io) => io
    case DoStopUnnamed(io) => io
    case DoStopBegin(_, _, io) => io
    case DoStopEnd(_, _, io) => io
    case DoCancel(_, _, io) => io
    case _ => true
  }

  /** What an event does beside the store: lock, adapter and the process's place in its operation. */
  function Around(sys: System, ev: Event, locking: bool): System
  {
    match ev
    case TakeLock(p) => if sys.lock == None then sys.(lock := Some(p)) else sys
    case DropLock(p) => if sys.lock == Some(p) && sys.Phase(p) == Idle then sys.(lock := None) else sys
    case Crash(p) => sys.To(p, Idle).(lock := if sys.lock == Some(p) then None else sys.lock)
    case DoReserveCheck(p, key, policy) =>
      if (locking ==> sys.lock == Some(p)) && sys.Phase(p) == Idle && ReserveCheck(sys.store, key, policy).None?
      then sys.To(p, Reserving(key, policy)) else sys
    case DoSpawn(p, handle, expiresAt) =>
      var phase := sys.Phase(p);
      if phase.Reserving? && MayAnswer(sys.adapter, phase.key, handle)
      then sys.To(p, Spawned(phase.key, phase.policy, handle, expiresAt)).(adapter := sys.adapter[phase.key := handle])
      else sys
    case SpawnDenied(p) => if sys.Phase(p).Reserving? then sys.To(p, Idle) else sys
    case DoReserveWrite(p, _) => if sys.Phase(p).Spawned? then sys.To(p, Idle) else sys
    case DoStopBegin(p, bindingKey, _) =>
      if sys.Phase(p) == Idle && bindingKey in sys.store.bindings && IndexesAgree(sys.store)
         && StopTarget(sys.store, bindingKey).Some?
      then sys.To(p, Stopping(sys.store.bindings[bindingKey])) else sys
    case DoStopEnd(p, _, _) => if sys.Phase(p).Stopping? then sys.To(p, Idle) else sys
    case _ => sys
  }

  /** One step. Without `locking`, reserves do not need the trace lock. */
  function Next(sys: System, ev: Event, locking: bool): System {
    Around(sys, ev, locking).Write(Body(sys, ev), Io(ev))
  }

  function Run(sys: System, evs: seq<Event>, locking: bool): System
    decreases |evs|
  {
    if evs == [] then sys else Run(Next(sys, evs[0], locking), evs[1..], locking)
  }

  // ---- the invariant -------------------------------------------------------------

  /** Every handle in the store came from the adapter for that very request. */
  predicate HandlesFromAdapter(sys: System) {
    && (forall k :: k in sys.store.reservations ==> k in sys.adapter && sys.adapter[k] == sys.store.reservations[k].handle)
    && (forall j, k :: j in sys.adapter && k in sys.adapter && sys.adapter[j] == sys.adapter[k] ==> j == k)
  }

  /** A process inside `reserve_agent` holds the trace lock, and its request is still unwritten. */
  predicate ReservesGuarded(sys: System) {
    forall p :: p in sys.phases && (sys.phases[p].Reserving? || sys.phases[p].Spawned?) ==>
      && sys.lock == Some(p)
      && sys.phases[p].key !in sys.store.reservations
      && (sys.phases[p].Spawned? ==> sys.phases[p].key in sys.adapter && sys.adapter[sys.phases[p].key] == sys.phases[p].handle)
  }

  predicate Inv(sys: System) {
    Consistent(sys.store) && Validate(sys.store) && HandlesFromAdapter(sys) && ReservesGuarded(sys)
  }

  lemma StartInv()
    ensures Inv(Start)
  {
  }

  /** Every transaction's body keeps the store consistent and only moves it forward. */
  lemma BodyKeeps(sys: System, ev: Event)
    requires Inv(sys)
    ensures Consistent(Body(sys, ev)) && Evolves(sys.store, Body(sys, ev))
  {
    hide Consistent, Evolves, Validate, HandlesFromAdapter, Reconcile, ReserveWrite, StartUnnamed, BindStart, Resolve,
      StopUnnamed, StopBegin, StopEnd, Cancel;
    var s := sys.store;
    EvolvesReflexive(s);
    match ev
    case DoReconcile(answers, _) => ReconcileKeeps(s, answers);
    case DoReserveWrite(p, _) =>
      var phase := sys.Phase(p);
      if phase.Spawned? { ReserveWriteKeeps(s, phase.key, phase.policy, phase.handle, phase.expiresAt); }
    case DoStartUnnamed(agentType, _) => StartUnnamedKeeps(s, agentType);
    case DoBindStart(bindingKey, agentType, now, _) => BindStartKeeps(s, bindingKey, agentType, now);
    case DoResolve(bindingKey, now, _) => ResolveKeeps(s, bindingKey, now);
    case DoStopUnnamed(_) => StopUnnamedKeeps(s);
    case DoStopBegin(p, bindingKey, _) => StopBeginKeeps(s, bindingKey);
    case DoStopEnd(p, failure, _) =>
      if sys.Phase(p).Stopping? { StopEndKeeps(s, sys.Phase(p).key, failure); }
    case DoCancel(handle, code, _) => CancelKeeps(s, handle, code);
    case _ =>
  }

  lemma BindStartKeys(s: State, bindingKey: Digest, agentType: string, now: Time)
    ensures BindStart(s, bindingKey, agentType, now).reservations.Keys == s.reservations.Keys
  {
  }

  /** Only the second reserve transaction adds a reservation. */
  lemma BodyKeys(sys: System, ev: Event)
    ensures var keys := Body(sys, ev).reservations.Keys;
            || keys == sys.store.reservations.Keys
            || (ev.DoReserveWrite? && sys.Phase(ev.p).Spawned? && keys == sys.store.reservations.Keys + {sys.Phase(ev.p).key})
  {
    hide BindStart;
    if ev.DoBindStart? { BindStartKeys(sys.store, ev.bindingKey, ev.agentType, ev.now); }
  }

  lemma NewReservation(sys: System, ev: Event)
    requires Inv(sys) && ev.DoReserveWrite? && sys.Phase(ev.p).Spawned?
    ensures var phase := sys.Phase(ev.p);
            Body(sys, ev).reservations == sys.store.reservations[phase.key := NewRecord(phase.policy, phase.handle, phase.expiresAt)]
  {
    hide Consistent, Validate;
  }

  lemma StepInv(sys: System, ev: Event)
    requires Inv(sys)
    ensures Inv(Next(sys, ev, true)) && Evolves(sys.store, Next(sys, ev, true).store)
  {
    hide Consistent, Validate, HandlesFromAdapter, ReservesGuarded, Evolves, Body, Next, Commit;
    BodyKeeps(sys, ev);
    CommitKeeps(sys.store, Body(sys, ev), Io(ev));
    CommitValid(sys.store, Body(sys, ev), Io(ev));
    NextStore(sys, ev);
    StepHandles(sys, ev);
    StepGuards(sys, ev);
  }

  lemma CommitValid(s: State, s': State, io: bool)
    requires Validate(s)
    ensures Validate(Commit(s, s', io))
  {
    hide Validate;
  }

  lemma NextStore(sys: System, ev: Event)
    ensures Next(sys, ev, true).store == Commit(sys.store, Body(sys, ev), Io(ev))
    ensures Next(sys, ev, true) == Around(sys, ev, true).(store := Next(sys, ev, true).store)
  {
    hide Body, Commit, Around;
    AroundStore(sys, ev);
  }

  lemma AroundAdapter(sys: System, ev: Event)
    requires HandlesFromAdapter(sys)
    ensures HandlesFromAdapter(Around(sys, ev, true))
  {
  }

  lemma StepHandles(sys: System, ev: Event)
    requires Inv(sys)
    ensures HandlesFromAdapter(Next(sys, ev, true))
  {
    hide Consistent, Validate, Body, Around, Commit;
    AroundAdapter(sys, ev);
    BodyKeeps(sys, ev);
    var after := Body(sys, ev);
    if ev.DoReserveWrite? && sys.Phase(ev.p).Spawned? {
      NewReservation(sys, ev);
      AroundWrite(sys, ev);
    } else {
      BodyKeys(sys, ev);
    }
    CommitChoice(sys.store, after, Io(ev));
    AroundStore(sys, ev);
  }

  lemma AroundWrite(sys: System, ev: Event)
    requires ev.DoReserveWrite?
    ensures Around(sys, ev, true).adapter == sys.adapter
  {
  }

  lemma AroundStore(sys: System, ev: Event)
    ensures Around(sys, ev, true).store == sys.store
  {
  }

  lemma CommitChoice(before: State, after: State, io: bool)
    ensures Commit(before, after, io) == before || Commit(before, after, io) == after
  {
  }

  lemma StepGuards(sys: System, ev: Event)
    requires Inv(sys)
    ensures ReservesGuarded(Next(sys, ev, true))
  {
    hide Consistent, Validate, Body, Evolves, Around, Next, Commit;
    BodyKeys(sys, ev);
    NextStore(sys, ev);
    AroundGuards(sys, ev);
    CommitChoice(sys.store, Body(sys, ev), Io(ev));
  }

  /** Beside the store, a step keeps the guard; one that writes a reservation leaves no other process inside `reserve_agent`. */
  lemma AroundGuards(sys: System, ev: Event)
    requires ReservesGuarded(sys)
    ensures ReservesGuarded(Around(sys, ev, true)) && Around(sys, ev, true).store == sys.store
    ensures ev.DoReserveWrite? && sys.Phase(ev.p).Spawned? ==>
              forall p :: p in Around(sys, ev, true).phases ==>
                !Around(sys, ev, true).phases[p].Reserving? && !Around(sys, ev, true).phases[p].Spawned?
  {
    hide MayAnswer, StopTarget, IndexesAgree;
  }

  lemma {:induction false} RunInv(sys: System, evs: seq<Event>)
    requires Inv(sys)
    ensures Inv(Run(sys, evs, true)) && Evolves(sys.store, Run(sys, evs, true).store)
    decreases |evs|
  {
    hide Inv, Evolves, Next;
    if evs == [] {
      EvolvesReflexive(sys.store);
    } else {
      StepInv(sys, evs[0]);
      RunInv(Next(sys, evs[0], true), evs[1..]);
      EvolvesTransitive(sys.store, Next(sys, evs[0], true).store, Run(sys, evs, true).store);
    }
  }

  // ---- what every run guarantees ------------------------------------------------------

  predicate Ended(r: Record) {
    Rank(r.status) == 2
  }

  /** A reservation that has ended stays ended, and whoever was bound to it is refused from then on. */
  lemma AuthorityNeverReturns(sys: System, evs: seq<Event>, k: Digest, b: Digest, now: Time)
    requires Inv(sys) && k in sys.store.reservations && Ended(sys.store.reservations[k])
    ensures var s' := Run(sys, evs, true).store;
            && k in s'.reservations && Ended(s'.reservations[k])
            && Inv(Run(sys, evs, true))
            && (b in s'.bindings && s'.bindings[b] == k ==> ResolveOutcome(s', b, now).Err?)
  {
    hide Run, Validate, HandlesFromAdapter, ReservesGuarded;
    RunInv(sys, evs);
  }

  /** An agent that was blocked, or that stopped, expired or was quarantined, never resolves again. */
  lemma RefusedAgentStaysRefused(sys: System, evs: seq<Event>, b: Digest, now: Time)
    requires Inv(sys)
    requires b in sys.store.blocked || (b in sys.store.bindings && Ended(sys.store.reservations[sys.store.bindings[b]]))
    ensures Inv(Run(sys, evs, true)) && ResolveOutcome(Run(sys, evs, true).store, b, now).Err?
  {
    hide Run, Validate, HandlesFromAdapter, ReservesGuarded;
    RunInv(sys, evs);
    if b in sys.store.bindings { AuthorityNeverReturns(sys, evs, sys.store.bindings[b], b, now); }
  }

  /** Once the second transaction of a stop commits, the stopped agent's authority is gone for good. */
  lemma StopIsFinal(sys: System, p: Pid, failure: Option<string>, io: bool, evs: seq<Event>, b: Digest, now: Time)
    requires Inv(sys) && sys.Phase(p).Stopping? && b in sys.store.bindings && sys.store.bindings[b] == sys.Phase(p).key
    requires !Refused(sys.store, StopEnd(sys.store, sys.Phase(p).key, failure), io)
    ensures var sys' := Run(Next(sys, DoStopEnd(p, failure, io), true), evs, true);
            Inv(sys') && ResolveOutcome(sys'.store, b, now).Err?
  {
    hide Run, Inv;
    StepInv(sys, DoStopEnd(p, failure, io));
    StopEndCommitted(sys, p, failure, io, b);
    RefusedAgentStaysRefused(Next(sys, DoStopEnd(p, failure, io), true), evs, b, now);
  }

  lemma StopEndCommitted(sys: System, p: Pid, failure: Option<string>, io: bool, b: Digest)
    requires Inv(sys) && sys.Phase(p).Stopping? && b in sys.store.bindings && sys.store.bindings[b] == sys.Phase(p).key
    requires !Refused(sys.store, StopEnd(sys.store, sys.Phase(p).key, failure), io)
    ensures var s' := Next(sys, DoStopEnd(p, failure, io), true).store;
            b in s'.bindings && s'.bindings[b] in s'.reservations && Ended(s'.reservations[s'.bindings[b]])
  {
    hide Validate, HandlesFromAdapter, ReservesGuarded;
    assert Next(sys, DoStopEnd(p, failure, io), true).store == StopEnd(sys.store, sys.Phase(p).key, failure);
  }

  predicate ResolvesTo(s: State, b: Digest, now: Time, handle: Handle)
    requires IndexesAgree(s)
  {
    var r := ResolveOutcome(s, b, now);
    r.Ok? && r.value.handle == Some(handle)
  }

  /** Two agents that ever resolve to one handle, at any two moments of a run, are one agent; and one agent has one handle. */
  lemma IdentityFixedAndExclusive(sys: System, evs: seq<Event>, b: Digest, b': Digest, t: Time, t': Time, h: Handle, h': Handle)
    requires Inv(sys) && ResolvesTo(sys.store, b, t, h)
    requires Inv(Run(sys, evs, true)) && ResolvesTo(Run(sys, evs, true).store, b', t', h')
    ensures h == h' <==> b == b'
  {
    hide Run, Validate, ReservesGuarded;
    RunInv(sys, evs);
    var s, s' := sys.store, Run(sys, evs, true).store;
    var k, k' := s.bindings[b], s'.bindings[b'];
    assert s'.reservations[k].handle == h && s'.reservations[k'].handle == h';
    assert s'.bindings[b] == k;
    if h == h' {
      assert k == k';
      assert s'.reservations[k].bindingKey == Some(b) && s'.reservations[k].bindingKey == Some(b');
    }
  }

  /**
   In the hooks' own terms: over a whole run, a child handle is ever resolved by one
   (session, agent) pair only, and such a pair resolves to one handle only.
   */
  lemma OneHandlePerPair(hash: string -> Digest, parent: string, sys: System, evs: seq<Event>,
                         session: string, agent: string, session': string, agent': string,
                         t: Time, t': Time, h: Handle, h': Handle)
    requires BindingStore.Injective(hash) && BoundedText(session, 256) && BoundedText(session', 256)
    requires Inv(sys) && ResolvesTo(sys.store, hash(BindingStore.KeyText(parent, session, agent)), t, h)
    requires Inv(Run(sys, evs, true))
    requires ResolvesTo(Run(sys, evs, true).store, hash(BindingStore.KeyText(parent, session', agent')), t', h')
    ensures h == h' <==> session == session' && agent == agent'
  {
    hide Inv, Run, ResolvesTo, BoundedText, BindingStore.KeyText;
    BindingStore.KeysSeparatePairs(hash, parent, session, agent, session', agent');
    IdentityFixedAndExclusive(sys, evs, hash(BindingStore.KeyText(parent, session, agent)),
                              hash(BindingStore.KeyText(parent, session', agent')), t, t', h, h');
  }

  /** Agents bound under a type, and reservations made for it. */
  function BoundOfType(s: State, agentType: string): set<Digest>
    requires IndexesAgree(s)
  {
    set b | b in s.bindings && s.reservations[s.bindings[b]].agentType == agentType
  }

  function ReservedOfType(s: State, agentType: string): set<Digest> {
    set k | k in s.reservations && s.reservations[k].agentType == agentType
  }

  lemma {:induction false} InjectionCount(m: map<Digest, Digest>, keys: set<Digest>, values: set<Digest>)
    requires keys <= m.Keys && (forall b :: b in keys ==> m[b] in values)
    requires forall b, c :: b in keys && c in keys && m[b] == m[c] ==> b == c
    ensures |keys| <= |values|
    decreases |keys|
  {
    if keys != {} {
      var b :| b in keys;
      InjectionCount(m, keys - {b}, values - {m[b]});
    }
  }

  /** No type ever has more bound agents than reservations. */
  lemma BoundNeverOutnumberReserved(evs: seq<Event>, agentType: string)
    ensures var s := Run(Start, evs, true).store;
            IndexesAgree(s) && |BoundOfType(s, agentType)| <= |ReservedOfType(s, agentType)|
  {
    hide Run, Validate, ReservesGuarded;
    StartInv();
    RunInv(Start, evs);
    var s := Run(Start, evs, true).store;
    forall b, c | b in s.bindings && c in s.bindings && s.bindings[b] == s.bindings[c] ensures b == c {
      assert s.reservations[s.bindings[b]].bindingKey == Some(b) == Some(c);
    }
    InjectionCount(s.bindings, BoundOfType(s, agentType), ReservedOfType(s, agentType));
  }

  // ---- when a write is refused ------------------------------------------------------

  lemma {:induction false} AsciiLength(s: string)
    requires forall i :: 0 <= i < |s| ==> ' ' <= s[i] <= '~'
    ensures Utf8Length(s) == |s|
  {
    if s != "" { AsciiLength(s[1..]); }
  }

  lemma AsciiBounded(s: string, maxBytes: nat)
    requires s != "" && ' ' < s[0] && (forall i :: 0 <= i < |s| ==> ' ' <= s[i] <= '~') && |s| <= maxBytes
    ensures BoundedText(s, maxBytes)
  {
    AsciiLength(s);
    assert StripLeft(s) == s;
  }

  /** The texts that the transactions themselves write are readable ones. */
  lemma TaintsBounded()
    ensures BoundedText("SubagentStart missing agent_id", 512) && BoundedText("SubagentStop missing agent_id", 512)
  {
    hide BoundedText;
    AsciiBounded("SubagentStart missing agent_id", 512);
    AsciiBounded("SubagentStop missing agent_id", 512);
  }

  lemma ReconcileCodesBounded()
    ensures BoundedText("ADAPTER_STATE_UNAVAILABLE", 256) && BoundedText("ADAPTER_QUARANTINED", 256)
    ensures BoundedText("HANDLE_EXPIRED", 256)
  {
    hide BoundedText;
    AsciiBounded("ADAPTER_STATE_UNAVAILABLE", 256);
    AsciiBounded("ADAPTER_QUARANTINED", 256);
    AsciiBounded("HANDLE_EXPIRED", 256);
  }

  lemma EventCodesBounded()
    ensures BoundedText("START_AGENT_ID_MISSING", 256) && BoundedText("STOP_AGENT_ID_MISSING", 256)
    ensures BoundedText("SAME_TYPE_POLICY_AMBIGUOUS", 256)
  {
    hide BoundedText;
    AsciiBounded("START_AGENT_ID_MISSING", 256);
    AsciiBounded("STOP_AGENT_ID_MISSING", 256);
    AsciiBounded("SAME_TYPE_POLICY_AMBIGUOUS", 256);
  }

  /** What comes from outside is readable: adapter expiry and error codes, policy type, caller's code. */
  predicate ReadableInputs(sys: System, ev: Event) {
    match ev
    case DoReserveWrite(p, _) =>
      var phase := sys.Phase(p);
      phase.Spawned? ==> phase.expiresAt > 0.0 && BoundedText(phase.policy.agentType, 256)
    case DoStopEnd(_, failure, _) => failure.Some? ==> BoundedText(failure.value, 256)
    case DoCancel(_, code, _) => BoundedText(code, 256)
    case _ => true
  }

  lemma BindStartReadable(s: State, bindingKey: Digest, agentType: string, now: Time)
    requires FieldsReadable(s)
    ensures FieldsReadable(BindStart(s, bindingKey, agentType, now))
  {
    hide BoundedText, SameFingerprint, AnyExpired;
    ReconcileCodesBounded();
    EventCodesBounded();
  }

  lemma BodyReadable(sys: System, ev: Event)
    requires FieldsReadable(sys.store) && ReadableInputs(sys, ev)
    ensures FieldsReadable(Body(sys, ev))
  {
    hide BoundedText, BindStart;
    TaintsBounded();
    ReconcileCodesBounded();
    EventCodesBounded();
    if ev.DoBindStart? { BindStartReadable(sys.store, ev.bindingKey, ev.agentType, ev.now); }
  }

  /**
   On every reachable store, a transaction whose inputs are readable fails to persist
   exactly if the file system refuses or a table would pass its record limit: the checks on
   the references between the tables never stop it.
   */
  lemma WriteRefusedOnlyByLimits(evs: seq<Event>, ev: Event)
    requires ReadableInputs(Run(Start, evs, true), ev)
    ensures var sys := Run(Start, evs, true);
            Refused(sys.store, Body(sys, ev), Io(ev)) <==>
              && Body(sys, ev) != sys.store
              && (!Io(ev) || |Body(sys, ev).reservations| > 4096 || |Body(sys, ev).bindings| > 4096 || |Body(sys, ev).blocked| > 4096)
  {
    hide Run, Body, HandlesFromAdapter, ReservesGuarded, FieldsReadable;
    StartInv();
    RunInv(Start, evs);
    var sys := Run(Start, evs, true);
    BodyKeeps(sys, ev);
    BodyReadable(sys, ev);
  }


  // ---- why the lock is needed ----------------------------------------------------------

  /**
   Run on its own, the second reserve transaction moves the store forward exactly if its
   key is free, it conflicts, or the record it overwrites is that very pending one.
   */
  lemma ReserveWriteForwardIff(s: State, key: Digest, policy: Policy, handle: Handle, expiresAt: Time)
    requires Consistent(s)
    ensures var s' := ReserveWrite(s, key, policy, handle, expiresAt);
            (Consistent(s') && Evolves(s, s')) <==>
              || key !in s.reservations
              || ReserveConflicts(s, key, policy, handle)
              || (var r := s.reservations[key];
                  r.status == Pending && r.agentType == policy.agentType && r.expiresAt == expiresAt)
  {
    var s' := ReserveWrite(s, key, policy, handle, expiresAt);
    if key in s.reservations && !ReserveConflicts(s, key, policy, handle) {
      assert s'.reservations[key] == NewRecord(policy, handle, expiresAt);
      assert Consistent(s') && Evolves(s, s') ==> Later(s.reservations[key], s'.reservations[key]);
      forall k | k in s.reservations && k != key ensures s'.reservations[k] == s.reservations[k] {}
    }
  }

  const REVIEWER := Policy("reviewer", "f", 1)

  lemma RunStep(sys: System, evs: seq<Event>, locking: bool)
    requires evs != []
    ensures Run(sys, evs, locking) == Run(Next(sys, evs[0], locking), evs[1..], locking)
  {
  }

  /** The store that the run below ends with: one reservation, with or without the stop's mark. */
  function OneReservation(status: Status, stopped: bool): State {
    State(map[7 := Record("h", "reviewer", "f", status, 10.0, None,
                          if status == Quarantined then Some("STOP_AGENT_ID_MISSING") else None)],
          map[], map[], if stopped then Some("SubagentStop missing agent_id") else None)
  }

  lemma OneReservationValid(status: Status, stopped: bool)
    requires status == Pending || status == Quarantined
    ensures Validate(OneReservation(status, stopped))
  {
    hide BoundedText;
    TaintsBounded();
    EventCodesBounded();
    AsciiBounded("reviewer", 256);
  }

  function BothSpawned(): System {
    System(EmptyState, map[7 := "h"], None,
           map[1 := Spawned(7, REVIEWER, "h", 10.0), 2 := Spawned(7, REVIEWER, "h", 10.0)])
  }

  /** Two reserves of one request both pass the first check and both are answered with one handle. */
  lemma BothPassTheCheck(evs: seq<Event>)
    requires evs == [DoReserveCheck(1, 7, REVIEWER), DoReserveCheck(2, 7, REVIEWER), DoSpawn(1, "h", 10.0), DoSpawn(2, "h", 10.0)]
    ensures Run(Start, evs, false) == BothSpawned()
  {
    var s1 := System(EmptyState, map[], None, map[1 := Reserving(7, REVIEWER)]);
    var s2 := s1.To(2, Reserving(7, REVIEWER));
    var s3 := s2.To(1, Spawned(7, REVIEWER, "h", 10.0)).(adapter := map[7 := "h"]);
    BothCheck(s1, s2);
    BothSpawn(s2, s3);
    hide Next;
    RunFour(Start, evs, s1, s2, s3, BothSpawned(), false);
  }

  lemma BothCheck(s1: System, s2: System)
    requires s1 == System(EmptyState, map[], None, map[1 := Reserving(7, REVIEWER)]) && s2 == s1.To(2, Reserving(7, REVIEWER))
    ensures Next(Start, DoReserveCheck(1, 7, REVIEWER), false) == s1 && Next(s1, DoReserveCheck(2, 7, REVIEWER), false) == s2
  {
  }

  lemma BothSpawn(s2: System, s3: System)
    requires s2 == System(EmptyState, map[], None, map[1 := Reserving(7, REVIEWER)]).To(2, Reserving(7, REVIEWER))
    requires s3 == s2.To(1, Spawned(7, REVIEWER, "h", 10.0)).(adapter := map[7 := "h"])
    ensures Next(s2, DoSpawn(1, "h", 10.0), false) == s3 && Next(s3, DoSpawn(2, "h", 10.0), false) == BothSpawned()
  {
  }

  lemma RunFour(s0: System, evs: seq<Event>, s1: System, s2: System, s3: System, s4: System, locking: bool)
    requires |evs| == 4 && Next(s0, evs[0], locking) == s1 && Next(s1, evs[1], locking) == s2
    requires Next(s2, evs[2], locking) == s3 && Next(s3, evs[3], locking) == s4
    ensures Run(s0, evs, locking) == s4
  {
    hide Next;
    assert evs[1..][1..] == evs[2..] && evs[2..][1..] == evs[3..] && evs[3..][1..] == [];
    RunStep(s3, evs[3..], locking);
    RunStep(s2, evs[2..], locking);
    RunStep(s1, evs[1..], locking);
  }

  lemma FirstWrite(sys: System)
    requires sys == BothSpawned()
    ensures Next(sys, DoReserveWrite(1, true), false) == sys.To(1, Idle).(store := OneReservation(Pending, false))
  {
    hide Validate;
    OneReservationValid(Pending, false);
    assert Body(sys, DoReserveWrite(1, true)) == OneReservation(Pending, false);
  }

  lemma StopBetween(sys: System)
    requires sys.store == OneReservation(Pending, false)
    ensures Next(sys, DoStopUnnamed(true), false) == sys.(store := OneReservation(Quarantined, true))
  {
    hide Validate;
    OneReservationValid(Quarantined, true);
    assert Body(sys, DoStopUnnamed(true)) == OneReservation(Quarantined, true);
  }

  lemma SecondWrite(sys: System)
    requires sys.store == OneReservation(Quarantined, true) && sys.Phase(2) == Spawned(7, REVIEWER, "h", 10.0)
    ensures Next(sys, DoReserveWrite(2, true), false).store == OneReservation(Pending, true)
  {
    hide Validate;
    OneReservationValid(Pending, true);
    assert Body(sys, DoReserveWrite(2, true)) == OneReservation(Pending, true);
  }

  /**
   Without the trace lock the slower of two such reserves makes a reservation pending again
   that was quarantined in between: a quarantine that has committed does not hold.
   */
  lemma ReservesWithoutLockRevive()
    ensures exists evs: seq<Event>, ev: Event ::
              && Run(Start, evs, false).store == OneReservation(Quarantined, true)
              && Next(Run(Start, evs, false), ev, false).store == OneReservation(Pending, true)
  {
    hide Next, OneReservation;
    var evs := [DoReserveCheck(1, 7, REVIEWER), DoReserveCheck(2, 7, REVIEWER), DoSpawn(1, "h", 10.0), DoSpawn(2, "h", 10.0)];
    var more := [DoReserveWrite(1, true), DoStopUnnamed(true)];
    BothPassTheCheck(evs);
    RunConcat(Start, evs, more, false);
    var s4 := BothSpawned();
    FirstWrite(s4);
    var s5 := Next(s4, more[0], false);
    StopBetween(s5);
    var s6 := Next(s5, more[1], false);
    assert more[1..][1..] == [];
    RunStep(s4, more, false);
    RunStep(s5, more[1..], false);
    assert Run(Start, evs + more, false) == s6;
    SecondWrite(s6);
  }

  lemma {:induction false} RunConcat(sys: System, a: seq<Event>, b: seq<Event>, locking: bool)
    ensures Run(sys, a + b, locking) == Run(Run(sys, a, locking), b, locking)
    decreases |a|
  {
    hide Next;
    if a == [] {
      assert a + b == b;
    } else {
      assert (a + b)[1..] == a[1..] + b;
      RunConcat(Next(sys, a[0], locking), a[1..], b, locking);
    }
  }
}
