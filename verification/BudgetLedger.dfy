/** The call budget of a parent grant, shared with the children it reserves budget for. */
module BudgetLedger {

  import opened Results

  /** Budget reserved for an Agent request; only a child that the binding store has recorded can make calls. */
  datatype Child = Child(request: string, budget: nat, used: nat, recorded: bool)

  /**
   `receipts` counts the parent's permitted calls in the verified chain, `floor` is the usage the
   parent's session has been told of, and `tracked` says that the child-binding file exists.
   */
  datatype Books = Books(ceiling: int, receipts: nat, floor: nat, reserved: nat, tracked: bool, children: seq<Child>)

  /** How a spawn ends: it fails before the ledger reserves, or after, or it succeeds. */
  datatype Spawn = FailsEarly | FailsLate | Succeeds

  /** What one hook call meets: the verdicts it cannot compute itself, and whether its receipt is appended. */
  datatype Event =
    | ParentCall(agent: bool, request: string, budget: nat, policyAllows: bool, spawn: Spawn, appended: bool)
    | UnboundCall
    | ChildCall(request: string, policyAllows: bool, appended: bool)
    | BindingFileMade

  function Max(a: int, b: int): int {
    if a >= b then a else b
  }

  /** `_hook_budget_evidence`. */
  datatype Evidence = Evidence(amount: nat, remainingBefore: int, remainingAfter: int, used: nat, reserved: nat)

  function BudgetEvidence(ceiling: int, used: nat, reserved: nat, permitted: bool): Evidence {
    var amount := if permitted then 1 else 0;
    var before := Max(0, Max(0, ceiling) - used - reserved);
    Evidence(amount, before, Max(0, before - amount), used, reserved)
  }

  /** The native budget check. */
  predicate BudgetLeft(ceiling: int, used: nat, reserved: nat) {
    used < Max(0, ceiling - reserved)
  }

  // ---- reserving -----------------------------------------------------------------------------

  predicate Holds(children: seq<Child>, request: string) {
    exists i :: 0 <= i < |children| && children[i].request == request
  }

  predicate Recorded(children: seq<Child>, request: string) {
    exists i :: 0 <= i < |children| && children[i].request == request && children[i].recorded
  }

  function Record(children: seq<Child>, request: string): (r: seq<Child>)
    ensures |r| == |children|
  {
    if children == [] then []
    else [if children[0].request == request then children[0].(recorded := true) else children[0]] + Record(children[1..], request)
  }

  /** The ledger keeps one reservation per request: a repeated one reserves nothing more. */
  function Reserve(b: Books, request: string, budget: nat): Books {
    if Holds(b.children, request) then b
    else b.(reserved := b.reserved + budget, children := b.children + [Child(request, budget, 0, false)])
  }

  datatype Reserved = Reserved(books: Books, ok: bool)

  /** The request would leave no call for the dispatch itself. */
  predicate TooMuch(b: Books, used: nat, budget: nat) {
    budget > Max(0, b.ceiling - used - b.reserved - 1)
  }

  /** `reserve_agent`: a recorded reservation is recovered if it is live; a spawn that fails late has reserved all the same. */
  function ReserveAgent(b: Books, used: nat, request: string, budget: nat, spawn: Spawn): Reserved {
    if Recorded(b.children, request) then Reserved(b, spawn.Succeeds?)
    else if TooMuch(b, used, budget) || spawn.FailsEarly? then Reserved(b, false)
    else
      var held := Reserve(b, request, budget);
      if spawn.FailsLate? then Reserved(held, false)
      else Reserved(held.(tracked := true, children := Record(held.children, request)), true)
  }

  // ---- the calls -----------------------------------------------------------------------------

  /** The outcome of a call: the books after it, and its evidence unless the hook denied by an exception. */
  datatype Outcome = Outcome(books: Books, evidence: Option<Evidence>)

  /** A call of the parent is synchronized with the ledger only if the binding file exists or it is an Agent call. */
  predicate Synced(b: Books, e: Event) {
    e.ParentCall? && (b.tracked || e.agent)
  }

  function CallParent(b: Books, e: Event): Outcome
    requires e.ParentCall?
  {
    if !Synced(b, e) then
      Settle(b, b.receipts, 0, e.policyAllows && BudgetLeft(b.ceiling, b.receipts, 0), e.appended)
    else
      var used: nat := Max(b.floor, b.receipts);
      if used + b.reserved > b.ceiling then Outcome(b, None)
      else
        var synced := b.(floor := used);
        var allowed := e.policyAllows && BudgetLeft(b.ceiling, used, b.reserved);
        if !(allowed && e.agent) then Settle(synced, used, b.reserved, allowed, e.appended)
        else
          var r := ReserveAgent(synced, used, e.request, e.budget, e.spawn);
          // A reservation that failed is not followed by another look at the ledger.
          if !r.ok then Settle(r.books, used, b.reserved, false, e.appended)
          else if used + r.books.reserved > b.ceiling then Outcome(r.books, None)
          else Settle(r.books, used, r.books.reserved, true, e.appended)
  }

  function Settle(b: Books, used: nat, reserved: nat, permitted: bool, appended: bool): Outcome {
    Outcome(b.(receipts := if permitted && appended then b.receipts + 1 else b.receipts),
            Some(BudgetEvidence(b.ceiling, used, reserved, permitted)))
  }

  /** A call that resolves to no bound child is denied on the parent's grant, without synchronizing. */
  function CallUnbound(b: Books): Outcome {
    Settle(b, b.receipts, 0, false, false)
  }

  /** A bound child's calls are charged to the child. */
  function CallChild(children: seq<Child>, e: Event): (r: seq<Child>)
    requires e.ChildCall?
    ensures |r| == |children|
  {
    if children == [] then []
    else
      var c := children[0];
      var charged := c.recorded && c.request == e.request && e.policyAllows && e.appended && BudgetLeft(c.budget, c.used, 0);
      [if charged then c.(used := c.used + 1) else c] + CallChild(children[1..], e)
  }

  function Outcomes(b: Books, e: Event): Outcome {
    match e
    case ParentCall(_, _, _, _, _, _) => CallParent(b, e)
    case UnboundCall => CallUnbound(b)
    case ChildCall(_, _, _) => Outcome(b.(children := CallChild(b.children, e)), None)
    case BindingFileMade => Outcome(b.(tracked := true), None)
  }

  function Step(b: Books, e: Event): Books {
    Outcomes(b, e).books
  }

  function Run(b: Books, es: seq<Event>): Books
    decreases |es|
  {
    if es == [] then b else Run(Step(b, es[0]), es[1..])
  }

  function Opening(ceiling: int): Books {
    Books(ceiling, 0, 0, 0, false, [])
  }

  // ---- conservation -----------------------------------------------------------------------

  function Budgets(children: seq<Child>): nat {
    if children == [] then 0 else children[0].budget + Budgets(children[1..])
  }

  /** The budgets of the children that can spend them. */
  function Usable(children: seq<Child>): nat {
    if children == [] then 0 else (if children[0].recorded then children[0].budget else 0) + Usable(children[1..])
  }

  function SpentBy(children: seq<Child>): nat {
    if children == [] then 0 else children[0].used + SpentBy(children[1..])
  }

  predicate EachWithin(children: seq<Child>) {
    forall i :: 0 <= i < |children| ==> children[i].used <= if children[i].recorded then children[i].budget else 0
  }

  /** The parent's calls and what its usable children hold stay within the ceiling; the reserved total is what all children hold. */
  predicate Balanced(b: Books) {
    && b.receipts + Usable(b.children) <= Max(0, b.ceiling)
    && b.floor <= b.receipts
    && b.reserved == Budgets(b.children)
    && (!b.tracked ==> Usable(b.children) == 0)
    && EachWithin(b.children)
  }

  lemma {:induction false} SumsAppend(children: seq<Child>, c: Child)
    ensures Budgets(children + [c]) == Budgets(children) + c.budget
    ensures Usable(children + [c]) == Usable(children) + if c.recorded then c.budget else 0
  {
    if children == [] {
      assert children + [c] == [c];
    } else {
      assert (children + [c])[1..] == children[1..] + [c];
      SumsAppend(children[1..], c);
    }
  }

  lemma {:induction false} RecordSums(children: seq<Child>, request: string)
    requires EachWithin(children)
    ensures var r := Record(children, request);
            Budgets(r) == Budgets(children) && Usable(children) <= Usable(r) <= Budgets(r) && EachWithin(r)
  {
    if children != [] { RecordSums(children[1..], request); }
  }

  lemma {:induction false} UsableWithinBudgets(children: seq<Child>)
    ensures Usable(children) <= Budgets(children)
  {
    if children != [] { UsableWithinBudgets(children[1..]); }
  }

  lemma {:induction false} ChildStaysWithin(children: seq<Child>, e: Event)
    requires e.ChildCall? && EachWithin(children)
    ensures var r := CallChild(children, e);
            Budgets(r) == Budgets(children) && Usable(r) == Usable(children) && EachWithin(r)
  {
    if children != [] { ChildStaysWithin(children[1..], e); }
  }

  lemma {:induction false} SpentWithinUsable(children: seq<Child>)
    requires EachWithin(children)
    ensures SpentBy(children) <= Usable(children)
  {
    if children != [] { SpentWithinUsable(children[1..]); }
  }

  lemma ReserveSums(b: Books, request: string, budget: nat)
    requires b.reserved == Budgets(b.children) && EachWithin(b.children)
    ensures var h := Reserve(b, request, budget);
            && h == b.(reserved := h.reserved, children := h.children)
            && h.reserved == Budgets(h.children) && Usable(h.children) == Usable(b.children) && EachWithin(h.children)
            && h.reserved == b.reserved + if Holds(b.children, request) then 0 else budget
  {
    hide Budgets, Usable, Holds;
    var c := Child(request, budget, 0, false);
    SumsAppend(b.children, c);
    assert EachWithin(b.children + [c]);
  }

  /** Whatever the spawn does, a reservation leaves the dispatch its call, and what is reserved is what the children hold. */
  lemma ReserveFacts(b: Books, used: nat, request: string, budget: nat, spawn: Spawn)
    requires b.reserved == Budgets(b.children) && EachWithin(b.children) && used < b.ceiling - b.reserved
    requires !b.tracked ==> Usable(b.children) == 0
    ensures var r := ReserveAgent(b, used, request, budget, spawn);
            && r.books == b.(reserved := r.books.reserved, tracked := r.books.tracked, children := r.books.children)
            && r.books.reserved == Budgets(r.books.children) && EachWithin(r.books.children)
            && used < b.ceiling - r.books.reserved
            && r.books.reserved == b.reserved + (if ReservesNow(b, used, request, budget, spawn) then budget else 0)
            && (r.ok || Usable(r.books.children) == Usable(b.children))
            && (!r.books.tracked ==> Usable(r.books.children) == 0)
  {
    hide Budgets, Usable, Holds, Recorded, Reserve, Record, EachWithin;
    var held := Reserve(b, request, budget);
    ReserveSums(b, request, budget);
    RecordSums(held.children, request);
    RecordedIsHeld(b.children, request);
  }

  /** This call makes a new reservation. */
  predicate ReservesNow(b: Books, used: nat, request: string, budget: nat, spawn: Spawn) {
    !Holds(b.children, request) && !TooMuch(b, used, budget) && !spawn.FailsEarly?
  }

  lemma RecordedIsHeld(children: seq<Child>, request: string)
    ensures Recorded(children, request) ==> Holds(children, request)
  {
  }

  lemma ParentBalanced(b: Books, e: Event)
    requires Balanced(b) && e.ParentCall?
    ensures Balanced(CallParent(b, e).books) && CallParent(b, e).books.ceiling == b.ceiling
  {
    hide Budgets, Usable, ReserveAgent, EachWithin;
    UsableWithinBudgets(b.children);
    var synced := b.(floor := b.receipts);
    if BudgetLeft(b.ceiling, b.receipts, b.reserved) {
      ReserveFacts(synced, b.receipts, e.request, e.budget, e.spawn);
      UsableWithinBudgets(ReserveAgent(synced, b.receipts, e.request, e.budget, e.spawn).books.children);
    }
  }

  lemma StepBalanced(b: Books, e: Event)
    requires Balanced(b)
    ensures Balanced(Step(b, e)) && Step(b, e).ceiling == b.ceiling
  {
    hide Budgets, Usable, EachWithin, CallParent, CallChild;
    if e.ParentCall? { ParentBalanced(b, e); }
    if e.ChildCall? { ChildStaysWithin(b.children, e); }
  }

  lemma {:induction false} RunBalanced(b: Books, es: seq<Event>)
    requires Balanced(b)
    ensures Balanced(Run(b, es)) && Run(b, es).ceiling == b.ceiling
    decreases |es|
  {
    hide Balanced, Step;
    if es != [] {
      StepBalanced(b, es[0]);
      RunBalanced(Step(b, es[0]), es[1..]);
    }
  }

  lemma OpensBalanced(ceiling: int)
    ensures Balanced(Opening(ceiling))
  {
  }

  /** Over every run, the calls of the parent and of all its children together never exceed the parent's ceiling. */
  lemma CallsConserved(ceiling: int, es: seq<Event>)
    ensures var b := Run(Opening(ceiling), es);
            b.receipts + SpentBy(b.children) <= b.receipts + Usable(b.children) <= Max(0, ceiling)
  {
    hide Run, Usable, SpentBy;
    OpensBalanced(ceiling);
    RunBalanced(Opening(ceiling), es);
    SpentWithinUsable(Run(Opening(ceiling), es).children);
  }

  // ---- when the parent may call, and what is counted ----------------------------------------------

  /** What the outcome of a call says about it. */
  predicate Permitted(o: Outcome) {
    o.evidence.Some? && o.evidence.value.amount == 1
  }

  /** The dispatch of a child is granted: its reservation is recovered, or is new or repeated, fits, and the spawn succeeds. */
  predicate Dispatches(b: Books, e: Event)
    requires e.ParentCall?
  {
    && e.spawn.Succeeds?
    && ((exists i :: 0 <= i < |b.children| && b.children[i].request == e.request && b.children[i].recorded)
        || b.receipts + b.reserved + e.budget + 1 <= b.ceiling)
  }

  /**
   In every reachable state a call of the parent is permitted exactly if its policy allows it, a call is
   left beside what it knows to be reserved and, if it dispatches a child, the child's budget is left too;
   and the parent's count grows exactly by the permitted calls whose receipts are appended.
   */
  lemma ParentPermittedIff(ceiling: int, es: seq<Event>, e: Event)
    requires e.ParentCall?
    ensures var b := Run(Opening(ceiling), es); var o := Outcomes(b, e);
            && (Permitted(o) <==>
                  && e.policyAllows
                  && (if Synced(b, e) then b.receipts + b.reserved < ceiling else b.receipts < ceiling)
                  && (e.agent ==> Dispatches(b, e)))
            && o.books.receipts == b.receipts + if Permitted(o) && e.appended then 1 else 0
  {
    hide Run, Balanced;
    OpensBalanced(ceiling);
    RunBalanced(Opening(ceiling), es);
    PermittedIff(Run(Opening(ceiling), es), e);
  }

  lemma PermittedIff(b: Books, e: Event)
    requires Balanced(b) && e.ParentCall?
    ensures var o := CallParent(b, e);
            && (Permitted(o) <==>
                  && e.policyAllows
                  && (if Synced(b, e) then b.receipts + b.reserved < b.ceiling else b.receipts < b.ceiling)
                  && (e.agent ==> Dispatches(b, e)))
            && o.books.receipts == b.receipts + if Permitted(o) && e.appended then 1 else 0
  {
    hide Budgets, Usable, EachWithin, ReserveAgent;
    var synced := b.(floor := b.receipts);
    if BudgetLeft(b.ceiling, b.receipts, b.reserved) {
      ReserveFacts(synced, b.receipts, e.request, e.budget, e.spawn);
      ReserveOkIff(synced, b.receipts, e.request, e.budget, e.spawn);
    }
  }

  lemma ReserveOkIff(b: Books, used: nat, request: string, budget: nat, spawn: Spawn)
    requires used < b.ceiling - b.reserved
    ensures ReserveAgent(b, used, request, budget, spawn).ok <==>
              spawn.Succeeds? && (Recorded(b.children, request) || used + b.reserved + budget + 1 <= b.ceiling)
  {
    hide Record, Holds, Recorded;
  }

  // ---- what a child is charged ---------------------------------------------------------------

  /** A call of the child that its policy allows and whose receipt is appended. */
  predicate Attempt(e: Event, request: string) {
    e.ChildCall? && e.request == request && e.policyAllows && e.appended
  }

  function Attempts(es: seq<Event>, request: string): nat {
    if es == [] then 0 else (if Attempt(es[0], request) then 1 else 0) + Attempts(es[1..], request)
  }

  function Least(a: nat, b: nat): nat {
    if a <= b then a else b
  }

  lemma {:induction false} CallChildAt(children: seq<Child>, e: Event, i: nat)
    requires e.ChildCall? && i < |children|
    ensures var c := children[i];
            CallChild(children, e)[i] == c.(used := if c.recorded && Attempt(e, c.request) && c.used < c.budget then c.used + 1 else c.used)
  {
    if i > 0 { CallChildAt(children[1..], e, i - 1); }
  }

  lemma {:induction false} RecordAt(children: seq<Child>, request: string, i: nat)
    requires i < |children|
    ensures Record(children, request)[i] == children[i].(recorded := children[i].recorded || children[i].request == request)
  {
    if i > 0 { RecordAt(children[1..], request, i - 1); }
  }

  /** Only its own calls change what a child has used, and no step takes a child away. */
  lemma StepChild(b: Books, e: Event, i: nat)
    requires i < |b.children|
    ensures i < |Step(b, e).children|
    ensures var c, c' := b.children[i], Step(b, e).children[i];
            && c'.request == c.request && c'.budget == c.budget && (c.recorded ==> c'.recorded)
            && c'.used == if c.recorded && Attempt(e, c.request) && c.used < c.budget then c.used + 1 else c.used
  {
    hide CallChild, Record, Holds, Recorded, TooMuch;
    if e.ChildCall? { CallChildAt(b.children, e, i); }
    if e.ParentCall? {
      RecordAt(b.children, e.request, i);
      RecordAt(b.children + [Child(e.request, e.budget, 0, false)], e.request, i);
    }
  }

  /** A new child has used nothing. */
  lemma NewChild(b: Books, e: Event, i: nat)
    requires |b.children| <= i < |Step(b, e).children|
    ensures Step(b, e).children[i].used == 0
  {
    hide CallChild, Record, Holds, Recorded, TooMuch;
    if e.ParentCall? { RecordAt(b.children + [Child(e.request, e.budget, 0, false)], e.request, |b.children|); }
  }

  /** From any moment on, a recorded child has used what it had and its attempts since, up to its budget. */
  lemma {:induction false} UsedSince(b: Books, es: seq<Event>, i: nat)
    requires i < |b.children| && b.children[i].recorded && b.children[i].used <= b.children[i].budget
    ensures i < |Run(b, es).children|
    ensures var c, c' := b.children[i], Run(b, es).children[i];
            c'.request == c.request && c'.budget == c.budget && c'.used == Least(c.budget, c.used + Attempts(es, c.request))
    decreases |es|
  {
    hide Step, Attempt;
    if es != [] {
      StepChild(b, es[0], i);
      UsedSince(Step(b, es[0]), es[1..], i);
    }
  }

  /** Before it is recorded a child has used nothing. */
  lemma UnrecordedUnused(ceiling: int, es: seq<Event>, i: nat)
    requires i < |Run(Opening(ceiling), es).children| && !Run(Opening(ceiling), es).children[i].recorded
    ensures Run(Opening(ceiling), es).children[i].used == 0
  {
    hide Run, Budgets, Usable;
    OpensBalanced(ceiling);
    RunBalanced(Opening(ceiling), es);
  }

  /**
   Over every run: once the binding store has recorded a child, the child has used exactly as many
   calls as it has attempted since, until its budget is reached, and none of those after that.
   */
  lemma ChildUsedIsItsCalls(ceiling: int, before: seq<Event>, e: Event, after: seq<Event>, i: nat)
    requires var b := Run(Opening(ceiling), before);
             i < |Step(b, e).children| && Step(b, e).children[i].recorded && !(i < |b.children| && b.children[i].recorded)
    ensures i < |Run(Step(Run(Opening(ceiling), before), e), after).children|
    ensures var c := Run(Step(Run(Opening(ceiling), before), e), after).children[i];
            c.used == Least(c.budget, Attempts(after, c.request))
  {
    hide Run, Step, Attempts;
    var b := Run(Opening(ceiling), before);
    if i < |b.children| {
      UnrecordedUnused(ceiling, before, i);
      StepChild(b, e, i);
    } else {
      NewChild(b, e, i);
    }
    UsedSince(Step(b, e), after, i);
  }

  // ---- the reserved total ------------------------------------------------------------------

  /** Used and reserved together stay within the ceiling. */
  predicate Covered(b: Books) {
    b.receipts + b.reserved <= Max(0, b.ceiling)
  }

  /** A permitted call that is not synchronized, made where budget is reserved and no other call is left. */
  predicate Blind(b: Books, e: Event) {
    && e.ParentCall? && !Synced(b, e) && e.policyAllows && e.appended
    && b.reserved > 0 && b.receipts < b.ceiling && b.receipts + b.reserved >= b.ceiling
  }

  predicate NeverBlind(b: Books, es: seq<Event>)
    decreases |es|
  {
    es == [] || (!Blind(b, es[0]) && NeverBlind(Step(b, es[0]), es[1..]))
  }

  lemma StepCoveredIff(b: Books, e: Event)
    requires Balanced(b) && Covered(b)
    ensures Covered(Step(b, e)) <==> !Blind(b, e)
  {
    hide Budgets, Usable, EachWithin, ReserveAgent, CallChild;
    if e.ParentCall? && BudgetLeft(b.ceiling, b.receipts, b.reserved) {
      ReserveFacts(b.(floor := b.receipts), b.receipts, e.request, e.budget, e.spawn);
    }
  }

  lemma StepNeverFrees(b: Books, e: Event)
    requires Balanced(b)
    ensures Step(b, e).receipts >= b.receipts && Step(b, e).reserved >= b.reserved
  {
    hide Budgets, Usable, EachWithin, ReserveAgent, CallChild;
    if e.ParentCall? && BudgetLeft(b.ceiling, b.receipts, b.reserved) {
      ReserveFacts(b.(floor := b.receipts), b.receipts, e.request, e.budget, e.spawn);
    }
  }

  lemma {:induction false} UncoveredStays(b: Books, es: seq<Event>)
    requires Balanced(b) && !Covered(b)
    ensures !Covered(Run(b, es))
    decreases |es|
  {
    hide Balanced, Step;
    if es != [] {
      StepBalanced(b, es[0]);
      StepNeverFrees(b, es[0]);
      UncoveredStays(Step(b, es[0]), es[1..]);
    }
  }

  lemma {:induction false} RunCoveredIff(b: Books, es: seq<Event>)
    requires Balanced(b) && Covered(b)
    ensures Covered(Run(b, es)) <==> NeverBlind(b, es)
    decreases |es|
  {
    hide Balanced, Covered, Step, Blind;
    if es != [] {
      StepBalanced(b, es[0]);
      StepCoveredIff(b, es[0]);
      if Covered(Step(b, es[0])) {
        RunCoveredIff(Step(b, es[0]), es[1..]);
      } else {
        UncoveredStays(Step(b, es[0]), es[1..]);
      }
    }
  }

  /** Over every run, used plus reserved stays within the ceiling exactly if no call of the run was blind to the ledger. */
  lemma ReservedCoveredIff(ceiling: int, es: seq<Event>)
    ensures Covered(Run(Opening(ceiling), es)) <==> NeverBlind(Opening(ceiling), es)
  {
    hide Run, NeverBlind, Balanced;
    OpensBalanced(ceiling);
    RunCoveredIff(Opening(ceiling), es);
  }

  /** Without a spawn that fails late while there is no binding file, no call is blind. */
  predicate NoEarlyLoss(b: Books, es: seq<Event>)
    decreases |es|
  {
    es == [] || (!(es[0].ParentCall? && es[0].agent && es[0].spawn.FailsLate? && !b.tracked) && NoEarlyLoss(Step(b, es[0]), es[1..]))
  }

  lemma StepTracks(b: Books, e: Event)
    requires b.tracked || b.reserved == 0
    requires !(e.ParentCall? && e.agent && e.spawn.FailsLate? && !b.tracked)
    ensures Step(b, e).tracked || Step(b, e).reserved == 0
  {
    hide Record, Recorded, Holds, CallChild;
  }

  lemma {:induction false} NoLossNeverBlind(b: Books, es: seq<Event>)
    requires (b.tracked || b.reserved == 0) && NoEarlyLoss(b, es)
    ensures NeverBlind(b, es)
    decreases |es|
  {
    hide Step;
    if es != [] {
      StepTracks(b, es[0]);
      NoLossNeverBlind(Step(b, es[0]), es[1..]);
    }
  }

  lemma RunThree(b: Books, e0: Event, e1: Event, e2: Event)
    ensures Run(b, [e0, e1, e2]) == Step(Step(Step(b, e0), e1), e2)
  {
    hide Step;
    assert [e0, e1, e2][1..] == [e1, e2] && [e1, e2][1..] == [e2];
    assert Run(Step(b, e0), [e1, e2]) == Run(Step(Step(b, e0), e1), [e2]) == Step(Step(Step(b, e0), e1), e2);
  }

  const LOST := ParentCall(true, "r", 1, true, FailsLate, true)
  const PLAIN := ParentCall(false, "", 0, true, FailsEarly, true)

  /** One lost reservation and two plain calls: two calls used and one reserved, of two. */
  lemma LostReservationIsOvercommitted()
    ensures var b := Run(Opening(2), [LOST, PLAIN, PLAIN]); b.receipts == 2 && b.reserved == 1 && !Covered(b)
  {
    RunThree(Opening(2), LOST, PLAIN, PLAIN);
    AfterLost();
  }

  lemma AfterLost()
    ensures Step(Opening(2), LOST) == Books(2, 0, 0, 1, false, [Child("r", 1, 0, false)])
  {
  }

  // ---- the evidence --------------------------------------------------------------------------

  /** The evidence shows what the books hold, and its clamps have not acted. */
  predicate Truthful(b: Books, o: Outcome) {
    o.evidence.Some? &&
    var ev := o.evidence.value;
    && ev.used == b.receipts && ev.reserved == o.books.reserved
    && ev.remainingBefore == Max(0, b.ceiling) - b.receipts - o.books.reserved
    && ev.remainingAfter == ev.remainingBefore - ev.amount
  }

  /** This call's spawn fails after a reservation that it made. */
  predicate LosesReservation(b: Books, e: Event) {
    && e.ParentCall? && e.agent && e.policyAllows && e.spawn.FailsLate? && e.budget > 0
    && BudgetLeft(b.ceiling, b.receipts, b.reserved) && ReservesNow(b, b.receipts, e.request, e.budget, e.spawn)
  }

  predicate Receipted(e: Event) {
    e.ParentCall? || e.UnboundCall?
  }

  lemma ParentEvidence(b: Books, e: Event)
    requires Balanced(b) && e.ParentCall?
    ensures var o := CallParent(b, e);
            && (o.evidence.None? <==> Synced(b, e) && b.receipts + b.reserved > b.ceiling)
            && (o.evidence.Some? ==>
                  && (Truthful(b, o) <==> if Synced(b, e) then !LosesReservation(b, e) else b.reserved == 0)
                  && (o.evidence.value.amount == 1 ==> o.evidence.value.remainingBefore >= 1))
            && (o.evidence.Some? && o.evidence.value.amount == 1 && Synced(b, e) && e.appended ==>
                  o.evidence.value.remainingAfter == Max(0, b.ceiling) - o.books.receipts - o.books.reserved)
  {
    hide Budgets, Usable, EachWithin, ReserveAgent, Holds, Recorded;
    var synced := b.(floor := b.receipts);
    if BudgetLeft(b.ceiling, b.receipts, b.reserved) {
      ReserveFacts(synced, b.receipts, e.request, e.budget, e.spawn);
      LateIsLost(synced, b.receipts, e.request, e.budget, e.spawn);
    }
  }

  lemma LateIsLost(b: Books, used: nat, request: string, budget: nat, spawn: Spawn)
    ensures var r := ReserveAgent(b, used, request, budget, spawn);
            && (ReservesNow(b, used, request, budget, spawn) ==> (r.ok <==> spawn.Succeeds?))
            && (r.ok ==> spawn.Succeeds?)
  {
    hide Record;
    RecordedIsHeld(b.children, request);
  }

  /**
   In every reachable state, and for every call that leaves a receipt on the parent's grant: the
   evidence shows the true balance exactly if the call was synchronized and did not lose a
   reservation, or nothing is reserved; a permitted call always had a call left for itself; and the
   hook denies by an exception exactly where a synchronized call finds the ceiling passed.
   */
  lemma EvidenceIsTrueBalanceIff(ceiling: int, es: seq<Event>, e: Event)
    requires Receipted(e)
    ensures var b := Run(Opening(ceiling), es); var o := Outcomes(b, e);
            && (o.evidence.None? <==> Synced(b, e) && !(b.receipts + b.reserved <= ceiling))
            && (o.evidence.Some? ==>
                  && (Truthful(b, o) <==> if Synced(b, e) then !LosesReservation(b, e) else b.reserved == 0)
                  && (o.evidence.value.amount == 1 ==> o.evidence.value.remainingBefore >= 1)
                  && (o.evidence.value.amount == 1 && Synced(b, e) && e.appended ==>
                        o.evidence.value.remainingAfter == Max(0, ceiling) - o.books.receipts - o.books.reserved))
  {
    hide Run, CallParent, Budgets, Usable, EachWithin, Truthful, LosesReservation;
    OpensBalanced(ceiling);
    RunBalanced(Opening(ceiling), es);
    var b := Run(Opening(ceiling), es);
    if e.ParentCall? { ParentEvidence(b, e); } else { UnboundEvidence(b); }
  }

  lemma UnboundEvidence(b: Books)
    requires Balanced(b)
    ensures CallUnbound(b).evidence.Some? && CallUnbound(b).evidence.value.amount == 0
    ensures Truthful(b, CallUnbound(b)) <==> b.reserved == 0
  {
    UsableWithinBudgets(b.children);
  }

  /** A lost reservation: the receipt of the denial shows nothing reserved, and the ledger holds one call. */
  lemma LostReservationIsNotShown()
    ensures var o := Outcomes(Opening(2), LOST);
            o.evidence.Some? && o.evidence.value.reserved == 0 && o.books.reserved == 1 && !Truthful(Opening(2), o)
  {
    AfterLost();
  }

  const SPAWNED := ParentCall(true, "r", 1, true, Succeeds, true)

  /** An unbound call under a reservation: its denial shows nothing reserved. */
  lemma UnboundCallIsNotShown()
    ensures var b := Step(Opening(3), SPAWNED);
            b.reserved == 1 && Outcomes(b, UnboundCall).evidence.Some? && Outcomes(b, UnboundCall).evidence.value.reserved == 0
            && !Truthful(b, Outcomes(b, UnboundCall))
  {
    var held := [Child("r", 1, 0, false)];
    assert Record(held, "r") == [Child("r", 1, 0, true)] by { assert held[1..] == []; }
  }
}
