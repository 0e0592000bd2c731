/** The sliding-window approval counter: a pruned queue that stands in for the whole history. */
module ApprovalRate {

  import opened Results
  import opened Text

  /** The queue without the times at or before the cutoff at its front. */
  function Pruned(times: seq<real>, cutoff: real): seq<real> {
    if times != [] && times[0] <= cutoff then Pruned(times[1..], cutoff) else times
  }

  function Queue(queues: map<string, seq<real>>, operator: string): seq<real> {
    if operator in queues then queues[operator] else []
  }

  /** `ApprovalRateTracker`. */
  class Tracker {
    const maxApprovals: int
    const window: real
    var queues: map<string, seq<real>>

    /** `__init__` for arguments it accepts. */
    constructor (maxApprovals: int, window: real)
      requires maxApprovals >= 1 && window > 0.0
      ensures this.maxApprovals == maxApprovals && this.window == window && queues == map[]
    {
      this.maxApprovals, this.window, queues := maxApprovals, window, map[];
    }

    /** `_prune_locked`: reading a queue creates it. */
    method Prune(operator: string, time: real) returns (times: seq<real>)
      modifies this
      ensures times == Pruned(Queue(old(queues), operator), time - window)
      ensures queues == old(queues)[operator := times]
    {
      var cutoff := time - window;
      times := Queue(queues, operator);
      ghost var all := times;
      while times != [] && times[0] <= cutoff
        invariant Pruned(times, cutoff) == Pruned(all, cutoff)
      {
        times := times[1..];
      }
      queues := queues[operator := times];
    }

    /** False where the operator id is refused. */
    method RecordApproval(operator: string, time: real) returns (ok: bool)
      modifies this
      ensures ok == (Strip(operator) != "")
      ensures queues == Recorded(window, old(queues), operator, time)
    {
      var normalized := Strip(operator);
      if normalized == "" { return false; }
      var times := Prune(normalized, time);
      queues := queues[normalized := times + [time]];
      return true;
    }

    /** Whether one more approval fits; None where the operator id is refused. */
    method Check(operator: string, time: real) returns (r: Option<bool>)
      modifies this
      ensures r.Some? == (Strip(operator) != "")
      ensures r.Some? ==> r.value == Fits(maxApprovals, window, old(queues), Strip(operator), time)
      ensures queues == Checked(window, old(queues), operator, time)
    {
      var normalized := Strip(operator);
      if normalized == "" { return None; }
      var times := Prune(normalized, time);
      return Some(|times| < maxApprovals);
    }
  }

  predicate Fits(maxApprovals: int, window: real, queues: map<string, seq<real>>, operator: string, time: real) {
    |Pruned(Queue(queues, operator), time - window)| < maxApprovals
  }

  function Checked(window: real, queues: map<string, seq<real>>, operator: string, time: real): map<string, seq<real>> {
    var op := Strip(operator);
    if op == "" then queues else queues[op := Pruned(Queue(queues, op), time - window)]
  }

  function Recorded(window: real, queues: map<string, seq<real>>, operator: string, time: real): map<string, seq<real>> {
    var op := Strip(operator);
    if op == "" then queues else queues[op := Pruned(Queue(queues, op), time - window) + [time]]
  }

  // ---- the full history ----------------------------------------------------------------------

  datatype Call = CheckCall(operator: string, time: real) | RecordCall(operator: string, time: real)

  function Run(window: real, calls: seq<Call>): map<string, seq<real>> {
    if calls == [] then map[]
    else
      var queues, last := Run(window, calls[..|calls| - 1]), calls[|calls| - 1];
      match last
      case CheckCall(operator, time) => Checked(window, queues, operator, time)
      case RecordCall(operator, time) => Recorded(window, queues, operator, time)
  }

  /** Every approval that was recorded for a normalized operator. */
  function History(calls: seq<Call>, op: string): seq<real> {
    if calls == [] then []
    else
      var last := calls[|calls| - 1];
      History(calls[..|calls| - 1], op) + if last.RecordCall? && Strip(last.operator) == op then [last.time] else []
  }

  /** The clock of an operator's calls never goes back. */
  predicate Forward(calls: seq<Call>, op: string) {
    forall i, j :: 0 <= i < j < |calls| && Strip(calls[i].operator) == op && Strip(calls[j].operator) == op ==>
      calls[i].time <= calls[j].time
  }

  /** No call of the operator is later than this. */
  predicate Before(calls: seq<Call>, op: string, time: real) {
    forall i :: 0 <= i < |calls| && Strip(calls[i].operator) == op ==> calls[i].time <= time
  }

  function CountIn(times: seq<real>, low: real, high: real): nat {
    if times == [] then 0
    else CountIn(times[..|times| - 1], low, high) + if low < times[|times| - 1] <= high then 1 else 0
  }

  predicate Ascending(times: seq<real>) {
    forall i, j :: 0 <= i < j < |times| ==> times[i] <= times[j]
  }

  /** What the queue has lost lies at or before a cutoff, and what it kept is the rest of the history in order. */
  ghost predicate Suffix(history: seq<real>, queue: seq<real>, cutoff: real) {
    && |queue| <= |history| && queue == history[|history| - |queue|..]
    && forall i :: 0 <= i < |history| - |queue| ==> history[i] <= cutoff
  }

  lemma {:induction false} PrunedSuffix(history: seq<real>, queue: seq<real>, cutoff: real)
    requires Suffix(history, queue, cutoff) && Ascending(history)
    ensures Suffix(history, Pruned(queue, cutoff), cutoff)
    ensures forall i :: 0 <= i < |Pruned(queue, cutoff)| ==> Pruned(queue, cutoff)[i] > cutoff
    decreases |queue|
  {
    if queue != [] && queue[0] <= cutoff {
      assert queue[0] == history[|history| - |queue|];
      assert queue[1..] == history[|history| - |queue| + 1..];
      PrunedSuffix(history, queue[1..], cutoff);
    } else if queue != [] {
      forall i | 0 <= i < |queue| ensures queue[i] > cutoff {
        assert queue[i] == history[|history| - |queue| + i] && queue[0] == history[|history| - |queue|];
      }
    }
  }

  lemma {:induction false} CountNone(times: seq<real>, low: real, high: real)
    requires forall i :: 0 <= i < |times| ==> times[i] <= low
    ensures CountIn(times, low, high) == 0
  {
    if times != [] { CountNone(times[..|times| - 1], low, high); }
  }

  lemma {:induction false} CountAll(times: seq<real>, low: real, high: real)
    requires forall i :: 0 <= i < |times| ==> low < times[i] <= high
    ensures CountIn(times, low, high) == |times|
  {
    if times != [] { CountAll(times[..|times| - 1], low, high); }
  }

  lemma {:induction false} CountConcat(a: seq<real>, b: seq<real>, low: real, high: real)
    ensures CountIn(a + b, low, high) == CountIn(a, low, high) + CountIn(b, low, high)
  {
    if b == [] {
      assert a + b == a;
    } else {
      assert (a + b)[..|a + b| - 1] == a + b[..|b| - 1];
      CountConcat(a, b[..|b| - 1], low, high);
    }
  }

  lemma {:induction false} HistoryAscending(calls: seq<Call>, op: string, time: real)
    requires Forward(calls, op) && Before(calls, op, time)
    ensures Ascending(History(calls, op)) && forall i :: 0 <= i < |History(calls, op)| ==> History(calls, op)[i] <= time
  {
    hide Strip;
    if calls != [] {
      var init, last := calls[..|calls| - 1], calls[|calls| - 1];
      assert calls == init + [last];
      if Strip(last.operator) == op {
        assert Before(init, op, last.time);
        HistoryAscending(init, op, last.time);
      } else {
        HistoryAscending(init, op, time);
      }
    }
  }

  lemma PrefixOrder(calls: seq<Call>, op: string)
    requires calls != [] && Forward(calls, op)
    ensures Forward(calls[..|calls| - 1], op)
    ensures Strip(calls[|calls| - 1].operator) == op ==> Before(calls[..|calls| - 1], op, calls[|calls| - 1].time)
  {
    hide Strip;
  }

  lemma PrefixBefore(calls: seq<Call>, op: string, time: real)
    requires calls != [] && Before(calls, op, time)
    ensures Before(calls[..|calls| - 1], op, time)
    ensures Strip(calls[|calls| - 1].operator) == op ==> calls[|calls| - 1].time <= time
  {
    hide Strip;
  }

  lemma SuffixAppend(history: seq<real>, queue: seq<real>, cutoff: real, time: real)
    requires Suffix(history, queue, cutoff)
    ensures Suffix(history + [time], queue + [time], cutoff)
  {
  }

  lemma SuffixLater(history: seq<real>, queue: seq<real>, cutoff: real, later: real)
    requires Suffix(history, queue, cutoff) && cutoff <= later
    ensures Suffix(history, queue, later)
  {
  }

  /** At every time not before the last call, the queue is the history less what that time's window has left behind. */
  lemma {:induction false} QueueIsSuffix(window: real, calls: seq<Call>, op: string, time: real)
    requires Forward(calls, op) && Before(calls, op, time) && op != ""
    ensures Suffix(History(calls, op), Queue(Run(window, calls), op), time - window)
  {
    hide Strip, Pruned, Suffix, Forward, Before, Ascending;
    if calls == [] {
      assert Suffix([], [], time - window) by { NothingIsSuffix(time - window); }
    } else {
      var init, last := calls[..|calls| - 1], calls[|calls| - 1];
      PrefixOrder(calls, op);
      PrefixBefore(calls, op, time);
      var history, queue := History(init, op), Queue(Run(window, init), op);
      assert history + [] == history;
      if Strip(last.operator) == op {
        QueueIsSuffix(window, init, op, last.time);
        HistoryAscending(init, op, last.time);
        PrunedSuffix(history, queue, last.time - window);
        SuffixAppend(history, Pruned(queue, last.time - window), last.time - window, last.time);
        SuffixLater(History(calls, op), Queue(Run(window, calls), op), last.time - window, time - window);
      } else {
        QueueIsSuffix(window, init, op, time);
      }
    }
  }

  lemma NothingIsSuffix(cutoff: real)
    ensures Suffix([], [], cutoff)
  {
  }

  /** Refinement: the pruned queue answers exactly as a count over the whole history in the window that ends now would. */
  lemma CheckCountsHistory(window: real, maxApprovals: int, calls: seq<Call>, op: string, time: real)
    requires Forward(calls, op) && Before(calls, op, time) && op != ""
    ensures Fits(maxApprovals, window, Run(window, calls), op, time)
            <==> CountIn(History(calls, op), time - window, time) < maxApprovals
  {
    hide Strip, Pruned, Run, History, Forward, Before;
    var history, queue, low := History(calls, op), Queue(Run(window, calls), op), time - window;
    QueueIsSuffix(window, calls, op, time);
    HistoryAscending(calls, op, time);
    PrunedSuffix(history, queue, low);
    var kept := Pruned(queue, low);
    var lost := history[..|history| - |kept|];
    assert history == lost + kept;
    CountConcat(lost, kept, low, time);
    CountNone(lost, low, time);
    forall i | 0 <= i < |kept| ensures kept[i] <= time { assert kept[i] == history[|history| - |kept| + i]; }
    CountAll(kept, low, time);
  }

  // ---- the bound ------------------------------------------------------------------------------

  /** Every approval is recorded only where a check at the same time has just said yes. */
  predicate Gated(window: real, maxApprovals: int, calls: seq<Call>) {
    forall i :: 0 <= i < |calls| && calls[i].RecordCall? && Strip(calls[i].operator) != "" ==>
      Fits(maxApprovals, window, Run(window, calls[..i]), Strip(calls[i].operator), calls[i].time)
  }

  lemma {:induction false} CountNarrower(times: seq<real>, low: real, high: real, low': real, high': real)
    requires low' <= low && forall i :: 0 <= i < |times| ==> times[i] <= high'
    ensures CountIn(times, low, high) <= CountIn(times, low', high')
  {
    if times != [] { CountNarrower(times[..|times| - 1], low, high, low', high'); }
  }

  lemma GatedPrefix(window: real, maxApprovals: int, calls: seq<Call>)
    requires calls != [] && Gated(window, maxApprovals, calls)
    ensures Gated(window, maxApprovals, calls[..|calls| - 1])
  {
    hide Strip, Fits, Run;
    var init := calls[..|calls| - 1];
    forall i | 0 <= i < |init| && init[i].RecordCall? && Strip(init[i].operator) != ""
      ensures Fits(maxApprovals, window, Run(window, init[..i]), Strip(init[i].operator), init[i].time)
    {
      assert init[i] == calls[i] && init[..i] == calls[..i];
    }
  }

  /** Over every gated run, no half-open window of the configured length, wherever it starts, holds more approvals of an operator than the maximum. */
  lemma {:induction false} NoWindowExceeds(window: real, maxApprovals: int, calls: seq<Call>, op: string, start: real)
    requires window > 0.0 && maxApprovals >= 1 && op != "" && Forward(calls, op) && Gated(window, maxApprovals, calls)
    ensures CountIn(History(calls, op), start, start + window) <= maxApprovals
    decreases |calls|
  {
    hide Strip, Fits, Run, Forward, Before, Gated, Ascending;
    if calls != [] {
      var init, last := calls[..|calls| - 1], calls[|calls| - 1];
      GatedPrefix(window, maxApprovals, calls);
      PrefixOrder(calls, op);
      NoWindowExceeds(window, maxApprovals, init, op, start);
      var before := History(init, op);
      assert before + [] == before && (before + [last.time])[..|before|] == before;
      if last.RecordCall? && Strip(last.operator) == op && start < last.time <= start + window {
        GatedLast(window, maxApprovals, calls);
        CheckCountsHistory(window, maxApprovals, init, op, last.time);
        HistoryAscending(init, op, last.time);
        CountNarrower(before, start, start + window, last.time - window, last.time);
      }
    }
  }

  lemma GatedLast(window: real, maxApprovals: int, calls: seq<Call>)
    requires calls != [] && Gated(window, maxApprovals, calls)
    requires calls[|calls| - 1].RecordCall? && Strip(calls[|calls| - 1].operator) != ""
    ensures Fits(maxApprovals, window, Run(window, calls[..|calls| - 1]), Strip(calls[|calls| - 1].operator), calls[|calls| - 1].time)
  {
    hide Strip, Fits, Run;
  }

  // ---- and its converse -----------------------------------------------------------------------

  ghost predicate AllForward(calls: seq<Call>) {
    forall op :: op != "" ==> Forward(calls, op)
  }

  function InWindow(times: seq<real>, start: real, window: real): nat {
    CountIn(times, start, start + window)
  }

  /** No window of the configured length, of any operator and wherever it starts, holds more than the maximum. */
  ghost predicate NoWindowOver(window: real, maxApprovals: int, calls: seq<Call>) {
    forall op, start :: op != "" ==> InWindow(History(calls, op), start, window) <= maxApprovals
  }

  lemma {:induction false} HistoryPrefix(calls: seq<Call>, op: string, i: nat)
    requires i <= |calls|
    ensures History(calls[..i], op) <= History(calls, op)
    decreases |calls|
  {
    hide Strip;
    if i == |calls| {
      assert calls[..i] == calls;
    } else {
      var init := calls[..|calls| - 1];
      assert init[..i] == calls[..i];
      HistoryPrefix(init, op, i);
    }
  }

  lemma CountPrefix(a: seq<real>, b: seq<real>, low: real, high: real)
    requires a <= b
    ensures CountIn(a, low, high) <= CountIn(b, low, high)
  {
    hide CountIn;
    assert b == a + b[|a|..];
    CountConcat(a, b[|a|..], low, high);
  }

  /** A record made where the check says no leaves a window that is over. */
  lemma UngatedIsOver(window: real, maxApprovals: int, calls: seq<Call>, i: nat)
    requires window > 0.0 && i < |calls| && calls[i].RecordCall? && Strip(calls[i].operator) != ""
    requires Forward(calls, Strip(calls[i].operator))
    requires !Fits(maxApprovals, window, Run(window, calls[..i]), Strip(calls[i].operator), calls[i].time)
    ensures var op, t := Strip(calls[i].operator), calls[i].time;
            InWindow(History(calls, op), t - window, window) > maxApprovals
  {
    hide Strip, Fits, Run, CountIn;
    var op, t, before, upto := Strip(calls[i].operator), calls[i].time, calls[..i], calls[..i + 1];
    assert upto[..i] == before && upto[i] == calls[i];
    assert Forward(before, op) && Before(before, op, t);
    CheckCountsHistory(window, maxApprovals, before, op, t);
    assert History(upto, op) == History(before, op) + [t];
    CountConcat(History(before, op), [t], t - window, t);
    assert CountIn([t], t - window, t) == 1 by { CountOne(t, t - window, t); }
    HistoryPrefix(calls, op, i + 1);
    CountPrefix(History(upto, op), History(calls, op), t - window, t);
  }

  lemma CountOne(t: real, low: real, high: real)
    requires low < t <= high
    ensures CountIn([t], low, high) == 1
  {
    assert [t][..0] == [];
  }

  /** Recording only where a check at the same time has just said yes is exactly what keeps every window within the maximum. */
  lemma GatedIffNoWindowOver(window: real, maxApprovals: int, calls: seq<Call>)
    requires window > 0.0 && maxApprovals >= 1 && AllForward(calls)
    ensures Gated(window, maxApprovals, calls) <==> NoWindowOver(window, maxApprovals, calls)
  {
    hide Strip, Fits, Run, CountIn, History, Forward;
    if Gated(window, maxApprovals, calls) {
      forall op, start | op != "" ensures InWindow(History(calls, op), start, window) <= maxApprovals {
        NoWindowExceeds(window, maxApprovals, calls, op, start);
      }
    } else {
      var i :| 0 <= i < |calls| && calls[i].RecordCall? && Strip(calls[i].operator) != ""
               && !Fits(maxApprovals, window, Run(window, calls[..i]), Strip(calls[i].operator), calls[i].time);
      UngatedIsOver(window, maxApprovals, calls, i);
      var op, start := Strip(calls[i].operator), calls[i].time - window;
      assert InWindow(History(calls, op), start, window) > maxApprovals;
    }
  }

  /** The run that two threads can produce: both checks say yes before either record, and the window holds one approval too many. */
  lemma ChecksBeforeRecords(window: real, op: string, t: real)
    requires window > 0.0 && op != "" && Strip(op) == op
    ensures var c, r := CheckCall(op, t), RecordCall(op, t);
            && Fits(1, window, Run(window, []), op, t) && Fits(1, window, Run(window, [c]), op, t)
            && CountIn(History([c, c, r, r], op), t - window, t) == 2
  {
    hide Strip;
    var c, r := CheckCall(op, t), RecordCall(op, t);
    assert Pruned([], t - window) == [];
    RunOne(window, c);
    assert [c, c, r, r] == [] + [c] + [c] + [r] + [r];
    HistoryMore([], c, op);
    HistoryMore([] + [c], c, op);
    HistoryMore([] + [c] + [c], r, op);
    HistoryMore([] + [c] + [c] + [r], r, op);
    assert History([c, c, r, r], op) == [t, t];
    CountAll([t, t], t - window, t);
  }

  /** The run of a clock that goes back: a later time prunes what an earlier one still counts, and a gated run overfills a window. */
  lemma BackwardClockOverfills(op: string)
    requires op != "" && Strip(op) == op
    ensures var calls := [RecordCall(op, 10.0), RecordCall(op, 11.0), RecordCall(op, 75.0), RecordCall(op, 20.0)];
            Gated(60.0, 2, calls) && InWindow(History(calls, op), 9.5, 60.0) == 3
  {
    hide Strip, Run, History, CountIn, Pruned;
    var r0, r1, r2, r3 := RecordCall(op, 10.0), RecordCall(op, 11.0), RecordCall(op, 75.0), RecordCall(op, 20.0);
    var calls := [r0, r1, r2, r3];
    BackwardQueues(op, calls);
    forall i | 0 <= i < |calls| ensures Fits(2, 60.0, Run(60.0, calls[..i]), op, calls[i].time) {
      BackwardPrunes();
    }
    BackwardCount(op, calls);
  }

  lemma BackwardPrunes()
    ensures Pruned([], -50.0) == [] && Pruned([10.0], -49.0) == [10.0] && Pruned([10.0, 11.0], 15.0) == [] && Pruned([75.0], -40.0) == [75.0]
  {
    assert [10.0, 11.0][1..] == [11.0] && [11.0][1..] == [];
    assert Pruned([11.0], 15.0) == [];
  }

  lemma BackwardQueues(op: string, calls: seq<Call>)
    requires op != "" && Strip(op) == op
    requires calls == [RecordCall(op, 10.0), RecordCall(op, 11.0), RecordCall(op, 75.0), RecordCall(op, 20.0)]
    ensures Queue(Run(60.0, calls[..0]), op) == [] && Queue(Run(60.0, calls[..1]), op) == [10.0]
    ensures Queue(Run(60.0, calls[..2]), op) == [10.0, 11.0] && Queue(Run(60.0, calls[..3]), op) == [75.0]
  {
    hide Strip, Pruned;
    BackwardPrunes();
    assert calls[..0] == [] && calls[..1] == [] + [calls[0]] && calls[..2] == calls[..1] + [calls[1]] && calls[..3] == calls[..2] + [calls[2]];
    RecordMore(60.0, [], calls[0], op);
    RecordMore(60.0, calls[..1], calls[1], op);
    RecordMore(60.0, calls[..2], calls[2], op);
  }

  lemma RecordMore(window: real, calls: seq<Call>, call: Call, op: string)
    requires call.RecordCall? && op != "" && Strip(call.operator) == op
    ensures Queue(Run(window, calls + [call]), op) == Pruned(Queue(Run(window, calls), op), call.time - window) + [call.time]
  {
    hide Strip, Pruned;
    assert (calls + [call])[..|calls|] == calls;
  }

  lemma BackwardCount(op: string, calls: seq<Call>)
    requires Strip(op) == op
    requires calls == [RecordCall(op, 10.0), RecordCall(op, 11.0), RecordCall(op, 75.0), RecordCall(op, 20.0)]
    ensures InWindow(History(calls, op), 9.5, 60.0) == 3
  {
    hide Strip;
    assert calls == [] + [calls[0]] + [calls[1]] + [calls[2]] + [calls[3]];
    HistoryMore([], calls[0], op);
    HistoryMore([] + [calls[0]], calls[1], op);
    HistoryMore([] + [calls[0]] + [calls[1]], calls[2], op);
    HistoryMore([] + [calls[0]] + [calls[1]] + [calls[2]], calls[3], op);
    assert History(calls, op) == [10.0, 11.0] + ([75.0] + [20.0]);
    CountAll([10.0, 11.0], 9.5, 69.5);
    CountConcat([75.0], [20.0], 9.5, 69.5);
    CountConcat([10.0, 11.0], [75.0] + [20.0], 9.5, 69.5);
    CountOne(20.0, 9.5, 69.5);
    assert [75.0][..0] == [] && CountIn([75.0], 9.5, 69.5) == 0;
  }

  lemma HistoryMore(calls: seq<Call>, call: Call, op: string)
    ensures History(calls + [call], op) == History(calls, op) + if call.RecordCall? && Strip(call.operator) == op then [call.time] else []
  {
    hide Strip;
    assert (calls + [call])[..|calls|] == calls;
  }

  lemma RunOne(window: real, call: Call)
    requires call.CheckCall?
    ensures Run(window, [call]) == Checked(window, map[], call.operator, call.time)
  {
    hide Strip, Checked;
    assert [call][..0] == [];
  }
}
