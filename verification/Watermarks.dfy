/** High and low watermarks of an event queue, checked by the dispatch loop between
    one event and the next while other threads enqueue. */
module Watermarks {

  datatype Note = High | Low

  datatype Pc = AtCheck | AtDispatch

  /** `count` is the semaphore's value; `notes` are the notifications given. */
  datatype State = State(count: nat, mHighWaterFired: bool, mLowWatermark: nat, mHighWatermark: nat, pc: Pc,
                         notes: seq<Note>)

  datatype Step = Enqueue | Check | DispatchOne | DispatchTimeout | SetLow(mark: nat) | SetHigh(mark: nat)

  /** A fired queue notifies at the low mark exactly, one that has not fired at or
      above the high mark. */
  function Checked(fired: bool, low: nat, high: nat, count: nat): (bool, seq<Note>) {
    if fired then (count != low, if count == low then [Low] else [])
    else (count >= high, if count >= high then [High] else [])
  }

  predicate Enabled(s: State, step: Step) {
    match step
    case Enqueue => true
    case Check => s.pc.AtCheck?
    case DispatchOne => s.pc.AtDispatch? && s.count > 0
    case DispatchTimeout => s.pc.AtDispatch?
    case SetLow(mark) => mark > 0
    case SetHigh(mark) => mark > 0
  }

  function Apply(s: State, step: Step): State {
    match step
    case Enqueue => s.(count := s.count + 1)
    case Check =>
      var (fired, notes) := Checked(s.mHighWaterFired, s.mLowWatermark, s.mHighWatermark, s.count);
      s.(mHighWaterFired := fired, notes := s.notes + notes, pc := AtDispatch)
    case DispatchOne => s.(count := if s.count > 0 then s.count - 1 else 0, pc := AtCheck)
    case DispatchTimeout => s.(pc := AtCheck)
    case SetLow(mark) => s.(mLowWatermark := mark)
    case SetHigh(mark) => s.(mHighWatermark := mark)
  }

  predicate IsRun(low: nat, high: nat, states: seq<State>, steps: seq<Step>) {
    && |states| == |steps| + 1 && states[0] == State(0, false, low, high, AtCheck, [])
    && forall k | 0 <= k < |steps| :: Enabled(states[k], steps[k]) && states[k + 1] == Apply(states[k], steps[k])
  }

  predicate FixedMarks(steps: seq<Step>) {
    forall k | 0 <= k < |steps| :: !steps[k].SetLow? && !steps[k].SetHigh?
  }

  // ---- alternation ----

  predicate Alternates(notes: seq<Note>) {
    forall i | 0 <= i < |notes| :: notes[i] == if i % 2 == 0 then High else Low
  }

  /** Over every run, whatever the marks and however they are changed, notifications
      alternate, starting with high. */
  lemma {:induction false} NotificationsAlternate(low: nat, high: nat, states: seq<State>, steps: seq<Step>, k: nat)
    requires IsRun(low, high, states, steps) && k < |states|
    ensures Alternates(states[k].notes)
    ensures states[k].mHighWaterFired <==> |states[k].notes| % 2 == 1
  {
    if k > 0 {
      NotificationsAlternate(low, high, states, steps, k - 1);
    }
  }

  // ---- the low mark is not skipped ----

  /** A check that finds a fired queue at or below the low mark finds it at the mark. */
  predicate NotSkipped(s: State, step: Step) {
    step.Check? && s.mHighWaterFired && s.count <= s.mLowWatermark ==> s.count == s.mLowWatermark
  }

  ghost predicate NeverSkips(low: nat, high: nat) {
    forall states, steps, k | IsRun(low, high, states, steps) && FixedMarks(steps) && 0 <= k < |steps| ::
      NotSkipped(states[k], steps[k])
  }

  /** Between two checks at most one event leaves, so a fired queue is above the low
      mark when it is dispatched and not below it when it is checked. */
  lemma {:induction false} AboveLow(low: nat, high: nat, states: seq<State>, steps: seq<Step>, k: nat)
    requires IsRun(low, high, states, steps) && FixedMarks(steps) && k < |states| && low < high
    ensures var s := states[k];
            && s.mLowWatermark == low && s.mHighWatermark == high
            && (s.mHighWaterFired ==> s.count >= if s.pc.AtCheck? then low else low + 1)
  {
    if k > 0 {
      AboveLow(low, high, states, steps, k - 1);
      assert !steps[k - 1].SetLow? && !steps[k - 1].SetHigh?;
    }
  }

  /** Hysteresis. In every run with fixed marks, the low one below the high one, a check
      fires an unfired queue if and only if it has at least the high mark, and clears a
      fired one if and only if it is down to the low mark; it notifies what it changes and
      nothing else. */
  lemma {:induction false} Hysteresis(low: nat, high: nat, states: seq<State>, steps: seq<Step>, k: nat)
    requires IsRun(low, high, states, steps) && FixedMarks(steps) && k < |steps| && low < high && steps[k].Check?
    ensures var s, s' := states[k], states[k + 1];
            && (!s.mHighWaterFired ==> (s'.mHighWaterFired <==> s.count >= high))
            && (s.mHighWaterFired ==> (s'.mHighWaterFired <==> s.count > low))
            && s'.notes == s.notes + (if s'.mHighWaterFired == s.mHighWaterFired then []
                                      else if s'.mHighWaterFired then [High] else [Low])
  {
    AboveLow(low, high, states, steps, k);
  }

  /** So between the check and the next one the flag says where the queue is: a fired queue
      is above the low mark, an unfired one was below the high mark when it was checked. */
  lemma {:induction false} CheckSettles(low: nat, high: nat, states: seq<State>, steps: seq<Step>, k: nat)
    requires IsRun(low, high, states, steps) && FixedMarks(steps) && k < |steps| && low < high && steps[k].Check?
    ensures var s, s' := states[k], states[k + 1];
            && (s.count >= high ==> s'.mHighWaterFired)
            && (s.count <= low ==> !s'.mHighWaterFired)
            && s'.count == s.count
  {
    Hysteresis(low, high, states, steps, k);
  }

  ghost predicate Reachable(low: nat, high: nat, s: State) {
    exists states, steps :: IsRun(low, high, states, steps) && FixedMarks(steps) && states[|steps|] == s
  }

  lemma {:induction false} Take(low: nat, high: nat, s: State, step: Step)
    requires Reachable(low, high, s) && Enabled(s, step) && !step.SetLow? && !step.SetHigh?
    ensures Reachable(low, high, Apply(s, step))
  {
    var states, steps :| IsRun(low, high, states, steps) && FixedMarks(steps) && states[|steps|] == s;
    var s' := Apply(s, step);
    assert IsRun(low, high, states + [s'], steps + [step]) && FixedMarks(steps + [step]);
    assert (states + [s'])[|steps + [step]|] == s';
  }

  lemma {:induction false} ReachCount(low: nat, high: nat, n: nat)
    ensures Reachable(low, high, State(n, false, low, high, AtCheck, []))
  {
    if n == 0 {
      var none: seq<Step> := [];
      var s := State(0, false, low, high, AtCheck, []);
      assert IsRun(low, high, [s], none) && FixedMarks(none) && [s][|none|] == s;
    } else {
      ReachCount(low, high, n - 1);
      Take(low, high, State(n - 1, false, low, high, AtCheck, []), Enqueue);
    }
  }

  /** With the low mark not below the high one, the queue fires at the high mark and is
      below the low mark at the next check. */
  lemma {:induction false} SkipsIfCrossed(low: nat, high: nat) returns (s: State)
    requires 0 < low && high <= low
    ensures Reachable(low, high, s) && Enabled(s, Check) && !NotSkipped(s, Check)
  {
    ReachCount(low, high, high);
    var s0 := State(high, false, low, high, AtCheck, []);
    Take(low, high, s0, Check);
    var s1 := Apply(s0, Check);
    assert s1.mHighWaterFired && s1.count == high;
    var leave := if high == 0 then DispatchTimeout else DispatchOne;
    Take(low, high, s1, leave);
    s := Apply(s1, leave);
  }

  /** The equality test on the low mark never misses it if and only if the low mark is
      below the high one, or is zero. */
  lemma {:induction false} NeverSkipsExactly(low: nat, high: nat)
    ensures NeverSkips(low, high) <==> low < high || low == 0
  {
    if low < high || low == 0 {
      forall states, steps, k | IsRun(low, high, states, steps) && FixedMarks(steps) && 0 <= k < |steps|
        ensures NotSkipped(states[k], steps[k])
      {
        if low < high {
          AboveLow(low, high, states, steps, k);
        } else {
          LowMarkFixed(low, high, states, steps, k);
        }
      }
    } else {
      var s := SkipsIfCrossed(low, high);
      var states, steps :| IsRun(low, high, states, steps) && FixedMarks(steps) && states[|steps|] == s;
      var more, path := steps + [Check], states + [Apply(s, Check)];
      assert IsRun(low, high, path, more) && FixedMarks(more);
      assert path[|steps|] == s && more[|steps|] == Check;
    }
  }

  lemma {:induction false} LowMarkFixed(low: nat, high: nat, states: seq<State>, steps: seq<Step>, k: nat)
    requires IsRun(low, high, states, steps) && FixedMarks(steps) && k < |states|
    ensures states[k].mLowWatermark == low
  {
    if k > 0 {
      LowMarkFixed(low, high, states, steps, k - 1);
      assert !steps[k - 1].SetLow?;
    }
  }
}
