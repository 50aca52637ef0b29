/** What a timer that fires does, until it is destroyed: each firing queues a tick, each
    tick runs the action, and the timer fires again. */
module TimerEffects {
  import opened Common
  import opened Timer

  /** The number of ticks among the events. */
  function Ticks(events: seq<Event>): nat {
    if events == [] then 0 else (if events[0].Tick? then 1 else 0) + Ticks(events[1..])
  }

  lemma {:induction false} TicksAppended(events: seq<Event>, e: Event)
    ensures Ticks(events + [e]) == Ticks(events) + if e.Tick? then 1 else 0
  {
    if events == [] {
      assert events + [e] == [e];
    } else {
      assert (events + [e])[1..] == events[1..] + [e];
      TicksAppended(events[1..], e);
    }
  }

  /** A firing that has passed its test of the flag and not yet come to the queue. */
  function UnderWay(s: State): nat {
    if s.heap.Unflagged? || s.heap.Resetting? || s.heap.Queueing? then 1 else 0
  }

  /** Every firing is accounted for, and every tick dispatched while there is an action. */
  predicate TallyInv(s: State) {
    && s.tally.passed == UnderWay(s) + s.tally.dropped + Ticks(s.events) + s.tally.ticks
    && s.tally.actions <= s.tally.ticks && (s.mAction ==> s.tally.actions == s.tally.ticks)
  }

  /** Until destroy begins there is an action, and an element that can fire, except while
      the callback replaces it. */
  predicate ArmedInv(s: State) {
    && s.mDestroying == s.destroyCalled && (InDestroy(s.queue) ==> s.destroyCalled)
    && (!s.destroyCalled ==> s.mAction)
    && (!s.destroyCalled && (s.heap.HeapIdle? || s.heap.Queueing?) ==>
          s.mTimerElement.Some? && s.mTimerElement.value in s.armed)
  }

  predicate EffectInv(s: State) {
    TallyInv(s) && ArmedInv(s)
  }

  /** One more firing has passed its test and is under way. */
  lemma {:induction false} PassTally(s: State, s': State)
    requires TallyInv(s) && UnderWay(s) == 0 && UnderWay(s') == 1 && s'.events == s.events && s'.mAction == s.mAction
    requires s'.tally == s.tally.(passed := s.tally.passed + 1)
    ensures TallyInv(s')
  {
  }

  lemma {:induction false} FlagTally(s: State)
    requires TallyInv(s) && s.heap.Fired?
    ensures TallyInv(ActCallback(s, HeapReadFlag))
  {
    var s' := ActCallback(s, HeapReadFlag);
    if s.mDestroying {
      assert s'.tally == s.tally && UnderWay(s') == 0;
    } else {
      PassTally(s, s');
    }
  }

  lemma {:induction false} MiddleTally(s: State, step: Step)
    requires TallyInv(s) && Enabled(s, step) && (step.Fire? || step.HeapResetReadFlag? || step.HeapReset?)
    ensures TallyInv(ActCallback(s, step))
  {
  }

  lemma {:induction false} EnqueueTally(s: State)
    requires TallyInv(s) && s.heap.Queueing?
    ensures TallyInv(ActCallback(s, HeapEnqueue))
  {
    TicksAppended(s.events, Tick);
  }

  lemma {:induction false} CallbackTally(s: State, step: Step)
    requires TallyInv(s) && Enabled(s, step) && PartOf(step).Callback?
    ensures TallyInv(ActCallback(s, step))
  {
    match step
    case HeapReadFlag => FlagTally(s);
    case HeapEnqueue => EnqueueTally(s);
    case Fire(_) => MiddleTally(s, step);
    case HeapResetReadFlag => MiddleTally(s, step);
    case HeapReset => MiddleTally(s, step);
  }

  lemma {:induction false} CallbackArmed(s: State, step: Step)
    requires ArmedInv(s) && Enabled(s, step) && PartOf(step).Callback?
    ensures ArmedInv(ActCallback(s, step))
  {
  }

  lemma {:induction false} ResetEffect(s: State, step: Step)
    requires EffectInv(s) && Enabled(s, step) && (PartOf(step).Reset? || PartOf(step).Foreign?)
    ensures EffectInv(if PartOf(step).Reset? then ActReset(s, step) else ActForeign(s, step))
  {
  }

  lemma {:induction false} DestroyEffect(s: State, step: Step)
    requires EffectInv(s) && Enabled(s, step) && PartOf(step).Destroy?
    ensures EffectInv(ActDestroy(s, step))
  {
    TicksAppended(s.events, DestroyEvent);
  }

  lemma {:induction false} QueueEffect(s: State, step: Step)
    requires EffectInv(s) && Enabled(s, step) && PartOf(step).Queue?
    ensures EffectInv(ActQueue(s, step))
  {
    TicksAppended(s.events, Other);
  }

  lemma {:induction false} EffectAct(s: State, step: Step)
    requires EffectInv(s) && Enabled(s, step)
    ensures EffectInv(Act(s, step))
  {
    match PartOf(step)
    case Callback => CallbackTally(s, step); CallbackArmed(s, step);
    case Reset => ResetEffect(s, step);
    case Foreign => ResetEffect(s, step);
    case Destroy => DestroyEffect(s, step);
    case Queue => QueueEffect(s, step);
  }

  lemma {:induction false} Recorded(s: State, used: bool)
    requires EffectInv(s)
    ensures EffectInv(s.(useAfterFree := used))
  {
  }

  lemma {:induction false} EffectStep(s: State, step: Step)
    requires EffectInv(s) && Enabled(s, step)
    ensures EffectInv(Apply(s, step))
  {
    EffectAct(s, step);
    Recorded(Act(s, step), s.useAfterFree || (s.freed && Touches(s, step)));
  }

  lemma {:induction false} EffectHolds(states: seq<State>, steps: seq<Step>, k: nat)
    requires IsRun(true, states, steps) && k < |states|
    ensures EffectInv(states[k])
  {
    if k > 0 {
      EffectHolds(states, steps, k - 1);
      EffectStep(states[k - 1], steps[k - 1]);
    }
  }

  // ---- main results ----

  /** No firing is lost. In every state of every run, resets on other threads included, the
      firings that found the timer not being destroyed, less the one that may be under way
      and those that an inactive queue dropped, are the ticks queued and the ticks
      dispatched. */
  lemma {:induction false} TicksConserved(states: seq<State>, steps: seq<Step>, k: nat)
    requires IsRun(true, states, steps) && k < |states|
    ensures var s := states[k];
            s.tally.passed - UnderWay(s) - s.tally.dropped == Ticks(s.events) + s.tally.ticks
  {
    EffectHolds(states, steps, k);
  }

  /** Every tick dispatched before destroy silences the timer runs the action, and none
      after. */
  lemma {:induction false} ActionsFollowTicks(states: seq<State>, steps: seq<Step>, k: nat)
    requires IsRun(true, states, steps) && k < |states|
    ensures states[k].mAction ==> states[k].tally.actions == states[k].tally.ticks
    ensures !states[k].destroyCalled ==> states[k].mAction
  {
    EffectHolds(states, steps, k);
  }

  lemma {:induction false} Silenced(states: seq<State>, steps: seq<Step>, k: nat, later: nat)
    requires IsRun(true, states, steps) && k <= later < |states| && !states[k].mAction
    ensures !states[later].mAction && states[later].tally.actions == states[k].tally.actions
    decreases later
  {
    if later > k {
      Silenced(states, steps, k, later - 1);
      StaysSilent(states[later - 1], steps[later - 1]);
    }
  }

  lemma {:induction false} ActsSilently(s: State, step: Step)
    requires Enabled(s, step) && !s.mAction
    ensures !Act(s, step).mAction && Act(s, step).tally.actions == s.tally.actions
  {
    match PartOf(step)
    case Callback => assert Act(s, step) == ActCallback(s, step);
    case Reset => assert Act(s, step) == ActReset(s, step);
    case Foreign => assert Act(s, step) == ActForeign(s, step);
    case Destroy => assert Act(s, step) == ActDestroy(s, step);
    case Queue => assert Act(s, step) == ActQueue(s, step);
  }

  lemma {:induction false} StaysSilent(s: State, step: Step)
    requires Enabled(s, step) && !s.mAction
    ensures !Apply(s, step).mAction && Apply(s, step).tally.actions == s.tally.actions
  {
    ActsSilently(s, step);
    assert Apply(s, step).tally == Act(s, step).tally && Apply(s, step).mAction == Act(s, step).mAction;
  }

  /** The timer stays armed. In every state of every run in which destroy has not been
      called and the heap's thread is idle, the timer's element can fire as soon as nobody
      holds the lock. */
  lemma {:induction false} StaysArmed(states: seq<State>, steps: seq<Step>, k: nat)
    requires IsRun(true, states, steps) && k < |states|
    requires !states[k].destroyCalled && states[k].heap.HeapIdle?
    ensures var s := states[k];
            && s.mTimerElement.Some? && s.mTimerElement.value in s.armed
            && (s.lock.Nobody? ==> Enabled(s, Fire(s.mTimerElement.value)))
  {
    EffectHolds(states, steps, k);
  }

  /** A reset replaces the element. In every run, each reset of the queue's thread, of
      another thread or of the callback that gets to its critical section leaves a new
      element, allocated and armed, and no other, if there was no other before. */
  lemma {:induction false} ResetReplaces(states: seq<State>, steps: seq<Step>, k: nat)
    requires IsRun(true, states, steps) && k < |steps|
    requires steps[k].ResetSwap? || steps[k].ForeignSwap? || steps[k].HeapReset?
    ensures var s, s' := states[k], states[k + 1];
            && s'.mTimerElement == Some(s.created) && s'.created == s.created + 1
            && s.created in s'.live && s.created in s'.armed
            && (s.mTimerElement.Some? && s.mTimerElement.value < s.created && s.live <= {s.mTimerElement.value} ==>
                  s'.live == {s.created})
  {
    var s := states[k];
    SwapReplaces(s);
    match steps[k]
    case ResetSwap => assert ActReset(s, ResetSwap) == Swap(s).(queue := ResetDone);
    case ForeignSwap => assert ActForeign(s, ForeignSwap) == Swap(s).(foreign := ForeignDone);
    case HeapReset => assert ActCallback(s, HeapReset) == Swap(s).(heap := Queueing);
  }

  lemma {:induction false} SwapReplaces(s: State)
    ensures var s' := Swap(s);
            && s'.mTimerElement == Some(s.created) && s'.created == s.created + 1
            && s.created in s'.live && s.created in s'.armed
            && (s.mTimerElement.Some? && s.mTimerElement.value < s.created && s.live <= {s.mTimerElement.value} ==>
                  s'.live == {s.created})
  {
  }

  /** And a reset gets there unless the timer is being destroyed: from every state of every
      run in which the queue's thread is free and nobody holds the lock. */
  lemma {:induction false} ResetTakesEffect(states: seq<State>, steps: seq<Step>) returns (s: State)
    requires IsRun(true, states, steps)
    requires var s0 := states[|steps|]; !s0.destroyCalled && !s0.freed && s0.queue.QueueIdle? && s0.lock.Nobody?
    ensures Leads(states, steps, s) && s.mTimerElement == Some(states[|steps|].created) && s.queue.QueueIdle?
    ensures states[|steps|].created in s.armed && s.events == states[|steps|].events
  {
    EffectHolds(states, steps, |steps|);
    assert Extends(states, steps, states, steps);
    s := Take(states, steps, states[|steps|], BeginReset);
    s := Take(states, steps, s, ResetLock);
    SwapReplaces(s);
    s := Take(states, steps, s, ResetSwap);
    s := Take(states, steps, s, ResetUnlock);
  }

  /** The element fires, and its tick is queued behind what is. */
  lemma {:induction false} FiresOnce(states: seq<State>, steps: seq<Step>, s0: State) returns (s: State)
    requires Leads(states, steps, s0) && EffectInv(s0) && !s0.destroyCalled && s0.active
    requires s0.heap.HeapIdle? && s0.lock.Nobody? && s0.queue.QueueIdle?
    ensures Leads(states, steps, s) && s.events == s0.events + [Tick] && s.tally.actions == s0.tally.actions
    ensures s.queue.QueueIdle? && s.mAction
  {
    s := Take(states, steps, s0, Fire(s0.mTimerElement.value));
    s := Take(states, steps, s, HeapReadFlag);
    s := Take(states, steps, s, HeapResetReadFlag);
    s := Take(states, steps, s, HeapReset);
    s := Take(states, steps, s, HeapEnqueue);
  }

  /** The queue's thread runs the action once for each tick that is queued. */
  lemma {:induction false} RunsQueued(states: seq<State>, steps: seq<Step>, s0: State) returns (s: State)
    requires Leads(states, steps, s0) && s0.queue.QueueIdle? && s0.mAction
    ensures Leads(states, steps, s) && s.events == [] && s.tally.actions == s0.tally.actions + Ticks(s0.events)
    decreases |s0.events|
  {
    if s0.events == [] {
      s := s0;
    } else {
      s := Take(states, steps, s0, DispatchEvent);
      s := RunsQueued(states, steps, s);
    }
  }

  /** A timer that is not being destroyed goes on running its action: every run that has
      come to rest, with the queue active, goes on to one in which the action has run once
      for each tick that was queued, and once more. */
  lemma {:induction false} RunsAgain(states: seq<State>, steps: seq<Step>) returns (s: State)
    requires IsRun(true, states, steps)
    requires var s0 := states[|steps|];
             !s0.destroyCalled && s0.active && s0.heap.HeapIdle? && s0.lock.Nobody? && s0.queue.QueueIdle?
    ensures Leads(states, steps, s)
    ensures s.tally.actions == states[|steps|].tally.actions + Ticks(states[|steps|].events) + 1
  {
    var s0 := states[|steps|];
    EffectHolds(states, steps, |steps|);
    assert Extends(states, steps, states, steps);
    s := FiresOnce(states, steps, s0);
    TicksAppended(s0.events, Tick);
    s := RunsQueued(states, steps, s);
  }
}
