/** A timer's life between the timer heap's thread, which fires it, and the event
    queue's thread, which runs its action and on which it is reset and destroyed.
    Each step is one access to the flag, one critical section of the heap lock, or
    one event. Assumed of the heap: it calls back with its lock held, the lock is
    recursive, and an element fires only while it is allocated. */
module Timer {
  import opened Common

  datatype Event = Tick | DestroyEvent | Other

  datatype Owner = Nobody | HeapThread | QueueThread | ForeignThread

  /** Where the heap's thread is in timerCallback. */
  datatype HeapPc = HeapIdle | Fired | Unflagged | Resetting | Queueing

  /** Where the queue's thread is: between events, in reset, or in destroy. */
  datatype QueuePc =
    | QueueIdle
    | ResetUnflagged | ResetLocked | ResetDone
    | DestroyFlagged | DestroySilenced | DestroyLocked | DestroyCut | DestroyUnlocked

  /** A reset on some third thread. */
  datatype ForeignPc = ForeignIdle | ForeignUnflagged | ForeignLocked | ForeignDone

  /** What came of the firings: those that passed the test of the flag, those of them that
      an inactive queue dropped, the ticks dispatched, and the actions run. */
  datatype Tally = Tally(passed: nat, dropped: nat, ticks: nat, actions: nat)

  /** `live` are the allocated timer elements, `armed` those that can still fire.
      `destroyCalled` and `destroyQueued` say how far destroy has come. The flags
      after `freed` record what must not happen: a tick queued behind the destroy event, the user's
      action run after destroy, a second free, a use after free. */
  datatype State = State(
    mDestroying: bool, mAction: bool, mTimerElement: Option<nat>,
    live: set<nat>, armed: set<nat>, created: nat,
    lock: Owner, heap: HeapPc, queue: QueuePc, foreign: ForeignPc,
    active: bool, events: seq<Event>,
    destroyCalled: bool, destroyQueued: bool, freed: bool,
    lateTick: bool, lateAction: bool, doubleFree: bool, useAfterFree: bool,
    tally: Tally)

  /** After create: one element, armed. */
  const INITIAL := State(false, true, Some(0), {0}, {0}, 1, Nobody, HeapIdle, QueueIdle, ForeignIdle,
                         true, [], false, false, false, false, false, false, false, Tally(0, 0, 0, 0))

  datatype Step =
    | Fire(element: nat) | HeapReadFlag | HeapResetReadFlag | HeapReset | HeapEnqueue
    | BeginReset | ResetLock | ResetSwap | ResetUnlock
    | BeginDestroy | DestroySilence | DestroyLock | DestroyElement | DestroyUnlock | DestroyEnqueue
    | ForeignBegin | ForeignLock | ForeignSwap | ForeignUnlock
    | DispatchEvent | EnqueueOther | Activate(on: bool)

  predicate Enabled(s: State, step: Step) {
    match step
    case Fire(e) => s.heap.HeapIdle? && s.lock.Nobody? && e in s.armed
    case HeapReadFlag => s.heap.Fired?
    case HeapResetReadFlag => s.heap.Unflagged?
    case HeapReset => s.heap.Resetting?
    case HeapEnqueue => s.heap.Queueing?
    case BeginReset => s.queue.QueueIdle? && !s.freed
    case ResetLock => s.queue.ResetUnflagged? && s.lock.Nobody?
    case ResetSwap => s.queue.ResetLocked?
    case ResetUnlock => s.queue.ResetDone?
    case BeginDestroy => s.queue.QueueIdle? && !s.destroyCalled
    case DestroySilence => s.queue.DestroyFlagged?
    case DestroyLock => s.queue.DestroySilenced? && s.lock.Nobody?
    case DestroyElement => s.queue.DestroyLocked?
    case DestroyUnlock => s.queue.DestroyCut?
    case DestroyEnqueue => s.queue.DestroyUnlocked?
    case ForeignBegin => s.foreign.ForeignIdle? && !s.freed
    case ForeignLock => s.foreign.ForeignUnflagged? && s.lock.Nobody?
    case ForeignSwap => s.foreign.ForeignLocked?
    case ForeignUnlock => s.foreign.ForeignDone?
    case DispatchEvent => s.queue.QueueIdle? && s.events != []
    case EnqueueOther => true
    case Activate(_) => true
  }

  /** What a step is part of: the heap's callback, a reset or the destroy on the queue's
      thread, a reset on a third thread, or the queue itself. */
  datatype Part = Callback | Reset | Destroy | Foreign | Queue

  function PartOf(step: Step): Part {
    match step
    case Fire(_) => Callback
    case HeapReadFlag => Callback
    case HeapResetReadFlag => Callback
    case HeapReset => Callback
    case HeapEnqueue => Callback
    case BeginReset => Reset
    case ResetLock => Reset
    case ResetSwap => Reset
    case ResetUnlock => Reset
    case ForeignBegin => Foreign
    case ForeignLock => Foreign
    case ForeignSwap => Foreign
    case ForeignUnlock => Foreign
    case DispatchEvent => Queue
    case EnqueueOther => Queue
    case Activate(_) => Queue
    case _ => Destroy
  }

  predicate IsForeign(step: Step) {
    PartOf(step).Foreign?
  }

  /** The step reads or writes the timer's own memory. */
  predicate Touches(s: State, step: Step) {
    match step
    case DispatchEvent => s.events != [] && !s.events[0].Other?
    case Fire(_) => false
    case EnqueueOther => false
    case Activate(_) => false
    case _ => true
  }

  /** reset's critical section: the old element is destroyed and a new one created. */
  function Swap(s: State): State {
    var old_ := if s.mTimerElement.Some? then {s.mTimerElement.value} else {};
    s.(mTimerElement := Some(s.created), created := s.created + 1,
       live := s.live - old_ + {s.created}, armed := s.armed - old_ + {s.created})
  }

  function ActCallback(s: State, step: Step): (r: State)
    ensures r.queue == s.queue && r.foreign == s.foreign && r.mDestroying == s.mDestroying
    ensures r.mAction == s.mAction && r.destroyCalled == s.destroyCalled
    ensures r.tally.ticks == s.tally.ticks && r.tally.actions == s.tally.actions
    ensures r.events == if step.HeapEnqueue? && s.active then s.events + [Tick] else s.events
  {
    match step
    case Fire(e) => s.(heap := Fired, lock := HeapThread, armed := s.armed - {e})
    case HeapReadFlag =>
      if s.mDestroying then s.(heap := HeapIdle, lock := Nobody)
      else s.(heap := Unflagged, tally := s.tally.(passed := s.tally.passed + 1))
    case HeapResetReadFlag => s.(heap := if s.mDestroying then Queueing else Resetting)
    case HeapReset => Swap(s).(heap := Queueing)
    case HeapEnqueue =>
      s.(heap := HeapIdle, lock := Nobody,
         events := if s.active then s.events + [Tick] else s.events,
         lateTick := s.lateTick || (s.active && s.destroyQueued),
         tally := if s.active then s.tally else s.tally.(dropped := s.tally.dropped + 1))
    case _ => s
  }

  function ActReset(s: State, step: Step): (r: State)
    ensures r.heap == s.heap && r.foreign == s.foreign && r.mDestroying == s.mDestroying && r.events == s.events
    ensures r.mAction == s.mAction && r.destroyCalled == s.destroyCalled && r.tally == s.tally
  {
    match step
    case BeginReset => s.(queue := if s.mDestroying then QueueIdle else ResetUnflagged)
    case ResetLock => s.(queue := ResetLocked, lock := QueueThread)
    case ResetSwap => Swap(s).(queue := ResetDone)
    case ResetUnlock => s.(queue := QueueIdle, lock := Nobody)
    case _ => s
  }

  function ActDestroy(s: State, step: Step): (r: State)
    ensures r.heap == s.heap && r.foreign == s.foreign && (s.mDestroying ==> r.mDestroying)
    ensures r.tally == s.tally && (r.mAction ==> s.mAction)
    ensures r.events == if step.DestroyEnqueue? then s.events + [DestroyEvent] else s.events
  {
    match step
    case BeginDestroy => s.(queue := DestroyFlagged, mDestroying := true, destroyCalled := true)
    case DestroySilence => s.(queue := DestroySilenced, mAction := false)
    case DestroyLock => s.(queue := DestroyLocked, lock := QueueThread)
    case DestroyElement =>
      var old_ := if s.mTimerElement.Some? then {s.mTimerElement.value} else {};
      s.(queue := DestroyCut, mTimerElement := None, live := s.live - old_, armed := s.armed - old_)
    case DestroyUnlock => s.(queue := DestroyUnlocked, lock := Nobody)
    case DestroyEnqueue => s.(queue := QueueIdle, destroyQueued := true, events := s.events + [DestroyEvent])
    case _ => s
  }

  function ActForeign(s: State, step: Step): (r: State)
    ensures r.heap == s.heap && r.queue == s.queue && r.mDestroying == s.mDestroying && r.events == s.events
    ensures r.mAction == s.mAction && r.destroyCalled == s.destroyCalled && r.tally == s.tally
  {
    match step
    case ForeignBegin => s.(foreign := if s.mDestroying then ForeignIdle else ForeignUnflagged)
    case ForeignLock => s.(foreign := ForeignLocked, lock := ForeignThread)
    case ForeignSwap => Swap(s).(foreign := ForeignDone)
    case ForeignUnlock => s.(foreign := ForeignIdle, lock := Nobody)
    case _ => s
  }

  function ActQueue(s: State, step: Step): (r: State)
    ensures r.heap == s.heap && r.queue == s.queue && r.foreign == s.foreign && r.mDestroying == s.mDestroying
    ensures r.lock == s.lock
    ensures r.mAction == s.mAction && r.destroyCalled == s.destroyCalled
    ensures r.mTimerElement == s.mTimerElement && r.armed == s.armed
    ensures !(step.DispatchEvent? && s.events != [] && s.events[0].Tick?) ==> r.tally == s.tally
    ensures step.DispatchEvent? && s.events != [] && s.events[0].Tick? ==>
              && r.tally.passed == s.tally.passed && r.tally.dropped == s.tally.dropped
              && r.tally.ticks == s.tally.ticks + 1 && r.tally.actions == s.tally.actions + if s.mAction then 1 else 0
    ensures !step.DispatchEvent? ==> r.events == if step.EnqueueOther? then s.events + [Other] else s.events
    ensures step.DispatchEvent? && s.events != [] ==>
              r.events == s.events[1..] && (s.freed || s.events[0].DestroyEvent? ==> r.freed)
  {
    match step
    case DispatchEvent =>
      if s.events == [] then s else
      match s.events[0] {
        case Tick =>
          s.(events := s.events[1..], lateAction := s.lateAction || (s.mAction && s.destroyCalled),
             tally := s.tally.(ticks := s.tally.ticks + 1, actions := s.tally.actions + if s.mAction then 1 else 0))
        case DestroyEvent => s.(events := s.events[1..], doubleFree := s.doubleFree || s.freed, freed := true)
        case Other => s.(events := s.events[1..])
      }
    case EnqueueOther => s.(events := s.events + [Other])
    case Activate(on) => s.(active := on)
    case _ => s
  }

  function Act(s: State, step: Step): State {
    match PartOf(step)
    case Callback => ActCallback(s, step)
    case Reset => ActReset(s, step)
    case Destroy => ActDestroy(s, step)
    case Foreign => ActForeign(s, step)
    case Queue => ActQueue(s, step)
  }

  function Apply(s: State, step: Step): State {
    Act(s, step).(useAfterFree := s.useAfterFree || (s.freed && Touches(s, step)))
  }

  predicate IsRun(foreignResets: bool, states: seq<State>, steps: seq<Step>) {
    && |states| == |steps| + 1 && states[0] == INITIAL
    && forall k | 0 <= k < |steps| ::
         && Enabled(states[k], steps[k]) && (IsForeign(steps[k]) ==> foreignResets)
         && states[k + 1] == Apply(states[k], steps[k])
  }

  /** Nothing of what must not happen has happened, and there is at most one element. */
  predicate Safe(s: State) {
    !s.lateTick && !s.lateAction && !s.doubleFree && !s.useAfterFree && |s.live| <= 1
  }

  // ---- invariant ----

  /** Destroy has taken the element away. */
  predicate Cut(s: State) {
    s.mTimerElement.None?
  }

  predicate InDestroy(q: QueuePc) {
    q.DestroyFlagged? || q.DestroySilenced? || q.DestroyLocked? || q.DestroyCut? || q.DestroyUnlocked?
  }

  /** Who holds the lock, and where that leaves the threads. */
  predicate LockInv(s: State) {
    && (s.lock.HeapThread? <==> !s.heap.HeapIdle?)
    && (s.lock.QueueThread?
        <==> s.queue.ResetLocked? || s.queue.ResetDone? || s.queue.DestroyLocked? || s.queue.DestroyCut?)
    && (s.lock.ForeignThread? <==> s.foreign.ForeignLocked? || s.foreign.ForeignDone?)
  }

  /** How far destroy has come decides everything else. */
  predicate DestroyInv(s: State) {
    && s.mDestroying == s.destroyCalled
    && (InDestroy(s.queue) ==> s.destroyCalled && !s.destroyQueued)
    && (s.queue.ResetUnflagged? || s.queue.ResetLocked? || s.queue.ResetDone? ==> !s.destroyCalled)
    && (s.destroyCalled && !s.queue.DestroyFlagged? ==> !s.mAction)
    && (Cut(s) <==> s.queue.DestroyCut? || s.queue.DestroyUnlocked? || s.destroyQueued)
    && (s.destroyQueued ==> s.destroyCalled)
    && (s.destroyCalled && s.queue.QueueIdle? ==> s.destroyQueued)
    && (Cut(s) ==> s.heap.HeapIdle? && s.foreign.ForeignIdle?)
  }

  predicate ElementInv(s: State) {
    && s.live == (if s.mTimerElement.Some? then {s.mTimerElement.value} else {})
    && s.armed <= s.live
    && (forall e | e in s.live :: e < s.created)
  }

  /** The destroy event is queued once and is the last of the timer's events. */
  predicate QueueInv(s: State) {
    && (forall i | 0 <= i < |s.events| && s.events[i].DestroyEvent? ::
          s.destroyQueued && !s.freed && forall j | i < j < |s.events| :: s.events[j].Other?)
    && (s.freed ==> s.destroyQueued && forall i | 0 <= i < |s.events| :: s.events[i].Other?)
    && !s.lateTick && !s.lateAction && !s.doubleFree && !s.useAfterFree
  }

  predicate Inv(s: State) {
    LockInv(s) && DestroyInv(s) && ElementInv(s) && QueueInv(s)
  }

  /** No reset on another thread is past its flag test when destroy takes the element. */
  predicate Joined(states: seq<State>, steps: seq<Step>)
    requires |states| == |steps| + 1
  {
    forall k | 0 <= k < |steps| && steps[k].DestroyElement? :: states[k].foreign.ForeignIdle?
  }

  lemma {:induction false} CallbackStep(s: State, step: Step)
    requires Inv(s) && Enabled(s, step) && PartOf(step).Callback?
    ensures Inv(Apply(s, step))
  {
  }

  lemma {:induction false} ResetStep(s: State, step: Step)
    requires Inv(s) && Enabled(s, step) && PartOf(step).Reset?
    ensures Inv(Apply(s, step))
  {
  }

  lemma {:induction false} DestroyStep(s: State, step: Step)
    requires Inv(s) && Enabled(s, step) && PartOf(step).Destroy?
    requires step.DestroyElement? ==> s.foreign.ForeignIdle?
    ensures Inv(Apply(s, step))
  {
  }

  lemma {:induction false} ForeignStep(s: State, step: Step)
    requires Inv(s) && Enabled(s, step) && PartOf(step).Foreign?
    ensures Inv(Apply(s, step))
  {
  }

  lemma {:induction false} DispatchStep(s: State)
    requires Inv(s) && Enabled(s, DispatchEvent)
    ensures Inv(Apply(s, DispatchEvent))
  {
    var s' := Apply(s, DispatchEvent);
    assert forall i | 0 <= i < |s'.events| :: s'.events[i] == s.events[i + 1];
  }

  lemma {:induction false} QueueStep(s: State, step: Step)
    requires Inv(s) && Enabled(s, step) && PartOf(step).Queue?
    ensures Inv(Apply(s, step))
  {
    if step.DispatchEvent? {
      DispatchStep(s);
    }
  }

  lemma {:induction false} InvStep(s: State, step: Step)
    requires Inv(s) && Enabled(s, step) && (step.DestroyElement? ==> s.foreign.ForeignIdle?)
    ensures Inv(Apply(s, step))
  {
    match PartOf(step)
    case Callback => CallbackStep(s, step);
    case Reset => ResetStep(s, step);
    case Destroy => DestroyStep(s, step);
    case Foreign => ForeignStep(s, step);
    case Queue => QueueStep(s, step);
  }

  lemma {:induction false} InvHolds(states: seq<State>, steps: seq<Step>, k: nat)
    requires IsRun(true, states, steps) && Joined(states, steps) && k < |states|
    ensures Inv(states[k])
  {
    if k > 0 {
      InvHolds(states, steps, k - 1);
      InvStep(states[k - 1], steps[k - 1]);
    }
  }

  lemma {:induction false} ForeignStaysIdle(states: seq<State>, steps: seq<Step>, k: nat)
    requires IsRun(false, states, steps) && k < |states|
    ensures states[k].foreign.ForeignIdle?
  {
    if k > 0 {
      ForeignStaysIdle(states, steps, k - 1);
    }
  }

  /** Timer safety. In every interleaving of ticks, one destroy on the queue's thread and
      resets on that thread and another one, if no reset on the other is past its flag test
      when destroy takes the element, then no tick is queued behind the destroy event, the
      action never runs after destroy, there is at most one element, and the timer is freed
      at most once and not touched afterwards. */
  lemma {:induction false} SafeIfJoined(states: seq<State>, steps: seq<Step>, k: nat)
    requires IsRun(true, states, steps) && Joined(states, steps) && k < |states|
    ensures Safe(states[k])
  {
    InvHolds(states, steps, k);
    assert |states[k].live| <= 1;
  }

  /** In particular without any reset on another thread. */
  lemma {:induction false} TimerSafe(states: seq<State>, steps: seq<Step>, k: nat)
    requires IsRun(false, states, steps) && k < |states|
    ensures Safe(states[k])
  {
    forall j | 0 <= j < |states|
      ensures states[j].foreign.ForeignIdle?
    {
      ForeignStaysIdle(states, steps, j);
    }
    SafeIfJoined(states, steps, k);
  }

  // ---- resets on other threads ----

  /** A longer run. */
  ghost predicate Extends(states: seq<State>, steps: seq<Step>, longer: seq<State>, more: seq<Step>) {
    states <= longer && steps <= more && IsRun(true, longer, more)
  }

  /** s is where some run that extends the given one ends. */
  ghost predicate Leads(states: seq<State>, steps: seq<Step>, s: State) {
    exists longer, more :: Extends(states, steps, longer, more) && longer[|more|] == s
  }

  lemma {:induction false} Take(states: seq<State>, steps: seq<Step>, s: State, step: Step) returns (s': State)
    requires Leads(states, steps, s) && Enabled(s, step)
    ensures Leads(states, steps, s') && s' == Apply(s, step)
  {
    var longer, more :| Extends(states, steps, longer, more) && longer[|more|] == s;
    s' := Apply(s, step);
    assert Extends(states, steps, longer + [s'], more + [step]) && (longer + [s'])[|more + [step]|] == s';
  }

  /** The queue's thread runs everything that is queued. */
  lemma {:induction false} DispatchAll(states: seq<State>, steps: seq<Step>, s: State) returns (s': State)
    requires Leads(states, steps, s) && s.queue.QueueIdle? && s.lock.Nobody? && s.foreign.ForeignUnflagged?
    ensures Leads(states, steps, s') && s'.lock.Nobody? && s'.foreign.ForeignUnflagged?
    ensures s.freed || DestroyEvent in s.events ==> s'.freed
    decreases |s.events|
  {
    if s.events == [] {
      s' := s;
    } else {
      assert DestroyEvent in s.events ==> s.events[0].DestroyEvent? || DestroyEvent in s.events[1..];
      s' := Take(states, steps, s, DispatchEvent);
      s' := DispatchAll(states, steps, s');
    }
  }

  /** A reset that has passed its test of the flag comes back to a timer that destroy has
      meanwhile taken apart, and that its event has freed. */
  lemma {:induction false} LateResetBreaks(states: seq<State>, steps: seq<Step>, s0: State) returns (s: State)
    requires Leads(states, steps, s0) && s0.queue.DestroyLocked? && s0.foreign.ForeignUnflagged?
    ensures Leads(states, steps, s) && s.useAfterFree
  {
    s := DestroyEnds(states, steps, s0);
    s := DispatchAll(states, steps, s);
    s := Take(states, steps, s, ForeignLock);
  }

  lemma {:induction false} DestroyEnds(states: seq<State>, steps: seq<Step>, s0: State) returns (s: State)
    requires Leads(states, steps, s0) && s0.queue.DestroyLocked? && s0.foreign.ForeignUnflagged?
    ensures Leads(states, steps, s) && s.queue.QueueIdle? && s.lock.Nobody? && s.foreign.ForeignUnflagged?
    ensures DestroyEvent in s.events
  {
    s := Take(states, steps, s0, DestroyElement);
    s := Take(states, steps, s, DestroyUnlock);
    s := Take(states, steps, s, DestroyEnqueue);
    assert s.events[|s.events| - 1] == DestroyEvent;
  }

  /** The run has come to where destroy takes the element, for the first time. */
  predicate AtDestroy(states: seq<State>, steps: seq<Step>) {
    && IsRun(true, states, steps) && states[|steps|].queue.DestroyLocked?
    && forall k | 0 <= k < |steps| :: !steps[k].DestroyElement?
  }

  /** Once destroy has begun no reset passes its test of the flag. */
  lemma {:induction false} IdleStays(states: seq<State>, steps: seq<Step>, from: nat, k: nat)
    requires IsRun(true, states, steps) && from <= k < |states|
    requires states[from].mDestroying && states[from].foreign.ForeignIdle?
    ensures states[k].mDestroying && states[k].foreign.ForeignIdle?
    decreases k
  {
    if k > from {
      IdleStays(states, steps, from, k - 1);
    }
  }

  /** Whatever happens from there on is safe. */
  ghost predicate SafeHenceforth(states: seq<State>, steps: seq<Step>) {
    forall longer: seq<State>, more: seq<Step>, k |
      Extends(states, steps, longer, more) && 0 <= k < |longer| :: Safe(longer[k])
  }

  /** The condition is exact, run by run: where destroy is about to take the element, every
      continuation is safe if and only if no reset on another thread is past its flag
      test. */
  lemma {:induction false} DestroySafeExactly(states: seq<State>, steps: seq<Step>)
    requires AtDestroy(states, steps)
    ensures SafeHenceforth(states, steps) <==> states[|steps|].foreign.ForeignIdle?
  {
    var s := states[|steps|];
    InvHolds(states, steps, |steps|);
    if s.foreign.ForeignIdle? {
      forall longer: seq<State>, more: seq<Step>, k | Extends(states, steps, longer, more) && 0 <= k < |longer|
        ensures Safe(longer[k])
      {
        JoinedAfter(states, steps, longer, more);
        SafeIfJoined(longer, more, k);
      }
    } else {
      assert Extends(states, steps, states, steps);
      var broken := LateResetBreaks(states, steps, s);
      var longer, more :| Extends(states, steps, longer, more) && longer[|more|] == broken;
      assert !Safe(longer[|more|]);
    }
  }

  lemma {:induction false} JoinedAfter(states: seq<State>, steps: seq<Step>, longer: seq<State>, more: seq<Step>)
    requires AtDestroy(states, steps) && Extends(states, steps, longer, more)
    requires states[|steps|].foreign.ForeignIdle? && states[|steps|].mDestroying
    ensures Joined(longer, more)
  {
    assert forall j | 0 <= j < |steps| :: more[j] == steps[j];
    forall k | 0 <= k < |more| && more[k].DestroyElement?
      ensures longer[k].foreign.ForeignIdle?
    {
      IdleStays(longer, more, |steps|, k);
    }
  }

  /** So the timer is safe in every run if and only if no reset can be made on a thread
      other than the queue's while destroy runs. */
  lemma {:induction false} SafeIffNoForeignReset(foreignResets: bool)
    ensures (forall states, steps, k | IsRun(foreignResets, states, steps) && 0 <= k < |states| :: Safe(states[k]))
            <==> !foreignResets
  {
    if foreignResets {
      var states, steps := Overtaken();
      DestroySafeExactly(states, steps);
    } else {
      forall states, steps, k | IsRun(foreignResets, states, steps) && 0 <= k < |states|
        ensures Safe(states[k])
      {
        TimerSafe(states, steps, k);
      }
    }
  }

  /** A run in which a reset on another thread is overtaken by destroy. */
  lemma {:induction false} Overtaken() returns (states: seq<State>, steps: seq<Step>)
    ensures AtDestroy(states, steps) && states[|steps|].foreign.ForeignUnflagged?
  {
    states, steps := [INITIAL], [];
    states, steps := OneMore(states, steps, ForeignBegin);
    states, steps := OneMore(states, steps, BeginDestroy);
    states, steps := OneMore(states, steps, DestroySilence);
    states, steps := OneMore(states, steps, DestroyLock);
  }

  lemma {:induction false} OneMore(states: seq<State>, steps: seq<Step>, step: Step)
    returns (longer: seq<State>, more: seq<Step>)
    requires IsRun(true, states, steps) && Enabled(states[|steps|], step) && !step.DestroyElement?
    requires forall k | 0 <= k < |steps| :: !steps[k].DestroyElement?
    ensures IsRun(true, longer, more) && longer[|more|] == Apply(states[|steps|], step)
    ensures forall k | 0 <= k < |more| :: !more[k].DestroyElement?
  {
    longer, more := states + [Apply(states[|steps|], step)], steps + [step];
  }
}
