/** Any number of threads on one event queue. Each step is one of UQueueImpl's
    methods: an enqueue under the lock, a semaphore wait outside it, or the removal
    under the lock by a dispatcher that is past its wait. */
module UQueueRuns {
  import opened Common
  import opened QueueLists
  import opened UQueue

  /** `past` are the dispatchers between their wait and their removal. `accepted`
      and `handed` record, in order, the events enqueued and the events passed to
      callbacks; `misses` counts removals that found the list empty. */
  datatype Threads = Threads(q: State, past: set<nat>, accepted: seq<Event>, handed: seq<Event>, misses: nat)

  datatype Step = Enqueue(e: Event, memOk: bool) | Wait(t: nat) | Remove(t: nat)

  predicate Enabled(s: Threads, dispatchers: nat, step: Step) {
    match step
    case Enqueue(_, _) => true
    case Wait(t) => t < dispatchers && t !in s.past && s.q.sem > 0
    case Remove(t) => t in s.past
  }

  function Apply(s: Threads, step: Step): Threads {
    match step
    case Enqueue(e, memOk) =>
      var (q, status) := Enqueued(s.q, e, memOk);
      s.(q := q, accepted := if status.Ok? then s.accepted + [e] else s.accepted)
    case Wait(t) => s.(q := s.q.(sem := if s.q.sem > 0 then s.q.sem - 1 else 0), past := s.past + {t})
    case Remove(t) =>
      match Taken(s.q) {
        case (q, None) => s.(q := q, past := s.past - {t}, misses := s.misses + 1)
        case (q, Some(e)) => s.(q := q, past := s.past - {t}, handed := s.handed + [e])
      }
  }

  /** The queue as uQueue_create leaves it. */
  predicate IsInitial(s: Threads) {
    && s.q.contents == [] && s.q.sem == 0 && s.past == {} && s.accepted == [] && s.handed == [] && s.misses == 0
    && s.q.capacity <= s.q.maxSize && s.q.chunkSize > 0
  }

  predicate IsRun(dispatchers: nat, states: seq<Threads>, steps: seq<Step>) {
    && |states| == |steps| + 1 && IsInitial(states[0])
    && forall k | 0 <= k < |steps| ::
         Enabled(states[k], dispatchers, steps[k]) && states[k + 1] == Apply(states[k], steps[k])
  }

  predicate Inv(s: Threads, dispatchers: nat) {
    && s.q.sem + |s.past| == |s.q.contents|
    && (forall t | t in s.past :: t < dispatchers)
    && s.handed + s.q.contents == s.accepted
    && s.misses == 0
    && |s.q.contents| <= s.q.capacity
    && s.q.chunkSize > 0
  }

  lemma {:induction false} InvStep(s: Threads, dispatchers: nat, step: Step)
    requires Inv(s, dispatchers) && Enabled(s, dispatchers, step)
    ensures Inv(Apply(s, step), dispatchers)
  {
    var s' := Apply(s, step);
    match step
    case Enqueue(e, memOk) =>
      assert s.handed + (s.q.contents + [e]) == s.accepted + [e];
    case Wait(t) =>
    case Remove(t) =>
      assert |s.past - {t}| == |s.past| - 1;
      Assoc(s.handed, [s.q.contents[0]], s.q.contents[1..]);
      assert s.q.contents == [s.q.contents[0]] + s.q.contents[1..];
  }

  lemma {:induction false} InvHolds(dispatchers: nat, states: seq<Threads>, steps: seq<Step>, k: nat)
    requires IsRun(dispatchers, states, steps) && k < |states|
    ensures Inv(states[k], dispatchers)
    ensures states[k].q.maxSize == states[0].q.maxSize && states[k].q.chunkSize == states[0].q.chunkSize
  {
    if k > 0 {
      InvHolds(dispatchers, states, steps, k - 1);
      InvStep(states[k - 1], dispatchers, steps[k - 1]);
    }
  }

  /** First in, first out, whatever the interleaving: what has been handed to
      callbacks is an initial part of what was accepted, and the rest is queued. */
  lemma {:induction false} Fifo(dispatchers: nat, states: seq<Threads>, steps: seq<Step>, k: nat)
    requires IsRun(dispatchers, states, steps) && k < |states|
    ensures states[k].handed + states[k].q.contents == states[k].accepted
    ensures states[k].handed <= states[k].accepted
  {
    InvHolds(dispatchers, states, steps, k);
  }

  /** The semaphore counts what is queued and not yet promised to a dispatcher, so a
      dispatcher past its wait never finds the list empty. */
  lemma {:induction false} SemaphoreCounts(dispatchers: nat, states: seq<Threads>, steps: seq<Step>, k: nat)
    requires IsRun(dispatchers, states, steps) && k < |states|
    ensures states[k].q.sem + |states[k].past| == |states[k].q.contents|
    ensures states[k].past != {} ==> states[k].q.contents != []
    ensures states[k].misses == 0
  {
    InvHolds(dispatchers, states, steps, k);
    if states[k].past != {} {
      var t :| t in states[k].past;
      assert |states[k].past - {t}| == |states[k].past| - 1;
    }
  }

  /** Growth is checked against the semaphore, which lags the queue by the
      dispatchers past their wait: the nodes never exceed mMaxSize by more than the
      number of dispatchers, provided the 32-bit sum in that check cannot wrap. */
  lemma {:induction false} CapacityBound(dispatchers: nat, states: seq<Threads>, steps: seq<Step>, k: nat)
    requires IsRun(dispatchers, states, steps) && k < |states|
    requires states[0].q.maxSize + dispatchers + states[0].q.chunkSize < UINT32
    ensures states[k].q.capacity <= states[0].q.maxSize + dispatchers
  {
    if k > 0 {
      CapacityBound(dispatchers, states, steps, k - 1);
      InvHolds(dispatchers, states, steps, k - 1);
      AtMostBelow(states[k - 1].past, dispatchers);
    }
  }

  /** The 32-bit test agrees with the test it stands for exactly when the sum does
      not wrap, or wraps to something that is refused as well. */
  lemma {:induction false} RefusedExactly(sem: nat, items: nat, maxSize: nat)
    requires sem < UINT32 && items < UINT32 && maxSize < UINT32
    ensures Refused(sem, items, maxSize) == (sem + items > maxSize)
            <==> sem + items < UINT32 || sem + items - UINT32 > maxSize
  {
    assert sem + items >= UINT32 ==> (sem + items) % UINT32 == sem + items - UINT32;
  }

  // ---- when the bound holds ----

  /** The bound holds in every run with these sizes, whatever the initial capacity. */
  ghost predicate Bounded(maxSize: nat, chunkSize: nat, dispatchers: nat) {
    forall states: seq<Threads>, steps: seq<Step>, k |
      SizedRun(maxSize, chunkSize, dispatchers, states, steps) && 0 <= k < |states| ::
      states[k].q.capacity <= maxSize + dispatchers
  }

  predicate SizedRun(maxSize: nat, chunkSize: nat, dispatchers: nat, states: seq<Threads>, steps: seq<Step>) {
    IsRun(dispatchers, states, steps) && states[0].q.maxSize == maxSize && states[0].q.chunkSize == chunkSize
  }

  ghost predicate Reachable(maxSize: nat, chunkSize: nat, dispatchers: nat, s: Threads) {
    exists states, steps :: SizedRun(maxSize, chunkSize, dispatchers, states, steps) && states[|steps|] == s
  }

  ghost predicate Reaches(maxSize: nat, chunkSize: nat, dispatchers: nat, capacity: nat) {
    exists s :: Reachable(maxSize, chunkSize, dispatchers, s) && s.q.capacity == capacity
  }

  lemma {:induction false} Begin(maxSize: nat, chunkSize: nat, dispatchers: nat, capacity: nat)
    requires chunkSize > 0 && capacity <= maxSize
    ensures Reaches(maxSize, chunkSize, dispatchers, capacity)
  {
    var s := Threads(State([], capacity, 0, maxSize, chunkSize), {}, [], [], 0);
    var none: seq<Step> := [];
    assert SizedRun(maxSize, chunkSize, dispatchers, [s], none) && [s][|none|] == s;
    assert Reachable(maxSize, chunkSize, dispatchers, s);
  }

  lemma {:induction false} Take(maxSize: nat, chunkSize: nat, dispatchers: nat, s: Threads, step: Step)
    returns (s': Threads)
    requires Reachable(maxSize, chunkSize, dispatchers, s) && Enabled(s, dispatchers, step)
    ensures s' == Apply(s, step) && Reachable(maxSize, chunkSize, dispatchers, s')
  {
    var states: seq<Threads>, steps: seq<Step> :|
      SizedRun(maxSize, chunkSize, dispatchers, states, steps) && states[|steps|] == s;
    s' := Apply(s, step);
    var path, more := states + [s'], steps + [step];
    assert SizedRun(maxSize, chunkSize, dispatchers, path, more) && path[|more|] == s';
  }

  lemma {:induction false} ReachableInv(maxSize: nat, chunkSize: nat, dispatchers: nat, s: Threads)
    requires Reachable(maxSize, chunkSize, dispatchers, s)
    ensures Inv(s, dispatchers) && s.q.maxSize == maxSize && s.q.chunkSize == chunkSize
  {
    var states: seq<Threads>, steps: seq<Step> :|
      SizedRun(maxSize, chunkSize, dispatchers, states, steps) && states[|steps|] == s;
    InvHolds(dispatchers, states, steps, |steps|);
  }

  /** All dispatchers past their wait finish. */
  lemma {:induction false} Drained(maxSize: nat, chunkSize: nat, dispatchers: nat, s: Threads) returns (s': Threads)
    requires Reachable(maxSize, chunkSize, dispatchers, s)
    ensures Reachable(maxSize, chunkSize, dispatchers, s') && s'.q.capacity == s.q.capacity && s'.past == {}
    decreases |s.past|
  {
    if s.past == {} {
      s' := s;
    } else {
      var t :| t in s.past;
      s' := Take(maxSize, chunkSize, dispatchers, s, Remove(t));
      assert |s.past - {t}| == |s.past| - 1;
      s' := Drained(maxSize, chunkSize, dispatchers, s');
    }
  }

  /** Enqueuing until no node is free. */
  lemma {:induction false} Filled(maxSize: nat, chunkSize: nat, dispatchers: nat, s: Threads) returns (s': Threads)
    requires Reachable(maxSize, chunkSize, dispatchers, s) && s.past == {}
    ensures Reachable(maxSize, chunkSize, dispatchers, s') && s'.q.capacity == s.q.capacity && s'.past == {}
    ensures |s'.q.contents| == s.q.capacity
    decreases s.q.capacity - |s.q.contents|
  {
    ReachableInv(maxSize, chunkSize, dispatchers, s);
    if |s.q.contents| == s.q.capacity {
      s' := s;
    } else {
      s' := Take(maxSize, chunkSize, dispatchers, s, Enqueue(Event(0, 0, Closure(0)), true));
      s' := Filled(maxSize, chunkSize, dispatchers, s');
    }
  }

  /** p dispatchers pass their wait on a full queue. */
  lemma {:induction false} Waited(maxSize: nat, chunkSize: nat, dispatchers: nat, s: Threads, p: nat)
    returns (s': Threads)
    requires Reachable(maxSize, chunkSize, dispatchers, s) && s.past == {} && |s.q.contents| == s.q.capacity
    requires p <= dispatchers && p <= s.q.capacity
    ensures Reachable(maxSize, chunkSize, dispatchers, s') && s'.q == s.q.(sem := s.q.capacity - p)
    ensures forall t | t in s'.past :: t < p
  {
    if p == 0 {
      ReachableInv(maxSize, chunkSize, dispatchers, s);
      s' := s;
    } else {
      s' := Waited(maxSize, chunkSize, dispatchers, s, p - 1);
      s' := Take(maxSize, chunkSize, dispatchers, s', Wait(p - 1));
    }
  }

  /** A queue of that capacity that is full while p dispatchers are past their wait. */
  lemma {:induction false} Full(maxSize: nat, chunkSize: nat, dispatchers: nat, capacity: nat, p: nat)
    returns (s: Threads)
    requires Reaches(maxSize, chunkSize, dispatchers, capacity) && p <= dispatchers && p <= capacity
    ensures Reachable(maxSize, chunkSize, dispatchers, s)
    ensures |s.q.contents| == s.q.capacity == capacity && s.q.sem == capacity - p
  {
    s :| Reachable(maxSize, chunkSize, dispatchers, s) && s.q.capacity == capacity;
    s := Drained(maxSize, chunkSize, dispatchers, s);
    s := Filled(maxSize, chunkSize, dispatchers, s);
    s := Waited(maxSize, chunkSize, dispatchers, s, p);
  }

  /** A capacity grows when some number of waiting dispatchers makes the test pass. */
  lemma {:induction false} Grows(maxSize: nat, chunkSize: nat, dispatchers: nat, capacity: nat, p: nat)
    requires Reaches(maxSize, chunkSize, dispatchers, capacity) && p <= dispatchers && p <= capacity
    requires !Refused(capacity - p, chunkSize, maxSize)
    ensures Reaches(maxSize, chunkSize, dispatchers, capacity + chunkSize)
  {
    var s := Full(maxSize, chunkSize, dispatchers, capacity, p);
    ReachableInv(maxSize, chunkSize, dispatchers, s);
    var s' := Take(maxSize, chunkSize, dispatchers, s, Enqueue(Event(0, 0, Closure(0)), true));
    assert s'.q.capacity == capacity + chunkSize;
  }

  /** As long as the bound leaves room for a block that mMaxSize has room for, the
      capacity can grow by one: the dispatchers hide the excess. */
  lemma {:induction false} GrowsWithin(maxSize: nat, chunkSize: nat, dispatchers: nat, capacity: nat, blocks: nat)
    requires 0 < chunkSize <= maxSize < UINT32 && Reaches(maxSize, chunkSize, dispatchers, capacity)
    requires capacity + blocks * chunkSize <= maxSize + dispatchers
    ensures Reaches(maxSize, chunkSize, dispatchers, capacity + blocks * chunkSize)
    decreases blocks
  {
    if blocks > 0 {
      assert blocks * chunkSize == (blocks - 1) * chunkSize + chunkSize;
      assert (blocks - 1) * chunkSize >= 0;
      var p := if capacity <= dispatchers then capacity else dispatchers;
      assert (capacity - p + chunkSize) % UINT32 == capacity - p + chunkSize;
      Grows(maxSize, chunkSize, dispatchers, capacity, p);
      GrowsWithin(maxSize, chunkSize, dispatchers, capacity + chunkSize, blocks - 1);
    }
  }

  /** With mMaxSize room for a block, every capacity up to the bound can be reached from
      a suitable initial one; the bound itself is what matters. */
  lemma {:induction false} ReachesBound(maxSize: nat, chunkSize: nat, dispatchers: nat)
    requires 0 < chunkSize <= maxSize < UINT32
    ensures Reaches(maxSize, chunkSize, dispatchers, maxSize + dispatchers)
  {
    var blocks := (dispatchers + chunkSize - 1) / chunkSize;
    assert dispatchers <= blocks * chunkSize < dispatchers + chunkSize;
    var initial := maxSize + dispatchers - blocks * chunkSize;
    Begin(maxSize, chunkSize, dispatchers, initial);
    GrowsWithin(maxSize, chunkSize, dispatchers, initial, blocks);
  }

  /** Where one more block wraps the sum, the test passes for some number of waiting
      dispatchers: the sum is then 2^32, or more by at most mMaxSize. */
  lemma {:induction false} GrowsByWrapping(maxSize: nat, chunkSize: nat, dispatchers: nat, capacity: nat)
    requires 0 < chunkSize < UINT32 && maxSize < UINT32 && Reaches(maxSize, chunkSize, dispatchers, capacity)
    requires UINT32 <= capacity + chunkSize && capacity <= maxSize + dispatchers
    ensures Reaches(maxSize, chunkSize, dispatchers, capacity + chunkSize)
  {
    var least := (if capacity <= dispatchers then 0 else capacity - dispatchers) + chunkSize;
    var sum := if least <= UINT32 then UINT32 else least;
    assert sum % UINT32 == sum - UINT32 <= maxSize;
    Grows(maxSize, chunkSize, dispatchers, capacity, capacity + chunkSize - sum);
  }

  lemma {:induction false} WrapsPastBound(maxSize: nat, chunkSize: nat, dispatchers: nat, capacity: nat)
    returns (beyond: nat)
    requires 0 < chunkSize < UINT32 && maxSize < UINT32 && Reaches(maxSize, chunkSize, dispatchers, capacity)
    requires UINT32 <= capacity + chunkSize
    ensures maxSize + dispatchers < beyond && Reaches(maxSize, chunkSize, dispatchers, beyond)
    decreases maxSize + dispatchers - capacity
  {
    if capacity > maxSize + dispatchers {
      beyond := capacity;
    } else {
      GrowsByWrapping(maxSize, chunkSize, dispatchers, capacity);
      beyond := WrapsPastBound(maxSize, chunkSize, dispatchers, capacity + chunkSize);
    }
  }

  /** The largest sum that growth can be checked with before it wraps does not wrap. */
  predicate NeverWraps(maxSize: nat, chunkSize: nat, dispatchers: nat) {
    if chunkSize <= maxSize then maxSize + dispatchers + chunkSize < UINT32 else maxSize + chunkSize < UINT32
  }

  /** A block larger than mMaxSize is refused until the sum wraps. */
  lemma {:induction false} NoGrowth(dispatchers: nat, states: seq<Threads>, steps: seq<Step>, k: nat)
    requires IsRun(dispatchers, states, steps) && k < |states|
    requires states[0].q.maxSize < states[0].q.chunkSize && states[0].q.maxSize + states[0].q.chunkSize < UINT32
    ensures states[k].q.capacity == states[0].q.capacity
  {
    if k > 0 {
      NoGrowth(dispatchers, states, steps, k - 1);
      InvHolds(dispatchers, states, steps, k - 1);
      var q := states[k - 1].q;
      assert (q.sem + q.chunkSize) % UINT32 == q.sem + q.chunkSize;
    }
  }

  /** The capacity bound holds in every run from every initial capacity if and only if
      the 32-bit sum cannot wrap before the bound is reached: with blocks no larger than
      mMaxSize the capacity gets as far as the bound itself, with larger ones it stays
      where it was. */
  lemma {:induction false} CapacityBoundExactly(maxSize: nat, chunkSize: nat, dispatchers: nat)
    requires maxSize < UINT32 && 0 < chunkSize < UINT32
    ensures Bounded(maxSize, chunkSize, dispatchers) <==> NeverWraps(maxSize, chunkSize, dispatchers)
  {
    if NeverWraps(maxSize, chunkSize, dispatchers) {
      forall states: seq<Threads>, steps: seq<Step>, k |
        SizedRun(maxSize, chunkSize, dispatchers, states, steps) && 0 <= k < |states|
        ensures states[k].q.capacity <= maxSize + dispatchers
      {
        if chunkSize <= maxSize {
          CapacityBound(dispatchers, states, steps, k);
        } else {
          NoGrowth(dispatchers, states, steps, k);
        }
      }
    } else {
      var _ := ExceedsBound(maxSize, chunkSize, dispatchers);
    }
  }

  /** A run that exceeds the bound, wherever the sum can wrap. */
  lemma {:induction false} ExceedsBound(maxSize: nat, chunkSize: nat, dispatchers: nat) returns (s: Threads)
    requires maxSize < UINT32 && 0 < chunkSize < UINT32 && !NeverWraps(maxSize, chunkSize, dispatchers)
    ensures Reachable(maxSize, chunkSize, dispatchers, s) && s.q.capacity > maxSize + dispatchers
    ensures !Bounded(maxSize, chunkSize, dispatchers)
  {
    var capacity := if chunkSize <= maxSize then maxSize + dispatchers else maxSize;
    if chunkSize <= maxSize {
      ReachesBound(maxSize, chunkSize, dispatchers);
    } else {
      Begin(maxSize, chunkSize, dispatchers, maxSize);
    }
    var beyond := WrapsPastBound(maxSize, chunkSize, dispatchers, capacity);
    s :| Reachable(maxSize, chunkSize, dispatchers, s) && s.q.capacity == beyond;
    var states: seq<Threads>, steps: seq<Step> :|
      SizedRun(maxSize, chunkSize, dispatchers, states, steps) && states[|steps|] == s;
    assert states[|steps|].q.capacity > maxSize + dispatchers;
  }

  /** A queue of at most 10 and one dispatcher: a block of 2^32 - 1 nodes is let in when
      the second event finds the only node taken. */
  lemma {:induction false} WrapAdmitsOversize() returns (states: seq<Threads>, steps: seq<Step>)
    ensures SizedRun(10, UINT32 - 1, 1, states, steps) && |steps| == 2
    ensures states[0].q.capacity == 1 && states[2].q.capacity == UINT32
  {
    var e := Event(0, 0, Closure(0));
    var s0 := Threads(State([], 1, 0, 10, UINT32 - 1), {}, [], [], 0);
    var s1 := Apply(s0, Enqueue(e, true));
    assert s1.q == State([e], 1, 1, 10, UINT32 - 1);
    var s2 := Apply(s1, Enqueue(e, true));
    steps, states := [Enqueue(e, true), Enqueue(e, true)], [s0, s1, s2];
  }

  /** What an enqueue does, in every state of every run: it is accepted if and only if a
      node is free, or memory can be had and the 32-bit sum of semaphore and block is within
      mMaxSize; then the event is the last of the queue, the semaphore counts one more, and
      the nodes are one block more exactly if none was free. Otherwise nothing changes. */
  lemma {:induction false} AcceptedExactly(dispatchers: nat, states: seq<Threads>, steps: seq<Step>, k: nat)
    requires IsRun(dispatchers, states, steps) && k < |steps| && steps[k].Enqueue?
    ensures var q, s' := states[k].q, states[k + 1];
            var free := |q.contents| < q.capacity;
            if free || (steps[k].memOk && (q.sem + q.chunkSize) % 0x1_0000_0000 <= q.maxSize) then
              && s'.accepted == states[k].accepted + [steps[k].e] && s'.q.contents == q.contents + [steps[k].e]
              && s'.q.sem == q.sem + 1 && s'.q.capacity == q.capacity + (if free then 0 else q.chunkSize)
              && s'.handed == states[k].handed && s'.past == states[k].past
            else
              s' == states[k]
  {
    InvHolds(dispatchers, states, steps, k);
  }

  /** What a removal does: it hands over the event that has been queued longest. */
  lemma {:induction false} RemovesOldest(dispatchers: nat, states: seq<Threads>, steps: seq<Step>, k: nat)
    requires IsRun(dispatchers, states, steps) && k < |steps| && steps[k].Remove?
    ensures var s, s' := states[k], states[k + 1];
            && s.q.contents != [] && s'.handed == s.handed + [s.q.contents[0]] && s'.q.contents == s.q.contents[1..]
            && s'.q.capacity == s.q.capacity && s'.q.sem == s.q.sem && s'.past == s.past - {steps[k].t}
  {
    SemaphoreCounts(dispatchers, states, steps, k);
  }

  /** Nothing is refused while a node is free, and after an event has been handed
      over one is. */
  lemma {:induction false} NeverFullAfterRemove(dispatchers: nat, states: seq<Threads>, steps: seq<Step>, k: nat,
                                                e: Event, memOk: bool)
    requires IsRun(dispatchers, states, steps) && k < |steps| && steps[k].Remove?
    ensures Enqueued(states[k + 1].q, e, memOk).1.Ok?
  {
    InvHolds(dispatchers, states, steps, k);
    SemaphoreCounts(dispatchers, states, steps, k);
  }
}
