/** The watermark check of several dispatching threads. dispatch checks with mDispatchLock
    held, but timedDispatch and dispatchEvent check without it, so a thread can decide on a
    notification while another is between its decision and its notification, and two
    threads can take an event each after having checked. */
module WatermarkRaces {
  import opened Watermarks

  /** `decided` are the threads past their test, with what they will notify; `ready` those
      that have checked and will now take an event or time out. */
  datatype Threads = Threads(
    count: nat, mHighWaterFired: bool, decided: map<nat, Note>, ready: set<nat>, notes: seq<Note>)

  datatype Action = Post | Decide(t: nat) | Notify(t: nat) | TakeOne(t: nat) | TimeOut(t: nat)

  predicate Possible(s: Threads, threads: nat, a: Action) {
    match a
    case Post => true
    case Decide(t) => t < threads && t !in s.decided && t !in s.ready
    case Notify(t) => t in s.decided
    case TakeOne(t) => t in s.ready && s.count > 0
    case TimeOut(t) => t in s.ready
  }

  function Next(s: Threads, low: nat, high: nat, a: Action): Threads {
    match a
    case Post => s.(count := s.count + 1)
    case Decide(t) =>
      var notes := Checked(s.mHighWaterFired, low, high, s.count).1;
      if notes == [] then s.(ready := s.ready + {t}) else s.(decided := s.decided[t := notes[0]])
    case Notify(t) =>
      if t in s.decided then
        s.(mHighWaterFired := s.decided[t].High?, notes := s.notes + [s.decided[t]],
           decided := s.decided - {t}, ready := s.ready + {t})
      else s
    case TakeOne(t) => s.(count := if s.count > 0 then s.count - 1 else 0, ready := s.ready - {t})
    case TimeOut(t) => s.(ready := s.ready - {t})
  }

  const IDLE := Threads(0, false, map[], {}, [])

  predicate IsThreadRun(low: nat, high: nat, threads: nat, states: seq<Threads>, actions: seq<Action>) {
    && |states| == |actions| + 1 && states[0] == IDLE
    && forall k | 0 <= k < |actions| ::
         Possible(states[k], threads, actions[k]) && states[k + 1] == Next(states[k], low, high, actions[k])
  }

  // ---- alternation ----

  ghost predicate AlwaysAlternates(low: nat, high: nat, threads: nat) {
    forall states: seq<Threads>, actions: seq<Action>, k |
      IsThreadRun(low, high, threads, states, actions) && 0 <= k < |states| :: Alternates(states[k].notes)
  }

  /** A thread that is alone notifies what it decided while that is still right. */
  lemma {:induction false} AloneAlternates(low: nat, high: nat, states: seq<Threads>, actions: seq<Action>, k: nat)
    requires IsThreadRun(low, high, 1, states, actions) && k < |states|
    ensures var s := states[k];
            && Alternates(s.notes) && (s.mHighWaterFired <==> |s.notes| % 2 == 1)
            && (forall t | t in s.decided :: t == 0 && (s.decided[t].High? <==> !s.mHighWaterFired))
  {
    if k > 0 {
      AloneAlternates(low, high, states, actions, k - 1);
    }
  }

  ghost predicate Attainable(low: nat, high: nat, threads: nat, s: Threads) {
    exists states: seq<Threads>, actions: seq<Action> ::
      IsThreadRun(low, high, threads, states, actions) && states[|actions|] == s
  }

  lemma {:induction false} Go(low: nat, high: nat, threads: nat, s: Threads, a: Action) returns (s': Threads)
    requires Attainable(low, high, threads, s) && Possible(s, threads, a)
    ensures s' == Next(s, low, high, a) && Attainable(low, high, threads, s')
  {
    var states: seq<Threads>, actions: seq<Action> :|
      IsThreadRun(low, high, threads, states, actions) && states[|actions|] == s;
    s' := Next(s, low, high, a);
    var path, more := states + [s'], actions + [a];
    assert IsThreadRun(low, high, threads, path, more) && path[|more|] == s';
  }

  lemma {:induction false} Posted(low: nat, high: nat, threads: nat, n: nat)
    ensures Attainable(low, high, threads, IDLE.(count := n))
  {
    if n == 0 {
      var none: seq<Action> := [];
      assert IsThreadRun(low, high, threads, [IDLE], none) && [IDLE][|none|] == IDLE.(count := 0);
    } else {
      Posted(low, high, threads, n - 1);
      var s := Go(low, high, threads, IDLE.(count := n - 1), Post);
    }
  }

  /** Two threads find the queue at the high mark before either has said so. */
  lemma {:induction false} TwoNotifyHigh(low: nat, high: nat, threads: nat) returns (s: Threads)
    requires threads >= 2
    ensures Attainable(low, high, threads, s) && s.notes == [High, High]
  {
    Posted(low, high, threads, high);
    s := Go(low, high, threads, IDLE.(count := high), Decide(0));
    s := Go(low, high, threads, s, Decide(1));
    assert s.decided[0] == High && s.decided[1] == High;
    s := Go(low, high, threads, s, Notify(0));
    s := Go(low, high, threads, s, Notify(1));
  }

  /** Notifications alternate in every run if and only if at most one thread checks. */
  lemma {:induction false} AlternatesExactly(low: nat, high: nat, threads: nat)
    ensures AlwaysAlternates(low, high, threads) <==> threads <= 1
  {
    if threads <= 1 {
      forall states: seq<Threads>, actions: seq<Action>, k |
        IsThreadRun(low, high, threads, states, actions) && 0 <= k < |states|
        ensures Alternates(states[k].notes)
      {
        assert IsThreadRun(low, high, 1, states, actions);
        AloneAlternates(low, high, states, actions, k);
      }
    } else {
      var s := TwoNotifyHigh(low, high, threads);
      var states: seq<Threads>, actions: seq<Action> :|
        IsThreadRun(low, high, threads, states, actions) && states[|actions|] == s;
      assert states[|actions|].notes[1] == High;
    }
  }

  /** What each thread decides on what it finds: High at or above the high mark on an
      unfired queue, Low at the low mark on a fired one, and otherwise nothing. */
  lemma {:induction false} DecidesExactly(low: nat, high: nat, threads: nat, s: Threads, t: nat)
    requires Possible(s, threads, Decide(t))
    ensures var s' := Next(s, low, high, Decide(t));
            && (t in s'.decided && s'.decided[t] == High <==> !s.mHighWaterFired && s.count >= high)
            && (t in s'.decided && s'.decided[t] == Low <==> s.mHighWaterFired && s.count == low)
            && (t in s'.decided <==> t !in s'.ready)
            && (forall other | other != t :: (other in s'.decided <==> other in s.decided)
                                             && (other in s.ready <==> other in s'.ready))
            && s'.notes == s.notes && s'.count == s.count && s'.mHighWaterFired == s.mHighWaterFired
  {
  }

  /** And what follows from a decision, whatever the other threads do before it is carried
      out: the notification, and the flag that goes with it. */
  lemma {:induction false} NotifiesExactly(low: nat, high: nat, threads: nat, s: Threads, t: nat)
    requires Possible(s, threads, Notify(t))
    ensures var s' := Next(s, low, high, Notify(t));
            && s'.notes == s.notes + [s.decided[t]] && (s'.mHighWaterFired <==> s.decided[t] == High)
            && t in s'.ready && t !in s'.decided && s'.count == s.count
  {
  }

  /** One thread alone has the hysteresis of the loop: with the low mark below the high
      one, when it is ready to take an event the queue it found at or above the high mark
      is fired, and a fired queue is above the low mark. */
  lemma {:induction false} AloneHysteresis(low: nat, high: nat, states: seq<Threads>, actions: seq<Action>, k: nat)
    requires IsThreadRun(low, high, 1, states, actions) && k < |actions| && low < high && actions[k] == Decide(0)
    ensures var s, s' := states[k], states[k + 1];
            && (!s.mHighWaterFired ==> (0 in s'.decided <==> s.count >= high))
            && (s.mHighWaterFired ==> (0 in s'.decided <==> s.count <= low))
            && (0 in s'.decided ==> s'.decided[0] == if s.mHighWaterFired then Low else High)
  {
    AloneAboveLow(low, high, states, actions, k);
    DecidesExactly(low, high, 1, states[k], 0);
  }

  // ---- the low mark ----

  /** A thread that checks a fired queue finds it below the low mark. */
  predicate Skips(s: Threads, low: nat, threads: nat) {
    s.mHighWaterFired && s.count < low && Possible(s, threads, Decide(0))
  }

  ghost predicate NeverSkipped(low: nat, high: nat, threads: nat) {
    forall s: Threads | Attainable(low, high, threads, s) :: !Skips(s, low, threads)
  }

  /** One thread takes one event between two checks. */
  lemma {:induction false} AloneAboveLow(low: nat, high: nat, states: seq<Threads>, actions: seq<Action>, k: nat)
    requires IsThreadRun(low, high, 1, states, actions) && k < |states| && low < high
    ensures var s := states[k];
            && s.ready <= {0} && s.decided.Keys <= {0} && (0 in s.decided ==> 0 !in s.ready)
            && (s.mHighWaterFired ==> s.count >= if 0 in s.ready then low + 1 else low)
            && (0 in s.decided ==> if s.decided[0].High? then s.count >= high else s.mHighWaterFired)
  {
    if k > 0 {
      AloneAboveLow(low, high, states, actions, k - 1);
    }
  }

  /** One thread that has fired at the high mark takes events until `count` are left. */
  lemma {:induction false} CountsDown(low: nat, high: nat, threads: nat, count: nat) returns (s: Threads)
    requires threads >= 1 && low < count <= high
    ensures Attainable(low, high, threads, s)
    ensures s.count == count && s.mHighWaterFired && s.decided == map[] && s.ready == {0}
    decreases high - count
  {
    if count == high {
      Posted(low, high, threads, high);
      s := Go(low, high, threads, IDLE.(count := high), Decide(0));
      assert s.decided[0] == High;
      s := Go(low, high, threads, s, Notify(0));
      assert s.decided == map[] && s.ready == {0};
    } else {
      s := CountsDown(low, high, threads, count + 1);
      s := Go(low, high, threads, s, TakeOne(0));
      s := Go(low, high, threads, s, Decide(0));
      assert s.ready == {0};
    }
  }

  /** Two threads check just above the low mark, and then both take an event. */
  lemma {:induction false} TwoSkip(low: nat, high: nat, threads: nat) returns (s: Threads)
    requires threads >= 2 && 0 < low < high
    ensures Attainable(low, high, threads, s) && Skips(s, low, threads)
  {
    s := CountsDown(low, high, threads, low + 1);
    s := Go(low, high, threads, s, Decide(1));
    s := Go(low, high, threads, s, TakeOne(0));
    s := Go(low, high, threads, s, TakeOne(1));
  }

  /** With the low mark not below the high one a thread fires and is below it at once. */
  lemma {:induction false} CrossedSkip(low: nat, high: nat, threads: nat) returns (s: Threads)
    requires threads >= 1 && 0 < low && high <= low
    ensures Attainable(low, high, threads, s) && Skips(s, low, threads)
  {
    Posted(low, high, threads, high);
    s := Go(low, high, threads, IDLE.(count := high), Decide(0));
    assert s.decided[0] == High;
    s := Go(low, high, threads, s, Notify(0));
    s := Go(low, high, threads, s, if high == 0 then TimeOut(0) else TakeOne(0));
  }

  /** The low mark is never skipped if and only if it is zero, or at most one thread
      dispatches and it is below the high mark (or none does). */
  lemma {:induction false} NeverSkippedExactly(low: nat, high: nat, threads: nat)
    ensures NeverSkipped(low, high, threads) <==> low == 0 || threads == 0 || (threads == 1 && low < high)
  {
    if low > 0 && threads > 0 && high <= low {
      var s := CrossedSkip(low, high, threads);
    } else if low > 0 && threads > 1 {
      var s := TwoSkip(low, high, threads);
    } else if low > 0 && threads == 1 {
      forall s: Threads | Attainable(low, high, threads, s)
        ensures !Skips(s, low, threads)
      {
        var states: seq<Threads>, actions: seq<Action> :|
          IsThreadRun(low, high, threads, states, actions) && states[|actions|] == s;
        AloneAboveLow(low, high, states, actions, |actions|);
      }
    }
  }
}
