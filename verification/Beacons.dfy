/** The timing of beacons in the dispatch loop. Times are in milliseconds. An
    iteration is given by the time at which it sets the poll's timeout and the time it
    reads after the poll; what it does later in the iteration takes time too. */
module Beacons {

  datatype Iteration = Iteration(head: nat, now: nat)

  /** lastBeacon and nextBeacon, and the beacons sent so far. */
  datatype Clock = Clock(lastBeacon: nat, nextBeacon: nat, sent: seq<nat>)

  function Start(time: nat, interval: nat): Clock {
    Clock(0, time + interval, [])
  }

  function Tick(c: Clock, now: nat, interval: nat): Clock {
    if now >= c.nextBeacon then Clock(now, now + interval, c.sent + [now]) else c
  }

  function After(time: nat, interval: nat, iterations: seq<Iteration>): Clock {
    if iterations == [] then Start(time, interval)
    else Tick(After(time, interval, iterations[..|iterations| - 1]), iterations[|iterations| - 1].now, interval)
  }

  /** The loop, for an interval that stays positive. */
  method DispatchLoop(time: nat, interval: nat, iterations: seq<Iteration>) returns (sent: seq<nat>)
    requires interval > 0
    ensures sent == After(time, interval, iterations).sent
  {
    var lastBeacon: nat, nextBeacon: nat := 0, time + interval;
    sent := [];
    for k := 0 to |iterations|
      invariant Clock(lastBeacon, nextBeacon, sent) == After(time, interval, iterations[..k])
    {
      assert iterations[..k + 1][..k] == iterations[..k];
      var now := iterations[k].now;
      if now >= nextBeacon {
        sent := sent + [now];
        lastBeacon := now;
        nextBeacon := now + interval;
      }
    }
    assert iterations[..|iterations|] == iterations;
  }

  /** What the environment grants: time does not go back, a poll returns within the
      timeout it was given, and the loop gets from one poll to the next, and to the first,
      within `drain`. */
  predicate Timely(time: nat, interval: nat, drain: nat, iterations: seq<Iteration>)
    decreases |iterations|
  {
    if iterations == [] then true
    else
      var front, last := iterations[..|iterations| - 1], iterations[|iterations| - 1];
      var c := After(time, interval, front);
      && Timely(time, interval, drain, front)
      && (var before := if front == [] then time else front[|front| - 1].now; before <= last.head <= before + drain)
      && last.head <= last.now
      && (c.lastBeacon <= c.nextBeacon ==> last.now <= last.head + (c.nextBeacon - c.lastBeacon))
  }

  ghost predicate Spaced(sent: seq<nat>, interval: nat, drain: nat) {
    forall i, j | 0 <= i < j < |sent| && j == i + 1 :: sent[i] + interval <= sent[j] < sent[i] + 2 * interval + drain
  }

  /** After the first beacon the timeout is the interval, and the loop has not been
      past the next beacon's time for longer than a drain. */
  lemma {:induction false} SpacingHolds(time: nat, interval: nat, drain: nat, iterations: seq<Iteration>)
    requires interval > 0 && Timely(time, interval, drain, iterations)
    ensures var c := After(time, interval, iterations);
            && Spaced(c.sent, interval, drain)
            && (if c.sent == [] then c.lastBeacon == 0 && c.nextBeacon == time + interval
                else c.lastBeacon == c.sent[|c.sent| - 1] && c.nextBeacon == c.lastBeacon + interval)
            && (iterations != [] ==> iterations[|iterations| - 1].now < c.nextBeacon)
  {
    if iterations != [] {
      SpacingHolds(time, interval, drain, iterations[..|iterations| - 1]);
    }
  }

  /** Beacon spacing. In every run of the loop, beacons after the first follow their
      predecessor by at least the interval and by less than two intervals and a drain. */
  lemma {:induction false} BeaconSpacing(time: nat, interval: nat, drain: nat, iterations: seq<Iteration>)
    requires interval > 0 && Timely(time, interval, drain, iterations)
    ensures Spaced(After(time, interval, iterations).sent, interval, drain)
  {
    SpacingHolds(time, interval, drain, iterations);
  }

  // ---- the first beacon ----

  /** Until the first beacon lastBeacon is zero, so a poll is given the whole time since
      the epoch and the interval. In every run the first beacon is not early, and is
      late by no more than such a poll. */
  lemma {:induction false} FirstBeaconBound(time: nat, interval: nat, drain: nat, iterations: seq<Iteration>)
    requires interval > 0 && Timely(time, interval, drain, iterations)
    ensures var sent := After(time, interval, iterations).sent;
            sent != [] ==> time + interval <= sent[0] < 2 * (time + interval) + drain
  {
    if iterations != [] {
      var front := iterations[..|iterations| - 1];
      FirstBeaconBound(time, interval, drain, front);
      SpacingHolds(time, interval, drain, front);
    }
  }

  /** In every run the first beacon meets the bound that all others meet, counted from
      the start of the loop. */
  ghost predicate FirstOnTime(time: nat, interval: nat, drain: nat) {
    forall iterations | Timely(time, interval, drain, iterations) :: FirstWithin(time, interval, drain, iterations)
  }

  predicate FirstWithin(time: nat, interval: nat, drain: nat, iterations: seq<Iteration>) {
    var sent := After(time, interval, iterations).sent;
    sent != [] ==> sent[0] < time + 2 * interval + drain
  }

  /** A poll that returns just before the beacon is due, and one that uses its timeout. */
  function LateRun(time: nat, interval: nat, drain: nat): seq<Iteration>
    requires interval > 0
  {
    var due := time + interval;
    [Iteration(time, due - 1), Iteration(due - 1 + drain, due - 1 + drain + due)]
  }

  /** No bound below the one above holds for all runs. */
  lemma {:induction false} LateRunIsLate(time: nat, interval: nat, drain: nat)
    requires interval > 0
    ensures Timely(time, interval, drain, LateRun(time, interval, drain))
    ensures After(time, interval, LateRun(time, interval, drain)).sent == [2 * (time + interval) + drain - 1]
  {
    var run := LateRun(time, interval, drain);
    assert run[..1] == [run[0]] && [run[0]][..0] == [];
    assert After(time, interval, []) == Start(time, interval);
    assert After(time, interval, [run[0]]) == Start(time, interval);
    assert Timely(time, interval, drain, [run[0]]);
    assert [] + [run[1].now] == [run[1].now];
  }

  /** The first beacon is on time in every run if and only if the loop starts at time
      zero, where the lastBeacon that it starts with is right. */
  lemma {:induction false} FirstOnTimeExactly(time: nat, interval: nat, drain: nat)
    requires interval > 0
    ensures FirstOnTime(time, interval, drain) <==> time == 0
  {
    if time == 0 {
      forall iterations | Timely(time, interval, drain, iterations)
        ensures FirstWithin(time, interval, drain, iterations)
      {
        FirstBeaconBound(time, interval, drain, iterations);
      }
    } else {
      LateRunIsLate(time, interval, drain);
      assert !FirstWithin(time, interval, drain, LateRun(time, interval, drain));
    }
  }
}
