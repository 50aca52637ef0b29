/** The peer table of every node, failed calls and departures included, against the
    messages it has read. */
module DiscoveryHistory {
  import opened Naming
  import opened Discovery

  // ---- failed calls ----

  /** The messages log[lo..hi] say that b is a peer, of those that were handled without an
      early return: the latest of these, unless a 'D' came after it. */
  predicate Learned(log: seq<NamingMsg>, handled: set<nat>, lo: nat, hi: nat, b: nat)
    requires lo <= hi <= |log|
    decreases hi
  {
    && lo < hi
    && if log[hi - 1].mUuid != b then Learned(log, handled, lo, hi - 1, b)
       else log[hi - 1].mType != 'D' && (hi - 1 in handled || Learned(log, handled, lo, hi - 1, b))
  }

  /** Message j is an announcement of b that was handled, and no 'D' of b follows it. */
  ghost predicate Introduces(log: seq<NamingMsg>, handled: set<nat>, hi: nat, b: nat, j: nat) {
    && j < hi <= |log| && From(log, j, b) && log[j].mType != 'D' && j in handled
    && forall m | j < m < hi && From(log, m, b) :: log[m].mType != 'D'
  }

  lemma {:induction false} LearnedMeans(log: seq<NamingMsg>, handled: set<nat>, lo: nat, hi: nat, b: nat)
    requires lo <= hi <= |log|
    ensures Learned(log, handled, lo, hi, b) <==> exists j: nat :: lo <= j && Introduces(log, handled, hi, b, j)
    decreases hi
  {
    if lo < hi {
      LearnedMeans(log, handled, lo, hi - 1, b);
      if Learned(log, handled, lo, hi, b) {
        if log[hi - 1].mUuid == b && hi - 1 in handled {
          assert Introduces(log, handled, hi, b, hi - 1);
        } else {
          var j: nat :| lo <= j && Introduces(log, handled, hi - 1, b, j);
          assert Introduces(log, handled, hi, b, j);
        }
      }
      if j: nat :| lo <= j && Introduces(log, handled, hi, b, j) {
        assert From(log, hi - 1, b) ==> log[hi - 1].mType != 'D';
        if j < hi - 1 {
          assert Introduces(log, handled, hi - 1, b, j);
        }
      }
    }
  }

  lemma {:induction false} LearnedSame(log: seq<NamingMsg>, log': seq<NamingMsg>, handled: set<nat>, handled': set<nat>,
                                       lo: nat, hi: nat, b: nat)
    requires lo <= hi <= |log| && log <= log' && forall j: nat | j < hi :: j in handled <==> j in handled'
    ensures Learned(log', handled', lo, hi, b) == Learned(log, handled, lo, hi, b)
    decreases hi
  {
    if lo < hi {
      LearnedSame(log, log', handled, handled', lo, hi - 1, b);
    }
  }

  ghost predicate LearnedInv(n: Node, log: seq<NamingMsg>) {
    && (forall j | j in n.handled :: j < n.read)
    && (n.joined ==>
          && n.start <= n.read <= |log|
          && forall b: nat :: b in n.t.mPeers <==> Learned(log, n.handled, n.start, n.read, b))
  }

  lemma {:induction false} LearnedHandle(n: Node, log: seq<NamingMsg>, o: Outcome)
    requires n.joined && n.read < |log| && LearnedInv(n, log)
    requires IsConnect(log[n.read]) || log[n.read].mType == 'D'
    ensures LearnedInv(HandleNode(n, log[n.read], o), log)
  {
    var m := log[n.read];
    var n' := HandleNode(n, m, o);
    forall b: nat
      ensures b in n'.t.mPeers <==> Learned(log, n'.handled, n'.start, n'.read, b)
    {
      LearnedSame(log, log, n.handled, n'.handled, n.start, n.read, b);
      assert Learned(log, n'.handled, n.start, n.read, b) <==> b in n.t.mPeers;
    }
  }

  lemma {:induction false} LearnedForward(n: Node, log: seq<NamingMsg>, m: NamingMsg)
    requires LearnedInv(n, log)
    ensures LearnedInv(n, log + [m])
  {
    if n.joined {
      forall b: nat
        ensures b in n.t.mPeers <==> Learned(log + [m], n.handled, n.start, n.read, b)
      {
        LearnedSame(log, log + [m], n.handled, n.handled, n.start, n.read, b);
      }
    }
  }

  lemma {:induction false} LearnedSubscribe(n: Node, log: seq<NamingMsg>)
    requires !n.joined && n.t.mPeers == map[] && n.handled == {}
    ensures LearnedInv(n.(joined := true, start := |log|, read := |log|), log)
  {
  }

  /** A step other than a handler's leaves the record of handled messages alone. */
  lemma {:induction false} SameHandled(s: System, step: Step)
    requires Enabled(s, step) && !step.Handle?
    ensures NodeAfter(s, step).handled == s.nodes[step.i].handled
    ensures !step.Subscribe? ==> NodeAfter(s, step).joined == s.nodes[step.i].joined
  {
  }

  lemma {:induction false} LearnedStep(s: System, step: Step, i: nat)
    requires BaseInv(s) && Enabled(s, step) && i < |s.nodes| && LearnedInv(s.nodes[i], s.log)
    ensures LearnedInv(Apply(s, step).nodes[i], Apply(s, step).log)
  {
    var n := s.nodes[i];
    assert NodeInv(n, i, |s.log|);
    if step.Forward? {
      LearnedForward(n, s.log, s.nodes[step.i].t.outbox[0]);
    } else if step.i == i {
      Frame(s, step);
      if step.Handle? {
        assert LoggedInv(s, n.read);
        LearnedHandle(n, s.log, step.o);
      } else if step.Subscribe? {
        NotYetHandled(n);
        LearnedSubscribe(n, s.log);
      } else {
        SameHandled(s, step);
      }
    }
  }

  lemma {:induction false} NotYetHandled(n: Node)
    requires n.read == 0 && forall j | j in n.handled :: j < n.read
    ensures n.handled == {}
  {
  }

  lemma {:induction false} LearnedHolds(endpoints: seq<nat>, retries: int, states: seq<System>, steps: seq<Step>,
                                        k: nat, i: nat)
    requires IsSystemRun(endpoints, retries, states, steps) && k < |states| && i < |endpoints|
    ensures |states[k].nodes| == |endpoints| && LearnedInv(states[k].nodes[i], states[k].log)
  {
    if k > 0 {
      LearnedHolds(endpoints, retries, states, steps, k - 1, i);
      InvHolds(endpoints, retries, states, steps, k - 1);
      LearnedStep(states[k - 1], steps[k - 1], i);
    }
  }

  /** Who knows whom, for every node in every state of every run, whatever calls failed: a
      has b in its table and is connected to it if and only if some announcement of b that
      a read, and that b's 'D' does not follow, was handled without an early return. */
  lemma {:induction false} ReachesExactly(endpoints: seq<nat>, retries: int, states: seq<System>, steps: seq<Step>,
                                          k: nat, a: nat, b: nat)
    requires IsSystemRun(endpoints, retries, states, steps) && k < |states|
    requires a < |endpoints| == |states[k].nodes| && b < |endpoints| && states[k].nodes[a].joined
    ensures var s := states[k]; var n := s.nodes[a];
            && (Reaches(s, a, b) <==> b in n.t.mPeers)
            && (Reaches(s, a, b) <==> exists j: nat :: n.start <= j && Introduces(s.log, n.handled, n.read, b, j))
  {
    var s := states[k];
    var n := s.nodes[a];
    LearnedHolds(endpoints, retries, states, steps, k, a);
    InvHolds(endpoints, retries, states, steps, k);
    LearnedMeans(s.log, n.handled, n.start, n.read, b);
    assert PeersInv(n.t, s.nodes);
  }

  // ---- departures ----

  /** The last message of b from lo on is a 'D', or there is none. */
  ghost predicate LastIsGoodbye(log: seq<NamingMsg>, lo: nat, b: nat) {
    forall j: nat | lo <= j && LastFrom(log, j, b) :: log[j].mType == 'D'
  }

  ghost predicate LastFrom(log: seq<NamingMsg>, j: nat, b: nat) {
    From(log, j, b) && forall m | j < m < |log| :: !From(log, m, b)
  }

  lemma {:induction false} PresentMeans(log: seq<NamingMsg>, lo: nat, hi: nat, b: nat)
    requires lo <= hi <= |log| && forall m | hi <= m < |log| :: !From(log, m, b)
    ensures Present(log, lo, hi, b) <==> !LastIsGoodbye(log, lo, b)
    decreases hi
  {
    if lo < hi {
      if log[hi - 1].mUuid == b {
        assert LastFrom(log, hi - 1, b);
      } else {
        PresentMeans(log, lo, hi - 1, b);
      }
    }
  }

  /** Departures. A node without a failed call that has read the whole log has forgotten b
      if and only if the last message of b where it reads is a 'D', or there is none. */
  lemma {:induction false} ForgottenExactly(endpoints: seq<nat>, retries: int, states: seq<System>, steps: seq<Step>,
                                            k: nat, a: nat, b: nat)
    requires IsSystemRun(endpoints, retries, states, steps) && k < |states|
    requires a < |endpoints| == |states[k].nodes| && b < |endpoints| && states[k].nodes[a].joined
    requires !states[k].nodes[a].faulty && Drained(states[k], a)
    ensures b !in states[k].nodes[a].t.mPeers <==> LastIsGoodbye(states[k].log, states[k].nodes[a].start, b)
  {
    PeerTable(endpoints, retries, states, steps, k, a, b);
    PresentMeans(states[k].log, states[k].nodes[a].start, |states[k].log|, b);
  }

  // ---- a departed node that stays known ----

  /** Node 0 has subscribed and done nothing else. */
  predicate Listening(s: System, read: nat) {
    && |s.nodes| == 2 && var n := s.nodes[0];
    && n.joined && !n.faulty && n.start == 0 && n.read == read && n.t.mUuid == 0 && n.t.mIsDispatching
    && n.t.outbox == [] && !n.t.namingPub.Up? && (read == 0 ==> n.t.mPeers == map[])
  }

  /** Node 1 is in its startup thread's loop, with these messages under way. */
  predicate Announcing(s: System, retries: int, outbox: seq<NamingMsg>) {
    && |s.nodes| == 2 && var n := s.nodes[1];
    && n.t.mUuid == 1 && n.t.namingPub.Up? && n.t.mIsDispatching && n.t.publisher == Loop(retries)
    && n.t.outbox == outbox
  }

  lemma {:induction false} BothSubscribe(endpoints: seq<nat>, retries: int) returns (s: System)
    requires |endpoints| == 2 && endpoints[0] != endpoints[1]
    ensures Reachable(endpoints, retries, s) && Listening(s, 0) && s.log == [] && !s.nodes[0].welcomed
    ensures var n := s.nodes[1]; n.joined && !n.welcomed && !n.left && n.t == Fresh(1, endpoints[1], retries)
  {
    var none: seq<Step> := [];
    s := Initial(endpoints, retries);
    assert IsSystemRun(endpoints, retries, [s], none) && [s][|none|] == s;
    s := Take(endpoints, retries, s, Subscribe(0));
    s := Take(endpoints, retries, s, Subscribe(1));
  }

  lemma {:induction false} StartsUp(endpoints: seq<nat>, retries: int) returns (s: System)
    requires |endpoints| == 2 && endpoints[0] != endpoints[1]
    ensures Reachable(endpoints, retries, s) && Listening(s, 0) && s.log == [] && !s.nodes[0].welcomed
    ensures Announcing(s, retries, []) && !s.nodes[1].left
  {
    s := BothSubscribe(endpoints, retries);
    s := Take(endpoints, retries, s, Welcome(1, FINE));
    s := Take(endpoints, retries, s, LinkUp(1));
    s := Take(endpoints, retries, s, Publish(1, true));
  }

  /** 'D' is sent, and then the startup thread, which looks only at mIsDispatching, sends 'C'. */
  lemma {:induction false} SaysGoodbyeAndHello(endpoints: seq<nat>, retries: int) returns (s: System)
    requires |endpoints| == 2 && endpoints[0] != endpoints[1] && retries >= 2
    ensures Reachable(endpoints, retries, s) && Listening(s, 0) && s.log == [] && !s.nodes[0].welcomed && |s.nodes| == 2
    ensures var n := s.nodes[1];
            && n.left && !n.t.mIsDispatching && |n.t.outbox| == 2 && n.t.outbox[0].mUuid == n.t.outbox[1].mUuid == 1
            && n.t.outbox[0].mType == 'D' && n.t.outbox[1].mType == 'C'
  {
    s := StartsUp(endpoints, retries);
    s := Take(endpoints, retries, s, Leave(1, true));
    assert Announcing(s, retries, [] + [Announcement(s.nodes[1].t, 'D')]);
    s := Take(endpoints, retries, s, Publish(1, true));
    s := Take(endpoints, retries, s, Exit(1));
  }

  lemma {:induction false} Forwarded(endpoints: seq<nat>, retries: int) returns (s: System)
    requires |endpoints| == 2 && endpoints[0] != endpoints[1] && retries >= 2
    ensures Reachable(endpoints, retries, s) && Listening(s, 0) && !s.nodes[0].welcomed && |s.nodes| == 2
    ensures s.nodes[1].left && !s.nodes[1].t.mIsDispatching && s.nodes[1].t.outbox == []
    ensures |s.log| == 2 && s.log[0].mUuid == s.log[1].mUuid == 1 && s.log[0].mType == 'D' && s.log[1].mType == 'C'
  {
    s := SaysGoodbyeAndHello(endpoints, retries);
    s := Take(endpoints, retries, s, Forward(1));
    s := Take(endpoints, retries, s, Forward(1));
  }

  /** A run after which a node has departed and its dispatch loop has ended, nothing is
      under way, and a node without a failed call still has it as a peer. */
  lemma {:induction false} DepartedStaysKnown(endpoints: seq<nat>, retries: int) returns (s: System)
    requires |endpoints| == 2 && endpoints[0] != endpoints[1] && retries >= 2
    ensures Reachable(endpoints, retries, s) && |s.nodes| == 2 && Drained(s, 0) && !s.nodes[0].faulty
    ensures s.nodes[1].left && !s.nodes[1].t.mIsDispatching && s.nodes[1].t.outbox == []
    ensures 1 in s.nodes[0].t.mPeers
  {
    s := HearsGoodbye(endpoints, retries);
    s := Take(endpoints, retries, s, Handle(0, FINE));
  }

  lemma {:induction false} HearsGoodbye(endpoints: seq<nat>, retries: int) returns (s: System)
    requires |endpoints| == 2 && endpoints[0] != endpoints[1] && retries >= 2
    ensures Reachable(endpoints, retries, s) && Listening(s, 1) && s.nodes[0].welcomed && |s.nodes| == 2
    ensures s.nodes[1].left && !s.nodes[1].t.mIsDispatching && s.nodes[1].t.outbox == []
    ensures |s.log| == 2 && s.log[1].mUuid == 1 && s.log[1].mType == 'C'
  {
    s := Forwarded(endpoints, retries);
    s := Take(endpoints, retries, s, Welcome(0, FINE));
    assert Listening(s, 0);
    s := Take(endpoints, retries, s, Handle(0, FINE));
  }

  // ---- beacons ----

  /** A beacon makes up for what failed: in every state of every run, take a node b whose
      link is up and that has nothing under way, and a node a that is dispatching and has read
      the whole log. After b's next beacon, once it is forwarded and handled without a
      failed call, a reaches b, whatever failed before. */
  lemma {:induction false} BeaconHeals(endpoints: seq<nat>, retries: int, s0: System, a: nat, b: nat)
    returns (s: System)
    requires Reachable(endpoints, retries, s0) && a < |s0.nodes| && b < |s0.nodes|
    requires s0.nodes[b].t.namingPub.Up? && s0.nodes[b].t.mIsDispatching && s0.nodes[b].t.outbox == []
    requires s0.nodes[a].welcomed && s0.nodes[a].t.mIsDispatching && s0.nodes[a].read == |s0.log|
    ensures Reachable(endpoints, retries, s) && |s.nodes| == |s0.nodes| && Reaches(s, a, b)
    ensures |s.log| == |s0.log| + 1 && s.log[|s0.log|].mType == 'c' && s.log[|s0.log|].mUuid == b
  {
    var s1 := Take(endpoints, retries, s0, SendBeacon(b, true));
    ReachableInv(endpoints, retries, s0);
    assert NodeInv(s0.nodes[b], b, |s0.log|);
    var s2 := Take(endpoints, retries, s1, Forward(b));
    assert s2.log == s0.log + [NamingMsg('c', b, s0.nodes[b].t.mPubEndpoint)];
    s := Take(endpoints, retries, s2, Handle(a, FINE));
    ReachableInv(endpoints, retries, s);
    HandledIsPeer(s2.nodes[a], s2.log[s2.nodes[a].read]);
    assert PeersInv(s.nodes[a].t, s.nodes);
  }

  lemma {:induction false} ReachableInv(endpoints: seq<nat>, retries: int, s: System)
    requires Reachable(endpoints, retries, s)
    ensures Inv(s)
  {
    var states, steps :| IsSystemRun(endpoints, retries, states, steps) && states[|steps|] == s;
    InvHolds(endpoints, retries, states, steps, |steps|);
  }

  lemma {:induction false} HandledIsPeer(n: Node, m: NamingMsg)
    requires IsConnect(m)
    ensures m.mUuid in HandleNode(n, m, FINE).t.mPeers
  {
  }
}
