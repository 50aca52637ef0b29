/** How much discovery can say, and for how long. */
module DiscoveryBounds {
  import opened Common
  import opened Naming
  import opened Discovery

  /** Announcements the startup thread may still make: --retries > 0 lets it make
      retries - 1 of them. */
  function StartupsLeft(t: Transport): nat {
    match t.publisher
    case Absent => AtLeastZero(t.mNamingConnectRetries - 1)
    case Starting => AtLeastZero(t.mNamingConnectRetries - 1)
    case Loop(retries) => AtLeastZero(retries - 1)
    case Check(retries) => AtLeastZero(retries - 1)
    case Finished => 0
  }

  /** Every announcement is accounted for: one for each peer in the table, one for
      each that was dropped from it or never got into it, and the startup, beacon and 'D'
      ones. */
  predicate Accounted(n: Node, size: nat, retries: int) {
    && n.t.mNamingConnectRetries == retries
    && n.t.published == |n.t.mPeers| + n.removals + n.startups + n.others + n.forgotten
    && |n.t.mPeers| <= size
    && n.startups + StartupsLeft(n.t) <= AtLeastZero(retries - 1)
  }

  /** Handling a naming message announces once for each peer it adds, and once where
      there is no memory to add it. */
  lemma {:induction false} DispatchCounts(t: Transport, m: NamingMsg, o: Outcome)
    requires IsConnect(m) || m.mType == 'D'
    ensures var t' := Dispatch(t, m, o).0;
            && t'.published + |t.mPeers|
               == t.published + |t'.mPeers| + (if m.mType == 'D' && m.mUuid in t.mPeers then 1 else 0)
                  + (if Forgets(t, m, o) then 1 else 0)
            && |t.outbox| <= |t'.outbox| && |t'.outbox| - |t.outbox| <= t'.published - t.published
            && t'.publisher == t.publisher && t'.mIsDispatching == t.mIsDispatching && t'.namingPub == t.namingPub
  {
    if m.mType == 'D' {
      RemoveSize(t.mPeers, m.mUuid);
    } else if m.mUuid !in t.mPeers {
      InsertSize(t.mPeers, m.mUuid, m.mEndPointAddr);
    }
  }

  lemma {:induction false} RemoveSize(peers: map<nat, nat>, uuid: nat)
    ensures |peers - {uuid}| == if uuid in peers then |peers| - 1 else |peers|
  {
    assert (peers - {uuid}).Keys == peers.Keys - {uuid};
  }

  lemma {:induction false} InsertSize(peers: map<nat, nat>, uuid: nat, endpoint: nat)
    requires uuid !in peers
    ensures |peers[uuid := endpoint]| == |peers| + 1
  {
    assert peers[uuid := endpoint].Keys == peers.Keys + {uuid};
  }

  lemma {:induction false} HandleCounts(s: System, step: Step)
    requires BaseInv(s) && Enabled(s, step) && step.Handle?
    ensures var n, n' := s.nodes[step.i], NodeAfter(s, step);
            && n'.t.published - n.t.published
               == |n'.t.mPeers| - |n.t.mPeers| + n'.removals - n.removals + n'.forgotten - n.forgotten
            && n'.forgotten >= n.forgotten
            && |n.t.outbox| <= |n'.t.outbox| && |n'.t.outbox| - |n.t.outbox| <= n'.t.published - n.t.published
            && n'.startups == n.startups && n'.others == n.others && n'.joined == n.joined && n'.welcomed == n.welcomed
            && n'.t.publisher == n.t.publisher && n'.t.mIsDispatching == n.t.mIsDispatching
            && n'.t.namingPub == n.t.namingPub
  {
    var n := s.nodes[step.i];
    assert LoggedInv(s, n.read);
    DispatchCounts(n.t, s.log[n.read], step.o);
  }

  /** The startup thread trades announcements left for announcements made. */
  lemma {:induction false} PublishCounts(n: Node, ok: bool)
    ensures var n' := PublishNode(n, ok);
            && n'.t.published - n.t.published == n'.startups - n.startups
            && |n.t.outbox| <= |n'.t.outbox| && |n'.t.outbox| - |n.t.outbox| <= n'.t.published - n.t.published
            && n'.startups + StartupsLeft(n'.t) <= n.startups + StartupsLeft(n.t)
            && (n.t.publisher.Starting? || n.t.publisher.Loop? || n.t.publisher.Check?
                ==> PublisherSteps(n'.t) < PublisherSteps(n.t))
            && n'.t.mPeers == n.t.mPeers && n'.removals == n.removals && n'.others == n.others
            && n'.t.namingPub == n.t.namingPub && n'.t.mIsDispatching == n.t.mIsDispatching
            && n'.joined == n.joined && n'.welcomed == n.welcomed && n'.forgotten == n.forgotten
  {
  }

  lemma {:induction false} WelcomeCounts(n: Node, o: Outcome)
    ensures var n' := WelcomeNode(n, o);
            && n'.t.published == n.t.published && n'.t.outbox == n.t.outbox && n'.t.mPeers == n.t.mPeers
            && n'.startups == n.startups && n'.removals == n.removals && n'.others == n.others
            && n'.forgotten == n.forgotten
            && (n.t.publisher.Absent?
                ==> StartupsLeft(n'.t) == StartupsLeft(n.t) && PublisherSteps(n'.t) == PublisherSteps(n.t))
            && (n'.t.namingPub.Up? <==> n.t.namingPub.Up?) && n'.t.mIsDispatching == n.t.mIsDispatching
  {
  }

  lemma {:induction false} PeersWithin(s: System, step: Step)
    requires Inv(s) && Enabled(s, step)
    ensures |NodeAfter(s, step).t.mPeers| <= |s.nodes|
  {
    ConnectionStep(s, step);
    assert PeersInv(Apply(s, step).nodes[step.i].t, Apply(s, step).nodes);
    AtMostBelow(NodeAfter(s, step).t.mPeers.Keys, |s.nodes|);
  }

  lemma {:induction false} AccountedStep(s: System, step: Step, retries: int)
    requires BaseInv(s) && Enabled(s, step) && Accounted(s.nodes[step.i], |s.nodes|, retries)
    requires |NodeAfter(s, step).t.mPeers| <= |s.nodes|
    ensures Accounted(NodeAfter(s, step), |s.nodes|, retries)
  {
    var n := s.nodes[step.i];
    Frame(s, step);
    match step
    case Handle(_, _) => HandleCounts(s, step);
    case Publish(_, ok) => PublishCounts(n, ok);
    case Welcome(_, o) => assert n.t.publisher.Absent? by { assert NodeInv(n, step.i, |s.log|); } WelcomeCounts(n, o);
    case _ =>
  }

  lemma {:induction false} AccountedAt(s: System, step: Step, retries: int, i: nat)
    requires Inv(s) && Enabled(s, step) && i < |s.nodes| && Accounted(s.nodes[i], |s.nodes|, retries)
    ensures Accounted(Apply(s, step).nodes[i], |s.nodes|, retries)
  {
    if step.i == i {
      PeersWithin(s, step);
      AccountedStep(s, step, retries);
    }
  }

  lemma {:induction false} AccountedHolds(endpoints: seq<nat>, retries: int, states: seq<System>, steps: seq<Step>,
                                          k: nat, i: nat)
    requires IsSystemRun(endpoints, retries, states, steps) && k < |states| && i < |endpoints|
    ensures |states[k].nodes| == |endpoints| && Accounted(states[k].nodes[i], |endpoints|, retries)
  {
    if k > 0 {
      AccountedHolds(endpoints, retries, states, steps, k - 1, i);
      InvHolds(endpoints, retries, states, steps, k - 1);
      AccountedAt(states[k - 1], steps[k - 1], retries, i);
    }
  }

  // ---- sums over the nodes ----

  /** What is summed: announcements made, announcements that got past the node, peers
      it could not remember, or the potential below for a system of `size` nodes and a log of `logSize`. */
  datatype Quantity = Published | Passed | Forgotten | Potential(size: nat, logSize: nat)

  function Amount(n: Node, q: Quantity): int {
    match q
    case Published => n.t.published
    case Passed => n.t.published - |n.t.outbox|
    case Forgotten => n.forgotten
    case Potential(size, logSize) => StepsLeft(n, size, logSize)
  }

  function Sum(nodes: seq<Node>, q: Quantity): int {
    if nodes == [] then 0 else Sum(nodes[..|nodes| - 1], q) + Amount(nodes[|nodes| - 1], q)
  }

  lemma {:induction false} SumUpdate(nodes: seq<Node>, i: nat, n: Node, q: Quantity)
    requires i < |nodes|
    ensures Sum(nodes[i := n], q) == Sum(nodes, q) - Amount(nodes[i], q) + Amount(n, q)
  {
    var last := |nodes| - 1;
    if i == last {
      assert nodes[i := n][..last] == nodes[..last];
    } else {
      assert nodes[i := n][..last] == nodes[..last][i := n];
      SumUpdate(nodes[..last], i, n, q);
    }
  }

  lemma {:induction false} OneMore(n: nat, each: int)
    ensures (n + 1) * each == n * each + each
  {
  }

  lemma {:induction false} SumBoundWith(nodes: seq<Node>, q: Quantity, each: int, more: Quantity)
    requires forall n | n in nodes :: Amount(n, q) <= each + Amount(n, more)
    ensures Sum(nodes, q) <= |nodes| * each + Sum(nodes, more)
  {
    if nodes != [] {
      var front := nodes[..|nodes| - 1];
      SumBoundWith(front, q, each, more);
      assert nodes[|nodes| - 1] in nodes;
      assert |nodes| == |front| + 1;
      OneMore(|front|, each);
    }
  }

  lemma {:induction false} SumBound(nodes: seq<Node>, q: Quantity, each: int)
    requires forall n | n in nodes :: Amount(n, q) <= each
    ensures Sum(nodes, q) <= |nodes| * each
  {
    if nodes != [] {
      var front := nodes[..|nodes| - 1];
      SumBound(front, q, each);
      assert nodes[|nodes| - 1] in nodes;
      assert |nodes| == |front| + 1;
      OneMore(|front|, each);
    }
  }

  // ---- how many messages ----

  /** The run has no beacon and nobody leaves. */
  predicate Settling(steps: seq<Step>) {
    forall k | 0 <= k < |steps| :: !steps[k].SendBeacon? && !steps[k].Leave?
  }

  lemma {:induction false} NobodyLeft(endpoints: seq<nat>, retries: int, states: seq<System>, steps: seq<Step>, k: nat)
    requires IsSystemRun(endpoints, retries, states, steps) && k < |states| && Settling(steps)
    ensures |states[k].nodes| == |endpoints|
    ensures forall n | n in states[k].nodes :: !n.left && n.removals == 0 && n.others == 0
  {
    if k > 0 {
      NobodyLeft(endpoints, retries, states, steps, k - 1);
      InvHolds(endpoints, retries, states, steps, k - 1);
      var s, step := states[k - 1], steps[k - 1];
      assert s.nodes[step.i] in s.nodes;
      if step.Handle? {
        assert LoggedInv(s, s.nodes[step.i].read);
        assert s.nodes[s.log[s.nodes[step.i].read].mUuid] in s.nodes;
      }
    }
  }

  /** What a node announces beyond its queue reaches the log and nothing else does. */
  lemma {:induction false} PassedStep(s: System, step: Step)
    requires BaseInv(s) && Enabled(s, step)
    ensures Amount(NodeAfter(s, step), Passed) >= Amount(s.nodes[step.i], Passed) + if step.Forward? then 1 else 0
  {
    if step.Handle? {
      HandleCounts(s, step);
    }
  }

  lemma {:induction false} LogWithinPassed(endpoints: seq<nat>, retries: int, states: seq<System>, steps: seq<Step>,
                                           k: nat)
    requires IsSystemRun(endpoints, retries, states, steps) && k < |states|
    ensures |states[k].log| <= Sum(states[k].nodes, Passed) <= Sum(states[k].nodes, Published)
  {
    if k == 0 {
      PassedOfFresh(states[0].nodes);
    } else {
      LogWithinPassed(endpoints, retries, states, steps, k - 1);
      var s, step := states[k - 1], steps[k - 1];
      InvHolds(endpoints, retries, states, steps, k - 1);
      PassedStep(s, step);
      SumUpdate(s.nodes, step.i, NodeAfter(s, step), Passed);
      PassedBelowPublished(states[k].nodes);
    }
  }

  lemma {:induction false} PassedOfFresh(nodes: seq<Node>)
    requires forall n | n in nodes :: Amount(n, Passed) == 0 && Amount(n, Published) == 0
    ensures Sum(nodes, Passed) == Sum(nodes, Published) == 0
  {
    if nodes != [] {
      assert nodes[|nodes| - 1] in nodes;
      PassedOfFresh(nodes[..|nodes| - 1]);
    }
  }

  lemma {:induction false} PassedBelowPublished(nodes: seq<Node>)
    ensures Sum(nodes, Passed) <= Sum(nodes, Published)
  {
    if nodes != [] {
      PassedBelowPublished(nodes[..|nodes| - 1]);
    }
  }

  /** Chatter. With n nodes, no beacon and no departure, at most n announcements per
      node answer a new peer and at most retries - 1 per node are startup ones, even
      when sends and connects fail, with one more each time that there is no memory for a
      peer; the log holds no more than that. */
  lemma {:induction false} MessageBound(endpoints: seq<nat>, retries: int, states: seq<System>, steps: seq<Step>,
                                        k: nat)
    requires IsSystemRun(endpoints, retries, states, steps) && k < |states| && Settling(steps)
    ensures var n := |endpoints|;
            |states[k].log| <= Sum(states[k].nodes, Published)
            <= n * n + n * AtLeastZero(retries - 1) + Sum(states[k].nodes, Forgotten)
  {
    var n, each := |endpoints|, AtLeastZero(retries - 1);
    LogWithinPassed(endpoints, retries, states, steps, k);
    EachPublished(endpoints, retries, states, steps, k);
    SumBoundWith(states[k].nodes, Published, n + each, Forgotten);
    TimesSum(n, n, each);
  }

  lemma {:induction false} TimesSum(c: int, x: int, y: int)
    ensures c * (x + y) == c * x + c * y
  {
  }

  lemma {:induction false} EachPublished(endpoints: seq<nat>, retries: int, states: seq<System>, steps: seq<Step>,
                                         k: nat)
    requires IsSystemRun(endpoints, retries, states, steps) && k < |states| && Settling(steps)
    ensures |states[k].nodes| == |endpoints|
    ensures forall n | n in states[k].nodes ::
              Amount(n, Published) <= |endpoints| + AtLeastZero(retries - 1) + Amount(n, Forgotten)
  {
    NobodyLeft(endpoints, retries, states, steps, k);
    forall node | node in states[k].nodes
      ensures Amount(node, Published) <= |endpoints| + AtLeastZero(retries - 1) + Amount(node, Forgotten)
    {
      var i :| 0 <= i < |states[k].nodes| && states[k].nodes[i] == node;
      AccountedHolds(endpoints, retries, states, steps, k, i);
    }
  }

  // ---- how many steps ----

  /** Visible actions left to the startup thread. */
  function PublisherSteps(t: Transport): nat {
    match t.publisher
    case Absent => 2 * StartupsLeft(t) + 2
    case Starting => 2 * StartupsLeft(t) + 2
    case Loop(_) => 2 * StartupsLeft(t) + 1
    case Check(_) => 2 * StartupsLeft(t) + 2
    case Finished => 0
  }

  /** Messages this node has under way or may still cause: one for each peer it
      does not know, and the startup ones; less those it caused by forgetting. */
  function Credits(n: Node, size: nat): int {
    size - |n.t.mPeers| + StartupsLeft(n.t) + |n.t.outbox| - n.forgotten
  }

  /** A potential that every step lowers: a message costs one step to forward and
      one for each node to read. */
  function StepsLeft(n: Node, size: nat, logSize: nat): int {
    (size + 1) * Credits(n, size) + OwnSteps(n, logSize)
  }

  lemma {:induction false} LogGrows(nodes: seq<Node>, size: nat, logSize: nat)
    ensures Sum(nodes, Potential(size, logSize + 1)) <= Sum(nodes, Potential(size, logSize)) + |nodes|
  {
    if nodes != [] {
      LogGrows(nodes[..|nodes| - 1], size, logSize);
    }
  }

  lemma {:induction false} Scale(c: nat, x: int, y: int, d: nat)
    requires x + d <= y
    ensures c * x + c * d <= c * y
  {
    assert c * (x + d) == c * x + c * d;
  }

  /** Fewer credits and fewer own steps make a lower potential. */
  lemma {:induction false} StepsLeftFall(n: Node, n': Node, size: nat, logSize: nat, sent: nat, own: nat)
    requires Credits(n', size) + sent <= Credits(n, size) && OwnSteps(n', logSize) + own <= OwnSteps(n, logSize)
    ensures StepsLeft(n', size, logSize) <= StepsLeft(n, size, logSize) - (size + 1) * sent - own
  {
    Scale(size + 1, Credits(n', size), Credits(n, size), sent);
  }

  lemma {:induction false} CreditsFall(s: System, step: Step)
    requires BaseInv(s) && Enabled(s, step) && !step.SendBeacon? && !step.Leave? && !step.Forward?
    requires step.Handle? ==> IsConnect(s.log[s.nodes[step.i].read])
    ensures Credits(NodeAfter(s, step), |s.nodes|) <= Credits(s.nodes[step.i], |s.nodes|)
  {
    var n := s.nodes[step.i];
    match step
    case Handle(_, _) => HandleCounts(s, step);
    case Publish(_, ok) => PublishCounts(n, ok);
    case Welcome(_, o) => assert NodeInv(n, step.i, |s.log|); WelcomeCounts(n, o);
    case _ =>
  }

  /** The part of StepsLeft that is not a multiple of the cost of a message. */
  function OwnSteps(n: Node, logSize: nat): int {
    PublisherSteps(n.t)
    + (if n.joined then logSize - n.read else 1) + (if n.welcomed then 0 else 1)
    + (if n.t.namingPub.Up? then 0 else 1) + (if n.t.mIsDispatching then 1 else 0)
  }

  lemma {:induction false} OwnStepsFall(s: System, step: Step)
    requires BaseInv(s) && Enabled(s, step) && !step.SendBeacon? && !step.Leave?
    ensures OwnSteps(NodeAfter(s, step), |s.log|) <= OwnSteps(s.nodes[step.i], |s.log|) - if step.Forward? then 0 else 1
  {
    var n := s.nodes[step.i];
    assert NodeInv(n, step.i, |s.log|);
    match step
    case Handle(_, _) => HandleCounts(s, step);
    case Publish(_, ok) => PublishCounts(n, ok);
    case Welcome(_, o) => WelcomeCounts(n, o);
    case _ =>
  }

  /** A step that is not a beacon or a departure lowers its own node's potential;
      forwarding lowers it by what the other nodes may gain. */
  lemma {:induction false} NodeStepsLeft(s: System, step: Step)
    requires BaseInv(s) && Enabled(s, step) && !step.SendBeacon? && !step.Leave?
    requires forall n | n in s.nodes :: !n.left
    ensures StepsLeft(NodeAfter(s, step), |s.nodes|, |s.log|)
            <= StepsLeft(s.nodes[step.i], |s.nodes|, |s.log|) - if step.Forward? then |s.nodes| + 1 else 1
  {
    var n := s.nodes[step.i];
    OwnStepsFall(s, step);
    if step.Forward? {
      StepsLeftFall(n, NodeAfter(s, step), |s.nodes|, |s.log|, 1, 0);
    } else {
      if step.Handle? {
        assert LoggedInv(s, n.read);
        assert s.nodes[s.log[n.read].mUuid] in s.nodes;
      }
      CreditsFall(s, step);
      StepsLeftFall(n, NodeAfter(s, step), |s.nodes|, |s.log|, 0, 1);
    }
  }

  lemma {:induction false} TotalStep(s: System, step: Step, s': System)
    requires BaseInv(s) && Enabled(s, step) && !step.SendBeacon? && !step.Leave? && s' == Apply(s, step)
    requires forall n | n in s.nodes :: !n.left
    ensures Sum(s'.nodes, Potential(|s.nodes|, |s'.log|)) <= Sum(s.nodes, Potential(|s.nodes|, |s.log|)) - 1
  {
    NodeStepsLeft(s, step);
    assert s'.nodes == s.nodes[step.i := NodeAfter(s, step)];
    assert |s'.log| == if step.Forward? then |s.log| + 1 else |s.log|;
    TotalFall(s.nodes, step.i, NodeAfter(s, step), |s.nodes|, |s.log|, step.Forward?);
  }

  lemma {:induction false} TotalFall(nodes: seq<Node>, i: nat, n: Node, size: nat, logSize: nat, forward: bool)
    requires i < |nodes| == size
    requires StepsLeft(n, size, logSize) <= StepsLeft(nodes[i], size, logSize) - if forward then size + 1 else 1
    ensures Sum(nodes[i := n], Potential(size, if forward then logSize + 1 else logSize))
              <= Sum(nodes, Potential(size, logSize)) - 1
  {
    SumUpdate(nodes, i, n, Potential(size, logSize));
    if forward {
      LogGrows(nodes[i := n], size, logSize);
    }
  }

  function StepBound(n: nat, retries: int): nat {
    var m := AtLeastZero(retries - 1);
    n * ((n + 1) * (n + m) + 2 * m + 6)
  }

  lemma {:induction false} InitialPotential(endpoints: seq<nat>, retries: int)
    ensures Sum(Initial(endpoints, retries).nodes, Potential(|endpoints|, 0)) <= StepBound(|endpoints|, retries)
  {
    var n, m := |endpoints|, AtLeastZero(retries - 1);
    SumBound(Initial(endpoints, retries).nodes, Potential(n, 0), (n + 1) * (n + m) + 2 * m + 6);
  }

  lemma {:induction false} PotentialStep(endpoints: seq<nat>, retries: int, states: seq<System>, steps: seq<Step>,
                                         k: nat)
    requires IsSystemRun(endpoints, retries, states, steps) && k < |steps| && Settling(steps)
    ensures Sum(states[k + 1].nodes, Potential(|endpoints|, |states[k + 1].log|))
            <= Sum(states[k].nodes, Potential(|endpoints|, |states[k].log|)) - 1
  {
    InvHolds(endpoints, retries, states, steps, k);
    NobodyLeft(endpoints, retries, states, steps, k);
    TotalStep(states[k], steps[k], states[k + 1]);
  }

  lemma {:induction false} PotentialFalls(endpoints: seq<nat>, retries: int, states: seq<System>, steps: seq<Step>,
                                          k: nat)
    requires IsSystemRun(endpoints, retries, states, steps) && k < |states| && Settling(steps)
    ensures k + Sum(states[k].nodes, Potential(|endpoints|, |states[k].log|))
              <= Sum(states[0].nodes, Potential(|endpoints|, 0))
  {
    if k > 0 {
      PotentialFalls(endpoints, retries, states, steps, k - 1);
      PotentialStep(endpoints, retries, states, steps, k - 1);
    }
  }

  lemma {:induction false} Distribute(c: nat, x: int, y: int)
    ensures c * (0 - (x + y)) == c * (0 - x) + c * (0 - y)
  {
  }

  predicate Within(n: Node, size: nat, logSize: nat) {
    |n.t.mPeers| <= size && (n.joined ==> n.read <= logSize)
  }

  lemma {:induction false} PotentialBelow(nodes: seq<Node>, size: nat, logSize: nat)
    requires forall n | n in nodes :: Within(n, size, logSize)
    ensures Sum(nodes, Potential(size, logSize)) >= (size + 1) * (0 - Sum(nodes, Forgotten))
  {
    if nodes != [] {
      var n := nodes[|nodes| - 1];
      assert n in nodes;
      Scale(size + 1, 0 - n.forgotten, Credits(n, size), 0);
      Distribute(size + 1, Sum(nodes[..|nodes| - 1], Forgotten), n.forgotten);
      PotentialBelow(nodes[..|nodes| - 1], size, logSize);
    }
  }

  lemma {:induction false} WithinHolds(endpoints: seq<nat>, retries: int, states: seq<System>, steps: seq<Step>, k: nat)
    requires IsSystemRun(endpoints, retries, states, steps) && k < |states|
    ensures forall n | n in states[k].nodes :: Within(n, |endpoints|, |states[k].log|)
  {
    InvHolds(endpoints, retries, states, steps, k);
    forall n | n in states[k].nodes
      ensures Within(n, |endpoints|, |states[k].log|)
    {
      var i :| 0 <= i < |states[k].nodes| && states[k].nodes[i] == n;
      AccountedHolds(endpoints, retries, states, steps, k, i);
      assert NodeInv(n, i, |states[k].log|);
    }
  }

  /** Discovery quiesces. With no beacon and no departure the length of every run is
      bounded by a cubic in the number of nodes, and each peer that could not be remembered
      adds at most a message that all nodes read. */
  lemma {:induction false} Quiesces(endpoints: seq<nat>, retries: int, states: seq<System>, steps: seq<Step>)
    requires IsSystemRun(endpoints, retries, states, steps) && Settling(steps)
    ensures |steps| <= StepBound(|endpoints|, retries) + (|endpoints| + 1) * Sum(states[|steps|].nodes, Forgotten)
  {
    PotentialFalls(endpoints, retries, states, steps, |steps|);
    InitialPotential(endpoints, retries);
    WithinHolds(endpoints, retries, states, steps, |steps|);
    PotentialBelow(states[|steps|].nodes, |endpoints|, |states[|steps|].log|);
    Combine(|steps|, Sum(states[0].nodes, Potential(|endpoints|, 0)),
            Sum(states[|steps|].nodes, Potential(|endpoints|, |states[|steps|].log|)),
            StepBound(|endpoints|, retries), |endpoints| + 1, Sum(states[|steps|].nodes, Forgotten));
  }

  lemma {:induction false} Combine(steps: nat, first: int, last: int, bound: int, c: nat, forgotten: int)
    requires steps + last <= first <= bound && last >= c * (0 - forgotten)
    ensures steps <= bound + c * forgotten
  {
    Distribute(c, forgotten, 0 - forgotten);
  }

  /** Where such a run ends, the nodes are a full mesh: when no step is possible any
      more, any two nodes without a failed call that got their own announcement back
      have each other in their tables and are connected both ways. */
  lemma {:induction false} SettlesInFullMesh(endpoints: seq<nat>, retries: int, states: seq<System>, steps: seq<Step>,
                                             a: nat, b: nat)
    requires IsSystemRun(endpoints, retries, states, steps) && Settling(steps)
    requires forall step: Step :: Enabled(states[|steps|], step) ==> step.SendBeacon? || step.Leave?
    requires var s := states[|steps|];
             a < |s.nodes| && b < |s.nodes| && !s.nodes[a].faulty && !s.nodes[b].faulty
             && GotOwn(s, a) && GotOwn(s, b)
    ensures var s := states[|steps|]; Reaches(s, a, b) && Reaches(s, b, a)
  {
    var s := states[|steps|];
    NobodyLeft(endpoints, retries, states, steps, |steps|);
    StillDispatching(endpoints, retries, states, steps, |steps|);
    InvHolds(endpoints, retries, states, steps, |steps|);
    forall i | i == a || i == b
      ensures s.nodes[i].joined && !s.nodes[i].left && Drained(s, i)
    {
      assert s.nodes[i] in s.nodes && NodeInv(s.nodes[i], i, |s.log|);
      assert !Enabled(s, Subscribe(i)) && !Enabled(s, Forward(i));
      assert !Enabled(s, Welcome(i, FINE)) && !Enabled(s, Handle(i, FINE));
    }
    FullMesh(endpoints, retries, states, steps, |steps|, a, b);
  }

  lemma {:induction false} StillDispatching(endpoints: seq<nat>, retries: int, states: seq<System>, steps: seq<Step>,
                                            k: nat)
    requires IsSystemRun(endpoints, retries, states, steps) && k < |states| && Settling(steps)
    ensures |states[k].nodes| == |endpoints|
    ensures forall i | 0 <= i < |endpoints| :: states[k].nodes[i].t.mIsDispatching
  {
    if k > 0 {
      StillDispatching(endpoints, retries, states, steps, k - 1);
      NobodyLeft(endpoints, retries, states, steps, k - 1);
      assert states[k - 1].nodes[steps[k - 1].i] in states[k - 1].nodes;
    }
  }
}
