/** The startup thread goes on announcing its node until the announcement comes back. */
module DiscoveryStartup {
  import opened Common
  import opened Naming
  import opened Discovery

  // ---- it does not give up early ----

  /** The sends tried and those left are all that are allowed; and a thread that has ended
      at a node still dispatching has used them up, or has been answered. */
  ghost predicate StartupInv(n: Node, i: nat, log: seq<NamingMsg>, retries: int) {
    && n.t.mNamingConnectRetries == retries && n.attempts <= AtLeastZero(retries - 1)
    && match n.t.publisher {
         case Absent => n.attempts == 0
         case Starting => n.attempts == 0
         case Loop(r) => n.attempts + AtLeastZero(r - 1) == AtLeastZero(retries - 1)
         case Check(r) => n.attempts + AtLeastZero(r - 1) == AtLeastZero(retries - 1)
         case Finished => Accomplished(n, i, log, retries)
       }
  }

  ghost predicate Accomplished(n: Node, i: nat, log: seq<NamingMsg>, retries: int) {
    !n.t.mIsDispatching || n.attempts == AtLeastZero(retries - 1) || OwnRead(log, n.cleared, n.read, i)
  }

  lemma {:induction false} StartupPublish(n: Node, i: nat, log: seq<NamingMsg>, retries: int, ok: bool)
    requires StartupInv(n, i, log, retries) && SignalInv(n, i, log)
    ensures StartupInv(PublishNode(n, ok), i, log, retries)
  {
  }

  /** Any other step leaves the thread where it is, and an announcement read stays read. */
  lemma {:induction false} StartupSame(n: Node, n': Node, i: nat, log: seq<NamingMsg>, log': seq<NamingMsg>,
                                       retries: int)
    requires StartupInv(n, i, log, retries) && log <= log' && n.read <= n'.read && n'.cleared == n.cleared
    requires n'.t.publisher == n.t.publisher || (n.t.publisher.Absent? && n'.t.publisher.Starting?)
    requires n'.attempts == n.attempts && n'.t.mNamingConnectRetries == n.t.mNamingConnectRetries
    requires n'.t.mIsDispatching ==> n.t.mIsDispatching
    ensures StartupInv(n', i, log', retries)
  {
    if OwnRead(log, n.cleared, n.read, i) {
      var k: nat :| n.cleared <= k < n.read && From(log, k, i) && IsConnect(log[k]);
      assert From(log', k, i) && log'[k] == log[k];
    }
  }

  lemma {:induction false} StartupFrame(s: System, step: Step)
    requires Enabled(s, step) && !step.Publish?
    requires step.Handle? ==> IsConnect(s.log[s.nodes[step.i].read]) || s.log[s.nodes[step.i].read].mType == 'D'
    ensures var n, n' := s.nodes[step.i], NodeAfter(s, step);
            && n'.cleared == n.cleared && n'.attempts == n.attempts && (n'.t.mIsDispatching ==> n.t.mIsDispatching)
            && (n'.t.publisher == n.t.publisher || (step.Welcome? && n'.t.publisher.Starting?))
  {
  }

  lemma {:induction false} StartupStep(s: System, step: Step, i: nat, retries: int)
    requires BaseInv(s) && Enabled(s, step) && i < |s.nodes|
    requires StartupInv(s.nodes[i], i, s.log, retries) && SignalInv(s.nodes[i], i, s.log)
    ensures StartupInv(Apply(s, step).nodes[i], i, Apply(s, step).log, retries)
  {
    var n, s' := s.nodes[i], Apply(s, step);
    assert NodeInv(n, i, |s.log|);
    if step.i == i && step.Publish? {
      StartupPublish(n, i, s.log, retries, step.ok);
    } else {
      if step.i == i {
        Frame(s, step);
        if step.Handle? {
          assert LoggedInv(s, n.read);
        }
        StartupFrame(s, step);
      }
      StartupSame(n, s'.nodes[i], i, s.log, s'.log, retries);
    }
  }

  lemma {:induction false} StartupHolds(endpoints: seq<nat>, retries: int, states: seq<System>, steps: seq<Step>,
                                        k: nat, i: nat)
    requires IsSystemRun(endpoints, retries, states, steps) && k < |states| && i < |endpoints|
    ensures |states[k].nodes| == |endpoints| && StartupInv(states[k].nodes[i], i, states[k].log, retries)
  {
    if k > 0 {
      StartupHolds(endpoints, retries, states, steps, k - 1, i);
      InvHolds(endpoints, retries, states, steps, k - 1);
      SignalHolds(endpoints, retries, states, steps, k - 1, i);
      StartupStep(states[k - 1], steps[k - 1], i, retries);
    }
  }

  /** Startup. In every state of every run, at a node that is still dispatching and whose
      startup thread has ended, an own announcement has been read back since the thread
      began, or the thread has tried all the sends it may, max(retries - 1, 0) of them. It
      never tries more. */
  lemma {:induction false} AnnouncesUntilEchoed(endpoints: seq<nat>, retries: int, states: seq<System>,
                                                steps: seq<Step>, k: nat, i: nat)
    requires IsSystemRun(endpoints, retries, states, steps) && k < |states| && i < |endpoints| == |states[k].nodes|
    ensures var s := states[k]; var n := s.nodes[i];
            && (n.t.mIsDispatching && n.t.publisher.Finished? ==>
                  OwnRead(s.log, n.cleared, n.read, i) || n.attempts == AtLeastZero(retries - 1))
            && n.attempts <= AtLeastZero(retries - 1)
  {
    StartupHolds(endpoints, retries, states, steps, k, i);
  }

  // ---- a send that is lost is made up for ----

  /** One node whose startup thread is in its loop, with an empty log. */
  predicate Waiting(s: System, link: Link, left: int, attempts: nat, outbox: seq<NamingMsg>) {
    && |s.nodes| == 1 && s.log == [] && var n := s.nodes[0];
    && n.joined && n.welcomed && n.start == n.read == n.cleared == 0 && n.t.mUuid == 0 && n.t.mPeers == map[]
    && n.t.mIsDispatching && !n.t.mNamingConnected && n.t.namingPub == link && n.t.outbox == outbox
    && n.t.publisher == Loop(left) && n.attempts == attempts && !n.faulty
  }

  lemma {:induction false} Begins(endpoint: nat, retries: int) returns (s: System)
    ensures Reachable([endpoint], retries, s) && Waiting(s, Connecting, retries, 0, [])
  {
    var none: seq<Step> := [];
    s := Initial([endpoint], retries);
    assert IsSystemRun([endpoint], retries, [s], none) && [s][|none|] == s;
    s := Take([endpoint], retries, s, Subscribe(0));
    s := Take([endpoint], retries, s, Welcome(0, FINE));
    s := Take([endpoint], retries, s, Publish(0, true));
  }

  /** The first `lost` sends happen before the link is up, and the socket drops them. */
  lemma {:induction false} LosesSends(endpoint: nat, retries: int, lost: nat) returns (s: System)
    requires lost < retries
    ensures Reachable([endpoint], retries, s) && Waiting(s, Connecting, retries - lost, lost, [])
  {
    if lost == 0 {
      s := Begins(endpoint, retries);
    } else {
      var before := LosesSends(endpoint, retries, lost - 1);
      s := LosesOne(endpoint, retries, before, lost - 1);
    }
  }

  lemma {:induction false} LosesOne(endpoint: nat, retries: int, s0: System, lost: nat) returns (s: System)
    requires lost + 1 < retries && Reachable([endpoint], retries, s0)
    requires Waiting(s0, Connecting, retries - lost, lost, [])
    ensures Reachable([endpoint], retries, s) && Waiting(s, Connecting, retries - lost - 1, lost + 1, [])
  {
    s := Take([endpoint], retries, s0, Publish(0, true));
    s := Take([endpoint], retries, s, Publish(0, true));
  }

  /** However many sends are lost, if one more is allowed and the link comes up before it,
      there is a run in which it comes back and ends the thread. */
  lemma {:induction false} LostSendsMadeUp(endpoint: nat, retries: int, lost: nat) returns (s: System)
    requires lost + 1 < retries
    ensures Reachable([endpoint], retries, s) && |s.nodes| == 1 && GotOwn(s, 0) && s.nodes[0].t.mNamingConnected
    ensures s.nodes[0].t.publisher.Finished? && s.nodes[0].attempts == lost + 1 && s.nodes[0].t.mIsDispatching
  {
    s := LosesSends(endpoint, retries, lost);
    s := Take([endpoint], retries, s, LinkUp(0));
    s := SendArrives(endpoint, retries, s, lost);
    s := Take([endpoint], retries, s, Handle(0, FINE));
    assert From(s.log, 0, 0) && s.nodes[0].start <= 0 < s.nodes[0].read;
    s := Take([endpoint], retries, s, Publish(0, true));
  }

  lemma {:induction false} SendArrives(endpoint: nat, retries: int, s0: System, lost: nat) returns (s: System)
    requires lost + 1 < retries && Reachable([endpoint], retries, s0) && Waiting(s0, Up, retries - lost, lost, [])
    ensures Reachable([endpoint], retries, s) && |s.nodes| == 1 && |s.log| == 1
    ensures IsConnect(s.log[0]) && s.log[0].mUuid == 0
    ensures var n := s.nodes[0];
            && n.joined && n.welcomed && n.start == n.read == n.cleared == 0 && n.t.mUuid == 0 && n.t.mPeers == map[]
            && n.t.mIsDispatching && n.t.publisher.Check? && n.attempts == lost + 1
  {
    s := Take([endpoint], retries, s0, Publish(0, true));
    s := Take([endpoint], retries, s, Forward(0));
  }

  // ---- a stopped node ----

  /** Only a node that has said goodbye stops dispatching. */
  lemma {:induction false} StoppedHasLeft(endpoints: seq<nat>, retries: int, states: seq<System>, steps: seq<Step>,
                                          k: nat, i: nat)
    requires IsSystemRun(endpoints, retries, states, steps) && k < |states| && i < |endpoints|
    ensures |states[k].nodes| == |endpoints| && (!states[k].nodes[i].t.mIsDispatching ==> states[k].nodes[i].left)
  {
    if k > 0 {
      StoppedHasLeft(endpoints, retries, states, steps, k - 1, i);
      var s, step := states[k - 1], steps[k - 1];
      Frame(s, step);
      if step.i == i {
        StopsByExit(s, step);
      }
    }
  }

  lemma {:induction false} StopsByExit(s: System, step: Step)
    requires Enabled(s, step)
    ensures !NodeAfter(s, step).t.mIsDispatching ==> !s.nodes[step.i].t.mIsDispatching || step.Exit?
    ensures NodeAfter(s, step).t.mIsDispatching ==> s.nodes[step.i].t.mIsDispatching
  {
  }

  /** What a stopped node can still do, and that it announces nothing by it. */
  lemma {:induction false} SilentStep(s: System, step: Step)
    requires Enabled(s, step) && !s.nodes[step.i].t.mIsDispatching && s.nodes[step.i].left
    ensures var n, n' := s.nodes[step.i], NodeAfter(s, step);
            && n'.t.published == n.t.published && n'.attempts == n.attempts && !n'.t.mIsDispatching && n'.left
            && n'.t.outbox == if step.Forward? then n.t.outbox[1..] else n.t.outbox
  {
    assert !step.Handle? && !step.Welcome? && !step.SendBeacon? && !step.Leave?;
  }

  /** The node has stopped, and announced nothing between. */
  predicate Quiet(n: Node, n': Node) {
    && !n'.t.mIsDispatching && n'.t.published == n.t.published && n'.attempts == n.attempts
    && |n'.t.outbox| <= |n.t.outbox|
  }

  lemma {:induction false} SilentAt(s: System, step: Step, i: nat)
    requires Enabled(s, step) && i < |s.nodes| && !s.nodes[i].t.mIsDispatching && s.nodes[i].left
    ensures Quiet(s.nodes[i], Apply(s, step).nodes[i])
  {
    if step.i == i {
      SilentStep(s, step);
    }
  }

  /** A node that has stopped is silent: from then on in every run it announces nothing, by
      its startup thread or otherwise, and what it has under way only gets less. */
  lemma {:induction false} StoppedIsSilent(endpoints: seq<nat>, retries: int, states: seq<System>, steps: seq<Step>,
                                           k: nat, later: nat, i: nat)
    requires IsSystemRun(endpoints, retries, states, steps) && k <= later < |states|
    requires i < |endpoints| == |states[k].nodes| && !states[k].nodes[i].t.mIsDispatching
    ensures |states[later].nodes| == |endpoints| && Quiet(states[k].nodes[i], states[later].nodes[i])
    decreases later
  {
    if later > k {
      var s, step := states[later - 1], steps[later - 1];
      StoppedIsSilent(endpoints, retries, states, steps, k, later - 1, i);
      StoppedHasLeft(endpoints, retries, states, steps, later - 1, i);
      SilentAt(s, step, i);
      assert states[later] == Apply(s, step);
    }
  }
}
