/** Any number of naming transports on one proxy. The proxy is an append-only
    log; a node reads the log from the index at which its subscription took
    effect, after the welcome message that the proxy sends to each new subscriber.
    Between a node and the log there is a FIFO of messages still under way. */
module Discovery {
  import opened Naming

  /** A transport with its position in the log and its history:
      `left` it has begun to send 'D', `faulty` some handler of it returned early;
      `attempts` counts the sends its startup thread has tried; `removals`, `startups` and
      `others` count the peers it dropped on a 'D', the
      announcements of its startup thread, and its beacons and 'D's, `forgotten` the peers
      it answered and could not remember; `handled` are the messages, by their place in the
      log, that its handler did not return early from; `cleared` is how
      far it had read when its startup thread cleared mNamingConnected. */
  datatype Node = Node(
    t: Transport,
    joined: bool, welcomed: bool, start: nat, read: nat,
    left: bool, faulty: bool,
    attempts: nat, removals: nat, startups: nat, others: nat, forgotten: nat, handled: set<nat>, cleared: nat)

  datatype System = System(nodes: seq<Node>, log: seq<NamingMsg>)

  datatype Step =
    | Subscribe(i: nat)                // the proxy sees i's subscription
    | Welcome(i: nat, o: Outcome)      // i handles the welcome message
    | LinkUp(i: nat)                   // i's naming publisher reaches the proxy
    | Publish(i: nat, ok: bool)        // i's startup thread moves on
    | Forward(i: nat)                  // the proxy takes i's oldest message
    | Handle(i: nat, o: Outcome)       // i handles its next message
    | SendBeacon(i: nat, ok: bool)     // i's beacon is due
    | Leave(i: nat, ok: bool)          // i begins to stop: it sends 'D'
    | Exit(i: nat)                     // i's dispatch loop ends

  predicate Enabled(s: System, step: Step) {
    && step.i < |s.nodes|
    && var n := s.nodes[step.i];
    match step
    case Subscribe(_) => !n.joined
    case Welcome(_, _) => n.joined && !n.welcomed && n.t.mIsDispatching
    case LinkUp(_) => n.t.namingPub.Connecting?
    case Publish(_, _) => n.t.publisher.Starting? || n.t.publisher.Loop? || n.t.publisher.Check?
    case Forward(_) => n.t.outbox != []
    case Handle(_, _) => n.welcomed && n.t.mIsDispatching && n.read < |s.log|
    case SendBeacon(_, _) => n.t.mIsDispatching
    case Leave(_, _) => !n.left
    case Exit(_) => n.left && n.t.mIsDispatching
  }

  function WelcomeMsg(): NamingMsg {
    NamingMsg('W', 0, 0)
  }

  function WelcomeNode(n: Node, o: Outcome): Node {
    var (t, status) := Dispatch(n.t, WelcomeMsg(), o);
    n.(t := t, welcomed := true, faulty := n.faulty || status.Platform?)
  }

  function HandleNode(n: Node, m: NamingMsg, o: Outcome): Node {
    var (t, status) := Dispatch(n.t, m, o);
    n.(t := t, read := n.read + 1, faulty := n.faulty || status.Platform?,
       removals := n.removals + (if m.mType == 'D' && m.mUuid in n.t.mPeers then 1 else 0),
       forgotten := n.forgotten + (if Forgets(n.t, m, o) then 1 else 0),
       handled := if status.Ok? then n.handled + {n.read} else n.handled)
  }

  function PublishNode(n: Node, ok: bool): Node {
    var t := PublishStep(n.t, ok);
    n.(t := t, attempts := n.attempts + (if n.t.publisher.Loop? && t.publisher.Check? then 1 else 0),
       startups := n.startups + (if t.publisher.Check? && ok then 1 else 0),
       cleared := if n.t.publisher.Starting? then n.read else n.cleared)
  }

  function NodeAfter(s: System, step: Step): Node
    requires Enabled(s, step)
  {
    var n := s.nodes[step.i];
    match step
    case Subscribe(_) => n.(joined := true, start := |s.log|, read := |s.log|)
    case Welcome(_, o) => WelcomeNode(n, o)
    case LinkUp(_) => n.(t := n.t.(namingPub := Up))
    case Publish(_, ok) => PublishNode(n, ok)
    case Forward(_) => n.(t := n.t.(outbox := n.t.outbox[1..]))
    case Handle(_, o) => HandleNode(n, s.log[n.read], o)
    case SendBeacon(_, ok) => n.(t := Send(n.t, 'c', ok), others := n.others + if ok then 1 else 0)
    case Leave(_, ok) => n.(t := Send(n.t, 'D', ok), left := true, others := n.others + if ok then 1 else 0)
    case Exit(_) => n.(t := n.t.(mIsDispatching := false))
  }

  function Apply(s: System, step: Step): System
    requires Enabled(s, step)
  {
    System(s.nodes[step.i := NodeAfter(s, step)],
           if step.Forward? then s.log + [s.nodes[step.i].t.outbox[0]] else s.log)
  }

  /** n nodes before any of them has subscribed; node i has UUID i and announces
      endpoint endpoints[i]. */
  function Initial(endpoints: seq<nat>, retries: int): System {
    System(seq(|endpoints|, i requires 0 <= i < |endpoints| =>
                 Node(Fresh(i, endpoints[i], retries), false, false, 0, 0, false, false, 0, 0, 0, 0, 0, {}, 0)),
           [])
  }

  predicate Distinct(endpoints: seq<nat>) {
    forall i, j | 0 <= i < j < |endpoints| :: endpoints[i] != endpoints[j]
  }

  /** states[0], states[1], ... is a run that takes steps[0], steps[1], ... */
  predicate IsRun(states: seq<System>, steps: seq<Step>) {
    && |states| == |steps| + 1
    && forall k | 0 <= k < |steps| :: Enabled(states[k], steps[k]) && states[k + 1] == Apply(states[k], steps[k])
  }

  /** A run from the initial state of some system whose nodes announce distinct endpoints. */
  predicate IsSystemRun(endpoints: seq<nat>, retries: int, states: seq<System>, steps: seq<Step>) {
    && Distinct(endpoints)
    && IsRun(states, steps)
    && states[0] == Initial(endpoints, retries)
  }

  /** What the messages log[lo..hi] say about peer b: the latest one decides. */
  predicate Present(log: seq<NamingMsg>, lo: nat, hi: nat, b: nat)
    requires lo <= hi <= |log|
    decreases hi
  {
    lo < hi && if log[hi - 1].mUuid == b then log[hi - 1].mType != 'D' else Present(log, lo, hi - 1, b)
  }

  /** log[k] is from node a. */
  predicate From(log: seq<NamingMsg>, k: nat, a: nat) {
    k < |log| && log[k].mUuid == a
  }

  /** a has read one of its own announcements. */
  ghost predicate GotOwn(s: System, a: nat)
    requires a < |s.nodes|
  {
    exists k :: s.nodes[a].start <= k < s.nodes[a].read && From(s.log, k, a)
  }

  /** Nothing of a is under way, and a has read the whole log. */
  predicate Drained(s: System, a: nat)
    requires a < |s.nodes|
  {
    s.nodes[a].t.outbox == [] && s.nodes[a].read == |s.log|
  }

  /** a has b in its table and its data socket is connected to b. */
  predicate Reaches(s: System, a: nat, b: nat)
    requires a < |s.nodes| && b < |s.nodes|
  {
    && b in s.nodes[a].t.mPeers
    && s.nodes[b].t.mPubEndpoint in s.nodes[a].t.connected
  }

  // ---- invariants ----

  predicate OwnMsg(n: Node, m: NamingMsg) {
    && m.mUuid == n.t.mUuid && m.mEndPointAddr == n.t.mPubEndpoint
    && (IsConnect(m) || (m.mType == 'D' && n.left))
  }

  /** Where a node is in its startup, and that it sends only about itself. */
  predicate NodeInv(n: Node, i: nat, logSize: nat) {
    && n.t.mUuid == i
    && (if n.joined then n.start <= n.read <= logSize else n.read == 0 && n.t.mPeers == map[])
    && (n.welcomed ==> n.joined)
    && (!n.t.namingPub.Unconnected? || !n.t.publisher.Absent? ==> n.welcomed)
    && (n.t.outbox != [] ==> n.t.namingPub.Up?)
    && (forall m | m in n.t.outbox :: OwnMsg(n, m))
  }

  /** Log entry k was sent by a node that had subscribed by then. */
  predicate LoggedInv(s: System, k: nat)
    requires k < |s.log|
  {
    && s.log[k].mUuid < |s.nodes|
    && var n := s.nodes[s.log[k].mUuid];
    && OwnMsg(n, s.log[k]) && n.t.namingPub.Up? && n.joined && n.start <= k
  }

  ghost predicate BaseInv(s: System) {
    && (forall i | 0 <= i < |s.nodes| :: NodeInv(s.nodes[i], i, |s.log|))
    && (forall k | 0 <= k < |s.log| :: LoggedInv(s, k))
    && (forall i, j | 0 <= i < |s.nodes| && 0 <= j < |s.nodes| && i != j ::
          s.nodes[i].t.mPubEndpoint != s.nodes[j].t.mPubEndpoint)
  }

  /** The peer table is what the messages read so far say; it can only fall short
      of them at a faulty node. */
  ghost predicate TableInv(n: Node, log: seq<NamingMsg>) {
    n.joined ==>
      && n.start <= n.read <= |log|
      && forall b: nat ::
           && (b in n.t.mPeers ==> Present(log, n.start, n.read, b))
           && (!n.faulty && Present(log, n.start, n.read, b) ==> b in n.t.mPeers)
  }

  /** Peers are nodes of the system, recorded with their endpoint and connected. */
  ghost predicate PeersInv(t: Transport, nodes: seq<Node>) {
    forall b | b in t.mPeers ::
      b < |nodes| && t.mPeers[b] == nodes[b].t.mPubEndpoint && t.mPeers[b] in t.connected
  }

  /** The data socket is connected to peers only. */
  ghost predicate NoExtraConnection(t: Transport) {
    forall e | e in t.connected :: exists b :: b in t.mPeers && t.mPeers[b] == e
  }

  /** b can still learn of a: an announcement of a is, or is about to be, where b
      reads; or all of a's announcements, now and later, are. */
  ghost predicate Answered(s: System, a: nat, b: nat)
    requires a < |s.nodes| && b < |s.nodes|
  {
    || s.nodes[a].t.outbox != []
    || (exists k: nat :: s.nodes[b].start <= k && From(s.log, k, a))
    || (forall k: nat | From(s.log, k, a) :: s.nodes[b].start <= k)
  }

  ghost predicate AnswerInv(s: System) {
    forall a, k: nat | 0 <= a < |s.nodes| && s.nodes[a].start <= k < s.nodes[a].read && k < |s.log|
                       && IsConnect(s.log[k]) && s.log[k].mUuid < |s.nodes| && !s.nodes[a].faulty ::
      Answered(s, a, s.log[k].mUuid)
  }

  ghost predicate Inv(s: System) {
    && BaseInv(s) && AnswerInv(s)
    && (forall i | 0 <= i < |s.nodes| ::
          && TableInv(s.nodes[i], s.log) && PeersInv(s.nodes[i].t, s.nodes)
          && (s.nodes[i].faulty || NoExtraConnection(s.nodes[i].t)))
  }

  // ---- every step keeps them ----

  /** What no step changes or takes back at the node that takes it. */
  predicate Kept(n: Node, n': Node) {
    && n'.t.mUuid == n.t.mUuid && n'.t.mPubEndpoint == n.t.mPubEndpoint
    && n'.t.mNamingConnectRetries == n.t.mNamingConnectRetries
    && (n.joined ==> n'.joined && n'.start == n.start)
    && (n.t.namingPub.Up? ==> n'.t.namingPub.Up?)
    && (n.left ==> n'.left) && (n.faulty ==> n'.faulty)
  }

  predicate SamePeers(n: Node, n': Node) {
    n'.start == n.start && n'.read == n.read && n'.t.mPeers == n.t.mPeers && n'.t.connected == n.t.connected
  }

  lemma {:induction false} KeptHandle(n: Node, m: NamingMsg, o: Outcome)
    ensures Kept(n, HandleNode(n, m, o))
  {
  }

  lemma {:induction false} KeptWelcome(n: Node, o: Outcome)
    ensures Kept(n, WelcomeNode(n, o)) && SamePeers(n, WelcomeNode(n, o))
  {
  }

  lemma {:induction false} KeptPublish(n: Node, ok: bool)
    ensures Kept(n, PublishNode(n, ok)) && SamePeers(n, PublishNode(n, ok))
  {
  }

  lemma {:induction false} Frame(s: System, step: Step)
    requires Enabled(s, step)
    ensures var n, n' := s.nodes[step.i], NodeAfter(s, step);
            && Kept(n, n')
            && (if step.Subscribe? then
                  n'.start == n'.read && n'.t.mPeers == n.t.mPeers && n'.t.connected == n.t.connected
                else if step.Handle? then n'.start == n.start && n'.read == n.read + 1
                else SamePeers(n, n'))
  {
    var n := s.nodes[step.i];
    match step
    case Handle(_, o) => KeptHandle(n, s.log[n.read], o);
    case Welcome(_, o) => KeptWelcome(n, o);
    case Publish(_, ok) => KeptPublish(n, ok);
    case _ =>
  }

  /** What is under way from a node was so before, or is an announcement of its own. */
  lemma {:induction false} NewInOutbox(s: System, step: Step, m: NamingMsg)
    requires Enabled(s, step) && m in NodeAfter(s, step).t.outbox
    ensures var t := s.nodes[step.i].t;
            m in t.outbox || (t.namingPub.Up? && m == Announcement(t, m.mType) && (m.mType == 'D' || IsConnect(m)))
    ensures m in s.nodes[step.i].t.outbox || (m.mType == 'D' <==> step.Leave?)
  {
    var t := s.nodes[step.i].t;
    var c := if step.Leave? then 'D' else if step.SendBeacon? then 'c' else 'C';
    assert m in t.outbox || m == Announcement(t, c);
  }

  /** A node goes on sending only about itself. */
  lemma {:induction false} OutboxStep(s: System, step: Step)
    requires Enabled(s, step) && NodeInv(s.nodes[step.i], step.i, |s.log|)
    ensures forall m | m in NodeAfter(s, step).t.outbox :: OwnMsg(NodeAfter(s, step), m)
    ensures NodeAfter(s, step).t.outbox != [] ==> NodeAfter(s, step).t.namingPub.Up?
  {
    var n, n' := s.nodes[step.i], NodeAfter(s, step);
    Frame(s, step);
    assert step.Leave? ==> n'.left;
    forall m | m in n'.t.outbox
      ensures OwnMsg(n', m) && n.t.namingPub.Up?
    {
      NewInOutbox(s, step, m);
      assert m in n.t.outbox ==> OwnMsg(n, m);
    }
    assert n'.t.outbox != [] ==> n'.t.outbox[0] in n'.t.outbox;
  }

  lemma {:induction false} NodeStep(s: System, step: Step)
    requires Enabled(s, step) && NodeInv(s.nodes[step.i], step.i, |s.log|)
    requires step.Handle? ==> IsConnect(s.log[s.nodes[step.i].read]) || s.log[s.nodes[step.i].read].mType == 'D'
    ensures NodeInv(NodeAfter(s, step), step.i, |Apply(s, step).log|)
  {
    Frame(s, step);
    OutboxStep(s, step);
  }

  lemma {:induction false} LoggedStep(s: System, step: Step, k: nat)
    requires BaseInv(s) && Enabled(s, step) && k < |Apply(s, step).log|
    ensures LoggedInv(Apply(s, step), k)
  {
    var n := s.nodes[step.i];
    Frame(s, step);
    if k < |s.log| {
      assert LoggedInv(s, k);
    } else {
      assert n.t.outbox[0] in n.t.outbox && NodeInv(n, step.i, |s.log|);
    }
  }

  lemma {:induction false} BaseStep(s: System, step: Step)
    requires BaseInv(s) && Enabled(s, step)
    ensures BaseInv(Apply(s, step))
  {
    var s' := Apply(s, step);
    var n := s.nodes[step.i];
    Frame(s, step);
    if step.Handle? {
      assert LoggedInv(s, n.read);
    }
    NodeStep(s, step);
    forall k | 0 <= k < |s'.log|
      ensures LoggedInv(s', k)
    {
      LoggedStep(s, step, k);
    }
    forall j | 0 <= j < |s'.nodes|
      ensures NodeInv(s'.nodes[j], j, |s'.log|)
    {
      assert NodeInv(s.nodes[j], j, |s.log|);
    }
  }

  lemma {:induction false} PresentPrefix(log: seq<NamingMsg>, more: seq<NamingMsg>, lo: nat, hi: nat, b: nat)
    requires lo <= hi <= |log|
    ensures Present(log + more, lo, hi, b) == Present(log, lo, hi, b)
    decreases hi
  {
    if lo < hi && log[hi - 1].mUuid != b {
      PresentPrefix(log, more, lo, hi - 1, b);
    }
  }

  /** A peer that is present was announced by some message of the range. */
  lemma {:induction false} PresentWitness(log: seq<NamingMsg>, lo: nat, hi: nat, b: nat) returns (k: nat)
    requires lo <= hi <= |log| && Present(log, lo, hi, b)
    ensures lo <= k < hi && From(log, k, b) && log[k].mType != 'D'
    decreases hi
  {
    if log[hi - 1].mUuid == b {
      k := hi - 1;
    } else {
      k := PresentWitness(log, lo, hi - 1, b);
    }
  }

  /** A peer that announced itself in the range and never left is present. */
  lemma {:induction false} PresentIfNeverLeft(log: seq<NamingMsg>, lo: nat, hi: nat, b: nat, k: nat)
    requires lo <= k < hi <= |log| && From(log, k, b)
    requires forall j: nat | From(log, j, b) :: log[j].mType != 'D'
    ensures Present(log, lo, hi, b)
    decreases hi
  {
    if log[hi - 1].mUuid != b {
      PresentIfNeverLeft(log, lo, hi - 1, b, k);
    } else {
      assert From(log, hi - 1, b);
    }
  }

  /** Handling one more message keeps the table in line with the messages read. */
  lemma {:induction false} TableHandle(n: Node, log: seq<NamingMsg>, o: Outcome)
    requires n.joined && n.read < |log| && TableInv(n, log)
    requires IsConnect(log[n.read]) || log[n.read].mType == 'D'
    ensures TableInv(HandleNode(n, log[n.read], o), log)
  {
  }

  lemma {:induction false} TableForward(n: Node, log: seq<NamingMsg>, m: NamingMsg)
    requires TableInv(n, log)
    ensures TableInv(n, log + [m])
  {
    if n.joined {
      forall b: nat
        ensures Present(log + [m], n.start, n.read, b) == Present(log, n.start, n.read, b)
      {
        PresentPrefix(log, [m], n.start, n.read, b);
      }
    }
  }

  lemma {:induction false} TableStep(s: System, step: Step, i: nat)
    requires BaseInv(s) && Enabled(s, step) && i < |s.nodes| && TableInv(s.nodes[i], s.log)
    ensures TableInv(Apply(s, step).nodes[i], Apply(s, step).log)
  {
    var n := s.nodes[i];
    assert NodeInv(n, i, |s.log|);
    if step.Forward? {
      TableForward(n, s.log, s.nodes[step.i].t.outbox[0]);
    } else if step.i == i {
      Frame(s, step);
      if step.Handle? {
        assert LoggedInv(s, n.read);
        TableHandle(n, s.log, step.o);
      }
    }
  }

  /** Handling a message whose sender is a node of the system keeps table and
      socket together: distinct endpoints make a 'D' cut only its sender. */
  lemma {:induction false} ConnectionHandle(t: Transport, nodes: seq<Node>, m: NamingMsg, o: Outcome)
    requires PeersInv(t, nodes) && (IsConnect(m) || m.mType == 'D')
    requires m.mUuid < |nodes| && m.mEndPointAddr == nodes[m.mUuid].t.mPubEndpoint
    requires forall j | 0 <= j < |nodes| && j != m.mUuid :: nodes[j].t.mPubEndpoint != m.mEndPointAddr
    ensures PeersInv(Dispatch(t, m, o).0, nodes)
    ensures NoExtraConnection(t) && Dispatch(t, m, o).1.Ok? ==> NoExtraConnection(Dispatch(t, m, o).0)
  {
    var t' := Dispatch(t, m, o).0;
    forall b | b in t'.mPeers
      ensures b < |nodes| && t'.mPeers[b] == nodes[b].t.mPubEndpoint && t'.mPeers[b] in t'.connected
    {
      assert b != m.mUuid ==> b in t.mPeers;
    }
    if NoExtraConnection(t) && Dispatch(t, m, o).1.Ok? {
      forall e | e in t'.connected
        ensures exists b :: b in t'.mPeers && t'.mPeers[b] == e
      {
        if e == m.mEndPointAddr {
          assert m.mUuid in t'.mPeers && t'.mPeers[m.mUuid] == e;
        } else {
          var b :| b in t.mPeers && t.mPeers[b] == e;
          assert b in t'.mPeers && t'.mPeers[b] == e;
        }
      }
    }
  }

  lemma {:induction false} ConnectionStep(s: System, step: Step)
    requires Inv(s) && Enabled(s, step)
    ensures forall i | 0 <= i < |s.nodes| :: PeersInv(Apply(s, step).nodes[i].t, Apply(s, step).nodes)
    ensures Apply(s, step).nodes[step.i].faulty || NoExtraConnection(Apply(s, step).nodes[step.i].t)
  {
    var n, n' := s.nodes[step.i], NodeAfter(s, step);
    Frame(s, step);
    assert PeersInv(n.t, s.nodes) && (n.faulty || NoExtraConnection(n.t));
    if step.Handle? {
      assert LoggedInv(s, n.read);
      ConnectionHandle(n.t, s.nodes, s.log[n.read], step.o);
    } else {
      assert PeersInv(n'.t, s.nodes);
    }
    forall i | 0 <= i < |s.nodes|
      ensures PeersInv(Apply(s, step).nodes[i].t, Apply(s, step).nodes)
    {
      PeersFrame(if i == step.i then n'.t else s.nodes[i].t, s.nodes, step.i, n');
    }
  }

  lemma {:induction false} PeersFrame(t: Transport, nodes: seq<Node>, i: nat, n: Node)
    requires PeersInv(t, nodes) && i < |nodes| && n.t.mPubEndpoint == nodes[i].t.mPubEndpoint
    ensures PeersInv(t, nodes[i := n])
  {
  }

  /** One step keeps an answer: what a has logged stays logged, what a has under
      way is logged where b reads, and whatever a logs from now on is too. */
  lemma {:induction false} AnsweredStep(s: System, step: Step, a: nat, b: nat)
    requires BaseInv(s) && Enabled(s, step) && a < |s.nodes| && b < |s.nodes|
    requires s.nodes[b].joined && Answered(s, a, b)
    ensures Answered(Apply(s, step), a, b)
  {
    var s' := Apply(s, step);
    assert NodeInv(s.nodes[b], b, |s.log|);
    assert NodeInv(s.nodes[a], a, |s.log|);
    assert s'.nodes[b].start == s.nodes[b].start;
    if step == Forward(a) {
      assert s.nodes[a].t.outbox[0] in s.nodes[a].t.outbox;
      assert From(s'.log, |s.log|, a);
    } else if k: nat :| s.nodes[b].start <= k && From(s.log, k, a) {
      assert From(s'.log, k, a);
    } else if step.Forward? {
      assert s.nodes[step.i].t.outbox[0] in s.nodes[step.i].t.outbox;
      assert NodeInv(s.nodes[step.i], step.i, |s.log|);
      assert forall k: nat | From(s'.log, k, a) :: From(s.log, k, a);
    }
  }

  /** The moment a adds b: it announces itself where b reads, unless its publisher
      is not up, and then nothing of it is in the log yet. */
  lemma {:induction false} NewPeerAnswered(s: System, a: nat, o: Outcome)
    requires BaseInv(s) && Enabled(s, Handle(a, o))
    requires IsConnect(s.log[s.nodes[a].read]) && s.log[s.nodes[a].read].mUuid !in s.nodes[a].t.mPeers
    requires !Apply(s, Handle(a, o)).nodes[a].faulty && s.log[s.nodes[a].read].mUuid < |s.nodes|
    ensures Answered(Apply(s, Handle(a, o)), a, s.log[s.nodes[a].read].mUuid)
  {
    if !s.nodes[a].t.namingPub.Up? {
      assert forall k: nat | k < |s.log| :: LoggedInv(s, k) && !From(s.log, k, a);
    }
  }

  lemma {:induction false} AnswerAt(s: System, step: Step, a: nat, k: nat)
    requires Inv(s) && Enabled(s, step) && a < |s.nodes| && k < |s.log| && IsConnect(s.log[k])
    requires var n' := Apply(s, step).nodes[a]; n'.start <= k < n'.read && !n'.faulty
    ensures s.log[k].mUuid < |s.nodes| && Answered(Apply(s, step), a, s.log[k].mUuid)
  {
    var n := s.nodes[a];
    Frame(s, step);
    assert LoggedInv(s, k);
    var b := s.log[k].mUuid;
    if k < n.read {
      assert Answered(s, a, b);
      AnsweredStep(s, step, a, b);
    } else if b !in n.t.mPeers {
      NewPeerAnswered(s, a, step.o);
    } else {
      KnownPeerAnswered(s, a, b);
      AnsweredStep(s, step, a, b);
    }
  }

  /** A peer in the table was answered when it was read. */
  lemma {:induction false} KnownPeerAnswered(s: System, a: nat, b: nat)
    requires Inv(s) && a < |s.nodes| && b < |s.nodes| && s.nodes[a].joined && !s.nodes[a].faulty
    requires b in s.nodes[a].t.mPeers
    ensures s.nodes[b].joined && Answered(s, a, b)
  {
    var n := s.nodes[a];
    assert TableInv(n, s.log) && NodeInv(n, a, |s.log|);
    var j := PresentWitness(s.log, n.start, n.read, b);
    assert LoggedInv(s, j);
    assert Answered(s, a, s.log[j].mUuid);
  }

  lemma {:induction false} AnswerStep(s: System, step: Step)
    requires Inv(s) && Enabled(s, step)
    ensures AnswerInv(Apply(s, step))
  {
    var s' := Apply(s, step);
    BaseStep(s, step);
    Frame(s, step);
    forall a, k: nat | 0 <= a < |s'.nodes| && s'.nodes[a].start <= k < s'.nodes[a].read && k < |s'.log|
                       && IsConnect(s'.log[k]) && s'.log[k].mUuid < |s'.nodes| && !s'.nodes[a].faulty
      ensures Answered(s', a, s'.log[k].mUuid)
    {
      assert NodeInv(s.nodes[a], a, |s.log|);
      AnswerAt(s, step, a, k);
    }
  }

  lemma {:induction false} InvStep(s: System, step: Step)
    requires Inv(s) && Enabled(s, step)
    ensures Inv(Apply(s, step))
  {
    BaseStep(s, step);
    ConnectionStep(s, step);
    AnswerStep(s, step);
    forall i | 0 <= i < |s.nodes|
      ensures TableInv(Apply(s, step).nodes[i], Apply(s, step).log)
    {
      TableStep(s, step, i);
    }
  }

  lemma {:induction false} InvHolds(endpoints: seq<nat>, retries: int, states: seq<System>, steps: seq<Step>, k: nat)
    requires IsSystemRun(endpoints, retries, states, steps) && k < |states|
    ensures Inv(states[k])
    ensures |states[k].nodes| == |endpoints|
  {
    if k > 0 {
      InvHolds(endpoints, retries, states, steps, k - 1);
      InvStep(states[k - 1], steps[k - 1]);
    }
  }

  // ---- main results ----

  /** Full mesh. In every run, whatever the join order and whatever the other nodes
      do (leave, fail, beacon), take two nodes that have not left, had no failed
      call, and have drained the log: each has the other in its table and is
      connected to it exactly when both have got their own announcement back. */
  lemma {:induction false} FullMesh(endpoints: seq<nat>, retries: int, states: seq<System>, steps: seq<Step>, k: nat,
                                    a: nat, b: nat)
    requires IsSystemRun(endpoints, retries, states, steps) && k < |states|
    requires var s := states[k];
             a < |s.nodes| && b < |s.nodes| && s.nodes[a].joined && s.nodes[b].joined
             && !s.nodes[a].left && !s.nodes[b].left && !s.nodes[a].faulty && !s.nodes[b].faulty
             && Drained(s, a) && Drained(s, b)
    ensures var s := states[k];
            Reaches(s, a, b) && Reaches(s, b, a) <==> GotOwn(s, a) && GotOwn(s, b)
  {
    InvHolds(endpoints, retries, states, steps, k);
    var s := states[k];
    if Reaches(s, a, b) && Reaches(s, b, a) {
      KnownGotOwn(s, a, b);
      KnownGotOwn(s, b, a);
    }
    if GotOwn(s, a) && GotOwn(s, b) {
      MeshHalf(s, a, b);
      MeshHalf(s, b, a);
    }
  }

  lemma {:induction false} KnownGotOwn(s: System, a: nat, b: nat)
    requires Inv(s) && a < |s.nodes| && b < |s.nodes| && s.nodes[a].joined && b in s.nodes[a].t.mPeers
    requires Drained(s, b)
    ensures GotOwn(s, b)
  {
    assert NodeInv(s.nodes[a], a, |s.log|);
    var k := PresentWitness(s.log, s.nodes[a].start, s.nodes[a].read, b);
    assert LoggedInv(s, k);
  }

  /** If a's own announcement came before b subscribed, b's own came after a
      subscribed, and a's answer to it is where b reads. */
  lemma {:induction false} MeshHalf(s: System, a: nat, b: nat)
    requires Inv(s) && a < |s.nodes| && b < |s.nodes| && s.nodes[a].joined && s.nodes[b].joined
    requires !s.nodes[a].left && !s.nodes[b].left && !s.nodes[a].faulty && !s.nodes[b].faulty
    requires Drained(s, a) && Drained(s, b) && GotOwn(s, a) && GotOwn(s, b)
    ensures Reaches(s, b, a)
  {
    var ka :| s.nodes[a].start <= ka < s.nodes[a].read && From(s.log, ka, a);
    var kb :| s.nodes[b].start <= kb < s.nodes[b].read && From(s.log, kb, b);
    NeverLeft(s, a);
    NeverLeft(s, b);
    var k: nat := ka;
    if ka < s.nodes[b].start {
      assert LoggedInv(s, kb);
      assert Answered(s, a, s.log[kb].mUuid);
      k :| s.nodes[b].start <= k && From(s.log, k, a);
    }
    assert NodeInv(s.nodes[b], b, |s.log|);
    PresentIfNeverLeft(s.log, s.nodes[b].start, s.nodes[b].read, a, k);
  }

  lemma {:induction false} NeverLeft(s: System, a: nat)
    requires BaseInv(s) && a < |s.nodes| && !s.nodes[a].left
    ensures forall k: nat | From(s.log, k, a) :: IsConnect(s.log[k])
  {
    forall k: nat | From(s.log, k, a)
      ensures IsConnect(s.log[k])
    {
      assert LoggedInv(s, k);
    }
  }

  /** The peer table against the messages read and against the connections, in
      every state of every run: a peer is one whose latest message read is a 'C' or
      'c', its endpoint is connected, and unless a handler of this node failed the
      table misses none and the socket has no further connection. */
  lemma {:induction false} PeerTable(endpoints: seq<nat>, retries: int, states: seq<System>, steps: seq<Step>, k: nat,
                                     i: nat, b: nat)
    requires IsSystemRun(endpoints, retries, states, steps) && k < |states|
    requires i < |endpoints| == |states[k].nodes| && states[k].nodes[i].joined
    ensures var s := states[k]; var n := s.nodes[i];
            && n.start <= n.read <= |s.log|
            && (b in n.t.mPeers
                ==> Present(s.log, n.start, n.read, b) && b < |endpoints| && endpoints[b] in n.t.connected)
            && (!n.faulty ==> (b in n.t.mPeers <==> Present(s.log, n.start, n.read, b)))
            && (!n.faulty ==> forall e | e in n.t.connected :: exists p :: p in n.t.mPeers && n.t.mPeers[p] == e)
  {
    InvHolds(endpoints, retries, states, steps, k);
    EndpointsFixed(endpoints, retries, states, steps, k);
    assert NodeInv(states[k].nodes[i], i, |states[k].log|);
  }

  lemma {:induction false} EndpointsFixed(endpoints: seq<nat>, retries: int, states: seq<System>, steps: seq<Step>,
                                          k: nat)
    requires IsSystemRun(endpoints, retries, states, steps) && k < |states|
    ensures |states[k].nodes| == |endpoints|
    ensures forall i | 0 <= i < |endpoints| :: states[k].nodes[i].t.mPubEndpoint == endpoints[i]
  {
    if k > 0 {
      EndpointsFixed(endpoints, retries, states, steps, k - 1);
      Frame(states[k - 1], steps[k - 1]);
    }
  }

  // ---- the startup signal ----

  /** One of i's own announcements is among the messages log[lo..hi]. */
  ghost predicate OwnRead(log: seq<NamingMsg>, lo: nat, hi: nat, i: nat) {
    exists k: nat :: lo <= k < hi && From(log, k, i) && IsConnect(log[k])
  }

  /** Once the startup thread has cleared mNamingConnected, the flag says whether an
      own announcement has been read since. */
  ghost predicate SignalInv(n: Node, i: nat, log: seq<NamingMsg>) {
    !n.t.publisher.Absent? && !n.t.publisher.Starting? ==>
      && n.cleared <= n.read
      && (n.t.mNamingConnected ==> OwnRead(log, n.cleared, n.read, i))
      && (!n.faulty && OwnRead(log, n.cleared, n.read, i) ==> n.t.mNamingConnected)
  }

  lemma {:induction false} SignalForward(n: Node, i: nat, log: seq<NamingMsg>, m: NamingMsg)
    requires SignalInv(n, i, log) && n.read <= |log|
    ensures SignalInv(n, i, log + [m])
  {
    assert forall k: nat | k < n.read :: From(log + [m], k, i) == From(log, k, i) && (log + [m])[k] == log[k];
  }

  lemma {:induction false} SignalHandle(n: Node, i: nat, log: seq<NamingMsg>, o: Outcome)
    requires SignalInv(n, i, log) && n.read < |log| && n.t.mUuid == i
    requires IsConnect(log[n.read]) || log[n.read].mType == 'D'
    ensures SignalInv(HandleNode(n, log[n.read], o), i, log)
  {
    var n' := HandleNode(n, log[n.read], o);
    if From(log, n.read, i) && IsConnect(log[n.read]) {
      assert OwnRead(log, n.read, n.read + 1, i);
    }
    assert OwnRead(log, n.cleared, n.read, i) ==> OwnRead(log, n'.cleared, n'.read, i);
    assert n.cleared <= n.read ==> (OwnRead(log, n.cleared, n.read + 1, i)
           <==> OwnRead(log, n.cleared, n.read, i) || OwnRead(log, n.read, n.read + 1, i));
  }

  lemma {:induction false} SignalStep(s: System, step: Step, i: nat)
    requires BaseInv(s) && Enabled(s, step) && i < |s.nodes| && SignalInv(s.nodes[i], i, s.log)
    ensures SignalInv(Apply(s, step).nodes[i], i, Apply(s, step).log)
  {
    var n := s.nodes[i];
    assert NodeInv(n, i, |s.log|);
    if step.Forward? {
      SignalForward(n, i, s.log, s.nodes[step.i].t.outbox[0]);
    } else if step.i == i {
      match step
      case Handle(_, o) =>
        assert LoggedInv(s, n.read);
        SignalHandle(n, i, s.log, o);
      case _ =>
    }
  }

  lemma {:induction false} SignalHolds(endpoints: seq<nat>, retries: int, states: seq<System>, steps: seq<Step>,
                                       k: nat, i: nat)
    requires IsSystemRun(endpoints, retries, states, steps) && k < |states| && i < |endpoints|
    ensures |states[k].nodes| == |endpoints| && SignalInv(states[k].nodes[i], i, states[k].log)
  {
    if k > 0 {
      SignalHolds(endpoints, retries, states, steps, k - 1, i);
      InvHolds(endpoints, retries, states, steps, k - 1);
      SignalStep(states[k - 1], steps[k - 1], i);
    }
  }

  /** The startup signal. In every state of every run, once the startup thread has
      begun, mNamingConnected is set only if the proxy has sent an own announcement
      back since, and at a node without a failed call exactly then. */
  lemma {:induction false} ConnectedMeansEchoed(endpoints: seq<nat>, retries: int, states: seq<System>,
                                                steps: seq<Step>, k: nat, i: nat)
    requires IsSystemRun(endpoints, retries, states, steps) && k < |states| && i < |endpoints| == |states[k].nodes|
    requires !states[k].nodes[i].t.publisher.Absent? && !states[k].nodes[i].t.publisher.Starting?
    ensures var s := states[k]; var n := s.nodes[i];
            && (n.t.mNamingConnected ==> OwnRead(s.log, n.cleared, n.read, i))
            && (!n.faulty ==> (n.t.mNamingConnected <==> OwnRead(s.log, n.cleared, n.read, i)))
  {
    SignalHolds(endpoints, retries, states, steps, k, i);
  }

  // ---- particular runs ----

  ghost predicate Reachable(endpoints: seq<nat>, retries: int, s: System) {
    exists states, steps :: IsSystemRun(endpoints, retries, states, steps) && states[|steps|] == s
  }

  lemma {:induction false} Take(endpoints: seq<nat>, retries: int, s: System, step: Step) returns (s': System)
    requires Reachable(endpoints, retries, s) && Enabled(s, step)
    ensures s' == Apply(s, step) && Reachable(endpoints, retries, s')
  {
    var states, steps :| IsSystemRun(endpoints, retries, states, steps) && states[|steps|] == s;
    s' := Apply(s, step);
    var path, more := states + [s'], steps + [step];
    assert IsSystemRun(endpoints, retries, path, more) && path[|more|] == s';
  }

  /** Every call succeeds. */
  const FINE := Outcome(true, true, true, true)
}
