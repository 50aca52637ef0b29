/** Interest in topics: creating and destroying subscriptions send 'S' and 'U'
    commands to the dispatch thread, which applies them to the data socket, whose
    subscriptions are counted per topic. */
module Interest {

  /** command and arg1 of a control message; `id` is the subscription that sent it,
      which the message does not say. */
  datatype Command = Command(command: char, arg1: string, id: nat)

  /** `counts` is the socket's; `live` are the subscriptions between their 'S' and
      their 'U', `applied` those whose 'S' and not whose 'U' has reached the socket. The
      socket is subscribed to mInboxSubject from the start. */
  datatype State = State(
    counts: map<string, nat>, pending: seq<Command>, mIsDispatching: bool,
    live: map<nat, string>, applied: map<nat, string>, created: nat, mInboxSubject: string)

  function Initial(inboxSubject: string): State {
    State(map[inboxSubject := 1], [], true, map[], map[], 0, inboxSubject)
  }

  /** The transport's own subscription. */
  function Own(s: State, topic: string): nat {
    if topic == s.mInboxSubject then 1 else 0
  }

  datatype Step = Create(topic: string) | Destroy(id: nat) | Send(command: char) | DispatchControlMsg

  function Count(counts: map<string, nat>, topic: string): nat {
    if topic in counts then counts[topic] else 0
  }

  /** ZMQ_SUBSCRIBE and ZMQ_UNSUBSCRIBE; the latter does nothing for a topic without
      a subscription. */
  function Socket(counts: map<string, nat>, c: Command): map<string, nat> {
    if c.command == 'S' then counts[c.arg1 := Count(counts, c.arg1) + 1]
    else if c.command == 'U' && Count(counts, c.arg1) > 0 then counts[c.arg1 := Count(counts, c.arg1) - 1]
    else counts
  }

  predicate Enabled(s: State, step: Step) {
    match step
    case Create(_) => true
    case Destroy(id) => id in s.live
    case Send(command) => command != 'S' && command != 'U'
    case DispatchControlMsg => s.mIsDispatching && s.pending != []
  }

  function Apply(s: State, step: Step): State
    requires Enabled(s, step)
  {
    match step
    case Create(topic) =>
      s.(pending := s.pending + [Command('S', topic, s.created)],
         live := s.live[s.created := topic], created := s.created + 1)
    case Destroy(id) =>
      s.(pending := s.pending + [Command('U', s.live[id], id)], live := s.live - {id})
    case Send(command) => s.(pending := s.pending + [Command(command, "", 0)])
    case DispatchControlMsg =>
      var c := s.pending[0];
      s.(pending := s.pending[1..], counts := Socket(s.counts, c), mIsDispatching := c.command != 'X',
         applied := if c.command == 'S' then s.applied[c.id := c.arg1]
                    else if c.command == 'U' then s.applied - {c.id}
                    else s.applied)
  }

  predicate IsRun(inboxSubject: string, states: seq<State>, steps: seq<Step>) {
    && |states| == |steps| + 1 && states[0] == Initial(inboxSubject)
    && forall k | 0 <= k < |steps| :: Enabled(states[k], steps[k]) && states[k + 1] == Apply(states[k], steps[k])
  }

  /** 'S' minus 'U' for a topic. */
  function Net(pending: seq<Command>, topic: string): int {
    if pending == [] then 0
    else
      var c := pending[|pending| - 1];
      Net(pending[..|pending| - 1], topic)
      + (if c.arg1 != topic then 0 else if c.command == 'S' then 1 else if c.command == 'U' then -1 else 0)
  }

  function Holders(m: map<nat, string>, topic: string): set<nat> {
    set id | id in m && m[id] == topic
  }

  // ---- balance ----

  /** The socket's count and the commands under way add up to the live subscriptions and
      the transport's own, and no first part of those commands takes the latter away. */
  predicate Balanced(s: State, topic: string) {
    && Count(s.counts, topic) + Net(s.pending, topic) == |Holders(s.live, topic)| + Own(s, topic)
    && forall i | 0 <= i <= |s.pending| :: Count(s.counts, topic) + Net(s.pending[..i], topic) >= Own(s, topic)
  }

  lemma {:induction false} NetLast(pending: seq<Command>, c: Command, topic: string)
    ensures Net(pending + [c], topic) == Net(pending, topic) + Net([c], topic)
  {
    assert (pending + [c])[..|pending|] == pending;
    assert [c][..0] == [];
  }

  lemma {:induction false} NetFirst(pending: seq<Command>, topic: string)
    requires pending != []
    ensures Net(pending, topic) == Net([pending[0]], topic) + Net(pending[1..], topic)
  {
    var last := |pending| - 1;
    if last > 0 {
      NetFirst(pending[..last], topic);
      assert pending[1..][..last - 1] == pending[..last][1..];
    } else {
      assert pending == [pending[0]] && pending[1..] == [];
    }
  }

  lemma {:induction false} BalancedAppend(s: State, s': State, c: Command, topic: string)
    requires Balanced(s, topic) && s'.counts == s.counts && s'.pending == s.pending + [c]
    requires s'.mInboxSubject == s.mInboxSubject
    requires |Holders(s'.live, topic)| == |Holders(s.live, topic)| + Net([c], topic)
    ensures Balanced(s', topic)
  {
    NetLast(s.pending, c, topic);
    forall i | 0 <= i <= |s'.pending|
      ensures Count(s'.counts, topic) + Net(s'.pending[..i], topic) >= Own(s', topic)
    {
      if i <= |s.pending| {
        assert s'.pending[..i] == s.pending[..i];
      } else {
        assert s'.pending[..i] == s'.pending;
      }
    }
  }

  lemma {:induction false} BalancedDispatch(s: State, topic: string)
    requires Balanced(s, topic) && Enabled(s, DispatchControlMsg)
    ensures Balanced(Apply(s, DispatchControlMsg), topic)
    ensures var c := s.pending[0]; c.command == 'U' && c.arg1 == topic ==> Count(s.counts, topic) > Own(s, topic)
  {
    var s', c := Apply(s, DispatchControlMsg), s.pending[0];
    assert s.pending[..1] == [c] && [c][..0] == [];
    NetFirst(s.pending, topic);
    assert Count(s.counts, topic) + Net(s.pending[..1], topic) >= Own(s, topic);
    assert Count(s'.counts, topic) == Count(s.counts, topic) + Net([c], topic);
    forall i | 0 <= i <= |s'.pending|
      ensures Count(s'.counts, topic) + Net(s'.pending[..i], topic) >= Own(s', topic)
    {
      NetFirst(s.pending[..i + 1], topic);
      assert s.pending[..i + 1][1..] == s'.pending[..i] && s.pending[..i + 1][0] == c;
      assert Count(s.counts, topic) + Net(s.pending[..i + 1], topic) >= Own(s, topic);
    }
  }

  lemma {:induction false} HoldersAdded(m: map<nat, string>, id: nat, t: string, topic: string)
    requires id !in m
    ensures |Holders(m[id := t], topic)| == |Holders(m, topic)| + if t == topic then 1 else 0
  {
    assert Holders(m[id := t], topic) == Holders(m, topic) + if t == topic then {id} else {};
  }

  lemma {:induction false} HoldersRemoved(m: map<nat, string>, id: nat, topic: string)
    requires id in m
    ensures |Holders(m - {id}, topic)| == |Holders(m, topic)| - if m[id] == topic then 1 else 0
  {
    assert Holders(m - {id}, topic) == Holders(m, topic) - {id};
    assert m[id] == topic <==> id in Holders(m, topic);
  }

  lemma {:induction false} NetOne(c: Command, topic: string)
    ensures Net([c], topic)
              == if c.arg1 != topic then 0 else if c.command == 'S' then 1 else if c.command == 'U' then -1 else 0
  {
    assert [c][..0] == [];
  }

  lemma {:induction false} BalancedStep(s: State, step: Step, topic: string)
    requires Balanced(s, topic) && Enabled(s, step) && (forall id | id in s.live :: id < s.created)
    ensures Balanced(Apply(s, step), topic)
  {
    var s' := Apply(s, step);
    match step
    case Create(t) =>
      HoldersAdded(s.live, s.created, t, topic);
      NetOne(Command('S', t, s.created), topic);
      BalancedAppend(s, s', Command('S', t, s.created), topic);
    case Destroy(id) =>
      HoldersRemoved(s.live, id, topic);
      NetOne(Command('U', s.live[id], id), topic);
      BalancedAppend(s, s', Command('U', s.live[id], id), topic);
    case Send(command) =>
      NetOne(Command(command, "", 0), topic);
      BalancedAppend(s, s', Command(command, "", 0), topic);
    case DispatchControlMsg => BalancedDispatch(s, topic);
  }

  // ---- whose subscription is whose ----

  /** The commands of each subscription come in order: 'S' once, not after it has been
      applied, and 'U' at most once, after its 'S' and only when it is not live. */
  ghost predicate OrderInv(s: State) {
    && (forall id | id in s.live :: id < s.created)
    && (forall id | id in s.applied :: id < s.created)
    && (forall id | id in s.live ::
          (id in s.applied && s.applied[id] == s.live[id]) || Command('S', s.live[id], id) in s.pending)
    && (forall i | 0 <= i < |s.pending| :: CommandInv(s, i))
  }

  ghost predicate CommandInv(s: State, i: nat)
    requires i < |s.pending|
  {
    var c := s.pending[i];
    && (c.command == 'S' ==>
          && c.id < s.created && c.id !in s.applied
          && forall j | 0 <= j < |s.pending| && j != i && s.pending[j].command == 'S' :: s.pending[j].id != c.id)
    && (c.command == 'U' ==>
          && c.id !in s.live && c.id < s.created
          && ((c.id in s.applied && s.applied[c.id] == c.arg1) || Command('S', c.arg1, c.id) in s.pending[..i])
          && forall j | 0 <= j < |s.pending| && j != i && s.pending[j].command == 'U' :: s.pending[j].id != c.id)
  }

  ghost predicate CountInv(s: State, topic: string) {
    Count(s.counts, topic) == |Holders(s.applied, topic)| + Own(s, topic)
  }

  lemma {:induction false} OrderAppend(s: State, s': State, c: Command)
    requires OrderInv(s) && s'.pending == s.pending + [c] && s'.applied == s.applied && s.created <= s'.created
    requires forall id | id in s'.live && id < s.created :: id in s.live
    requires c.command == 'S' ==> c.id == s.created < s'.created
    requires c.command == 'U' ==> c.id in s.live && s.live[c.id] == c.arg1 && c.id !in s'.live
    ensures forall i | 0 <= i < |s'.pending| :: CommandInv(s', i)
  {
    forall j | 0 <= j < |s.pending|
      ensures s'.pending[j] == s.pending[j]
      ensures s.pending[j].command == c.command && (c.command == 'S' || c.command == 'U') ==> s.pending[j].id != c.id
    {
      assert CommandInv(s, j);
    }
    forall i | 0 <= i < |s'.pending|
      ensures CommandInv(s', i)
    {
      if i < |s.pending| {
        assert CommandInv(s, i) && s'.pending[..i] == s.pending[..i];
      } else {
        assert s'.pending[..i] == s.pending;
      }
    }
  }

  /** The oldest command of a subscription that was not applied is its 'S', of one
      that was, its 'U'. */
  lemma {:induction false} OldestCommand(s: State)
    requires OrderInv(s) && s.pending != []
    ensures var c := s.pending[0];
            && (c.command == 'S' ==> c.id !in s.applied && c.id < s.created)
            && (c.command == 'U' ==> c.id in s.applied && s.applied[c.id] == c.arg1 && c.id !in s.live)
  {
    assert CommandInv(s, 0) && s.pending[..0] == [];
  }

  lemma {:induction false} OrderDispatch(s: State)
    requires OrderInv(s) && Enabled(s, DispatchControlMsg)
    ensures OrderInv(Apply(s, DispatchControlMsg))
  {
    var s', c := Apply(s, DispatchControlMsg), s.pending[0];
    OldestCommand(s);
    forall i | 0 <= i < |s'.pending|
      ensures CommandInv(s', i)
    {
      assert CommandInv(s, i + 1) && s.pending[..i + 1] == [c] + s'.pending[..i];
      assert forall j | 0 <= j < |s'.pending| :: s'.pending[j] == s.pending[j + 1];
    }
    forall id | id in s'.live
      ensures (id in s'.applied && s'.applied[id] == s'.live[id]) || Command('S', s'.live[id], id) in s'.pending
    {
      assert s.pending == [c] + s'.pending;
    }
  }

  lemma {:induction false} OrderStep(s: State, step: Step)
    requires OrderInv(s) && Enabled(s, step)
    ensures OrderInv(Apply(s, step))
  {
    var s' := Apply(s, step);
    match step
    case Create(t) =>
      OrderAppend(s, s', Command('S', t, s.created));
      assert s'.pending[|s.pending|] == Command('S', t, s.created);
    case Destroy(id) => OrderAppend(s, s', Command('U', s.live[id], id));
    case Send(command) => OrderAppend(s, s', Command(command, "", 0));
    case DispatchControlMsg => OrderDispatch(s);
  }

  lemma {:induction false} CountStep(s: State, step: Step, topic: string)
    requires OrderInv(s) && Enabled(s, step) && CountInv(s, topic)
    ensures CountInv(Apply(s, step), topic)
  {
    if step.DispatchControlMsg? {
      var c := s.pending[0];
      OldestCommand(s);
      if c.command == 'S' {
        HoldersAdded(s.applied, c.id, c.arg1, topic);
      } else if c.command == 'U' {
        HoldersRemoved(s.applied, c.id, topic);
        assert c.arg1 == topic ==> c.id in Holders(s.applied, topic);
      }
    }
  }

  lemma {:induction false} InvHolds(inboxSubject: string, states: seq<State>, steps: seq<Step>, k: nat, topic: string)
    requires IsRun(inboxSubject, states, steps) && k < |states|
    ensures Balanced(states[k], topic) && OrderInv(states[k]) && CountInv(states[k], topic)
    ensures states[k].mInboxSubject == inboxSubject
  {
    if k == 0 {
      assert Holders(states[0].live, topic) == {} && Holders(states[0].applied, topic) == {};
    } else {
      InvHolds(inboxSubject, states, steps, k - 1, topic);
      BalancedStep(states[k - 1], steps[k - 1], topic);
      OrderStep(states[k - 1], steps[k - 1]);
      CountStep(states[k - 1], steps[k - 1], topic);
    }
  }

  // ---- main results ----

  /** Reference counts. In every state of every run and for every topic, the socket's
      count plus pending 'S' minus pending 'U' is the number of live subscriptions, and one
      for the transport's own inbox subject, whose subscription is never given up. */
  lemma {:induction false} ReferenceCounts(inboxSubject: string, states: seq<State>, steps: seq<Step>, k: nat,
                                           topic: string)
    requires IsRun(inboxSubject, states, steps) && k < |states|
    ensures Balanced(states[k], topic) && states[k].mInboxSubject == inboxSubject
    ensures Count(states[k].counts, inboxSubject) > 0
  {
    InvHolds(inboxSubject, states, steps, k, inboxSubject);
    InvHolds(inboxSubject, states, steps, k, topic);
  }

  /** Destroying one subscriber never unsubscribes another: from the moment its 'S' is
      applied for as long as a subscription is live, the socket is subscribed. */
  lemma {:induction false} NeverUnsubscribed(inboxSubject: string, states: seq<State>, steps: seq<Step>, k: nat,
                                             id: nat)
    requires IsRun(inboxSubject, states, steps) && k < |states| && id in states[k].live
    requires Command('S', states[k].live[id], id) !in states[k].pending
    ensures Count(states[k].counts, states[k].live[id]) > 0
  {
    var s := states[k];
    var topic := s.live[id];
    InvHolds(inboxSubject, states, steps, k, topic);
    assert id in Holders(s.applied, topic);
  }

  /** Exit. The dispatch thread applies commands until it has applied an 'X', and then no
      more: in every run it is dispatching if and only if none of the commands it took was
      an 'X', and once it has stopped the socket's counts stay as they are. */
  lemma {:induction false} ExitStops(inboxSubject: string, states: seq<State>, steps: seq<Step>, k: nat)
    requires IsRun(inboxSubject, states, steps) && k < |states|
    ensures states[k].mIsDispatching
            <==> forall j | 0 <= j < k && steps[j].DispatchControlMsg? && states[j].pending != [] ::
                   states[j].pending[0].command != 'X'
  {
    if k > 0 {
      ExitStops(inboxSubject, states, steps, k - 1);
    }
  }

  lemma {:induction false} StoppedKeepsCounts(inboxSubject: string, states: seq<State>, steps: seq<Step>, k: nat,
                                              later: nat)
    requires IsRun(inboxSubject, states, steps) && k <= later < |states| && !states[k].mIsDispatching
    ensures !states[later].mIsDispatching && states[later].counts == states[k].counts
    decreases later
  {
    if later > k {
      StoppedKeepsCounts(inboxSubject, states, steps, k, later - 1);
    }
  }
}
