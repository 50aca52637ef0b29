/** Request and reply: inboxes of a transport, their reply handles, and the way of a
    reply from the data socket through the event queue to an inbox's callback. */
module Inbox {
  import opened Common
  import opened Serial
  import opened Wire

  const UUID_STRING_SIZE := 36
  const INBOXNAME_INDEX := 6 + 1 + UUID_STRING_SIZE + 1

  /** `serial` is the number of the inbox among all that its transport ever created;
      it stands for the inbox's identity, callback and closure. */
  datatype InboxImpl = InboxImpl(mReplyHandle: string, serial: nat)

  /** What is queued for the callback thread: the inbox's name and the message. */
  datatype TransportMsg = TransportMsg(mEndpointIdentifier: string, mZmsg: string)

  datatype Transport = Transport(mUuid: string, mInboxUid: nat, mInboxes: map<string, InboxImpl>,
                                 queue: seq<TransportMsg>)

  /** Where dispatchNormalMsg leads: to the subscriptions, to an inbox's queue or to
      none, or to a read outside the message, where the C code has no defined behaviour. */
  datatype Routing = ToSubscriptions(subject: string) | Discarded | Queued(name: string) | OutOfBounds

  datatype Invocation = NotInvoked | Invoked(inbox: InboxImpl, payload: string) | Unknown

  function ReplyHandle(uuid: string, serial: nat): string {
    REPLYHANDLE_PREFIX + "." + uuid + "." + Rendered(serial)
  }

  // ---- operations ----

  /** An inbox with this number and this name joins the table. */
  function Inserted(t: Transport, id: nat, name: string): Transport {
    t.(mInboxUid := id, mInboxes := t.mInboxes[name := InboxImpl(ReplyHandle(t.mUuid, id), id)])
  }

  function Created(t: Transport): Transport {
    var id := (t.mInboxUid + 1) % UINT64;
    Inserted(t, id, Rendered(id))
  }

  function Destroyed(t: Transport, inbox: InboxImpl): Transport {
    if |inbox.mReplyHandle| < INBOXNAME_INDEX then t
    else t.(mInboxes := t.mInboxes - {inbox.mReplyHandle[INBOXNAME_INDEX..]})
  }

  /** The inbox name: the C string at a fixed place in the message. The length of the
      subject is not looked at, so after a short subject it is made of other bytes. */
  function NameIn(zmsg: string): Option<string> {
    if |zmsg| < INBOXNAME_INDEX then None
    else
      match NulAt(zmsg, INBOXNAME_INDEX)
      case Some(end) => Some(zmsg[INBOXNAME_INDEX..end])
      case None => None
  }

  /** dispatchNormalMsg and dispatchInboxMsg. */
  function Routed(t: Transport, zmsg: string): Routing {
    if zmsg < REPLYHANDLE_PREFIX then OutOfBounds
    else if !(REPLYHANDLE_PREFIX <= zmsg) then
      match NulAt(zmsg, 0)
      case None => OutOfBounds
      case Some(end) => ToSubscriptions(zmsg[..end])
    else
      match NameIn(zmsg)
      case None => OutOfBounds
      case Some(name) => if name in t.mInboxes then Queued(name) else Discarded
  }

  function Received(t: Transport, zmsg: string): Transport {
    match Routed(t, zmsg)
    case Queued(name) => t.(queue := t.queue + [TransportMsg(name, zmsg)])
    case _ => t
  }

  /** inboxCallback and onMsg on a message taken from the queue, with the queue's
      reusable bridge message: the inbox is looked up again, and the handle of the
      message has to be the inbox's own. */
  function Called(t: Transport, cached: BridgeMsg, e: TransportMsg): (BridgeMsg, Invocation) {
    if e.mEndpointIdentifier !in t.mInboxes then
      (cached, NotInvoked)
    else
      var inbox := t.mInboxes[e.mEndpointIdentifier];
      var (m, result) := Decode(cached, e.mZmsg);
      if result.Payload? && m.mReplyHandle != "" && m.mReplyHandle == inbox.mReplyHandle then
        (m, Invoked(inbox, result.bytes))
      else
        (m, NotInvoked)
  }

  // ---- what every operation keeps ----

  /** The table holds the k-th inbox under the rendering of k, with the handle made
      from the transport's UUID and k. */
  predicate TableInv(t: Transport) {
    && |t.mUuid| == UUID_STRING_SIZE && NulFree(t.mUuid) && t.mInboxUid < UINT64
    && forall name | name in t.mInboxes ::
         var inbox := t.mInboxes[name];
         && 1 <= inbox.serial <= t.mInboxUid
         && name == Rendered(inbox.serial) && inbox.mReplyHandle == ReplyHandle(t.mUuid, inbox.serial)
  }

  lemma {:induction false} HandleParts(uuid: string, serial: nat)
    requires |uuid| == UUID_STRING_SIZE
    ensures var h := ReplyHandle(uuid, serial);
            && |h| == REPLYHANDLE_SIZE && REPLYHANDLE_PREFIX <= h && h[6] == '.' && h[7..43] == uuid && h[43] == '.'
            && h[INBOXNAME_INDEX..] == Rendered(serial)
  {
    var h := ReplyHandle(uuid, serial);
    assert h[..6] == REPLYHANDLE_PREFIX;
  }

  lemma {:induction false} HexNulFree(n: nat, width: nat)
    ensures NulFree(Hex(n, width))
  {
    if width > 0 {
      HexNulFree(n / 16, width - 1);
      assert forall i | 0 <= i < 16 :: DIGITS[i] != NUL;
    }
  }

  lemma {:induction false} HandleNulFree(uuid: string, serial: nat)
    requires NulFree(uuid)
    ensures NulFree(ReplyHandle(uuid, serial))
  {
    HexNulFree(serial, WIDTH);
    assert NulFree(REPLYHANDLE_PREFIX) && NulFree(".");
  }

  /** No registered inbox has the name that the next one gets. */
  lemma {:induction false} NextNameIsNew(t: Transport)
    requires TableInv(t) && t.mInboxUid + 1 < UINT64
    ensures Rendered(t.mInboxUid + 1) !in t.mInboxes
  {
    if Rendered(t.mInboxUid + 1) in t.mInboxes {
      RenderedInjective(t.mInboxUid + 1, t.mInboxes[Rendered(t.mInboxUid + 1)].serial);
    }
  }

  lemma {:induction false} CreatedIs(t: Transport, id: nat)
    requires id == t.mInboxUid + 1 < UINT64
    ensures Created(t) == Inserted(t, id, Rendered(id))
  {
    NoWrap(id);
  }

  lemma {:induction false} NoWrap(n: nat)
    requires n < UINT64
    ensures n % UINT64 == n
  {
  }

  lemma {:induction false} InsertedKeeps(t: Transport, id: nat, name: string)
    requires TableInv(t) && id == t.mInboxUid + 1 < UINT64 && name == Rendered(id)
    ensures TableInv(Inserted(t, id, name))
  {
  }

  lemma {:induction false} AddedAndRemoved<T>(m: map<string, T>, name: string, value: T)
    requires name !in m
    ensures m[name := value] - {name} == m
  {
  }

  lemma {:induction false} CreatedKeeps(t: Transport)
    requires TableInv(t) && t.mInboxUid + 1 < UINT64
    ensures TableInv(Created(t))
    ensures Rendered(t.mInboxUid + 1) !in t.mInboxes && Rendered(t.mInboxUid + 1) in Created(t).mInboxes
    ensures Created(t).mInboxes - {Rendered(t.mInboxUid + 1)} == t.mInboxes
  {
    var id := t.mInboxUid + 1;
    NextNameIsNew(t);
    CreatedIs(t, id);
    InsertedKeeps(t, id, Rendered(id));
    AddedAndRemoved(t.mInboxes, Rendered(id), InboxImpl(ReplyHandle(t.mUuid, id), id));
  }

  /** Destroying an inbox removes it and no other. */
  lemma {:induction false} DestroyedKeeps(t: Transport, name: string)
    requires TableInv(t) && name in t.mInboxes
    ensures Destroyed(t, t.mInboxes[name]).mInboxes == t.mInboxes - {name}
    ensures TableInv(Destroyed(t, t.mInboxes[name]))
  {
    HandleParts(t.mUuid, t.mInboxes[name].serial);
  }

  // ---- runs ----

  /** A transport in use. For each queued message `meant` has the inbox that was
      found for it when it was received; `calls` has, for each callback made, that
      inbox and the inbox invoked. */
  datatype State = State(t: Transport, cached: BridgeMsg, meant: seq<InboxImpl>, calls: seq<(InboxImpl, InboxImpl)>)

  datatype Step = Create | Destroy(name: string) | Receive(zmsg: string) | Dispatch

  predicate Enabled(s: State, step: Step) {
    match step
    case Create => s.t.mInboxUid + 1 < UINT64
    case Destroy(name) => name in s.t.mInboxes
    case Receive(zmsg) => !Routed(s.t, zmsg).OutOfBounds?
    case Dispatch => s.t.queue != [] && s.meant != []
  }

  function Apply(s: State, step: Step): State
    requires Enabled(s, step)
  {
    match step
    case Create => s.(t := Created(s.t))
    case Destroy(name) => s.(t := Destroyed(s.t, s.t.mInboxes[name]))
    case Receive(zmsg) =>
      var routing := Routed(s.t, zmsg);
      s.(t := Received(s.t, zmsg), meant := if routing.Queued? then s.meant + [s.t.mInboxes[routing.name]] else s.meant)
    case Dispatch =>
      var (cached, invocation) := Called(s.t, s.cached, s.t.queue[0]);
      State(s.t.(queue := s.t.queue[1..]), cached, s.meant[1..],
            if invocation.Invoked? then s.calls + [(s.meant[0], invocation.inbox)] else s.calls)
  }

  predicate IsRun(uuid: string, states: seq<State>, steps: seq<Step>) {
    && |uuid| == UUID_STRING_SIZE && NulFree(uuid)
    && |states| == |steps| + 1 && states[0] == State(Transport(uuid, 0, map[], []), INIT, [], [])
    && forall k | 0 <= k < |steps| :: Enabled(states[k], steps[k]) && states[k + 1] == Apply(states[k], steps[k])
  }

  /** Each queued message carries the name of the inbox it is meant for. */
  predicate QueueInv(s: State) {
    && |s.meant| == |s.t.queue|
    && (forall i | 0 <= i < |s.meant| ::
          s.meant[i].serial < UINT64 && s.t.queue[i].mEndpointIdentifier == Rendered(s.meant[i].serial)
          && s.meant[i].mReplyHandle == ReplyHandle(s.t.mUuid, s.meant[i].serial))
    && (forall i | 0 <= i < |s.calls| :: s.calls[i].0 == s.calls[i].1)
  }

  lemma {:induction false} InvStep(s: State, step: Step)
    requires TableInv(s.t) && QueueInv(s) && Enabled(s, step)
    ensures TableInv(Apply(s, step).t) && QueueInv(Apply(s, step))
    ensures Apply(s, step).t.mUuid == s.t.mUuid
  {
    match step
    case Create => CreatedKeeps(s.t);
    case Destroy(name) => DestroyedKeeps(s.t, name);
    case Receive(_) =>
    case Dispatch =>
      var name := s.t.queue[0].mEndpointIdentifier;
      if name in s.t.mInboxes {
        RenderedInjective(s.meant[0].serial, s.t.mInboxes[name].serial);
      }
  }

  lemma {:induction false} InvHolds(uuid: string, states: seq<State>, steps: seq<Step>, k: nat)
    requires IsRun(uuid, states, steps) && k < |states|
    ensures TableInv(states[k].t) && QueueInv(states[k]) && states[k].t.mUuid == uuid
  {
    if k > 0 {
      InvHolds(uuid, states, steps, k - 1);
      InvStep(states[k - 1], steps[k - 1]);
    }
  }

  // ---- main results ----

  /** No stale misdelivery. In every run, whatever is created and destroyed while a
      message is queued, a callback is only ever made to the inbox that the message
      was received for. */
  lemma {:induction false} NoStaleMisdelivery(uuid: string, states: seq<State>, steps: seq<Step>, k: nat)
    requires IsRun(uuid, states, steps) && k < |states|
    ensures forall i | 0 <= i < |states[k].calls| :: states[k].calls[i].0 == states[k].calls[i].1
  {
    InvHolds(uuid, states, steps, k);
  }

  /** The bytes of a request from an inbox and of a reply to a handle. */
  function RequestBytes(handle: string, subject: string, payload: string): string {
    Encode(BridgeMsg(INBOX_REQUEST, handle, subject), payload)
  }

  function ReplyBytes(handle: string, payload: string): string {
    Encode(BridgeMsg(INBOX_RESPONSE, handle, handle), payload)
  }

  /** What becomes of bytes that reach a transport now and are dispatched in a later
      state of it. */
  function Delivery(now: Transport, later: Transport, cached: BridgeMsg, zmsg: string): Invocation {
    match Routed(now, zmsg)
    case Queued(name) => Called(later, cached, TransportMsg(name, zmsg)).1
    case OutOfBounds => Unknown
    case _ => NotInvoked
  }

  /** A message as the wire round trip is for. */
  predicate Sendable(m: BridgeMsg, payload: string) {
    Fits(m) && payload != "" && (m.mMsgType == INBOX_RESPONSE ==> |m.mSendSubject| <= REPLYHANDLE_SIZE)
  }

  /** When a message is delivered, whatever its type and however short its subject: the
      subject has the prefix, the name read from the message is that of a registered
      inbox, and the handle it leaves in the bridge message, which for a pub/sub message
      is the one left by an earlier message, is that inbox's. */
  lemma {:induction false} DeliveryExactly(m: BridgeMsg, payload: string, now: Transport, later: Transport,
                                           cached: BridgeMsg)
    requires Sendable(m, payload) && TableInv(later)
    ensures var name := NameIn(Encode(m, payload));
            Delivery(now, later, cached, Encode(m, payload))
            == if !(REPLYHANDLE_PREFIX <= m.mSendSubject) then NotInvoked
               else if name.None? then Unknown
               else if name.value in now.mInboxes && name.value in later.mInboxes
                       && HandleAfter(cached, m) == later.mInboxes[name.value].mReplyHandle
               then Invoked(later.mInboxes[name.value], payload) else NotInvoked
  {
    RoundTrip(cached, m, payload);
    PrefixOfMessage(m, payload);
    EncodeLaysOut(m, payload);
    SubjectFirst(Encode(m, payload), m.mSendSubject, m.mMsgType, Embedded(m), payload);
    forall name | name in later.mInboxes
      ensures later.mInboxes[name].mReplyHandle != ""
    {
      HandleParts(later.mUuid, later.mInboxes[name].serial);
    }
  }

  /** A message that is not for an inbox is shown to subscriptions under its subject. */
  lemma {:induction false} GoesToSubject(m: BridgeMsg, payload: string, t: Transport)
    requires NulFree(m.mSendSubject)
    ensures !(REPLYHANDLE_PREFIX <= m.mSendSubject) ==> Routed(t, Encode(m, payload)) == ToSubscriptions(m.mSendSubject)
  {
    PrefixOfMessage(m, payload);
    EncodeLaysOut(m, payload);
    SubjectFirst(Encode(m, payload), m.mSendSubject, m.mMsgType, Embedded(m), payload);
  }

  /** The test for the prefix does not look past the subject. */
  lemma {:induction false} PrefixOfMessage(m: BridgeMsg, payload: string)
    requires NulFree(m.mSendSubject)
    ensures !(Encode(m, payload) < REPLYHANDLE_PREFIX)
    ensures REPLYHANDLE_PREFIX <= Encode(m, payload) <==> REPLYHANDLE_PREFIX <= m.mSendSubject
  {
    var zmsg, subject := Encode(m, payload), m.mSendSubject;
    assert zmsg[|subject|] == NUL && zmsg[..|subject|] == subject;
    assert NulFree(REPLYHANDLE_PREFIX);
    if REPLYHANDLE_PREFIX <= zmsg {
      assert |REPLYHANDLE_PREFIX| <= |subject|;
      assert subject[..|REPLYHANDLE_PREFIX|] == zmsg[..|REPLYHANDLE_PREFIX|];
    }
  }

  lemma {:induction false} NameAt(before: string, name: string, after: string)
    requires |before| == INBOXNAME_INDEX && NulFree(name)
    ensures NameIn(before + (name + [NUL] + after)) == Some(name)
  {
    var zmsg := before + (name + [NUL] + after);
    FirstNul(before, name, after);
    assert zmsg[INBOXNAME_INDEX..INBOXNAME_INDEX + |name|] == name;
  }

  /** A subject that is long enough holds the name. */
  lemma {:induction false} NameOfSubject(m: BridgeMsg, payload: string)
    requires NulFree(m.mSendSubject) && |m.mSendSubject| >= INBOXNAME_INDEX
    ensures NameIn(Encode(m, payload)) == Some(m.mSendSubject[INBOXNAME_INDEX..])
  {
    var before, name := m.mSendSubject[..INBOXNAME_INDEX], m.mSendSubject[INBOXNAME_INDEX..];
    var rest := [m.mMsgType] + Embedded(m) + [NUL] + payload;
    NameAt(before, name, rest);
    assert before + (name + [NUL] + rest) == Encode(m, payload);
  }

  // ---- short subjects ----

  /** The message invokes an inbox. */
  predicate Invokes(m: BridgeMsg, payload: string, now: Transport, later: Transport, cached: BridgeMsg) {
    && Sendable(m, payload) && TableInv(now) && TableInv(later) && now.mUuid == later.mUuid
    && Delivery(now, later, cached, Encode(m, payload)).Invoked?
  }

  /** Every inbox that a message with this subject can invoke is the one whose name ends
      the subject. */
  ghost predicate NamesItsInbox(subject: string) {
    forall m: BridgeMsg, payload, now, later, cached |
      m.mSendSubject == subject && Invokes(m, payload, now, later, cached) ::
      |subject| >= INBOXNAME_INDEX
      && Rendered(Delivery(now, later, cached, Encode(m, payload)).inbox.serial) == subject[INBOXNAME_INDEX..]
  }

  /** A subject with the prefix names the inbox it reaches if and only if it leaves no
      room for the payload to do so: with two bytes missing, the place of the name is
      taken by the type and the handle, which never make up a name. */
  lemma {:induction false} NamesItsInboxExactly(subject: string)
    requires NulFree(subject) && |subject| <= MAX_SUBJECT_LENGTH
    ensures NamesItsInbox(subject) <==> !(REPLYHANDLE_PREFIX <= subject) || |subject| >= INBOXNAME_INDEX - 2
  {
    if REPLYHANDLE_PREFIX <= subject && |subject| < INBOXNAME_INDEX - 2 {
      var m, payload, now, cached := ShortSubjectInvokes(subject);
      assert Invokes(m, payload, now, now, cached) && m.mSendSubject == subject;
    } else {
      forall m: BridgeMsg, payload, now, later, cached |
        m.mSendSubject == subject && Invokes(m, payload, now, later, cached)
        ensures |subject| >= INBOXNAME_INDEX
                && Rendered(Delivery(now, later, cached, Encode(m, payload)).inbox.serial) == subject[INBOXNAME_INDEX..]
      {
        DeliveryExactly(m, payload, now, later, cached);
        if |subject| >= INBOXNAME_INDEX {
          NameOfSubject(m, payload);
        } else {
          NoNameInHeader(m, payload, later, cached);
        }
      }
    }
  }

  /** The bytes of a pub/sub message with a short subject: its payload goes on with the
      name of an inbox where the code looks for one. */
  lemma {:induction false} ShortSubjectInvokes(subject: string)
    returns (m: BridgeMsg, payload: string, now: Transport, cached: BridgeMsg)
    requires REPLYHANDLE_PREFIX <= subject && |subject| < INBOXNAME_INDEX - 2 && NulFree(subject)
    ensures m == BridgeMsg(PUB_SUB, "", subject) && Invokes(m, payload, now, now, cached)
  {
    var empty := Transport(seq(UUID_STRING_SIZE, _ => 'u'), 0, map[], []);
    var serial := empty.mInboxUid + 1;
    CreatedKeeps(empty);
    now := Created(empty);
    cached := INIT.(mReplyHandle := now.mInboxes[Rendered(serial)].mReplyHandle);
    m := BridgeMsg(PUB_SUB, "", subject);
    var fill := seq(INBOXNAME_INDEX - 3 - |subject|, _ => 'x');
    payload := fill + (Rendered(serial) + [NUL]);
    NameAfterFill(m, fill, serial);
    DeliveryExactly(m, payload, now, now, cached);
  }

  /** A message that names a registered inbox and leaves its handle in the bridge message
      is queued and then invokes it. */
  lemma {:induction false} TwoSteps(s: State, m: BridgeMsg, payload: string, serial: nat) returns (s1: State, s2: State)
    requires TableInv(s.t) && s.t.queue == [] && s.meant == [] && Rendered(serial) in s.t.mInboxes
    requires Sendable(m, payload) && REPLYHANDLE_PREFIX <= m.mSendSubject
    requires NameIn(Encode(m, payload)) == Some(Rendered(serial))
    requires HandleAfter(s.cached, m) == s.t.mInboxes[Rendered(serial)].mReplyHandle
    ensures Enabled(s, Receive(Encode(m, payload))) && s1 == Apply(s, Receive(Encode(m, payload)))
    ensures Enabled(s1, Dispatch) && s2 == Apply(s1, Dispatch)
    ensures s2.t == s.t && s2.meant == [] && |s2.calls| == |s.calls| + 1
    ensures s2.cached.mReplyHandle == HandleAfter(s.cached, m)
  {
    var zmsg, inbox := Encode(m, payload), s.t.mInboxes[Rendered(serial)];
    PrefixOfMessage(m, payload);
    RoundTrip(s.cached, m, payload);
    HandleParts(s.t.mUuid, inbox.serial);
    s1 := Apply(s, Receive(zmsg));
    assert s1.t.queue == [TransportMsg(Rendered(serial), zmsg)] && s1.meant == [inbox];
    s2 := Apply(s1, Dispatch);
  }

  /** Such a state is reached: an inbox is created, a reply to it is received and
      dispatched, which leaves its handle in the bridge message, and then a pub/sub message
      with the short subject is, which invokes the inbox again. */
  lemma {:induction false} ShortSubjectRun(uuid: string, subject: string)
    returns (states: seq<State>, steps: seq<Step>, payload: string)
    requires |uuid| == UUID_STRING_SIZE && NulFree(uuid)
    requires REPLYHANDLE_PREFIX <= subject && |subject| < INBOXNAME_INDEX - 2 && NulFree(subject)
    ensures IsRun(uuid, states, steps) && |steps| == 5 && |states[5].calls| == 2
    ensures steps[3] == Receive(Encode(BridgeMsg(PUB_SUB, "", subject), payload)) && |states[3].calls| == 1
  {
    var s0 := NewTransport(uuid);
    var s1, s2, s3, reply := ReplyRun(s0);
    var s4, s5;
    s4, s5, payload := ShortSteps(s3, subject, s0.t.mInboxUid + 1);
    steps := [Create, Receive(reply), Dispatch, Receive(Encode(BridgeMsg(PUB_SUB, "", subject), payload)), Dispatch];
    states := [s0, s1, s2, s3, s4, s5];
    FiveSteps(uuid, states, steps);
  }

  lemma {:induction false} NewTransport(uuid: string) returns (s: State)
    requires |uuid| == UUID_STRING_SIZE && NulFree(uuid)
    ensures s == State(Transport(uuid, 0, map[], []), INIT, [], []) && TableInv(s.t)
    ensures s.t.mInboxUid + 1 < UINT64 && s.t.queue == [] && s.meant == [] && |s.calls| == 0
  {
    s := State(Transport(uuid, 0, map[], []), INIT, [], []);
  }

  predicate Follows(s: State, step: Step, s': State) {
    Enabled(s, step) && s' == Apply(s, step)
  }

  lemma {:induction false} FiveSteps(uuid: string, states: seq<State>, steps: seq<Step>)
    requires |uuid| == UUID_STRING_SIZE && NulFree(uuid) && |steps| == 5 && |states| == 6
    requires states[0] == State(Transport(uuid, 0, map[], []), INIT, [], [])
    requires Follows(states[0], steps[0], states[1]) && Follows(states[1], steps[1], states[2])
    requires Follows(states[2], steps[2], states[3]) && Follows(states[3], steps[3], states[4])
    requires Follows(states[4], steps[4], states[5])
    ensures IsRun(uuid, states, steps)
  {
    assert forall k | 0 <= k < |steps| :: Follows(states[k], steps[k], states[k + 1]);
  }

  /** An inbox that has had a reply: its handle is left in the bridge message. */
  lemma {:induction false} ReplyRun(s: State) returns (s1: State, s2: State, s3: State, reply: string)
    requires TableInv(s.t) && s.t.mInboxUid + 1 < UINT64 && s.t.queue == [] && s.meant == []
    ensures Follows(s, Create, s1) && Follows(s1, Receive(reply), s2) && Follows(s2, Dispatch, s3)
    ensures TableInv(s3.t) && s3.t.queue == [] && s3.meant == [] && |s3.calls| == |s.calls| + 1
    ensures var name := Rendered(s.t.mInboxUid + 1);
            name in s3.t.mInboxes && s3.cached.mReplyHandle == s3.t.mInboxes[name].mReplyHandle
  {
    var m;
    s1, m := AfterReply(s);
    s2, s3 := TwoSteps(s1, m, "x", s.t.mInboxUid + 1);
    reply := Encode(m, "x");
  }

  lemma {:induction false} ShortSteps(s: State, subject: string, serial: nat)
    returns (s1: State, s2: State, payload: string)
    requires TableInv(s.t) && s.t.queue == [] && s.meant == [] && Rendered(serial) in s.t.mInboxes
    requires s.cached.mReplyHandle == s.t.mInboxes[Rendered(serial)].mReplyHandle
    requires REPLYHANDLE_PREFIX <= subject && |subject| < INBOXNAME_INDEX - 2 && NulFree(subject)
    ensures Follows(s, Receive(Encode(BridgeMsg(PUB_SUB, "", subject), payload)), s1) && Follows(s1, Dispatch, s2)
    ensures |s2.calls| == |s.calls| + 1
  {
    var m := BridgeMsg(PUB_SUB, "", subject);
    var fill := seq(INBOXNAME_INDEX - 3 - |subject|, _ => 'x');
    payload := fill + (Rendered(serial) + [NUL]);
    NameAfterFill(m, fill, serial);
    s1, s2 := TwoSteps(s, m, payload, serial);
  }

  /** An inbox is created, and a reply to it is one of the messages that TwoSteps is for. */
  lemma {:induction false} AfterReply(s: State) returns (s1: State, reply: BridgeMsg)
    requires TableInv(s.t) && s.t.mInboxUid + 1 < UINT64 && s.t.queue == [] && s.meant == []
    ensures Enabled(s, Create) && s1 == Apply(s, Create) && TableInv(s1.t) && s1.t.queue == [] && s1.meant == []
    ensures s1.calls == s.calls && Rendered(s.t.mInboxUid + 1) in s1.t.mInboxes
    ensures var name := Rendered(s.t.mInboxUid + 1);
            && reply.mMsgType == INBOX_RESPONSE && reply.mSendSubject == s1.t.mInboxes[name].mReplyHandle
            && Sendable(reply, "x") && REPLYHANDLE_PREFIX <= reply.mSendSubject
            && NameIn(Encode(reply, "x")) == Some(name)
  {
    var serial := s.t.mInboxUid + 1;
    CreatedKeeps(s.t);
    s1 := Apply(s, Create);
    assert s1.t == Created(s.t);
    CreatedIs(s.t, serial);
    reply := ReplyTo(s.t.mUuid, serial);
  }

  /** A reply to an inbox of a transport reads as one to its name. */
  lemma {:induction false} ReplyTo(uuid: string, serial: nat) returns (reply: BridgeMsg)
    requires |uuid| == UUID_STRING_SIZE && NulFree(uuid)
    ensures reply == BridgeMsg(INBOX_RESPONSE, ReplyHandle(uuid, serial), ReplyHandle(uuid, serial))
    ensures Sendable(reply, "x") && REPLYHANDLE_PREFIX <= reply.mSendSubject
    ensures NameIn(Encode(reply, "x")) == Some(Rendered(serial))
  {
    HandleParts(uuid, serial);
    HandleNulFree(uuid, serial);
    reply := BridgeMsg(INBOX_RESPONSE, ReplyHandle(uuid, serial), ReplyHandle(uuid, serial));
    NameOfSubject(reply, "x");
  }

  lemma {:induction false} NameAfterFill(m: BridgeMsg, fill: string, serial: nat)
    requires m.mMsgType == PUB_SUB && |m.mSendSubject| + 3 + |fill| == INBOXNAME_INDEX
    ensures NameIn(Encode(m, fill + (Rendered(serial) + [NUL]))) == Some(Rendered(serial))
  {
    var name, header := Rendered(serial), m.mSendSubject + [NUL] + [PUB_SUB] + [NUL];
    HexNulFree(serial, WIDTH);
    NameAt(header + fill, name, "");
    assert name + [NUL] + "" == name + [NUL];
    Assoc(header, fill, name + [NUL]);
    assert m.mSendSubject + [NUL] + [PUB_SUB] + Embedded(m) == m.mSendSubject + [NUL] + [PUB_SUB];
  }

  /** Where the name would begin with the type, or with the handle of a request, no
      registered inbox has it. */
  lemma {:induction false} NoNameInHeader(m: BridgeMsg, payload: string, t: Transport, cached: BridgeMsg)
    requires Sendable(m, payload) && TableInv(t) && INBOXNAME_INDEX - 2 <= |m.mSendSubject| < INBOXNAME_INDEX
    ensures var name := NameIn(Encode(m, payload));
            name.Some? && name.value in t.mInboxes ==> HandleAfter(cached, m) != t.mInboxes[name.value].mReplyHandle
  {
    var zmsg, subject := Encode(m, payload), m.mSendSubject;
    var name := NameIn(zmsg);
    if name.Some? && name.value in t.mInboxes {
      HandleParts(t.mUuid, t.mInboxes[name.value].serial);
      assert |name.value| == WIDTH;
      var header := subject + [NUL] + [m.mMsgType];
      assert zmsg == header + (Embedded(m) + [NUL] + payload);
      FirstNul(header, Embedded(m), payload);
      assert zmsg[|subject| + 1] == m.mMsgType;
    }
  }

  /** Request and reply, end to end. Take the inbox with number `serial` of the
      transport with UUID `uuid`, and any transport at all that the reply reaches.
      The request goes out on the publisher's subject: unless that has the inbox prefix,
      every transport that it reaches shows it to its subscriptions under that subject.
      Whoever decodes the request gets the payload and the inbox's handle; the reply
      to that handle invokes the inbox if it is registered on reception and still is
      on dispatch, with the reply's payload unchanged; and it invokes nothing else,
      not even an inbox with the same number under another UUID. */
  lemma {:induction false} RequestReply(uuid: string, serial: nat, subject: string, request: string, reply: string,
                                        replier: BridgeMsg, now: Transport, later: Transport, cached: BridgeMsg)
    requires |uuid| == UUID_STRING_SIZE && NulFree(uuid) && serial < UINT64
    requires NulFree(subject) && |subject| <= MAX_SUBJECT_LENGTH && request != "" && reply != ""
    requires TableInv(now) && TableInv(later) && now.mUuid == later.mUuid
    ensures var handle := ReplyHandle(uuid, serial);
            var (m, result) := Decode(replier, RequestBytes(handle, subject, request));
            m.mReplyHandle == handle && result == Payload(request)
    ensures !(REPLYHANDLE_PREFIX <= subject) ==>
              Routed(now, RequestBytes(ReplyHandle(uuid, serial), subject, request)) == ToSubscriptions(subject)
    ensures var name := Rendered(serial);
            Delivery(now, later, cached, ReplyBytes(ReplyHandle(uuid, serial), reply))
            == if now.mUuid == uuid && name in now.mInboxes && name in later.mInboxes
               then Invoked(InboxImpl(ReplyHandle(uuid, serial), serial), reply) else NotInvoked
  {
    var handle, name := ReplyHandle(uuid, serial), Rendered(serial);
    HandleParts(uuid, serial);
    HandleNulFree(uuid, serial);
    NameOfSubject(BridgeMsg(INBOX_RESPONSE, handle, handle), reply);
    RoundTrip(replier, BridgeMsg(INBOX_REQUEST, handle, subject), request);
    GoesToSubject(BridgeMsg(INBOX_REQUEST, handle, subject), request, now);
    DeliveryExactly(BridgeMsg(INBOX_RESPONSE, handle, handle), reply, now, later, cached);
    if name in later.mInboxes {
      RenderedInjective(serial, later.mInboxes[name].serial);
      HandleParts(later.mUuid, serial);
    }
  }

  // ---- the code ----

  /** The inbox side of zmqTransportBridge. */
  class TransportImpl {
    const mUuid: string
    const mInboxSubject: string
    const mInboxUid: Counter
    var mInboxes: map<string, InboxImpl>
    var queue: seq<TransportMsg>

    ghost predicate Valid()
      reads this, mInboxUid
    {
      |mUuid| == UUID_STRING_SIZE && mInboxSubject == REPLYHANDLE_PREFIX + "." + mUuid && mInboxUid.id < UINT64
    }

    function View(): Transport
      reads this, mInboxUid
    {
      Transport(mUuid, mInboxUid.id, mInboxes, queue)
    }

    constructor (uuid: string)
      requires |uuid| == UUID_STRING_SIZE
      ensures Valid() && fresh(mInboxUid) && View() == Transport(uuid, 0, map[], [])
    {
      mUuid, mInboxSubject := uuid, REPLYHANDLE_PREFIX + "." + uuid;
      mInboxUid := new Counter();
      mInboxes, queue := map[], [];
    }

    /** createByIndex: the handle is "<inbox subject>.<serial>", and the table's key is
        what stands in it from INBOXNAME_INDEX on. */
    method CreateInbox() returns (inbox: InboxImpl)
      requires Valid()
      modifies this`mInboxes, mInboxUid
      ensures Valid() && View() == Created(old(View()))
      ensures inbox == InboxImpl(ReplyHandle(mUuid, mInboxUid.id), mInboxUid.id)
    {
      var uid := mInboxUid.GenerateSerial();
      var replyHandle := mInboxSubject + "." + uid;
      inbox := InboxImpl(replyHandle, mInboxUid.id);
      Register(inbox);
    }

    /** registerInbox. */
    method Register(inbox: InboxImpl)
      requires Valid() && inbox.mReplyHandle == ReplyHandle(mUuid, inbox.serial)
      modifies this`mInboxes
      ensures Valid() && mInboxes == old(mInboxes)[Rendered(inbox.serial) := inbox]
    {
      HandleParts(mUuid, inbox.serial);
      mInboxes := mInboxes[inbox.mReplyHandle[INBOXNAME_INDEX..] := inbox];
    }

    /** unregisterInbox: found is whether the entry removed was this inbox. */
    method DestroyInbox(inbox: InboxImpl) returns (found: bool)
      requires Valid() && |inbox.mReplyHandle| >= INBOXNAME_INDEX
      modifies this`mInboxes
      ensures Valid() && View() == Destroyed(old(View()), inbox)
      ensures var name := inbox.mReplyHandle[INBOXNAME_INDEX..];
              found <==> name in old(mInboxes) && old(mInboxes)[name] == inbox
    {
      var name := inbox.mReplyHandle[INBOXNAME_INDEX..];
      found := name in mInboxes && mInboxes[name] == inbox;
      mInboxes := mInboxes - {name};
    }

    /** dispatchNormalMsg up to the queue of an inbox. */
    method DispatchNormalMsg(zmsg: array<char>) returns (routing: Routing)
      requires Valid()
      modifies this`queue
      ensures Valid() && routing == Routed(old(View()), zmsg[..]) && View() == Received(old(View()), zmsg[..])
    {
      if zmsg[..] < REPLYHANDLE_PREFIX {
        return OutOfBounds;
      }
      if !(REPLYHANDLE_PREFIX <= zmsg[..]) {
        var length := Strlen(zmsg, 0);
        if length == zmsg.Length {
          return OutOfBounds;
        }
        return ToSubscriptions(zmsg[..length]);
      }
      if zmsg.Length < INBOXNAME_INDEX {
        return OutOfBounds;
      }
      var end := Strlen(zmsg, INBOXNAME_INDEX);
      if end == zmsg.Length {
        return OutOfBounds;
      }
      var inboxName := zmsg[INBOXNAME_INDEX..end];
      assert zmsg[..][INBOXNAME_INDEX..end] == inboxName;
      if inboxName !in mInboxes {
        return Discarded;
      }
      queue := queue + [TransportMsg(inboxName, zmsg[..])];
      return Queued(inboxName);
    }
  }

  /** What setSendSubject keeps. sendSubject goes on with it, whatever the status. */
  function Kept(subject: string): string {
    if |subject| <= MAX_SUBJECT_LENGTH then subject else subject[..MAX_SUBJECT_LENGTH]
  }

  /** sendSubject up to the wire: the message, filled in, on the given subject. */
  method SendSubject(msgType: char, replyHandle: string, subject: string, payload: string) returns (zmsg: array<char>)
    ensures zmsg[..] == Encode(BridgeMsg(msgType, replyHandle, Kept(subject)), payload)
    ensures LaidOut(zmsg[..], Kept(subject), msgType, if msgType == INBOX_REQUEST then replyHandle else "", payload)
  {
    var bridgeMsg := new BridgeMsgImpl();
    bridgeMsg.mMsgType := msgType;
    bridgeMsg.mReplyHandle := replyHandle;
    var ok := bridgeMsg.SetSendSubject(subject);
    assert bridgeMsg.mSendSubject == Kept(subject);
    zmsg := bridgeMsg.Serialize(payload);
  }

  /** sendFromInboxByIndex up to the wire, for a publisher on the given subject. A handle
      that does not fit its field is copied past it: None. */
  method SendFromInbox(subject: string, replyHandle: string, payload: string) returns (zmsg: Option<array<char>>)
    ensures zmsg.Some? <==> |replyHandle| <= REPLYHANDLE_SIZE
    ensures zmsg.Some? ==> zmsg.value[..] == RequestBytes(replyHandle, Kept(subject), payload)
    ensures zmsg.Some? ==> LaidOut(zmsg.value[..], Kept(subject), INBOX_REQUEST, replyHandle, payload)
    ensures zmsg.Some? && NulFree(subject) ==>
              NulAt(zmsg.value[..], 0) == Some(|Kept(subject)|) && zmsg.value[..][..|Kept(subject)|] == Kept(subject)
  {
    if |replyHandle| > REPLYHANDLE_SIZE {
      return None;
    }
    var bytes := SendSubject(INBOX_REQUEST, replyHandle, subject, payload);
    if NulFree(subject) {
      SubjectFirst(bytes[..], Kept(subject), INBOX_REQUEST, replyHandle, payload);
    }
    return Some(bytes);
  }

  /** sendReplyToInboxHandle up to the wire: the handle is also the subject. */
  method SendReplyToInboxHandle(replyHandle: string, payload: string) returns (zmsg: Option<array<char>>)
    ensures zmsg.Some? <==> |replyHandle| <= REPLYHANDLE_SIZE
    ensures zmsg.Some? ==> zmsg.value[..] == ReplyBytes(replyHandle, payload)
    ensures zmsg.Some? ==> LaidOut(zmsg.value[..], replyHandle, INBOX_RESPONSE, "", payload)
  {
    if |replyHandle| > REPLYHANDLE_SIZE {
      return None;
    }
    var bytes := SendSubject(INBOX_RESPONSE, replyHandle, replyHandle, payload);
    return Some(bytes);
  }
}
