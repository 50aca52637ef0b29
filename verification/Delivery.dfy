/** Delivery of published messages to subscriptions. The dispatch thread enqueues a
    message for each subscription that wants it; the callback threads look the
    subscription up again when they dequeue it. Between the two, subscriptions come,
    are muted and go. */
module Delivery {
  import opened Common
  import opened Serial

  /** Serials are counted separately for wildcard and other subscriptions. */
  datatype Id = Id(wildcard: bool, serial: nat)

  /** mCompRegex is what regexec answers; `since` is the number of messages that the
      dispatch thread had finished with when the subscription was registered. */
  datatype Subscription = Subscription(id: Id, mSubjectKey: string, mCompRegex: string -> bool, queue: nat, since: nat)

  /** A queued message: the queue, the endpoint's serial as text, the callback's kind
      (wcCallback or subCallback), and the message by its place in the log. `id` is
      the subscription it was enqueued for, which the code does not keep. */
  datatype Event = Event(queue: nat, mEndpointIdentifier: string, index: nat, id: Id)

  datatype Message = Message(subject: string, payload: string)

  /** `pending` are the events of all queues in the order of their enqueuing; each
      queue is its part of it. `log` is what the data socket delivered; regular
      subscriptions have been served log[..served], wildcards all of it. `known` has
      every subscription ever made, `closed` where muting or destruction cut it off,
      `delivered` the log indices handed to it. */
  datatype State = State(
    subs: seq<Subscription>, wcs: seq<Subscription>, muted: set<Id>,
    mSubUid: nat, mWcsUid: nat,
    log: seq<Message>, served: nat,
    pending: seq<Event>,
    known: map<Id, Subscription>, closed: map<Id, nat>, delivered: map<Id, seq<nat>>)

  const INITIAL := State([], [], {}, 0, 0, [], 0, [], map[], map[], map[])

  datatype Step =
    | CreateSub(mSubjectKey: string, queue: nat)
    | CreateWildcard(mSubjectKey: string, mCompRegex: string -> bool, queue: nat)
    | Mute(id: Id)
    | Destroy(id: Id)
    | ReceiveForWildcards(m: Message)
    | ReceiveForSubs
    | Dispatch(at: nat)

  /** matchWildcards' two tests, or the exact topic of a regular subscription. */
  predicate Wants(sub: Subscription, subject: string) {
    if sub.id.wildcard then sub.mSubjectKey <= subject && sub.mCompRegex(subject) else sub.mSubjectKey == subject
  }

  predicate ForInbox(subject: string) {
    REPLYHANDLE_PREFIX <= subject
  }

  /** The subscription should get the message. */
  predicate Due(sub: Subscription, subject: string) {
    Wants(sub, subject) && !ForInbox(subject)
  }

  predicate Registered(s: State, id: Id) {
    if id.wildcard then exists i | 0 <= i < |s.wcs| :: s.wcs[i].id == id
    else exists i | 0 <= i < |s.subs| :: s.subs[i].id == id
  }

  /** Only the oldest event of a queue can be dispatched. */
  predicate Oldest(pending: seq<Event>, at: nat) {
    at < |pending| && forall i | 0 <= i < at :: pending[i].queue != pending[at].queue
  }

  predicate Enabled(s: State, step: Step) {
    match step
    case CreateSub(_, _) => s.mSubUid + 1 < UINT64
    case CreateWildcard(_, _, _) => s.mWcsUid + 1 < UINT64
    case Mute(id) => Registered(s, id)
    case Destroy(id) => Registered(s, id)
    case ReceiveForWildcards(_) => s.served == |s.log|
    case ReceiveForSubs => s.served < |s.log|
    case Dispatch(at) => Oldest(s.pending, at)
  }

  function EventFor(sub: Subscription, index: nat): Event {
    Event(sub.queue, Rendered(sub.id.serial), index, sub.id)
  }

  /** The loop over the registered subscriptions: one event for each that wants the
      message; a muted regular subscription is passed over. */
  function Fan(pending: seq<Event>, subs: seq<Subscription>, muted: set<Id>, subject: string, index: nat): seq<Event> {
    if subs == [] then pending
    else
      var sub := subs[|subs| - 1];
      var before := Fan(pending, subs[..|subs| - 1], muted, subject, index);
      if Wants(sub, subject) && (sub.id.wildcard || sub.id !in muted) then before + [EventFor(sub, index)] else before
  }

  /** The registered subscription with this serial and, for a regular one, this topic;
      the last one found, as findWildcard leaves it. */
  function Lookup(subs: seq<Subscription>, identifier: string, subject: string): Option<Subscription> {
    if subs == [] then None
    else
      var sub := subs[|subs| - 1];
      if Rendered(sub.id.serial) == identifier && (sub.id.wildcard || sub.mSubjectKey == subject) then Some(sub)
      else Lookup(subs[..|subs| - 1], identifier, subject)
  }

  function Without(subs: seq<Subscription>, id: Id): seq<Subscription> {
    if subs == [] then []
    else if subs[|subs| - 1].id == id then Without(subs[..|subs| - 1], id)
    else Without(subs[..|subs| - 1], id) + [subs[|subs| - 1]]
  }

  /** dispatchNormalMsg: a message to an inbox is not shown to any subscription, so the
      loop is not run for it. */
  function Routed(pending: seq<Event>, subs: seq<Subscription>, muted: set<Id>, subject: string,
                  index: nat): seq<Event>
  {
    if ForInbox(subject) then pending else Fan(pending, subs, muted, subject, index)
  }

  /** How much of the log a subscription's registry has been served. */
  function Served(s: State, id: Id): nat {
    if id.wildcard then |s.log| else s.served
  }

  function Close(s: State, id: Id): map<Id, nat> {
    if id in s.closed then s.closed else s.closed[id := Served(s, id)]
  }

  /** subCallback and wcCallback. */
  function Deliver(s: State, e: Event): map<Id, seq<nat>> {
    if e.index >= |s.log| then s.delivered
    else
      match Lookup(if e.id.wildcard then s.wcs else s.subs, e.mEndpointIdentifier, s.log[e.index].subject)
      case None => s.delivered
      case Some(sub) =>
        if sub.id in s.muted || sub.id !in s.delivered then s.delivered
        else s.delivered[sub.id := s.delivered[sub.id] + [e.index]]
  }

  function Register(s: State, sub: Subscription): State {
    s.(known := s.known[sub.id := sub], delivered := s.delivered[sub.id := []])
  }

  function Apply(s: State, step: Step): State {
    match step
    case CreateSub(key, queue) =>
      var sub := Subscription(Id(false, s.mSubUid + 1), key, _ => false, queue, s.served);
      Register(s, sub).(mSubUid := s.mSubUid + 1, subs := s.subs + [sub])
    case CreateWildcard(key, regex, queue) =>
      var sub := Subscription(Id(true, s.mWcsUid + 1), key, regex, queue, |s.log|);
      Register(s, sub).(mWcsUid := s.mWcsUid + 1, wcs := s.wcs + [sub])
    case Mute(id) => s.(muted := s.muted + {id}, closed := Close(s, id))
    case Destroy(id) =>
      s.(subs := if id.wildcard then s.subs else Without(s.subs, id),
         wcs := if id.wildcard then Without(s.wcs, id) else s.wcs,
         closed := Close(s, id))
    case ReceiveForWildcards(m) =>
      s.(log := s.log + [m], pending := Routed(s.pending, s.wcs, s.muted, m.subject, |s.log|))
    case ReceiveForSubs =>
      if s.served < |s.log| then
        s.(served := s.served + 1, pending := Routed(s.pending, s.subs, s.muted, s.log[s.served].subject, s.served))
      else s
    case Dispatch(at) =>
      if at < |s.pending| then
        s.(pending := s.pending[..at] + s.pending[at + 1..], delivered := Deliver(s, s.pending[at]))
      else s
  }

  ghost predicate IsRun(states: seq<State>, steps: seq<Step>) {
    && |states| == |steps| + 1 && states[0] == INITIAL
    && forall k | 0 <= k < |steps| :: Enabled(states[k], steps[k]) && states[k + 1] == Apply(states[k], steps[k])
  }

  // ---- the reference: what a subscription should get ----

  /** The indices below hi, from lo on, of the messages that a subscription wants and
      that are not for an inbox. */
  function Matching(sub: Subscription, log: seq<Message>, lo: nat, hi: nat): seq<nat>
    requires hi <= |log|
    decreases hi
  {
    if hi <= lo then []
    else Matching(sub, log, lo, hi - 1) + if Due(sub, log[hi - 1].subject) then [hi - 1] else []
  }

  /** Where its registration ends: where it was muted or destroyed, or not yet. */
  function Until(s: State, id: Id): nat {
    if id in s.closed then s.closed[id] else Served(s, id)
  }

  /** The events queued for a subscription. */
  function PendingFor(pending: seq<Event>, id: Id): seq<nat> {
    if pending == [] then []
    else
      var e := pending[|pending| - 1];
      PendingFor(pending[..|pending| - 1], id) + if e.id == id then [e.index] else []
  }

  // ---- the code ----

  /** The subscription side of zmqTransportBridge, with the event queues behind it. */
  class SubTransport {
    var mSubEndpoints: seq<Subscription>
    var mWcEndpoints: seq<Subscription>
    var muted: set<Id>
    var received: nat
    var pending: seq<Event>

    constructor ()
      ensures mSubEndpoints == [] && mWcEndpoints == [] && muted == {} && received == 0 && pending == []
    {
      mSubEndpoints, mWcEndpoints, muted, received, pending := [], [], {}, 0, [];
    }

    /** dispatchSubMsg: the wildcards in list order, then the registered subscribers. */
    method DispatchSubMsg(subject: string)
      modifies this`received, this`pending
      ensures received == old(received) + 1
      ensures pending == Fan(Fan(old(pending), mWcEndpoints, muted, subject, old(received)),
                             mSubEndpoints, muted, subject, old(received))
    {
      var index := received;
      received := received + 1;
      FanOut(mWcEndpoints, subject, index);
      FanOut(mSubEndpoints, subject, index);
    }

    method DispatchNormalMsg(subject: string)
      modifies this`received, this`pending
      ensures received == old(received) + 1
      ensures pending == Routed(Routed(old(pending), mWcEndpoints, muted, subject, old(received)),
                                mSubEndpoints, muted, subject, old(received))
    {
      if REPLYHANDLE_PREFIX <= subject {
        received := received + 1;
      } else {
        DispatchSubMsg(subject);
      }
    }

    method FanOut(subs: seq<Subscription>, subject: string, index: nat)
      modifies this`pending
      ensures pending == Fan(old(pending), subs, muted, subject, index)
    {
      for i := 0 to |subs|
        invariant pending == Fan(old(pending), subs[..i], muted, subject, index)
      {
        var sub := subs[i];
        assert subs[..i + 1][..i] == subs[..i];
        if sub.id.wildcard {
          if sub.mSubjectKey <= subject && sub.mCompRegex(subject) {
            pending := pending + [EventFor(sub, index)];
          }
        } else if sub.mSubjectKey == subject && sub.id !in muted {
          pending := pending + [EventFor(sub, index)];
        }
      }
      assert subs[..|subs|] == subs;
    }

    /** The search of wcCallback and subCallback; the callback is skipped for a muted
        subscription. */
    method FindForCallback(wildcard: bool, identifier: string, subject: string) returns (sub: Option<Subscription>)
      ensures var found := Lookup(if wildcard then mWcEndpoints else mSubEndpoints, identifier, subject);
              sub == if found.Some? && found.value.id in muted then None else found
    {
      var subs := if wildcard then mWcEndpoints else mSubEndpoints;
      sub := None;
      for i := 0 to |subs|
        invariant sub == Lookup(subs[..i], identifier, subject)
      {
        assert subs[..i + 1][..i] == subs[..i];
        if Rendered(subs[i].id.serial) == identifier && (subs[i].id.wildcard || subs[i].mSubjectKey == subject) {
          sub := Some(subs[i]);
        }
      }
      assert subs[..|subs|] == subs;
      if sub.Some? && sub.value.id in muted {
        sub := None;
      }
    }
  }
}
