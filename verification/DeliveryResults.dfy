/** What subscriptions are given, in terms of the messages and the subscriptions alone. */
module DeliveryResults {
  import opened Common
  import opened Delivery
  import opened DeliveryInvariants
  import opened DeliveryProofs

  /** No event is queued for the subscription. */
  predicate NothingQueued(s: State, id: Id) {
    forall i | 0 <= i < |s.pending| :: s.pending[i].id != id
  }

  /** Everything given to it has a place in the log from its registration on. */
  predicate GivenFromLog(s: State, id: Id)
    requires id in s.known && id in s.delivered
  {
    forall i | i in s.delivered[id] :: s.known[id].since <= i < |s.log|
  }

  /** Regular subscriptions. In every state of every run, everything given to one has
      exactly its topic as subject and is not for an inbox; and one that is open and has
      nothing queued has been given precisely such messages, of all that the dispatch thread
      has served since it was registered. */
  lemma {:induction false} RegularExactly(states: seq<State>, steps: seq<Step>, k: nat, id: Id)
    requires IsRun(states, steps) && k < |states| && id in states[k].known && !id.wildcard
    ensures id in states[k].delivered && GivenFromLog(states[k], id) && states[k].served <= |states[k].log|
    ensures var s := states[k]; var key := s.known[id].mSubjectKey;
            forall i | i in s.delivered[id] :: s.log[i].subject == key && !(REPLYHANDLE_PREFIX <= s.log[i].subject)
    ensures var s := states[k]; var key := s.known[id].mSubjectKey;
            id !in s.closed && NothingQueued(s, id) ==>
              forall i | s.known[id].since <= i < s.served ::
                i in s.delivered[id] <==> s.log[i].subject == key && !(REPLYHANDLE_PREFIX <= s.log[i].subject)
  {
    var s := states[k];
    Given(states, steps, k, id);
    if id !in s.closed && NothingQueued(s, id) {
      forall i | s.known[id].since <= i < s.served
        ensures s.log[i].subject == s.known[id].mSubjectKey && !(REPLYHANDLE_PREFIX <= s.log[i].subject)
                ==> i in s.delivered[id]
      {
        if Due(s.known[id], s.log[i].subject) {
          Complete(states, steps, k, id, i);
        }
      }
    }
  }

  /** Wildcard subscriptions: the same, with the two tests on the subject. */
  lemma {:induction false} WildcardExactly(states: seq<State>, steps: seq<Step>, k: nat, id: Id)
    requires IsRun(states, steps) && k < |states| && id in states[k].known && id.wildcard
    ensures id in states[k].delivered && GivenFromLog(states[k], id)
    ensures var s := states[k]; var sub := s.known[id];
            forall i | i in s.delivered[id] :: var subject := s.log[i].subject;
              sub.mSubjectKey <= subject && sub.mCompRegex(subject) && !(REPLYHANDLE_PREFIX <= subject)
    ensures var s := states[k]; var sub := s.known[id];
            id !in s.closed && NothingQueued(s, id) ==>
              forall i | sub.since <= i < |s.log| :: var subject := s.log[i].subject;
                i in s.delivered[id]
                <==> sub.mSubjectKey <= subject && sub.mCompRegex(subject) && !(REPLYHANDLE_PREFIX <= subject)
  {
    var s := states[k];
    Given(states, steps, k, id);
    if id !in s.closed && NothingQueued(s, id) {
      forall i | s.known[id].since <= i < |s.log| && Due(s.known[id], s.log[i].subject)
        ensures i in s.delivered[id]
      {
        Complete(states, steps, k, id, i);
      }
    }
  }

  lemma {:induction false} Given(states: seq<State>, steps: seq<Step>, k: nat, id: Id)
    requires IsRun(states, steps) && k < |states| && id in states[k].known
    ensures var s := states[k];
            && id in s.delivered && s.known[id].id == id && s.served <= |s.log| && GivenFromLog(s, id)
            && forall i | i in s.delivered[id] :: Due(s.known[id], s.log[i].subject)
  {
    ExactDelivery(states, steps, k, id);
    InvHolds(states, steps, k);
    assert KnownInv(states[k], id);
  }

  lemma {:induction false} Complete(states: seq<State>, steps: seq<Step>, k: nat, id: Id, i: nat)
    requires IsRun(states, steps) && k < |states| && id in states[k].known && id !in states[k].closed
    requires NothingQueued(states[k], id) && states[k].known[id].since <= i < Served(states[k], id)
    requires i < |states[k].log| && Due(states[k].known[id], states[k].log[i].subject)
    ensures id in states[k].delivered && i in states[k].delivered[id]
  {
    var s := states[k];
    ExactDelivery(states, steps, k, id);
    PendingNone(s.pending, id);
    assert s.delivered[id] + [] == s.delivered[id];
    MatchingComplete(s.known[id], s.log, s.known[id].since, Until(s, id), i);
  }

  /** What is queued can be dispatched: from every state of every run, dispatching alone
      leads to one in which nothing is queued and nothing else has changed but what was
      given. */
  lemma {:induction false} Drains(states: seq<State>, steps: seq<Step>) returns (longer: seq<State>, more: seq<Step>)
    requires IsRun(states, steps)
    ensures IsRun(longer, more) && states <= longer && steps <= more
    ensures var s, s' := states[|steps|], longer[|more|];
            && s'.pending == [] && s'.log == s.log && s'.served == s.served
            && s'.known == s.known && s'.closed == s.closed && s'.muted == s.muted
    decreases |states[|steps|].pending|
  {
    var s := states[|steps|];
    if s.pending == [] {
      longer, more := states, steps;
    } else {
      var next := Apply(s, Dispatch(0));
      assert next.pending == s.pending[1..];
      longer, more := states + [next], steps + [Dispatch(0)];
      longer, more := Drains(longer, more);
    }
  }

  /** So a message that is received is in the end given to every regular subscription to
      its subject that is open. */
  lemma {:induction false} EventuallyGiven(states: seq<State>, steps: seq<Step>, id: Id, i: nat)
    returns (longer: seq<State>, more: seq<Step>)
    requires IsRun(states, steps) && id in states[|steps|].known && !id.wildcard && id !in states[|steps|].closed
    requires var s := states[|steps|];
             && s.served <= |s.log| && s.known[id].since <= i < s.served
             && s.log[i].subject == s.known[id].mSubjectKey && !(REPLYHANDLE_PREFIX <= s.log[i].subject)
    ensures IsRun(longer, more) && states <= longer && steps <= more
    ensures id in longer[|more|].delivered && i in longer[|more|].delivered[id]
  {
    longer, more := Drains(states, steps);
    RegularExactly(longer, more, |more|, id);
  }

  // ---- what one message queues ----

  predicate Asks(sub: Subscription, muted: set<Id>, subject: string) {
    && !(REPLYHANDLE_PREFIX <= subject)
    && if sub.id.wildcard then sub.mSubjectKey <= subject && sub.mCompRegex(subject)
       else sub.mSubjectKey == subject && sub.id !in muted
  }

  /** The event is this message for one of the subscriptions that ask for it. */
  ghost predicate IsFor(e: Event, subs: seq<Subscription>, muted: set<Id>, subject: string, index: nat) {
    exists at :: 0 <= at < |subs| && e == EventFor(subs[at], index) && Asks(subs[at], muted, subject)
  }

  /** The events added: for exactly the subscriptions that ask for the message, one each,
      and in the order in which these were made. */
  ghost predicate Adds(added: seq<Event>, subs: seq<Subscription>, muted: set<Id>, subject: string, index: nat) {
    && (forall i | 0 <= i < |added| :: IsFor(added[i], subs, muted, subject, index))
    && (forall at | 0 <= at < |subs| && Asks(subs[at], muted, subject) :: EventFor(subs[at], index) in added)
    && (forall i, j | 0 <= i < j < |added| :: added[i].id.serial < added[j].id.serial)
  }

  /** Nothing queued before is touched, and the new events are such. */
  ghost predicate QueuesFor(s: State, s': State, subs: seq<Subscription>, subject: string, index: nat) {
    s.pending <= s'.pending && Adds(s'.pending[|s.pending|..], subs, s.muted, subject, index)
  }

  lemma {:induction false} FanIs(pending: seq<Event>, subs: seq<Subscription>, muted: set<Id>, subject: string,
                                 index: nat)
    returns (added: seq<Event>)
    requires !ForInbox(subject) && forall i, j | 0 <= i < j < |subs| :: subs[i].id.serial < subs[j].id.serial
    ensures Fan(pending, subs, muted, subject, index) == pending + added && Adds(added, subs, muted, subject, index)
  {
    if subs == [] {
      added := [];
    } else {
      var last := |subs| - 1;
      var before := FanIs(pending, subs[..last], muted, subject, index);
      if Asks(subs[last], muted, subject) {
        added := before + [EventFor(subs[last], index)];
        Assoc(pending, before, [EventFor(subs[last], index)]);
        AddsOne(before, subs, muted, subject, index);
      } else {
        added := before;
        AddsNone(before, subs, muted, subject, index);
      }
    }
  }

  /** An event for one of the first subscriptions is one for all of them. */
  lemma {:induction false} IsForMore(e: Event, subs: seq<Subscription>, muted: set<Id>, subject: string, index: nat)
    returns (at: nat)
    requires subs != [] && IsFor(e, subs[..|subs| - 1], muted, subject, index)
    ensures at < |subs| - 1 && e == EventFor(subs[at], index) && IsFor(e, subs, muted, subject, index)
  {
    var front := subs[..|subs| - 1];
    at :| 0 <= at < |front| && e == EventFor(front[at], index) && Asks(front[at], muted, subject);
    assert front[at] == subs[at];
  }

  lemma {:induction false} AddsOne(before: seq<Event>, subs: seq<Subscription>, muted: set<Id>, subject: string,
                                   index: nat)
    requires subs != [] && Adds(before, subs[..|subs| - 1], muted, subject, index)
    requires Asks(subs[|subs| - 1], muted, subject)
    requires forall i, j | 0 <= i < j < |subs| :: subs[i].id.serial < subs[j].id.serial
    ensures Adds(before + [EventFor(subs[|subs| - 1], index)], subs, muted, subject, index)
  {
    var last := |subs| - 1;
    var e := EventFor(subs[last], index);
    var added := before + [e];
    forall i | 0 <= i < |before|
      ensures added[i].id.serial < e.id.serial && IsFor(added[i], subs, muted, subject, index)
    {
      var at := IsForMore(before[i], subs, muted, subject, index);
    }
    assert IsFor(e, subs, muted, subject, index);
    forall at | 0 <= at < |subs| && Asks(subs[at], muted, subject)
      ensures EventFor(subs[at], index) in added
    {
      if at < last {
        assert subs[..last][at] == subs[at];
      } else {
        assert added[|before|] == e;
      }
    }
  }

  lemma {:induction false} AddsNone(before: seq<Event>, subs: seq<Subscription>, muted: set<Id>, subject: string,
                                    index: nat)
    requires subs != [] && Adds(before, subs[..|subs| - 1], muted, subject, index)
    requires !Asks(subs[|subs| - 1], muted, subject)
    ensures Adds(before, subs, muted, subject, index)
  {
    forall i | 0 <= i < |before|
      ensures IsFor(before[i], subs, muted, subject, index)
    {
      var at := IsForMore(before[i], subs, muted, subject, index);
    }
    forall at | 0 <= at < |subs| && Asks(subs[at], muted, subject)
      ensures EventFor(subs[at], index) in before
    {
      assert subs[..|subs| - 1][at] == subs[at];
    }
  }

  lemma {:induction false} RoutedQueues(s: State, s': State, subs: seq<Subscription>, subject: string, index: nat)
    requires s'.pending == Routed(s.pending, subs, s.muted, subject, index)
    requires forall i, j | 0 <= i < j < |subs| :: subs[i].id.serial < subs[j].id.serial
    ensures QueuesFor(s, s', subs, subject, index)
  {
    if ForInbox(subject) {
      assert s'.pending[|s.pending|..] == [];
    } else {
      var added := FanIs(s.pending, subs, s.muted, subject, index);
      assert s'.pending[|s.pending|..] == added;
    }
  }

  /** In every run, each message that arrives is queued in this way for the wildcards, and
      then for the regular subscriptions. */
  lemma {:induction false} QueuedExactly(states: seq<State>, steps: seq<Step>, k: nat)
    requires IsRun(states, steps) && k < |steps|
    ensures var s, s' := states[k], states[k + 1];
            && (steps[k].ReceiveForWildcards? ==>
                  s'.log == s.log + [steps[k].m] && QueuesFor(s, s', s.wcs, steps[k].m.subject, |s.log|))
            && (steps[k].ReceiveForSubs? && s.served < |s.log| ==>
                  s'.served == s.served + 1 && QueuesFor(s, s', s.subs, s.log[s.served].subject, s.served))
  {
    InvHolds(states, steps, k);
    var s, s' := states[k], states[k + 1];
    if steps[k].ReceiveForWildcards? {
      RoutedQueues(s, s', s.wcs, steps[k].m.subject, |s.log|);
    } else if steps[k].ReceiveForSubs? && s.served < |s.log| {
      RoutedQueues(s, s', s.subs, s.log[s.served].subject, s.served);
    }
  }
}
