/** Every run delivers to each subscription exactly what it should get, in order. */
module DeliveryProofs {
  import opened Common
  import opened Serial
  import opened Delivery
  import opened DeliveryInvariants

  // ---- the reference under a growing log ----

  /** The indices go up, lie in the range, and are of messages that are due. */
  ghost predicate InOrder(r: seq<nat>, sub: Subscription, log: seq<Message>, lo: nat, hi: nat) {
    && (forall i | 0 <= i < |r| :: lo <= r[i] < hi && r[i] < |log| && Due(sub, log[r[i]].subject))
    && (forall i, j | 0 <= i < j < |r| :: r[i] < r[j])
  }

  lemma {:induction false} MatchingInOrder(sub: Subscription, log: seq<Message>, lo: nat, hi: nat)
    requires hi <= |log|
    ensures InOrder(Matching(sub, log, lo, hi), sub, log, lo, hi)
    decreases hi
  {
    if hi > lo {
      MatchingInOrder(sub, log, lo, hi - 1);
    }
  }

  lemma {:induction false} MatchingComplete(sub: Subscription, log: seq<Message>, lo: nat, hi: nat, k: nat)
    requires lo <= k < hi <= |log| && Due(sub, log[k].subject)
    ensures k in Matching(sub, log, lo, hi)
    decreases hi
  {
    if k < hi - 1 {
      MatchingComplete(sub, log, lo, hi - 1, k);
    }
  }

  // ---- the fan-out loop ----

  lemma {:induction false} FanSkips(pending: seq<Event>, subs: seq<Subscription>, muted: set<Id>, subject: string,
                                    index: nat, id: Id)
    requires forall i | 0 <= i < |subs| ::
               subs[i].id == id ==> !Wants(subs[i], subject) || (!id.wildcard && id in muted)
    ensures PendingFor(Fan(pending, subs, muted, subject, index), id) == PendingFor(pending, id)
  {
    if subs != [] {
      var front := subs[..|subs| - 1];
      FanSkips(pending, front, muted, subject, index, id);
      PendingLast(Fan(pending, front, muted, subject, index), EventFor(subs[|subs| - 1], index), id);
    }
  }

  lemma {:induction false} PendingLast(pending: seq<Event>, e: Event, id: Id)
    ensures PendingFor(pending + [e], id) == PendingFor(pending, id) + if e.id == id then [e.index] else []
  {
    assert (pending + [e])[..|pending|] == pending;
  }

  lemma {:induction false} FanAdds(pending: seq<Event>, subs: seq<Subscription>, muted: set<Id>, subject: string,
                                   index: nat, at: nat)
    requires at < |subs| && (forall i, j | 0 <= i < j < |subs| :: subs[i].id != subs[j].id)
    requires Wants(subs[at], subject) && (subs[at].id.wildcard || subs[at].id !in muted)
    ensures PendingFor(Fan(pending, subs, muted, subject, index), subs[at].id)
              == PendingFor(pending, subs[at].id) + [index]
  {
    var last := |subs| - 1;
    var front := subs[..last];
    PendingLast(Fan(pending, front, muted, subject, index), EventFor(subs[last], index), subs[at].id);
    if at == last {
      FanSkips(pending, front, muted, subject, index, subs[at].id);
    } else {
      FanAdds(pending, front, muted, subject, index, at);
    }
  }

  lemma {:induction false} FanEvents(pending: seq<Event>, subs: seq<Subscription>, muted: set<Id>, subject: string,
                                     index: nat, i: nat)
    requires i < |Fan(pending, subs, muted, subject, index)|
    ensures var e := Fan(pending, subs, muted, subject, index)[i];
            (i < |pending| && e == pending[i])
            || exists k :: 0 <= k < |subs| && Wants(subs[k], subject) && e == EventFor(subs[k], index)
  {
    if subs != [] {
      var last := |subs| - 1;
      var before := Fan(pending, subs[..last], muted, subject, index);
      if i < |before| {
        FanEvents(pending, subs[..last], muted, subject, index, i);
        if k :| 0 <= k < last && Wants(subs[..last][k], subject) && before[i] == EventFor(subs[..last][k], index) {
          assert subs[..last][k] == subs[k];
        }
      } else {
        assert Wants(subs[last], subject);
      }
    }
  }

  // ---- lookup at dispatch ----

  lemma {:induction false} LookupFinds(subs: seq<Subscription>, at: nat, subject: string)
    requires at < |subs| && (forall i, j | 0 <= i < j < |subs| :: subs[i].id.serial < subs[j].id.serial)
    requires forall i | 0 <= i < |subs| :: subs[i].id.serial < UINT64
    requires subs[at].id.wildcard || subs[at].mSubjectKey == subject
    ensures Lookup(subs, Rendered(subs[at].id.serial), subject) == Some(subs[at])
  {
    var last := |subs| - 1;
    if at < last {
      if Rendered(subs[last].id.serial) == Rendered(subs[at].id.serial) {
        RenderedInjective(subs[last].id.serial, subs[at].id.serial);
      }
      LookupFinds(subs[..last], at, subject);
    }
  }

  lemma {:induction false} LookupIs(subs: seq<Subscription>, identifier: string, subject: string) returns (at: nat)
    requires Lookup(subs, identifier, subject).Some?
    ensures at < |subs| && Lookup(subs, identifier, subject) == Some(subs[at])
    ensures Rendered(subs[at].id.serial) == identifier
  {
    var last := |subs| - 1;
    if Rendered(subs[last].id.serial) == identifier && (subs[last].id.wildcard || subs[last].mSubjectKey == subject) {
      at := last;
    } else {
      at := LookupIs(subs[..last], identifier, subject);
    }
  }

  // ---- taking an event out of its queue ----

  lemma {:induction false} PendingConcat(p: seq<Event>, q: seq<Event>, id: Id)
    ensures PendingFor(p + q, id) == PendingFor(p, id) + PendingFor(q, id)
    decreases |q|
  {
    if q == [] {
      assert p + q == p;
    } else {
      var front := q[..|q| - 1];
      assert (p + q)[..|p + q| - 1] == p + front;
      PendingConcat(p, front, id);
    }
  }

  lemma {:induction false} PendingNone(p: seq<Event>, id: Id)
    requires forall i | 0 <= i < |p| :: p[i].id != id
    ensures PendingFor(p, id) == []
  {
    if p != [] {
      PendingNone(p[..|p| - 1], id);
    }
  }

  /** The oldest event of a queue is the first of its subscription's. */
  lemma {:induction false} PendingTaken(p: seq<Event>, at: nat, id: Id)
    requires at < |p| && (p[at].id == id ==> forall i | 0 <= i < at :: p[i].id != id)
    ensures PendingFor(p, id)
            == (if p[at].id == id then [p[at].index] else []) + PendingFor(p[..at] + p[at + 1..], id)
  {
    PendingSplit(p, at, id);
    PendingConcat(p[..at], p[at + 1..], id);
    if p[at].id == id {
      PendingNone(p[..at], id);
    }
  }

  lemma {:induction false} PendingSplit(p: seq<Event>, at: nat, id: Id)
    requires at < |p|
    ensures PendingFor(p, id)
            == PendingFor(p[..at], id) + ((if p[at].id == id then [p[at].index] else []) + PendingFor(p[at + 1..], id))
  {
    assert p == p[..at] + ([p[at]] + p[at + 1..]);
    PendingConcat(p[..at], [p[at]] + p[at + 1..], id);
    PendingConcat([p[at]], p[at + 1..], id);
    PendingLast([], p[at], id);
    assert [] + [p[at]] == [p[at]];
  }

  // ---- destroying a subscription ----

  lemma {:induction false} WithoutMembers(subs: seq<Subscription>, id: Id, x: Subscription)
    ensures x in Without(subs, id) <==> x in subs && x.id != id
  {
    if subs != [] {
      var last := |subs| - 1;
      WithoutMembers(subs[..last], id, x);
      assert subs == subs[..last] + [subs[last]];
    }
  }

  lemma {:induction false} WithoutSorted(subs: seq<Subscription>, id: Id)
    requires forall i, j | 0 <= i < j < |subs| :: subs[i].id.serial < subs[j].id.serial
    ensures var r := Without(subs, id); forall i, j | 0 <= i < j < |r| :: r[i].id.serial < r[j].id.serial
  {
    if subs != [] {
      var last := |subs| - 1;
      var front := Without(subs[..last], id);
      WithoutSorted(subs[..last], id);
      forall i | 0 <= i < |front|
        ensures front[i].id.serial < subs[last].id.serial
      {
        WithoutMembers(subs[..last], id, front[i]);
      }
    }
  }

  // ---- every step keeps the invariant ----

  lemma {:induction false} MatchingSame(sub: Subscription, log: seq<Message>, log': seq<Message>, lo: nat, hi: nat)
    requires hi <= |log| && log <= log'
    ensures Matching(sub, log', lo, hi) == Matching(sub, log, lo, hi)
    decreases hi
  {
    if hi > lo {
      MatchingSame(sub, log, log', lo, hi - 1);
    }
  }

  /** A step that leaves a subscription alone keeps its books. */
  lemma {:induction false} SameExact(s: State, s': State, id: Id)
    requires Exact(s, id) && id in s'.known && s'.known[id] == s.known[id]
    requires id in s'.delivered && s'.delivered[id] == s.delivered[id]
    requires s.log <= s'.log && (id in s.closed <==> id in s'.closed) && Until(s', id) == Until(s, id)
    requires id !in s.closed ==> PendingFor(s'.pending, id) == PendingFor(s.pending, id)
    ensures Exact(s', id)
  {
    MatchingSame(s.known[id], s.log, s'.log, s.known[id].since, Until(s, id));
  }

  /** Closing a subscription turns the equation into a prefix. */
  lemma {:induction false} CloseExact(s: State, s': State, id: Id)
    requires Exact(s, id) && s'.known == s.known && s'.log == s.log && s'.delivered == s.delivered
    requires s'.closed == Close(s, id) && s'.served == s.served
    ensures Exact(s', id)
  {
  }

  /** A subscription that is open is registered, once. */
  lemma {:induction false} OpenIsRegistered(s: State, id: Id) returns (at: nat)
    requires BaseInv(s) && id in s.known && id !in s.closed
    ensures if id.wildcard then at < |s.wcs| && s.wcs[at] == s.known[id] else at < |s.subs| && s.subs[at] == s.known[id]
    ensures id !in s.muted
  {
    assert KnownInv(s, id) && Registered(s, id);
    if id.wildcard {
      at :| 0 <= at < |s.wcs| && s.wcs[at].id == id;
    } else {
      at :| 0 <= at < |s.subs| && s.subs[at].id == id;
    }
  }

  /** Serving one more message adds what is wanted to both sides of the equation. */
  lemma {:induction false} ServeExact(s: State, s': State, id: Id, index: nat)
    requires Exact(s, id) && s'.known == s.known && s'.delivered == s.delivered && s'.closed == s.closed
    requires s.log <= s'.log && Served(s, id) == index && Served(s', id) == index + 1 && index < |s'.log|
    requires id !in s.closed && s.known[id].since <= index
    requires PendingFor(s'.pending, id)
             == PendingFor(s.pending, id) + if Due(s.known[id], s'.log[index].subject) then [index] else []
    ensures Exact(s', id)
  {
    var sub := s.known[id];
    MatchingSame(sub, s.log, s'.log, sub.since, index);
    var more := if Due(sub, s'.log[index].subject) then [index] else [];
    assert Matching(sub, s'.log, sub.since, index + 1) == Matching(sub, s'.log, sub.since, index) + more;
    assert s.delivered[id] + (PendingFor(s.pending, id) + more) == (s.delivered[id] + PendingFor(s.pending, id)) + more;
  }

  // ---- receiving ----

  /** The dispatch thread's loop over a registry, for one of its open subscriptions. */
  lemma {:induction false} FanServes(s: State, subs: seq<Subscription>, id: Id, at: nat, subject: string, index: nat)
    requires at < |subs| && subs[at].id == id && (id.wildcard || id !in s.muted)
    requires forall i, j | 0 <= i < j < |subs| :: subs[i].id.serial < subs[j].id.serial
    ensures PendingFor(Routed(s.pending, subs, s.muted, subject, index), id)
            == PendingFor(s.pending, id) + if Due(subs[at], subject) then [index] else []
  {
    if ForInbox(subject) {
    } else if Wants(subs[at], subject) {
      FanAdds(s.pending, subs, s.muted, subject, index, at);
    } else {
      FanSkips(s.pending, subs, s.muted, subject, index, id);
    }
  }

  lemma {:induction false} BaseReceive(s: State, step: Step)
    requires BaseInv(s) && Enabled(s, step) && (step.ReceiveForWildcards? || step.ReceiveForSubs?)
    ensures BaseInv(Apply(s, step))
  {
    var s' := Apply(s, step);
    var subs := if step.ReceiveForWildcards? then s.wcs else s.subs;
    var index := if step.ReceiveForWildcards? then |s.log| else s.served;
    var subject := s'.log[index].subject;
    assert s.log <= s'.log;
    forall i | 0 <= i < |s'.pending|
      ensures EventInv(s', s'.pending[i])
    {
      if !ForInbox(subject) {
        FanEvents(s.pending, subs, s.muted, subject, index, i);
      }
      if i < |s.pending| && s'.pending[i] == s.pending[i] {
        assert EventInv(s, s.pending[i]);
      }
    }
    forall id | id in s'.known
      ensures KnownInv(s', id)
    {
      SameLists(s, s', id);
      SameKnown(s, s', id);
    }
  }

  lemma {:induction false} ExactReceive(s: State, step: Step, id: Id)
    requires Inv(s) && Enabled(s, step) && (step.ReceiveForWildcards? || step.ReceiveForSubs?) && id in s.known
    ensures Exact(Apply(s, step), id)
  {
    var s' := Apply(s, step);
    var wildcards := step.ReceiveForWildcards?;
    var subs := if wildcards then s.wcs else s.subs;
    var index := if wildcards then |s.log| else s.served;
    assert Exact(s, id) && KnownInv(s, id);
    if id in s.closed {
      SameExact(s, s', id);
    } else if id.wildcard == wildcards {
      var at := OpenIsRegistered(s, id);
      FanServes(s, subs, id, at, s'.log[index].subject, index);
      ServeExact(s, s', id, index);
    } else {
      FanSkips(s.pending, subs, s.muted, s'.log[index].subject, index, id);
      SameExact(s, s', id);
    }
  }

  // ---- creating ----

  /** s' is s with one more subscription in its books. */
  ghost predicate Extends(s: State, s': State, sub: Subscription) {
    && s'.known == s.known[sub.id := sub] && s'.delivered == s.delivered[sub.id := []]
    && s'.muted == s.muted && s'.closed == s.closed && s'.log == s.log && s'.served == s.served
    && s'.pending == s.pending
    && (s'.subs == s.subs || s'.subs == s.subs + [sub]) && (s'.wcs == s.wcs || s'.wcs == s.wcs + [sub])
    && s.mSubUid <= s'.mSubUid && s.mWcsUid <= s'.mWcsUid
    && sub.since == Served(s, sub.id) && UidOf(s', sub.id) && sub.id !in s.known
  }

  lemma {:induction false} CreateExtends(s: State, step: Step, id: Id)
    requires BaseInv(s) && Enabled(s, step) && (step.CreateSub? || step.CreateWildcard?)
    requires id == Id(step.CreateWildcard?, if step.CreateSub? then s.mSubUid + 1 else s.mWcsUid + 1)
    ensures id !in s.known && id in Apply(s, step).known && Extends(s, Apply(s, step), Apply(s, step).known[id])
    ensures Apply(s, step).known[id].id == id
  {
    assert forall other | other in s.known :: KnownInv(s, other) && other != id;
  }

  lemma {:induction false} ExtendKnown(s: State, s': State, sub: Subscription, id: Id)
    requires Extends(s, s', sub) && id in s'.known && Registered(s', sub.id) && sub.id !in s.muted
    requires sub.id !in s.closed
    requires id != sub.id ==> KnownInv(s, id)
    ensures KnownInv(s', id)
  {
    if id != sub.id {
      StillRegistered(s.subs, s'.subs, sub, id);
      StillRegistered(s.wcs, s'.wcs, sub, id);
      assert Registered(s, id) <==> InList(if id.wildcard then s.wcs else s.subs, id);
      assert Registered(s', id) <==> InList(if id.wildcard then s'.wcs else s'.subs, id);
    }
  }

  lemma {:induction false} BaseCreate(s: State, step: Step, id: Id)
    requires BaseInv(s) && Enabled(s, step) && (step.CreateSub? || step.CreateWildcard?)
    requires id == Id(step.CreateWildcard?, if step.CreateSub? then s.mSubUid + 1 else s.mWcsUid + 1)
    ensures BaseInv(Apply(s, step))
  {
    var s' := Apply(s, step);
    CreateExtends(s, step, id);
    CreateRegistry(s, step, id);
    forall other | other in s'.known
      ensures KnownInv(s', other)
    {
      ExtendKnown(s, s', s'.known[id], other);
    }
    forall i | 0 <= i < |s'.pending|
      ensures EventInv(s', s'.pending[i])
    {
      assert EventInv(s, s.pending[i]);
    }
  }

  lemma {:induction false} ExactCreate(s: State, step: Step, id: Id, added: Id)
    requires Inv(s) && Enabled(s, step) && (step.CreateSub? || step.CreateWildcard?) && id in Apply(s, step).known
    requires added == Id(step.CreateWildcard?, if step.CreateSub? then s.mSubUid + 1 else s.mWcsUid + 1)
    ensures Exact(Apply(s, step), id)
  {
    var s' := Apply(s, step);
    CreateExtends(s, step, added);
    if id == added {
      forall i | 0 <= i < |s.pending|
        ensures s.pending[i].id != id
      {
        assert EventInv(s, s.pending[i]);
      }
      PendingNone(s.pending, id);
    } else {
      assert Exact(s, id);
      SameExact(s, s', id);
    }
  }

  lemma {:induction false} CreateRegistry(s: State, step: Step, id: Id)
    requires Enabled(s, step) && (step.CreateSub? || step.CreateWildcard?)
    requires id == Id(step.CreateWildcard?, if step.CreateSub? then s.mSubUid + 1 else s.mWcsUid + 1) && id !in s.known
    requires RegistryInv(s.subs, false, s.mSubUid, s.known) && RegistryInv(s.wcs, true, s.mWcsUid, s.known)
    ensures var s' := Apply(s, step);
            && RegistryInv(s'.subs, false, s'.mSubUid, s'.known) && RegistryInv(s'.wcs, true, s'.mWcsUid, s'.known)
            && Registered(s', id)
  {
    var s' := Apply(s, step);
    if id.wildcard {
      assert s'.wcs[|s.wcs|].id == id;
    } else {
      assert s'.subs[|s.subs|].id == id;
    }
  }

  lemma {:induction false} StillRegistered(subs: seq<Subscription>, subs': seq<Subscription>, sub: Subscription, id: Id)
    requires (subs' == subs || subs' == subs + [sub]) && id != sub.id
    ensures InList(subs, id) <==> InList(subs', id)
  {
    if InList(subs, id) {
      var i :| 0 <= i < |subs| && subs[i].id == id;
      assert subs'[i].id == id;
    }
  }

  // ---- muting and destroying ----

  /** A queued event stays good while the log grows and no subscription is forgotten. */
  lemma {:induction false} SameEvent(s: State, s': State, e: Event)
    requires EventInv(s, e) && s'.known == s.known && s.log <= s'.log && s.served <= s'.served
    ensures EventInv(s', e)
  {
  }

  /** What is known of a subscription stays so while its own books are left alone. */
  lemma {:induction false} SameKnown(s: State, s': State, id: Id)
    requires id in s.known && KnownInv(s, id) && s'.known == s.known && id in s'.delivered
    requires s'.mSubUid == s.mSubUid && s'.mWcsUid == s.mWcsUid && s.served <= s'.served && |s.log| <= |s'.log|
    requires (id in s'.muted <==> id in s.muted) && (id in s'.closed <==> id in s.closed)
    requires id in s.closed ==> s'.closed[id] == s.closed[id]
    requires Registered(s', id) <==> Registered(s, id)
    ensures KnownInv(s', id)
  {
  }

  lemma {:induction false} SameLists(s: State, s': State, id: Id)
    requires s'.subs == s.subs && s'.wcs == s.wcs
    ensures Registered(s', id) <==> Registered(s, id)
  {
  }

  lemma {:induction false} KnownMute(s: State, id: Id, other: Id)
    requires other in s.known && KnownInv(s, other)
    ensures KnownInv(Apply(s, Mute(id)), other)
  {
    var s' := Apply(s, Mute(id));
    SameLists(s, s', other);
    if other != id {
      SameKnown(s, s', other);
    }
  }

  lemma {:induction false} BaseMute(s: State, id: Id)
    requires BaseInv(s) && Registered(s, id)
    ensures BaseInv(Apply(s, Mute(id))) && id in s.known
  {
    var s' := Apply(s, Mute(id));
    RegisteredIsKnown(s, id);
    forall other | other in s'.known
      ensures KnownInv(s', other)
    {
      KnownMute(s, id, other);
    }
    forall i | 0 <= i < |s'.pending|
      ensures EventInv(s', s'.pending[i])
    {
      SameEvent(s, s', s.pending[i]);
    }
  }

  lemma {:induction false} RegisteredIsKnown(s: State, id: Id)
    requires BaseInv(s) && Registered(s, id)
    ensures id in s.known && KnownInv(s, id)
  {
    if id.wildcard {
      var i :| 0 <= i < |s.wcs| && s.wcs[i].id == id;
    } else {
      var i :| 0 <= i < |s.subs| && s.subs[i].id == id;
    }
  }

  lemma {:induction false} RegistryWithout(subs: seq<Subscription>, wildcard: bool, uid: nat,
                                           known: map<Id, Subscription>, id: Id)
    requires RegistryInv(subs, wildcard, uid, known)
    ensures RegistryInv(Without(subs, id), wildcard, uid, known)
  {
    var r := Without(subs, id);
    WithoutSorted(subs, id);
    forall i | 0 <= i < |r|
      ensures && r[i].id.wildcard == wildcard && 1 <= r[i].id.serial <= uid
              && r[i].id in known && known[r[i].id] == r[i]
    {
      WithoutMembers(subs, id, r[i]);
      var k :| 0 <= k < |subs| && subs[k] == r[i];
    }
  }

  predicate InList(subs: seq<Subscription>, id: Id) {
    exists i | 0 <= i < |subs| :: subs[i].id == id
  }

  lemma {:induction false} WithoutLeavesOthers(subs: seq<Subscription>, id: Id, other: Id)
    ensures InList(Without(subs, id), other) <==> InList(subs, other) && other != id
  {
    var r := Without(subs, id);
    if InList(r, other) {
      var i :| 0 <= i < |r| && r[i].id == other;
      WithoutMembers(subs, id, r[i]);
    }
    if InList(subs, other) && other != id {
      var i :| 0 <= i < |subs| && subs[i].id == other;
      WithoutMembers(subs, id, subs[i]);
    }
  }

  /** A destroyed subscription is no longer registered; all others stay. */
  lemma {:induction false} DestroyLeavesOthers(s: State, id: Id, other: Id)
    ensures Registered(Apply(s, Destroy(id)), other) <==> Registered(s, other) && other != id
  {
    WithoutLeavesOthers(s.subs, id, other);
    WithoutLeavesOthers(s.wcs, id, other);
    assert Registered(s, other) <==> InList(if other.wildcard then s.wcs else s.subs, other);
  }

  lemma {:induction false} KnownDestroy(s: State, id: Id, other: Id)
    requires other in s.known && KnownInv(s, other)
    ensures KnownInv(Apply(s, Destroy(id)), other)
  {
    var s' := Apply(s, Destroy(id));
    DestroyLeavesOthers(s, id, other);
    if other != id {
      SameKnown(s, s', other);
    }
  }

  lemma {:induction false} BaseDestroy(s: State, id: Id)
    requires BaseInv(s) && Registered(s, id)
    ensures BaseInv(Apply(s, Destroy(id))) && id in s.known
  {
    var s' := Apply(s, Destroy(id));
    RegisteredIsKnown(s, id);
    RegistryWithout(s.subs, false, s.mSubUid, s.known, id);
    RegistryWithout(s.wcs, true, s.mWcsUid, s.known, id);
    forall other | other in s'.known
      ensures KnownInv(s', other)
    {
      KnownDestroy(s, id, other);
    }
    forall i | 0 <= i < |s'.pending|
      ensures EventInv(s', s'.pending[i])
    {
      SameEvent(s, s', s.pending[i]);
    }
  }

  // ---- dispatching ----

  lemma {:induction false} LookupEvent(s: State, e: Event)
    requires BaseInv(s) && EventInv(s, e)
    ensures var found := Lookup(if e.id.wildcard then s.wcs else s.subs, e.mEndpointIdentifier, s.log[e.index].subject);
            && (e.id !in s.closed ==> found == Some(s.known[e.id]) && e.id !in s.muted)
            && (e.id in s.closed && found.Some? ==> found.value.id in s.muted)
  {
    var subject := s.log[e.index].subject;
    var subs := if e.id.wildcard then s.wcs else s.subs;
    assert KnownInv(s, e.id);
    if e.id !in s.closed {
      var at := OpenIsRegistered(s, e.id);
      LookupFinds(subs, at, subject);
    } else if Lookup(subs, e.mEndpointIdentifier, subject).Some? {
      var at := LookupIs(subs, e.mEndpointIdentifier, subject);
      RenderedInjective(subs[at].id.serial, e.id.serial);
      assert subs[at].id == e.id && Registered(s, e.id);
    }
  }

  /** What a dispatch hands over: the message, to the subscription it was enqueued
      for, if that is open; nothing, if it is not. */
  lemma {:induction false} DeliverIs(s: State, e: Event)
    requires BaseInv(s) && EventInv(s, e)
    ensures e.id in s.delivered
    ensures Deliver(s, e)
              == if e.id in s.closed then s.delivered else s.delivered[e.id := s.delivered[e.id] + [e.index]]
  {
    assert KnownInv(s, e.id);
    LookupEvent(s, e);
  }

  lemma {:induction false} EventsAfterDispatch(s: State, s': State, at: nat)
    requires at < |s.pending| && s'.pending == s.pending[..at] + s.pending[at + 1..]
    requires s'.known == s.known && s'.log == s.log && s'.served == s.served
    requires forall i | 0 <= i < |s.pending| :: EventInv(s, s.pending[i])
    ensures forall i | 0 <= i < |s'.pending| :: EventInv(s', s'.pending[i])
  {
    forall i | 0 <= i < |s'.pending|
      ensures EventInv(s', s'.pending[i])
    {
      SameEvent(s, s', s.pending[if i < at then i else i + 1]);
    }
  }

  lemma {:induction false} BaseDispatch(s: State, at: nat)
    requires BaseInv(s) && at < |s.pending|
    ensures BaseInv(Apply(s, Dispatch(at)))
  {
    var s' := Apply(s, Dispatch(at));
    assert EventInv(s, s.pending[at]);
    DeliverIs(s, s.pending[at]);
    EventsAfterDispatch(s, s', at);
    forall id | id in s'.known
      ensures KnownInv(s', id)
    {
      SameLists(s, s', id);
      SameKnown(s, s', id);
    }
  }

  lemma {:induction false} ExactDispatch(s: State, at: nat, id: Id)
    requires BaseInv(s) && Exact(s, id) && Oldest(s.pending, at)
    ensures Exact(Apply(s, Dispatch(at)), id)
  {
    var e := s.pending[at];
    assert EventInv(s, e) by {
      assert 0 <= at < |s.pending|;
    }
    DeliverIs(s, e);
    FirstOfItsQueue(s, at, id);
    PendingTaken(s.pending, at, id);
    DispatchBooks(s, at, id);
  }

  lemma {:induction false} DispatchBooks(s: State, at: nat, id: Id)
    requires Exact(s, id) && at < |s.pending| && s.pending[at].id in s.delivered
    requires var e := s.pending[at];
             && Deliver(s, e) == (if e.id in s.closed then s.delivered
                                  else s.delivered[e.id := s.delivered[e.id] + [e.index]])
             && PendingFor(s.pending, id)
                == (if e.id == id then [e.index] else []) + PendingFor(s.pending[..at] + s.pending[at + 1..], id)
    ensures Exact(Apply(s, Dispatch(at)), id)
  {
    var s', e := Apply(s, Dispatch(at)), s.pending[at];
    if id !in s.closed && e.id == id {
      TakeExact(s, s', id, e.index);
    } else {
      SameExact(s, s', id);
    }
  }

  lemma {:induction false} FirstOfItsQueue(s: State, at: nat, id: Id)
    requires BaseInv(s) && Oldest(s.pending, at)
    ensures s.pending[at].id == id ==> forall i | 0 <= i < at :: s.pending[i].id != id
  {
    assert forall i | 0 <= i <= at :: EventInv(s, s.pending[i]);
  }

  /** The oldest queued message moves from one side of the sum to the other. */
  lemma {:induction false} TakeExact(s: State, s': State, id: Id, index: nat)
    requires Exact(s, id) && s'.known == s.known && s'.log == s.log && s'.closed == s.closed && s'.served == s.served
    requires id !in s.closed && s'.delivered == s.delivered[id := s.delivered[id] + [index]]
    requires PendingFor(s.pending, id) == [index] + PendingFor(s'.pending, id)
    ensures Exact(s', id)
  {
    var rest := PendingFor(s'.pending, id);
    assert s.delivered[id] + ([index] + rest) == (s.delivered[id] + [index]) + rest;
  }

  // ---- runs ----

  lemma {:induction false} BaseStep(s: State, step: Step)
    requires BaseInv(s) && Enabled(s, step)
    ensures BaseInv(Apply(s, step))
  {
    match step
    case CreateSub(_, _) => BaseCreate(s, step, Id(false, s.mSubUid + 1));
    case CreateWildcard(_, _, _) => BaseCreate(s, step, Id(true, s.mWcsUid + 1));
    case Mute(id) => BaseMute(s, id);
    case Destroy(id) => BaseDestroy(s, id);
    case ReceiveForWildcards(_) => BaseReceive(s, step);
    case ReceiveForSubs => BaseReceive(s, step);
    case Dispatch(at) => BaseDispatch(s, at);
  }

  lemma {:induction false} ExactStep(s: State, step: Step, id: Id)
    requires Inv(s) && Enabled(s, step) && id in Apply(s, step).known
    ensures Exact(Apply(s, step), id)
  {
    var s' := Apply(s, step);
    match step
    case CreateSub(_, _) => ExactCreate(s, step, id, Id(false, s.mSubUid + 1));
    case CreateWildcard(_, _, _) => ExactCreate(s, step, id, Id(true, s.mWcsUid + 1));
    case Mute(other) => ExactClose(s, s', other, id);
    case Destroy(other) => ExactClose(s, s', other, id);
    case ReceiveForWildcards(_) => ExactReceive(s, step, id);
    case ReceiveForSubs => ExactReceive(s, step, id);
    case Dispatch(at) => assert Exact(s, id); ExactDispatch(s, at, id);
  }

  lemma {:induction false} ExactClose(s: State, s': State, other: Id, id: Id)
    requires Inv(s) && id in s.known && s'.known == s.known && s'.log == s.log && s'.delivered == s.delivered
    requires s'.pending == s.pending && s'.closed == Close(s, other) && s'.served == s.served
    ensures Exact(s', id)
  {
    assert Exact(s, id);
    if id == other {
      CloseExact(s, s', id);
    } else {
      SameExact(s, s', id);
    }
  }

  lemma {:induction false} InvHolds(states: seq<State>, steps: seq<Step>, k: nat)
    requires IsRun(states, steps) && k < |states|
    ensures Inv(states[k])
  {
    if k > 0 {
      InvHolds(states, steps, k - 1);
      var s, step := states[k - 1], steps[k - 1];
      BaseStep(s, step);
      forall id | id in states[k].known
        ensures KnownInv(states[k], id) && Exact(states[k], id)
      {
        ExactStep(s, step, id);
      }
    }
  }

  // ---- main results ----

  /** Exact delivery. In every state of every run, for every subscription there ever
      was: what it has been given is, in order and without repetition, a first part of
      the messages not for an inbox that it wanted while it was registered and not muted;
      and while it is, the rest of them is queued for it. */
  lemma {:induction false} ExactDelivery(states: seq<State>, steps: seq<Step>, k: nat, id: Id)
    requires IsRun(states, steps) && k < |states| && id in states[k].known
    ensures var s := states[k];
            && id in s.delivered && Until(s, id) <= |s.log|
            && var due := Matching(s.known[id], s.log, s.known[id].since, Until(s, id));
            && s.delivered[id] <= due
            && (id !in s.closed ==> s.delivered[id] + PendingFor(s.pending, id) == due)
            && InOrder(s.delivered[id], s.known[id], s.log, s.known[id].since, Until(s, id))
            && (id in s.closed <==> id in s.muted || !Registered(s, id))
  {
    InvHolds(states, steps, k);
    var s := states[k];
    assert KnownInv(s, id) && Exact(s, id);
    MatchingInOrder(s.known[id], s.log, s.known[id].since, Until(s, id));
  }

  /** Nothing is delivered after mute or destroy, whatever is still queued. */
  lemma {:induction false} NothingAfterClose(states: seq<State>, steps: seq<Step>, k: nat, later: nat, id: Id)
    requires IsRun(states, steps) && k <= later < |states| && id in states[k].known && id in states[k].closed
    ensures id in states[later].known && id in states[later].closed && states[later].closed[id] == states[k].closed[id]
    ensures id in states[k].delivered && id in states[later].delivered
    ensures states[later].delivered[id] == states[k].delivered[id]
    decreases later
  {
    InvHolds(states, steps, k);
    assert KnownInv(states[k], id);
    if later > k {
      NothingAfterClose(states, steps, k, later - 1, id);
      InvHolds(states, steps, later - 1);
      ClosedStays(states[later - 1], steps[later - 1], id);
    }
  }

  lemma {:induction false} ClosedStays(s: State, step: Step, id: Id)
    requires BaseInv(s) && Enabled(s, step) && id in s.known && id in s.closed && id in s.delivered
    ensures var s' := Apply(s, step);
            && id in s'.known && id in s'.closed && s'.closed[id] == s.closed[id]
            && id in s'.delivered && s'.delivered[id] == s.delivered[id]
  {
    match step
    case CreateSub(_, _) => CreateExtends(s, step, Id(false, s.mSubUid + 1));
    case CreateWildcard(_, _, _) => CreateExtends(s, step, Id(true, s.mWcsUid + 1));
    case Dispatch(at) =>
      assert EventInv(s, s.pending[at]);
      DeliverIs(s, s.pending[at]);
    case _ =>
  }
}
