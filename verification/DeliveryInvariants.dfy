/** What every step of delivery keeps. */
module DeliveryInvariants {
  import opened Common
  import opened Serial
  import opened Delivery

  /** A registry: one kind, serials given out so far in increasing order, each entry
      the subscription known under its id. */
  ghost predicate RegistryInv(subs: seq<Subscription>, wildcard: bool, uid: nat, known: map<Id, Subscription>) {
    && (forall i | 0 <= i < |subs| ::
          && subs[i].id.wildcard == wildcard && 1 <= subs[i].id.serial <= uid
          && subs[i].id in known && known[subs[i].id] == subs[i])
    && (forall i, j | 0 <= i < j < |subs| :: subs[i].id.serial < subs[j].id.serial)
  }

  predicate UidOf(s: State, id: Id) {
    1 <= id.serial <= if id.wildcard then s.mWcsUid else s.mSubUid
  }

  /** What is known of a subscription; it is closed when it is muted or not registered. */
  ghost predicate KnownInv(s: State, id: Id)
    requires id in s.known
  {
    && s.known[id].id == id && UidOf(s, id) && id in s.delivered && s.known[id].since <= Served(s, id)
    && (id in s.muted || !Registered(s, id) <==> id in s.closed)
    && (id in s.closed ==> s.known[id].since <= s.closed[id] <= Served(s, id))
  }

  ghost predicate EventInv(s: State, e: Event) {
    && e.id in s.known && e.mEndpointIdentifier == Rendered(e.id.serial)
    && e.queue == s.known[e.id].queue
    && e.index < Served(s, e.id) && e.index < |s.log| && Wants(s.known[e.id], s.log[e.index].subject)
  }

  ghost predicate BaseInv(s: State) {
    && s.mSubUid < UINT64 && s.mWcsUid < UINT64 && s.served <= |s.log|
    && RegistryInv(s.subs, false, s.mSubUid, s.known) && RegistryInv(s.wcs, true, s.mWcsUid, s.known)
    && (forall id | id in s.known :: KnownInv(s, id))
    && (forall i | 0 <= i < |s.pending| :: EventInv(s, s.pending[i]))
    && s.muted <= s.known.Keys && s.closed.Keys <= s.known.Keys
  }

  /** While a subscription is open, what it was given and what is queued for it are
      together what it should get; once closed, what it was given is a first part. */
  ghost predicate Exact(s: State, id: Id) {
    && id in s.known && id in s.delivered && Until(s, id) <= |s.log|
    && var due := Matching(s.known[id], s.log, s.known[id].since, Until(s, id));
    if id in s.closed then s.delivered[id] <= due
    else s.delivered[id] + PendingFor(s.pending, id) == due
  }

  ghost predicate Inv(s: State) {
    BaseInv(s) && forall id | id in s.known :: KnownInv(s, id) && Exact(s, id)
  }
}
