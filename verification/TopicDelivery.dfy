/** A subscription to a hierarchical topic, from ws2posix to the callback. */
module TopicDelivery {
  import opened Common
  import opened Topics
  import opened Ere
  import opened TopicLimits
  import opened WildcardFilter
  import opened Delivery
  import opened DeliveryInvariants
  import opened DeliveryProofs

  /** The subscription was made for the topic: ws2posix, the derived key, regcomp. */
  ghost predicate IsFor(sub: Subscription, t: string) {
    && sub.id.wildcard
    && sub.mSubjectKey == SubjectKey(Prefix(Rewrite(t, "").1))
    && forall s: string :: sub.mCompRegex(s) <==> TextAccepts(Rewrite(t, "").1, s)
  }

  /** The subscription is open and nothing is queued for it. */
  predicate Settled(s: State, id: Id) {
    id in s.known && id in s.delivered && id !in s.closed && PendingFor(s.pending, id) == []
  }

  /** What the topic denotes is delivered, and nothing else, unless it is for an inbox. In
      every state of every run, a subscription made for a supported topic has been given
      only messages that the topic denotes, in order; and when it is open and nothing is
      queued for it, it has been given precisely those since it was registered whose
      subject does not start with the inbox prefix. */
  lemma {:induction false} DeliversWhatTopicDenotes(states: seq<State>, steps: seq<Step>, k: nat, id: Id, t: string)
    requires IsRun(states, steps) && k < |states| && id in states[k].known && IsFor(states[k].known[id], t)
    requires Supported(t)
    ensures var s := states[k];
            && id in s.delivered
            && (forall i | 0 <= i < |s.delivered[id]| ::
                  s.delivered[id][i] < |s.log| && Denotes(t, s.log[s.delivered[id][i]].subject))
            && (forall i, j | 0 <= i < j < |s.delivered[id]| :: s.delivered[id][i] < s.delivered[id][j])
            && (Settled(s, id) ==>
                  forall i | s.known[id].since <= i < |s.log| && Denotes(t, s.log[i].subject) ::
                    i in s.delivered[id] <==> !ForInbox(s.log[i].subject))
  {
    ExactDelivery(states, steps, k, id);
    var s := states[k];
    var sub := s.known[id];
    InvHolds(states, steps, k);
    assert KnownInv(s, id);
    forall i | 0 <= i < |s.log|
      ensures Wants(sub, s.log[i].subject) <==> Denotes(t, s.log[i].subject)
    {
      FilterAgrees(t, s.log[i].subject);
    }
    if Settled(s, id) {
      forall i | sub.since <= i < |s.log| && Denotes(t, s.log[i].subject)
        ensures i in s.delivered[id] <==> !ForInbox(s.log[i].subject)
      {
        if !ForInbox(s.log[i].subject) {
          MatchingComplete(sub, s.log, sub.since, Until(s, id), i);
        }
      }
    }
  }

  // ---- topics that reach into the inboxes' subjects ----

  /** The topic denotes some subject that starts with p. A '*' takes the first character
      of p and stops there or goes on. */
  predicate Meets(t: string, p: string)
    decreases |t| + |p|
  {
    if p == "" || t == TAIL then true
    else if t == "" then false
    else if t[0] == '*' then Meets(t[1..], p[1..]) || Meets(t, p[1..])
    else t[0] == p[0] && Meets(t[1..], p[1..])
  }

  lemma {:induction false} MeetsFinds(t: string, p: string) returns (s: string)
    requires Meets(t, p) && '/' !in p
    ensures p <= s && DenotesRest(t, s)
    decreases |t| + |p|
  {
    if p == "" {
      s := SomethingDenoted(t);
    } else if t == TAIL {
      s := p;
    } else if t[0] == '*' && !Meets(t[1..], p[1..]) {
      var rest := MeetsFinds(t, p[1..]);
      s := [p[0]] + rest;
      var k: nat :| OneLevel(rest, k) && DenotesRest(t[1..], rest[k..]);
      assert s[k + 1..] == rest[k..] && s[..k + 1] == [p[0]] + rest[..k];
      assert OneLevel(s, k + 1);
    } else {
      var rest := MeetsFinds(t[1..], p[1..]);
      s := [p[0]] + rest;
      assert s[1..] == rest && s[..1] == [p[0]];
      assert OneLevel(s, 1);
    }
  }

  lemma {:induction false} MeetsComplete(t: string, p: string, s: string)
    requires p <= s && DenotesRest(t, s)
    ensures Meets(t, p)
    decreases |t| + |p|
  {
    if p != "" && t != TAIL {
      if t[0] == '*' {
        var k: nat :| OneLevel(s, k) && DenotesRest(t[1..], s[k..]);
        if k == 1 {
          MeetsComplete(t[1..], p[1..], s[1..]);
        } else {
          assert s[1..][k - 1..] == s[k..] && s[1..][..k - 1] == s[..k][1..];
          assert OneLevel(s[1..], k - 1);
          MeetsComplete(t, p[1..], s[1..]);
        }
      } else {
        MeetsComplete(t[1..], p[1..], s[1..]);
      }
    }
  }

  /** In every run the topic's subscription gets all that the topic denotes. */
  ghost predicate FullyServed(t: string) {
    forall states: seq<State>, steps: seq<Step>, k, id |
      IsRun(states, steps) && 0 <= k < |states| && SettledFor(states[k], id, t) ::
      GotAll(states[k], id, t)
  }

  ghost predicate SettledFor(s: State, id: Id, t: string) {
    Settled(s, id) && IsFor(s.known[id], t)
  }

  ghost predicate GotAll(s: State, id: Id, t: string)
    requires Settled(s, id)
  {
    forall i | s.known[id].since <= i < |s.log| && Denotes(t, s.log[i].subject) :: i in s.delivered[id]
  }

  /** A supported topic gets all that it denotes, in every run, if and only if it denotes
      nothing that starts with the inbox prefix. */
  lemma {:induction false} FullyServedExactly(t: string)
    requires Supported(t)
    ensures FullyServed(t) <==> !Meets(t, REPLYHANDLE_PREFIX)
  {
    assert !StartsWild(t);
    if Meets(t, REPLYHANDLE_PREFIX) {
      var subject := MeetsFinds(t, REPLYHANDLE_PREFIX);
      var states, steps := UnservedRun(t, subject);
      assert SettledFor(states[2], Id(true, 1), t) && !GotAll(states[2], Id(true, 1), t);
    } else {
      forall states: seq<State>, steps: seq<Step>, k, id |
        IsRun(states, steps) && 0 <= k < |states| && SettledFor(states[k], id, t)
        ensures GotAll(states[k], id, t)
      {
        var s := states[k];
        DeliversWhatTopicDenotes(states, steps, k, id, t);
        forall i | s.known[id].since <= i < |s.log| && Denotes(t, s.log[i].subject)
          ensures i in s.delivered[id]
        {
          if ForInbox(s.log[i].subject) {
            MeetsComplete(t, REPLYHANDLE_PREFIX, s.log[i].subject);
          }
        }
      }
    }
  }

  /** A subscription is made and one message arrives, for an inbox by its subject. */
  lemma {:induction false} UnservedRun(t: string, subject: string) returns (states: seq<State>, steps: seq<Step>)
    requires Supported(t) && Denotes(t, subject) && ForInbox(subject)
    ensures IsRun(states, steps) && |steps| == 2
    ensures SettledFor(states[2], Id(true, 1), t) && !GotAll(states[2], Id(true, 1), t)
  {
    var text := Rewrite(t, "").1;
    var create := CreateWildcard(SubjectKey(Prefix(text)), (s: string) => TextAccepts(text, s), 0);
    var receive := ReceiveForWildcards(Message(subject, ""));
    var s1 := Apply(INITIAL, create);
    var s2 := Apply(s1, receive);
    steps, states := [create, receive], [INITIAL, s1, s2];
    var id := Id(true, 1);
    assert s2.log == [Message(subject, "")] && s2.delivered[id] == [] && s2.known[id].since == 0;
    assert s2.log[0].subject == subject && 0 !in s2.delivered[id];
  }

  /** Every supported topic that itself starts with the prefix is such a topic. */
  lemma {:induction false} InboxTopicUnserved(rest: string)
    requires Supported(REPLYHANDLE_PREFIX + rest)
    ensures !FullyServed(REPLYHANDLE_PREFIX + rest)
  {
    MeetsItsStart(REPLYHANDLE_PREFIX, rest);
    FullyServedExactly(REPLYHANDLE_PREFIX + rest);
  }

  /** "_INBOX/" and one level below it is one. */
  lemma {:induction false} InboxTopicSupported()
    ensures Supported(REPLYHANDLE_PREFIX + "/*")
  {
    var t := REPLYHANDLE_PREFIX + "/*";
    assert t[7] == '*' && t[|t| - 1] != TAIL[1];
    assert Body(t) == t;
    forall c | c in t
      ensures c != '.' && (Ordinary(c) || c == '*')
    {
      assert c in REPLYHANDLE_PREFIX || c in "/*";
    }
  }

  lemma {:induction false} MeetsItsStart(p: string, rest: string)
    requires '*' !in p
    ensures Meets(p + rest, p)
  {
    if p != "" {
      MeetsItsStart(p[1..], rest);
      assert (p + rest)[1..] == p[1..] + rest && (p + rest)[0] == p[0];
    }
  }
}
