/** Exactly where ws2posix stops preserving meaning. */
module TopicLimits {
  import opened Common
  import opened Text
  import opened Ere
  import opened Topics
  import opened TopicMeaning

  /** The text means what the topic denotes, on every subject on which a leading '*'
      is not asked about a leading '/'. */
  ghost predicate Faithful(text: string, t: string)
    requires t != ""
  {
    forall s: string | s == "" || s[0] != '/' || t[0] != '*' :: TextAccepts(text, s) <==> Denotes(t, s)
  }

  // ---- a '.' in the topic ----

  /** A subject for the body: one character for each, 'a' for '*' and for '.'. */
  function Sample(b: string): string {
    if b == "" then "" else [if b[0] == '*' || b[0] == '.' then 'a' else b[0]] + Sample(b[1..])
  }

  lemma {:induction false} SampleHasNoDot(b: string)
    ensures '.' !in Sample(b) && |Sample(b)| == |b|
  {
    if b != "" {
      SampleHasNoDot(b[1..]);
    }
  }

  lemma {:induction false} SampleMatches(b: string, tail: bool)
    ensures Matches(PiecesOf(b) + EndPieces(tail), Sample(b))
  {
    var pieces, s := PiecesOf(b) + EndPieces(tail), Sample(b);
    if b == "" {
      assert pieces == EndPieces(tail);
      if tail {
        assert Takes(REST[0], "", 0) && ""[0..] == "" && Matches(REST[1..], "");
      }
    } else {
      SampleMatches(b[1..], tail);
      assert pieces[0] == PieceOf(b[0]) && pieces[1..] == PiecesOf(b[1..]) + EndPieces(tail);
      assert Takes(pieces[0], s, 1) && s[1..] == Sample(b[1..]);
    }
  }

  /** The expression written for a topic accepts the sample of its body. */
  lemma {:induction false} SampleAccepted(t: string)
    requires IsWildcard(t) && Plain(t) && t != TAIL
    ensures Rewrite(t, "").0.Ok? && TextAccepts(Rewrite(t, "").1, Sample(Body(t)))
  {
    var b, s := Body(t), Sample(Body(t));
    NoCaret(t);
    WritesText(t);
    ParsesText(t);
    if t[0] == '*' {
      TailOfRest(t);
      SampleMatches(b[1..], HasTail(t));
      assert s[1..] == Sample(b[1..]) && s[1..][0..] == s[1..] && Within(s, 0);
      MatchesLead(PiecesOf(b[1..]) + EndPieces(HasTail(t)), s);
    } else {
      SampleMatches(b, HasTail(t));
    }
    assert s[0..|s|] == s;
  }

  lemma {:induction false} DotNeeded(t: string, s: string)
    requires '.' in Body(t) && DenotesRest(t, s)
    ensures '.' in s
    decreases |t|
  {
    RestBody(t);
    if t[0] == '*' {
      var k: nat :| OneLevel(s, k) && DenotesRest(t[1..], s[k..]);
      DotNeeded(t[1..], s[k..]);
      assert forall c | c in s[k..] :: c in s;
    } else if t[0] == '.' {
      assert s[0] in s;
    } else {
      DotNeeded(t[1..], s[1..]);
      assert forall c | c in s[1..] :: c in s;
    }
  }

  lemma {:induction false} RestBody(t: string)
    requires '.' in Body(t)
    ensures t != TAIL && t != "" && (t[0] != '.' ==> '.' in Body(t[1..]))
  {
    assert Body(TAIL) == "";
    if t[0] != '.' {
      var i :| 0 <= i < |Body(t)| && Body(t)[i] == '.';
      assert i > 0;
      if HasTail(t) && |t| > 2 {
        assert HasTail(t[1..]);
      }
      assert t[1..][i - 1] == '.';
      if HasTail(t[1..]) {
        assert t[|t| - 2..] == t[1..][|t| - 3..];
      }
      assert Body(t[1..]) == Body(t)[1..];
      assert Body(t)[1..][i - 1] == '.';
    }
  }

  /** A '.' in a topic is not escaped, so it matches any character: the translation
      is faithful if and only if the topic has none outside its tail. */
  lemma {:induction false} FaithfulIffNoDot(t: string)
    requires IsWildcard(t) && Plain(t)
    ensures Faithful(Rewrite(t, "").1, t) <==> '.' !in Body(t)
  {
    if '.' in Body(t) {
      var s := Sample(Body(t));
      RestBody(t);
      SampleAccepted(t);
      SampleHasNoDot(Body(t));
      if Denotes(t, s) {
        DotNeeded(t, s);
      }
      if t[0] == '*' {
        TailOfRest(t);
      }
    } else {
      forall s: string | s == "" || s[0] != '/' || t[0] != '*'
        ensures TextAccepts(Rewrite(t, "").1, s) <==> Denotes(t, s)
      {
        MeaningPreserved(t, s);
      }
    }
  }

  // ---- a leading '*' ----

  /** The text means what the topic denotes, on every subject. */
  ghost predicate FullyFaithful(text: string, t: string) {
    forall s: string :: TextAccepts(text, s) <==> Denotes(t, s)
  }

  lemma {:induction false} SomethingDenoted(t: string) returns (s: string)
    ensures DenotesRest(t, s)
    decreases |t|
  {
    if t == TAIL || t == "" {
      s := "";
    } else {
      var rest := SomethingDenoted(t[1..]);
      s := [if t[0] == '*' then 'a' else t[0]] + rest;
      assert s[1..] == rest && OneLevel("a", 1) && s[..1] == [s[0]];
      assert t[0] == '*' ==> OneLevel(s, 1);
    }
  }

  /** A leading '*' always lets some subject with a leading '/' in. */
  lemma {:induction false} SlashAccepted(t: string) returns (s: string)
    requires IsWildcard(t) && Plain(t) && '.' !in Body(t) && t[0] == '*'
    ensures TextAccepts(Rewrite(t, "").1, s) && !Denotes(t, s)
  {
    var rest := SomethingDenoted(t[1..]);
    s := "/" + rest;
    assert s[1..] == rest && s[1..][0..] == rest && Within(s, 0);
    MeaningExactly(t, s);
    assert forall k: nat | k > 0 && k <= |s| :: s[..k][0] == '/';
  }

  /** ws2posix is faithful on all subjects if and only if the topic does not begin with
      '*' and has no '.' before its tail. */
  lemma {:induction false} FullyFaithfulExactly(t: string)
    requires IsWildcard(t) && Plain(t)
    ensures FullyFaithful(Rewrite(t, "").1, t) <==> t[0] != '*' && '.' !in Body(t)
  {
    FaithfulIffNoDot(t);
    if '.' !in Body(t) && t[0] == '*' {
      var s := SlashAccepted(t);
    }
  }

  // ---- what the second argument holds on entry ----

  /** Without a '*' the topic is appended to what the argument holds: ws2posix then
      translates the two strings run together. */
  lemma {:induction false} EntryValueRunsOn(t: string, entry: string)
    requires '*' !in t && '*' !in entry
    ensures Rewrite(t, entry) == Rewrite(entry + t, "")
  {
    assert "" + (entry + t) == entry + t;
  }

  lemma {:induction false} MatchesLength(b: string, tail: bool, s: string)
    requires Matches(PiecesOf(b) + EndPieces(tail), s)
    ensures |s| >= |b|
    decreases |b|
  {
    if b != "" {
      var pieces := PiecesOf(b) + EndPieces(tail);
      assert pieces[0] == PieceOf(b[0]) && pieces[1..] == PiecesOf(b[1..]) + EndPieces(tail);
      var k: nat :| Takes(pieces[0], s, k) && Matches(pieces[1..], s[k..]);
      MatchesLength(b[1..], tail, s[k..]);
    }
  }

  lemma {:induction false} DenotesItsBody(b: string)
    requires '*' !in b
    ensures DenotesRest(b + TAIL, b)
  {
    var t := b + TAIL;
    if b == "" {
      assert t == TAIL;
    } else {
      assert t[0] == b[0] && t[1..] == b[1..] + TAIL;
      DenotesItsBody(b[1..]);
    }
  }

  /** subscriber::start passes the topic itself as the second argument. With a '*' it
      is overwritten and the translation is as faithful as it can be; without one it is
      run together with the topic and the translation is wrong, for every such topic. */
  lemma {:induction false} CallerFaithfulIffStar(t: string)
    requires IsWildcard(t) && Plain(t)
    ensures Faithful(Rewrite(t, t).1, t) <==> '*' in t && '.' !in Body(t)
  {
    if '*' in t {
      assert Rewrite(t, t) == Rewrite(t, "");
      FaithfulIffNoDot(t);
    } else {
      var s := if t == TAIL then "a" else Body(t);
      CallerRejects(t, s);
    }
  }

  lemma {:induction false} CallerRejects(t: string, s: string)
    requires '*' !in t && HasTail(t) && Plain(t)
    requires s == if t == TAIL then "a" else Body(t)
    ensures Denotes(t, s) && !TextAccepts(Rewrite(t, t).1, s)
  {
    assert t == Body(t) + TAIL;
    DenotesItsBody(Body(t));
    assert s != "" ==> s[0] == t[0] || t == TAIL;
    EntryValueRunsOn(t, t);
    Twice(t);
    if TextAccepts(Rewrite(t + t, "").1, s) {
      LongEnough(t + t, s);
    }
  }

  lemma {:induction false} Twice(t: string)
    requires HasTail(t) && Plain(t)
    ensures HasTail(t + t) && Body(t + t) == t + Body(t) && Plain(t + t)
  {
    var tt := t + t;
    assert tt[|tt| - 2..] == t[|t| - 2..];
    forall c | c in Body(tt)
      ensures Ordinary(c) || c == '*' || c == '.'
    {
      assert t == Body(t) + TAIL;
      assert c in Body(t) || c in TAIL;
    }
  }

  /** An accepted subject has a character for each character of the body. */
  lemma {:induction false} LongEnough(t: string, s: string)
    requires IsWildcard(t) && Plain(t) && t != TAIL && t[0] != '*' && TextAccepts(Rewrite(t, "").1, s)
    ensures |s| >= |Body(t)|
  {
    NoCaret(t);
    WritesText(t);
    ParsesText(t);
    var e := Compiled(t);
    var i, j :| 0 <= i <= j <= |s| && Matches(e.pieces, s[i..j]);
    MatchesLength(Body(t), HasTail(t), s[i..j]);
  }

  // ---- which topics are refused ----

  /** ws2posix succeeds on the wildcard topics and on no others; on a topic of a single
      character it does not even return. */
  lemma {:induction false} StatusExactly(t: string)
    ensures Rewrite(t, "").0 == if IsWildcard(t) then Topics.Ok else if |t| == 1 then OutOfRange else InvalidArg
  {
    if '*' !in t {
      assert "" + t == t;
      SubstNone(t);
    } else if t[0] == '*' {
      EndWritten(FIRST_LEVEL, t[1..]);
    } else {
      EndWritten("^", t);
    }
  }
}
