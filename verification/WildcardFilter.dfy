/** The literal prefix that createWildCard cuts from a regular expression, which is
    what the socket subscribes to and what matchWildcards tests first. */
module WildcardFilter {
  import opened Common
  import opened Text
  import opened Ere
  import opened Topics
  import opened TopicMeaning
  import opened TopicLimits

  const LEVELS_BELOW := "/.*"           // what a "//." at the end becomes

  /** The text up to the first "[^/]+", or without a final ".*" that follows a '/'. */
  function Cut(text: string): string {
    match Find(text, LEVEL, 0)
    case Some(at) => text[..at]
    case None => if EndsWith(text, LEVELS_BELOW) then text[..|text| - 2] else text
  }

  /** The prefix of a regular expression, past its anchor. */
  function Prefix(regex: string): string {
    Cut(if regex != "" && regex[0] == '^' then regex[1..] else regex)
  }

  /** generateSubjectKey with a topic only: snprintf into MAX_SUBJECT_LENGTH bytes
      keeps at most one fewer, for the terminating NUL. */
  function SubjectKey(topic: string): string {
    if |topic| < MAX_SUBJECT_LENGTH then topic else topic[..MAX_SUBJECT_LENGTH - 1]
  }

  /** The comparison with the last three characters stays in the buffer: it is not made,
      or there are three, counting an anchor that was skipped. */
  predicate InBounds(regex: string) {
    Find(if regex != "" && regex[0] == '^' then regex[1..] else regex, LEVEL, 0).Some? || |regex| >= 3
  }

  /** The key of the subscription that createWildCard makes for a regular expression,
      unless it reads before its buffer. */
  method CreateWildCardKey(source: string) returns (key: Option<string>)
    ensures key == if InBounds(source) then Some(SubjectKey(Prefix(source))) else None
  {
    var prefix := source;
    if prefix != "" && prefix[0] == '^' {
      prefix := prefix[1..];
    }
    var regexPos := Find(prefix, LEVEL, 0);
    if regexPos.None? && |source| < 3 {
      return None;
    }
    prefix := CutPrefix(prefix);
    key := Some(if |prefix| < MAX_SUBJECT_LENGTH then prefix else prefix[..MAX_SUBJECT_LENGTH - 1]);
  }

  method CutPrefix(text: string) returns (prefix: string)
    ensures prefix == Cut(text)
  {
    prefix := text;
    var regexPos := Find(prefix, LEVEL, 0);
    if regexPos.Some? {
      prefix := prefix[..regexPos.value];
    } else {
      var l := |prefix|;
      if EndsWith(prefix, LEVELS_BELOW) {
        prefix := prefix[..l - 2];
      }
    }
  }

  /** matchWildcards: the key is a prefix of the subject and the expression accepts it. */
  ghost predicate MatchesWildcard(regex: string, s: string) {
    SubjectKey(Prefix(regex)) <= s && TextAccepts(regex, s)
  }

  /** The prefix test rejects nothing that the expression accepts. */
  ghost predicate Lossless(regex: string) {
    forall s | TextAccepts(regex, s) :: SubjectKey(Prefix(regex)) <= s
  }

  // ---- the prefix of what ws2posix writes ----

  lemma {:induction false} LevelStarts(s: string)
    ensures forall i: nat | OccursAt(s, LEVEL, i) :: i < |s| && s[i] == '['
  {
    forall i: nat | OccursAt(s, LEVEL, i)
      ensures i < |s| && s[i] == '['
    {
      assert s[i..i + |LEVEL|][0] == LEVEL[0];
    }
  }

  lemma {:induction false} NoBracket(b: string)
    requires Readable(b)
    ensures forall i | 0 <= i < |b| :: b[i] != '['
  {
    assert '[' in SPECIAL;
  }

  /** The number of characters before the first '*'. */
  function UpToStar(b: string): (n: nat)
    ensures n <= |b|
  {
    if b == "" || b[0] == '*' then 0 else 1 + UpToStar(b[1..])
  }

  lemma {:induction false} UpToStarIs(b: string)
    ensures '*' !in b[..UpToStar(b)]
    ensures UpToStar(b) < |b| <==> '*' in b
    ensures UpToStar(b) < |b| ==> b[UpToStar(b)] == '*'
  {
    if b != "" && b[0] != '*' {
      UpToStarIs(b[1..]);
      assert b[..UpToStar(b)] == [b[0]] + b[1..][..UpToStar(b[1..])];
      assert b == [b[0]] + b[1..];
    }
  }

  lemma {:induction false} FindsLevel(b: string, more: string)
    requires forall i | 0 <= i < |b| :: b[i] != '['
    ensures Find(b + LEVEL + more, LEVEL, 0) == Some(|b|)
  {
    var text := b + LEVEL + more;
    LevelStarts(text);
    assert forall i | 0 <= i < |b| :: text[i] == b[i];
    assert OccursAt(text, LEVEL, |b|) by {
      assert text[|b|..|b| + |LEVEL|] == LEVEL;
    }
  }

  lemma {:induction false} SubstAtStar(b: string) returns (more: string)
    requires '*' in b
    ensures Subst(b) == b[..UpToStar(b)] + LEVEL + more
  {
    var n := UpToStar(b);
    UpToStarIs(b);
    SubstSkip(b, 0, n);
    more := Subst(b[n..][1..]);
    assert b[0..] == b && Subst(b) == b[..n] + Subst(b[n..]);
    assert Subst(b[n..]) == LEVEL + more;
    Assoc(b[..n], LEVEL, more);
  }

  /** With a '*' further on, the prefix is the topic up to it. */
  lemma {:induction false} PrefixWithStar(b: string, end: string)
    requires Readable(b) && '*' in b
    ensures Prefix("^" + (Subst(b) + end)) == b[..UpToStar(b)]
  {
    var n := UpToStar(b);
    var more := SubstAtStar(b);
    var text := Subst(b) + end;
    Assoc(b[..n] + LEVEL, more, end);
    NoBracket(b);
    FindsLevel(b[..n], more + end);
    assert ("^" + text)[1..] == text && text[..n] == b[..n];
  }

  lemma {:induction false} NoLevel(b: string)
    requires Readable(b)
    ensures Find(b + ANY, LEVEL, 0).None?
  {
    var text := b + ANY;
    LevelStarts(text);
    NoBracket(b);
    assert forall i | 0 <= i < |text| :: text[i] != '[';
  }

  lemma {:induction false} EndsBelow(b: string)
    ensures EndsWith(b + ANY, LEVELS_BELOW) <==> LastIs(b, '/')
  {
    var text := b + ANY;
    assert LEVELS_BELOW == ['/'] + ANY;
    if b != "" {
      assert text[|text| - 3..] == [b[|b| - 1]] + ANY;
      assert text[|text| - 3..][0] == b[|b| - 1] && LEVELS_BELOW[0] == '/';
    }
  }

  lemma {:induction false} PrefixWithoutStar(b: string)
    requires Readable(b) && '*' !in b
    ensures Prefix("^" + (b + ANY)) == if LastIs(b, '/') then b else b + ANY
  {
    var text := b + ANY;
    assert ("^" + text)[1..] == text;
    NoLevel(b);
    EndsBelow(b);
    assert text[..|text| - 2] == b;
  }

  // ---- what a denoted subject starts with ----

  lemma {:induction false} LiteralStart(t: string, s: string, n: nat)
    requires n <= |Body(t)| && '*' !in t[..n] && DenotesRest(t, s)
    ensures n <= |s| && t[..n] == s[..n]
    decreases n
  {
    if n > 0 {
      assert t[0] == t[..n][0];
      assert t != TAIL by { assert Body(TAIL) == ""; }
      assert n - 1 <= |Body(t[1..])| && t[1..][..n - 1] == t[..n][1..];
      LiteralStart(t[1..], s[1..], n - 1);
      assert t[..n] == [t[0]] + t[1..][..n - 1] && s[..n] == [s[0]] + s[1..][..n - 1];
    }
  }

  // ---- the key of a topic ----

  /** The tail follows a '/': the topic ends in "//.". */
  predicate HasSlashTail(t: string) {
    HasTail(t) && LastIs(Body(t), '/')
  }

  /** The topics whose literal start survives as the prefix. */
  predicate KeepsPrefix(t: string)
    requires t != ""
  {
    t[0] != '*' && ('*' in t || HasSlashTail(t) || |t| - 2 >= MAX_SUBJECT_LENGTH - 1)
  }

  /** How much of the topic's body the key then is: up to the first '*', or what fits. */
  function KeyLength(t: string): (n: nat)
    ensures n <= |Body(t)|
  {
    var n := UpToStar(Body(t));
    if n < MAX_SUBJECT_LENGTH then n else MAX_SUBJECT_LENGTH - 1
  }

  function KeyOf(t: string): string {
    SubjectKey(Prefix(Rewrite(t, "").1))
  }

  lemma {:induction false} ReadableBody(t: string)
    requires Plain(t)
    ensures Readable(Body(t))
  {
    assert forall i | 0 <= i < |Body(t)| :: Body(t)[i] in Body(t);
  }

  lemma {:induction false} StarInBody(t: string)
    requires '*' in t
    ensures '*' in Body(t) && t != TAIL
  {
    var i :| 0 <= i < |t| && t[i] == '*';
    if HasTail(t) {
      assert t[|t| - 2] == TAIL[0] && t[|t| - 1] == TAIL[1];
      assert Body(t)[i] == '*';
    }
  }

  /** The key of a topic that keeps its prefix is that much of the topic. */
  lemma {:induction false} KeyIs(t: string)
    requires IsWildcard(t) && Plain(t) && KeepsPrefix(t)
    ensures KeyOf(t) == Body(t)[..KeyLength(t)] && '*' !in KeyOf(t)
  {
    var b := Body(t);
    NoCaret(t);
    WritesText(t);
    ReadableBody(t);
    UpToStarIs(b);
    if '*' in t {
      StarInBody(t);
      Assoc("^", Subst(b), EndMark(HasTail(t)));
      PrefixWithStar(b, EndMark(HasTail(t)));
    } else {
      KeyWithoutStar(t);
    }
  }

  lemma {:induction false} KeyWithoutStar(t: string)
    requires '*' !in t && HasTail(t) && KeepsPrefix(t) && Readable(Body(t))
    ensures SubjectKey(Prefix(Written(t))) == Body(t)[..KeyLength(t)]
  {
    var b := Body(t);
    UpToStarIs(b);
    CutKey(b);
    TextWithoutStar(b);
    PrefixWithoutStar(b);
  }

  lemma {:induction false} TextWithoutStar(b: string)
    requires '*' !in b
    ensures "^" + Subst(b) + ANY == "^" + (b + ANY)
  {
    SubstNone(b);
    Assoc("^", b, ANY);
  }

  lemma {:induction false} CutKey(b: string)
    requires LastIs(b, '/') || |b| >= MAX_SUBJECT_LENGTH - 1
    ensures SubjectKey(if LastIs(b, '/') then b else b + ANY)
            == b[..if |b| < MAX_SUBJECT_LENGTH then |b| else MAX_SUBJECT_LENGTH - 1]
  {
    assert |b| >= MAX_SUBJECT_LENGTH - 1 ==> (b + ANY)[..MAX_SUBJECT_LENGTH - 1] == b[..MAX_SUBJECT_LENGTH - 1];
  }

  // ---- the literal start of an expression ----

  /** A '.' takes any one character. */
  lemma {:induction false} MatchLiteral(c: char, s: string)
    requires c != '*'
    ensures forall k: nat :: Takes(PieceOf(c), s, k) <==> k == 1 && s != "" && (c == '.' || s[0] == c)
  {
    if c != '.' {
      MatchFirst(c, s);
    }
  }

  /** A character that the subject starts with is a step of both. */
  lemma {:induction false} MatchStep(b: string, tail: bool, s: string)
    requires b != "" && b[0] != '*' && s != "" && s[0] == b[0]
    ensures Matches(PiecesOf(b) + EndPieces(tail), s) <==> Matches(PiecesOf(b[1..]) + EndPieces(tail), s[1..])
  {
    var pieces := PiecesOf(b) + EndPieces(tail);
    assert pieces[0] == PieceOf(b[0]) && pieces[1..] == PiecesOf(b[1..]) + EndPieces(tail);
    MatchLiteral(b[0], s);
  }

  lemma {:induction false} DenotesStep(b: string, end: string, s: string)
    requires b != "" && b[0] != '*' && b + end != TAIL && s != "" && s[0] == b[0]
    ensures DenotesRest(b + end, s) <==> DenotesRest(b[1..] + end, s[1..])
  {
    assert (b + end)[0] == b[0] && (b + end)[1..] == b[1..] + end;
  }

  lemma {:induction false} NoTailInRest(b: string)
    requires b != "" && !HasTail(b)
    ensures !HasTail(b[1..])
  {
    assert |b| >= 3 ==> b[1..][|b| - 3..] == b[|b| - 2..];
  }

  /** Where the first k characters of the body are no '*' and are also those of the
      subject, and no '.' comes later, the pieces match what the body denotes: there a '.'
      meets itself. */
  lemma {:induction false} MatchAfter(b: string, tail: bool, s: string, k: nat)
    requires k <= |b| && '*' !in b[..k] && '.' !in b[k..] && (tail || !HasTail(b)) && b[..k] <= s
    ensures Matches(PiecesOf(b) + EndPieces(tail), s) <==> DenotesRest(b + EndText(tail), s)
    decreases k
  {
    if k == 0 {
      assert b[0..] == b;
      MatchBody(b, tail, s);
    } else {
      assert b[0] == b[..k][0] && s[0] == b[0];
      assert b[1..][..k - 1] == b[..k][1..] && b[1..][k - 1..] == b[k..];
      if !tail {
        NoTailInRest(b);
        assert b + EndText(tail) == b;
      }
      MatchAfter(b[1..], tail, s[1..], k - 1);
      MatchStep(b, tail, s);
      DenotesStep(b, EndText(tail), s);
    }
  }

  lemma {:induction false} AcceptsAfter(b: string, tail: bool, s: string, k: nat)
    requires k <= |b| && '*' !in b[..k] && '.' !in b[k..] && (tail || !HasTail(b)) && b[..k] <= s
    ensures Accepts(Expression(true, PiecesOf(b) + EndPieces(tail), !tail), s) <==> DenotesRest(b + EndText(tail), s)
  {
    var e := Expression(true, PiecesOf(b) + EndPieces(tail), !tail);
    assert s[0..|s|] == s;
    MatchAfter(b, tail, s, k);
    if tail && Accepts(e, s) {
      var i, j :| 0 <= i <= j <= |s| && i == 0 && Matches(e.pieces, s[i..j]);
      assert s[i..j] == s[..j];
      MatchesLength(b, tail, s[..j]);
      assert s[..j][..k] == s[..k];
      MatchAfter(b, tail, s[..j], k);
      DenotesExtend(b, s, j);
    }
  }

  /** The pieces for ordinary characters take these characters. */
  lemma {:induction false} MatchStart(b: string, tail: bool, s: string, n: nat)
    requires n <= |b| && '*' !in b[..n] && '.' !in b[..n] && Matches(PiecesOf(b) + EndPieces(tail), s)
    ensures b[..n] <= s
    decreases n
  {
    if n > 0 {
      var pieces := PiecesOf(b) + EndPieces(tail);
      assert b[0] == b[..n][0];
      assert pieces[0] == PieceOf(b[0]) && pieces[1..] == PiecesOf(b[1..]) + EndPieces(tail);
      MatchLiteral(b[0], s);
      assert b[1..][..n - 1] == b[..n][1..];
      MatchStart(b[1..], tail, s[1..], n - 1);
      assert b[..n] == [b[0]] + b[1..][..n - 1] && s == [s[0]] + s[1..];
    }
  }

  // ---- main results ----

  /** The prefix filter loses nothing if and only if the topic does not start with a
      wildcard, has a '*' or ends in "//." (or is too long for its tail to reach the key),
      and has no '.' in the key. Otherwise text of the expression itself is left in the
      key, or the expression accepts other characters for the '.'. */
  lemma {:induction false} LosslessExactly(t: string)
    requires IsWildcard(t) && Plain(t)
    ensures Lossless(Rewrite(t, "").1) <==> KeepsPrefix(t) && '.' !in Body(t)[..KeyLength(t)]
  {
    if !KeepsPrefix(t) {
      if t == TAIL || t[0] == '*' {
        WildStartLoses(t);
      } else {
        PlainTailLoses(t);
      }
    } else if '.' in Body(t)[..KeyLength(t)] {
      DotLoses(t);
    } else {
      forall s | TextAccepts(Rewrite(t, "").1, s)
        ensures KeyOf(t) <= s
      {
        KeyKept(t, s);
      }
    }
  }

  lemma {:induction false} KeyKept(t: string, s: string)
    requires IsWildcard(t) && Plain(t) && KeepsPrefix(t) && '.' !in Body(t)[..KeyLength(t)]
    requires TextAccepts(Rewrite(t, "").1, s)
    ensures KeyOf(t) <= s
  {
    var b := Body(t);
    NoCaret(t);
    WritesText(t);
    ParsesText(t);
    KeyIs(t);
    var e := Compiled(t);
    var i, j :| 0 <= i <= j <= |s| && i == 0 && Matches(e.pieces, s[i..j]);
    MatchStart(b, HasTail(t), s[0..j], KeyLength(t));
  }

  /** A '.' in the key: the sample has another character there. */
  lemma {:induction false} DotLoses(t: string)
    requires IsWildcard(t) && Plain(t) && KeepsPrefix(t) && '.' in Body(t)[..KeyLength(t)]
    ensures !Lossless(Rewrite(t, "").1)
  {
    var s := Sample(Body(t));
    KeyIs(t);
    SampleAccepted(t);
    SampleHasNoDot(Body(t));
    var i :| 0 <= i < |KeyOf(t)| && KeyOf(t)[i] == '.';
    assert i < |s| ==> s[i] in s;
  }

  /** The topics for which the two tests are right: the key undoes what an unescaped '.'
      in it lets in, so a '.' matters only after the key. */
  predicate Supported(t: string) {
    IsWildcard(t) && Plain(t) && KeepsPrefix(t) && '.' !in Body(t)[KeyLength(t)..]
  }

  /** The two tests together are the topic. */
  lemma {:induction false} FilterAgrees(t: string, s: string)
    requires Supported(t)
    ensures MatchesWildcard(Rewrite(t, "").1, s) <==> Denotes(t, s)
  {
    var b, n := Body(t), KeyLength(t);
    NoCaret(t);
    WritesText(t);
    ParsesText(t);
    KeyIs(t);
    assert b + EndText(HasTail(t)) == t && t[..n] == b[..n];
    if b[..n] <= s {
      AcceptsAfter(b, HasTail(t), s, n);
    } else if DenotesRest(t, s) {
      LiteralStart(t, s, n);
    }
  }

  ghost predicate Agrees(t: string) {
    forall s: string :: MatchesWildcard(Rewrite(t, "").1, s) <==> Denotes(t, s)
  }

  /** The filter and the topic agree on all subjects if and only if the topic keeps its
      prefix and has no '.' after the key. */
  lemma {:induction false} AgreesExactly(t: string)
    requires IsWildcard(t) && Plain(t)
    ensures Agrees(t) <==> Supported(t)
  {
    if !KeepsPrefix(t) {
      var s := KeyRejects(t);
    } else if '.' in Body(t)[KeyLength(t)..] {
      var s := DotAccepts(t);
    } else {
      forall s: string
        ensures MatchesWildcard(Rewrite(t, "").1, s) <==> Denotes(t, s)
      {
        FilterAgrees(t, s);
      }
    }
  }

  /** A subject of the topic that the key rejects. */
  lemma {:induction false} KeyRejects(t: string) returns (s: string)
    requires IsWildcard(t) && Plain(t) && !KeepsPrefix(t)
    ensures Denotes(t, s) && !(KeyOf(t) <= s)
  {
    if t == TAIL || t[0] == '*' {
      s := DenotedFromA(t);
      BracketInKey(t);
    } else {
      s := Body(t);
      LongKey(t);
    }
  }

  lemma {:induction false} BracketInKey(t: string)
    requires IsWildcard(t) && Plain(t) && (t == TAIL || t[0] == '*')
    ensures KeyOf(t) != "" && KeyOf(t)[0] == '['
  {
    NoCaret(t);
    WritesText(t);
    KeyKeepsBracket(Written(t));
  }

  lemma {:induction false} LongKey(t: string)
    requires IsWildcard(t) && Plain(t) && t != TAIL && t[0] != '*' && !KeepsPrefix(t)
    ensures |KeyOf(t)| > |Body(t)| && Denotes(t, Body(t))
  {
    NoCaret(t);
    WritesText(t);
    ReadableBody(t);
    TailKey(t);
    DenotesItsBody(Body(t));
    assert Body(t) + TAIL == t;
  }

  lemma {:induction false} DenotedFromA(t: string) returns (s: string)
    requires t == TAIL || (t != "" && t[0] == '*')
    ensures Denotes(t, s) && s[0] == 'a'
  {
    if t == TAIL {
      s := "a";
    } else {
      var rest := SomethingDenoted(t[1..]);
      s := "a" + rest;
      assert s[1..] == rest && s[..1] == "a" && OneLevel(s, 1);
    }
  }

  /** A subject that the two tests accept and the topic does not denote: a sample of what
      follows the key. */
  lemma {:induction false} DotAccepts(t: string) returns (s: string)
    requires IsWildcard(t) && Plain(t) && KeepsPrefix(t) && '.' in Body(t)[KeyLength(t)..]
    ensures MatchesWildcard(Rewrite(t, "").1, s) && !Denotes(t, s)
  {
    var b, n := Body(t), KeyLength(t);
    s := b[..n] + Sample(b[n..]);
    assert s[n..] == Sample(b[n..]) && s[..n] == b[..n];
    KeyIs(t);
    assert t[..n] == b[..n];
    DotMissed(t, s, n);
    SampleAfterKey(t, s);
  }

  lemma {:induction false} SampleAfterKey(t: string, s: string)
    requires IsWildcard(t) && Plain(t) && t[0] != '*' && t != TAIL
    requires var n := KeyLength(t); '*' !in Body(t)[..n] && Body(t)[..n] <= s && s[n..] == Sample(Body(t)[n..])
    ensures TextAccepts(Rewrite(t, "").1, s)
  {
    NoCaret(t);
    WritesText(t);
    ParsesText(t);
    SampleAfter(Body(t), HasTail(t), s, KeyLength(t));
    assert s[0..|s|] == s;
  }

  lemma {:induction false} DotMissed(t: string, s: string, n: nat)
    requires n <= |Body(t)| && n <= |s| && '*' !in t[..n] && '.' in Body(t)[n..] && s[n..] == Sample(Body(t)[n..])
    ensures !DenotesRest(t, s)
  {
    BodyAfter(t, n);
    SampleHasNoDot(Body(t)[n..]);
    if DenotesRest(t, s) {
      DenotesAfter(t, s, n);
      DotNeeded(t[n..], s[n..]);
    }
  }

  lemma {:induction false} SampleAfter(b: string, tail: bool, s: string, n: nat)
    requires n <= |b| && '*' !in b[..n] && b[..n] <= s && s[n..] == Sample(b[n..])
    ensures Matches(PiecesOf(b) + EndPieces(tail), s)
    decreases n
  {
    if n == 0 {
      assert b[0..] == b && s[0..] == s;
      SampleMatches(b, tail);
    } else {
      var pieces := PiecesOf(b) + EndPieces(tail);
      assert b[0] == b[..n][0] && s[0] == b[0];
      assert b[1..][..n - 1] == b[..n][1..] && b[1..][n - 1..] == b[n..] && s[1..][n - 1..] == s[n..];
      SampleAfter(b[1..], tail, s[1..], n - 1);
      assert pieces[0] == PieceOf(b[0]) && pieces[1..] == PiecesOf(b[1..]) + EndPieces(tail);
      MatchLiteral(b[0], s);
    }
  }

  /** A literal start is read off one character at a time. */
  lemma {:induction false} DenotesAfter(t: string, s: string, n: nat)
    requires n <= |Body(t)| && n <= |s| && '*' !in t[..n] && DenotesRest(t, s)
    ensures DenotesRest(t[n..], s[n..])
    decreases n
  {
    if n == 0 {
      assert t[0..] == t && s[0..] == s;
    } else {
      assert t[0] == t[..n][0];
      assert t != TAIL by { assert Body(TAIL) == ""; }
      assert n - 1 <= |Body(t[1..])| && t[1..][..n - 1] == t[..n][1..];
      DenotesAfter(t[1..], s[1..], n - 1);
      assert t[1..][n - 1..] == t[n..] && s[1..][n - 1..] == s[n..];
    }
  }

  lemma {:induction false} BodyAfter(t: string, n: nat)
    requires n < |Body(t)|
    ensures Body(t[n..]) == Body(t)[n..]
  {
    if HasTail(t) {
      assert t[n..][|t| - n - 2..] == t[|t| - 2..];
    } else if |t| - n >= 2 {
      assert t[n..][|t| - n - 2..] == t[|t| - 2..];
    }
  }

  /** Some subject that starts with 'a' is accepted for a topic that starts with a wildcard. */
  lemma {:induction false} WildStartAccepts(t: string) returns (s: string)
    requires IsWildcard(t) && Plain(t) && (t == TAIL || t[0] == '*')
    ensures s != "" && s[0] == 'a' && TextAccepts(Rewrite(t, "").1, s)
  {
    if t == TAIL {
      s := "a";
      MeaningExactly(t, s);
    } else {
      s := Sample(Body(t));
      TailOfRest(t);
      SampleAccepted(t);
    }
  }

  /** A topic that starts with a wildcard leaves '[' at the start of the key. */
  lemma {:induction false} WildStartLoses(t: string)
    requires IsWildcard(t) && Plain(t) && (t == TAIL || t[0] == '*')
    ensures !Lossless(Rewrite(t, "").1)
  {
    var s := WildStartAccepts(t);
    BracketInKey(t);
  }

  lemma {:induction false} KeyKeepsBracket(regex: string)
    requires |regex| > 5 && regex[..5] == "^[^_]"
    ensures SubjectKey(Prefix(regex)) != "" && SubjectKey(Prefix(regex))[0] == '['
  {
    var text := regex[1..];
    assert text[0] == regex[..5][1] && text[2] == regex[..5][3];
    assert |text| >= 5 ==> text[0..5][2] == '_';
  }

  /** A tail without a '/' of its own leaves at least a part of ".*" in the key. */
  lemma {:induction false} TailKey(t: string)
    requires IsWildcard(t) && Readable(Body(t)) && t != TAIL && t[0] != '*' && !KeepsPrefix(t)
    ensures '*' !in Body(t) && HasTail(t) && |SubjectKey(Prefix(Written(t)))| > |Body(t)|
  {
    var b := Body(t);
    assert '*' !in t;
    TextWithoutStar(b);
    PrefixWithoutStar(b);
  }

  /** So the shortest subject of the topic is too short for the key. */
  lemma {:induction false} PlainTailLoses(t: string)
    requires IsWildcard(t) && Plain(t) && t != TAIL && t[0] != '*' && !KeepsPrefix(t)
    ensures !Lossless(Rewrite(t, "").1)
  {
    LongKey(t);
    SampleAccepted(t);
    SampleHasNoDot(Body(t));
  }
}
