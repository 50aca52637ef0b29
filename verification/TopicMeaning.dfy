/** The regular expression that ws2posix writes accepts what the topic denotes. */
module TopicMeaning {
  import opened Common
  import opened Text
  import opened Ere
  import opened Topics

  // ---- the text that is written ----

  function EndMark(tail: bool): string {
    if tail then ANY else "$"
  }

  /** The regular expression for a wildcard topic. */
  function Written(t: string): string
    requires IsWildcard(t)
  {
    if t == TAIL then "^" + (FIRST + ANY)
    else if t[0] == '*' then FIRST_LEVEL + Subst(Body(t)[1..]) + EndMark(HasTail(t))
    else "^" + Subst(Body(t)) + EndMark(HasTail(t))
  }

  lemma {:induction false} SubstConcat(a: string, b: string)
    ensures Subst(a + b) == Subst(a) + Subst(b)
  {
    if a == "" {
      assert a + b == b;
    } else {
      assert (a + b)[1..] == a[1..] + b;
      SubstConcat(a[1..], b);
    }
  }

  function SubstOne(c: char): string {
    if c == '*' then LEVEL else [c]
  }

  lemma {:induction false} SubstLast(s: string)
    requires s != ""
    ensures Subst(s) == Subst(s[..|s| - 1]) + SubstOne(s[|s| - 1])
  {
    var front, last := s[..|s| - 1], s[|s| - 1];
    assert s == front + [last];
    SubstConcat(front, [last]);
    assert [last][1..] == "" && Subst([last]) == SubstOne(last) + "";
  }

  predicate LastIs(s: string, c: char) {
    s != "" && s[|s| - 1] == c
  }

  lemma {:induction false} SubstLastIs(head: string, w: string, c: char)
    requires (c == '/' || c == '.') && (w != "" || !LastIs(head, c))
    ensures LastIs(head + Subst(w), c) <==> LastIs(w, c)
  {
    if w != "" {
      SubstLast(w);
      var text := head + Subst(w);
      assert text[|text| - 1] == SubstOne(w[|w| - 1])[|SubstOne(w[|w| - 1])| - 1];
    }
  }

  lemma {:induction false} TailFromLast(u: string)
    ensures EndsWith(u + ".", TAIL) <==> LastIs(u, '/')
  {
    var w := u + ".";
    if u != "" {
      assert w[|w| - 2..] == [u[|u| - 1], '.'];
      assert TAIL == ['/', '.'];
    }
  }

  /** Replacing wildcards neither makes nor removes a tail. */
  lemma {:induction false} SubstTail(head: string, w: string)
    requires !LastIs(head, '/') && !LastIs(head, '.')
    ensures EndsWith(head + Subst(w), TAIL) <==> HasTail(w)
  {
    SubstLastIs(head, w, '.');
    if LastIs(w, '.') {
      var v := w[..|w| - 1];
      SubstLast(w);
      SubstLastIs(head, v, '/');
      assert head + Subst(w) == head + Subst(v) + ".";
      assert w == v + ".";
      TailFromLast(v);
      TailFromLast(head + Subst(v));
    }
  }

  lemma {:induction false} SubstBody(w: string)
    requires HasTail(w)
    ensures Subst(w) == Subst(Body(w)) + TAIL
  {
    assert w == Body(w) + TAIL;
    SubstConcat(Body(w), TAIL);
    SubstNone(TAIL);
  }

  /** ws2posix, called with an empty second argument, succeeds on every wildcard
      topic that does not start with '^' and writes exactly this text. */
  lemma {:induction false} WritesText(t: string)
    requires IsWildcard(t) && t[0] != '^'
    ensures Rewrite(t, "") == (Ok, Written(t))
  {
    if '*' !in t {
      WritesNoStar(t);
    } else if t[0] == '*' {
      TailOfRest(t);
      EndWritten(FIRST_LEVEL, t[1..]);
    } else {
      EndWritten("^", t);
    }
  }

  lemma {:induction false} WritesNoStar(t: string)
    requires HasTail(t) && '*' !in t && t[0] != '^'
    ensures Rewrite(t, "") == (Ok, Written(t))
  {
    assert "" + t == t;
    SubstNone(t);
    SubstNone(Body(t));
    Assoc("^", Body(t), ANY);
  }

  /** How a text that starts with an anchor ends. */
  lemma {:induction false} EndWritten(head: string, w: string)
    requires head != "" && head[0] == '^' && !LastIs(head, '/') && !LastIs(head, '.') && (w != "" || |head| > 1)
    ensures Finished(head + Subst(w), true) == (Ok, head + Subst(Body(w)) + EndMark(HasTail(w)))
  {
    SubstTail(head, w);
    if HasTail(w) {
      EndWithTail(head, w);
    } else if w != "" {
      assert |Subst(w)| > 0;
    }
  }

  lemma {:induction false} EndWithTail(head: string, w: string)
    requires head != "" && head[0] == '^' && HasTail(w) && EndsWith(head + Subst(w), TAIL)
    ensures Finished(head + Subst(w), true) == (Ok, head + Subst(Body(w)) + ANY)
  {
    var text := head + Subst(w);
    assert text[0] == '^' && TAIL[0] == '/';
    SubstBody(w);
    assert text[..|text| - 2] == head + Subst(Body(w));
  }

  lemma {:induction false} TailOfRest(t: string)
    requires t != "" && t[0] == '*'
    ensures HasTail(t) <==> HasTail(t[1..])
    ensures Body(t[1..]) == Body(t)[1..] && Body(t) != "" && Body(t)[0] == '*'
  {
    var rest := t[1..];
    assert |t| >= 3 ==> rest[|rest| - 2..] == t[|t| - 2..];
    if |t| == 2 {
      assert t[|t| - 2..] == t && TAIL[0] == '/';
    }
  }

  lemma {:induction false} SubstNone(s: string)
    requires '*' !in s
    ensures Subst(s) == s
  {
    if s != "" {
      assert s == [s[0]] + s[1..];
      SubstNone(s[1..]);
    }
  }

  // ---- what the text means as a regular expression ----

  function PieceOf(c: char): Piece {
    if c == '*' then Piece(NotChar('/'), OneOrMore)
    else if c == '.' then Piece(AnyChar, Once)
    else Piece(Literal(c), Once)
  }

  function PiecesOf(b: string): seq<Piece> {
    if b == "" then [] else [PieceOf(b[0])] + PiecesOf(b[1..])
  }

  const FIRST_PIECE := Piece(NotChar('_'), Once)
  const MORE_PIECE := Piece(NotChar('/'), ZeroOrMore)
  const LEAD := [FIRST_PIECE] + [MORE_PIECE]
  const REST := [Piece(AnyChar, ZeroOrMore)]

  predicate Readable(b: string) {
    forall i | 0 <= i < |b| :: Ordinary(b[i]) || b[i] == '*' || b[i] == '.'
  }

  predicate NoMark(text: string) {
    text == "" || (text[0] != '*' && text[0] != '+')
  }

  lemma {:induction false} NoMarkSubst(b: string, rest: string)
    requires Readable(b) && NoMark(rest)
    ensures NoMark(Subst(b) + rest)
  {
    if b == "" {
      assert Subst(b) + rest == rest;
    }
  }

  /** One more character of the topic is one more piece of the expression. */
  lemma {:induction false} ParseOne(c: char, text: string)
    requires (Ordinary(c) || c == '*' || c == '.') && NoMark(text) && ParsePieces(text).Some?
    ensures var (pieces, atEnd) := ParsePieces(text).value;
            ParsePieces(SubstOne(c) + text) == Some(([PieceOf(c)] + pieces, atEnd))
  {
    var all := SubstOne(c) + text;
    if c == '*' {
      assert all[0] == '[' && all[1] == '^' && all[2] == '/' && all[3] == ']' && all[4] == '+';
      assert ParseAtom(all) == Some((NotChar('/'), 4));
      assert all[4..][0] == '+' && all[5..] == text;
    } else {
      assert all[0] == c && c != '$' && c != '[';
      assert all[1..] == text;
      assert ParseAtom(all) == Some((PieceOf(c).atom, 1));
      assert ParseRepeat(text) == (Once, 0);
      assert text[0..] == text;
    }
  }

  lemma {:induction false} ParseSubst(b: string, rest: string)
    requires Readable(b) && NoMark(rest) && ParsePieces(rest).Some?
    ensures var (pieces, atEnd) := ParsePieces(rest).value;
            ParsePieces(Subst(b) + rest) == Some((PiecesOf(b) + pieces, atEnd))
  {
    var (pieces, atEnd) := ParsePieces(rest).value;
    if b == "" {
      assert Subst(b) + rest == rest && PiecesOf(b) + pieces == pieces;
    } else {
      ParseSubst(b[1..], rest);
      ParseMore(b, rest, pieces, atEnd);
    }
  }

  lemma {:induction false} ParseMore(b: string, rest: string, pieces: seq<Piece>, atEnd: bool)
    requires b != "" && Readable(b) && NoMark(rest)
    requires ParsePieces(Subst(b[1..]) + rest) == Some((PiecesOf(b[1..]) + pieces, atEnd))
    ensures ParsePieces(Subst(b) + rest) == Some((PiecesOf(b) + pieces, atEnd))
  {
    var text := Subst(b[1..]) + rest;
    NoMarkSubst(b[1..], rest);
    ParseOne(b[0], text);
    Assoc(SubstOne(b[0]), Subst(b[1..]), rest);
    Assoc([PieceOf(b[0])], PiecesOf(b[1..]), pieces);
  }

  lemma {:induction false} ParseEnd()
    ensures ParsePieces("$") == Some(([], true)) && NoMark("$")
    ensures ParsePieces(ANY) == Some((REST, false)) && NoMark(ANY)
  {
    assert ANY[1..] == "*" && ANY[1..][0] == '*' && ANY[2..] == "";
    assert ParsePieces("") == Some(([], false));
    assert ParseAtom(ANY) == Some((AnyChar, 1));
    assert [Piece(AnyChar, ZeroOrMore)] + [] == REST;
  }

  function EndPieces(tail: bool): seq<Piece> {
    if tail then REST else []
  }

  /** A bracket expression "[^c]", alone or with a '*'. */
  lemma {:induction false} ParseBracket(text: string, mark: nat)
    requires mark <= 1 && |text| >= 4 + mark && text[0] == '[' && text[1] == '^' && text[3] == ']'
    requires if mark == 1 then text[4] == '*' else NoMark(text[4..])
    requires ParsePieces(text[4 + mark..]).Some?
    ensures var (pieces, atEnd) := ParsePieces(text[4 + mark..]).value;
            var piece := Piece(NotChar(text[2]), if mark == 1 then ZeroOrMore else Once);
            ParsePieces(text) == Some(([piece] + pieces, atEnd))
  {
    assert ParseAtom(text) == Some((NotChar(text[2]), 4));
    assert text[4..] != "" ==> text[4..][0] == text[4];
  }

  /** regcomp of the text written for a topic. */
  function Compiled(t: string): Expression
    requires IsWildcard(t)
  {
    if t == TAIL then Expression(true, [FIRST_PIECE] + REST, false)
    else if t[0] == '*' then Expression(true, LEAD + (PiecesOf(Body(t)[1..]) + EndPieces(HasTail(t))), !HasTail(t))
    else Expression(true, PiecesOf(Body(t)) + EndPieces(HasTail(t)), !HasTail(t))
  }

  lemma {:induction false} ParsesText(t: string)
    requires IsWildcard(t) && Plain(t)
    ensures Parse(Written(t)) == Some(Compiled(t))
  {
    var b := Body(t);
    assert Readable(b) by {
      assert forall i | 0 <= i < |b| :: b[i] in b;
    }
    if t == TAIL {
      ParsesTail();
    } else if t[0] == '*' {
      TailOfRest(t);
      ParsesLead(b[1..], HasTail(t));
    } else {
      ParsesInner(b, HasTail(t));
    }
  }

  lemma {:induction false} ParsesTail()
    ensures Parse("^" + (FIRST + ANY)) == Some(Expression(true, [FIRST_PIECE] + REST, false))
  {
    ParseEnd();
    ParseFirst(ANY);
    ParseAnchored(FIRST + ANY);
  }

  lemma {:induction false} ParsesInner(b: string, tail: bool)
    requires Readable(b)
    ensures Parse("^" + Subst(b) + EndMark(tail)) == Some(Expression(true, PiecesOf(b) + EndPieces(tail), !tail))
  {
    ParseEnd();
    ParseSubst(b, EndMark(tail));
    ParseAnchored(Subst(b) + EndMark(tail));
    Assoc("^", Subst(b), EndMark(tail));
  }

  lemma {:induction false} ParsesLead(b: string, tail: bool)
    requires Readable(b)
    ensures Parse(FIRST_LEVEL + Subst(b) + EndMark(tail))
              == Some(Expression(true, LEAD + (PiecesOf(b) + EndPieces(tail)), !tail))
  {
    ParseEnd();
    ParseSubst(b, EndMark(tail));
    Assoc(FIRST_LEVEL, Subst(b), EndMark(tail));
    ParseLead(Subst(b) + EndMark(tail));
  }

  lemma {:induction false} ParseLead(text: string)
    requires ParsePieces(text).Some?
    ensures var (pieces, atEnd) := ParsePieces(text).value;
            Parse(FIRST_LEVEL + text) == Some(Expression(true, LEAD + pieces, atEnd))
  {
    var (pieces, atEnd) := ParsePieces(text).value;
    ParseSecond(text);
    ParseFirst(MORE + text);
    ParseAnchored(FIRST + (MORE + text));
    Assoc("^", FIRST + MORE, text);
    Assoc(FIRST, MORE, text);
    Assoc([FIRST_PIECE], [MORE_PIECE], pieces);
  }

  lemma {:induction false} ParseAnchored(text: string)
    requires ParsePieces(text).Some?
    ensures var (pieces, atEnd) := ParsePieces(text).value;
            Parse("^" + text) == Some(Expression(true, pieces, atEnd))
  {
    assert ("^" + text)[1..] == text;
  }

  lemma {:induction false} ParseSecond(text: string)
    requires ParsePieces(text).Some?
    ensures var (pieces, atEnd) := ParsePieces(text).value;
            ParsePieces(MORE + text) == Some(([MORE_PIECE] + pieces, atEnd)) && NoMark(MORE + text)
  {
    assert (MORE + text)[5..] == text;
    ParseBracket(MORE + text, 1);
  }

  lemma {:induction false} ParseFirst(text: string)
    requires ParsePieces(text).Some? && NoMark(text)
    ensures var (pieces, atEnd) := ParsePieces(text).value;
            ParsePieces(FIRST + text) == Some(([FIRST_PIECE] + pieces, atEnd))
  {
    assert (FIRST + text)[4..] == text;
    ParseBracket(FIRST + text, 0);
  }

  // ---- the expression and the topic agree ----

  function EndText(tail: bool): string {
    if tail then TAIL else ""
  }

  /** The pieces of a body without '.' match what the body denotes. */
  lemma {:induction false} MatchBody(b: string, tail: bool, s: string)
    requires '.' !in b
    ensures Matches(PiecesOf(b) + EndPieces(tail), s) <==> DenotesRest(b + EndText(tail), s)
    decreases |b|
  {
    var pieces, t := PiecesOf(b) + EndPieces(tail), b + EndText(tail);
    if b == "" {
      assert pieces == EndPieces(tail) && t == EndText(tail);
      if tail {
        assert Takes(REST[0], s, |s|) && s[|s|..] == "" && Matches(REST[1..], "");
      }
    } else {
      assert '.' in TAIL && t != TAIL && '.' !in b[1..];
      assert pieces[0] == PieceOf(b[0]) && pieces[1..] == PiecesOf(b[1..]) + EndPieces(tail);
      assert t[0] == b[0] && t[1..] == b[1..] + EndText(tail);
      forall k: nat | k <= |s|
        ensures Matches(pieces[1..], s[k..]) <==> DenotesRest(t[1..], s[k..])
      {
        MatchBody(b[1..], tail, s[k..]);
      }
      MatchFirst(b[0], s);
    }
  }

  lemma {:induction false} MatchFirst(c: char, s: string)
    requires c != '.'
    ensures c == '*' ==> forall k: nat :: Takes(PieceOf(c), s, k) <==> OneLevel(s, k)
    ensures c != '*' ==> forall k: nat :: Takes(PieceOf(c), s, k) <==> k == 1 && s != "" && s[0] == c
  {
    if c == '*' {
      forall k: nat
        ensures Takes(PieceOf(c), s, k) <==> OneLevel(s, k)
      {
      }
    }
  }

  /** A tail makes no difference between a subject and its continuations. */
  lemma {:induction false} DenotesExtend(b: string, s: string, j: nat)
    requires j <= |s| && DenotesRest(b + TAIL, s[..j])
    ensures DenotesRest(b + TAIL, s)
    decreases |b|
  {
    if b == "" {
      assert b + TAIL == TAIL;
    } else {
      var t := b + TAIL;
      assert t[1..] == b[1..] + TAIL && t[0] == b[0];
      if b[0] == '*' {
        var k: nat :| OneLevel(s[..j], k) && DenotesRest(t[1..], s[..j][k..]);
        assert s[..j][k..] == s[k..][..j - k] && s[..j][..k] == s[..k];
        DenotesExtend(b[1..], s[k..], j - k);
        assert OneLevel(s, k);
      } else {
        assert s[..j][1..] == s[1..][..j - 1];
        DenotesExtend(b[1..], s[1..], j - 1);
      }
    }
  }

  /** An expression anchored at the start, for a body without '.'. */
  lemma {:induction false} AcceptsBody(b: string, tail: bool, s: string)
    requires '.' !in b
    ensures Accepts(Expression(true, PiecesOf(b) + EndPieces(tail), !tail), s) <==> DenotesRest(b + EndText(tail), s)
  {
    var e := Expression(true, PiecesOf(b) + EndPieces(tail), !tail);
    assert s[0..|s|] == s;
    MatchBody(b, tail, s);
    if tail && Accepts(e, s) {
      var i, j :| 0 <= i <= j <= |s| && i == 0 && Matches(e.pieces, s[i..j]);
      assert s[i..j] == s[..j];
      MatchBody(b, tail, s[..j]);
      DenotesExtend(b, s, j);
    }
  }

  /** What follows the first character when the topic starts with '*'. */
  ghost predicate AfterFirst(t: string, s: string) {
    s != "" && exists k: nat :: Within(s, k) && DenotesRest(t, s[1..][k..])
  }

  /** The next k characters after the first are within one level. */
  predicate Within(s: string, k: nat)
    requires s != ""
  {
    k <= |s| - 1 && '/' !in s[1..][..k]
  }

  lemma {:induction false} MatchesLead(pieces: seq<Piece>, s: string)
    ensures Matches(LEAD + pieces, s)
            <==> s != "" && s[0] != '_' && exists k: nat :: Within(s, k) && Matches(pieces, s[1..][k..])
  {
    var all := LEAD + pieces;
    assert all[0] == LEAD[0] && all[1..][0] == LEAD[1] && all[1..][1..] == pieces;
    assert forall k: nat :: Takes(all[0], s, k) <==> k == 1 && s != "" && s[0] != '_';
    if s != "" {
      assert forall k: nat :: Takes(all[1..][0], s[1..], k) <==> Within(s, k);
      assert Matches(all[1..], s[1..])
             <==> exists k: nat :: Takes(all[1..][0], s[1..], k) && Matches(pieces, s[1..][k..]);
    }
  }

  /** A topic with a tail that denotes the start of a subject denotes all of it. */
  lemma {:induction false} LeadExtends(b: string, tail: bool, s: string, j: nat)
    requires j <= |s| && (tail || j == |s|) && AfterFirst(b + EndText(tail), s[..j])
    ensures AfterFirst(b + EndText(tail), s)
  {
    var u := s[..j];
    var k: nat :| Within(u, k) && DenotesRest(b + EndText(tail), u[1..][k..]);
    assert u[1..][..k] == s[1..][..k];
    assert Within(s, k);
    if tail {
      assert u[1..][k..] == s[1..][k..][..j - 1 - k];
      DenotesExtend(b, s[1..][k..], j - 1 - k);
    } else {
      assert u == s;
    }
  }

  lemma {:induction false} AcceptsLead(b: string, tail: bool, s: string)
    requires '.' !in b
    ensures Accepts(Expression(true, LEAD + (PiecesOf(b) + EndPieces(tail)), !tail), s)
            <==> s != "" && s[0] != '_' && AfterFirst(b + EndText(tail), s)
  {
    var e := Expression(true, LEAD + (PiecesOf(b) + EndPieces(tail)), !tail);
    if Accepts(e, s) {
      var i, j :| 0 <= i <= j <= |s| && i == 0 && (e.atEnd ==> j == |s|) && Matches(e.pieces, s[i..j]);
      assert s[0..j] == s[..j];
      LeadAt(b, tail, s[..j]);
      LeadExtends(b, tail, s, j);
    }
    if s != "" && s[0] != '_' && AfterFirst(b + EndText(tail), s) {
      LeadAt(b, tail, s);
      assert s[0..|s|] == s;
    }
  }

  lemma {:induction false} LeadAt(b: string, tail: bool, s: string)
    requires '.' !in b
    ensures Matches(LEAD + (PiecesOf(b) + EndPieces(tail)), s)
            <==> s != "" && s[0] != '_' && AfterFirst(b + EndText(tail), s)
  {
    var pieces := PiecesOf(b) + EndPieces(tail);
    MatchesLead(pieces, s);
    if s != "" {
      forall k: nat | Within(s, k)
        ensures Matches(pieces, s[1..][k..]) <==> DenotesRest(b + EndText(tail), s[1..][k..])
      {
        MatchBody(b, tail, s[1..][k..]);
      }
    }
  }

  /** The exception: "[^_]" lets the first level of a topic that starts with '*' take
      a leading '/', which a '*' does not denote. */
  ghost predicate SlashSlips(t: string, s: string) {
    t != "" && t[0] == '*' && s != "" && s[0] == '/' && AfterFirst(t[1..], s)
  }

  lemma {:induction false} FirstLevel(t: string, s: string)
    requires t != "" && t[0] == '*'
    ensures s != "" && s[0] != '_' && AfterFirst(t[1..], s) <==> Denotes(t, s) || SlashSlips(t, s)
  {
    if s != "" && s[0] != '_' && AfterFirst(t[1..], s) && s[0] != '/' {
      var k: nat :| Within(s, k) && DenotesRest(t[1..], s[1..][k..]);
      assert s[..k + 1] == [s[0]] + s[1..][..k] && s[k + 1..] == s[1..][k..];
      assert OneLevel(s, k + 1);
    }
    if Denotes(t, s) {
      var k: nat :| OneLevel(s, k) && DenotesRest(t[1..], s[k..]);
      assert s[1..][..k - 1] == s[1..k] && s[1..][k - 1..] == s[k..];
      assert forall c | c in s[1..k] :: c in s[..k];
      assert Within(s, k - 1);
    }
  }

  // ---- main results ----

  /** ws2posix preserves meaning. For every wildcard topic whose other characters are
      ordinary, the expression it writes compiles and accepts exactly the subjects
      that the topic denotes, and those that slip in by a leading '/'. */
  lemma {:induction false} MeaningExactly(t: string, s: string)
    requires IsWildcard(t) && Plain(t) && '.' !in Body(t)
    ensures Rewrite(t, "").0.Ok?
    ensures TextAccepts(Rewrite(t, "").1, s) <==> Denotes(t, s) || SlashSlips(t, s)
  {
    var b := Body(t);
    NoCaret(t);
    WritesText(t);
    ParsesText(t);
    if t == TAIL {
      AcceptsTailOnly(s);
    } else if t[0] == '*' {
      TailOfRest(t);
      assert '.' !in b[1..] && b[1..] + EndText(HasTail(t)) == t[1..];
      AcceptsLead(b[1..], HasTail(t), s);
      FirstLevel(t, s);
    } else {
      assert b + EndText(HasTail(t)) == t;
      AcceptsBody(b, HasTail(t), s);
    }
  }

  lemma {:induction false} NoCaret(t: string)
    requires IsWildcard(t) && Plain(t)
    ensures t[0] != '^'
  {
    assert t != TAIL ==> t[0] in Body(t);
  }

  lemma {:induction false} AcceptsTailOnly(s: string)
    ensures Accepts(Compiled(TAIL), s) <==> Denotes(TAIL, s)
  {
    var e := Compiled(TAIL);
    assert e.pieces[1..] == REST;
    if s != "" && s[0] != '_' {
      assert Takes(e.pieces[0], s, 1);
      assert Takes(REST[0], s[1..], |s| - 1) && s[1..][|s| - 1..] == "" && Matches(REST[1..], "");
      assert Matches(REST, s[1..]);
      assert s[0..|s|] == s;
    }
    if Accepts(e, s) {
      var i, j :| 0 <= i <= j <= |s| && i == 0 && Matches(e.pieces, s[i..j]);
      var k: nat :| Takes(e.pieces[0], s[i..j], k) && Matches(e.pieces[1..], s[i..j][k..]);
      assert s[i..j][..k][0] == s[0];
    }
  }

  /** On subjects that do not start with '/', and on all subjects when the topic does
      not start with '*', nothing slips in. */
  lemma {:induction false} MeaningPreserved(t: string, s: string)
    requires IsWildcard(t) && Plain(t) && '.' !in Body(t)
    requires (s == "" || s[0] != '/') || t[0] != '*'
    ensures TextAccepts(Rewrite(t, "").1, s) <==> Denotes(t, s)
  {
    MeaningExactly(t, s);
  }

  /** The exception is real: "*" accepts "/". */
  lemma {:induction false} SlashSlipsIn()
    ensures TextAccepts(Rewrite("*", "").1, "/") && !Denotes("*", "/")
  {
    assert Body("*") == "*";
    assert Ordinary('*') || "*"[0] == '*';
    MeaningExactly("*", "/");
    assert "/"[1..] == "" && ""[0..] == "" && Within("/", 0) && DenotesRest("*"[1..], "/"[1..][0..]);
  }
}
