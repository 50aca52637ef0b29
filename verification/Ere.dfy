/** The part of POSIX extended regular expressions that wildcard topics are
    rewritten into (section 9.4 of the XBD volume of IEEE Std 1003.1): ordinary
    characters, `.`, bracket expressions `[^c]`, the duplication symbols `*` and
    `+`, and the anchors `^` first and `$` last. */
module Ere {
  import opened Common
  import opened Text

  datatype Atom = Literal(c: char) | AnyChar | NotChar(c: char)

  datatype Repeat = Once | ZeroOrMore | OneOrMore

  datatype Piece = Piece(atom: Atom, repeat: Repeat)

  datatype Expression = Expression(atStart: bool, pieces: seq<Piece>, atEnd: bool)

  /** The characters with a meaning of their own outside brackets (section 9.4.3). */
  const SPECIAL := "^.[$()|*+?{\\"

  predicate Ordinary(c: char) {
    c !in SPECIAL
  }

  // ---- what an expression matches ----

  predicate Fits(a: Atom, c: char) {
    match a
    case Literal(d) => c == d
    case AnyChar => true
    case NotChar(d) => c != d
  }

  predicate AllFit(a: Atom, s: string) {
    forall i | 0 <= i < |s| :: Fits(a, s[i])
  }

  predicate Allows(r: Repeat, count: nat) {
    match r
    case Once => count == 1
    case ZeroOrMore => true
    case OneOrMore => count >= 1
  }

  /** The pieces match the whole of s: each takes a run of characters that fit it. */
  ghost predicate Matches(pieces: seq<Piece>, s: string)
    decreases |pieces|
  {
    if pieces == [] then s == ""
    else exists k: nat :: Takes(pieces[0], s, k) && Matches(pieces[1..], s[k..])
  }

  predicate Takes(p: Piece, s: string, k: nat) {
    k <= |s| && Allows(p.repeat, k) && AllFit(p.atom, s[..k])
  }

  /** regexec: some part of s matches, at the ends where the anchors say so. */
  ghost predicate Accepts(e: Expression, s: string) {
    exists i, j | 0 <= i <= j <= |s| ::
      (e.atStart ==> i == 0) && (e.atEnd ==> j == |s|) && Matches(e.pieces, s[i..j])
  }

  // ---- how an expression is written ----

  /** The first atom of a text and the number of characters it takes. */
  function ParseAtom(text: string): Option<(Atom, nat)>
    requires text != ""
  {
    if text[0] == '.' then Some((AnyChar, 1))
    else if text[0] == '[' then
      if |text| >= 4 && text[1] == '^' && text[3] == ']' then Some((NotChar(text[2]), 4)) else None
    else if Ordinary(text[0]) then Some((Literal(text[0]), 1))
    else None
  }

  function ParseRepeat(text: string): (Repeat, nat) {
    if text != "" && text[0] == '*' then (ZeroOrMore, 1)
    else if text != "" && text[0] == '+' then (OneOrMore, 1)
    else (Once, 0)
  }

  /** The pieces of a text and whether `$` ends it; None outside this fragment. */
  function ParsePieces(text: string): Option<(seq<Piece>, bool)>
    decreases |text|
  {
    if text == "" then Some(([], false))
    else if text == "$" then Some(([], true))
    else
      match ParseAtom(text)
      case None => None
      case Some((atom, used)) =>
        var (repeat, mark) := ParseRepeat(text[used..]);
        match ParsePieces(text[used + mark..])
        case None => None
        case Some((pieces, atEnd)) => Some(([Piece(atom, repeat)] + pieces, atEnd))
  }

  /** regcomp. */
  function Parse(text: string): Option<Expression> {
    var atStart := text != "" && text[0] == '^';
    match ParsePieces(if atStart then text[1..] else text)
    case None => None
    case Some((pieces, atEnd)) => Some(Expression(atStart, pieces, atEnd))
  }

  /** The text compiles and accepts s. */
  ghost predicate TextAccepts(text: string, s: string) {
    Parse(text).Some? && Accepts(Parse(text).value, s)
  }
}
