/** Hierarchical topics: what they denote, and ws2posix, which rewrites one in
    place into an extended regular expression. */
module Topics {
  import opened Common
  import opened Text
  import opened Ere

  // ---- what a topic denotes ----

  const TAIL := "/."

  /** "/." at the end stands for anything. */
  predicate HasTail(t: string) {
    EndsWith(t, TAIL)
  }

  /** The topic without its tail. */
  function Body(t: string): string {
    if HasTail(t) then t[..|t| - 2] else t
  }

  /** s is denoted by the rest t of a topic: `*` is one or more characters other
      than '/', "/." at the end is anything, all else is itself. */
  ghost predicate DenotesRest(t: string, s: string)
    decreases |t|
  {
    if t == TAIL then true
    else if t == "" then s == ""
    else if t[0] == '*' then exists k: nat :: OneLevel(s, k) && DenotesRest(t[1..], s[k..])
    else s != "" && s[0] == t[0] && DenotesRest(t[1..], s[1..])
  }

  /** The first k characters are a non-empty part of one level. */
  predicate OneLevel(s: string, k: nat) {
    1 <= k <= |s| && '/' !in s[..k]
  }

  /** A topic that starts with a wildcard leaves out subjects that start with '_'. */
  ghost predicate Denotes(t: string, s: string) {
    && DenotesRest(t, s)
    && (StartsWild(t) ==> s != "" && s[0] != '_')
  }

  predicate StartsWild(t: string) {
    t == TAIL || (t != "" && t[0] == '*')
  }

  predicate IsWildcard(t: string) {
    '*' in t || HasTail(t)
  }

  /** Apart from its wildcards the topic has only characters that mean themselves in
      a regular expression, and possibly '.'. */
  predicate Plain(t: string) {
    forall c | c in Body(t) :: Ordinary(c) || c == '*' || c == '.'
  }

  // ---- ws2posix ----

  datatype Status = Ok | InvalidArg | OutOfRange

  const LEVEL := "[^/]+"                // what '*' becomes
  const FIRST := "[^_]"                 // no underscore at the beginning
  const MORE := "[^/]*"
  const FIRST_LEVEL := "^" + (FIRST + MORE)     // what a leading '*' becomes
  const ANY := ".*"                     // what the tail becomes

  /** Every '*' replaced. */
  function Subst(s: string): string {
    if s == "" then "" else (if s[0] == '*' then LEVEL else [s[0]]) + Subst(s[1..])
  }

  /** The text before its end is looked at. */
  function Replaced(topic: string, regex: string): string {
    if '*' !in topic then Subst(regex + topic)
    else if topic[0] == '*' then FIRST_LEVEL + Subst(topic[1..])
    else "^" + Subst(topic)
  }

  /** What becomes of the end of the text. The test p == regex.length() - 2 is also
      true of an absent "/." when the length is 1, because both sides are then the
      largest size_t; replace() then throws. */
  function Finished(text: string, hasStar: bool): (Status, string) {
    if text == TAIL then (Ok, "^" + (FIRST + ANY))
    else if EndsWith(text, TAIL) then
      (Ok, if text[0] == '^' then text[..|text| - 2] + ANY else "^" + (text[..|text| - 2] + ANY))
    else if |text| == 1 then (OutOfRange, text)
    else if hasStar then (Ok, text + "$")
    else (InvalidArg, text)
  }

  /** ws2posix on a topic and the incoming value of its in-out argument. */
  function Rewrite(topic: string, regex: string): (Status, string) {
    Finished(Replaced(topic, regex), '*' in topic)
  }

  method Ws2Posix(wsTopic: string, regexIn: string) returns (status: Status, regex: string)
    ensures (status, regex) == Rewrite(wsTopic, regexIn)
  {
    status := InvalidArg;
    regex := regexIn;
    var q := 0;
    var p := Find(wsTopic, "*", 0);
    StarFound(wsTopic, 0, p);
    if p.Some? {
      status := Ok;
      if p.value == 0 {
        regex := FIRST_LEVEL;
        q := |regex|;
        regex := regex + wsTopic[1..];
        assert regex[..q] == FIRST_LEVEL && regex[q..] == wsTopic[1..];
      } else {
        regex := "^";
        regex := regex + wsTopic;
        assert regex[0] == '^' && regex[1..] == wsTopic && regex[..0] == "" && regex[0..] == regex;
      }
    } else {
      regex := regex + wsTopic;
      assert regex[..0] == "" && regex[0..] == regex;
    }
    assert p.Some? <==> '*' in wsTopic;
    assert regex[..q] + Subst(regex[q..]) == Replaced(wsTopic, regexIn);
    regex := ReplaceStars(regex, q);
    status, regex := AnchorEnd(regex, status);
  }

  /** The loop of ws2posix: from q on, each '*' in turn gives way to "[^/]+". */
  method ReplaceStars(text: string, q: nat) returns (regex: string)
    requires q <= |text|
    ensures regex == text[..q] + Subst(text[q..])
  {
    regex := text;
    var p := Find(regex, "*", q);
    StarFound(regex, q, p);
    SubstSkip(regex, q, End(regex, p));
    while p.Some?
      invariant End(regex, p) <= |regex| && (p.Some? ==> p.value < |regex| && regex[p.value] == '*')
      invariant regex[..End(regex, p)] + Subst(regex[End(regex, p)..]) == text[..q] + Subst(text[q..])
      decreases |regex| - End(regex, p)
    {
      StarReplaced(regex, p.value);
      var at := p.value;
      regex := regex[..at] + LEVEL + regex[at + 1..];
      p := Find(regex, "*", at);
      StarFound(regex, at, p);
      SubstSkip(regex, at + 5, End(regex, p));
    }
    assert regex[..|regex|] == regex;
  }

  lemma {:induction false} StarReplaced(s: string, at: nat)
    requires at < |s| && s[at] == '*'
    ensures var r := s[..at] + LEVEL + s[at + 1..];
            && s[..at] + Subst(s[at..]) == r[..at + 5] + Subst(r[at + 5..])
            && forall i | at <= i < at + 5 :: r[i] != '*'
  {
    var r := s[..at] + LEVEL + s[at + 1..];
    assert s[at..][1..] == s[at + 1..] && Subst(s[at..]) == LEVEL + Subst(s[at + 1..]);
    assert r[..at + 5] == s[..at] + LEVEL && r[at + 5..] == s[at + 1..];
    assert forall i | at <= i < at + 5 :: r[i] == LEVEL[i - at];
  }

  ghost function End(s: string, p: Option<nat>): nat {
    if p.Some? then p.value else |s|
  }

  /** The last part of ws2posix. */
  method AnchorEnd(text: string, statusIn: Status) returns (status: Status, regex: string)
    requires !statusIn.OutOfRange?
    ensures (status, regex) == Finished(text, statusIn.Ok?)
  {
    status, regex := statusIn, text;
    var p := FindLast(regex, "/.");
    assert EndsWith(regex, "/.") <==> OccursAt(regex, "/.", |regex| - 2);
    if (p.Some? && p.value + 2 == |regex|) || (p.None? && |regex| == 1) {
      if p == Some(0) {
        regex := "^" + (FIRST + ANY);
      } else if |regex| < 2 {
        return OutOfRange, regex;
      } else {
        regex := regex[..|regex| - 2] + ANY;
        if regex[0] != '^' {
          regex := "^" + regex;
        }
      }
      status := Ok;
    } else if status == Ok {
      regex := regex + "$";
    }
  }

  lemma {:induction false} StarFound(s: string, from: nat, p: Option<nat>)
    requires p == Find(s, "*", from)
    ensures p.Some? ==> p.value < |s| && s[p.value] == '*' && forall i | from <= i < p.value :: s[i] != '*'
    ensures p.None? ==> forall i | from <= i < |s| :: s[i] != '*'
  {
    assert forall i | 0 <= i < |s| :: OccursAt(s, "*", i) <==> s[i] == '*';
  }

  /** Characters other than '*' are replaced by themselves. */
  lemma {:induction false} SubstSkip(s: string, m: nat, n: nat)
    requires m <= n <= |s| && forall i | m <= i < n :: s[i] != '*'
    ensures s[..m] + Subst(s[m..]) == s[..n] + Subst(s[n..])
    decreases n - m
  {
    if m < n {
      assert s[m..][1..] == s[m + 1..];
      assert s[..m + 1] == s[..m] + [s[m]];
      SubstSkip(s, m + 1, n);
    }
  }
}
