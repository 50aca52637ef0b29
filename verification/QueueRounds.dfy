/** What the dispatch loop does in a number of rounds, while no other thread interferes. */
module QueueRounds {
  import opened Common
  import opened QueueLists
  import opened Watermarks

  /** What the dispatch loop hands to callbacks in a number of rounds. */
  function Handed(contents: seq<Event>, rounds: nat): seq<Event> {
    if rounds < |contents| then contents[..rounds] else contents
  }

  /** What the checks of so many rounds notify on a queue of that size, from which each
      round takes one event: the flag after them, and the notifications. */
  function Notified(fired: bool, low: nat, high: nat, count: nat, rounds: nat): (bool, seq<Note>) {
    if rounds == 0 then (fired, [])
    else
      var (before, notes) := Notified(fired, low, high, count, rounds - 1);
      var (after, more) := Checked(before, low, high, if count < rounds then 0 else count - (rounds - 1));
      (after, notes + more)
  }

  lemma {:induction false} NotifiedStep(fired: bool, low: nat, high: nat, count: nat, rounds: nat, size: nat)
    requires size == if count < rounds then 0 else count - rounds
    ensures var before := Notified(fired, low, high, count, rounds);
            var more := Checked(before.0, low, high, size);
            var after := Notified(fired, low, high, count, rounds + 1);
            after.0 == more.0 && after.1 == before.1 + more.1
  {
  }

  /** The rounds on an unfired queue, in closed form: nothing below the high mark; from
      there up High first, and Low once enough events have been taken to reach the low mark;
      nothing more after that. */
  lemma {:induction false} NotifiedUnfired(low: nat, high: nat, count: nat, rounds: nat)
    requires low < high && rounds > 0
    ensures var (fired, notes) := Notified(false, low, high, count, rounds);
            && notes == (if count < high then [] else if count < low + rounds then [High, Low] else [High])
            && (fired <==> notes == [High])
  {
    if rounds > 1 {
      NotifiedUnfired(low, high, count, rounds - 1);
    } else {
      assert Notified(false, low, high, count, 0) == (false, []);
    }
  }

  /** On any unfired queue with at least the high mark's events, whatever the low mark, the
      first notification is High. */
  lemma {:induction false} HighFirst(low: nat, high: nat, count: nat, rounds: nat)
    requires high <= count && rounds > 0
    ensures var notes := Notified(false, low, high, count, rounds).1; notes != [] && notes[0] == High
  {
    if rounds > 1 {
      HighFirst(low, high, count, rounds - 1);
    } else {
      assert Notified(false, low, high, count, 0) == (false, []);
    }
  }

  /** The loop between two rounds: what is left, the flag, what was handed over and what
      was notified. */
  datatype Loop = Loop(rest: seq<Event>, fired: bool, handed: seq<Event>, notes: seq<Note>)

  /** One round: a check on the size there is, and an event if there is one. */
  function Rounded(l: Loop, low: nat, high: nat): Loop {
    var (fired, notes) := Checked(l.fired, low, high, |l.rest|);
    if l.rest == [] then Loop([], fired, l.handed, l.notes + notes)
    else Loop(l.rest[1..], fired, l.handed + [l.rest[0]], l.notes + notes)
  }

  function After(contents: seq<Event>, fired: bool, low: nat, high: nat, rounds: nat): Loop {
    if rounds == 0 then Loop(contents, fired, [], [])
    else Rounded(After(contents, fired, low, high, rounds - 1), low, high)
  }

  /** What the rounds come to. */
  lemma {:induction false} AfterIs(contents: seq<Event>, fired: bool, low: nat, high: nat, rounds: nat)
    ensures var l := After(contents, fired, low, high, rounds);
            && l.handed == Handed(contents, rounds) && l.handed + l.rest == contents
            && (l.fired, l.notes) == Notified(fired, low, high, |contents|, rounds)
  {
    if rounds > 0 {
      var l := After(contents, fired, low, high, rounds - 1);
      AfterIs(contents, fired, low, high, rounds - 1);
      NotifiedStep(fired, low, high, |contents|, rounds - 1, |l.rest|);
      if l.rest != [] {
        HandedStep(contents, l.handed, l.rest, rounds - 1);
      } else {
        assert l.handed + [] == l.handed;
      }
    }
  }

  lemma {:induction false} HandedStep(contents: seq<Event>, handed: seq<Event>, rest: seq<Event>, rounds: nat)
    requires handed == Handed(contents, rounds) && handed + rest == contents && rest != []
    ensures handed + [rest[0]] == Handed(contents, rounds + 1) && handed + [rest[0]] + rest[1..] == contents
  {
    assert rest == [rest[0]] + rest[1..];
    Assoc(handed, [rest[0]], rest[1..]);
  }

  lemma {:induction false} AllAfter(contents: seq<Event>, fired: bool, low: nat, high: nat, rounds: nat)
    requires rounds > 0
    ensures var l := After(contents, fired, low, high, rounds);
            && l.handed == Handed(contents, rounds) && l.handed + l.rest == contents
            && (l.fired, l.notes) == Notified(fired, low, high, |contents|, rounds)
            && (!fired && high <= |contents| ==> l.notes != [] && l.notes[0] == High)
            && |l.handed| == (if rounds < |contents| then rounds else |contents|)
  {
    AfterIs(contents, fired, low, high, rounds);
    if !fired && high <= |contents| {
      HighFirst(low, high, |contents|, rounds);
    }
  }
}
