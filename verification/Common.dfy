/** What several modules need. */
module Common {

  datatype Option<T> = None | Some(value: T)

  /** The size of a topic on the wire and in control messages. */
  const MAX_SUBJECT_LENGTH := 256

  /** What the subject of every message to an inbox starts with. */
  const REPLYHANDLE_PREFIX := "_INBOX"

  function AtLeastZero(x: int): nat {
    if x < 0 then 0 else x
  }

  lemma {:induction false} Assoc<T>(x: seq<T>, y: seq<T>, z: seq<T>)
    ensures (x + y) + z == x + (y + z)
  {
  }

  /** n numbers are below n. */
  lemma {:induction false} AtMostBelow(numbers: set<nat>, n: nat)
    requires forall k | k in numbers :: k < n
    ensures |numbers| <= n
  {
    if n == 0 {
      assert numbers == {};
    } else {
      AtMostBelow(numbers - {n - 1}, n - 1);
    }
  }
}
