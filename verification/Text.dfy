/** Searching in strings, as std::string::find, std::string::rfind and strstr do. */
module Text {
  import opened Common

  /** pattern occurs in s at index i. */
  predicate OccursAt(s: string, pattern: string, i: int) {
    0 <= i && i + |pattern| <= |s| && s[i..i + |pattern|] == pattern
  }

  /** The first occurrence at or after `from`. */
  function Find(s: string, pattern: string, from: nat): (r: Option<nat>)
    ensures r.Some? ==> from <= r.value && OccursAt(s, pattern, r.value)
    ensures r.Some? ==> forall i | from <= i < r.value :: !OccursAt(s, pattern, i)
    ensures r.None? ==> forall i: nat | from <= i :: !OccursAt(s, pattern, i)
    decreases |s| - from
  {
    if |s| < from + |pattern| then None
    else if OccursAt(s, pattern, from) then Some(from)
    else if from == |s| then None
    else Find(s, pattern, from + 1)
  }

  /** The last occurrence that starts below `bound`. */
  function FindLastBelow(s: string, pattern: string, bound: nat): (r: Option<nat>)
    ensures r.Some? ==> r.value < bound && OccursAt(s, pattern, r.value)
    ensures r.Some? ==> forall i | r.value < i < bound :: !OccursAt(s, pattern, i)
    ensures r.None? ==> forall i: nat | i < bound :: !OccursAt(s, pattern, i)
  {
    if bound == 0 then None
    else if OccursAt(s, pattern, bound - 1) then Some(bound - 1)
    else FindLastBelow(s, pattern, bound - 1)
  }

  function FindLast(s: string, pattern: string): Option<nat> {
    FindLastBelow(s, pattern, |s| + 1)
  }

  predicate EndsWith(s: string, suffix: string) {
    |suffix| <= |s| && s[|s| - |suffix|..] == suffix
  }
}
