/**
 * The two `java.lang.String` searches the image utilities rely on:
 * `indexOf(String)` and `lastIndexOf(char)`, over strings as sequences of chars.
 */
module JavaString {

  /** `sub` occurs in `s` starting at index `k`. */
  predicate OccursAt(s: string, sub: string, k: int)
  {
    0 <= k && k + |sub| <= |s| && s[k..k + |sub|] == sub
  }

  /** `sub` occurs somewhere in `s`. */
  predicate Contains(s: string, sub: string)
  {
    exists k | 0 <= k <= |s| :: OccursAt(s, sub, k)
  }

  /** The first occurrence of `sub` in `s` at or after `from`, or -1. */
  function IndexOfFrom(s: string, sub: string, from: nat): (r: int)
    ensures r == -1 || (from <= r && OccursAt(s, sub, r))
    ensures forall k :: from <= k && (r == -1 || k < r) ==> !OccursAt(s, sub, k)
    decreases |s| - from
  {
    if from + |sub| > |s| then -1
    else if s[from..from + |sub|] == sub then from
    else IndexOfFrom(s, sub, from + 1)
  }

  /** `s.indexOf(sub)`: the index of the first occurrence, or -1 exactly when there is none. */
  function IndexOf(s: string, sub: string): (r: int)
    ensures r >= 0 <==> Contains(s, sub)
    ensures r >= 0 ==> OccursAt(s, sub, r) && forall k :: 0 <= k < r ==> !OccursAt(s, sub, k)
    ensures r < 0 ==> r == -1
  {
    IndexOfFrom(s, sub, 0)
  }

  /** `s.lastIndexOf(c)`: the index of the last `c` in `s`, or -1 when `s` has none. */
  function LastIndexOf(s: string, c: char): (r: int)
    ensures -1 <= r < |s|
    ensures r >= 0 ==> s[r] == c
    ensures forall k :: r < k < |s| ==> s[k] != c
  {
    if |s| == 0 then -1
    else if s[|s| - 1] == c then |s| - 1
    else LastIndexOf(s[..|s| - 1], c)
  }
}
