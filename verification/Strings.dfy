/** Searching in strings, as the standard string type does it. */
module Strings {

  predicate OccursAt(s: string, needle: string, p: int) {
    0 <= p <= |s| - |needle| && s[p..p + |needle|] == needle
  }

  /** The first occurrence at or after `from`, or -1. */
  function Find(s: string, needle: string, from: nat): (r: int)
    ensures r == -1 || (from <= r && OccursAt(s, needle, r))
    ensures forall p :: from <= p < (if r == -1 then |s| + 1 else r) ==> !OccursAt(s, needle, p)
    decreases |s| + 1 - from
  {
    if from > |s| then -1
    else if OccursAt(s, needle, from) then from
    else Find(s, needle, from + 1)
  }

  /** The last occurrence that starts before `to`, or -1. */
  function RFind(s: string, needle: string, to: nat): (r: int)
    ensures r == -1 || (r < to && OccursAt(s, needle, r))
    ensures forall p :: r < p < to ==> !OccursAt(s, needle, p)
  {
    if to == 0 then -1
    else if OccursAt(s, needle, to - 1) then to - 1
    else RFind(s, needle, to - 1)
  }

  /** An occurrence with none before it is what the search returns. */
  lemma FoundFirst(s: string, needle: string, from: nat, p: nat)
    requires from <= p && OccursAt(s, needle, p)
    requires forall q :: from <= q < p ==> !OccursAt(s, needle, q)
    ensures Find(s, needle, from) == p
  {
  }

  lemma OccursInPart(a: string, b: string, needle: string, p: nat)
    requires p + |needle| <= |a|
    ensures OccursAt(a + b, needle, p) <==> OccursAt(a, needle, p)
  {
    assert (a + b)[p..p + |needle|] == a[p..p + |needle|];
  }
}
