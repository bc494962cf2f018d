/** JavaScript's `indexOf` and `includes` on texts. */
module Texts {

  /** The pattern occurs at position i. */
  predicate OccursAt(text: string, pattern: string, i: int) {
    0 <= i && i + |pattern| <= |text| && text[i..i + |pattern|] == pattern
  }

  ghost predicate Includes(text: string, pattern: string) {
    exists i :: OccursAt(text, pattern, i)
  }

  /** The first occurrence at or after `from`, or -1. */
  method IndexOf(text: string, pattern: string, from: nat) returns (r: int)
    requires from <= |text|
    ensures r == -1 || (from <= r && OccursAt(text, pattern, r))
    ensures forall i :: from <= i && (r == -1 || i < r) ==> !OccursAt(text, pattern, i)
  {
    r := from;
    while r + |pattern| <= |text|
      invariant from <= r
      invariant forall i :: from <= i < r ==> !OccursAt(text, pattern, i)
    {
      if text[r..r + |pattern|] == pattern { return; }
      r := r + 1;
    }
    r := -1;
  }
}
