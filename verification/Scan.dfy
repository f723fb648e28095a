/** Looking for a character in text, as memchr does */
module Scan {
  /** The first position of a character, or the length (memchr) */
  function Index(s: string, c: char): (k: nat)
    ensures k <= |s| && (k < |s| ==> s[k] == c)
    ensures forall i :: 0 <= i < k ==> s[i] != c
  {
    if s == [] || s[0] == c then 0 else 1 + Index(s[1..], c)
  }

  lemma {:induction false} IndexIs(s: string, c: char, k: nat)
    requires k <= |s| && (k < |s| ==> s[k] == c) && c !in s[..k]
    ensures Index(s, c) == k
  {
    assert forall j :: 0 <= j < k ==> s[j] in s[..k];
  }
}
