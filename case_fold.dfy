/**
 * The two string comparisons the service uses on URLs: exact equality (the
 * registry's keys) and `String.equalsIgnoreCase` (the scheduler's reference
 * match). Case folding is modelled on ASCII letters only.
 */
module CaseFold {

  /** Folds an ASCII upper-case letter to lower case and leaves every other character alone. */
  function FoldChar(c: char): (f: char)
  {
    if 'A' <= c <= 'Z' then (c as int - 'A' as int + 'a' as int) as char else c
  }

  /** `a.equalsIgnoreCase(b)`: same length and equal character by character after folding. */
  predicate EqIgnoreCase(a: string, b: string)
  {
    |a| == |b| && forall i :: 0 <= i < |a| ==> FoldChar(a[i]) == FoldChar(b[i])
  }

  /** Every string matches itself, so an exact key is always found by the case-insensitive walk. */
  lemma EqIgnoreCaseReflexive(a: string)
    ensures EqIgnoreCase(a, a)
  {
  }

  /** The two comparisons differ: two distinct keys can match each other ignoring case. */
  lemma CaseOnlyDifference()
    ensures "A" != "a" && EqIgnoreCase("A", "a")
  {
    assert "A"[0] != "a"[0];
  }
}
