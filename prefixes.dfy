/** Prefix tests on strings, the only string operation the exclusion matcher uses. */
module Prefixes {

  /** Python's `s.startswith(prefix)`. */
  predicate StartsWith(s: string, prefix: string) {
    prefix <= s
  }

  function Min(a: nat, b: nat): (m: nat)
    ensures m <= a && m <= b && (m == a || m == b)
  {
    if a <= b then a else b
  }

  /** Two strings agree on their common length: a definition of "one extends the other"
      that does not mention prefixes. */
  predicate Comparable(a: string, b: string) {
    var n := Min(|a|, |b|);
    a[..n] == b[..n]
  }

  /** Agreeing on the common length is exactly being a prefix in one direction or the other. */
  lemma ComparableIff(a: string, b: string)
    ensures Comparable(a, b) <==> StartsWith(a, b) || StartsWith(b, a)
  {
  }
}
