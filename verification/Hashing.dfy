/** Digests: 64 lower-case hexadecimal characters, and what is assumed of a hash function. */
module Hashing {

  predicate IsHexDigit(c: char) { '0' <= c <= '9' || 'a' <= c <= 'f' }

  /** The 64 zeros a chain starts from. */
  const ZERO := "0000000000000000000000000000000000000000000000000000000000000000"

  type Digest = s: string | |s| == 64 && forall i :: 0 <= i < 64 ==> IsHexDigit(s[i])
    witness seq(64, _ => '0')

  type Hash = string -> Digest

  /** The hash function has no collision among the strings in `inputs`. */
  ghost predicate CollisionFree(h: Hash, inputs: set<string>) {
    forall x, y :: x in inputs && y in inputs && h(x) == h(y) ==> x == y
  }

  /** None of the strings in `inputs` hashes to the 64 zeros. */
  ghost predicate AvoidsZero(h: Hash, inputs: set<string>) {
    forall x :: x in inputs ==> h(x) != ZERO
  }

  predicate BarFree(s: string) { forall i :: 0 <= i < |s| ==> s[i] != '|' }

  /** A text up to its first bar can be read back. */
  lemma FirstBar(a: string, x: string, b: string, y: string)
    requires BarFree(a) && BarFree(b) && a + "|" + x == b + "|" + y
    ensures a == b && x == y
  {
    var s, t := a + "|" + x, b + "|" + y;
    assert s[..|a|] == a && s[|a|] == '|' && s[|a| + 1..] == x;
    assert t[..|b|] == b && t[|b|] == '|' && t[|b| + 1..] == y;
    assert forall i :: 0 <= i < |a| ==> s[i] == a[i];
    assert forall i :: 0 <= i < |b| ==> t[i] == b[i];
    assert |a| == |b|;
  }
}
