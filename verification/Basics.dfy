/** Small definitions shared by several components. */
module Basics {

  function Min(a: int, b: int): int {
    if a < b then a else b
  }

  function Pow2(k: nat): nat {
    if k == 0 then 1 else 2 * Pow2(k - 1)
  }

  predicate StartsWith<T(==)>(s: seq<T>, prefix: seq<T>) {
    |prefix| <= |s| && s[..|prefix|] == prefix
  }

  /** The code of 0-9, A-Z or a-z. */
  predicate IsAlphanumeric(code: int) {
    0x30 <= code <= 0x39 || 0x41 <= code <= 0x5A || 0x61 <= code <= 0x7A
  }
  lemma {:induction false} PowGrows(a: nat, b: nat)
    requires a <= b
    ensures Pow2(a) <= Pow2(b)
    decreases b
  {
    if a < b {
      PowGrows(a, b - 1);
    }
  }

  /** A prefix, unit by unit. */
  lemma StartsWithMeans<T>(s: seq<T>, prefix: seq<T>)
    ensures StartsWith(s, prefix) <==> |prefix| <= |s| && forall i | 0 <= i < |prefix| :: s[i] == prefix[i]
  {
  }
}
