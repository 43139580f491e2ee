/** The suffix search `while (occupied[base + index]) index++` that the
    asset merge runs for display names and for ids: the smallest number
    whose decimal form, appended to the base, is not yet occupied. */
module Suffix {
  import opened Text

  /** `base + 0`, ..., `base + (n - 1)` are all occupied. */
  predicate Taken(base: string, occupied: set<string>, n: nat) {
    forall j :: 0 <= j < n ==> base + NatStr(j) in occupied
  }

  /** Appending different numbers to one base gives different strings. */
  lemma SuffixInjective(base: string, a: nat, b: nat)
    ensures base + NatStr(a) == base + NatStr(b) ==> a == b
  {
    if base + NatStr(a) == base + NatStr(b) {
      assert NatStr(a) == (base + NatStr(a))[|base|..];
      assert NatStr(b) == (base + NatStr(b))[|base|..];
      NatStrInjective(a, b);
    }
  }

  /** Only finitely many suffixed names can be occupied: if the first `n`
      are, the occupied set has at least `n` elements. This is what makes
      the suffix search terminate. */
  lemma {:induction false} TakenBound(base: string, occupied: set<string>, n: nat)
    requires Taken(base, occupied, n)
    ensures n <= |occupied|
  {
    if n > 0 {
      var last := base + NatStr(n - 1);
      var rest := occupied - {last};
      forall j | 0 <= j < n - 1
        ensures base + NatStr(j) in rest
      {
        SuffixInjective(base, j, n - 1);
      }
      TakenBound(base, rest, n - 1);
    }
  }

  /** The suffix search, started at `from`: the least `i >= from` such that
      `base + i` is free. Since every smaller suffix is taken, it is the
      least free suffix overall. */
  function FirstFree(base: string, occupied: set<string>, from: nat): (i: nat)
    requires Taken(base, occupied, from)
    ensures from <= i
    ensures base + NatStr(i) !in occupied
    ensures Taken(base, occupied, i)
    decreases |occupied| - from
  {
    if base + NatStr(from) in occupied then
      TakenBound(base, occupied, from + 1);
      FirstFree(base, occupied, from + 1)
    else
      from
  }

  /** The free suffix is unique: any `i` that is free with every smaller
      suffix taken is the one `FirstFree` finds. */
  lemma FirstFreeUnique(base: string, occupied: set<string>, i: nat)
    requires base + NatStr(i) !in occupied
    requires Taken(base, occupied, i)
    ensures FirstFree(base, occupied, 0) == i
  {
  }

  /** A suffixed name ends in a digit, so it is never the base itself and
      never a string whose last character is not a digit. */
  lemma SuffixedEndsInDigit(base: string, i: nat)
    ensures |base + NatStr(i)| > |base|
    ensures IsDigit((base + NatStr(i))[|base + NatStr(i)| - 1])
  {
    var s := NatStr(i);
    assert (base + s)[|base + s| - 1] == s[|s| - 1];
  }
}
