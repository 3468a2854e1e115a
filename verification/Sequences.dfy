/** Lists as sets, and the wrap-around of 64-bit unsigned numbers. */
module Sequences {

  function Elements<T(==)>(s: seq<T>): set<T> {
    set x | x in s
  }

  /** One more element of `all` goes in front of a list that has taken in the first `k`. */
  lemma ElementsMoved<T>(all: seq<T>, k: nat, before: set<T>, list: seq<T>)
    requires k < |all| && Elements(list) == before + Elements(all[..k])
    ensures Elements([all[k]] + list) == before + Elements(all[..k + 1])
  {
    assert all[..k + 1] == all[..k] + [all[k]];
    forall x ensures x in [all[k]] + list <==> x in before || x in all[..k + 1] {
      assert x in list <==> x in Elements(list);
    }
  }

  ghost predicate NoDuplicates<T>(s: seq<T>) {
    forall i, j | 0 <= i < j < |s| :: s[i] != s[j]
  }

  /** `a` is `b` with some entries left out. */
  ghost predicate Subsequence<T>(a: seq<T>, b: seq<T>) {
    if a == [] then true
    else if b == [] then false
    else
      var m, n := |a| - 1, |b| - 1;
      Subsequence(a, b[..n]) || (a[m] == b[n] && Subsequence(a[..m], b[..n]))
  }

  lemma SubsequenceSkip<T>(a: seq<T>, b: seq<T>, x: T)
    requires Subsequence(a, b)
    ensures Subsequence(a, b + [x])
  {
    assert (b + [x])[..|b|] == b;
  }

  lemma SubsequenceTake<T>(a: seq<T>, b: seq<T>, x: T)
    requires Subsequence(a, b)
    ensures Subsequence(a + [x], b + [x])
  {
    assert (b + [x])[..|b|] == b && (a + [x])[..|a|] == a;
  }
}

module Word {

  const TWO_TO_THE_63: nat := 0x8000_0000_0000_0000
  const TWO_TO_THE_64: nat := 0x1_0000_0000_0000_0000

  /** What an unsigned 64-bit variable holds after `n` was stored in it. */
  function Wrapped(n: int): (w: nat)
    ensures w < TWO_TO_THE_64
  {
    n % TWO_TO_THE_64
  }

  /** The difference of two small numbers, as an unsigned variable shows it. */
  lemma WrappedDifference(a: nat, b: nat)
    requires a < TWO_TO_THE_63 && b < TWO_TO_THE_63
    ensures Wrapped(a - b) == if b <= a then a - b else TWO_TO_THE_64 - (b - a)
  {}
}
