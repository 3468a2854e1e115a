/** The grid-stride sum kernel with its in-place tree reduction, over exact arithmetic. */
module Reduction {
  import opened Remainder

  /** The sequential sum, as `ref::sum_f32` adds it up. */
  function Sum(v: seq<real>): real {
    if v == [] then 0.0 else Sum(v[..|v| - 1]) + v[|v| - 1]
  }

  // ---------------------------------------------------------------- sums

  lemma SumSnoc(v: seq<real>, x: real)
    ensures Sum(v + [x]) == Sum(v) + x
  {
    assert (v + [x])[..|v|] == v;
  }

  lemma {:induction false} SumConcat(a: seq<real>, b: seq<real>)
    ensures Sum(a + b) == Sum(a) + Sum(b)
  {
    if b == [] {
      assert a + b == a;
    } else {
      var n := |b| - 1;
      assert a + b == (a + b[..n]) + [b[n]];
      SumConcat(a, b[..n]);
      SumSnoc(a + b[..n], b[n]);
    }
  }

  /** Changing one summand changes the sum by as much. */
  lemma {:induction false} SumUpdate(v: seq<real>, k: nat, delta: real)
    requires k < |v|
    ensures Sum(v[k := v[k] + delta]) == Sum(v) + delta
  {
    var n := |v| - 1;
    var w := v[k := v[k] + delta];
    if k == n {
      assert w[..n] == v[..n];
    } else {
      assert w[..n] == v[..n][k := v[k] + delta];
      SumUpdate(v[..n], k, delta);
    }
  }

  lemma {:induction false} SumZeros(n: nat)
    ensures Sum(seq(n, _ => 0.0)) == 0.0
  {
    if n > 0 {
      assert seq(n, _ => 0.0)[..n - 1] == seq(n - 1, _ => 0.0);
      SumZeros(n - 1);
    }
  }

  // ---------------------------------------------------------------- the tree reduction

  function Pairwise(a: seq<real>, b: seq<real>): (c: seq<real>)
    requires |a| == |b|
    ensures |c| == |a|
  {
    seq(|a|, i requires 0 <= i < |a| => a[i] + b[i])
  }

  /** One round: the lower half takes in the upper half; with an odd length the last value is left over. */
  function Half(v: seq<real>): (h: seq<real>)
    requires |v| >= 2
    ensures |h| == |v| / 2
  {
    var h := |v| / 2;
    Pairwise(v[..h], v[h..2 * h])
  }

  /** What all rounds together leave in the first slot. */
  function TreeSum(v: seq<real>): real
    requires |v| > 0
    decreases |v|
  {
    if |v| == 1 then v[0] else TreeSum(Half(v))
  }

  predicate IsPowerOfTwo(n: nat) {
    n == 1 || (n > 1 && n % 2 == 0 && IsPowerOfTwo(n / 2))
  }

  lemma {:induction false} PairwiseSum(a: seq<real>, b: seq<real>)
    requires |a| == |b|
    ensures Sum(Pairwise(a, b)) == Sum(a) + Sum(b)
  {
    if a != [] {
      var n := |a| - 1;
      assert Pairwise(a, b)[..n] == Pairwise(a[..n], b[..n]);
      PairwiseSum(a[..n], b[..n]);
    }
  }

  /** A round over an even number of values keeps their sum. */
  lemma HalfKeepsSum(v: seq<real>)
    requires |v| >= 2 && |v| % 2 == 0
    ensures Sum(Half(v)) == Sum(v)
  {
    var h := |v| / 2;
    var a, b := v[..h], v[h..2 * h];
    assert v == a + b;
    PairwiseSum(a, b);
    SumConcat(a, b);
  }

  lemma {:induction false} TreeSumIsSum(v: seq<real>)
    requires IsPowerOfTwo(|v|)
    ensures TreeSum(v) == Sum(v)
    decreases |v|
  {
    if |v| > 1 {
      HalfKeepsSum(v);
      TreeSumIsSum(Half(v));
    } else {
      assert v == [] + [v[0]];
      SumSnoc([], v[0]);
    }
  }

  lemma {:induction false} TreeSumOfZeros(n: nat)
    requires n > 0
    ensures TreeSum(seq(n, _ => 0.0)) == 0.0
    decreases n
  {
    if n > 1 {
      assert Half(seq(n, _ => 0.0)) == seq(n / 2, _ => 0.0);
      TreeSumOfZeros(n / 2);
    }
  }

  /** With an odd length the first round drops the last value. */
  lemma OddDropsLast(n: nat) returns (v: seq<real>)
    requires n >= 3 && n % 2 == 1
    ensures |v| == n && TreeSum(v) != Sum(v)
  {
    var zeros := seq(n - 1, _ => 0.0);
    v := zeros + [1.0];
    assert Half(v) == seq(n / 2, _ => 0.0);
    TreeSumOfZeros(n / 2);
    SumZeros(n - 1);
    SumSnoc(zeros, 1.0);
  }

  /** An input that goes wrong, padded with zeros to twice its length, still goes wrong. */
  lemma PaddingKeepsWrong(w: seq<real>) returns (v: seq<real>)
    requires |w| > 0 && TreeSum(w) != Sum(w)
    ensures |v| == 2 * |w| && TreeSum(v) != Sum(v)
  {
    var zeros := seq(|w|, _ => 0.0);
    v := w + zeros;
    assert v[..|w|] == w && v[|w|..2 * |w|] == zeros;
    assert Half(v) == w;
    SumZeros(|w|);
    SumConcat(w, zeros);
  }

  /** For any length that is not a power of two some value is dropped in some round. */
  lemma {:induction false} TreeSumDropsAValue(n: nat) returns (v: seq<real>)
    requires n > 0 && !IsPowerOfTwo(n)
    ensures |v| == n && TreeSum(v) != Sum(v)
    decreases n
  {
    if n % 2 == 1 {
      v := OddDropsLast(n);
    } else {
      v := TreeSumDropsAValue(n / 2);
      v := PaddingKeepsWrong(v);
    }
  }

  /** The tree reduction computes the sum of every input exactly when the block size is a power of two. */
  lemma TreeNeedsPowerOfTwo(n: nat)
    requires n > 0
    ensures (forall v: seq<real> | |v| == n :: TreeSum(v) == Sum(v)) <==> IsPowerOfTwo(n)
  {
    if IsPowerOfTwo(n) {
      forall v: seq<real> | |v| == n ensures TreeSum(v) == Sum(v) {
        TreeSumIsSum(v);
      }
    } else {
      var v := TreeSumDropsAValue(n);
    }
  }

  /** The thread numbers below `n`. */
  function Threads(n: nat): (s: set<nat>)
    ensures forall t: nat :: t in s <==> t < n
  {
    if n == 0 then {} else Threads(n - 1) + {n - 1}
  }

  method Round(shared: array<real>, s: nat)
    requires 2 * s <= shared.Length
    modifies shared
    ensures shared[..s] == Pairwise(old(shared[..s]), old(shared[s..2 * s]))
  {
    var waiting := Threads(s);
    while waiting != {}
      invariant forall tid | tid in waiting :: tid < s
      invariant forall i | 0 <= i < s :: shared[i] == old(shared[i]) + if i in waiting then 0.0 else old(shared[i + s])
      invariant forall i | s <= i < shared.Length :: shared[i] == old(shared[i])
      decreases waiting
    {
      var tid :| tid in waiting;
      shared[tid] := shared[tid] + shared[tid + s];
      waiting := waiting - {tid};
    }
  }

  /**
   * `block_reduce_sum`. Between two barriers the threads below `s` run in an arbitrary order; the
   * result is the same for all of them.
   */
  method BlockReduceSum(shared: array<real>) returns (sum: real)
    requires shared.Length > 0
    modifies shared
    ensures sum == TreeSum(old(shared[..]))
  {
    ghost var live := shared.Length;
    assert shared[..live] == shared[..];
    var s := shared.Length / 2;
    while s > 0
      invariant 1 <= live <= shared.Length && s == live / 2
      invariant TreeSum(shared[..live]) == TreeSum(old(shared[..]))
      decreases s
    {
      ghost var before := shared[..live];
      assert before[..s] == shared[..s] && before[s..2 * s] == shared[s..2 * s];
      Round(shared, s);
      assert shared[..s] == Half(before);
      live := s;
      s := s / 2;
    }
    assert shared[..1] == [shared[0]];
    sum := shared[0];
  }

  // ---------------------------------------------------------------- which thread adds which index

  /** The first index of thread `t` of block `b`, with `B` threads in a block. */
  function First(b: nat, t: nat, B: nat): nat {
    b * (2 * B) + t
  }

  function Stride(B: nat, G: nat): nat {
    G * (2 * B)
  }

  /** The thread whose first index is `base` adds index `i`, as the first or the second of a pair. */
  predicate Adds(i: nat, base: nat, B: nat, stride: nat)
    requires stride > 0
  {
    Rem(i, stride) == base || Rem(i, stride) == base + B
  }

  /** The sum over the indices of one thread. */
  function ThreadTotal(v: seq<real>, base: nat, B: nat, stride: nat): real
    requires stride > 0
  {
    if v == [] then 0.0
    else
      var n := |v| - 1;
      ThreadTotal(v[..n], base, B, stride) + if Adds(n, base, B, stride) then v[n] else 0.0
  }

  lemma FirstInStride(b: nat, t: nat, B: nat, G: nat)
    requires b < G && t < B
    ensures First(b, t, B) + B < Stride(B, G)
  {
    var k := G - 1 - b;
    assert Stride(B, G) == (b + 1 + k) * (2 * B) == b * (2 * B) + 2 * B + k * (2 * B);
  }

  /** Two (block, thread) pairs with the same first index are the same pair. */
  lemma PairUnique(b: nat, r: nat, b': nat, r': nat, w: nat)
    requires r < w && r' < w && b * w + r == b' * w + r'
    ensures b == b' && r == r'
  {
    Multiple(b - b', w);
    assert (b - b') * w == r' - r;
  }

  /** Quotient and remainder of a number below `G * w`. */
  lemma Decompose(r: nat, G: nat, w: nat) returns (b: nat, x: nat)
    requires w > 0 && r < G * w
    ensures b < G && x < w && r == b * w + x
  {
    QuotientBelow(r, G, w);
    b, x := r / w, r % w;
  }

  /** Every index has exactly one thread that adds it. */
  lemma OneThreadPerIndex(i: nat, B: nat, G: nat) returns (b: nat, t: nat)
    requires B > 0 && Stride(B, G) > 0
    ensures b < G && t < B && Adds(i, First(b, t, B), B, Stride(B, G))
    ensures forall b': nat, t': nat | b' < G && t' < B && Adds(i, First(b', t', B), B, Stride(B, G)) ::
              b' == b && t' == t
  {
    var r := Rem(i, Stride(B, G));
    var x: nat;
    b, x := Decompose(r, G, 2 * B);
    t := if x < B then x else x - B;
    forall b': nat, t': nat | b' < G && t' < B && Adds(i, First(b', t', B), B, Stride(B, G))
      ensures b' == b && t' == t
    {
      PairUnique(b, x, b', if r == First(b', t', B) then t' else t' + B, 2 * B);
    }
  }

  // ---------------------------------------------------------------- one thread

  /** Moving on by less than a stride, a thread meets one more index of its own: `B` further. */
  lemma NextOwn(i: nat, d: nat, base: nat, B: nat, stride: nat)
    requires base + B < stride && d < stride && Rem(i, stride) == base
    ensures Adds(i + d, base, B, stride) <==> d == 0 || d == B
  {
    RemShift(i, d, stride);
  }

  /** Where the thread adds nothing, its total does not move. */
  lemma {:induction false} NothingBetween(v: seq<real>, lo: nat, hi: nat, base: nat, B: nat, stride: nat)
    requires stride > 0 && lo <= hi <= |v|
    requires forall j: nat | lo <= j < hi :: !Adds(j, base, B, stride)
    ensures ThreadTotal(v[..hi], base, B, stride) == ThreadTotal(v[..lo], base, B, stride)
    decreases hi
  {
    if lo < hi {
      assert v[..hi][..hi - 1] == v[..hi - 1];
      NothingBetween(v, lo, hi - 1, base, B, stride);
    }
  }

  /** The total over a prefix that may be asked to run past the end. */
  function UpTo(v: seq<real>, i: nat): seq<real> {
    if i <= |v| then v[..i] else v
  }

  /** From one own index up to the next, the total grows by one value. */
  lemma Segment(v: seq<real>, lo: nat, hi: nat, base: nat, B: nat, stride: nat)
    requires stride > 0 && lo < hi <= |v| && Adds(lo, base, B, stride)
    requires forall j: nat | lo < j < hi :: !Adds(j, base, B, stride)
    ensures ThreadTotal(v[..hi], base, B, stride) == ThreadTotal(v[..lo], base, B, stride) + v[lo]
  {
    NothingBetween(v, lo + 1, hi, base, B, stride);
    assert v[..lo + 1][..lo] == v[..lo];
  }

  /** Within a stride from an own first index, the own indices are that one and its partner. */
  lemma OwnWithinStride(i: nat, base: nat, B: nat, stride: nat)
    requires base + B < stride && Rem(i, stride) == base
    ensures forall j: nat | i <= j < i + stride :: Adds(j, base, B, stride) <==> j == i || j == i + B
  {
    forall j: nat | i <= j < i + stride ensures Adds(j, base, B, stride) <==> j == i || j == i + B {
      NextOwn(i, j - i, base, B, stride);
    }
  }

  /** One turn of the loop adds the pair at `i` and covers a whole stride. */
  lemma OneTurn(v: seq<real>, i: nat, base: nat, B: nat, stride: nat)
    requires 0 < B && base + B < stride && i < |v| && Rem(i, stride) == base
    ensures ThreadTotal(UpTo(v, i + stride), base, B, stride) ==
            ThreadTotal(v[..i], base, B, stride) + v[i] + if i + B < |v| then v[i + B] else 0.0
  {
    var end := if i + stride <= |v| then i + stride else |v|;
    OwnWithinStride(i, base, B, stride);
    assert UpTo(v, i + stride) == v[..end];
    if i + B < |v| {
      Segment(v, i, i + B, base, B, stride);
      Segment(v, i + B, end, base, B, stride);
    } else {
      Segment(v, i, end, base, B, stride);
    }
  }

  lemma BeforeFirst(v: seq<real>, base: nat, B: nat, stride: nat)
    requires base + B < stride
    ensures Rem(base, stride) == base
    ensures ThreadTotal(UpTo(v, base), base, B, stride) == 0.0
  {
    var end := if base <= |v| then base else |v|;
    NothingBetween(v, 0, end, base, B, stride);
    assert UpTo(v, base) == v[..end] && v[..0] == [];
  }

  /** The grid-stride loop of one thread, two indices a turn. */
  method ThreadSum(v: seq<real>, b: nat, t: nat, B: nat, G: nat) returns (sum: real)
    requires b < G && t < B
    ensures Stride(B, G) > 0 && sum == ThreadTotal(v, First(b, t, B), B, Stride(B, G))
  {
    FirstInStride(b, t, B, G);
    var base, stride := First(b, t, B), Stride(B, G);
    sum := 0.0;
    var i := base;
    BeforeFirst(v, base, B, stride);
    while i < |v|
      invariant Rem(i, stride) == base
      invariant sum == ThreadTotal(UpTo(v, i), base, B, stride)
      decreases |v| - i
    {
      OneTurn(v, i, base, B, stride);
      sum := sum + v[i];
      if i + B < |v| {
        sum := sum + v[i + B];
      }
      RemShift(i, stride, stride);
      i := i + stride;
    }
    assert UpTo(v, i) == v;
  }

  // ---------------------------------------------------------------- the whole grid

  /** What the threads of block `b` hand to the tree reduction. */
  function Partials(v: seq<real>, b: nat, B: nat, G: nat): seq<real>
    requires Stride(B, G) > 0
  {
    seq(B, t requires 0 <= t < B => ThreadTotal(v, First(b, t, B), B, Stride(B, G)))
  }

  /** What the blocks write. */
  function BlockSums(v: seq<real>, B: nat, G: nat): seq<real>
    requires Stride(B, G) > 0
  {
    seq(G, b requires 0 <= b < G => Sum(Partials(v, b, B, G)))
  }

  lemma OneMoreInBlock(v: seq<real>, x: real, b: nat, b0: nat, t0: nat, B: nat, G: nat)
    requires Stride(B, G) > 0 && b < G && b0 < G && t0 < B
    requires forall t: nat | t < B :: Adds(|v|, First(b, t, B), B, Stride(B, G)) <==> b == b0 && t == t0
    ensures Sum(Partials(v + [x], b, B, G)) == Sum(Partials(v, b, B, G)) + if b == b0 then x else 0.0
  {
    var w := v + [x];
    assert w[..|v|] == v;
    var p := Partials(v, b, B, G);
    if b == b0 {
      SumUpdate(p, t0, x);
      assert Partials(w, b, B, G) == p[t0 := p[t0] + x];
    } else {
      assert Partials(w, b, B, G) == p;
    }
  }

  /** One more index changes one thread's total, hence one block's sum. */
  lemma OneMoreIndex(v: seq<real>, x: real, B: nat, G: nat)
    requires B > 0 && Stride(B, G) > 0
    ensures Sum(BlockSums(v + [x], B, G)) == Sum(BlockSums(v, B, G)) + x
  {
    var w := v + [x];
    assert w[..|v|] == v;
    var b0, t0 := OneThreadPerIndex(|v|, B, G);
    forall b: nat | b < G
      ensures Sum(Partials(w, b, B, G)) == Sum(Partials(v, b, B, G)) + if b == b0 then x else 0.0
    {
      OneMoreInBlock(v, x, b, b0, t0, B, G);
    }
    var s := BlockSums(v, B, G);
    SumUpdate(s, b0, x);
    assert BlockSums(w, B, G) == s[b0 := s[b0] + x];
  }

  /** The block sums add up to the sequential sum, for every length, grid and block size. */
  lemma {:induction false} GridCoversAll(v: seq<real>, B: nat, G: nat)
    requires B > 0 && Stride(B, G) > 0
    ensures Sum(BlockSums(v, B, G)) == Sum(v)
  {
    if v == [] {
      assert forall b: nat | b < G :: Partials(v, b, B, G) == seq(B, _ => 0.0);
      SumZeros(B);
      assert BlockSums(v, B, G) == seq(G, _ => 0.0);
      SumZeros(G);
    } else {
      var n := |v| - 1;
      GridCoversAll(v[..n], B, G);
      OneMoreIndex(v[..n], v[n], B, G);
      assert v == v[..n] + [v[n]];
    }
  }

  /** One block of `sum_kernel`; its threads fill the shared array in an arbitrary order. */
  method RunBlock(v: seq<real>, b: nat, B: nat, G: nat) returns (sum: real)
    requires b < G && B > 0 && Stride(B, G) > 0
    ensures sum == TreeSum(Partials(v, b, B, G))
  {
    var shared := new real[B];
    var waiting := Threads(B);
    while waiting != {}
      invariant forall t | t in waiting :: t < B
      invariant forall t | 0 <= t < B && t !in waiting :: shared[t] == ThreadTotal(v, First(b, t, B), B, Stride(B, G))
      decreases waiting
    {
      var tid :| tid in waiting;
      shared[tid] := ThreadSum(v, b, tid, B, G);
      waiting := waiting - {tid};
    }
    assert shared[..] == Partials(v, b, B, G);
    sum := BlockReduceSum(shared);
  }

  /** What the kernel writes: every block's partial sums, reduced as a tree. */
  function KernelOutputs(v: seq<real>, B: nat, G: nat): (s: seq<real>)
    requires B > 0 && Stride(B, G) > 0
    ensures |s| == G
  {
    seq(G, b requires 0 <= b < G => TreeSum(Partials(v, b, B, G)))
  }

  lemma OutputsAreBlockSums(v: seq<real>, B: nat, G: nat)
    requires Stride(B, G) > 0 && IsPowerOfTwo(B)
    ensures KernelOutputs(v, B, G) == BlockSums(v, B, G)
  {
    forall b: nat | b < G ensures TreeSum(Partials(v, b, B, G)) == Sum(Partials(v, b, B, G)) {
      TreeSumIsSum(Partials(v, b, B, G));
    }
  }

  /** One value per thread of the first block: that block sees the input itself, the others zeros. */
  lemma FirstBlockOnly(v: seq<real>, b: nat, t: nat, B: nat, G: nat)
    requires |v| == B && b < G && t < B
    ensures Stride(B, G) > 0
    ensures ThreadTotal(v, First(b, t, B), B, Stride(B, G)) == if b == 0 then v[t] else 0.0
  {
    FirstInStride(b, t, B, G);
    var base, stride := First(b, t, B), Stride(B, G);
    FirstInStride(0, 0, B, G);
    if b == 0 {
      NothingBetween(v, 0, t, base, B, stride);
      Segment(v, t, B, base, B, stride);
      assert v[..B] == v && v[..0] == [];
    } else {
      Multiple(b, 2 * B);
      NothingBetween(v, 0, B, base, B, stride);
      assert v[..B] == v && v[..0] == [];
    }
  }

  /** On every grid, a block size that is no power of two gets some input wrong. */
  lemma KernelDropsAValue(B: nat, G: nat) returns (v: seq<real>)
    requires B > 0 && G > 0 && !IsPowerOfTwo(B)
    ensures Stride(B, G) > 0 && Sum(KernelOutputs(v, B, G)) != Sum(v)
  {
    v := TreeSumDropsAValue(B);
    FirstInStride(0, 0, B, G);
    forall b: nat, t: nat | b < G && t < B
      ensures ThreadTotal(v, First(b, t, B), B, Stride(B, G)) == if b == 0 then v[t] else 0.0
    {
      FirstBlockOnly(v, b, t, B, G);
    }
    assert Partials(v, 0, B, G) == v;
    forall b: nat | 0 < b < G ensures TreeSum(Partials(v, b, B, G)) == 0.0 {
      assert Partials(v, b, B, G) == seq(B, _ => 0.0);
      TreeSumOfZeros(B);
    }
    var zeros := seq(G, _ => 0.0);
    assert KernelOutputs(v, B, G) == zeros[0 := zeros[0] + TreeSum(v)];
    SumZeros(G);
    SumUpdate(zeros, 0, TreeSum(v));
  }

  /** On every grid the kernel sums up every input exactly when the block size is a power of two. */
  lemma KernelNeedsPowerOfTwo(B: nat, G: nat)
    requires B > 0 && G > 0
    ensures Stride(B, G) > 0
    ensures (forall v: seq<real> :: Sum(KernelOutputs(v, B, G)) == Sum(v)) <==> IsPowerOfTwo(B)
  {
    FirstInStride(0, 0, B, G);
    if IsPowerOfTwo(B) {
      forall v: seq<real> ensures Sum(KernelOutputs(v, B, G)) == Sum(v) {
        OutputsAreBlockSums(v, B, G);
        GridCoversAll(v, B, G);
      }
    } else {
      var v := KernelDropsAValue(B, G);
    }
  }

  /** `sum_kernel` on a grid: with a power-of-two block size the outputs add up to the input's sum. */
  method SumKernel(v: seq<real>, out: array<real>, B: nat)
    requires B > 0 && out.Length > 0
    modifies out
    ensures Stride(B, out.Length) > 0 && out[..] == KernelOutputs(v, B, out.Length)
    ensures IsPowerOfTwo(B) ==> Sum(out[..]) == Sum(v)
  {
    var G := out.Length;
    FirstInStride(0, 0, B, G);
    var waiting := Threads(G);
    while waiting != {}
      invariant forall b | b in waiting :: b < G
      invariant forall b | 0 <= b < G && b !in waiting :: out[b] == TreeSum(Partials(v, b, B, G))
      decreases waiting
    {
      var b :| b in waiting;
      out[b] := RunBlock(v, b, B, G);
      waiting := waiting - {b};
    }
    assert out[..] == KernelOutputs(v, B, G);
    if IsPowerOfTwo(B) {
      OutputsAreBlockSums(v, B, G);
      GridCoversAll(v, B, G);
    }
  }

  // ---------------------------------------------------------------- the sequential references

  method RefSum(data: seq<real>) returns (result: real)
    ensures result == Sum(data)
  {
    result := 0.0;
    for i := 0 to |data|
      invariant result == Sum(data[..i])
    {
      SumSnoc(data[..i], data[i]);
      assert data[..i + 1] == data[..i] + [data[i]];
      result := result + data[i];
    }
    assert data[..|data|] == data;
  }
}
