/** Row-major addressing, strided views and the two contiguity tests, over unbounded integers. */
module Tensor {
  import opened Remainder

  /** Extents of a shape, or an index tuple, or strides. */
  type Dims = seq<int>

  predicate Positive(d: Dims) {
    forall i | 0 <= i < |d| :: d[i] > 0
  }

  predicate InRange(idx: Dims, d: Dims) {
    |idx| == |d| && forall i | 0 <= i < |d| :: 0 <= idx[i] < d[i]
  }

  function Product(d: Dims): int {
    if d == [] then 1 else d[0] * Product(d[1..])
  }

  /** `TensorShape::num_elements`: a shape without dimensions has no elements. */
  function ElementCount(d: Dims): int {
    if d == [] then 0 else Product(d)
  }

  /** Row-major strides: each is the product of the extents after it. */
  function Strides(d: Dims): (s: Dims)
    ensures |s| == |d|
  {
    if d == [] then [] else [Product(d[1..])] + Strides(d[1..])
  }

  /** The sum that `TensorView::offset` accumulates; the shorter argument decides where it stops. */
  function Dot(idx: Dims, strides: Dims): int {
    if idx == [] || strides == [] then 0
    else idx[0] * strides[0] + Dot(idx[1..], strides[1..])
  }

  /** The row-major offset of an index tuple. */
  function Linear(d: Dims, idx: Dims): int {
    Dot(idx, Strides(d))
  }

  lemma {:induction false} ProductPositive(d: Dims)
    requires Positive(d)
    ensures Product(d) > 0
  {
    if d != [] {
      ProductPositive(d[1..]);
    }
  }

  /** The index tuple at row-major offset `k`. */
  function Unravel(d: Dims, k: int): (idx: Dims)
    requires Positive(d)
    ensures |idx| == |d|
  {
    if d == [] then []
    else
      ProductPositive(d[1..]);
      [k / Product(d[1..])] + Unravel(d[1..], k % Product(d[1..]))
  }

  // ---------------------------------------------------------------- products and strides

  lemma {:induction false} ProductSplit(a: Dims, b: Dims)
    ensures Product(a + b) == Product(a) * Product(b)
  {
    if a == [] {
      assert a + b == b;
    } else {
      assert (a + b)[1..] == a[1..] + b;
      ProductSplit(a[1..], b);
      assert a[0] * (Product(a[1..]) * Product(b)) == a[0] * Product(a[1..]) * Product(b);
    }
  }

  lemma ProductSnoc(a: Dims, x: int)
    ensures Product(a + [x]) == Product(a) * x
  {
    ProductSplit(a, [x]);
    assert Product([x]) == x * Product([x][1..]) == x;
  }

  lemma ProductCons(d: Dims, i: nat)
    requires i < |d|
    ensures Product(d[i..]) == Product(d[i + 1..]) * d[i]
  {
    assert d[i..] == [d[i]] + d[i + 1..];
  }

  lemma {:induction false} StrideAt(d: Dims, i: nat)
    requires i < |d|
    ensures Strides(d)[i] == Product(d[i + 1..])
  {
    if i > 0 {
      StrideAt(d[1..], i - 1);
      assert d[1..][i..] == d[i + 1..];
    }
  }

  // ---------------------------------------------------------------- dot products

  /** Moving one index moves the sum by that many times the stride. */
  lemma {:induction false} DotShift(idx: Dims, strides: Dims, i: nat, delta: int)
    requires i < |idx| == |strides|
    ensures Dot(idx[i := idx[i] + delta], strides) == Dot(idx, strides) + delta * strides[i]
  {
    if i == 0 {
      assert idx[i := idx[i] + delta][1..] == idx[1..];
      assert (idx[0] + delta) * strides[0] == idx[0] * strides[0] + delta * strides[0];
    } else {
      assert idx[i := idx[i] + delta][1..] == idx[1..][i - 1 := idx[i] + delta];
      DotShift(idx[1..], strides[1..], i - 1, delta);
    }
  }

  /** The sum is symmetric in its two arguments. */
  lemma {:induction false} DotSymmetric(a: Dims, b: Dims)
    ensures Dot(a, b) == Dot(b, a)
  {
    if a != [] && b != [] {
      DotSymmetric(a[1..], b[1..]);
    }
  }

  /** Strides may differ where the index is zero. */
  lemma {:induction false} DotAgrees(idx: Dims, s: Dims, t: Dims)
    requires |idx| == |s| == |t|
    requires forall i | 0 <= i < |idx| :: idx[i] == 0 || s[i] == t[i]
    ensures Dot(idx, s) == Dot(idx, t)
  {
    if idx != [] {
      forall i | 0 <= i < |idx| - 1 ensures idx[1..][i] == 0 || s[1..][i] == t[1..][i] {
        assert idx[i + 1] == 0 || s[i + 1] == t[i + 1];
      }
      DotAgrees(idx[1..], s[1..], t[1..]);
      assert idx[0] == 0 || s[0] == t[0];
    }
  }

  function Zeros(n: nat): Dims {
    seq(n, _ => 0)
  }

  lemma {:induction false} DotZeros(n: nat, s: Dims)
    requires n == |s|
    ensures Dot(Zeros(n), s) == 0
  {
    if n > 0 {
      assert Zeros(n)[1..] == Zeros(n - 1);
      DotZeros(n - 1, s[1..]);
    }
  }

  /** A single one picks its stride. */
  lemma DotUnit(n: nat, s: Dims, i: nat)
    requires i < n == |s|
    ensures Dot(Zeros(n)[i := 1], s) == s[i]
  {
    DotZeros(n, s);
    DotShift(Zeros(n), s, i, 1);
  }

  // ---------------------------------------------------------------- the row-major bijection

  /** One more digit in front of a number below `p`. */
  lemma Digit(i: int, n: int, p: int, rest: int)
    requires 0 <= i < n && 0 <= rest < p
    ensures 0 <= i * p + rest < n * p
    ensures (i * p + rest) / p == i && (i * p + rest) % p == rest
  {
    assert (i + 1) * p <= n * p;
    assert i * p >= 0;
    QuotientUnique(i * p + rest, p, i, rest);
  }

  lemma {:induction false} LinearInRange(d: Dims, idx: Dims)
    requires Positive(d) && InRange(idx, d)
    ensures 0 <= Linear(d, idx) < Product(d)
  {
    if d != [] {
      LinearInRange(d[1..], idx[1..]);
      var p := Product(d[1..]);
      assert Strides(d)[1..] == Strides(d[1..]);
      Digit(idx[0], d[0], p, Linear(d[1..], idx[1..]));
    }
  }

  /** Reading off the index of an offset and computing the offset again gives it back. */
  lemma {:induction false} LinearOfUnravel(d: Dims, k: int)
    requires Positive(d) && 0 <= k < Product(d)
    ensures InRange(Unravel(d, k), d) && Linear(d, Unravel(d, k)) == k
  {
    if d != [] {
      var p := Product(d[1..]);
      ProductPositive(d[1..]);
      var q, r := k / p, k % p;
      QuotientBelow(k, d[0], p);
      LinearOfUnravel(d[1..], r);
      var idx := Unravel(d, k);
      assert idx[0] == q && idx[1..] == Unravel(d[1..], r);
      assert Strides(d)[1..] == Strides(d[1..]);
    }
  }

  /** Computing the offset of an index and reading the index off again gives it back. */
  lemma {:induction false} UnravelOfLinear(d: Dims, idx: Dims)
    requires Positive(d) && InRange(idx, d)
    ensures Unravel(d, Linear(d, idx)) == idx
  {
    if d != [] {
      LinearInRange(d[1..], idx[1..]);
      UnravelOfLinear(d[1..], idx[1..]);
      assert Strides(d)[1..] == Strides(d[1..]);
      Digit(idx[0], d[0], Product(d[1..]), Linear(d[1..], idx[1..]));
      assert idx == [idx[0]] + idx[1..];
    }
  }

  /** Row-major offsets number the in-range indices from 0 to the element count, each exactly once. */
  lemma RowMajorBijection(d: Dims)
    requires Positive(d) && d != []
    ensures forall idx: Dims | InRange(idx, d) ::
              0 <= Linear(d, idx) < ElementCount(d) && Unravel(d, Linear(d, idx)) == idx
    ensures forall k | 0 <= k < ElementCount(d) :: InRange(Unravel(d, k), d) && Linear(d, Unravel(d, k)) == k
  {
    forall idx: Dims | InRange(idx, d)
      ensures 0 <= Linear(d, idx) < ElementCount(d) && Unravel(d, Linear(d, idx)) == idx
    {
      LinearInRange(d, idx);
      UnravelOfLinear(d, idx);
    }
    forall k | 0 <= k < ElementCount(d) ensures InRange(Unravel(d, k), d) && Linear(d, Unravel(d, k)) == k {
      LinearOfUnravel(d, k);
    }
  }

  /** Different in-range indices have different offsets. */
  lemma LinearInjective(d: Dims, a: Dims, b: Dims)
    requires Positive(d) && InRange(a, d) && InRange(b, d) && Linear(d, a) == Linear(d, b)
    ensures a == b
  {
    UnravelOfLinear(d, a);
    UnravelOfLinear(d, b);
  }

  /** The order in which nested loops over the extents visit the indices, outermost first. */
  predicate VisitedBefore(a: Dims, b: Dims)
    requires |a| == |b|
  {
    a != [] && (a[0] < b[0] || (a[0] == b[0] && VisitedBefore(a[1..], b[1..])))
  }

  lemma LeadingDigits(x: int, y: int, p: int, r: int, s: int)
    requires 0 <= r < p && 0 <= s < p
    ensures x * p + r < y * p + s <==> x < y || (x == y && r < s)
  {
    Multiple(y - x, p);
    assert y * p - x * p == (y - x) * p;
  }

  /** Offsets are ordered as nested loops visit the indices: the last index varies fastest. */
  lemma {:induction false} LinearFollowsLoops(d: Dims, a: Dims, b: Dims)
    requires Positive(d) && InRange(a, d) && InRange(b, d)
    ensures Linear(d, a) < Linear(d, b) <==> VisitedBefore(a, b)
  {
    if d != [] {
      LinearInRange(d[1..], a[1..]);
      LinearInRange(d[1..], b[1..]);
      LinearFollowsLoops(d[1..], a[1..], b[1..]);
      assert Strides(d)[1..] == Strides(d[1..]);
      LeadingDigits(a[0], b[0], Product(d[1..]), Linear(d[1..], a[1..]), Linear(d[1..], b[1..]));
    }
  }

  // ---------------------------------------------------------------- contiguity

  /** The strided offset is the row-major offset at every in-range index. */
  ghost predicate RowMajorEverywhere(d: Dims, strides: Dims) {
    forall idx: Dims | InRange(idx, d) :: Dot(idx, strides) == Linear(d, idx)
  }

  /** Every stride that matters is the row-major one; an extent of 1 only ever has index 0. */
  predicate RowMajorStrides(d: Dims, strides: Dims)
    requires |d| == |strides|
  {
    forall i | 0 <= i < |d| :: d[i] == 1 || strides[i] == Strides(d)[i]
  }

  /** Right strides address in row-major order; the converse needs a shape that has an index. */
  lemma RowMajorIff(d: Dims, strides: Dims)
    requires |d| == |strides|
    ensures RowMajorStrides(d, strides) ==> RowMajorEverywhere(d, strides)
    ensures Positive(d) && RowMajorEverywhere(d, strides) ==> RowMajorStrides(d, strides)
  {
    if RowMajorStrides(d, strides) {
      forall idx: Dims | InRange(idx, d) ensures Dot(idx, strides) == Linear(d, idx) {
        DotAgrees(idx, strides, Strides(d));
      }
    }
    if Positive(d) && RowMajorEverywhere(d, strides) {
      forall i | 0 <= i < |d| ensures d[i] == 1 || strides[i] == Strides(d)[i] {
        if d[i] != 1 {
          var unit := Zeros(|d|)[i := 1];
          assert InRange(unit, d);
          DotUnit(|d|, strides, i);
          DotUnit(|d|, Strides(d), i);
        }
      }
    }
  }

  // ---------------------------------------------------------------- views

  /** A view: its first element's position in the buffer, its shape and its strides. */
  datatype View = View(base: int, dims: Dims, strides: Dims, contiguousLayout: bool)

  /** The position that `at` reads. */
  function At(v: View, idx: Dims): int {
    v.base + Dot(idx, v.strides)
  }

  /** A tensor seen as a view: row-major over its own buffer. */
  function Whole(d: Dims): View {
    View(0, d, Strides(d), true)
  }

  function Reshape(d: Dims, newDims: Dims): View {
    View(0, newDims, Strides(newDims), true)
  }

  function Slice(d: Dims, dim: nat, start: int, end: int): View
    requires dim < |d|
  {
    var newDims := d[dim := end - start];
    View(start * Strides(d)[dim], newDims, Strides(newDims), true)
  }

  function Swap(s: Dims, i: nat, j: nat): (r: Dims)
    requires i < |s| && j < |s|
    ensures |r| == |s|
  {
    s[i := s[j]][j := s[i]]
  }

  function Transpose(d: Dims, i: nat, j: nat): View
    requires i < |d| && j < |d|
  {
    View(0, Swap(d, i, j), Swap(Strides(d), i, j), false)
  }

  /** What swapping two values that differ by `delta` adds, at strides `x` and `y`. */
  function Gain(delta: int, x: int, y: int): int {
    delta * x + -delta * y
  }

  lemma GainSymmetric(p: int, x: int, dp: int, dx: int)
    ensures Gain(dp, x, x + dx) == Gain(dx, p, p + dp)
  {
    assert Gain(dp, x, x + dx) == -(dp * dx);
    assert Gain(dx, p, p + dp) == -(dx * dp);
  }

  lemma SwapIsShift(a: Dims, i: nat, j: nat, delta: int)
    requires i < |a| && j < |a| && i != j && delta == a[j] - a[i]
    ensures a[i := a[i] + delta][j := a[j] - delta] == Swap(a, i, j)
  {}

  lemma DotShiftTwo(a: Dims, b: Dims, i: nat, j: nat, delta: int)
    requires |a| == |b| && i < |a| && j < |a| && i != j
    ensures Dot(a[i := a[i] + delta][j := a[j] - delta], b) == Dot(a, b) + Gain(delta, b[i], b[j])
  {
    DotShift(a, b, i, delta);
    DotShift(a[i := a[i] + delta], b, j, -delta);
  }

  lemma DotSwapped(a: Dims, b: Dims, i: nat, j: nat, delta: int) returns (swapped: Dims)
    requires |a| == |b| && i < |a| && j < |a| && i != j && delta == a[j] - a[i]
    ensures swapped == Swap(a, i, j)
    ensures Dot(swapped, b) == Dot(a, b) + Gain(delta, b[i], b[j])
  {
    swapped := a[i := a[i] + delta][j := a[j] - delta];
    DotShiftTwo(a, b, i, j, delta);
    SwapIsShift(a, i, j, delta);
  }

  lemma DotSwapDistinct(a: Dims, b: Dims, i: nat, j: nat, da: int, db: int)
    requires |a| == |b| && i < |a| && j < |a| && i != j && da == a[j] - a[i] && db == b[j] - b[i]
    ensures Dot(a, Swap(b, i, j)) == Dot(Swap(a, i, j), b)
  {
    var a' := DotSwapped(a, b, i, j, da);
    var b' := DotSwapped(b, a, i, j, db);
    DotSymmetric(a, b);
    DotSymmetric(a, b');
    GainSymmetric(a[i], b[i], da, db);
    assert a[j] == a[i] + da && b[j] == b[i] + db;
  }

  /** Swapping two positions in both arguments leaves the sum alone. */
  lemma DotSwap(a: Dims, b: Dims, i: nat, j: nat)
    requires |a| == |b| && i < |a| && j < |a|
    ensures Dot(a, Swap(b, i, j)) == Dot(Swap(a, i, j), b)
  {
    if i == j {
      assert Swap(a, i, j) == a && Swap(b, i, j) == b;
    } else {
      DotSwapDistinct(a, b, i, j, a[j] - a[i], b[j] - b[i]);
    }
  }

  /** A transposed view reads the original at the swapped index. */
  lemma TransposeReadsSwapped(d: Dims, i: nat, j: nat, idx: Dims)
    requires i < |d| && j < |d| && InRange(idx, Transpose(d, i, j).dims)
    ensures InRange(Swap(idx, i, j), d)
    ensures At(Transpose(d, i, j), idx) == At(Whole(d), Swap(idx, i, j))
  {
    DotSwap(idx, Strides(d), i, j);
  }

  /** Every element of the original is read, at the swapped index. */
  lemma TransposeCoversAll(d: Dims, i: nat, j: nat, idx: Dims)
    requires i < |d| && j < |d| && InRange(idx, d)
    ensures InRange(Swap(idx, i, j), Transpose(d, i, j).dims)
    ensures At(Transpose(d, i, j), Swap(idx, i, j)) == At(Whole(d), idx)
  {
    TransposeReadsSwapped(d, i, j, Swap(idx, i, j));
    assert Swap(Swap(idx, i, j), i, j) == idx;
  }

  /** A reshaped view meets the elements in the same linear order, each exactly once. */
  lemma ReshapeKeepsOrder(d: Dims, newDims: Dims, idx: Dims)
    requires Positive(d) && Positive(newDims) && d != [] && ElementCount(d) == ElementCount(newDims)
    requires InRange(idx, d)
    ensures var v, other := Reshape(d, newDims), Unravel(newDims, Linear(d, idx));
            && v.dims == newDims && InRange(other, v.dims)
            && At(v, other) == At(Whole(d), idx)
            && (forall x: Dims | InRange(x, v.dims) :: At(v, x) == At(Whole(d), idx) ==> x == other)
  {
    LinearInRange(d, idx);
    ProductPositive(d);
    LinearOfUnravel(newDims, Linear(d, idx));
    var other := Unravel(newDims, Linear(d, idx));
    forall x: Dims | InRange(x, newDims) && At(Reshape(d, newDims), x) == At(Whole(d), idx) ensures x == other {
      LinearInjective(newDims, x, other);
    }
  }

  /** A reshaped view numbers the elements from 0 on, each once, in the order of nested loops over its shape. */
  lemma ReshapeIsBijection(d: Dims, newDims: Dims)
    requires Positive(d) && Positive(newDims) && d != [] && ElementCount(d) == ElementCount(newDims)
    ensures var v := Reshape(d, newDims);
            && Positive(v.dims) && ElementCount(v.dims) == ElementCount(d)
            && (forall idx: Dims | InRange(idx, v.dims) :: 0 <= At(v, idx) < ElementCount(d))
            && (forall k | 0 <= k < ElementCount(d) ::
                  InRange(Unravel(v.dims, k), v.dims) && At(v, Unravel(v.dims, k)) == k)
            && (forall a: Dims, b: Dims | InRange(a, v.dims) && InRange(b, v.dims) ::
                  At(v, a) < At(v, b) <==> VisitedBefore(a, b))
  {
    ProductPositive(d);
    RowMajorBijection(newDims);
    var v := Reshape(d, newDims);
    assert forall idx: Dims :: At(v, idx) == Linear(newDims, idx);
    forall a: Dims, b: Dims | InRange(a, newDims) && InRange(b, newDims)
      ensures At(v, a) < At(v, b) <==> VisitedBefore(a, b)
    {
      LinearFollowsLoops(newDims, a, b);
    }
  }

  predicate ReadsShifted(d: Dims, dim: nat, start: int, end: int, idx: Dims)
    requires dim < |d| == |idx|
  {
    At(Slice(d, dim, start, end), idx) == At(Whole(d), idx[dim := idx[dim] + start])
  }

  /** The slice reads, at every index, the parent at the index shifted by `start`. */
  ghost predicate SliceIsFaithful(d: Dims, dim: nat, start: int, end: int)
    requires dim < |d|
  {
    forall idx: Dims | InRange(idx, Slice(d, dim, start, end).dims) :: ReadsShifted(d, dim, start, end, idx)
  }

  /** A product around one of its factors. */
  lemma ProductAround(d: Dims, lo: nat, dim: nat)
    requires lo <= dim < |d|
    ensures Product(d[lo..]) == (Product(d[lo..dim]) * d[dim]) * Product(d[dim + 1..])
  {
    var a, b := d[lo..dim], d[dim + 1..];
    assert d[lo..] == (a + [d[dim]]) + b;
    ProductSplit(a + [d[dim]], b);
    ProductSnoc(a, d[dim]);
  }

  lemma MulStrict(c: int, x: int, y: int)
    requires c > 0 && x < y
    ensures c * x < c * y && x * c < y * c
  {}

  lemma CancelFactors(a: int, x: int, y: int, b: int)
    requires a > 0 && b > 0
    ensures (a * x) * b == (a * y) * b <==> x == y
  {
    if x < y {
      MulStrict(a, x, y);
      MulStrict(b, a * x, a * y);
    } else if y < x {
      MulStrict(a, y, x);
      MulStrict(b, a * y, a * x);
    }
  }

  /** Shrinking one extent shrinks exactly the strides before it. */
  lemma ShrunkStride(d: Dims, dim: nat, extent: int, i: nat)
    requires Positive(d) && dim < |d| && i < |d|
    ensures Strides(d)[i] == Strides(d[dim := extent])[i] <==> (i >= dim || extent == d[dim])
  {
    var e := d[dim := extent];
    StrideAt(d, i);
    StrideAt(e, i);
    if i >= dim {
      assert d[i + 1..] == e[i + 1..];
    } else {
      var a, b := Product(d[i + 1..dim]), Product(d[dim + 1..]);
      ProductAround(d, i + 1, dim);
      ProductAround(e, i + 1, dim);
      assert d[i + 1..dim] == e[i + 1..dim] && d[dim + 1..] == e[dim + 1..];
      ProductPositive(d[i + 1..dim]);
      ProductPositive(d[dim + 1..]);
      CancelFactors(a, d[dim], extent, b);
    }
  }

  /** When the parent's strides are right for the shrunk shape. */
  lemma ShrunkRowMajorIff(d: Dims, dim: nat, extent: int)
    requires Positive(d) && dim < |d|
    ensures RowMajorStrides(d[dim := extent], Strides(d)) <==>
            extent == d[dim] || forall i | 0 <= i < dim :: d[i] == 1
  {
    var e := d[dim := extent];
    forall i | 0 <= i < |d| ensures Strides(d)[i] == Strides(e)[i] <==> (i >= dim || extent == d[dim]) {
      ShrunkStride(d, dim, extent, i);
    }
    if RowMajorStrides(e, Strides(d)) && extent != d[dim] {
      forall i | 0 <= i < dim ensures d[i] == 1 {
        assert e[i] == d[i];
      }
    }
  }

  lemma SliceAt(d: Dims, dim: nat, start: int, end: int, idx: Dims)
    requires dim < |d| && |idx| == |d|
    ensures ReadsShifted(d, dim, start, end, idx) <==> Dot(idx, Strides(d)) == Linear(d[dim := end - start], idx)
  {
    DotShift(idx, Strides(d), dim, start);
  }

  /** The slice is faithful when the parent's strides address the shrunk shape in row-major order. */
  lemma SliceIsRowMajor(d: Dims, dim: nat, start: int, end: int)
    requires dim < |d|
    ensures SliceIsFaithful(d, dim, start, end) <==> RowMajorEverywhere(d[dim := end - start], Strides(d))
  {
    var newDims := d[dim := end - start];
    if SliceIsFaithful(d, dim, start, end) {
      forall idx: Dims | InRange(idx, newDims) ensures Dot(idx, Strides(d)) == Linear(newDims, idx) {
        assert ReadsShifted(d, dim, start, end, idx);
        SliceAt(d, dim, start, end, idx);
      }
    }
    if RowMajorEverywhere(newDims, Strides(d)) {
      forall idx: Dims | InRange(idx, newDims) ensures ReadsShifted(d, dim, start, end, idx) {
        SliceAt(d, dim, start, end, idx);
      }
    }
  }

  /**
   * Because the view's strides are computed from the shrunk shape, a slice with at least one element
   * is right exactly along the outermost extent that is not 1, or when it is as long as the extent.
   */
  lemma SliceIsFaithfulIff(d: Dims, dim: nat, start: int, end: int)
    requires Positive(d) && dim < |d|
    ensures SliceIsFaithful(d, dim, start, end) <==>
            end <= start || end - start == d[dim] || forall i | 0 <= i < dim :: d[i] == 1
  {
    var newDims := d[dim := end - start];
    var s := Strides(d);
    RowMajorIff(newDims, s);
    SliceIsRowMajor(d, dim, start, end);
    ShrunkRowMajorIff(d, dim, end - start);
  }

  /**
   * The indices of a slice are the parent's indices from `start` up to `end`, shifted, and where the
   * slice is right each of them is read at its shifted index. Along dimension 0 it always is.
   */
  lemma SliceCoversRange(d: Dims, dim: nat, start: int, end: int, idx: Dims)
    requires Positive(d) && dim < |d| == |idx| && 0 <= start <= end <= d[dim]
    ensures var v, shifted := Slice(d, dim, start, end), idx[dim := idx[dim] - start];
            && (InRange(shifted, v.dims) <==> InRange(idx, d) && start <= idx[dim] < end)
            && (InRange(shifted, v.dims) && (dim == 0 || SliceIsFaithful(d, dim, start, end)) ==>
                  At(v, shifted) == At(Whole(d), idx))
  {
    var v, shifted := Slice(d, dim, start, end), idx[dim := idx[dim] - start];
    SliceIsFaithfulIff(d, dim, start, end);
    assert shifted[dim := shifted[dim] + start] == idx;
    if InRange(shifted, v.dims) {
      forall i | 0 <= i < |idx| ensures 0 <= idx[i] < d[i] {
        assert 0 <= shifted[i] < v.dims[i];
      }
      if dim == 0 || SliceIsFaithful(d, dim, start, end) {
        assert ReadsShifted(d, dim, start, end, shifted);
      }
    }
    if InRange(idx, d) && start <= idx[dim] < end {
      forall i | 0 <= i < |idx| ensures 0 <= shifted[i] < v.dims[i] {
        assert 0 <= idx[i] < d[i];
      }
    }
  }

  /** What `TensorView::is_contiguous` reports. */
  predicate SaysContiguous(v: View) {
    v.contiguousLayout && v.strides == Strides(v.dims)
  }

  /**
   * Views made by `reshape` and `slice` report to be contiguous, as the strides of the latter are
   * recomputed; a transposed view never does, not even when two extents of 1 were swapped.
   */
  lemma ContiguityReports(d: Dims, newDims: Dims, dim: nat, start: int, end: int, i: nat, j: nat)
    requires dim < |d| && i < |d| && j < |d|
    ensures SaysContiguous(Whole(d)) && SaysContiguous(Reshape(d, newDims))
    ensures SaysContiguous(Slice(d, dim, start, end))
    ensures !SaysContiguous(Transpose(d, i, j))
  {}

  // ---------------------------------------------------------------- the loops

  /** The loop of `num_elements`. */
  method NumElements(dims: Dims) returns (n: int)
    ensures n == ElementCount(dims)
  {
    if dims == [] {
      return 0;
    }
    n := 1;
    for i := 0 to |dims|
      invariant n == Product(dims[..i])
    {
      ProductSnoc(dims[..i], dims[i]);
      assert dims[..i + 1] == dims[..i] + [dims[i]];
      n := n * dims[i];
    }
    assert dims[..|dims|] == dims;
  }

  /** A bound of `count`: a negative one counts from the end. */
  function Bound(dims: Dims, b: int): int {
    if b < 0 then |dims| + b else b
  }

  /** `TensorShape::count`; a range that is not empty has to lie within the shape. */
  method Count(dims: Dims, start: int, end: int) returns (n: int)
    requires Bound(dims, start) < Bound(dims, end) ==> 0 <= Bound(dims, start) && Bound(dims, end) <= |dims|
    ensures var s, e := Bound(dims, start), Bound(dims, end);
            n == if s < e then Product(dims[s..e]) else 1
  {
    var s := if start < 0 then |dims| + start else start;
    var e := if end < 0 then |dims| + end else end;
    n := 1;
    if s < e {
      for i := s to e
        invariant n == Product(dims[s..i])
      {
        ProductSnoc(dims[s..i], dims[i]);
        assert dims[s..i + 1] == dims[s..i] + [dims[i]];
        n := n * dims[i];
      }
    }
  }

  /** `TensorShape::strides` and `GpuTensor::compute_strides`: filled in from the back. */
  method ComputeStrides(dims: Dims) returns (s: array<int>)
    ensures fresh(s) && s[..] == Strides(dims)
  {
    s := new int[|dims|](_ => 1);
    var i := |dims| - 2;
    while i >= 0
      invariant -2 <= i <= |dims| - 2 && (|dims| > 0 ==> i >= -1)
      invariant forall k | 0 <= k && i < k < |dims| :: s[k] == Product(dims[k + 1..])
    {
      ProductCons(dims, i + 1);
      s[i] := s[i + 1] * dims[i + 1];
      i := i - 1;
    }
    forall k | 0 <= k < |dims| ensures s[k] == Strides(dims)[k] {
      StrideAt(dims, k);
    }
  }

  /** `TensorView::offset`. */
  method Offset(indices: Dims, strides: Dims) returns (offset: int)
    ensures offset == Dot(indices, strides)
  {
    offset := 0;
    var i := 0;
    while i < |indices| && i < |strides|
      invariant 0 <= i <= |indices| && i <= |strides|
      invariant offset + Dot(indices[i..], strides[i..]) == Dot(indices, strides)
    {
      assert indices[i..][1..] == indices[i + 1..] && strides[i..][1..] == strides[i + 1..];
      offset := offset + indices[i] * strides[i];
      i := i + 1;
    }
  }

  /**
   * `GpuTensor::is_contiguous`: true exactly when the strides address in row-major order. A shape
   * with an extent below 1 has no index, so there the strides alone decide.
   */
  method IsContiguous(shape: Dims, strides: Dims) returns (contiguous: bool)
    requires |shape| == |strides|
    ensures contiguous <==> RowMajorStrides(shape, strides)
    ensures contiguous ==> RowMajorEverywhere(shape, strides)
    ensures Positive(shape) ==> (contiguous <==> RowMajorEverywhere(shape, strides))
  {
    RowMajorIff(shape, strides);
    var expected := 1;
    var i := |shape| - 1;
    while i >= 0
      invariant -1 <= i < |shape|
      invariant expected == Product(shape[i + 1..])
      invariant forall k | i < k < |shape| :: shape[k] == 1 || strides[k] == Strides(shape)[k]
    {
      StrideAt(shape, i);
      ProductCons(shape, i);
      if shape[i] != 1 {
        if strides[i] != expected {
          return false;
        }
        expected := expected * shape[i];
      }
      i := i - 1;
    }
    contiguous := true;
  }

  /** `TensorView::is_contiguous`: stricter, as it looks at the layout tag and at extents of 1 too. */
  method ViewIsContiguous(v: View) returns (contiguous: bool)
    requires |v.dims| == |v.strides|
    ensures contiguous <==> SaysContiguous(v)
    ensures contiguous ==> RowMajorEverywhere(v.dims, v.strides)
  {
    if !v.contiguousLayout {
      return false;
    }
    var expected := 1;
    var i := |v.dims| - 1;
    while i >= 0
      invariant -1 <= i < |v.dims|
      invariant expected == Product(v.dims[i + 1..])
      invariant forall k | i < k < |v.dims| :: v.strides[k] == Strides(v.dims)[k]
    {
      StrideAt(v.dims, i);
      ProductCons(v.dims, i);
      if v.strides[i] != expected {
        return false;
      }
      expected := expected * v.dims[i];
      i := i - 1;
    }
    contiguous := true;
  }

  // ---------------------------------------------------------------- fill

  /** `Tensor::fill`: writes one element and then keeps doubling the part that is done. */
  method Fill<T>(data: array<T>, value: T)
    modifies data
    ensures forall k | 0 <= k < data.Length :: data[k] == value
  {
    var n := data.Length;
    if n == 0 {
      return;
    }
    data[0] := value;
    var step := 1;
    while step < n
      invariant step >= 1
      invariant forall k | 0 <= k < n && k < step :: data[k] == value
      decreases n - step
    {
      var copy := if step < n - step then step else n - step;
      forall k | step <= k < step + copy {
        data[k] := data[k - step];
      }
      step := step * 2;
    }
  }
}
