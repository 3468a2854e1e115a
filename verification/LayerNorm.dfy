/** The one-pass LayerNorm kernel against the two-pass reference, over exact arithmetic. */
module LayerNorm {
  import opened Reduction
  import opened Remainder

  /** An optional per-column vector: the pointer may be null. */
  datatype Vector = Null | Values(v: seq<real>)

  /** The parameters of the layer; `invSqrt` stands for the inverse square root, which both versions share. */
  datatype Layer = Layer(weight: Vector, bias: Vector, eps: real, invSqrt: real -> real)

  predicate Fits(w: Vector, cols: nat) {
    w.Values? ==> |w.v| == cols
  }

  function Entry(w: Vector, c: nat, default: real): real
    requires w.Values? ==> c < |w.v|
  {
    if w.Null? then default else w.v[c]
  }

  function Square(a: real): real {
    a * a
  }

  function Squares(x: seq<real>): (s: seq<real>)
    ensures |s| == |x|
  {
    seq(|x|, i requires 0 <= i < |x| => Square(x[i]))
  }

  /** The sum of the squared deviations from `m`, in the order of the reference loop. */
  function SquaredDeviations(x: seq<real>, m: real): real {
    if x == [] then 0.0
    else SquaredDeviations(x[..|x| - 1], m) + Square(x[|x| - 1] - m)
  }

  function Mean(x: seq<real>): real
    requires x != []
  {
    Sum(x) / |x| as real
  }

  /** The two-pass variance of `ref::var_f32` and of the reference normalisation. */
  function Variance(x: seq<real>): real
    requires x != []
  {
    SquaredDeviations(x, Mean(x)) / |x| as real
  }

  function NormalizedEntry(a: real, mean: real, invStd: real, w: real, b: real): real {
    (a - mean) * invStd * w + b
  }

  /** Column `c` of a row that is centred at `mean` and scaled by `invStd`. */
  function Normalized(x: seq<real>, mean: real, invStd: real, layer: Layer, c: nat): real
    requires c < |x| && Fits(layer.weight, |x|) && Fits(layer.bias, |x|)
  {
    NormalizedEntry(x[c], mean, invStd, Entry(layer.weight, c, 1.0), Entry(layer.bias, c, 0.0))
  }

  /** One row, normalised by its mean and its two-pass variance. */
  function NormalizedRow(x: seq<real>, layer: Layer): (y: seq<real>)
    requires x != [] && Fits(layer.weight, |x|) && Fits(layer.bias, |x|)
    ensures |y| == |x|
  {
    var mean, invStd := Mean(x), layer.invSqrt(Variance(x) + layer.eps);
    seq(|x|, c requires 0 <= c < |x| => Normalized(x, mean, invStd, layer, c))
  }

  // ---------------------------------------------------------------- what normalising means

  /** The layer without weight and bias. */
  function Plain(layer: Layer): Layer {
    layer.(weight := Null, bias := Null)
  }

  function Times(a: real, s: real): real {
    a * s
  }

  lemma DistributeSum(a: real, b: real, s: real)
    ensures Times(a + b, s) == Times(a, s) + Times(b, s)
  {}

  /** `y` is `x` shifted by `-m` and scaled by `s`. */
  ghost predicate Scaled(x: seq<real>, y: seq<real>, m: real, s: real) {
    |x| == |y| && forall c | 0 <= c < |x| :: y[c] == Times(x[c] - m, s)
  }

  lemma {:induction false} SumScaled(x: seq<real>, y: seq<real>, m: real, s: real)
    requires Scaled(x, y, m, s)
    ensures Sum(y) == Times(Sum(x) - Times(|x| as real, m), s)
  {
    if x != [] {
      var n := |x| - 1;
      SumScaled(x[..n], y[..n], m, s);
      DistributeSum(n as real, 1.0, m);
      DistributeSum(Sum(x[..n]) - Times(n as real, m), x[n] - m, s);
    }
  }

  lemma SquareOfProduct(a: real, s: real)
    ensures Square(Times(a, s)) == Times(Square(a), Square(s))
  {}

  lemma {:induction false} DeviationsScaled(x: seq<real>, y: seq<real>, m: real, s: real)
    requires Scaled(x, y, m, s)
    ensures SquaredDeviations(y, 0.0) == Times(SquaredDeviations(x, m), Square(s))
  {
    if x != [] {
      var n := |x| - 1;
      DeviationsScaled(x[..n], y[..n], m, s);
      SquareOfProduct(x[n] - m, s);
      assert Square(y[n] - 0.0) == Times(Square(x[n] - m), Square(s));
      DistributeSum(SquaredDeviations(x[..n], m), Square(x[n] - m), Square(s));
    }
  }

  lemma DivideProduct(a: real, b: real, n: real)
    requires n != 0.0
    ensures Times(a, b) / n == a / n * b
  {}

  /** Centred at its mean and scaled, a row has mean 0 and a variance scaled by the square. */
  lemma ScaledStatistics(x: seq<real>, y: seq<real>, s: real)
    requires x != [] && Scaled(x, y, Mean(x), s)
    ensures Mean(y) == 0.0 && Variance(y) == Variance(x) * Square(s)
  {
    SumScaled(x, y, Mean(x), s);
    assert Times(|x| as real, Mean(x)) == Sum(x);
    DeviationsScaled(x, y, Mean(x), s);
    DivideProduct(SquaredDeviations(x, Mean(x)), Square(s), |x| as real);
  }

  /**
   * A normalised row without weight and bias has mean 0, and its variance is that of the input
   * scaled by the square of the factor that `invSqrt` gives for it.
   */
  lemma PlainRowIsStandardized(x: seq<real>, layer: Layer)
    requires x != []
    ensures var y, s := NormalizedRow(x, Plain(layer)), layer.invSqrt(Variance(x) + layer.eps);
            Mean(y) == 0.0 && Variance(y) == Variance(x) * Square(s)
  {
    var y, s := NormalizedRow(x, Plain(layer)), layer.invSqrt(Variance(x) + layer.eps);
    assert Scaled(x, y, Mean(x), s);
    ScaledStatistics(x, y, s);
  }

  /** In column `c`, `y` is `plain` times the weight plus the bias; a missing one changes nothing. */
  predicate IsAffine(layer: Layer, c: nat, plain: real, y: real)
    requires (layer.weight.Values? ==> c < |layer.weight.v|) && (layer.bias.Values? ==> c < |layer.bias.v|)
  {
    match (layer.weight, layer.bias)
    case (Null, Null) => y == plain
    case (Values(w), Null) => y == plain * w[c]
    case (Null, Values(b)) => y == plain + b[c]
    case (Values(w), Values(b)) => y == plain * w[c] + b[c]
  }

  lemma RowIsAffine(x: seq<real>, layer: Layer, c: nat)
    requires c < |x| && Fits(layer.weight, |x|) && Fits(layer.bias, |x|)
    ensures IsAffine(layer, c, NormalizedRow(x, Plain(layer))[c], NormalizedRow(x, layer)[c])
  {}

  /**
   * `y` is the row `x` centred at its mean and scaled by the inverse square root of its variance,
   * which makes `plain` with mean 0, and then weighted and biased column by column.
   */
  ghost predicate IsLayerNormOf(x: seq<real>, plain: seq<real>, y: seq<real>, layer: Layer)
    requires x != [] && Fits(layer.weight, |x|) && Fits(layer.bias, |x|)
  {
    var s := layer.invSqrt(Variance(x) + layer.eps);
    && |plain| == |y| == |x| && Scaled(x, plain, Mean(x), s)
    && Mean(plain) == 0.0 && Variance(plain) == Variance(x) * Square(s)
    && forall c | 0 <= c < |x| :: IsAffine(layer, c, plain[c], y[c])
  }

  lemma NormalizedMeans(x: seq<real>, layer: Layer)
    requires x != [] && Fits(layer.weight, |x|) && Fits(layer.bias, |x|)
    ensures IsLayerNormOf(x, NormalizedRow(x, Plain(layer)), NormalizedRow(x, layer), layer)
  {
    PlainRowIsStandardized(x, layer);
    forall c | 0 <= c < |x| ensures IsAffine(layer, c, NormalizedRow(x, Plain(layer))[c], NormalizedRow(x, layer)[c]) {
      RowIsAffine(x, layer, c);
    }
  }

  // ---------------------------------------------------------------- one pass equals two passes

  /** The sum of n squared deviations from `m`, when the values sum up to `s` and their squares to `q`. */
  function Expansion(q: real, s: real, m: real, n: real): real {
    q - 2.0 * m * s + n * Square(m)
  }

  lemma Expand(a: real, m: real)
    ensures Square(a - m) == Square(a) - 2.0 * m * a + Square(m)
  {}

  lemma Collect(s: real, a: real, m: real, n: nat)
    ensures 2.0 * m * (s + a) == 2.0 * m * s + 2.0 * m * a
    ensures (n + 1) as real * Square(m) == n as real * Square(m) + Square(m)
  {}

  /** Expanding the squares. */
  lemma {:induction false} DeviationsExpanded(x: seq<real>, m: real)
    ensures SquaredDeviations(x, m) == Expansion(Sum(Squares(x)), Sum(x), m, |x| as real)
  {
    if x != [] {
      var n := |x| - 1;
      DeviationsExpanded(x[..n], m);
      assert Squares(x)[..n] == Squares(x[..n]);
      Expand(x[n], m);
      Collect(Sum(x[..n]), x[n], m, n);
    }
  }

  lemma Distribute(q: real, r: real, n: real)
    requires n > 0.0
    ensures (q - r) / n == q / n - r / n
  {}

  lemma Divide(q: real, s: real, m: real, n: real)
    requires n > 0.0 && m == s / n
    ensures q / n - Square(m) == Expansion(q, s, m, n) / n
  {
    assert s == m * n;
    assert 2.0 * m * s == 2.0 * (n * Square(m));
    Distribute(q, n * Square(m), n);
    assert n * Square(m) / n == Square(m);
  }

  /** The mean of the squares minus the square of the mean is the mean squared deviation. */
  lemma OnePassVariance(x: seq<real>)
    requires x != []
    ensures Sum(Squares(x)) / |x| as real - Square(Mean(x)) == Variance(x)
  {
    DeviationsExpanded(x, Mean(x));
    Divide(Sum(Squares(x)), Sum(x), Mean(x), |x| as real);
  }

  // ---------------------------------------------------------------- the strided partial sums

  /** What thread `t` of `B` sums up: the values at t, t + B, t + 2B, ... */
  function StridedSum(x: seq<real>, t: nat, B: nat): real
    requires B > 0
  {
    if x == [] then 0.0
    else
      var n := |x| - 1;
      StridedSum(x[..n], t, B) + if Rem(n, B) == t then x[n] else 0.0
  }

  function StridedSums(x: seq<real>, B: nat): seq<real>
    requires B > 0
  {
    seq(B, t requires 0 <= t < B => StridedSum(x, t, B))
  }

  /** The threads' partial sums add up to the sum of the row, for every number of threads. */
  lemma {:induction false} StridedCoversAll(x: seq<real>, B: nat)
    requires B > 0
    ensures Sum(StridedSums(x, B)) == Sum(x)
  {
    if x == [] {
      assert StridedSums(x, B) == seq(B, _ => 0.0);
      SumZeros(B);
    } else {
      var n := |x| - 1;
      var s := StridedSums(x[..n], B);
      StridedCoversAll(x[..n], B);
      var t := Rem(n, B);
      SumUpdate(s, t, x[n]);
      assert StridedSums(x, B) == s[t := s[t] + x[n]];
    }
  }

  lemma {:induction false} NothingStrided(x: seq<real>, lo: nat, hi: nat, t: nat, B: nat)
    requires B > 0 && lo <= hi <= |x| && forall j: nat | lo <= j < hi :: Rem(j, B) != t
    ensures StridedSum(x[..hi], t, B) == StridedSum(x[..lo], t, B)
    decreases hi
  {
    if lo < hi {
      assert x[..hi][..hi - 1] == x[..hi - 1];
      NothingStrided(x, lo, hi - 1, t, B);
    }
  }

  /** Between two columns of a thread there is none of its own. */
  lemma OwnColumn(i: nat, B: nat, tid: nat)
    requires tid < B && Rem(i, B) == tid
    ensures Rem(i + B, B) == tid
    ensures forall c: nat | i < c < i + B :: Rem(c, B) != tid
  {
    RemShift(i, B, B);
    forall c: nat | i < c < i + B ensures Rem(c, B) != tid {
      RemShift(i, c - i, B);
    }
  }

  /** One turn of the strided loop. */
  lemma StridedTurn(x: seq<real>, i: nat, t: nat, B: nat)
    requires B > 0 && i < |x| && Rem(i, B) == t < B
    ensures StridedSum(UpTo(x, i + B), t, B) == StridedSum(x[..i], t, B) + x[i]
  {
    var end := if i + B <= |x| then i + B else |x|;
    OwnColumn(i, B, t);
    NothingStrided(x, i + 1, end, t, B);
    assert x[..i + 1][..i] == x[..i];
    assert UpTo(x, i + B) == x[..end];
  }

  lemma StridedStart(x: seq<real>, t: nat, B: nat)
    requires t < B
    ensures StridedSum(UpTo(x, t), t, B) == 0.0
  {
    var end := if t <= |x| then t else |x|;
    NothingStrided(x, 0, end, t, B);
    assert UpTo(x, t) == x[..end] && x[..0] == [];
  }

  /** The loop of one thread over its columns. */
  method ThreadSums(x: seq<real>, t: nat, B: nat) returns (sum: real, sumSq: real)
    requires t < B
    ensures sum == StridedSum(x, t, B) && sumSq == StridedSum(Squares(x), t, B)
  {
    sum, sumSq := 0.0, 0.0;
    var i := t;
    StridedStart(x, t, B);
    StridedStart(Squares(x), t, B);
    while i < |x|
      invariant Rem(i, B) == t
      invariant sum == StridedSum(UpTo(x, i), t, B)
      invariant sumSq == StridedSum(UpTo(Squares(x), i), t, B)
      decreases |x| - i
    {
      StridedTurn(x, i, t, B);
      StridedTurn(Squares(x), i, t, B);
      var val := x[i];
      sum := sum + val;
      sumSq := sumSq + Square(val);
      RemShift(i, B, B);
      i := i + B;
    }
    assert UpTo(x, i) == x && UpTo(Squares(x), i) == Squares(x);
  }

  /** What thread 0 computes from the two shared arrays. */
  method Statistics(sMean: array<real>, sVar: array<real>, cols: nat) returns (mean: real, variance: real)
    requires cols > 0 && sMean.Length == sVar.Length
    ensures mean == Sum(sMean[..]) / cols as real
    ensures variance == Sum(sVar[..]) / cols as real - Square(mean)
  {
    var total, totalSq := 0.0, 0.0;
    for i := 0 to sMean.Length
      invariant total == Sum(sMean[..i]) && totalSq == Sum(sVar[..i])
    {
      SumSnoc(sMean[..i], sMean[i]);
      SumSnoc(sVar[..i], sVar[i]);
      assert sMean[..i + 1] == sMean[..i] + [sMean[i]] && sVar[..i + 1] == sVar[..i] + [sVar[i]];
      total := total + sMean[i];
      totalSq := totalSq + sVar[i];
    }
    assert sMean[..sMean.Length] == sMean[..] && sVar[..sVar.Length] == sVar[..];
    mean := total / cols as real;
    variance := totalSq / cols as real - Square(mean);
  }

  // ---------------------------------------------------------------- rows of a flat buffer

  /** Row `r` of a buffer of rows with `cols` columns each. */
  function Row(x: seq<real>, r: nat, cols: nat): (row: seq<real>)
    requires r * cols + cols <= |x|
    ensures |row| == cols
  {
    x[r * cols..r * cols + cols]
  }

  /** Row `r` of the input still is what it was at the start. */
  predicate RowUntouched(input: seq<real>, x: seq<real>, r: nat, cols: nat) {
    r * cols + cols <= |x| == |input| && Row(input, r, cols) == Row(x, r, cols)
  }

  /** Row `r` of `out` is row `r` of `x`, normalised. */
  ghost predicate RowDone(out: seq<real>, x: seq<real>, r: nat, cols: nat, layer: Layer) {
    && cols > 0 && Fits(layer.weight, cols) && Fits(layer.bias, cols)
    && r * cols + cols <= |x| == |out|
    && Row(out, r, cols) == NormalizedRow(Row(x, r, cols), layer)
  }

  lemma NextRow(r: nat, cols: nat)
    ensures (r + 1) * cols == r * cols + cols
  {}

  /** Later rows begin after earlier ones end, and the last one ends with the buffer. */
  lemma {:induction false} RowsApart(r: nat, s: nat, cols: nat)
    requires r < s
    ensures r * cols + cols <= s * cols
  {
    NextRow(s - 1, cols);
    if r < s - 1 {
      RowsApart(r, s - 1, cols);
    }
  }

  /** What a row that is done holds, without reference to how the entries are computed. */
  lemma RowDoneMeans(out: seq<real>, x: seq<real>, r: nat, cols: nat, layer: Layer) returns (plain: seq<real>)
    requires RowDone(out, x, r, cols, layer)
    ensures IsLayerNormOf(Row(x, r, cols), plain, Row(out, r, cols), layer)
  {
    plain := NormalizedRow(Row(x, r, cols), Plain(layer));
    NormalizedMeans(Row(x, r, cols), layer);
  }

  lemma RowsInside(rows: nat, cols: nat)
    ensures forall r: nat | r < rows :: r * cols + cols <= rows * cols
  {
    forall r: nat | r < rows ensures r * cols + cols <= rows * cols {
      RowsApart(r, rows, cols);
    }
  }

  /** The two buffers differ in row `s` only. */
  ghost predicate SameOutside(a: seq<real>, b: seq<real>, s: nat, cols: nat) {
    |a| == |b| && forall k | 0 <= k < |a| && !(s * cols <= k < s * cols + cols) :: a[k] == b[k]
  }

  lemma OtherRowSame(a: seq<real>, b: seq<real>, r: nat, s: nat, cols: nat)
    requires SameOutside(a, b, s, cols) && r != s && r * cols + cols <= |a|
    ensures Row(b, r, cols) == Row(a, r, cols)
  {
    if r < s { RowsApart(r, s, cols); } else { RowsApart(s, r, cols); }
  }

  /** The rows in `todo` are still to be read, the others have been written. */
  ghost predicate Progress(out: seq<real>, input: seq<real>, x: seq<real>, rows: nat, cols: nat, layer: Layer,
                           todo: set<nat>) {
    forall r: nat | r < rows ::
      if r in todo then RowUntouched(input, x, r, cols) else RowDone(out, x, r, cols, layer)
  }

  /** Normalising one row is progress, even if the output is the input. */
  lemma RowProgress(out: seq<real>, out': seq<real>, input: seq<real>, input': seq<real>, x: seq<real>,
                    rows: nat, cols: nat, layer: Layer, todo: set<nat>, row: nat)
    requires Progress(out, input, x, rows, cols, layer, todo) && row in todo && row < rows
    requires SameOutside(out, out', row, cols) && SameOutside(input, input', row, cols)
    requires RowDone(out', input, row, cols, layer)
    ensures Progress(out', input', x, rows, cols, layer, todo - {row})
  {
    assert RowUntouched(input, x, row, cols);
    forall r: nat | r < rows
      ensures if r in todo - {row} then RowUntouched(input', x, r, cols) else RowDone(out', x, r, cols, layer)
    {
      if r != row {
        assert if r in todo then RowUntouched(input, x, r, cols) else RowDone(out, x, r, cols, layer);
        if r in todo { OtherRowSame(input, input', r, row, cols); } else { OtherRowSame(out, out', r, row, cols); }
      }
    }
  }

  /** All rows together leave no choice: kernel and reference write the same buffer. */
  lemma RowsDetermineBuffer(a: seq<real>, b: seq<real>, x: seq<real>, rows: nat, cols: nat, layer: Layer)
    requires |a| == |b| == rows * cols
    requires forall r: nat | r < rows :: RowDone(a, x, r, cols, layer) && RowDone(b, x, r, cols, layer)
    ensures a == b
  {
    forall k: nat | k < rows * cols ensures a[k] == b[k] {
      var r, c := Decompose(k, rows, cols);
      assert RowDone(a, x, r, cols, layer) && RowDone(b, x, r, cols, layer);
      assert a[k] == Row(a, r, cols)[c] && b[k] == Row(b, r, cols)[c];
    }
  }

  // ---------------------------------------------------------------- the kernel

  /** The kernel up to its first barrier; the threads run in an arbitrary order. */
  method GatherSums(x: seq<real>, B: nat) returns (sMean: array<real>, sVar: array<real>)
    requires B > 0
    ensures sMean[..] == StridedSums(x, B) && sVar[..] == StridedSums(Squares(x), B)
  {
    sMean, sVar := new real[B], new real[B];
    var waiting := Threads(B);
    while waiting != {}
      invariant forall t | t in waiting :: t < B
      invariant forall t | 0 <= t < B && t !in waiting ::
                  sMean[t] == StridedSum(x, t, B) && sVar[t] == StridedSum(Squares(x), t, B)
      decreases waiting
    {
      var tid :| tid in waiting;
      var sum, sumSq := ThreadSums(x, tid, B);
      sMean[tid] := sum;
      sVar[tid] := sumSq;
      waiting := waiting - {tid};
    }
  }

  /** The kernel up to its second barrier: the one-pass statistics are those of two passes. */
  method RowStatistics(x: seq<real>, B: nat) returns (mean: real, variance: real)
    requires x != [] && B > 0
    ensures mean == Mean(x) && variance == Variance(x)
  {
    var sMean, sVar := GatherSums(x, B);
    StridedCoversAll(x, B);
    StridedCoversAll(Squares(x), B);
    OnePassVariance(x);
    mean, variance := Statistics(sMean, sVar, |x|);
  }

  /** The columns of one thread, in the row `x` that begins at `off`: each is read before it is written. */
  method WriteColumns(input: array<real>, ghost x: seq<real>, mean: real, invStd: real, layer: Layer,
                      B: nat, tid: nat, cols: nat, out: array<real>, off: nat)
    requires |x| == cols && off + cols <= out.Length == input.Length
    requires tid < B && Fits(layer.weight, cols) && Fits(layer.bias, cols)
    requires forall c | 0 <= c < cols && Rem(c, B) == tid :: input[off + c] == x[c]
    modifies out
    ensures forall c | 0 <= c < cols ::
              out[off + c] == if Rem(c, B) == tid then Normalized(x, mean, invStd, layer, c) else old(out[off + c])
    ensures forall c | 0 <= c < cols && Rem(c, B) != tid :: input[off + c] == old(input[off + c])
    ensures forall k | 0 <= k < out.Length && !(off <= k < off + cols) :: out[k] == old(out[k])
  {
    var i := tid;
    while i < cols
      invariant Rem(i, B) == tid
      invariant forall c | 0 <= c < cols ::
                  out[off + c] == if Rem(c, B) == tid && c < i then Normalized(x, mean, invStd, layer, c)
                                  else old(out[off + c])
      invariant forall c | 0 <= c < cols && Rem(c, B) == tid && i <= c :: input[off + c] == x[c]
      invariant forall k | 0 <= k < out.Length && !(off <= k < off + cols) :: out[k] == old(out[k])
      decreases cols - i
    {
      OwnColumn(i, B, tid);
      var w, bias := Entry(layer.weight, i, 1.0), Entry(layer.bias, i, 0.0);
      out[off + i] := NormalizedEntry(input[off + i], mean, invStd, w, bias);
      i := i + B;
    }
  }

  /** The last loop of the kernel: each thread writes its own columns, in an arbitrary order of threads. */
  method WriteRow(input: array<real>, ghost x: seq<real>, mean: real, invStd: real, layer: Layer,
                  B: nat, cols: nat, out: array<real>, off: nat)
    requires |x| == cols && off + cols <= out.Length == input.Length
    requires B > 0 && Fits(layer.weight, cols) && Fits(layer.bias, cols)
    requires forall c | 0 <= c < cols :: input[off + c] == x[c]
    modifies out
    ensures forall c | 0 <= c < cols :: out[off + c] == Normalized(x, mean, invStd, layer, c)
    ensures forall k | 0 <= k < out.Length && !(off <= k < off + cols) :: out[k] == old(out[k])
  {
    var waiting := Threads(B);
    while waiting != {}
      invariant forall t | t in waiting :: t < B
      invariant forall c | 0 <= c < cols && Rem(c, B) !in waiting ::
                  out[off + c] == Normalized(x, mean, invStd, layer, c)
      invariant forall c | 0 <= c < cols && Rem(c, B) in waiting :: input[off + c] == x[c]
      invariant forall k | 0 <= k < out.Length && !(off <= k < off + cols) :: out[k] == old(out[k])
      decreases waiting
    {
      var tid :| tid in waiting;
      WriteColumns(input, x, mean, invStd, layer, B, tid, cols, out, off);
      waiting := waiting - {tid};
    }
  }

  /** One block of `layer_norm_kernel` normalises its row and touches no other; `out` may be `input`. */
  method KernelRow(input: array<real>, row: nat, cols: nat, layer: Layer, B: nat, out: array<real>)
    requires cols > 0 && B > 0 && Fits(layer.weight, cols) && Fits(layer.bias, cols)
    requires row * cols + cols <= input.Length == out.Length
    modifies out
    ensures RowDone(out[..], old(input[..]), row, cols, layer)
    ensures SameOutside(old(out[..]), out[..], row, cols) && SameOutside(old(input[..]), input[..], row, cols)
  {
    var mine := Row(input[..], row, cols);
    var mean, variance := RowStatistics(mine, B);
    WriteRow(input, mine, mean, layer.invSqrt(variance + layer.eps), layer, B, cols, out, row * cols);
    assert Row(out[..], row, cols) == NormalizedRow(mine, layer);
  }

  /**
   * `layer_norm_kernel` on a grid with a block per row; blocks beyond the rows return at once. The
   * output may be a buffer of its own or the input.
   */
  method LayerNormKernel(input: array<real>, rows: nat, cols: nat, layer: Layer, B: nat, grid: nat, out: array<real>)
    requires cols > 0 && B > 0 && Fits(layer.weight, cols) && Fits(layer.bias, cols)
    requires rows * cols == input.Length == out.Length && rows <= grid
    modifies out
    ensures forall r: nat | r < rows :: RowDone(out[..], old(input[..]), r, cols, layer)
  {
    ghost var x := input[..];
    var waiting := Threads(grid);
    assert Progress(out[..], x, x, rows, cols, layer, waiting) by { RowsInside(rows, cols); }
    while waiting != {}
      invariant forall b | b in waiting :: b < grid
      invariant Progress(out[..], input[..], x, rows, cols, layer, waiting)
      decreases waiting
    {
      var row :| row in waiting;
      if row < rows {
        RowsApart(row, rows, cols);
        ghost var before, source := out[..], input[..];
        KernelRow(input, row, cols, layer, B, out);
        RowProgress(before, out[..], source, input[..], x, rows, cols, layer, waiting, row);
      }
      waiting := waiting - {row};
    }
  }

  // ---------------------------------------------------------------- the sequential reference

  /** `ref::var_f32`, with the mean that it starts from. */
  method RefVariance(x: seq<real>) returns (mean: real, variance: real)
    requires x != []
    ensures mean == Mean(x) && variance == Variance(x)
  {
    var sum := RefSum(x);
    mean := sum / |x| as real;
    variance := 0.0;
    for c := 0 to |x|
      invariant variance == SquaredDeviations(x[..c], mean)
    {
      assert x[..c + 1][..c] == x[..c];
      var diff := x[c] - mean;
      variance := variance + Square(diff);
    }
    assert x[..|x|] == x;
    variance := variance / |x| as real;
  }

  /** The body of the reference's loop over the rows; `out` may be `input`. */
  method RefRow(input: array<real>, row: nat, cols: nat, layer: Layer, out: array<real>)
    requires cols > 0 && Fits(layer.weight, cols) && Fits(layer.bias, cols)
    requires row * cols + cols <= input.Length == out.Length
    modifies out
    ensures RowDone(out[..], old(input[..]), row, cols, layer)
    ensures SameOutside(old(out[..]), out[..], row, cols) && SameOutside(old(input[..]), input[..], row, cols)
  {
    var mine, off := Row(input[..], row, cols), row * cols;
    var mean, variance := RefVariance(mine);
    var invStd := layer.invSqrt(variance + layer.eps);
    for c := 0 to cols
      invariant forall k | 0 <= k < c :: out[off + k] == Normalized(mine, mean, invStd, layer, k)
      invariant forall k | c <= k < cols :: input[off + k] == mine[k]
      invariant forall k | 0 <= k < out.Length && !(off <= k < off + cols) :: out[k] == old(out[k])
    {
      var w, bias := Entry(layer.weight, c, 1.0), Entry(layer.bias, c, 0.0);
      out[off + c] := NormalizedEntry(input[off + c], mean, invStd, w, bias);
    }
    assert Row(out[..], row, cols) == NormalizedRow(mine, layer);
  }

  /** `ref::layer_norm_f32`; the output may be a buffer of its own or the input. */
  method RefLayerNorm(input: array<real>, rows: nat, cols: nat, layer: Layer, out: array<real>)
    requires cols > 0 && Fits(layer.weight, cols) && Fits(layer.bias, cols)
    requires rows * cols == input.Length == out.Length
    modifies out
    ensures forall r: nat | r < rows :: RowDone(out[..], old(input[..]), r, cols, layer)
  {
    ghost var x, todo := input[..], Threads(rows);
    assert Progress(out[..], x, x, rows, cols, layer, todo) by { RowsInside(rows, cols); }
    for row := 0 to rows
      invariant forall r: nat :: r in todo <==> row <= r < rows
      invariant Progress(out[..], input[..], x, rows, cols, layer, todo)
    {
      RowsApart(row, rows, cols);
      ghost var before, source := out[..], input[..];
      RefRow(input, row, cols, layer, out);
      RowProgress(before, out[..], source, input[..], x, rows, cols, layer, todo, row);
      todo := todo - {row};
    }
  }
}
