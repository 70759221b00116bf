/** The weight-table builders of mainwindow.cpp: the normalised 2-D Gaussian
    table and the 1-D table taken from its diagonal. Floating point is
    replaced by exact reals and the two numeric primitives are left
    uninterpreted (see `Numerics`). */
module Kernel {
  import opened Sums

  /** The numeric primitives the builders call. `gauss` stands for
      `CalcGaussianValue` (a normal density with sigma 1 and mean 0) and `sqrt`
      for `qSqrt`; all the model relies on is that the density is positive and
      that `sqrt` is the non-negative square root of a non-negative real. */
  datatype Numerics = Numerics(gauss: real -> real, sqrt: real -> real)
  {
    ghost predicate Valid()
    {
      && (forall d :: gauss(d) > 0.0)
      && (forall v :: 0.0 <= v ==> 0.0 <= sqrt(v))
      && (forall v :: 0.0 <= v ==> sqrt(Square(v)) == v)
    }
  }

  /** `kernelSize/2` under C++ integer division, which truncates toward zero. */
  function Half(k: int): (h: int)
    ensures k >= 0 ==> 0 <= k - 2 * h <= 1
    ensures k < 0 ==> -1 <= k - 2 * h <= 0
  {
    if k >= 0 then k / 2 else -((-k) / 2)
  }

  /** How many offsets the loops `for (o = -half; o <= half; o++)` visit. */
  function Span(k: int): nat
  {
    if Half(k) >= 0 then 2 * Half(k) + 1 else 0
  }

  /** A positive odd kernel size. For the non-negative sizes the blur action
      is modelled with, these are the sizes that pass its guard; the guard
      itself also lets negative odd sizes through. */
  predicate OddSize(k: int)
  {
    k >= 1 && k % 2 == 1
  }

  /** Offset `o` lies in the window `[-half, half]` of a kernel of size `k`. */
  predicate InWindow(k: int, o: int)
  {
    -Half(k) <= o <= Half(k)
  }

  lemma OddSizeSpan(k: int)
    requires OddSize(k)
    ensures 0 <= Half(k) && Span(k) == k && k == 2 * Half(k) + 1
  {
  }

  lemma MulSign(c: int, b: int)
    requires b > 0
    ensures c >= 1 ==> c * b >= b
    ensures c <= -1 ==> c * b <= -b
    ensures c >= 0 ==> c * b >= 0
  {
  }

  /** A flat index `q*b + r` with `q < m` and `r < b` stays below `m*b`. */
  lemma FlatIndexBelow(q: int, r: int, b: int, m: int)
    requires b > 0 && 0 <= q < m && 0 <= r < b
    ensures 0 <= q * b + r < m * b
  {
    MulSign(q, b);
    MulSign(m - q, b);
    assert (m - q) * b == m * b - q * b;
  }

  /** The row `q` of a flat index `t = q*s + r` of a table with rows of `s`
      entries, found by stepping back one row at a time. */
  function RowOf(s: int, t: int): int
    requires s >= 1
    decreases t
  {
    if t < s then 0 else 1 + RowOf(s, t - s)
  }

  /** The column `r` of a flat index `t = q*s + r`. */
  function ColOf(s: int, t: int): int
    requires s >= 1
    decreases t
  {
    if t < s then t else ColOf(s, t - s)
  }

  /** Row and column recover `q` and `r` from the flat index `q*s + r`. */
  lemma {:induction false} FlatOffsets(s: int, q: int, r: int)
    requires s >= 1 && 0 <= q && 0 <= r < s
    ensures RowOf(s, q * s + r) == q && ColOf(s, q * s + r) == r
  {
    if q > 0 {
      assert q * s + r - s == (q - 1) * s + r;
      MulSign(q, s);
      FlatOffsets(s, q - 1, r);
    }
  }

  /** Every non-negative flat index splits into a row and a column in range. */
  lemma {:induction false} FlatSplit(s: int, t: int)
    requires s >= 1 && t >= 0
    ensures 0 <= RowOf(s, t) && 0 <= ColOf(s, t) < s
    ensures t == RowOf(s, t) * s + ColOf(s, t)
    decreases t
  {
    if t >= s {
      FlatSplit(s, t - s);
      assert (RowOf(s, t - s) + 1) * s == RowOf(s, t - s) * s + s;
    }
  }

  /** A flat index below `m*s` lies in one of the first `m` rows. */
  lemma FlatRowBelow(s: int, t: int, m: int)
    requires s >= 1 && 0 <= t < m * s
    ensures 0 <= RowOf(s, t) < m && 0 <= ColOf(s, t) < s
  {
    FlatSplit(s, t);
    var q := RowOf(s, t);
    MulSign(q - m, s);
    assert (q - m) * s == q * s - m * s;
  }

  /** The weight index `(i+half)*kernelSize + (j+half)` the 2-D convolution
      reads for offset `(i, j)`: it lies in the table. */
  function Index2D(k: int, i: int, j: int): (t: int)
    requires OddSize(k) && InWindow(k, i) && InWindow(k, j)
    ensures 0 <= t < k * k
  {
    var h := Half(k);
    FlatIndexBelow(i + h, j + h, k, k);
    (i + h) * k + (j + h)
  }

  /** The row and column of the weight index of offset `(i, j)`, each less
      `half`, give back the offset. */
  lemma Index2DOffsets(k: int, i: int, j: int)
    requires OddSize(k) && InWindow(k, i) && InWindow(k, j)
    ensures RowOf(k, Index2D(k, i, j)) - Half(k) == i && ColOf(k, Index2D(k, i, j)) - Half(k) == j
  {
    FlatOffsets(k, i + Half(k), j + Half(k));
  }

  /** The weight index `i+half` a 1-D pass reads for offset `i`: it lies in
      the table and gives back the offset. */
  function Index1D(k: int, i: int): (t: int)
    requires OddSize(k) && InWindow(k, i)
    ensures 0 <= t < k
    ensures t - Half(k) == i
  {
    i + Half(k)
  }

  /** The diagonal index `i*kernelSize + i` the 1-D builder reads: it is the
      2-D entry at offset `(i-half, i-half)`. */
  function Diagonal(k: int, i: int): (t: int)
    requires OddSize(k) && 0 <= i < k
    ensures t == Index2D(k, i - Half(k), i - Half(k))
    ensures 0 <= t < k * k
  {
    i * k + i
  }

  /** `CalcGaussianValue(qSqrt(x*x + y*y))`: the density at the distance of
      offset `(x, y)` from the centre. */
  function RawWeight(n: Numerics, x: int, y: int): (r: real)
    ensures n.Valid() ==> r > 0.0
  {
    n.gauss(n.sqrt((x * x + y * y) as real))
  }

  /** The values the builder's inner loop appends for offset `x`: the density
      at `(x, y)` for every `y` of the window, in increasing order. */
  function RawRow(n: Numerics, k: int, x: int): (row: seq<real>)
    ensures |row| == Span(k)
  {
    seq(Span(k), j requires 0 <= j < Span(k) => RawWeight(n, x, j - Half(k)))
  }

  /** The values appended by the first `m` rounds of the outer loop, one row
      per offset `x` from `-half` upwards. */
  function RawRows(n: Numerics, k: int, m: int): seq<real>
    requires 0 <= m
    decreases m
  {
    if m == 0 then [] else RawRows(n, k, m - 1) + RawRow(n, k, m - 1 - Half(k))
  }

  /** The unnormalised values in the order the builder appends them: offset
      `x` in the outer loop, `y` in the inner one. */
  function RawTable(n: Numerics, k: int): seq<real>
  {
    RawRows(n, k, Span(k))
  }

  /** One more round of the outer loop appends the row of the next offset. */
  lemma RawRowsNext(n: Numerics, k: int, m: int, x: int, before: seq<real>, after: seq<real>)
    requires 0 <= m && x == m - Half(k)
    requires before == RawRows(n, k, m) && after == before + RawRow(n, k, x)
    ensures after == RawRows(n, k, m + 1)
  {
  }

  /** `m` rows of `span` values each. */
  lemma {:induction false} RawRowsLength(n: Numerics, k: int, m: int)
    requires 0 <= m
    ensures |RawRows(n, k, m)| == m * Span(k)
    decreases m
  {
    if m > 0 {
      RawRowsLength(n, k, m - 1);
      assert m * Span(k) == (m - 1) * Span(k) + Span(k);
    }
  }

  /** Value `r` of row `q` sits at `q*span + r` and is the density at offset
      `(q-half, r-half)`. */
  lemma {:induction false} RawRowsAt(n: Numerics, k: int, m: int, q: int, r: int)
    requires 0 <= q < m && 0 <= r < Span(k)
    ensures 0 <= q * Span(k) + r < |RawRows(n, k, m)|
    ensures RawRows(n, k, m)[q * Span(k) + r] == RawWeight(n, q - Half(k), r - Half(k))
    decreases m
  {
    var s := Span(k);
    RawRowsLength(n, k, m - 1);
    FlatIndexBelow(q, r, s, m);
    RawRowsLength(n, k, m);
    if q < m - 1 {
      RawRowsAt(n, k, m - 1, q, r);
    } else {
      assert q * s + r - (m - 1) * s == r;
    }
  }

  /** The value the builder appends for offset `(x, y)` lands at position
      `(x+half)*span + (y+half)` of the raw table. */
  lemma RawTableEntry(n: Numerics, k: int, x: int, y: int)
    requires InWindow(k, x) && InWindow(k, y)
    ensures var t := (x + Half(k)) * Span(k) + (y + Half(k));
      0 <= t < |RawTable(n, k)| && RawTable(n, k)[t] == RawWeight(n, x, y)
  {
    var h := Half(k);
    RawRowsAt(n, k, Span(k), x + h, y + h);
  }

  /** Every value of a row is a density, hence positive. */
  lemma RawRowPositive(n: Numerics, k: int, x: int)
    requires n.Valid()
    ensures forall j :: 0 <= j < |RawRow(n, k, x)| ==> RawRow(n, k, x)[j] > 0.0
  {
    forall j | 0 <= j < |RawRow(n, k, x)|
      ensures RawRow(n, k, x)[j] > 0.0
    {
      assert RawRow(n, k, x)[j] == RawWeight(n, x, j - Half(k));
    }
  }

  /** Every raw value in the first `m` rows is positive. */
  lemma {:induction false} RawRowsPositive(n: Numerics, k: int, m: int)
    requires n.Valid() && 0 <= m
    ensures forall t :: 0 <= t < |RawRows(n, k, m)| ==> RawRows(n, k, m)[t] > 0.0
    decreases m
  {
    if m > 0 {
      RawRowsPositive(n, k, m - 1);
      RawRowPositive(n, k, m - 1 - Half(k));
      AppendPositive(RawRows(n, k, m - 1), RawRow(n, k, m - 1 - Half(k)));
    }
  }

  lemma RawTablePositive(n: Numerics, k: int)
    requires n.Valid()
    ensures forall t :: 0 <= t < |RawTable(n, k)| ==> RawTable(n, k)[t] > 0.0
  {
    RawRowsPositive(n, k, Span(k));
  }

  /** `Get2DGaussianWeights`: empty for an even size, otherwise the raw values
      each divided by their total. */
  function Weights2D(n: Numerics, k: int): (w: seq<real>)
    requires n.Valid()
    ensures |w| == if k % 2 == 0 then 0 else Span(k) * Span(k)
  {
    RawRowsLength(n, k, Span(k));
    if k % 2 == 0 then []
    else
      var raw := RawTable(n, k);
      if |raw| == 0 then []
      else
        var total := RawTotal(n, k);
        seq(|raw|, t requires 0 <= t < |raw| => raw[t] / total)
  }

  /** Every normalised weight is positive. */
  lemma Weights2DPositive(n: Numerics, k: int)
    requires n.Valid()
    ensures forall t :: 0 <= t < |Weights2D(n, k)| ==> Weights2D(n, k)[t] > 0.0
  {
    var w := Weights2D(n, k);
    if |w| > 0 {
      var raw := RawTable(n, k);
      RawTablePositive(n, k);
      forall t | 0 <= t < |w|
        ensures w[t] > 0.0
      {
        DivPositive(raw[t], RawTotal(n, k));
      }
    }
  }

  /** `Get1DGaussianWeights`: empty when the 2-D table is, otherwise the square
      roots of its diagonal, one per offset. */
  function Weights1D(n: Numerics, k: int): (w: seq<real>)
    requires n.Valid()
    ensures |w| == if OddSize(k) then k else 0
  {
    var w2 := Weights2D(n, k);
    if |w2| == 0 then []
    else
      var len := if k > 0 then k else 0;
      seq(len, i requires 0 <= i < len => n.sqrt(w2[Diagonal(k, i)]))
  }

  /** The 1-D weight at position `i` is the square root of the 2-D weight at
      the diagonal offset `(i-half, i-half)`, so it is never negative. */
  lemma Weights1DLayout(n: Numerics, k: int, i: int)
    requires n.Valid() && OddSize(k) && 0 <= i < k
    ensures Weights1D(n, k)[i] == n.sqrt(Weights2D(n, k)[Index2D(k, i - Half(k), i - Half(k))])
    ensures Weights1D(n, k)[i] >= 0.0
  {
    var t := Diagonal(k, i);
    Weights2DPositive(n, k);
    assert Weights2D(n, k)[t] > 0.0;
  }

  /** A diagonal 2-D weight that is the square of `q >= 0` gives the 1-D
      weight `q`. */
  lemma Weights1DFromDiagonal(n: Numerics, k: int, i: int, q: real)
    requires n.Valid() && OddSize(k) && 0 <= i < k && q >= 0.0
    requires Weights2D(n, k)[Index2D(k, i - Half(k), i - Half(k))] == Square(q)
    ensures Weights1D(n, k)[i] == q
  {
    Weights1DLayout(n, k, i);
    assert n.sqrt(Square(q)) == q;
  }

  /** A diagonal density over the total that is the square of `q >= 0` gives
      the 1-D weight `q`. */
  lemma Weights1DFromRaw(n: Numerics, k: int, i: int, q: real)
    requires n.Valid() && OddSize(k) && 0 <= i < k && q >= 0.0
    requires RawWeight(n, i - Half(k), i - Half(k)) / RawTotal(n, k) == Square(q)
    ensures Weights1D(n, k)[i] == q
  {
    Weights2DLayout(n, k, i - Half(k), i - Half(k));
    Weights1DFromDiagonal(n, k, i, q);
  }

  /** The builder's nested loops: append the density for every offset, `x`
      outer and `y` inner, keeping a running sum. */
  method AccumulateRaw(n: Numerics, k: int) returns (weights: seq<real>, sum: real)
    ensures weights == RawTable(n, k)
    ensures sum == Sum(weights)
  {
    weights, sum := [], 0.0;
    var h := Half(k);
    var x := -h;
    ghost var m := 0;
    ghost var span := Span(k);
    assert span == if h >= 0 then 2 * h + 1 else 0;
    while x <= h
      invariant m == x + h && 0 <= m
      invariant m <= span
      invariant weights == RawRows(n, k, m)
      invariant sum == Sum(weights)
    {
      ghost var before := weights;
      weights, sum := AccumulateRow(n, k, x, weights, sum);
      RawRowsNext(n, k, m, x, before, weights);
      x, m := x + 1, m + 1;
    }
    assert m == span;
  }

  /** The builder's inner loop for offset `x`: append the density at `(x, y)`
      for every `y` of the window and add it to the running sum. */
  method AccumulateRow(n: Numerics, k: int, x: int, done: seq<real>, total: real)
    returns (weights: seq<real>, sum: real)
    requires total == Sum(done)
    ensures weights == done + RawRow(n, k, x)
    ensures sum == Sum(weights)
  {
    weights, sum := done, total;
    ghost var row := RawRow(n, k, x);
    var h := Half(k);
    var y := -h;
    while y <= h
      invariant -h <= y && 0 <= y + h <= |row|
      invariant weights == done + row[..y + h]
      invariant sum == Sum(weights)
    {
      var gaussianV := RawWeight(n, x, y);
      assert row[..y + h + 1] == row[..y + h] + [gaussianV];
      SumSnoc(weights, gaussianV);
      sum := sum + gaussianV;
      weights := weights + [gaussianV];
      y := y + 1;
    }
    assert row[..y + h] == row;
  }

  /** `Get2DGaussianWeights`: nothing for an even size, otherwise the raw
      values, then a loop dividing each by their sum. */
  method Get2DGaussianWeights(n: Numerics, k: int) returns (weights: seq<real>)
    requires n.Valid()
    ensures weights == Weights2D(n, k)
  {
    weights := [];
    if k % 2 == 0 {
      return;
    }
    var sum;
    weights, sum := AccumulateRaw(n, k);
    ghost var raw := weights;
    RawTablePositive(n, k);
    if |raw| > 0 {
      SumPositive(raw);
    }

    // normalise
    var i := 0;
    while i < |weights|
      invariant 0 <= i <= |weights| == |raw|
      invariant forall j :: 0 <= j < i ==> weights[j] == raw[j] / sum
      invariant forall j :: i <= j < |weights| ==> weights[j] == raw[j]
    {
      weights := weights[i := weights[i] / sum];
      i := i + 1;
    }
  }

  /** The 1-D builder: the 2-D table, then one square root per diagonal entry. */
  method Get1DGaussianWeights(n: Numerics, k: int) returns (weights: seq<real>)
    requires n.Valid()
    ensures weights == Weights1D(n, k)
  {
    weights := Get2DGaussianWeights(n, k);
    if |weights| == 0 {
      return;
    }
    ghost var w1 := Weights1D(n, k);
    var newWeights := [];
    var i := 0;
    while i < k
      invariant 0 <= i <= |w1|
      invariant newWeights == w1[..i]
    {
      assert OddSize(k);
      var w := weights[Diagonal(k, i)];
      newWeights := newWeights + [n.sqrt(w)];
      i := i + 1;
    }
    weights := newWeights;
  }

  /** The running `sum` once the builder's loops finish. */
  function RawTotal(n: Numerics, k: int): (total: real)
    requires n.Valid()
    ensures |RawTable(n, k)| > 0 ==> total > 0.0
  {
    RawTablePositive(n, k);
    if |RawTable(n, k)| > 0 then
      SumPositive(RawTable(n, k));
      Sum(RawTable(n, k))
    else 0.0
  }

  /** The value appended for offset `(x, y)` sits at `Index2D(k, x, y)`. */
  lemma RawTableAt(n: Numerics, k: int, x: int, y: int)
    requires OddSize(k) && InWindow(k, x) && InWindow(k, y)
    ensures |RawTable(n, k)| == k * k
    ensures RawTable(n, k)[Index2D(k, x, y)] == RawWeight(n, x, y)
  {
    OddSizeSpan(k);
    RawRowsLength(n, k, k);
    RawTableEntry(n, k, x, y);
  }

  /** The 2-D weight for offset `(x, y)` sits at the index the convolution
      computes for it and is the density there over the total density. */
  lemma Weights2DLayout(n: Numerics, k: int, x: int, y: int)
    requires n.Valid() && OddSize(k) && InWindow(k, x) && InWindow(k, y)
    ensures Weights2D(n, k)[Index2D(k, x, y)] == RawWeight(n, x, y) / RawTotal(n, k)
  {
    OddSizeSpan(k);
    RawTableAt(n, k, x, y);
  }

  /** After normalisation the 2-D weights add up to exactly one. */
  lemma Weights2DSumToOne(n: Numerics, k: int)
    requires n.Valid() && |Weights2D(n, k)| > 0
    ensures Sum(Weights2D(n, k)) == 1.0
  {
    var total := RawTotal(n, k);
    SumDivided(Weights2D(n, k), RawTable(n, k), total);
    assert Sum(RawTable(n, k)) == total;
    DivSelf(total);
  }

  /** A 2-D weight depends on its offset only through the squared distance
      `x*x + y*y`. */
  lemma Weights2DRadial(n: Numerics, k: int, x: int, y: int, x2: int, y2: int)
    requires n.Valid() && OddSize(k)
    requires InWindow(k, x) && InWindow(k, y) && InWindow(k, x2) && InWindow(k, y2)
    requires x * x + y * y == x2 * x2 + y2 * y2
    ensures Weights2D(n, k)[Index2D(k, x, y)] == Weights2D(n, k)[Index2D(k, x2, y2)]
  {
    Weights2DLayout(n, k, x, y);
    Weights2DLayout(n, k, x2, y2);
  }

  /** Mirroring either axis or swapping the axes leaves a 2-D weight unchanged. */
  lemma Weights2DSymmetric(n: Numerics, k: int, x: int, y: int)
    requires n.Valid() && OddSize(k) && InWindow(k, x) && InWindow(k, y)
    ensures var w := Weights2D(n, k);
      && w[Index2D(k, x, y)] == w[Index2D(k, -x, y)]
      && w[Index2D(k, x, y)] == w[Index2D(k, x, -y)]
      && w[Index2D(k, x, y)] == w[Index2D(k, -x, -y)]
      && w[Index2D(k, x, y)] == w[Index2D(k, y, x)]
  {
    assert (-x) * (-x) == x * x && (-y) * (-y) == y * y;
    Weights2DRadial(n, k, x, y, -x, y);
    Weights2DRadial(n, k, x, y, x, -y);
    Weights2DRadial(n, k, x, y, -x, -y);
    Weights2DRadial(n, k, x, y, y, x);
  }

  /** The 1-D table reads the same from both ends. */
  lemma Weights1DSymmetric(n: Numerics, k: int, i: int)
    requires n.Valid() && OddSize(k) && 0 <= i < k
    ensures Weights1D(n, k)[i] == Weights1D(n, k)[k - 1 - i]
  {
    var h := Half(k);
    var j := k - 1 - i;
    OddSizeSpan(k);
    var a := i - h;
    assert j - h == -a;
    assert (-a) * (-a) == a * a;
    Weights1DLayout(n, k, i);
    Weights1DLayout(n, k, j);
    Weights2DRadial(n, k, a, a, -a, -a);
  }

  /** A kernel of size one has the single weight one in both forms. */
  lemma UnitKernelWeights(n: Numerics)
    requires n.Valid()
    ensures Weights2D(n, 1) == [1.0] && Weights1D(n, 1) == [1.0]
  {
    var raw := RawTable(n, 1);
    assert |raw| == 1;
    RawTablePositive(n, 1);
    assert Sum(raw) == raw[0];
    DivSelf(raw[0]);
    assert Weights2D(n, 1)[0] == 1.0;
    assert Square(1.0) == 1.0;
    Weights1DLayout(n, 1, 0);
  }

  /** Table sizes: even sizes give no weights in either form; a positive odd
      size `k` gives `k*k` 2-D and `k` 1-D weights; odd sizes below -1 give
      none because the builder's loops do not run. */
  lemma TableSizes(n: Numerics, k: int)
    requires n.Valid()
    ensures k % 2 == 0 ==> Weights2D(n, k) == [] && Weights1D(n, k) == []
    ensures OddSize(k) ==> |Weights2D(n, k)| == k * k && |Weights1D(n, k)| == k
    ensures k <= -2 ==> Weights2D(n, k) == [] && Weights1D(n, k) == []
  {
    if OddSize(k) {
      OddSizeSpan(k);
    }
  }
}
