/** Why the 1-D table is a proper kernel: when the density at offset `(x, y)`
    is a product `p[x+half] * p[y+half]` of a positive profile `p` over the
    window, as it is for the normal density, the square roots of the diagonal
    of the normalised 2-D table are exactly the normalised profile, so they
    add up to one. */
module Separable {
  import opened Sums
  import opened Images
  import opened Kernel
  import opened Convolution

  /** Over the window of a kernel of size `k` the density factorises through
      the positive profile `p`, indexed by offset plus `half`. */
  ghost predicate Factorises(n: Numerics, k: int, p: seq<real>)
  {
    && OddSize(k)
    && |p| == k
    && (forall i :: 0 <= i < k ==> p[i] > 0.0)
    && (forall x, y :: InWindow(k, x) && InWindow(k, y) ==> RawWeight(n, x, y) == p[x + Half(k)] * p[y + Half(k)])
  }

  lemma FactorAt(n: Numerics, k: int, p: seq<real>, x: int, y: int)
    requires Factorises(n, k, p) && InWindow(k, x) && InWindow(k, y)
    ensures 0 <= x + Half(k) < k && 0 <= y + Half(k) < k
    ensures RawWeight(n, x, y) == p[x + Half(k)] * p[y + Half(k)]
  {
  }

  /** The first `m` rows of the outer product of `u` and `v`, row by row:
      row `q` is `v` scaled by `u[q]`. */
  function Outer(u: seq<real>, v: seq<real>, m: int): seq<real>
    requires 0 <= m <= |u|
    decreases m
  {
    if m == 0 then [] else Outer(u, v, m - 1) + Scaled(v, u[m - 1])
  }

  /** Adding row `m - 1` adds that row's factor times `c`, the sum of `v`. */
  lemma OuterRowSum(u: seq<real>, v: seq<real>, m: int, c: real)
    requires 0 < m <= |u| && c == Sum(v)
    ensures Sum(Outer(u, v, m)) == Sum(Outer(u, v, m - 1)) + u[m - 1] * c
  {
    SumAppend(Outer(u, v, m - 1), Scaled(v, u[m - 1]));
    SumOfScaled(v, u[m - 1]);
  }

  /** The outer product adds up to the product of the sums `a` of `u[..m]`
      and `c` of `v`. */
  lemma {:induction false} SumOuter(u: seq<real>, v: seq<real>, m: int, a: real, c: real)
    requires 0 <= m <= |u| && a == Sum(u[..m]) && c == Sum(v)
    ensures Sum(Outer(u, v, m)) == a * c
    decreases m
  {
    if m == 0 {
      assert u[..0] == [];
    } else {
      var before := Sum(u[..m - 1]);
      SumOuter(u, v, m - 1, before, c);
      OuterRowSum(u, v, m, c);
      SumPrefixLast(u, m);
      Distribute(Sum(Outer(u, v, m)), Sum(Outer(u, v, m - 1)), before, u[m - 1], a, c);
    }
  }

  /** Under factorisation the row of offset `q - half` is the profile scaled
      by `p[q]`. */
  lemma RawRowScaled(n: Numerics, k: int, p: seq<real>, q: int)
    requires Factorises(n, k, p) && 0 <= q < k
    ensures RawRow(n, k, q - Half(k)) == Scaled(p, p[q])
  {
    OddSizeSpan(k);
    var row := RawRow(n, k, q - Half(k));
    forall j | 0 <= j < k
      ensures row[j] == Scaled(p, p[q])[j]
    {
      FactorAt(n, k, p, q - Half(k), j - Half(k));
    }
  }

  /** Under factorisation the first `m` rows of the raw table are the first
      `m` rows of the outer product of the profile with itself. */
  lemma {:induction false} RawRowsOuter(n: Numerics, k: int, p: seq<real>, m: int)
    requires Factorises(n, k, p) && 0 <= m <= k
    ensures RawRows(n, k, m) == Outer(p, p, m)
    decreases m
  {
    if m > 0 {
      RawRowsOuter(n, k, p, m - 1);
      RawRowScaled(n, k, p, m - 1);
    }
  }

  /** Under factorisation the raw table is the outer product of the profile
      with itself. */
  lemma RawTableIsOuter(n: Numerics, k: int, p: seq<real>)
    requires Factorises(n, k, p)
    ensures RawTable(n, k) == Outer(p, p, k)
  {
    OddSizeSpan(k);
    RawRowsOuter(n, k, p, k);
  }

  lemma FactorDiagonal(n: Numerics, k: int, p: seq<real>, i: int)
    requires Factorises(n, k, p) && 0 <= i < k
    ensures RawWeight(n, i - Half(k), i - Half(k)) == Square(p[i])
  {
    FactorAt(n, k, p, i - Half(k), i - Half(k));
  }

  /** The outer product of the profile with itself adds up to the square of
      the profile's sum `s`. */
  lemma SumProfileOuter(k: int, p: seq<real>, s: real)
    requires |p| == k && s == Sum(p)
    ensures Sum(Outer(p, p, k)) == Square(s)
  {
    assert p[..k] == p;
    SumOuter(p, p, k, s, s);
  }

  /** Under factorisation the raw table adds up to the square of the
      profile's sum `s`. */
  lemma RawTableSum(n: Numerics, k: int, p: seq<real>, s: real)
    requires Factorises(n, k, p) && s == Sum(p)
    ensures Sum(RawTable(n, k)) == Square(s)
  {
    RawTableIsOuter(n, k, p);
    SumProfileOuter(k, p, s);
  }

  /** The total density is the square of the profile's sum `s`. */
  lemma RawTotalSquare(n: Numerics, k: int, p: seq<real>, s: real)
    requires n.Valid() && Factorises(n, k, p) && s == Sum(p)
    ensures s > 0.0 && RawTotal(n, k) > 0.0
    ensures RawTotal(n, k) == Square(s)
  {
    SumPositive(p);
    RawTableSum(n, k, p, s);
    OddSizeSpan(k);
    RawRowsLength(n, k, k);
  }

  /** The density on the diagonal over the total is the square of the profile
      over its sum `s`. */
  lemma RawDiagonalQuotient(n: Numerics, k: int, p: seq<real>, i: int, s: real)
    requires n.Valid() && Factorises(n, k, p) && 0 <= i < k && s == Sum(p)
    ensures s > 0.0 && RawTotal(n, k) > 0.0
    ensures RawWeight(n, i - Half(k), i - Half(k)) / RawTotal(n, k) == Square(p[i] / s)
  {
    RawTotalSquare(n, k, p, s);
    FactorDiagonal(n, k, p, i);
    QuotientOfSquares(RawWeight(n, i - Half(k), i - Half(k)), RawTotal(n, k), p[i], s);
  }

  /** Each 1-D weight is the profile over its sum `s`. */
  lemma Weights1DProfile(n: Numerics, k: int, p: seq<real>, i: int, s: real)
    requires n.Valid() && Factorises(n, k, p) && 0 <= i < k && s == Sum(p)
    ensures s > 0.0
    ensures Weights1D(n, k)[i] == p[i] / s
  {
    RawDiagonalQuotient(n, k, p, i, s);
    DivPositive(p[i], s);
    Weights1DFromRaw(n, k, i, p[i] / s);
  }

  /** Under factorisation the 1-D table is the profile divided by its sum,
      and the total density is the square of that sum. */
  lemma Weights1DIsProfile(n: Numerics, k: int, p: seq<real>)
    requires n.Valid() && Factorises(n, k, p)
    ensures Sum(p) > 0.0 && RawTotal(n, k) > 0.0 && RawTotal(n, k) == Square(Sum(p))
    ensures |Weights1D(n, k)| == k
    ensures forall i :: 0 <= i < k ==> Weights1D(n, k)[i] == p[i] / Sum(p)
  {
    var s := Sum(p);
    TableSizes(n, k);
    RawTotalSquare(n, k, p, s);
    forall i | 0 <= i < k
      ensures Weights1D(n, k)[i] == p[i] / s
    {
      Weights1DProfile(n, k, p, i, s);
    }
  }

  /** Under factorisation the 1-D weights add up to exactly one. */
  lemma Weights1DSumToOne(n: Numerics, k: int, p: seq<real>)
    requires n.Valid() && Factorises(n, k, p)
    ensures Sum(Weights1D(n, k)) == 1.0
  {
    Weights1DIsProfile(n, k, p);
    SumNormalised(Weights1D(n, k), p, Sum(p));
  }

  /** Under factorisation the separable blur leaves a uniform image unchanged. */
  lemma Blur1DUniform(n: Numerics, k: int, p: seq<real>, src: Image, c: Pixel)
    requires n.Valid() && Factorises(n, k, p) && src.Valid() && OddSize(k) && src.Uniform(c)
    ensures Blur1D(n, src, k) == src
  {
    var w := Weights1D(n, k);
    TableSizes(n, k);
    Weights1DSumToOne(n, k, p);
    UniformPass(Horizontal, src, w, k, c);
    UniformPass(Vertical, src, w, k, c);
  }

  /** Under factorisation every channel sum of either pass of the separable
      blur lies in `[0, 255]`, so the conversion to a channel only truncates
      and never has to clamp. */
  lemma {:induction false} PassInRange1D(n: Numerics, k: int, p: seq<real>, pass: Pass, src: Image,
                                         x: int, y: int, c: Component)
    requires n.Valid() && Factorises(n, k, p) && pass != Full && src.Valid() && src.InBounds(x, y)
    ensures TableSize(pass, k) == |Weights1D(n, k)|
    ensures var v := Sum(Terms(pass, src, Weights1D(n, k), k, x, y, c));
      && 0.0 <= v <= 255.0
      && Value(ApplyPass(pass, src, Weights1D(n, k), k).At(x, y), c) == v.Floor
  {
    var w := Weights1D(n, k);
    TableSizes(n, k);
    Weights1DSumToOne(n, k, p);
    forall i | 0 <= i < |w|
      ensures w[i] >= 0.0
    {
      Weights1DLayout(n, k, i);
    }
    ChannelSumBounds(pass, src, w, k, x, y, c);
  }
}
