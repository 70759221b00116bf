/** The convolution routines of mainwindow.cpp: the boundary mapping, the
    full 2-D pass of `Do2DGaussianBlur` and the two 1-D passes of
    `Do1DGaussianBlur`. Every pass reads one image and writes another. */
module Convolution {
  import opened Sums
  import opened Images
  import opened Kernel

  function Abs(p: int): nat
  {
    if p < 0 then -p else p
  }

  /** The boundary mapping inlined in every pass: a sample coordinate `p` is
      replaced by `|p|`, and if that reaches `dim` it is reduced by
      `|p| - dim + 1`. The reduction always lands on `dim - 1`, so the
      mapping reflects negative coordinates and clamps large ones. */
  function SampleCoord(p: int, dim: int): (q: int)
    ensures dim >= 1 ==> 0 <= q < dim
    ensures dim >= 1 ==> q == if Abs(p) < dim then Abs(p) else dim - 1
  {
    var a := Abs(p);
    if a >= dim then a - (a - dim + 1) else a
  }

  /** The three convolution passes: the 2-D pass, and the two passes of the
      separable blur, which offset the first (`x`, width) coordinate and the
      second (`y`, height) coordinate respectively. */
  datatype Pass = Full | Horizontal | Vertical

  /** How many weights a pass reads for a kernel of size `k`. */
  function TableSize(pass: Pass, k: int): int
  {
    if pass == Full then k * k else k
  }

  /** What a pass needs: a valid source, a positive odd kernel size and a
      weight table of the matching size. */
  predicate Ready(pass: Pass, src: Image, w: seq<real>, k: int)
  {
    src.Valid() && OddSize(k) && |w| == TableSize(pass, k)
  }

  /** The source pixel that weight `t` is applied to for output pixel
      `(x, y)`. For the 2-D pass `t` is the flat index of the offset given by
      its row and column, each less `half`; for a 1-D pass it is the index of offset
      `t - half` along the pass's own coordinate. */
  function SourcePixel(pass: Pass, src: Image, k: int, x: int, y: int, t: int): Pixel
    requires src.Valid() && OddSize(k) && src.InBounds(x, y)
  {
    var h := Half(k);
    match pass
    case Full => src.At(SampleCoord(x + (RowOf(k, t) - h), src.width), SampleCoord(y + (ColOf(k, t) - h), src.height))
    case Horizontal => src.At(SampleCoord(x + (t - h), src.width), y)
    case Vertical => src.At(x, SampleCoord(y + (t - h), src.height))
  }

  /** The contribution of weight `t` to channel `c` of output pixel `(x, y)`. */
  function Term(pass: Pass, src: Image, w: seq<real>, k: int, x: int, y: int, c: Component, t: int): real
    requires Ready(pass, src, w, k) && src.InBounds(x, y) && 0 <= t < |w|
  {
    Value(SourcePixel(pass, src, k, x, y, t), c) as real * w[t]
  }

  /** The terms accumulated for one channel of one output pixel, in loop order. */
  function Terms(pass: Pass, src: Image, w: seq<real>, k: int, x: int, y: int, c: Component): (s: seq<real>)
    requires Ready(pass, src, w, k) && src.InBounds(x, y)
    ensures |s| == |w|
  {
    seq(|w|, t requires 0 <= t < |w| => Term(pass, src, w, k, x, y, c, t))
  }

  /** The running sum of channel `c` after the first `n` weights. */
  ghost function Partial(pass: Pass, src: Image, w: seq<real>, k: int, x: int, y: int, c: Component, n: int): real
    requires Ready(pass, src, w, k) && src.InBounds(x, y) && 0 <= n <= |w|
  {
    Sum(Terms(pass, src, w, k, x, y, c)[..n])
  }

  /** The running sums of the three channels after the first `n` weights. */
  ghost predicate Accumulated(pass: Pass, src: Image, w: seq<real>, k: int, x: int, y: int, n: int,
                              sumR: real, sumG: real, sumB: real)
    requires Ready(pass, src, w, k) && src.InBounds(x, y) && 0 <= n <= |w|
  {
    && sumR == Partial(pass, src, w, k, x, y, Red, n)
    && sumG == Partial(pass, src, w, k, x, y, Green, n)
    && sumB == Partial(pass, src, w, k, x, y, Blue, n)
  }

  /** The running sum of one channel, extended by the weighted sample for
      weight `n`. */
  lemma ChannelStep(pass: Pass, src: Image, w: seq<real>, k: int, x: int, y: int, c: Component, n: int)
    requires Ready(pass, src, w, k) && src.InBounds(x, y) && 0 <= n < |w|
    ensures Partial(pass, src, w, k, x, y, c, n + 1)
      == Partial(pass, src, w, k, x, y, c, n) + Term(pass, src, w, k, x, y, c, n)
  {
    SumPrefixStep(Terms(pass, src, w, k, x, y, c), n);
  }

  /** The term for weight `n` is the sample's channel times the weight. */
  lemma TermOfSample(pass: Pass, src: Image, w: seq<real>, k: int, x: int, y: int, c: Component, n: int, color: Pixel)
    requires Ready(pass, src, w, k) && src.InBounds(x, y) && 0 <= n < |w|
    requires color == SourcePixel(pass, src, k, x, y, n)
    ensures Term(pass, src, w, k, x, y, c, n) == Value(color, c) as real * w[n]
  {
  }

  /** Adding the weighted channels of the sample for weight `n` extends the
      running sums by one weight. */
  lemma AccumulateStep(pass: Pass, src: Image, w: seq<real>, k: int, x: int, y: int, n: int,
                       color: Pixel, sumR: real, sumG: real, sumB: real)
    requires Ready(pass, src, w, k) && src.InBounds(x, y) && 0 <= n < |w|
    requires color == SourcePixel(pass, src, k, x, y, n)
    requires Accumulated(pass, src, w, k, x, y, n, sumR, sumG, sumB)
    ensures Accumulated(pass, src, w, k, x, y, n + 1,
      sumR + Value(color, Red) as real * w[n],
      sumG + Value(color, Green) as real * w[n],
      sumB + Value(color, Blue) as real * w[n])
  {
    ChannelStep(pass, src, w, k, x, y, Red, n);
    ChannelStep(pass, src, w, k, x, y, Green, n);
    ChannelStep(pass, src, w, k, x, y, Blue, n);
    TermOfSample(pass, src, w, k, x, y, Red, n, color);
    TermOfSample(pass, src, w, k, x, y, Green, n, color);
    TermOfSample(pass, src, w, k, x, y, Blue, n, color);
  }

  /** Once every weight is accumulated the running sums are the full sums, and
      converting them gives the blurred pixel. */
  lemma AccumulateDone(pass: Pass, src: Image, w: seq<real>, k: int, x: int, y: int,
                       sumR: real, sumG: real, sumB: real)
    requires Ready(pass, src, w, k) && src.InBounds(x, y)
    requires Accumulated(pass, src, w, k, x, y, |w|, sumR, sumG, sumB)
    ensures Pixel(ToChannel(sumR), ToChannel(sumG), ToChannel(sumB)) == BlurredPixel(pass, src, w, k, x, y)
  {
    assert Terms(pass, src, w, k, x, y, Red)[..|w|] == Terms(pass, src, w, k, x, y, Red);
    assert Terms(pass, src, w, k, x, y, Green)[..|w|] == Terms(pass, src, w, k, x, y, Green);
    assert Terms(pass, src, w, k, x, y, Blue)[..|w|] == Terms(pass, src, w, k, x, y, Blue);
  }

  /** Entry `t` of the terms is the term of weight `t`. */
  lemma TermsAt(pass: Pass, src: Image, w: seq<real>, k: int, x: int, y: int, c: Component, t: int)
    requires Ready(pass, src, w, k) && src.InBounds(x, y) && 0 <= t < |w|
    ensures Terms(pass, src, w, k, x, y, c)[t] == Term(pass, src, w, k, x, y, c, t)
  {
  }

  /** The source pixel for the weight index of offset `(i, j)` is the sample
      at that offset. */
  lemma SourcePixel2D(src: Image, k: int, x: int, y: int, i: int, j: int)
    requires src.Valid() && OddSize(k) && src.InBounds(x, y) && InWindow(k, i) && InWindow(k, j)
    ensures SourcePixel(Full, src, k, x, y, Index2D(k, i, j))
      == src.At(SampleCoord(x + i, src.width), SampleCoord(y + j, src.height))
  {
    var t := Index2D(k, i, j);
    Index2DOffsets(k, i, j);
    assert x + (RowOf(k, t) - Half(k)) == x + i;
    assert y + (ColOf(k, t) - Half(k)) == y + j;
  }

  /** One step of the 2-D pass: the weight index the loop computes for offset
      `(i, j)` lies in the table, and the sample it reads is the one that
      weight is applied to, so the running sums advance by one weight. */
  lemma Step2D(src: Image, w: seq<real>, k: int, x: int, y: int, i: int, j: int, t: int,
               color: Pixel, sumR: real, sumG: real, sumB: real)
    requires Ready(Full, src, w, k) && src.InBounds(x, y) && InWindow(k, i) && InWindow(k, j)
    requires t == (i + Half(k)) * k + (j + Half(k))
    requires color == src.At(SampleCoord(x + i, src.width), SampleCoord(y + j, src.height))
    requires 0 <= t <= |w| && Accumulated(Full, src, w, k, x, y, t, sumR, sumG, sumB)
    ensures t < |w|
    ensures Accumulated(Full, src, w, k, x, y, t + 1,
      sumR + Value(color, Red) as real * w[t],
      sumG + Value(color, Green) as real * w[t],
      sumB + Value(color, Blue) as real * w[t])
  {
    assert t == Index2D(k, i, j);
    SourcePixel2D(src, k, x, y, i, j);
    AccumulateStep(Full, src, w, k, x, y, t, color, sumR, sumG, sumB);
  }

  /** The colour written for output pixel `(x, y)`: each channel's weighted sum
      converted back to a channel value. */
  function BlurredPixel(pass: Pass, src: Image, w: seq<real>, k: int, x: int, y: int): Pixel
    requires Ready(pass, src, w, k) && src.InBounds(x, y)
  {
    Pixel(
      ToChannel(Sum(Terms(pass, src, w, k, x, y, Red))),
      ToChannel(Sum(Terms(pass, src, w, k, x, y, Green))),
      ToChannel(Sum(Terms(pass, src, w, k, x, y, Blue))))
  }

  /** One pass over the whole image: a new image of the same size whose every
      pixel is computed from `src` alone. */
  function ApplyPass(pass: Pass, src: Image, w: seq<real>, k: int): (out: Image)
    requires Ready(pass, src, w, k)
    ensures out.Valid() && out.width == src.width && out.height == src.height
    ensures forall x, y :: out.InBounds(x, y) ==> out.At(x, y) == BlurredPixel(pass, src, w, k, x, y)
  {
    Image(src.width, src.height,
      seq(src.width, x requires 0 <= x < src.width =>
        seq(src.height, y requires 0 <= y < src.height => BlurredPixel(pass, src, w, k, x, y))))
  }

  /** The 2-D blur: one full pass with the 2-D table. */
  function Blur2D(n: Numerics, src: Image, k: int): (out: Image)
    requires n.Valid() && src.Valid() && OddSize(k)
    ensures out.Valid() && out.width == src.width && out.height == src.height
  {
    TableSizes(n, k);
    ApplyPass(Full, src, Weights2D(n, k), k)
  }

  /** The separable blur: the `x` pass over the source, then the `y` pass over
      the finished result of the first. */
  function Blur1D(n: Numerics, src: Image, k: int): (out: Image)
    requires n.Valid() && src.Valid() && OddSize(k)
    ensures out.Valid() && out.width == src.width && out.height == src.height
  {
    var w := Weights1D(n, k);
    var tmp := ApplyPass(Horizontal, src, w, k);
    ApplyPass(Vertical, tmp, w, k)
  }

  /** The two innermost loops of `Do2DGaussianBlur` for one output pixel. */
  method Accumulate2D(src: Image, w: seq<real>, k: int, x: int, y: int) returns (p: Pixel)
    requires Ready(Full, src, w, k) && src.InBounds(x, y)
    ensures p == BlurredPixel(Full, src, w, k, x, y)
  {
    var h := Half(k);
    OddSizeSpan(k);
    var sumR, sumG, sumB := 0.0, 0.0, 0.0;
    var i := -h;
    ghost var start := 0;
    while i <= h
      invariant -h <= i <= h + 1
      invariant start == (i + h) * k && 0 <= start <= k * k
      invariant Accumulated(Full, src, w, k, x, y, start, sumR, sumG, sumB)
    {
      sumR, sumG, sumB := Accumulate2DRow(src, w, k, x, y, i, start, sumR, sumG, sumB);
      assert (i + h) * k + k == (i + 1 + h) * k;
      i, start := i + 1, start + k;
    }
    assert start == k * k;
    AccumulateDone(Full, src, w, k, x, y, sumR, sumG, sumB);
    p := Pixel(ToChannel(sumR), ToChannel(sumG), ToChannel(sumB));
  }

  /** The innermost loop of `Do2DGaussianBlur`: the weights of row `i` of the
      2-D table, offset `(i, j)` for every `j` of the window, which start at
      index `start`. */
  method Accumulate2DRow(src: Image, w: seq<real>, k: int, x: int, y: int, i: int, ghost start: int,
                         r0: real, g0: real, b0: real) returns (sumR: real, sumG: real, sumB: real)
    requires Ready(Full, src, w, k) && src.InBounds(x, y) && InWindow(k, i)
    requires start == (i + Half(k)) * k && 0 <= start <= k * k
    requires Accumulated(Full, src, w, k, x, y, start, r0, g0, b0)
    ensures start + k <= k * k
    ensures Accumulated(Full, src, w, k, x, y, start + k, sumR, sumG, sumB)
  {
    var h := Half(k);
    OddSizeSpan(k);
    FlatIndexBelow(i + h, k - 1, k, k);
    sumR, sumG, sumB := r0, g0, b0;
    var j := -h;
    while j <= h
      invariant -h <= j <= h + 1
      invariant Accumulated(Full, src, w, k, x, y, start + (j + h), sumR, sumG, sumB)
    {
      sumR, sumG, sumB := Accumulate2DStep(src, w, k, x, y, i, j, sumR, sumG, sumB);
      j := j + 1;
    }
  }

  /** One round of the innermost loop of `Do2DGaussianBlur`: the sample at
      offset `(i, j)`, weighted by the entry the loop computes for it, is
      added to each running sum. */
  method Accumulate2DStep(src: Image, w: seq<real>, k: int, x: int, y: int, i: int, j: int,
                          r0: real, g0: real, b0: real) returns (sumR: real, sumG: real, sumB: real)
    requires Ready(Full, src, w, k) && src.InBounds(x, y) && InWindow(k, i) && InWindow(k, j)
    requires Accumulated(Full, src, w, k, x, y, Index2D(k, i, j), r0, g0, b0)
    ensures Accumulated(Full, src, w, k, x, y, Index2D(k, i, j) + 1, sumR, sumG, sumB)
  {
    var h := Half(k);
    var pixelX := SampleCoord(x + i, src.width);
    var pixelY := SampleCoord(y + j, src.height);
    var color := src.At(pixelX, pixelY);
    var weightIdx := (i + h) * k + (j + h);
    Step2D(src, w, k, x, y, i, j, weightIdx, color, r0, g0, b0);
    sumR := r0 + Value(color, Red) as real * w[weightIdx];
    sumG := g0 + Value(color, Green) as real * w[weightIdx];
    sumB := b0 + Value(color, Blue) as real * w[weightIdx];
  }

  /** The sample a 1-D pass reads for offset `i`: only the coordinate the
      pass runs along is offset and mapped. */
  method Sample1D(pass: Pass, src: Image, k: int, x: int, y: int, i: int) returns (color: Pixel)
    requires pass != Full && src.Valid() && OddSize(k) && src.InBounds(x, y) && InWindow(k, i)
    ensures color == SourcePixel(pass, src, k, x, y, Index1D(k, i))
  {
    if pass == Horizontal {
      var pixelX, pixelY := SampleCoord(x + i, src.width), y;
      color := src.At(pixelX, pixelY);
    } else {
      var pixelX, pixelY := x, SampleCoord(y + i, src.height);
      color := src.At(pixelX, pixelY);
    }
  }

  /** The single kernel loop of one pass of `Do1DGaussianBlur` for one output
      pixel. */
  method Accumulate1D(pass: Pass, src: Image, w: seq<real>, k: int, x: int, y: int) returns (p: Pixel)
    requires pass != Full && Ready(pass, src, w, k) && src.InBounds(x, y)
    ensures p == BlurredPixel(pass, src, w, k, x, y)
  {
    var h := Half(k);
    OddSizeSpan(k);
    var sumR, sumG, sumB := 0.0, 0.0, 0.0;
    var i := -h;
    while i <= h
      invariant -h <= i <= h + 1
      invariant Accumulated(pass, src, w, k, x, y, i + h, sumR, sumG, sumB)
    {
      sumR, sumG, sumB := Accumulate1DStep(pass, src, w, k, x, y, i, sumR, sumG, sumB);
      i := i + 1;
    }
    AccumulateDone(pass, src, w, k, x, y, sumR, sumG, sumB);
    p := Pixel(ToChannel(sumR), ToChannel(sumG), ToChannel(sumB));
  }

  /** One round of the kernel loop of a 1-D pass: the sample for offset `i`,
      weighted by entry `i+half`, is added to each running sum. */
  method Accumulate1DStep(pass: Pass, src: Image, w: seq<real>, k: int, x: int, y: int, i: int,
                          r0: real, g0: real, b0: real) returns (sumR: real, sumG: real, sumB: real)
    requires pass != Full && Ready(pass, src, w, k) && src.InBounds(x, y) && InWindow(k, i)
    requires Accumulated(pass, src, w, k, x, y, Index1D(k, i), r0, g0, b0)
    ensures Accumulated(pass, src, w, k, x, y, Index1D(k, i) + 1, sumR, sumG, sumB)
  {
    var weightIdx := Index1D(k, i);
    var color := Sample1D(pass, src, k, x, y, i);
    AccumulateStep(pass, src, w, k, x, y, weightIdx, color, r0, g0, b0);
    sumR := r0 + Value(color, Red) as real * w[weightIdx];
    sumG := g0 + Value(color, Green) as real * w[weightIdx];
    sumB := b0 + Value(color, Blue) as real * w[weightIdx];
  }

  /** The two outer loops of a pass: every pixel of `dst` is overwritten with
      the value computed from `src`, so the result does not depend on what
      `dst` held before. */
  method RunPass(pass: Pass, src: Image, dst: Image, w: seq<real>, k: int) returns (out: Image)
    requires Ready(pass, src, w, k)
    requires dst.Valid() && dst.width == src.width && dst.height == src.height
    ensures out == ApplyPass(pass, src, w, k)
  {
    out := dst;
    var r := 0;
    while r < src.width
      invariant 0 <= r <= src.width
      invariant out.Valid() && out.width == src.width && out.height == src.height
      invariant forall x, y :: 0 <= x < r && 0 <= y < src.height ==>
        out.At(x, y) == BlurredPixel(pass, src, w, k, x, y)
    {
      out := RunColumn(pass, src, out, w, k, r);
      r := r + 1;
    }
    ImageExtensionality(out, ApplyPass(pass, src, w, k));
  }

  /** The inner loop of a pass: column `r` of `dst` is overwritten with the
      values computed from `src`, and every other column is left as it was. */
  method RunColumn(pass: Pass, src: Image, dst: Image, w: seq<real>, k: int, r: int) returns (out: Image)
    requires Ready(pass, src, w, k) && 0 <= r < src.width
    requires dst.Valid() && dst.width == src.width && dst.height == src.height
    ensures out.Valid() && out.width == src.width && out.height == src.height
    ensures forall y :: 0 <= y < src.height ==> out.At(r, y) == BlurredPixel(pass, src, w, k, r, y)
    ensures forall x, y :: out.InBounds(x, y) && x != r ==> out.At(x, y) == dst.At(x, y)
  {
    out := dst;
    var c := 0;
    while c < src.height
      invariant 0 <= c <= src.height
      invariant out.Valid() && out.width == src.width && out.height == src.height
      invariant forall y :: 0 <= y < c ==> out.At(r, y) == BlurredPixel(pass, src, w, k, r, y)
      invariant forall x, y :: out.InBounds(x, y) && x != r ==> out.At(x, y) == dst.At(x, y)
    {
      var p;
      if pass == Full {
        p := Accumulate2D(src, w, k, r, c);
      } else {
        p := Accumulate1D(pass, src, w, k, r, c);
      }
      out := SetPixel(out, r, c, p);
      c := c + 1;
    }
  }

  /** `Do2DGaussianBlur`: build the 2-D table, then one pass from the image
      into a copy of it. */
  method Do2DGaussianBlur(n: Numerics, image: Image, k: int) returns (out: Image)
    requires n.Valid() && image.Valid() && OddSize(k)
    ensures out == Blur2D(n, image, k)
  {
    var weights := Get2DGaussianWeights(n, k);
    TableSizes(n, k);
    var tmpImage := image;
    out := RunPass(Full, image, tmpImage, weights, k);
  }

  /** `Do1DGaussianBlur`: build the 1-D table, run the `x` pass from the image
      into a copy, then the `y` pass from that finished copy back over the
      image. */
  method Do1DGaussianBlur(n: Numerics, image: Image, k: int) returns (out: Image)
    requires n.Valid() && image.Valid() && OddSize(k)
    ensures out == Blur1D(n, image, k)
  {
    var weights := Get1DGaussianWeights(n, k);
    var tmpImage := RunPass(Horizontal, image, image, weights, k);
    out := RunPass(Vertical, tmpImage, image, weights, k);
  }

  /** With `k = 1` the single weight `1` is applied to the pixel itself, so a
      pass reproduces its source pixel. */
  lemma {:induction false} UnitPixel(pass: Pass, src: Image, x: int, y: int)
    requires src.Valid() && src.InBounds(x, y)
    ensures Ready(pass, src, [1.0], 1)
    ensures BlurredPixel(pass, src, [1.0], 1, x, y) == src.At(x, y)
  {
    assert Ready(pass, src, [1.0], 1);
    assert SourcePixel(pass, src, 1, x, y, 0) == src.At(x, y);
    forall c: Component
      ensures Sum(Terms(pass, src, [1.0], 1, x, y, c)) == Value(src.At(x, y), c) as real
    {
      var s := Terms(pass, src, [1.0], 1, x, y, c);
      assert s[..0] == [];
      assert s[0] == Value(src.At(x, y), c) as real;
    }
    ToChannelOfChannel(src.At(x, y).red);
    ToChannelOfChannel(src.At(x, y).green);
    ToChannelOfChannel(src.At(x, y).blue);
  }

  /** A pass with the unit kernel leaves the image unchanged. */
  lemma {:induction false} UnitPass(pass: Pass, src: Image)
    requires src.Valid()
    ensures Ready(pass, src, [1.0], 1)
    ensures ApplyPass(pass, src, [1.0], 1) == src
  {
    assert Ready(pass, src, [1.0], 1);
    var out := ApplyPass(pass, src, [1.0], 1);
    forall x, y | out.InBounds(x, y)
      ensures out.At(x, y) == src.At(x, y)
    {
      UnitPixel(pass, src, x, y);
    }
    ImageExtensionality(out, src);
  }

  /** Kernel size 1 is the identity in 2-D mode. */
  lemma {:induction false} Blur2DUnit(n: Numerics, src: Image)
    requires n.Valid() && src.Valid()
    ensures Blur2D(n, src, 1) == src
  {
    UnitKernelWeights(n);
    UnitPass(Full, src);
  }

  /** Kernel size 1 is the identity in separable mode: both passes are. */
  lemma {:induction false} Blur1DUnit(n: Numerics, src: Image)
    requires n.Valid() && src.Valid()
    ensures Blur1D(n, src, 1) == src
  {
    UnitKernelWeights(n);
    UnitPass(Horizontal, src);
    UnitPass(Vertical, src);
  }

  /** Every sample a pass reads lies inside the image, so on a uniform image
      it is the common pixel. */
  lemma SourcePixelUniform(pass: Pass, src: Image, k: int, x: int, y: int, t: int, p: Pixel)
    requires src.Valid() && OddSize(k) && src.InBounds(x, y) && src.Uniform(p)
    ensures SourcePixel(pass, src, k, x, y, t) == p
  {
    var h := Half(k);
    match pass
    case Full =>
      assert src.InBounds(SampleCoord(x + (RowOf(k, t) - h), src.width), SampleCoord(y + (ColOf(k, t) - h), src.height));
    case Horizontal =>
      assert src.InBounds(SampleCoord(x + (t - h), src.width), y);
    case Vertical =>
      assert src.InBounds(x, SampleCoord(y + (t - h), src.height));
  }

  /** On a uniform image every term is the common pixel's channel times its
      weight. */
  lemma UniformTerms(pass: Pass, src: Image, w: seq<real>, k: int, x: int, y: int, p: Pixel, c: Component)
    requires Ready(pass, src, w, k) && src.InBounds(x, y) && src.Uniform(p)
    ensures ScaledBy(Terms(pass, src, w, k, x, y, c), w, Value(p, c) as real)
  {
    forall t | 0 <= t < |w|
      ensures Terms(pass, src, w, k, x, y, c)[t] == Value(p, c) as real * w[t]
    {
      TermsAt(pass, src, w, k, x, y, c, t);
      SourcePixelUniform(pass, src, k, x, y, t, p);
      TermOfSample(pass, src, w, k, x, y, c, t, p);
    }
  }

  /** On a uniform image every sample a pass reads is the same pixel, so with
      weights adding up to one each channel sum is that pixel's channel. */
  lemma {:induction false} UniformChannel(pass: Pass, src: Image, w: seq<real>, k: int, x: int, y: int,
                                          p: Pixel, c: Component)
    requires Ready(pass, src, w, k) && src.InBounds(x, y) && src.Uniform(p) && Sum(w) == 1.0
    ensures Sum(Terms(pass, src, w, k, x, y, c)) == Value(p, c) as real
  {
    UniformTerms(pass, src, w, k, x, y, p, c);
    SumScaledUnit(Terms(pass, src, w, k, x, y, c), w, Value(p, c) as real);
  }

  /** ... and so the blurred pixel is the common pixel. */
  lemma {:induction false} UniformPixel(pass: Pass, src: Image, w: seq<real>, k: int, x: int, y: int, p: Pixel)
    requires Ready(pass, src, w, k) && src.InBounds(x, y) && src.Uniform(p)
    requires Sum(w) == 1.0
    ensures BlurredPixel(pass, src, w, k, x, y) == p
  {
    UniformChannel(pass, src, w, k, x, y, p, Red);
    UniformChannel(pass, src, w, k, x, y, p, Green);
    UniformChannel(pass, src, w, k, x, y, p, Blue);
    ToChannelOfChannel(p.red);
    ToChannelOfChannel(p.green);
    ToChannelOfChannel(p.blue);
  }

  /** A pass whose weights sum to 1 leaves a uniform image unchanged. */
  lemma {:induction false} UniformPass(pass: Pass, src: Image, w: seq<real>, k: int, p: Pixel)
    requires Ready(pass, src, w, k) && src.Uniform(p)
    requires Sum(w) == 1.0
    ensures ApplyPass(pass, src, w, k) == src
  {
    var out := ApplyPass(pass, src, w, k);
    forall x, y | out.InBounds(x, y)
      ensures out.At(x, y) == src.At(x, y)
    {
      UniformPixel(pass, src, w, k, x, y, p);
    }
    ImageExtensionality(out, src);
  }

  /** The 2-D blur leaves a uniform image unchanged, whatever the kernel size:
      its weights are normalised to sum to 1. */
  lemma {:induction false} Blur2DUniform(n: Numerics, src: Image, k: int, p: Pixel)
    requires n.Valid() && src.Valid() && OddSize(k) && src.Uniform(p)
    ensures Blur2D(n, src, k) == src
  {
    TableSizes(n, k);
    Weights2DSumToOne(n, k);
    UniformPass(Full, src, Weights2D(n, k), k, p);
  }

  lemma ScaleChannel(v: Channel, a: real)
    requires a >= 0.0
    ensures 0.0 <= v as real * a <= 255.0 * a
  {
  }

  /** A channel value times a non-negative weight lies between 0 and 255
      times that weight. */
  lemma TermsBounded(pass: Pass, src: Image, w: seq<real>, k: int, x: int, y: int, c: Component)
    requires Ready(pass, src, w, k) && src.InBounds(x, y)
    requires forall t :: 0 <= t < |w| ==> w[t] >= 0.0
    ensures Between(Terms(pass, src, w, k, x, y, c), w, 255.0)
  {
    forall t | 0 <= t < |w|
      ensures 0.0 <= Terms(pass, src, w, k, x, y, c)[t] <= 255.0 * w[t]
    {
      TermsAt(pass, src, w, k, x, y, c, t);
      var color := SourcePixel(pass, src, k, x, y, t);
      var v := Value(color, c);
      TermOfSample(pass, src, w, k, x, y, c, t, color);
      assert Terms(pass, src, w, k, x, y, c)[t] == v as real * w[t];
      assert w[t] >= 0.0;
      ScaleChannel(v, w[t]);
      assert 0.0 <= v as real * w[t] <= 255.0 * w[t];
    }
  }

  /** With non-negative weights that add up to one each channel sum lies
      between 0 and 255. */
  lemma ChannelSumBounds(pass: Pass, src: Image, w: seq<real>, k: int, x: int, y: int, c: Component)
    requires Ready(pass, src, w, k) && src.InBounds(x, y)
    requires (forall t :: 0 <= t < |w| ==> w[t] >= 0.0) && Sum(w) == 1.0
    ensures 0.0 <= Sum(Terms(pass, src, w, k, x, y, c)) <= 255.0
  {
    TermsBounded(pass, src, w, k, x, y, c);
    SumBetweenUnit(Terms(pass, src, w, k, x, y, c), w, 255.0);
  }

  /** In 2-D mode every channel sum lies in `[0, 255]`, so the conversion to a
      channel only truncates and never has to clamp. */
  lemma {:induction false} Blur2DInRange(n: Numerics, src: Image, k: int, x: int, y: int, c: Component)
    requires n.Valid() && src.Valid() && OddSize(k) && src.InBounds(x, y)
    ensures TableSize(Full, k) == |Weights2D(n, k)|
    ensures var v := Sum(Terms(Full, src, Weights2D(n, k), k, x, y, c));
      && 0.0 <= v <= 255.0
      && Value(Blur2D(n, src, k).At(x, y), c) == v.Floor
  {
    TableSizes(n, k);
    var w := Weights2D(n, k);
    Weights2DSumToOne(n, k);
    Weights2DPositive(n, k);
    ChannelSumBounds(Full, src, w, k, x, y, c);
  }
}
