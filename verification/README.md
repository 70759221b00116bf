# Gaussian blur core, modelled in Dafny

The image viewer in `GaussianBlur/mainwindow.cpp` blurs the loaded image in
one of two ways:

- with a full 2-D convolution by a normalised `k × k` Gaussian table
  (`Get2DGaussianWeights`, `Do2DGaussianBlur`);
- with two 1-D passes, first along `x` and then along `y`, using a
  `k`-entry table (`Get1DGaussianWeights`, `Do1DGaussianBlur`). That table
  holds the square roots of the diagonal of the 2-D table.

Out-of-range sample coordinates are mapped back into the image. The menu
action `on_actionBlurImage_triggered` refuses an empty image and an even
kernel size.

The model has six modules:

- `Sums` holds real sums, added left to right as the loops do, with their
  algebra.
- `Images` holds pixels, images, `setPixelColor`, and the conversion of an
  accumulated sum to a channel.
- `Kernel` holds the two weight-table builders. Each is a loop method
  proved equal to a reference function. The module also proves that the
  tables are laid out the way the convolutions index them, and that the
  2-D table sums to one, is positive and is symmetric.
- `Convolution` holds the boundary mapping and the three passes. Each pass
  is a loop method proved equal to `ApplyPass`, a reference function in
  which every output pixel is the converted weighted sum of its source
  samples. The module also proves what the blur does to a unit kernel, to a
  uniform image, and to the range of the channel sums.
- `Separable` shows why the 1-D table is a proper kernel. Suppose the
  density at offset `(x, y)` factorises as `p[x] * p[y]` over the window.
  For the normal density this holds because `exp(-(x²+y²)/2)` is
  `exp(-x²/2)·exp(-y²/2)`. Then the 1-D table is exactly `p` divided by its
  sum, so it adds up to one.
- `MainWindow` holds the blur action: its two guards and its choice between
  the two blurs.

Floating point is modelled by exact reals. `CalcGaussianValue` and `qSqrt`
are function-valued fields of `Kernel.Numerics`. The model assumes only
three things about them:

- the density is positive;
- the square root is non-negative;
- the square root inverts squaring on non-negative reals.

The separable results take the factorisation as a hypothesis
(`Separable.Factorises`).

In the code, the boundary mapping takes `|p|`, and if that reaches the
dimension `d` it subtracts `|p| - d + 1`. The result is always `d - 1`: a
single subtraction, which clamps. An out-of-range coordinate is therefore
never folded more than once, whatever the kernel size. `SampleCoord`
states this.

## Model

| member | source | states |
|---|---|---|
| Convolution.SampleCoord | GaussianBlur/mainwindow.cpp:169-178 | for a non-empty dimension the mapped coordinate is in range; it is the absolute value of `p` when that is inside, and the last row or column otherwise |
| Kernel.Half | GaussianBlur/mainwindow.cpp:118 | `kernelSize/2` rounds toward zero: `k - 2*half` is 0 or 1 for a non-negative size and 0 or -1 for a negative one, so `half` is 0 for `k = -1` and -1 for `k = -3` |
| Kernel.RawWeight | GaussianBlur/mainwindow.cpp:123 | the value appended for offset `(x, y)` is the density at distance `sqrt(x*x+y*y)`, which is positive for a positive density |
| Kernel.OddSizeSpan | GaussianBlur/mainwindow.cpp:118-121 | for a positive odd size, `half` is non-negative and the window `-half..half` has exactly `k` offsets |
| Kernel.Index2D | GaussianBlur/mainwindow.cpp:180 | the 2-D weight index of any offset in the window lies inside the `k*k` table |
| Kernel.Index2DOffsets | GaussianBlur/mainwindow.cpp:180 | the row and column of the 2-D weight index, each less `half`, give back the offset, so distinct offsets read distinct weights |
| Kernel.FlatOffsets | GaussianBlur/mainwindow.cpp:180 | row and column recover `q` and `r` from the flat index `q*s + r` |
| Kernel.FlatSplit | GaussianBlur/mainwindow.cpp:180 | every non-negative flat index is `row*s + column` with the column below `s`, the inverse direction of `FlatOffsets` |
| Kernel.FlatRowBelow | GaussianBlur/mainwindow.cpp:180 | every index of a table of `m` rows of `s` entries lies in one of those rows, so every weight of the `k*k` table belongs to an offset of the window |
| Kernel.Index1D | GaussianBlur/mainwindow.cpp:221 | the 1-D weight index of an offset lies in the `k`-entry table and gives back the offset |
| Kernel.Diagonal | GaussianBlur/mainwindow.cpp:144 | the index `i*k + i` the 1-D builder reads is the 2-D weight of offset `(i-half, i-half)` |
| Kernel.RawRowsLength | GaussianBlur/mainwindow.cpp:119-127 | after `m` rounds of the outer loop, `m` rows of `Span(k)` values each have been appended |
| Kernel.RawRowsAt | GaussianBlur/mainwindow.cpp:119-127 | the value appended in round `q` of the outer loop and round `r` of the inner one sits at `q*Span(k) + r` and is the density at offset `(q-half, r-half)` |
| Kernel.RawTableAt | GaussianBlur/mainwindow.cpp:119-127 | the finished raw table has `k*k` entries, and the density at offset `(x, y)` sits at the index the 2-D convolution reads for that offset |
| Kernel.RawTablePositive | GaussianBlur/mainwindow.cpp:123 | every raw value is positive, because the density is |
| Kernel.AccumulateRow | GaussianBlur/mainwindow.cpp:121-126 | the inner loop appends the densities of one row of the window in `y` order and keeps `sum` equal to the sum of everything appended |
| Kernel.AccumulateRaw | GaussianBlur/mainwindow.cpp:116-127 | the nested loops append the density of every offset, `x` outer and `y` inner, and leave `sum` equal to their total |
| Kernel.RawTotal | GaussianBlur/mainwindow.cpp:116-127 | the total density is positive whenever the table is non-empty, so the normalising division is defined |
| Kernel.Weights2D | GaussianBlur/mainwindow.cpp:111-134 | an even size gives an empty table; otherwise the table has one entry per offset pair |
| Kernel.Get2DGaussianWeights | GaussianBlur/mainwindow.cpp:111-134 | the builder, with its early return, its nested loops and its normalising loop, computes `Weights2D` |
| Kernel.Weights2DLayout | GaussianBlur/mainwindow.cpp:119-133 | the 2-D weight the convolution reads for offset `(x, y)` is the density at distance `sqrt(x²+y²)` over the total density |
| Kernel.Weights2DPositive | GaussianBlur/mainwindow.cpp:123-133 | every 2-D weight is positive |
| Kernel.Weights2DSumToOne | GaussianBlur/mainwindow.cpp:129-133 | after normalisation the 2-D weights add up to exactly one |
| Kernel.Weights2DRadial | GaussianBlur/mainwindow.cpp:123 | two offsets at the same distance from the centre get the same 2-D weight |
| Kernel.Weights2DSymmetric | GaussianBlur/mainwindow.cpp:119-125 | mirroring either axis, both axes, or swapping the axes leaves a 2-D weight unchanged |
| Kernel.Weights1D | GaussianBlur/mainwindow.cpp:136-148 | the 1-D table is empty unless the size is positive and odd, and then it has `k` entries; in particular it is empty for `k = -1`, whose 2-D table has one entry |
| Kernel.Weights1DLayout | GaussianBlur/mainwindow.cpp:142-146 | 1-D weight `i` is the square root of the 2-D weight of offset `(i-half, i-half)`, and it is non-negative |
| Kernel.Weights1DFromDiagonal | GaussianBlur/mainwindow.cpp:144-145 | a diagonal 2-D weight that is the square of `q >= 0` yields the 1-D weight `q` |
| Kernel.Weights1DFromRaw | GaussianBlur/mainwindow.cpp:123-145 | a diagonal density over the total that is the square of `q >= 0` yields the 1-D weight `q` |
| Kernel.Get1DGaussianWeights | GaussianBlur/mainwindow.cpp:136-148 | the builder, including its return on an empty 2-D table, computes `Weights1D` |
| Kernel.Weights1DSymmetric | GaussianBlur/mainwindow.cpp:142-146 | the 1-D table reads the same from both ends |
| Kernel.UnitKernelWeights | GaussianBlur/mainwindow.cpp:111-148 | a kernel of size one gets the single weight one in both the 2-D and the 1-D table |
| Kernel.TableSizes | GaussianBlur/mainwindow.cpp:114-146 | an even size gives no weights in either form; a positive odd size gives `k*k` and `k` weights; odd sizes below `-1` give none because the loops do not run |
| Images.SetPixel | GaussianBlur/mainwindow.cpp:189 | writing one pixel changes that pixel only and keeps the image's size |
| Images.Truncate | GaussianBlur/mainwindow.cpp:189 | the double-to-int conversion of a channel sum truncates toward zero: a non-negative sum gives its floor and a negative one its ceiling |
| Images.ToChannel | GaussianBlur/mainwindow.cpp:189 | the stored channel is always in `0..255`; a sum in `[0, 256)` is stored as its integer part, one below 1 as 0, and one of 255 or more as 255 |
| Images.ToChannelOfChannel | GaussianBlur/mainwindow.cpp:189 | storing a sum that is already a whole channel value gives that value back |
| Convolution.ApplyPass | GaussianBlur/mainwindow.cpp:158-191 | a pass yields a valid image of the source's size whose every pixel is the converted weighted sum of its source samples |
| Convolution.ChannelStep | GaussianBlur/mainwindow.cpp:184-186 | one more weight extends a channel's running sum by that weight's term |
| Convolution.AccumulateStep | GaussianBlur/mainwindow.cpp:184-186 | adding the weighted channels of the sample for weight `n` turns the running sums after `n` weights into those after `n + 1` |
| Convolution.AccumulateDone | GaussianBlur/mainwindow.cpp:189 | once all weights are accumulated, converting the three sums gives the blurred pixel |
| Convolution.SourcePixel2D | GaussianBlur/mainwindow.cpp:169-180 | the sample the 2-D loop reads for offset `(i, j)` is the one its weight index is applied to |
| Convolution.Step2D | GaussianBlur/mainwindow.cpp:169-186 | the weight index of offset `(i, j)` lies in the table, and adding its weighted sample advances the running sums by one weight |
| Convolution.Accumulate2DStep | GaussianBlur/mainwindow.cpp:169-186 | one round of the innermost 2-D loop advances the running sums past the weight of offset `(i, j)` |
| Convolution.Accumulate2DRow | GaussianBlur/mainwindow.cpp:167-187 | the innermost 2-D loop advances the running sums past the `k` weights of row `i` |
| Convolution.Accumulate2D | GaussianBlur/mainwindow.cpp:162-189 | the two kernel loops of the 2-D blur compute the blurred pixel of `(x, y)` |
| Convolution.Sample1D | GaussianBlur/mainwindow.cpp:213-220 | a 1-D pass maps only its own coordinate and reads the sample its weight index is applied to |
| Convolution.Accumulate1DStep | GaussianBlur/mainwindow.cpp:211-227 | one round of a 1-D kernel loop advances the running sums past weight `i + half` |
| Convolution.Accumulate1D | GaussianBlur/mainwindow.cpp:207-229 | the kernel loop of a 1-D pass computes the blurred pixel of `(x, y)` |
| Convolution.RunColumn | GaussianBlur/mainwindow.cpp:160-190 | the inner pixel loop overwrites column `r` with blurred pixels and leaves every other column as it was |
| Convolution.RunPass | GaussianBlur/mainwindow.cpp:158-191 | the pixel loops produce `ApplyPass`, whatever the destination held before |
| Convolution.Blur2D | GaussianBlur/mainwindow.cpp:150-193 | the 2-D blur gives a valid image of the source's size |
| Convolution.Blur1D | GaussianBlur/mainwindow.cpp:195-262 | the separable blur gives a valid image of the source's size |
| Convolution.Do2DGaussianBlur | GaussianBlur/mainwindow.cpp:150-193 | building the 2-D table and running one full pass from a copy of the image computes `Blur2D` |
| Convolution.Do1DGaussianBlur | GaussianBlur/mainwindow.cpp:195-262 | the `x` pass over the image into a copy, then the `y` pass over that finished copy back into the image, computes `Blur1D` |
| Convolution.UnitPixel | GaussianBlur/mainwindow.cpp:165-189 | with the single weight one, every pass reproduces the source pixel |
| Convolution.UnitPass | GaussianBlur/mainwindow.cpp:158-191 | with the single weight one, every pass reproduces the source image |
| Convolution.Blur2DUnit | GaussianBlur/mainwindow.cpp:150-193 | the 2-D blur with `k = 1` leaves the image unchanged |
| Convolution.Blur1DUnit | GaussianBlur/mainwindow.cpp:195-262 | the separable blur with `k = 1` leaves the image unchanged |
| Convolution.SourcePixelUniform | GaussianBlur/mainwindow.cpp:169-179 | in an image of one colour, every sample any pass reads is that colour |
| Convolution.UniformTerms | GaussianBlur/mainwindow.cpp:184-186 | in an image of one colour, each term is that colour's channel times its weight |
| Convolution.UniformChannel | GaussianBlur/mainwindow.cpp:184-186 | with weights adding up to one, a channel sum over an image of one colour is that colour's channel |
| Convolution.UniformPixel | GaussianBlur/mainwindow.cpp:162-189 | with weights adding up to one, a pass maps every pixel of an image of one colour to that colour |
| Convolution.UniformPass | GaussianBlur/mainwindow.cpp:158-191 | with weights adding up to one, a pass leaves an image of one colour unchanged |
| Convolution.Blur2DUniform | GaussianBlur/mainwindow.cpp:150-193 | the 2-D blur leaves an image of one colour unchanged |
| Convolution.TermsBounded | GaussianBlur/mainwindow.cpp:184-186 | with non-negative weights each term lies between zero and 255 times its weight |
| Convolution.ChannelSumBounds | GaussianBlur/mainwindow.cpp:162-188 | with non-negative weights adding up to one, each channel sum lies in `[0, 255]` |
| Convolution.Blur2DInRange | GaussianBlur/mainwindow.cpp:162-189 | in the 2-D blur each channel sum lies in `[0, 255]`, so the stored channel is its integer part and never needs clamping |
| Separable.OuterRowSum | GaussianBlur/mainwindow.cpp:119-127 | each row of an outer product adds its factor times the sum of the other vector |
| Separable.SumOuter | GaussianBlur/mainwindow.cpp:119-127 | an outer product sums to the product of the two vectors' sums |
| Separable.RawRowScaled | GaussianBlur/mainwindow.cpp:121-126 | under factorisation each row the inner loop appends is the profile scaled by that row's factor |
| Separable.RawRowsOuter | GaussianBlur/mainwindow.cpp:119-127 | under factorisation the first `m` rows appended are the first `m` rows of the outer product of the profile with itself |
| Separable.RawTableIsOuter | GaussianBlur/mainwindow.cpp:119-127 | under factorisation the raw table is the outer product of the profile with itself |
| Separable.SumProfileOuter | GaussianBlur/mainwindow.cpp:119-127 | the outer product of the profile with itself sums to the square of the profile's sum |
| Separable.RawTableSum | GaussianBlur/mainwindow.cpp:116-127 | under factorisation the raw table sums to the square of the profile's sum |
| Separable.RawTotalSquare | GaussianBlur/mainwindow.cpp:116-127 | under factorisation the total density is positive and is the square of the profile's sum |
| Separable.RawDiagonalQuotient | GaussianBlur/mainwindow.cpp:129-133 | under factorisation a normalised diagonal weight is the square of the profile over its sum |
| Separable.Weights1DProfile | GaussianBlur/mainwindow.cpp:142-146 | under factorisation 1-D weight `i` is the profile at `i` over the profile's sum |
| Separable.Weights1DIsProfile | GaussianBlur/mainwindow.cpp:136-148 | under factorisation the whole 1-D table is the profile divided by its sum |
| Separable.Weights1DSumToOne | GaussianBlur/mainwindow.cpp:136-148 | under factorisation the 1-D weights add up to exactly one |
| Separable.Blur1DUniform | GaussianBlur/mainwindow.cpp:195-262 | under factorisation the separable blur leaves an image of one colour unchanged |
| Separable.PassInRange1D | GaussianBlur/mainwindow.cpp:207-229 | under factorisation each channel sum of either 1-D pass lies in `[0, 255]`, so the stored channel is its integer part |
| MainWindow.BlurAction | GaussianBlur/mainwindow.cpp:264-289 | an empty image and only an empty image warns "image is empty"; a non-empty image with an even size and only that warns about the size; a blurred result has the image's size and comes from a positive odd size |
| MainWindow.OnActionBlurImage | GaussianBlur/mainwindow.cpp:264-289 | the action's guards, then the blur the check box selects, compute `BlurAction` |
| MainWindow.ActionUnitKernel | GaussianBlur/mainwindow.cpp:264-289 | on a non-empty image a kernel of size one gives the image back in either mode |
| MainWindow.ActionUniform | GaussianBlur/mainwindow.cpp:264-289 | an image of one colour is left unchanged by the action with any odd size; in separable mode this needs the density to factorise |

## Left out

- Window, menus, file dialogs, message boxes, `setImage` and the rest of the
  GUI are not modelled. A warning is the `MainWindow.Warning` value the
  action returns.
- `CalcGaussianValue` and `qSqrt` are not computed. They are the
  parameters described above, because exact exponentials and square roots
  of reals are not available. The constants `sigma = 1` and `mu = 0` enter
  only through the factorisation hypothesis.
- Floating point: weights are `float` and sums are `double` in the code,
  but the model uses exact reals. Rounding is therefore not modelled, and
  neither is the resulting drift of the weight sums from one.
- Kernel.Weights1D: the code never renormalises the 1-D table. The model
  proves that it adds up to one only under `Separable.Factorises`, which
  holds for the exact normal density but is assumed, not derived.
- Convolution.ChannelSumBounds: the range `[0, 255]` is stated for
  non-negative weights that add up to one. Both blurs meet that, the
  separable one under factorisation.
- Images.ToChannel: `QColor` is built from the three `double` sums. The
  model truncates toward zero and then holds the value inside `0..255`.
  What Qt does for an out-of-range value is not modelled. The range lemmas
  show the clamp never fires for either blur.
- The 2-D table is not proved to be the outer product of the 1-D table.
  Only the sum of the 1-D table and its equality with the normalised
  profile are proved.
- MainWindow.BlurAction: the kernel size is taken to be a `nat`, as with
  the spin box's default range `0..99`. The form file that sets the spin
  box's limits is not part of this model. The guard at
  `mainwindow.cpp:272` also lets negative odd sizes through, because
  `-3 % 2` is `-1` in C++. What the code then does is not modelled:
  - For `k <= -3`, `half` is negative and the weight loops at lines 119
    and 121 do not run, so both tables are empty. The kernel loops at lines
    165, 211 and 241 do not run either, so every pixel is written as
    `QColor(0, 0, 0)` and the image turns black.
  - For `k = -1`, `half` is 0 and the 2-D table is the single weight one,
    read at index 0, so the 2-D blur behaves as for size one.
  - In separable mode with `k = -1`, the loop at line 142 does not run, so
    the 1-D table is empty and lines 225-227 read `weights.at(0)` from an empty
    list.
- Kernel.Index2D, Kernel.Diagonal: 32-bit `int` overflow is not modelled.
  Once `k` exceeds 46340, the largest indices `(i+half)*kernelSize+(j+half)`
  at line 180 and `i*kernelSize+i` at line 144 reach `k*k-1`, which
  overflows. With unbounded integers both indices are proved in range for
  every positive odd size.
- Kernel.RawWeight: the squared distance `x*x+y*y` at line 123 is at most
  `2*half*half`, which overflows only once `k` exceeds 65535; the model
  does not model that overflow either.
- `QList::at` bounds checks, image formats and alpha are not modelled.
  Every index the loops read is proved to be in range instead.
