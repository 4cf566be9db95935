# LabKG1 filter engine in Dafny

A model of the image-filter engine of LabKG1 (`Filter.h`, `Filter.cpp`):

- the saturating `clamp(value, max, min)` helper;
- the `Kernel` weight matrix and its factories (box blur, Gaussian, Sobel-X, Sobel-Y, "sharpless");
- `Filter::process`, which allocates a copy of the input image and overwrites every pixel with `calcNewPixelColor` of the unmodified input;
- the per-pixel filters Invert, GrayScale, Sepia and Contrast;
- the neighbourhood filters `MatrixFilter` (blur, Gaussian, sharpless) and `SobelFilter`.

Modules, following the structure of the code:

| module | file | contents |
|---|---|---|
| `Saturation` | saturation.dfy | `clamp` at `int` and at `float`, the float-to-int conversion QColor performs |
| `Images` | images.dfy | channel bytes, `Color`, the `Image` class (a `width x height` `array2` indexed `[x, y]`) |
| `Kernels` | kernels.dfy | the `Kernel` class (`const radius`, `const data: array<real>`), its factories as named constructors, the weight sequences they store |
| `PixelFilters` | pixel_filters.dfy | `getIntensity` and the four per-pixel filters |
| `Convolution` | convolution.dfy | the loops of `MatrixFilter` and `SobelFilter` as methods, proved against the functions `MatrixColor` / `SobelColor` |
| `Filters` | filters.dfy | the `Filter` hierarchy as a datatype, dispatch, `process`, the filter constructors |

Modelling choices:

- `float` is exact `real` arithmetic.
- The implicit float-to-int conversion in `QColor(r, g, b)`, `setRgb` and `setRed`/`setGreen`/`setBlue` is truncation toward zero (`ToInt`). On the clamped values it is `Floor`.
- `sqrt` in `SobelFilter` is modelled exactly. `clamp(sqrt(q), 255, 0)` truncated to an integer is the largest `m <= 255` with `m*m <= q`, and `RootSearch` computes that.
- `exp` in `GaussianKernel` becomes an arbitrary positive weight function `weight(x, y)`. The two passes are modelled as written: fill while summing, then divide by the sum.
- Each neighbourhood sum is specified by `RowSum`/`GridSum`, which add the terms in the loops' order. The loop invariants tie the accumulators `returnR/G/B` to those sums.
- GrayScale stores the luma truncated toward zero: the luma of `(10, 20, 30)` is 18.15, so the grey level is 18 (`GrayScaleExample`).
- SepiaFilter is dispatched as the code writes it (`SepiaAsWritten`). The one-luma version `Sepia` is kept as the corrected reference of the finding below.

## Model

| member | source | states |
|---|---|---|
| Saturation.ClampInt | Filter.h:8-16 | the result is `max` when `value > max` (tested first, so even with inverted bounds), otherwise `min` when `value < min`, otherwise `value`; for `min <= max` it lies in `[min, max]` |
| Saturation.ClampReal | Filter.h:8-16 | the same at `float` |
| Saturation.ClampIntIdempotent | Filter.h:8-16 | clamping twice is clamping once |
| Saturation.ClampIntMonotone | Filter.h:8-16 | clamp is monotone in the value |
| Saturation.ClampRealIdempotent | Filter.h:8-16 | clamping twice is clamping once, at `float` |
| Saturation.ClampRealMonotone | Filter.h:8-16 | clamp is monotone in the value, at `float` |
| Saturation.ToInt | Filter.cpp:92 | the float-to-int conversion truncates toward zero: `r <= v < r + 1` for `v >= 0`, `r - 1 < v <= r` for `v < 0` |
| Saturation.Saturate | Filter.cpp:50 | a stored channel `clamp(v, 255.f, 0.f)` lies in `[0, 255]`; it is 0 for `v <= 0`, 255 for `v >= 255`, and `floor(v)` in between |
| Saturation.SaturateMonotone | Filter.cpp:99-101 | a larger float channel value never stores a smaller byte |
| Saturation.SaturateExact | Filter.cpp:50 | an integral value in `[0, 255]` is stored unchanged |
| Images.Image.Copy | Filter.cpp:10 | `QImage result(img)` has the input's width and height and the same colour at every pixel, in a separately allocated grid |
| Kernels.Kernel.constructor | Filter.h:25-29 | `Kernel(r)` has radius `r` and a fresh array of exactly `(2r+1)^2` zero weights |
| Kernels.Kernel.Copy | Filter.h:31-34 | the copy has the same radius and entry-for-entry equal weights, in a fresh array |
| Kernels.Kernel.Size | Filter.h:38 | `getSize()` is odd, with the centre cell at offset `radius` |
| Kernels.Kernel.Len | Filter.h:23 | `getLen()` is `getSize() * getSize()`, at least one cell |
| Kernels.Kernel.At | Filter.h:39 | the const `operator[]` reads the weight stored at `id` |
| Kernels.Kernel.Set | Filter.h:40 | writing through `operator[]` changes that one weight and no other |
| Kernels.KernelIndex | Filter.cpp:42 | for `i, j` in `[-r, r]` the flat index `(i+r)*size + j + r` lies in `[0, size^2)` |
| Kernels.Kernel.Blur | Filter.h:47-51 | `BlurKernel(r)` stores `1/(2r+1)^2` in every one of its `(2r+1)^2` entries |
| Kernels.BoxWeightsSum | Filter.h:49-50 | the box-blur weights sum to 1 |
| Kernels.BoxWeightsRadiusZero | Filter.h:49-50 | the radius-0 box blur is the single weight 1 |
| Kernels.FillTabulated | Filter.h:60-69 | the first Gaussian pass writes `weight(x, y)` at index `(x+r)*size + (y+r)` for every `x, y` in `[-r, r]`, and `norm` is the sum of what it wrote |
| Kernels.FillRow | Filter.h:64-69 | the inner loop of the first pass writes row `x` right after the rows before it, adds its weights to `norm`, and leaves every later cell as it was |
| Kernels.TabulateAt | Filter.h:63-67 | the tabulated kernel has `(2r+1)^2` entries and holds `weight(i, j)` at the flat index of `(i, j)` |
| Kernels.TabulateSumPositive | Filter.h:60-69 | with positive weights the running sum `norm` is positive, so the division is defined |
| Kernels.DivideAll | Filter.h:71-72 | the second Gaussian pass divides every weight by `norm` |
| Kernels.SumNormalize | Filter.h:71-72 | dividing every weight by `norm` divides their sum by `norm` |
| Kernels.Kernel.Gaussian | Filter.h:58-73 | `GaussianKernel(r)` stores the tabulated weights divided by their sum |
| Kernels.GaussianWeightsSum | Filter.h:58-73 | whatever the positive raw weights, the Gaussian kernel has `(2r+1)^2` entries summing to 1 |
| Kernels.Kernel.SobelX | Filter.h:81-88 | `SobelKernelX()` has radius 1 and weights `[-1,0,1,-2,0,2,-1,0,1]` |
| Kernels.SobelXSum | Filter.h:83-87 | the Sobel-X weights sum to 0 |
| Kernels.SobelXAntisymmetric | Filter.h:83-87 | the Sobel-X weight at column offset `j` is minus the one at `-j` |
| Kernels.Kernel.SobelY | Filter.h:96-103 | `SobelKernelY()` has radius 1 and weights `[-1,-2,-1,0,0,0,1,2,1]` |
| Kernels.SobelYSum | Filter.h:98-102 | the Sobel-Y weights sum to 0 |
| Kernels.SobelTranspose | Filter.h:81-103 | Sobel-Y is the transpose of Sobel-X |
| Kernels.Kernel.Sharpless | Filter.h:111-116 | `SharplessKernel()` has radius 1 and weights `[0,-1,0,-1,5,-1,0,-1,0]` |
| Kernels.SharplessSum | Filter.h:113-115 | the sharpless weights sum to 1 |
| PixelFilters.Intensity | Filter.cpp:3-6 | the luma lies in `[0, 255]` and is the grey level of a grey pixel |
| PixelFilters.Invert | Filter.cpp:22-28 | every channel `c` becomes `255 - c` |
| PixelFilters.InvertInvolution | Filter.cpp:22-28 | inverting twice restores the pixel |
| PixelFilters.InvertExample | Filter.cpp:22-28 | `(10, 20, 30)` inverts to `(245, 235, 225)` |
| PixelFilters.GrayScale | Filter.cpp:89-94 | R = G = B, and that level is the luma truncated |
| PixelFilters.GrayScaleFixesGrey | Filter.cpp:89-94 | a grey pixel is left unchanged |
| PixelFilters.GrayScaleIdempotent | Filter.cpp:89-94 | applying GrayScale twice is applying it once |
| PixelFilters.GrayScaleExample | Filter.cpp:89-94 | `(10, 20, 30)` becomes `(18, 18, 18)` |
| PixelFilters.Sepia | Filter.cpp:96-103 | the corrected Sepia, one luma for all three channels: with `k = 21` the result has R >= G >= B; a grey pixel of level at most 213 gets red = level + 42 |
| PixelFilters.SepiaAsWritten | Filter.cpp:96-103 | the code as written: its red channel is the corrected one (red is computed before any write) |
| PixelFilters.SepiaAsWrittenGrey | Filter.cpp:96-103 | as written, a grey pixel of level `v <= 213` becomes `(v + 42, v + 23, v + 5)`, so grey pixels keep R >= G >= B |
| PixelFilters.SepiaBlack | Filter.cpp:96-103 | black becomes `(42, 23, 5)` as written and `(42, 10, 0)` corrected |
| PixelFilters.SepiaAsWrittenUnordered | Filter.cpp:99-101 | as written (luma re-read after the red and green writes), pure green `(0, 255, 0)` becomes `(191, 217, 163)`, red below green; the one-luma version gives `(191, 160, 128)` |
| PixelFilters.Contrast | Filter.cpp:105-112 | every channel `c` becomes `min(c + 69, 255)`, never less than `c` |
| Convolution.SampleCoord | Filter.cpp:43 | for an extent >= 1 the clamped neighbour coordinate is inside the image; it is the coordinate itself when in range, else the nearest edge |
| Convolution.SampleOneByOne | Filter.cpp:43 | on a 1 x 1 image every neighbour is pixel (0, 0) |
| Convolution.SampleCentre | Filter.cpp:43 | the neighbour at offset `(0, 0)` is the pixel itself |
| Convolution.MatrixPixel | Filter.cpp:30-51 | `MatrixFilter::calcNewPixelColor` returns each channel's neighbourhood sum, in the loops' order, saturated (`MatrixColor`) |
| Convolution.RootSearch | Filter.cpp:82-84 | the result is the largest `s <= n` with `s*s <= q` |
| Convolution.Magnitude | Filter.cpp:82-86 | the stored gradient channel is the largest `m` in `[0, 255]` with `m*m <= gx^2 + gy^2` |
| Convolution.MagnitudeZero | Filter.cpp:82-86 | a zero gradient stores 0 |
| Convolution.SobelPixel | Filter.cpp:53-87 | `SobelFilter::calcNewPixelColor` returns per channel the magnitude of the Sobel-X and Sobel-Y sums over `mKernel`'s neighbourhood (`SobelColor`) |
| Convolution.RowWeightSumIsSlice | Filter.cpp:40-42 | the inner loop visits row `i`'s slice of the flat weight array |
| Convolution.GridWeightSumIsPrefix | Filter.cpp:39-42 | the first `m` rows of the loop visit the first `m * size` weights, in order |
| Convolution.GridWeightSumIsSum | Filter.cpp:39-42 | the loop visits every weight exactly once |
| Convolution.UniformRowSum | Filter.cpp:40-47 | on a uniform image a row's terms add up to the colour times that row's weights |
| Convolution.UniformGridSum | Filter.cpp:39-47 | on a uniform image the first `m` rows add up to the colour times their weights |
| Convolution.UniformWeightedSum | Filter.cpp:39-47 | on a uniform image a channel's sum is the colour times the sum of the weights |
| Convolution.MatrixUniform | Filter.cpp:30-51 | a kernel whose weights sum to 1 maps a uniform image to itself |
| Convolution.BlurUniform | Filter.cpp:30-51 | the box blur maps a uniform image to itself |
| Convolution.CentreRowSum | Filter.cpp:40-47 | with radius 0 the one kernel row is the pixel times the one weight |
| Convolution.RadiusZeroSum | Filter.cpp:39-47 | with radius 0 a channel's sum is the pixel's channel times the one weight |
| Convolution.BlurRadiusZero | Filter.cpp:30-51 | a box blur of radius 0 maps every pixel of every image to itself |
| Convolution.SharplessUniform | Filter.cpp:30-51 | the sharpless filter maps a uniform image to itself |
| Convolution.SobelUniformSums | Filter.cpp:67-80 | on a uniform image the Sobel sums gx and gy are 0 |
| Convolution.SobelUniform | Filter.cpp:53-87 | the Sobel filter maps a uniform image to black |
| Convolution.MatrixOneByOne | Filter.cpp:39-50 | on a 1 x 1 image a kernel filter scales the pixel by the sum of the weights, then saturates |
| Filters.NewPixelColor | Filter.h:123 | the new colour of each filter kind: Invert reflects every channel, GrayScale is grey, Sepia's red is the one-luma red, Contrast never darkens a channel |
| Filters.CalcNewPixelColor | Filter.h:123 | the virtual `calcNewPixelColor` computes the selected filter's new colour (`NewPixelColor`), Sepia as written |
| Filters.Process | Filter.cpp:8-20 | `process` returns a fresh image with the input's width and height whose pixel `(x, y)` is the new colour computed from the unmodified input |
| Filters.ProcessColumn | Filter.cpp:13-17 | the inner loop sets column `x` and leaves the other columns as they were |
| Filters.NewBlurFilter | Filter.h:150 | `BlurFilter(radius = 1)` holds a fresh copy of `BlurKernel(radius)` |
| Filters.NewGaussianFilter | Filter.h:156 | `GaussianFilter(radius = 1)` holds a fresh copy of `GaussianKernel(radius)` |
| Filters.NewSharplessFilter | Filter.h:188 | `SharplessFilter()` holds a fresh copy of `SharplessKernel()` |
| Filters.NewSobelFilter | Filter.h:176-183 | `SobelFilter()` has `mKernel` a copy of Sobel-X of radius 1, `kernelX` Sobel-X and `kernelY` Sobel-Y |
| Filters.MatrixFilterUniform | Filter.cpp:30-51 | any matrix filter whose weights sum to 1 leaves a uniform image's pixels unchanged |
| Filters.BlurFilterRadiusZero | Filter.cpp:30-51 | a BlurFilter of radius 0 leaves every pixel unchanged |
| Filters.SobelFilterUniform | Filter.cpp:53-87 | the Sobel filter turns every pixel of a uniform image black |
| Filters.PixelFilterLocal | Filter.cpp:89-112 | Invert, GrayScale, Sepia and Contrast read only the pixel itself |
| Filters.InvertFilterInvolution | Filter.cpp:22-28 | processing an inverted image with Invert restores the original pixel |

## Left out

- main.cpp (argument loop, `QImage::load`/`save`, output names, console output) is I/O and is not part of this model.
- Qt: QImage's formats and alpha, and QColor's handling of out-of-range values, are not modelled. A colour is three bytes and an image a grid of colours.
- `float` rounding is not modelled: arithmetic is exact over the reals. So are the 0.299/0.587/0.114 luma constants and the `float`/`double` mix in Sepia.
- `exp` and the default `sigma = 3` of `GaussianKernel` are not modelled. The raw weights come from an abstract positive function, so `Kernels.GaussianWeightsSum` holds for every such function.
- `int` overflow of `x + j`, `y + i` and of the flat index is not modelled: integers are unbounded.
- Kernels.Kernel.Gaussian: the guard that the raw weights are positive (so `norm != 0`) is a precondition. C++ would divide by zero otherwise; `exp` never returns 0 for the source's arguments.
- Convolution.SobelPixel: requires `kernelX` and `kernelY` to have `mKernel`'s radius. The source does not check this; its one constructor makes all three radius 1, and any other radius would read outside the arrays.
- Convolution.MatrixPixel: requires a non-empty image. `process` never calls `calcNewPixelColor` on an empty image, and `clamp(x + j, -1, 0)` would not be a pixel.
- Polymorphic dispatch, virtual destructors and `std::unique_ptr` ownership are not modelled. The filter kinds are a datatype with one dispatch.
- The `using Kernel::Kernel` inherited constructors of the factory classes are `Kernels.Kernel.constructor`. The default radius 2 of `BlurKernel`/`GaussianKernel` is never used by the filters, which pass their own default radius of 1.

## Findings

| source | as written | input that shows it | evidently intended | confidence | as-written member | corrected member |
|---|---|---|---|---|---|---|
| Filter.cpp:99-101 | `getIntensity(color)` is re-evaluated after `setRed` and again after `setGreen`, so green and blue use the luma of the already modified colour | `(0, 255, 0)` gives `(191, 217, 163)`: green exceeds red and the sepia ordering R >= G >= B fails | one luma of the input pixel for all three channels, giving `(191, 160, 128)` and R >= G >= B for every input | not executed | PixelFilters.SepiaAsWrittenUnordered | PixelFilters.Sepia |

`Filters.NewPixelColor` dispatches `PixelFilters.SepiaAsWritten`, so `Filters.Process` computes what the code computes. `PixelFilters.Sepia` is the corrected definition, with the intended ordering proved for every input.
