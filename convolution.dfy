/**
 * The kernel-driven filters of Filter.cpp: MatrixFilter's weighted
 * neighbourhood sum (used by the blur, Gaussian and sharpless filters) and
 * SobelFilter's pair of gradient sums. A neighbour outside the image is read
 * at the nearest edge pixel: each coordinate is clamped into range.
 *
 * The sums are specified by RowSum/GridSum, which add the kernel cells in the
 * order of the source's loops: rows i = -radius .. radius, and within a row
 * columns j = -radius .. radius.
 */
module Convolution {
  import opened Saturation
  import opened Images
  import opened Kernels

  /** clamp(v, extent - 1, 0): the nearest coordinate inside [0, extent). */
  function SampleCoord(v: int, extent: nat): (s: nat)
    requires extent >= 1
    ensures s < extent
    ensures 0 <= v < extent ==> s == v
    ensures v < 0 ==> s == 0
    ensures v >= extent ==> s == extent - 1
  {
    ClampInt(v, extent - 1, 0)
  }

  /** The neighbour of (x, y) at row offset i and column offset j. */
  function Sample(img: Image, x: int, y: int, i: int, j: int): Color
    reads img.pixels
    requires img.Width() >= 1 && img.Height() >= 1
  {
    img.PixelColor(SampleCoord(x + j, img.Width()), SampleCoord(y + i, img.Height()))
  }

  /** On a 1 x 1 image every neighbour is the single pixel. */
  lemma SampleOneByOne(img: Image, x: int, y: int, i: int, j: int)
    requires img.Width() == 1 && img.Height() == 1
    ensures Sample(img, x, y, i, j) == img.pixels[0, 0]
  {
  }

  /** One kernel cell's share of a channel sum: the channel times the cell's weight. */
  function Weighted(c: Color, ch: Channel, weight: real): real
  {
    c.Get(ch) as real * weight
  }

  /** The terms of kernel row i for columns -radius .. n-1-radius. */
  function RowSum(img: Image, w: seq<real>, radius: nat, x: int, y: int, ch: Channel, i: int, n: nat): real
    reads img.pixels
    requires img.Width() >= 1 && img.Height() >= 1
    requires |w| == KernelLen(radius)
    requires -(radius as int) <= i <= radius && n <= KernelSize(radius)
  {
    if n == 0 then 0.0
    else
      var j := n - 1 - radius;
      RowSum(img, w, radius, x, y, ch, i, n - 1) + Weighted(Sample(img, x, y, i, j), ch, w[KernelIndex(radius, i, j)])
  }

  /** The terms of kernel rows -radius .. m-1-radius. */
  function GridSum(img: Image, w: seq<real>, radius: nat, x: int, y: int, ch: Channel, m: nat): real
    reads img.pixels
    requires img.Width() >= 1 && img.Height() >= 1
    requires |w| == KernelLen(radius) && m <= KernelSize(radius)
  {
    if m == 0 then 0.0
    else GridSum(img, w, radius, x, y, ch, m - 1) + RowSum(img, w, radius, x, y, ch, m - 1 - radius, KernelSize(radius))
  }

  /** The weighted sum of channel ch over the whole neighbourhood of (x, y). */
  function WeightedSum(img: Image, w: seq<real>, radius: nat, x: int, y: int, ch: Channel): real
    reads img.pixels
    requires img.Width() >= 1 && img.Height() >= 1
    requires |w| == KernelLen(radius)
  {
    GridSum(img, w, radius, x, y, ch, KernelSize(radius))
  }

  /** MatrixFilter's new colour: each channel's weighted sum, saturated into [0, 255]. */
  function MatrixColor(img: Image, w: seq<real>, radius: nat, x: int, y: int): Color
    reads img.pixels
    requires img.Width() >= 1 && img.Height() >= 1
    requires |w| == KernelLen(radius)
  {
    Color(
      Saturate(WeightedSum(img, w, radius, x, y, Red)),
      Saturate(WeightedSum(img, w, radius, x, y, Green)),
      Saturate(WeightedSum(img, w, radius, x, y, Blue)))
  }

  /** The largest s <= n whose square is at most q. */
  function RootSearch(q: real, n: nat): (s: nat)
    requires q >= 0.0
    ensures s <= n && (s * s) as real <= q
    ensures s == n || q < ((s + 1) * (s + 1)) as real
  {
    if (n * n) as real <= q then n else RootSearch(q, n - 1)
  }

  /**
   * clamp(sqrt(gx*gx + gy*gy), 255, 0) truncated to an integer: the largest m
   * in [0, 255] with m*m <= gx*gx + gy*gy.
   */
  function Magnitude(gx: real, gy: real): (m: int)
    ensures 0 <= m <= 255
    ensures (m * m) as real <= gx * gx + gy * gy
    ensures m == 255 || gx * gx + gy * gy < ((m + 1) * (m + 1)) as real
  {
    RootSearch(gx * gx + gy * gy, 255)
  }

  /** Below 1 the search always ends at 0. */
  lemma {:induction false} RootSearchBelowOne(q: real, n: nat)
    requires 0.0 <= q < 1.0
    ensures RootSearch(q, n) == 0
  {
    if n > 0 {
      assert (n * n) as real > q by {
        MulMonotone(1, n, n);
      }
      RootSearchBelowOne(q, n - 1);
    }
  }

  /** A zero gradient has magnitude zero. */
  lemma MagnitudeZero(gx: real, gy: real)
    requires gx == 0.0 && gy == 0.0
    ensures Magnitude(gx, gy) == 0
  {
    var q := gx * gx + gy * gy;
    assert q == 0.0;
    RootSearchBelowOne(q, 255);
    assert Magnitude(gx, gy) == RootSearch(q, 255);
  }

  /** SobelFilter's new colour: per channel the gradient magnitude of the two sums. */
  function SobelColor(img: Image, wx: seq<real>, wy: seq<real>, radius: nat, x: int, y: int): Color
    reads img.pixels
    requires img.Width() >= 1 && img.Height() >= 1
    requires |wx| == KernelLen(radius) && |wy| == KernelLen(radius)
  {
    Color(
      Magnitude(WeightedSum(img, wx, radius, x, y, Red), WeightedSum(img, wy, radius, x, y, Red)),
      Magnitude(WeightedSum(img, wx, radius, x, y, Green), WeightedSum(img, wy, radius, x, y, Green)),
      Magnitude(WeightedSum(img, wx, radius, x, y, Blue), WeightedSum(img, wy, radius, x, y, Blue)))
  }

  /** MatrixFilter::calcNewPixelColor. */
  method MatrixPixel(img: Image, kernel: Kernel, x: int, y: int) returns (c: Color)
    requires img.Width() >= 1 && img.Height() >= 1
    requires kernel.Valid()
    ensures c == MatrixColor(img, kernel.Weights(), kernel.radius, x, y)
  {
    var returnR, returnG, returnB := 0.0, 0.0, 0.0;
    ghost var w, r := kernel.Weights(), kernel.radius;
    var radius: int := kernel.radius;
    var i := -radius;
    while i <= radius
      invariant -radius <= i <= radius + 1
      invariant returnR == GridSum(img, w, r, x, y, Red, i + radius)
      invariant returnG == GridSum(img, w, r, x, y, Green, i + radius)
      invariant returnB == GridSum(img, w, r, x, y, Blue, i + radius)
    {
      var j := -radius;
      while j <= radius
        invariant -radius <= j <= radius + 1
        invariant returnR == GridSum(img, w, r, x, y, Red, i + radius) + RowSum(img, w, r, x, y, Red, i, j + radius)
        invariant returnG == GridSum(img, w, r, x, y, Green, i + radius) + RowSum(img, w, r, x, y, Green, i, j + radius)
        invariant returnB == GridSum(img, w, r, x, y, Blue, i + radius) + RowSum(img, w, r, x, y, Blue, i, j + radius)
      {
        var idx := KernelIndex(kernel.radius, i, j);
        var color := img.PixelColor(SampleCoord(x + j, img.Width()), SampleCoord(y + i, img.Height()));
        returnR := returnR + Weighted(color, Red, kernel.At(idx));
        returnG := returnG + Weighted(color, Green, kernel.At(idx));
        returnB := returnB + Weighted(color, Blue, kernel.At(idx));
        j := j + 1;
      }
      i := i + 1;
    }
    c := Color(Saturate(returnR), Saturate(returnG), Saturate(returnB));
  }

  /**
   * SobelFilter::calcNewPixelColor: the loop bounds come from the filter's own
   * kernel `kernel` (a copy of Sobel-X), the weights from kernelX and kernelY.
   */
  method SobelPixel(img: Image, kernel: Kernel, kernelX: Kernel, kernelY: Kernel, x: int, y: int) returns (c: Color)
    requires img.Width() >= 1 && img.Height() >= 1
    requires kernelX.Valid() && kernelY.Valid()
    requires kernelX.radius == kernel.radius && kernelY.radius == kernel.radius
    ensures c == SobelColor(img, kernelX.Weights(), kernelY.Weights(), kernel.radius, x, y)
  {
    var returnRX, returnGX, returnBX := 0.0, 0.0, 0.0;
    var returnRY, returnGY, returnBY := 0.0, 0.0, 0.0;
    ghost var wx, wy, r := kernelX.Weights(), kernelY.Weights(), kernel.radius;
    var radius: int := kernel.radius;
    var i := -radius;
    while i <= radius
      invariant -radius <= i <= radius + 1
      invariant returnRX == GridSum(img, wx, r, x, y, Red, i + radius)
      invariant returnGX == GridSum(img, wx, r, x, y, Green, i + radius)
      invariant returnBX == GridSum(img, wx, r, x, y, Blue, i + radius)
      invariant returnRY == GridSum(img, wy, r, x, y, Red, i + radius)
      invariant returnGY == GridSum(img, wy, r, x, y, Green, i + radius)
      invariant returnBY == GridSum(img, wy, r, x, y, Blue, i + radius)
    {
      var j := -radius;
      while j <= radius
        invariant -radius <= j <= radius + 1
        invariant returnRX == GridSum(img, wx, r, x, y, Red, i + radius) + RowSum(img, wx, r, x, y, Red, i, j + radius)
        invariant returnGX == GridSum(img, wx, r, x, y, Green, i + radius) + RowSum(img, wx, r, x, y, Green, i, j + radius)
        invariant returnBX == GridSum(img, wx, r, x, y, Blue, i + radius) + RowSum(img, wx, r, x, y, Blue, i, j + radius)
        invariant returnRY == GridSum(img, wy, r, x, y, Red, i + radius) + RowSum(img, wy, r, x, y, Red, i, j + radius)
        invariant returnGY == GridSum(img, wy, r, x, y, Green, i + radius) + RowSum(img, wy, r, x, y, Green, i, j + radius)
        invariant returnBY == GridSum(img, wy, r, x, y, Blue, i + radius) + RowSum(img, wy, r, x, y, Blue, i, j + radius)
      {
        var idx := KernelIndex(kernel.radius, i, j);
        var color := img.PixelColor(SampleCoord(x + j, img.Width()), SampleCoord(y + i, img.Height()));
        returnRX := returnRX + Weighted(color, Red, kernelX.At(idx));
        returnGX := returnGX + Weighted(color, Green, kernelX.At(idx));
        returnBX := returnBX + Weighted(color, Blue, kernelX.At(idx));
        returnRY := returnRY + Weighted(color, Red, kernelY.At(idx));
        returnGY := returnGY + Weighted(color, Green, kernelY.At(idx));
        returnBY := returnBY + Weighted(color, Blue, kernelY.At(idx));
        j := j + 1;
      }
      i := i + 1;
    }
    c := Color(Magnitude(returnRX, returnRY), Magnitude(returnGX, returnGY), Magnitude(returnBX, returnBY));
  }

  /** Every pixel of the image has colour c. */
  ghost predicate Uniform(img: Image, c: Color)
    reads img.pixels
  {
    forall px, py :: 0 <= px < img.Width() && 0 <= py < img.Height() ==> img.pixels[px, py] == c
  }

  /** The weights of kernel row i for columns -radius .. n-1-radius, in loop order. */
  function RowWeightSum(w: seq<real>, radius: nat, i: int, n: nat): real
    requires |w| == KernelLen(radius)
    requires -(radius as int) <= i <= radius && n <= KernelSize(radius)
  {
    if n == 0 then 0.0
    else RowWeightSum(w, radius, i, n - 1) + w[KernelIndex(radius, i, n - 1 - radius)]
  }

  /** The weights of kernel rows -radius .. m-1-radius, in loop order. */
  function GridWeightSum(w: seq<real>, radius: nat, m: nat): real
    requires |w| == KernelLen(radius) && m <= KernelSize(radius)
  {
    if m == 0 then 0.0
    else GridWeightSum(w, radius, m - 1) + RowWeightSum(w, radius, m - 1 - radius, KernelSize(radius))
  }

  /** Row i's weights are the slice of the flat array that holds that row. */
  lemma {:induction false} RowWeightSumIsSlice(w: seq<real>, radius: nat, i: int, n: nat)
    requires |w| == KernelLen(radius)
    requires -(radius as int) <= i <= radius && n <= KernelSize(radius)
    ensures RowStart(radius, i) + n <= |w|
         && RowWeightSum(w, radius, i, n) == Sum(w[..RowStart(radius, i) + n]) - Sum(w[..RowStart(radius, i)])
  {
    var size := KernelSize(radius);
    IndexBound(size, i + radius, if n > 0 then n - 1 else 0);
    if n > 0 {
      RowWeightSumIsSlice(w, radius, i, n - 1);
      SumSnoc(w, RowStart(radius, i) + n - 1);
    }
  }

  /** Adding the rows in loop order adds up the flat array from the front. */
  lemma {:induction false} GridWeightSumIsPrefix(w: seq<real>, radius: nat, m: nat)
    requires |w| == KernelLen(radius) && m <= KernelSize(radius)
    ensures m * KernelSize(radius) <= |w| && GridWeightSum(w, radius, m) == Sum(w[..m * KernelSize(radius)])
  {
    var size := KernelSize(radius);
    if m > 0 {
      var lo := RowStart(radius, m - 1 - radius);
      assert lo + size == m * size;
      GridWeightSumIsPrefix(w, radius, m - 1);
      RowWeightSumIsSlice(w, radius, m - 1 - radius, size);
      assert GridWeightSum(w, radius, m) == Sum(w[..lo]) + (Sum(w[..lo + size]) - Sum(w[..lo]));
    } else {
      assert w[..0] == [];
    }
  }

  /** The loop visits every cell once: its weights add up to Sum(w). */
  lemma GridWeightSumIsSum(w: seq<real>, radius: nat)
    requires |w| == KernelLen(radius)
    ensures GridWeightSum(w, radius, KernelSize(radius)) == Sum(w)
  {
    GridWeightSumIsPrefix(w, radius, KernelSize(radius));
    assert w[..KernelLen(radius)] == w;
  }

  /** Weighting distributes over a sum of weights. */
  lemma WeightedAdd(c: Color, ch: Channel, a: real, b: real)
    ensures Weighted(c, ch, a) + Weighted(c, ch, b) == Weighted(c, ch, a + b)
  {
  }

  /** On a uniform image a row's terms add up to the colour times that row's weights. */
  lemma {:induction false} UniformRowSum(img: Image, w: seq<real>, radius: nat, x: int, y: int, ch: Channel, i: int, n: nat, c: Color)
    requires img.Width() >= 1 && img.Height() >= 1 && Uniform(img, c)
    requires |w| == KernelLen(radius)
    requires -(radius as int) <= i <= radius && n <= KernelSize(radius)
    ensures RowSum(img, w, radius, x, y, ch, i, n) == Weighted(c, ch, RowWeightSum(w, radius, i, n))
  {
    if n > 0 {
      var j := n - 1 - radius;
      UniformRowSum(img, w, radius, x, y, ch, i, n - 1, c);
      assert Sample(img, x, y, i, j) == c;
      WeightedAdd(c, ch, RowWeightSum(w, radius, i, n - 1), w[KernelIndex(radius, i, j)]);
    }
  }

  /** On a uniform image the first m rows add up to the colour times their weights. */
  lemma {:induction false} UniformGridSum(img: Image, w: seq<real>, radius: nat, x: int, y: int, ch: Channel, m: nat, c: Color)
    requires img.Width() >= 1 && img.Height() >= 1 && Uniform(img, c)
    requires |w| == KernelLen(radius) && m <= KernelSize(radius)
    ensures GridSum(img, w, radius, x, y, ch, m) == Weighted(c, ch, GridWeightSum(w, radius, m))
  {
    if m > 0 {
      var size := KernelSize(radius);
      UniformGridSum(img, w, radius, x, y, ch, m - 1, c);
      UniformRowSum(img, w, radius, x, y, ch, m - 1 - radius, size, c);
      WeightedAdd(c, ch, GridWeightSum(w, radius, m - 1), RowWeightSum(w, radius, m - 1 - radius, size));
    }
  }

  /** On a uniform image the weighted sum is the colour times the sum of the weights. */
  lemma UniformWeightedSum(img: Image, w: seq<real>, radius: nat, x: int, y: int, ch: Channel, c: Color)
    requires img.Width() >= 1 && img.Height() >= 1 && Uniform(img, c)
    requires |w| == KernelLen(radius)
    ensures WeightedSum(img, w, radius, x, y, ch) == Weighted(c, ch, Sum(w))
  {
    UniformGridSum(img, w, radius, x, y, ch, KernelSize(radius), c);
    GridWeightSumIsSum(w, radius);
  }

  /** A kernel whose weights sum to 1 leaves a uniform image unchanged. */
  lemma MatrixUniform(img: Image, w: seq<real>, radius: nat, x: int, y: int, c: Color)
    requires img.Width() >= 1 && img.Height() >= 1 && Uniform(img, c)
    requires |w| == KernelLen(radius) && Sum(w) == 1.0
    ensures MatrixColor(img, w, radius, x, y) == c
  {
    UniformWeightedSum(img, w, radius, x, y, Red, c);
    UniformWeightedSum(img, w, radius, x, y, Green, c);
    UniformWeightedSum(img, w, radius, x, y, Blue, c);
    SaturateExact(c.red);
    SaturateExact(c.green);
    SaturateExact(c.blue);
  }

  lemma BlurUniform(img: Image, radius: nat, x: int, y: int, c: Color)
    requires img.Width() >= 1 && img.Height() >= 1 && Uniform(img, c)
    ensures MatrixColor(img, BoxWeights(radius), radius, x, y) == c
  {
    BoxWeightsSum(radius);
    MatrixUniform(img, BoxWeights(radius), radius, x, y, c);
  }

  /** The centre cell of every neighbourhood is the pixel itself. */
  lemma SampleCentre(img: Image, x: int, y: int)
    requires 0 <= x < img.Width() && 0 <= y < img.Height()
    ensures Sample(img, x, y, 0, 0) == img.pixels[x, y]
  {
  }

  /** With radius 0 the neighbourhood is the pixel itself, weighted by the one kernel cell. */
  lemma RadiusZeroSum(img: Image, w: seq<real>, radius: nat, x: int, y: int, ch: Channel)
    requires 0 <= x < img.Width() && 0 <= y < img.Height()
    requires radius == 0 && |w| == KernelLen(radius)
    ensures WeightedSum(img, w, radius, x, y, ch) == Weighted(img.pixels[x, y], ch, w[0])
  {
    assert KernelSize(radius) == 1;
    CentreRowSum(img, w, radius, x, y, ch);
    assert GridSum(img, w, radius, x, y, ch, 1) == RowSum(img, w, radius, x, y, ch, 0, 1);
  }

  /** With radius 0 the one kernel row holds the one centre term. */
  lemma CentreRowSum(img: Image, w: seq<real>, radius: nat, x: int, y: int, ch: Channel)
    requires 0 <= x < img.Width() && 0 <= y < img.Height()
    requires radius == 0 && |w| == KernelLen(radius)
    ensures RowSum(img, w, radius, x, y, ch, 0, 1) == Weighted(img.pixels[x, y], ch, w[0])
  {
    var j := 1 - 1 - radius;
    assert j == 0;
    assert RowSum(img, w, radius, x, y, ch, 0, 1) ==
      RowSum(img, w, radius, x, y, ch, 0, 0) + Weighted(Sample(img, x, y, 0, j), ch, w[KernelIndex(radius, 0, j)]);
    assert KernelIndex(radius, 0, j) == 0;
    SampleCentre(img, x, y);
  }

  /** A box blur of radius 0 leaves every pixel of every image unchanged. */
  lemma BlurRadiusZero(img: Image, x: int, y: int)
    requires 0 <= x < img.Width() && 0 <= y < img.Height()
    ensures MatrixColor(img, BoxWeights(0), 0, x, y) == img.pixels[x, y]
  {
    var c := img.pixels[x, y];
    var w := BoxWeights(0);
    BoxWeightsRadiusZero();
    RadiusZeroSum(img, w, 0, x, y, Red);
    RadiusZeroSum(img, w, 0, x, y, Green);
    RadiusZeroSum(img, w, 0, x, y, Blue);
    SaturateExact(c.red);
    SaturateExact(c.green);
    SaturateExact(c.blue);
  }

  lemma SharplessUniform(img: Image, x: int, y: int, c: Color)
    requires img.Width() >= 1 && img.Height() >= 1 && Uniform(img, c)
    ensures MatrixColor(img, SharplessWeights, 1, x, y) == c
  {
    SharplessSum();
    MatrixUniform(img, SharplessWeights, 1, x, y, c);
  }

  /** Both Sobel sums vanish on a uniform image. */
  lemma SobelUniformSums(img: Image, x: int, y: int, c: Color, ch: Channel)
    requires img.Width() >= 1 && img.Height() >= 1 && Uniform(img, c)
    ensures WeightedSum(img, SobelXWeights, 1, x, y, ch) == 0.0
    ensures WeightedSum(img, SobelYWeights, 1, x, y, ch) == 0.0
  {
    SobelXSum();
    SobelYSum();
    UniformWeightedSum(img, SobelXWeights, 1, x, y, ch, c);
    UniformWeightedSum(img, SobelYWeights, 1, x, y, ch, c);
    assert Weighted(c, ch, 0.0) == 0.0;
  }

  /** So the Sobel filter turns a uniform image black. */
  lemma SobelUniform(img: Image, x: int, y: int, c: Color)
    requires img.Width() >= 1 && img.Height() >= 1 && Uniform(img, c)
    ensures SobelColor(img, SobelXWeights, SobelYWeights, 1, x, y) == Color(0, 0, 0)
  {
    SobelUniformSums(img, x, y, c, Red);
    SobelUniformSums(img, x, y, c, Green);
    SobelUniformSums(img, x, y, c, Blue);
    MagnitudeZero(WeightedSum(img, SobelXWeights, 1, x, y, Red), WeightedSum(img, SobelYWeights, 1, x, y, Red));
    MagnitudeZero(WeightedSum(img, SobelXWeights, 1, x, y, Green), WeightedSum(img, SobelYWeights, 1, x, y, Green));
    MagnitudeZero(WeightedSum(img, SobelXWeights, 1, x, y, Blue), WeightedSum(img, SobelYWeights, 1, x, y, Blue));
  }

  /** On a 1 x 1 image every kernel filter scales the single pixel by the sum of its weights. */
  lemma MatrixOneByOne(img: Image, w: seq<real>, radius: nat, x: int, y: int, ch: Channel)
    requires img.Width() == 1 && img.Height() == 1
    requires |w| == KernelLen(radius)
    ensures MatrixColor(img, w, radius, x, y).Get(ch) == Saturate(Weighted(img.pixels[0, 0], ch, Sum(w)))
  {
    assert Uniform(img, img.pixels[0, 0]);
    UniformWeightedSum(img, w, radius, x, y, ch, img.pixels[0, 0]);
  }
}
