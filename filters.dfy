/**
 * The Filter hierarchy of Filter.h and Filter::process of Filter.cpp. The
 * subclasses become the variants of one datatype, their calcNewPixelColor
 * overrides one dispatch, and the subclasses' constructors the factory
 * methods below.
 */
module Filters {
  import opened Images
  import opened Kernels
  import opened PixelFilters
  import opened Convolution

  datatype Filter =
    | InvertFilter
    | GrayScaleFilter
    | SepiaFilter
    | ContrastFilter
      /** MatrixFilter and its subclasses BlurFilter, GaussianFilter and SharplessFilter. */
    | MatrixFilter(kernel: Kernel)
      /**
       * SobelFilter: the inherited mKernel (a copy of Sobel-X) fixes the loop
       * bounds, the members kernelX and kernelY supply the weights.
       */
    | SobelFilter(kernel: Kernel, kernelX: Kernel, kernelY: Kernel)
  {
    /** Every kernel holds its getLen() weights, and Sobel's three kernels share one radius. */
    predicate Valid()
    {
      match this
      case MatrixFilter(k) => k.Valid()
      case SobelFilter(k, kx, ky) =>
        k.Valid() && kx.Valid() && ky.Valid() && kx.radius == k.radius && ky.radius == k.radius
      case _ => true
    }

    /** The weight arrays the filter reads. */
    function Repr(): set<object>
    {
      match this
      case MatrixFilter(k) => {k.data}
      case SobelFilter(k, kx, ky) => {k.data, kx.data, ky.data}
      case _ => {}
    }
  }

  /** calcNewPixelColor(img, x, y) of each filter, over the unmodified input image. */
  function NewPixelColor(f: Filter, img: Image, x: int, y: int): (r: Color)
    reads img.pixels, f.Repr()
    requires f.Valid()
    requires 0 <= x < img.Width() && 0 <= y < img.Height()
    ensures f.InvertFilter? ==> forall ch :: r.Get(ch) == 255 - img.pixels[x, y].Get(ch)
    ensures f.GrayScaleFilter? ==> r.red == r.green == r.blue
    ensures f.SepiaFilter? ==> r.red == Sepia(img.pixels[x, y]).red
    ensures f.ContrastFilter? ==> forall ch :: img.pixels[x, y].Get(ch) <= r.Get(ch)
  {
    match f
    case InvertFilter => Invert(img.pixels[x, y])
    case GrayScaleFilter => GrayScale(img.pixels[x, y])
    case SepiaFilter => SepiaAsWritten(img.pixels[x, y])
    case ContrastFilter => Contrast(img.pixels[x, y])
    case MatrixFilter(k) => MatrixColor(img, k.Weights(), k.radius, x, y)
    case SobelFilter(k, kx, ky) => SobelColor(img, kx.Weights(), ky.Weights(), k.radius, x, y)
  }

  /** The virtual call calcNewPixelColor, dispatched on the filter's kind. */
  method CalcNewPixelColor(f: Filter, img: Image, x: int, y: int) returns (c: Color)
    requires f.Valid()
    requires 0 <= x < img.Width() && 0 <= y < img.Height()
    ensures c == NewPixelColor(f, img, x, y)
  {
    match f
    case InvertFilter => c := Invert(img.PixelColor(x, y));
    case GrayScaleFilter => c := GrayScale(img.PixelColor(x, y));
    case SepiaFilter => c := SepiaAsWritten(img.PixelColor(x, y));
    case ContrastFilter => c := Contrast(img.PixelColor(x, y));
    case MatrixFilter(k) => c := MatrixPixel(img, k, x, y);
    case SobelFilter(k, kx, ky) => c := SobelPixel(img, k, kx, ky, x, y);
  }

  /**
   * Filter::process: a copy of the input whose every pixel is then overwritten
   * with the new colour computed from the input, which itself is not modified.
   */
  method Process(f: Filter, img: Image) returns (result: Image)
    requires f.Valid()
    ensures fresh(result) && fresh(result.pixels)
    ensures result.Width() == img.Width() && result.Height() == img.Height()
    ensures forall x, y :: 0 <= x < result.Width() && 0 <= y < result.Height() ==>
      result.pixels[x, y] == NewPixelColor(f, img, x, y)
  {
    result := new Image.Copy(img);
    for x := 0 to img.Width()
      invariant forall x', y' :: 0 <= x' < x && 0 <= y' < img.Height() ==>
        result.pixels[x', y'] == NewPixelColor(f, img, x', y')
    {
      ProcessColumn(f, img, result, x);
    }
  }

  /** The inner loop of Filter::process: column x of result set to the new colours. */
  method ProcessColumn(f: Filter, img: Image, result: Image, x: int)
    requires f.Valid() && 0 <= x < img.Width()
    requires result.Width() == img.Width() && result.Height() == img.Height()
    requires result.pixels != img.pixels
    modifies result.pixels
    ensures forall y :: 0 <= y < img.Height() ==> result.pixels[x, y] == NewPixelColor(f, img, x, y)
    ensures forall x', y' :: 0 <= x' < img.Width() && x' != x && 0 <= y' < img.Height() ==>
      result.pixels[x', y'] == old(result.pixels[x', y'])
  {
    for y := 0 to img.Height()
      invariant forall y' :: 0 <= y' < y ==> result.pixels[x, y'] == NewPixelColor(f, img, x, y')
      invariant forall x', y' :: 0 <= x' < img.Width() && x' != x && 0 <= y' < img.Height() ==>
        result.pixels[x', y'] == old(result.pixels[x', y'])
    {
      var color := CalcNewPixelColor(f, img, x, y);
      result.pixels[x, y] := color;
    }
  }

  /** BlurFilter(radius = 1): a MatrixFilter holding a copy of BlurKernel(radius). */
  method NewBlurFilter(radius: nat := 1) returns (f: Filter)
    ensures f.Valid() && f.MatrixFilter? && fresh(f.kernel.data)
    ensures f.kernel.radius == radius && f.kernel.Weights() == BoxWeights(radius)
  {
    var blur := new Kernel.Blur(radius);
    var k := new Kernel.Copy(blur);
    f := MatrixFilter(k);
  }

  /** GaussianFilter(radius = 1): a MatrixFilter holding a copy of GaussianKernel(radius). */
  method NewGaussianFilter(weight: (int, int) -> real, radius: nat := 1) returns (f: Filter)
    requires forall x, y :: weight(x, y) > 0.0
    ensures f.Valid() && f.MatrixFilter? && fresh(f.kernel.data)
    ensures f.kernel.radius == radius && f.kernel.Weights() == GaussianWeights(radius, weight)
  {
    var gauss := new Kernel.Gaussian(radius, weight);
    var k := new Kernel.Copy(gauss);
    f := MatrixFilter(k);
  }

  /** SharplessFilter(): a MatrixFilter holding a copy of SharplessKernel(). */
  method NewSharplessFilter() returns (f: Filter)
    ensures f.Valid() && f.MatrixFilter? && fresh(f.kernel.data)
    ensures f.kernel.radius == 1 && f.kernel.Weights() == SharplessWeights
  {
    var sharp := new Kernel.Sharpless();
    var k := new Kernel.Copy(sharp);
    f := MatrixFilter(k);
  }

  /** SobelFilter(): mKernel a copy of SobelKernelX(), and its own kernelX and kernelY. */
  method NewSobelFilter() returns (f: Filter)
    ensures f.Valid() && f.SobelFilter?
    ensures fresh(f.kernel.data) && fresh(f.kernelX.data) && fresh(f.kernelY.data)
    ensures f.kernel.radius == 1 && f.kernel.Weights() == SobelXWeights
    ensures f.kernelX.Weights() == SobelXWeights && f.kernelY.Weights() == SobelYWeights
  {
    var sobelX := new Kernel.SobelX();
    var k := new Kernel.Copy(sobelX);
    var kx := new Kernel.SobelX();
    var ky := new Kernel.SobelY();
    f := SobelFilter(k, kx, ky);
  }

  /** A MatrixFilter whose weights sum to 1 maps a uniform image to itself. */
  lemma MatrixFilterUniform(f: Filter, img: Image, c: Color, x: int, y: int)
    requires f.Valid() && f.MatrixFilter? && Sum(f.kernel.Weights()) == 1.0
    requires 0 <= x < img.Width() && 0 <= y < img.Height() && Uniform(img, c)
    ensures NewPixelColor(f, img, x, y) == c
  {
    MatrixUniform(img, f.kernel.Weights(), f.kernel.radius, x, y, c);
  }

  /** A BlurFilter of radius 0 maps every image to itself. */
  lemma BlurFilterRadiusZero(f: Filter, img: Image, x: int, y: int)
    requires f.Valid() && f.MatrixFilter? && f.kernel.radius == 0 && f.kernel.Weights() == BoxWeights(0)
    requires 0 <= x < img.Width() && 0 <= y < img.Height()
    ensures NewPixelColor(f, img, x, y) == img.pixels[x, y]
  {
    BlurRadiusZero(img, x, y);
  }

  /** The Sobel filter maps a uniform image to black. */
  lemma SobelFilterUniform(f: Filter, img: Image, c: Color, x: int, y: int)
    requires f.Valid() && f.SobelFilter? && f.kernel.radius == 1
    requires f.kernelX.Weights() == SobelXWeights && f.kernelY.Weights() == SobelYWeights
    requires 0 <= x < img.Width() && 0 <= y < img.Height() && Uniform(img, c)
    ensures NewPixelColor(f, img, x, y) == Color(0, 0, 0)
  {
    SobelUniform(img, x, y, c);
  }

  /** The per-pixel filters read only the pixel itself. */
  lemma PixelFilterLocal(f: Filter, img1: Image, img2: Image, x: int, y: int)
    requires f.InvertFilter? || f.GrayScaleFilter? || f.SepiaFilter? || f.ContrastFilter?
    requires 0 <= x < img1.Width() && 0 <= y < img1.Height()
    requires 0 <= x < img2.Width() && 0 <= y < img2.Height()
    requires img1.pixels[x, y] == img2.pixels[x, y]
    ensures NewPixelColor(f, img1, x, y) == NewPixelColor(f, img2, x, y)
  {
  }

  /** Inverting the inverted image restores every pixel. */
  lemma InvertFilterInvolution(img: Image, inverted: Image, x: int, y: int)
    requires inverted.Width() == img.Width() && inverted.Height() == img.Height()
    requires forall x', y' :: 0 <= x' < img.Width() && 0 <= y' < img.Height() ==>
      inverted.pixels[x', y'] == NewPixelColor(InvertFilter, img, x', y')
    requires 0 <= x < img.Width() && 0 <= y < img.Height()
    ensures NewPixelColor(InvertFilter, inverted, x, y) == img.pixels[x, y]
  {
    InvertInvolution(img.pixels[x, y]);
  }
}
