/**
 * The filters of Filter.cpp whose new colour depends on the one input pixel
 * only: Invert, GrayScale, Sepia and Contrast, with the luma getIntensity.
 */
module PixelFilters {
  import opened Saturation
  import opened Images

  /** SepiaFilter's strength k. */
  const SepiaK: int := 21

  /** ContrastFilter's offset k, added to every channel. */
  const ContrastK: int := 69

  /** getIntensity: the luma 0.299 R + 0.587 G + 0.114 B. */
  function Intensity(c: Color): (l: real)
    ensures 0.0 <= l <= 255.0
    ensures c.red == c.green == c.blue ==> l == c.red as real
  {
    0.299 * c.red as real + 0.587 * c.green as real + 0.114 * c.blue as real
  }

  /** InvertFilter: every channel reflected about the middle of [0, 255]. */
  function Invert(c: Color): (r: Color)
    ensures forall ch :: r.Get(ch) == 255 - c.Get(ch)
  {
    Color(255 - c.red, 255 - c.green, 255 - c.blue)
  }

  lemma InvertInvolution(c: Color)
    ensures Invert(Invert(c)) == c
  {
  }

  /** GrayScaleFilter: all three channels set to the luma, truncated. */
  function GrayScale(c: Color): (r: Color)
    ensures r.red == r.green == r.blue
    ensures r.red as real <= Intensity(c) < r.red as real + 1.0
  {
    var v := ToInt(Intensity(c));
    Color(v, v, v)
  }

  /** A grey pixel is left as it is, so GrayScale is idempotent. */
  lemma GrayScaleFixesGrey(c: Color)
    requires c.red == c.green == c.blue
    ensures GrayScale(c) == c
  {
  }

  lemma GrayScaleIdempotent(c: Color)
    ensures GrayScale(GrayScale(c)) == GrayScale(c)
  {
    GrayScaleFixesGrey(GrayScale(c));
  }

  /**
   * SepiaFilter corrected: every channel derived from the luma of the input pixel:
   * red = luma + 2k, green = luma + k/2, blue = luma - k, each saturated.
   */
  function Sepia(c: Color): (r: Color)
    ensures r.red >= r.green >= r.blue
    ensures c.red == c.green == c.blue && c.red <= 213 ==> r.red == c.red + 2 * SepiaK
  {
    var l := Intensity(c);
    SaturateMonotone(l + 0.5 * SepiaK as real, l + (2 * SepiaK) as real);
    SaturateMonotone(l - (1 * SepiaK) as real, l + 0.5 * SepiaK as real);
    Color(
      Saturate(l + (2 * SepiaK) as real),
      Saturate(l + 0.5 * SepiaK as real),
      Saturate(l - (1 * SepiaK) as real))
  }

  /**
   * SepiaFilter as Filter.cpp writes it: the red channel is stored first and
   * the luma for green is taken from the colour with the new red, the luma for
   * blue from the colour with the new red and green.
   */
  function SepiaAsWritten(c: Color): (r: Color)
    ensures r.red == Sepia(c).red
  {
    var withRed := c.(red := Saturate(Intensity(c) + (2 * SepiaK) as real));
    var withGreen := withRed.(green := Saturate(Intensity(withRed) + 0.5 * SepiaK as real));
    withGreen.(blue := Saturate(Intensity(withGreen) - (1 * SepiaK) as real))
  }

  /**
   * On a grey pixel of level v the code as written stores (v + 42, v + 23, v + 5):
   * the new red raises the luma used for green by 12.558, and red and green
   * together raise the luma used for blue by 26.059.
   */
  lemma SepiaAsWrittenGrey(c: Color)
    requires c.red == c.green == c.blue && c.red <= 213
    ensures SepiaAsWritten(c) == Color(c.red + 2 * SepiaK, c.red + 23, c.red + 5)
    ensures SepiaAsWritten(c).red >= SepiaAsWritten(c).green >= SepiaAsWritten(c).blue
  {
    var v := c.red;
    var withRed := c.(red := Saturate(Intensity(c) + (2 * SepiaK) as real));
    assert withRed == Color(v + 42, v, v);
    assert Intensity(withRed) == v as real + 12.558;
    var withGreen := withRed.(green := Saturate(Intensity(withRed) + 0.5 * SepiaK as real));
    assert withGreen == Color(v + 42, v + 23, v);
    assert Intensity(withGreen) == v as real + 26.059;
  }

  /** In the code as written a pure green pixel comes out greener than red. */
  lemma SepiaAsWrittenUnordered()
    ensures SepiaAsWritten(Color(0, 255, 0)) == Color(191, 217, 163)
    ensures SepiaAsWritten(Color(0, 255, 0)).red < SepiaAsWritten(Color(0, 255, 0)).green
    ensures Sepia(Color(0, 255, 0)) == Color(191, 160, 128)
  {
    var c := Color(0, 255, 0);
    assert Intensity(c) == 149.685;
    var withRed := c.(red := 191);
    assert Intensity(withRed) == 206.794;
    var withGreen := withRed.(green := 217);
    assert Intensity(withGreen) == 184.488;
  }

  /** ContrastFilter: k added to every channel, saturating at 255. */
  function Contrast(c: Color): (r: Color)
    ensures forall ch :: r.Get(ch) == if c.Get(ch) + ContrastK > 255 then 255 else c.Get(ch) + ContrastK
    ensures forall ch :: c.Get(ch) <= r.Get(ch)
  {
    Color(
      ClampInt(c.red + ContrastK, 255, 0),
      ClampInt(c.green + ContrastK, 255, 0),
      ClampInt(c.blue + ContrastK, 255, 0))
  }

  lemma InvertExample()
    ensures Invert(Color(10, 20, 30)) == Color(245, 235, 225)
  {
  }

  /** The luma of (10, 20, 30) is 18.15, stored as 18. */
  lemma GrayScaleExample()
    ensures GrayScale(Color(10, 20, 30)) == Color(18, 18, 18)
  {
    assert Intensity(Color(10, 20, 30)) == 18.15;
  }

  /** Black: (42, 23, 5) as written, (42, 10, 0) with one luma. */
  lemma SepiaBlack()
    ensures SepiaAsWritten(Color(0, 0, 0)) == Color(42, 23, 5)
    ensures Sepia(Color(0, 0, 0)) == Color(42, 10, 0)
  {
  }
}
