/**
 * The raster the filters read and write, standing in for QImage/QColor:
 * a colour is three 8-bit channels (no alpha), an image a width x height grid
 * of colours addressed as pixel (x, y), x the column and y the row.
 */
module Images {

  /** One 8-bit channel intensity, as QColor::red()/green()/blue() report it. */
  type Byte = x: int | 0 <= x <= 255

  datatype Channel = Red | Green | Blue

  datatype Color = Color(red: Byte, green: Byte, blue: Byte)
  {
    function Get(ch: Channel): Byte
    {
      match ch
      case Red => red
      case Green => green
      case Blue => blue
    }
  }

  class Image
  {
    /** pixels[x, y] is the colour of column x, row y. */
    const pixels: array2<Color>

    function Width(): nat
    {
      pixels.Length0
    }

    function Height(): nat
    {
      pixels.Length1
    }

    /** QImage::pixelColor(x, y) for a pixel inside the image. */
    function PixelColor(x: int, y: int): Color
      reads pixels
      requires 0 <= x < Width() && 0 <= y < Height()
    {
      pixels[x, y]
    }

    /** QImage's copy constructor, as a deep copy into a separately allocated grid. */
    constructor Copy(img: Image)
      ensures Width() == img.Width() && Height() == img.Height() && fresh(pixels)
      ensures forall x, y :: 0 <= x < Width() && 0 <= y < Height() ==> pixels[x, y] == img.pixels[x, y]
    {
      var grid := new Color[img.Width(), img.Height()];
      for x := 0 to img.Width()
        invariant forall x', y' :: 0 <= x' < x && 0 <= y' < img.Height() ==> grid[x', y'] == img.pixels[x', y']
      {
        for y := 0 to img.Height()
          invariant forall x', y' :: 0 <= x' < x && 0 <= y' < img.Height() ==> grid[x', y'] == img.pixels[x', y']
          invariant forall y' :: 0 <= y' < y ==> grid[x, y'] == img.pixels[x, y']
        {
          grid[x, y] := img.pixels[x, y];
        }
      }
      pixels := grid;
    }
  }
}
