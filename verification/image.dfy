/** The image buffer the blur reads and writes: a `width × height` grid of
    RGB pixels, indexed `[x][y]` as `QImage::pixelColor(x, y)` is. */
module Images {

  /** One 8-bit colour channel. */
  type Channel = c: int | 0 <= c <= 255

  datatype Pixel = Pixel(red: Channel, green: Channel, blue: Channel)

  /** The three channels the convolution accumulates independently. */
  datatype Component = Red | Green | Blue

  function Value(p: Pixel, c: Component): Channel
  {
    match c
    case Red => p.red
    case Green => p.green
    case Blue => p.blue
  }

  /** `px[x]` is column `x`; `px[x][y]` is the pixel at `(x, y)`. */
  datatype Image = Image(width: int, height: int, px: seq<seq<Pixel>>)
  {
    predicate Valid()
    {
      && 0 <= width
      && 0 <= height
      && |px| == width
      && forall x :: 0 <= x < width ==> |px[x]| == height
    }

    predicate InBounds(x: int, y: int)
    {
      0 <= x < width && 0 <= y < height
    }

    function At(x: int, y: int): Pixel
      requires Valid() && InBounds(x, y)
    {
      px[x][y]
    }

    /** Every pixel of the image holds `p`. */
    predicate Uniform(p: Pixel)
      requires Valid()
    {
      forall x, y :: 0 <= x < width && 0 <= y < height ==> At(x, y) == p
    }
  }

  /** `setPixelColor(x, y, p)`: only pixel `(x, y)` changes. */
  function SetPixel(img: Image, x: int, y: int, p: Pixel): (out: Image)
    requires img.Valid() && img.InBounds(x, y)
    ensures out.Valid() && out.width == img.width && out.height == img.height
    ensures out.At(x, y) == p
    ensures forall x2, y2 :: out.InBounds(x2, y2) && (x2, y2) != (x, y) ==> out.At(x2, y2) == img.At(x2, y2)
  {
    img.(px := img.px[x := img.px[x][y := p]])
  }

  /** Two valid images of the same size with the same pixels are equal. */
  lemma {:induction false} ImageExtensionality(a: Image, b: Image)
    requires a.Valid() && b.Valid()
    requires a.width == b.width && a.height == b.height
    requires forall x, y :: a.InBounds(x, y) ==> a.At(x, y) == b.At(x, y)
    ensures a == b
  {
    forall x | 0 <= x < a.width
      ensures a.px[x] == b.px[x]
    {
      forall y | 0 <= y < a.height
        ensures a.px[x][y] == b.px[x][y]
      {
        assert a.InBounds(x, y);
      }
    }
  }

  /** Conversion of a floating value to `int`, which truncates toward zero. */
  function Truncate(v: real): (t: int)
    ensures v >= 0.0 ==> t as real <= v < t as real + 1.0
    ensures v < 0.0 ==> t as real - 1.0 < v <= t as real
  {
    if v >= 0.0 then v.Floor else -((-v).Floor)
  }

  /** The channel stored for an accumulated sum `v`: truncated toward zero, then
      held inside the 8-bit range. */
  function ToChannel(v: real): (c: Channel)
    ensures 0.0 <= v < 256.0 ==> c as real <= v < c as real + 1.0
    ensures v < 1.0 ==> c == 0
    ensures v >= 255.0 ==> c == 255
  {
    var t := Truncate(v);
    if t < 0 then 0 else if t > 255 then 255 else t
  }

  /** A channel value converted to a real and back is unchanged. */
  lemma ToChannelOfChannel(c: Channel)
    ensures ToChannel(c as real) == c
  {
  }
}
