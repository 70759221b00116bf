/** The blur action of the main window: two guards that show a warning and
    stop, then the separable or the 2-D blur depending on the check box. The
    kernel size is read from a spin box; the model assumes it is not
    negative, as with the spin box's default range `0..99`. */
module MainWindow {
  import opened Images
  import opened Kernel
  import opened Convolution
  import opened Separable

  /** The two warnings the action can show. */
  datatype Warning = ImageEmpty | KernelSizeEven

  /** What the action ends with: a warning and the image untouched, or the
      blurred image that replaces it. */
  datatype Outcome = Warned(warning: Warning) | Blurred(image: Image)

  /** The image the window holds once the action returns. */
  function ImageAfter(before: Image, o: Outcome): Image
  {
    match o
    case Warned(_) => before
    case Blurred(after) => after
  }

  /** The action as a function of the loaded image, the spin box value `k`
      (assumed non-negative) and the state of the separable check box. The
      empty-image check comes first, the kernel size is checked only for a
      non-empty image, and only a non-empty image with an odd size is
      blurred, into a valid image of the same size. */
  function BlurAction(n: Numerics, img: Image, k: nat, separable: bool): (o: Outcome)
    requires n.Valid() && img.Valid()
    ensures o == Warned(ImageEmpty) <==> img.width == 0 || img.height == 0
    ensures o == Warned(KernelSizeEven) <==> img.width > 0 && img.height > 0 && k % 2 == 0
    ensures o.Blurred? ==> OddSize(k)
    ensures o.Blurred? ==> o.image.Valid() && o.image.width == img.width && o.image.height == img.height
  {
    if img.width < 1 || img.height < 1 then Warned(ImageEmpty)
    else if k % 2 == 0 then Warned(KernelSizeEven)
    else if separable then Blurred(Blur1D(n, img, k))
    else Blurred(Blur2D(n, img, k))
  }

  /** `on_actionBlurImage_triggered`: check the image, then the kernel size,
      then run the blur the check box selects. */
  method OnActionBlurImage(n: Numerics, image: Image, kernelSize: nat, checked: bool) returns (o: Outcome)
    requires n.Valid() && image.Valid()
    ensures o == BlurAction(n, image, kernelSize, checked)
  {
    if image.width < 1 || image.height < 1 {
      return Warned(ImageEmpty);
    }
    if kernelSize % 2 == 0 {
      return Warned(KernelSizeEven);
    }
    var out;
    if checked {
      out := Do1DGaussianBlur(n, image, kernelSize);
    } else {
      out := Do2DGaussianBlur(n, image, kernelSize);
    }
    o := Blurred(out);
  }

  /** With a kernel of size one either blur gives back the image. */
  lemma {:induction false} ActionUnitKernel(n: Numerics, img: Image, separable: bool)
    requires n.Valid() && img.Valid() && img.width > 0 && img.height > 0
    ensures BlurAction(n, img, 1, separable) == Blurred(img)
  {
    if separable {
      Blur1DUnit(n, img);
    } else {
      Blur2DUnit(n, img);
    }
  }

  /** Either blur leaves an image of a single colour unchanged; the separable
      one needs the density to factorise through a profile `p`. */
  lemma {:induction false} ActionUniform(n: Numerics, img: Image, k: nat, separable: bool, c: Pixel, p: seq<real>)
    requires n.Valid() && img.Valid() && img.width > 0 && img.height > 0 && img.Uniform(c)
    requires k % 2 == 1 && (separable ==> Factorises(n, k, p))
    ensures ImageAfter(img, BlurAction(n, img, k, separable)) == img
  {
    if separable {
      Blur1DUniform(n, k, p, img, c);
    } else {
      Blur2DUniform(n, img, k, c);
    }
  }
}
