/** The size computation of `fitCanvasToImage` in sketch.js: the canvas takes
    the image's aspect ratio and is made as large as fits in the window less
    a 64-pixel margin on each axis.  The window size and the image size are
    parameters; the final `Math.round` and the two `resizeCanvas` calls are
    not part of the model, so sizes are reals. */
module CanvasFit {

  /** `maxW = vw - 64`, `maxH = vh - 64`. */
  const Margin: int := 64

  function Min(a: real, b: real): real {
    if a < b then a else b
  }

  /** Division by a positive real undoes multiplication by it. */
  lemma DivMul(x: real, ar: real)
    requires ar > 0.0
    ensures (x / ar) * ar == x
    ensures (x * ar) / ar == x
  {
  }

  /** Multiplication by a positive real keeps the order. */
  lemma MulMonotone(a: real, b: real, ar: real)
    requires ar > 0.0 && a <= b
    ensures a * ar <= b * ar
  {
  }

  /** The width of the largest box of aspect ratio `ar` (width over height)
      inside a maxW x maxH box: the full width, unless the height that width
      needs exceeds maxH. */
  function FitWidth(maxW: real, maxH: real, ar: real): real
    requires ar > 0.0
  {
    Min(maxW, maxH * ar)
  }

  /** The height that goes with FitWidth. */
  function FitHeight(maxW: real, maxH: real, ar: real): real
    requires ar > 0.0
  {
    FitWidth(maxW, maxH, ar) / ar
  }

  /** `fitCanvasToImage(img)` before rounding: the wide branch fills the
      width and falls back to the height, the tall branch the other way
      round; both end at the same size, FitWidth by FitHeight, which has
      the image's aspect ratio. */
  method FitCanvasToImage(vw: int, vh: int, imgWidth: int, imgHeight: int) returns (newW: real, newH: real)
    requires imgWidth > 0 && imgHeight > 0
    ensures var ar := imgWidth as real / imgHeight as real;
      && newW == FitWidth((vw - Margin) as real, (vh - Margin) as real, ar)
      && newH == FitHeight((vw - Margin) as real, (vh - Margin) as real, ar)
    ensures newW * imgHeight as real == newH * imgWidth as real
  {
    var maxW := (vw - Margin) as real;
    var maxH := (vh - Margin) as real;
    var imgAR := imgWidth as real / imgHeight as real;
    if imgAR > 1.0 {
      // wider than tall: fit horizontally
      newW := maxW;
      newH := newW / imgAR;
      if newH > maxH {
        newH := maxH;
        newW := newH * imgAR;
        HeightBound(maxW, maxH, imgAR);
      } else {
        WidthBound(maxW, maxH, imgAR);
      }
    } else {
      // taller than wide: fit vertically
      newH := maxH;
      newW := newH * imgAR;
      if newW > maxW {
        newW := maxW;
        newH := newW / imgAR;
        WidthBound(maxW, maxH, imgAR);
      } else {
        HeightBound(maxW, maxH, imgAR);
      }
    }
    AspectCross(newH, imgWidth as real, imgHeight as real);
  }

  /** When the full width needs no more than the full height allows, the
      fit is the full width. */
  lemma WidthBound(maxW: real, maxH: real, ar: real)
    requires ar > 0.0
    requires maxW / ar <= maxH || maxH * ar > maxW
    ensures FitWidth(maxW, maxH, ar) == maxW
    ensures FitHeight(maxW, maxH, ar) == maxW / ar
  {
    if maxW / ar <= maxH {
      MulMonotone(maxW / ar, maxH, ar);
      DivMul(maxW, ar);
    }
  }

  /** When the full height needs no more than the full width allows, the
      fit is the full height. */
  lemma HeightBound(maxW: real, maxH: real, ar: real)
    requires ar > 0.0
    requires maxW / ar > maxH || maxH * ar <= maxW
    ensures FitWidth(maxW, maxH, ar) == maxH * ar
    ensures FitHeight(maxW, maxH, ar) == maxH
  {
    DivMul(maxH, ar);
    if maxW / ar > maxH {
      MulMonotone(maxH, maxW / ar, ar);
      DivMul(maxW, ar);
      assert maxH * ar != maxW;
    }
  }

  /** A height times the aspect ratio iw / ih, times ih, is the height times iw. */
  lemma AspectCross(h: real, iw: real, ih: real)
    requires ih > 0.0
    ensures h * (iw / ih) * ih == h * iw
  {
    DivMul(iw, ih);
    assert h * (iw / ih) * ih == h * ((iw / ih) * ih);
  }

  /** In a box of positive size, the fitted size is positive, stays inside the
      box, and touches it on at least one side. */
  lemma {:induction false} FitInsideBox(maxW: real, maxH: real, ar: real)
    requires ar > 0.0 && maxW > 0.0 && maxH > 0.0
    ensures 0.0 < FitWidth(maxW, maxH, ar) <= maxW
    ensures 0.0 < FitHeight(maxW, maxH, ar) <= maxH
    ensures FitWidth(maxW, maxH, ar) == maxW || FitHeight(maxW, maxH, ar) == maxH
  {
    var w := FitWidth(maxW, maxH, ar);
    DivMul(maxH, ar);
    if maxW <= maxH * ar {
      MulMonotone(maxW / ar, maxH, ar);
      DivMul(maxW, ar);
      assert w / ar <= maxH;
    }
    assert w / ar > 0.0;
  }

  /** The fitted width is the largest width of any box of aspect ratio `ar`
      inside the maxW x maxH box. */
  lemma {:induction false} FitIsLargest(maxW: real, maxH: real, ar: real, w: real, h: real)
    requires ar > 0.0 && w == h * ar && w <= maxW && h <= maxH
    ensures w <= FitWidth(maxW, maxH, ar)
  {
    MulMonotone(h, maxH, ar);
  }
}
