/** The drawing page's layout arithmetic (public/draw.js): fitting an image
    into a box, the template box, the export downscale shared with the
    viewer's prefab sender, the base64 byte estimate and the pointer test. */
module DrawGeometry {
  import opened Numeric

  /** A rectangle with its top-left corner at (x, y). */
  datatype Box = Box(x: real, y: real, w: real, h: real)

  /** The result of fitImageInBox: where to draw and at what scale. */
  datatype Fit = Fit(dx: real, dy: real, dw: real, dh: real, scale: real)

  /** fitImageInBox (draw.js:208-214): scale the image by the smaller of the
      two box-to-image ratios and centre it. The scaled image fits the box,
      touches it on at least one side, keeps the image's aspect ratio and has
      equal margins on opposite sides. */
  function FitImageInBox(imgW: real, imgH: real, box: Box): (f: Fit)
    requires imgW > 0.0 && imgH > 0.0
    ensures f.scale == Min(box.w / imgW, box.h / imgH)
    ensures f.dw <= box.w && f.dh <= box.h
    ensures f.dw == box.w || f.dh == box.h
    ensures f.dw * imgH == f.dh * imgW
    ensures f.dx - box.x == (box.w - f.dw) / 2.0
    ensures f.dy - box.y == (box.h - f.dh) / 2.0
  {
    var scale := Min(box.w / imgW, box.h / imgH);
    FitBounds(imgW, imgH, box.w, box.h, scale);
    var dw := imgW * scale;
    var dh := imgH * scale;
    Fit(box.x + (box.w - dw) / 2.0, box.y + (box.h - dh) / 2.0, dw, dh, scale)
  }

  lemma FitBounds(imgW: real, imgH: real, bw: real, bh: real, scale: real)
    requires imgW > 0.0 && imgH > 0.0
    requires scale == Min(bw / imgW, bh / imgH)
    ensures imgW * scale <= bw && imgH * scale <= bh
    ensures imgW * scale == bw || imgH * scale == bh
    ensures (imgW * scale) * imgH == (imgH * scale) * imgW
  {
    var sw := bw / imgW;
    var sh := bh / imgH;
    assert imgW * sw == bw;
    assert imgH * sh == bh;
    MulLe(imgW, scale, sw);
    MulLe(imgH, scale, sh);
  }

  const TEMPLATE_MARGIN: real := 40.0

  /** `Math.min(maxH, maxW * 1.1)` for a canvas of the given size. */
  function TargetH(width: real, height: real): real
  {
    Min(height - 2.0 * TEMPLATE_MARGIN, (width - 2.0 * TEMPLATE_MARGIN) * 1.1)
  }

  /** `Math.min(maxW, targetH * 0.9)`. */
  function TargetW(width: real, height: real): real
  {
    Min(width - 2.0 * TEMPLATE_MARGIN, TargetH(width, height) * 0.9)
  }

  /** The unrounded template size (draw.js:166-170): at most the canvas
      minus the margins in each direction, at most 1.1 times as tall as the
      available width, at most 0.9 times as wide as it is tall, and as large
      as those limits allow. */
  lemma TemplateTargets(width: real, height: real)
    ensures var maxW := width - 2.0 * TEMPLATE_MARGIN;
      var maxH := height - 2.0 * TEMPLATE_MARGIN;
      var th := TargetH(width, height);
      var tw := TargetW(width, height);
      && th <= maxH && th <= 1.1 * maxW && (th == maxH || th == 1.1 * maxW)
      && tw <= maxW && tw <= 0.9 * th && (tw == maxW || tw == 0.9 * th)
  {
  }

  /** The global `templateBox` of the drawing page. */
  class TemplateBox {
    var x: int
    var y: int
    var w: int
    var h: int

    constructor ()
      ensures x == 0 && y == 0 && w == 0 && h == 0
    {
      x, y, w, h := 0, 0, 0, 0;
    }

    /** computeTemplateBox (draw.js:165-175) for a canvas of `width` by
        `height` pixels. */
    method Compute(width: int, height: int)
      modifies this
      ensures w == Round(TargetW(width as real, height as real))
      ensures h == Round(TargetH(width as real, height as real))
      ensures x == Round((width - w) as real / 2.0)
      ensures y == Round((height - h) as real * 0.55)
    {
      var targetH := TargetH(width as real, height as real);
      var targetW := TargetW(width as real, height as real);
      w := Round(targetW);
      h := Round(targetH);
      x := Round((width - w) as real / 2.0);
      y := Round((height - h) as real * 0.55);
    }
  }

  /** On a canvas at least two margins wide and high, the box computed by
      TemplateBox.Compute lies inside the canvas with at least a margin on
      every side, is centred horizontally to within half a pixel, and
      leaves 55% of the spare height above it, to within half a pixel. */
  lemma TemplateBoxPlacement(width: int, height: int)
    requires width >= 80 && height >= 80
    ensures var w := Round(TargetW(width as real, height as real));
      var h := Round(TargetH(width as real, height as real));
      var x := Round((width - w) as real / 2.0);
      var y := Round((height - h) as real * 0.55);
      && 0 <= w <= width - 80 && 0 <= h <= height - 80
      && 40 <= x && x + w <= width - 40
      && 44 <= y && y + h <= height
      && -1.0 <= (2 * x + w - width) as real <= 1.0
      && -0.5 <= y as real - (height - h) as real * 0.55 <= 0.5
  {
    TemplateTargets(width as real, height as real);
  }

  const MAX_DIM: int := 512

  /** The longest-side-512 downscale of zoo.js:473-479 (taken over from the
      drawing page): an image whose longer side exceeds MAX_DIM is scaled by
      MAX_DIM / longer side, each side rounded and kept at least 1 pixel. */
  function Downscale(w: nat, h: nat): (nat, nat)
  {
    var m := IMax(w, h);
    if m > MAX_DIM then
      (ScaledSide(w, m), ScaledSide(h, m))
    else
      (w, h)
  }

  /** `Math.max(1, Math.round(side * (512 / longer)))`. */
  function ScaledSide(side: nat, longer: nat): nat
    requires longer > 0
  {
    IMax(1, Round(side as real * (MAX_DIM as real / longer as real)))
  }

  lemma ScaledSideBounds(side: nat, longer: nat)
    requires 0 < longer && side <= longer
    ensures 1 <= ScaledSide(side, longer) <= MAX_DIM
    ensures side == longer ==> ScaledSide(side, longer) == MAX_DIM
  {
    var s := MAX_DIM as real / longer as real;
    assert longer as real * s == MAX_DIM as real;
    MulLe(s, side as real, longer as real);
    assert side as real * s <= MAX_DIM as real;
  }

  /** Lines 262-268 of draw.js: the downscale applied to the trimmed size
      after raising each side to at least one pixel. */
  function ExportSize(w: int, h: int): (nat, nat)
  {
    Downscale(IMax(1, w), IMax(1, h))
  }

  /** The export size is at least one pixel each way; an image with a
      side over MAX_DIM comes out with its longer side exactly MAX_DIM and
      neither side over it; any other image keeps its size, raised to one
      pixel where it was smaller. */
  lemma ExportSizeBounds(w: int, h: int)
    ensures var (ow, oh) := ExportSize(w, h);
      && ow >= 1 && oh >= 1
      && (IMax(w, h) > MAX_DIM ==> IMax(ow, oh) == MAX_DIM)
      && (IMax(w, h) <= MAX_DIM ==> ow == IMax(1, w) && oh == IMax(1, h))
  {
    var a, b := IMax(1, w), IMax(1, h);
    var m := IMax(a, b);
    if m > MAX_DIM {
      ScaledSideBounds(a, m);
      ScaledSideBounds(b, m);
    }
  }

  /** The viewer's prefab downscale (zoo.js:473-479), which starts from the
      loaded size as it is: of at most MAX_DIM on the longer side, unchanged
      when already that small, and at least one pixel each way for an image
      that had a pixel. */
  lemma DownscaleBounds(w: nat, h: nat)
    ensures var (ow, oh) := Downscale(w, h);
      && IMax(ow, oh) <= MAX_DIM
      && (IMax(w, h) > MAX_DIM ==> ow >= 1 && oh >= 1 && IMax(ow, oh) == MAX_DIM)
      && (IMax(w, h) <= MAX_DIM ==> ow == w && oh == h)
  {
    var m := IMax(w, h);
    if m > MAX_DIM {
      ScaledSideBounds(w, m);
      ScaledSideBounds(h, m);
    }
  }

  /** `Math.round(len * 3 / 4)`: the bytes a base64 text of `len` characters
      stands for (draw.js:273). */
  function EstimateBytes(len: nat): int
  {
    Round((len * 3) as real / 4.0)
  }

  /** The estimate is within half a byte of three quarters of the length. */
  lemma EstimateBytesClose(len: nat)
    ensures var b := EstimateBytes(len);
      -2 < 4 * b - 3 * len <= 2 && b >= 0
  {
  }

  /** mouseWithinCanvas (draw.js:161). */
  predicate MouseWithinCanvas(mx: real, my: real, width: int, height: int)
  {
    mx >= 0.0 && my >= 0.0 && mx < width as real && my < height as real
  }

  /** The pointer is within the canvas exactly when the pixel under it,
      at (floor(mx), floor(my)), is a pixel of the canvas. */
  lemma MouseWithinCanvasPixel(mx: real, my: real, width: int, height: int)
    ensures MouseWithinCanvas(mx, my, width, height) <==>
      0 <= Floor(mx) < width && 0 <= Floor(my) < height
  {
  }
}
