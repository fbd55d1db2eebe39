/** The drawing page's pixel loops (public/draw.js): normalizeMaskAlpha,
    which turns a mask without transparency into a black/white alpha mask,
    and trimTransparent, which finds the bounding box of the painted pixels.
    A buffer is p5's `pixels`: four bytes (red, green, blue, alpha) per
    pixel, row by row, at pixel density 1. */
module DrawPixels {
  import opened Numeric

  newtype byte = b: int | 0 <= b < 256

  /** Index of the first pixel of row `y` in an image `w` pixels wide,
      that is `y * w`, counted up row by row. */
  function RowStart(w: nat, y: nat): nat {
    if y == 0 then 0 else RowStart(w, y - 1) + w
  }

  lemma {:induction false} RowStartIsProduct(w: nat, y: nat)
    ensures RowStart(w, y) == y * w
  {
    if y > 0 {
      RowStartIsProduct(w, y - 1);
    }
  }

  /** Byte offset of channel `c` of pixel (x, y): `4 * (y * w + x) + c`. */
  function Offset(w: nat, x: int, y: nat, c: int): int {
    4 * (RowStart(w, y) + x) + c
  }

  lemma {:induction false} RowStartBelow(w: nat, y: nat, h: nat)
    requires y < h
    ensures RowStart(w, y) + w <= RowStart(w, h)
  {
    if y + 1 < h {
      RowStartBelow(w, y, h - 1);
    }
  }

  /** The four bytes of a pixel of a `w` by `h` image lie in its buffer. */
  lemma OffsetInRange(w: nat, h: nat, x: nat, y: nat)
    requires x < w && y < h
    ensures 0 <= Offset(w, x, y, 0) && Offset(w, x, y, 3) < 4 * w * h
  {
    RowStartBelow(w, y, h);
    RowStartIsProduct(w, h);
    assert 4 * w * h == 4 * (h * w);
  }

  /** The alpha byte of the `q`-th pixel. */
  function Alpha(s: seq<byte>, q: nat): byte
    requires 4 * q + 3 < |s|
  {
    s[4 * q + 3]
  }

  /** Some pixel has an alpha below 250 (draw.js:222-223). */
  ghost predicate HasVarAlpha(s: seq<byte>) {
    exists q: nat :: 4 * q + 3 < |s| && Alpha(s, q) < 250
  }

  /** `0.2126 r + 0.7152 g + 0.0722 b`. */
  function Luma(r: byte, g: byte, b: byte): real {
    0.2126 * r as real + 0.7152 * g as real + 0.0722 * b as real
  }

  /** Byte `j` of the binarised mask: every channel of a pixel whose luma
      exceeds 127 is 255, every channel of any other pixel 0 (a pixel cut
      short by the end of the buffer, which p5 never produces, counts as
      dark). */
  function MaskByte(s: seq<byte>, j: nat): byte
  {
    var p := j / 4;
    if 4 * p + 2 < |s| && Luma(s[4 * p], s[4 * p + 1], s[4 * p + 2]) > 127.0 then 255 else 0
  }

  function Binarised(s: seq<byte>): (t: seq<byte>)
    ensures |t| == |s| && forall j :: 0 <= j < |s| ==> t[j] == MaskByte(s, j)
  {
    seq(|s|, j requires 0 <= j < |s| => MaskByte(s, j))
  }

  /** Each pixel of the binarised mask is opaque white (255, 255, 255, 255)
      when the luma of the source pixel exceeds 127 and transparent black
      (0, 0, 0, 0) otherwise. */
  lemma BinarisedPixels(s: seq<byte>, p: nat)
    requires 4 * p + 3 < |s|
    ensures var t := Binarised(s);
      var v: byte := if Luma(s[4 * p], s[4 * p + 1], s[4 * p + 2]) > 127.0 then 255 else 0;
      t[4 * p] == v && t[4 * p + 1] == v && t[4 * p + 2] == v && t[4 * p + 3] == v
  {
    var t := Binarised(s);
    assert (4 * p + 1) / 4 == p && (4 * p + 2) / 4 == p && (4 * p + 3) / 4 == p;
    assert t[4 * p] == MaskByte(s, 4 * p);
    assert t[4 * p + 1] == MaskByte(s, 4 * p + 1);
    assert t[4 * p + 2] == MaskByte(s, 4 * p + 2);
    assert t[4 * p + 3] == MaskByte(s, 4 * p + 3);
  }

  /** A binarised mask has only fully transparent and fully opaque pixels,
      so binarising it again changes nothing. */
  lemma BinarisedIdempotent(s: seq<byte>)
    requires |s| % 4 == 0
    ensures Binarised(Binarised(s)) == Binarised(s)
  {
    var t := Binarised(s);
    forall j | 0 <= j < |s|
      ensures Binarised(t)[j] == t[j]
    {
      var p := j / 4;
      PixelOf(j, |s|);
      BinarisedPixels(s, p);
      UniformPixel(t, p, j);
    }
  }

  lemma PixelOf(j: nat, n: nat)
    requires j < n && n % 4 == 0
    ensures 4 * (j / 4) <= j <= 4 * (j / 4) + 3 < n
  {
  }

  /** A pixel whose channels all equal 0 or all equal 255 binarises to
      itself. */
  lemma UniformPixel(t: seq<byte>, p: nat, j: nat)
    requires 4 * p + 3 < |t| && j / 4 == p
    requires t[4 * p] == t[4 * p + 1] == t[4 * p + 2] == t[4 * p + 3]
    requires t[4 * p] == 0 || t[4 * p] == 255
    requires 4 * p <= j <= 4 * p + 3
    ensures MaskByte(t, j) == t[j]
  {
  }

  /** The first `n` bytes of `out` hold the binarised mask of `s`. */
  ghost predicate MaskedTo(s: seq<byte>, out: seq<byte>, n: int) {
    0 <= n <= |out| && forall j :: 0 <= j < n ==> out[j] == MaskByte(s, j)
  }

  /** The alpha scan of draw.js:222-223. */
  method ScanAlpha(px: array<byte>) returns (hasVarAlpha: bool)
    ensures hasVarAlpha <==> HasVarAlpha(px[..])
  {
    hasVarAlpha := false;
    var i := 3;
    while i < px.Length
      invariant 3 <= i && i % 4 == 3
      invariant forall q: nat :: 4 * q + 3 < i && 4 * q + 3 < px.Length ==> Alpha(px[..], q) >= 250
    {
      if px[i] < 250 {
        assert Alpha(px[..], i / 4) < 250;
        hasVarAlpha := true;
        break;
      }
      i := i + 4;
    }
  }

  /** Lines 226-234 of draw.js: the binarised copy of a `w` by `h` image. */
  method Binarise(px: array<byte>, w: nat, h: nat) returns (out: array<byte>)
    requires px.Length == 4 * RowStart(w, h)
    ensures fresh(out) && out[..] == Binarised(px[..])
  {
    out := new byte[px.Length];
    var y := 0;
    while y < h
      invariant 0 <= y <= h && fresh(out) && out.Length == px.Length
      invariant MaskedTo(px[..], out[..], Offset(w, 0, y, 0))
    {
      RowStartBelow(w, y, h);
      BinariseRow(px, out, w, y);
      y := y + 1;
    }
  }

  /** The row `y` of the binarised copy. */
  method BinariseRow(px: array<byte>, out: array<byte>, w: nat, y: nat)
    requires out != px && out.Length == px.Length
    requires Offset(w, w, y, 0) <= px.Length
    requires MaskedTo(px[..], out[..], Offset(w, 0, y, 0))
    modifies out
    ensures MaskedTo(px[..], out[..], Offset(w, 0, y + 1, 0))
  {
    var x := 0;
    while x < w
      invariant 0 <= x <= w
      invariant MaskedTo(px[..], out[..], Offset(w, x, y, 0))
    {
      PaintPixel(px, out, Offset(w, x, y, 0));
      x := x + 1;
    }
  }

  /** The body of the loop of draw.js:227-234 for the pixel whose bytes
      start at `idx`. */
  method PaintPixel(px: array<byte>, out: array<byte>, idx: int)
    requires out != px && out.Length == px.Length
    requires idx % 4 == 0 && idx + 3 < px.Length
    requires MaskedTo(px[..], out[..], idx)
    modifies out
    ensures MaskedTo(px[..], out[..], idx + 4)
  {
    var luma := Luma(px[idx], px[idx + 1], px[idx + 2]);
    var v: byte := if luma > 127.0 then 255 else 0;
    assert (idx + 1) / 4 == idx / 4 && (idx + 2) / 4 == idx / 4 && (idx + 3) / 4 == idx / 4;
    out[idx], out[idx + 1], out[idx + 2], out[idx + 3] := v, v, v, v;
  }

  /** normalizeMaskAlpha (draw.js:217-237) over the `w` by `h` pixels of the
      mask drawn at its own size: the image itself when some alpha is below
      250, otherwise a new image holding the binarised mask. */
  method NormalizeMaskAlpha(px: array<byte>, w: nat, h: nat) returns (out: array<byte>)
    requires px.Length == 4 * w * h
    ensures HasVarAlpha(px[..]) ==> out == px
    ensures !HasVarAlpha(px[..]) ==> fresh(out) && out[..] == Binarised(px[..])
  {
    var hasVarAlpha := ScanAlpha(px);
    if hasVarAlpha {
      return px;
    }
    PixelCount(w, h);
    out := Binarise(px, w, h);
  }

  lemma PixelCount(w: nat, h: nat)
    ensures 4 * w * h == 4 * RowStart(w, h)
  {
    RowStartIsProduct(w, h);
    assert 4 * w * h == 4 * (h * w);
  }

  /** Pixel (x, y) is painted: its alpha reaches the threshold. */
  predicate Inked(s: seq<byte>, w: nat, x: int, y: int, threshold: int) {
    0 <= x < w && 0 <= y && 0 <= Offset(w, x, y, 3) < |s| && s[Offset(w, x, y, 3)] as int >= threshold
  }

  /** The box `[minX..maxX] x [minY..maxY]` before padding. */
  datatype Bounds = Bounds(minX: int, minY: int, maxX: int, maxY: int)

  /** What trimTransparent returns: a 64 by 64 blank for an image with no
      painted pixel, otherwise the crop at (x, y) of size w by h. */
  datatype Trimmed = Blank | Crop(x: int, y: int, w: int, h: int) {
    function Width(): int {
      if Blank? then 64 else w
    }
    function Height(): int {
      if Blank? then 64 else h
    }
  }

  /** Pixel (x, y) comes before (cx, cy) in row-by-row order. */
  predicate Before(w: int, x: int, y: int, cx: int, cy: int) {
    0 <= x < w && 0 <= y && (y < cy || (y == cy && x < cx))
  }

  /** Every painted pixel scanned so far lies in the box. */
  ghost predicate Covered(s: seq<byte>, w: nat, threshold: int, b: Bounds, cx: int, cy: int) {
    forall x, y :: Before(w, x, y, cx, cy) && Inked(s, w, x, y, threshold) ==>
      b.minX <= x <= b.maxX && b.minY <= y <= b.maxY
  }

  /** The box of the painted pixels of a `w` by `h` image: it holds every
      painted pixel, and each of its edges passes through one. */
  ghost predicate TightBox(s: seq<byte>, w: nat, h: int, threshold: int, b: Bounds) {
    && 0 <= b.minX <= b.maxX < w && 0 <= b.minY <= b.maxY < h
    && (forall x, y :: 0 <= y < h && Inked(s, w, x, y, threshold) ==>
          b.minX <= x <= b.maxX && b.minY <= y <= b.maxY)
    && (exists y :: 0 <= y < h && Inked(s, w, b.minX, y, threshold))
    && (exists y :: 0 <= y < h && Inked(s, w, b.maxX, y, threshold))
    && (exists x :: Inked(s, w, x, b.minY, threshold))
    && (exists x :: Inked(s, w, x, b.maxY, threshold))
  }

  ghost predicate NoInk(s: seq<byte>, w: nat, h: int, threshold: int) {
    forall x, y :: 0 <= y < h ==> !Inked(s, w, x, y, threshold)
  }

  /** Lines 308-312 of draw.js: grow the box by `pad` on every side, clamp
      it to the image, and take its size. */
  function PadClamp(b: Bounds, pad: int, w: int, h: int): Trimmed
  {
    var x0 := IMax(0, b.minX - pad);
    var y0 := IMax(0, b.minY - pad);
    var x1 := IMin(w - 1, b.maxX + pad);
    var y1 := IMin(h - 1, b.maxY + pad);
    Crop(x0, y0, x1 - x0 + 1, y1 - y0 + 1)
  }

  /** The padded crop of a box inside the image lies inside the image, is
      one to `w` pixels wide and one to `h` high, and holds the box with up
      to `pad` pixels to spare on each side. */
  lemma PadClampBounds(b: Bounds, pad: int, w: int, h: int)
    requires 0 <= b.minX <= b.maxX < w && 0 <= b.minY <= b.maxY < h && pad >= 0
    ensures var c := PadClamp(b, pad, w, h);
      && c.Crop? && 0 <= c.x && c.x + c.w <= w && 0 <= c.y && c.y + c.h <= h
      && 1 <= c.w <= w && 1 <= c.h <= h
      && c.x <= b.minX && b.maxX < c.x + c.w && c.y <= b.minY && b.maxY < c.y + c.h
      && b.minX - c.x <= pad && c.x + c.w - 1 - b.maxX <= pad
      && b.minY - c.y <= pad && c.y + c.h - 1 - b.maxY <= pad
  {
  }

  /** The pixels that pin the edges of the box found so far: leftmost,
      rightmost, topmost and bottommost. */
  datatype Pins = Pins(left: (int, int), right: (int, int), top: (int, int), bottom: (int, int))

  /** The state of the scan of draw.js:294-302 on reaching pixel (cx, cy):
      the box holds every painted pixel met so far, is still the initial
      `(w, h, -1, -1)` when there was none, and is pinned otherwise. */
  ghost predicate Scanned(s: seq<byte>, w: nat, h: int, threshold: int, b: Bounds, pins: Pins, cx: int, cy: int) {
    && Covered(s, w, threshold, b, cx, cy)
    && (b.maxX < 0 ==> b.minX == w && b.minY == h && b.maxY == -1)
    && (b.maxX < 0 ==> forall x, y :: Before(w, x, y, cx, cy) ==> !Inked(s, w, x, y, threshold))
    && (b.maxX >= 0 ==> Touching(s, w, h, threshold, b, pins))
  }

  /** One pixel of the scan: a painted pixel stretches the box. */
  method Visit(px: array<byte>, w: nat, h: nat, threshold: int, x: nat, y: nat, b: Bounds, ghost pins: Pins)
    returns (b': Bounds, ghost pins': Pins)
    requires x < w && y < h && Offset(w, x, y, 3) < px.Length
    requires Scanned(px[..], w, h, threshold, b, pins, x, y)
    ensures Scanned(px[..], w, h, threshold, b', pins', x + 1, y)
  {
    var minX, minY, maxX, maxY := b.minX, b.minY, b.maxX, b.maxY;
    pins' := pins;
    if px[Offset(w, x, y, 3)] as int >= threshold {
      assert Inked(px[..], w, x, y, threshold);
      if x < minX { minX := x; pins' := pins'.(left := (x, y)); }
      if y < minY { minY := y; pins' := pins'.(top := (x, y)); }
      if x > maxX { maxX := x; pins' := pins'.(right := (x, y)); }
      if y > maxY { maxY := y; pins' := pins'.(bottom := (x, y)); }
    }
    b' := Bounds(minX, minY, maxX, maxY);
  }

  /** One row of the scan. */
  method ScanRow(px: array<byte>, w: nat, h: nat, threshold: int, y: nat, b: Bounds, ghost pins: Pins)
    returns (b': Bounds, ghost pins': Pins)
    requires y < h && Offset(w, w, y, 0) <= px.Length
    requires Scanned(px[..], w, h, threshold, b, pins, 0, y)
    ensures Scanned(px[..], w, h, threshold, b', pins', 0, y + 1)
  {
    b', pins' := b, pins;
    var x := 0;
    while x < w
      invariant 0 <= x <= w
      invariant Scanned(px[..], w, h, threshold, b', pins', x, y)
    {
      b', pins' := Visit(px, w, h, threshold, x, y, b', pins');
      x := x + 1;
    }
    RowEnd(px[..], w, h, threshold, b', pins', y);
  }

  lemma RowEnd(s: seq<byte>, w: nat, h: int, threshold: int, b: Bounds, pins: Pins, y: int)
    requires Scanned(s, w, h, threshold, b, pins, w, y)
    ensures Scanned(s, w, h, threshold, b, pins, 0, y + 1)
  {
    assert forall x, y' :: Before(w, x, y', 0, y + 1) <==> Before(w, x, y', w, y);
  }

  /** At the end of the scan the box is the tight box of the painted
      pixels, or still the initial box when nothing is painted. */
  lemma ScanDone(s: seq<byte>, w: nat, h: int, threshold: int, b: Bounds, pins: Pins)
    requires Scanned(s, w, h, threshold, b, pins, 0, h)
    ensures b.maxX < 0 ==> NoInk(s, w, h, threshold) && b.minX == w && b.minY == h && b.maxY == -1
    ensures b.maxX >= 0 ==> TightBox(s, w, h, threshold, b)
  {
    assert forall x, y :: 0 <= y < h && Inked(s, w, x, y, threshold) ==> Before(w, x, y, 0, h);
    if b.maxX >= 0 {
      assert Inked(s, w, b.minX, pins.left.1, threshold);
      assert Inked(s, w, b.maxX, pins.right.1, threshold);
      assert Inked(s, w, pins.top.0, b.minY, threshold);
      assert Inked(s, w, pins.bottom.0, b.maxY, threshold);
    }
  }

  /** The scan of draw.js:294-302 over the whole image. */
  method ScanImage(px: array<byte>, w: nat, h: nat, threshold: int) returns (b: Bounds, ghost pins: Pins)
    requires px.Length == 4 * RowStart(w, h)
    ensures Scanned(px[..], w, h, threshold, b, pins, 0, h)
  {
    b := Bounds(w, h, -1, -1);
    pins := Pins((0, 0), (0, 0), (0, 0), (0, 0));
    var y := 0;
    while y < h
      invariant 0 <= y <= h
      invariant Scanned(px[..], w, h, threshold, b, pins, 0, y)
    {
      RowStartBelow(w, y, h);
      b, pins := ScanRow(px, w, h, threshold, y, b, pins);
      y := y + 1;
    }
  }

  /** trimTransparent (draw.js:280-316) at pixel density 1, returning with
      the result the box it found. */
  method TrimTransparent(px: array<byte>, w: nat, h: nat, threshold: int, padding: int)
    returns (t: Trimmed, ghost box: Bounds)
    requires px.Length == 4 * w * h
    ensures t.Blank? <==> NoInk(px[..], w, h, threshold)
    ensures t.Crop? ==> TightBox(px[..], w, h, threshold, box) && t == PadClamp(box, IMax(0, padding), w, h)
    ensures t.Crop? ==> 0 <= t.x && t.x + t.w <= w && 0 <= t.y && t.y + t.h <= h
    ensures 1 <= t.Width() && 1 <= t.Height()
  {
    PixelCount(w, h);
    ghost var pins;
    var b;
    b, pins := ScanImage(px, w, h, threshold);
    ScanDone(px[..], w, h, threshold, b, pins);
    box := b;
    if b.maxX < b.minX || b.maxY < b.minY {
      t := Blank;
    } else {
      PadClampBounds(b, IMax(0, padding), w, h);
      t := PadClamp(b, IMax(0, padding), w, h);
    }
  }

  /** The four painted pixels that pin the edges of the box found so far. */
  ghost predicate Touching(s: seq<byte>, w: nat, h: int, threshold: int, b: Bounds, pins: Pins)
  {
    && 0 <= b.minX <= b.maxX < w && 0 <= b.minY <= b.maxY < h
    && Inked(s, w, pins.left.0, pins.left.1, threshold) && pins.left.0 == b.minX && pins.left.1 < h
    && Inked(s, w, pins.right.0, pins.right.1, threshold) && pins.right.0 == b.maxX && pins.right.1 < h
    && Inked(s, w, pins.top.0, pins.top.1, threshold) && pins.top.1 == b.minY
    && Inked(s, w, pins.bottom.0, pins.bottom.1, threshold) && pins.bottom.1 == b.maxY
  }
}
