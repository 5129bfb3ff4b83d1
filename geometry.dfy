/**
 * The pixel geometry of `generate_image` (Run.py): where the coloured background is
 * painted, the box the product photo goes into, how the photo is scaled into it
 * (fit when the background was removed, cover otherwise) and the final portrait crop.
 *
 * Pixels are not modelled, only the rectangles. PIL boxes are half-open:
 * `(left, top, right, bottom)` covers `left <= x < right`, `top <= y < bottom`.
 */
module Geometry {
  import opened Layout

  datatype Box = Box(left: int, top: int, right: int, bottom: int) {
    function Width(): int { right - left }
    function Height(): int { bottom - top }
    predicate Contains(x: int, y: int) { left <= x < right && top <= y < bottom }
    predicate Within(outer: Box) {
      outer.left <= left && right <= outer.right && outer.top <= top && bottom <= outer.bottom
    }
  }

  /** The photo area of the dark base image. */
  const Overlay := Box(0, 0, 828, 1088)

  /** How far the light theme pushes the background rectangle down. */
  function ImgOffset(theme: Theme): int { if theme == Light then 16 else 0 }

  /** How far the light theme pushes every text block down. */
  function TextOffset(theme: Theme): int { if theme == Light then 10 else 0 }

  // ------------------------------------------------------------ background

  /**
   * The rectangles pasted in the background colour: in the light theme a band
   * `ImgOffset` high at the top of the overlay, then (in both themes) a rectangle the
   * size of the overlay moved down by `ImgOffset`.
   */
  function Background(theme: Theme, o: Box): seq<Box> {
    var off := ImgOffset(theme);
    var rect := Box(o.left, o.top + off, o.left + o.Width(), o.top + off + o.Height());
    if theme == Light then [Box(o.left, o.top, o.left + o.Width(), o.top + off), rect] else [rect]
  }

  predicate InAny(x: int, y: int, bs: seq<Box>) {
    exists i :: 0 <= i < |bs| && bs[i].Contains(x, y)
  }

  /** The box the product photo is placed in. */
  function EffectiveBox(theme: Theme, o: Box): Box {
    if theme == Light then Box(o.left, o.top + ImgOffset(theme) - 16, o.right, o.bottom + 16) else o
  }

  /**
   * The photo box is exactly the painted background: it starts at the top of the
   * overlay and reaches `ImgOffset` below its bottom.
   */
  lemma EffectiveBoxIsBackground(theme: Theme, o: Box)
    requires o.left <= o.right && o.top <= o.bottom
    ensures forall x, y :: EffectiveBox(theme, o).Contains(x, y) <==> InAny(x, y, Background(theme, o))
    ensures var e := EffectiveBox(theme, o);
      e.left == o.left && e.right == o.right && e.top == o.top && e.bottom == o.bottom + ImgOffset(theme)
  {
    var e := EffectiveBox(theme, o);
    var bs := Background(theme, o);
    forall x, y ensures e.Contains(x, y) <==> InAny(x, y, bs) {
      if e.Contains(x, y) {
        if theme == Light && y < o.top + 16 {
          assert bs[0].Contains(x, y);
        } else {
          assert bs[|bs| - 1].Contains(x, y);
        }
      }
    }
  }

  // ------------------------------------------------------------ scaling

  /** `a / b` in exact real arithmetic floors to the integer quotient. */
  lemma FloorOfQuotient(a: int, b: int)
    requires 0 <= a && 0 < b
    ensures (a as real / b as real).Floor == a / b
  {
    var q, r := a / b, a % b;
    assert a == q * b + r;
    assert a as real / b as real == q as real + r as real / b as real;
    assert 0.0 <= r as real / b as real < 1.0;
  }

  /** Scaling `n` by the ratio `a / b` and rounding down is `n * a / b`. */
  lemma ScaledFloor(n: int, a: int, b: int)
    requires 0 <= n && 0 <= a && 0 < b
    ensures (n as real * (a as real / b as real)).Floor == n * a / b
  {
    assert n as real * (a as real / b as real) == (n * a) as real / b as real;
    FloorOfQuotient(n * a, b);
  }

  /** Ratios with positive denominators compare as their cross products. */
  lemma CompareRatios(a: int, b: int, c: int, d: int)
    requires 0 < b && 0 < d
    ensures a as real / b as real <= c as real / d as real <==> a * d <= c * b
    ensures a as real / b as real == c as real / d as real <==> a * d == c * b
  {
    var x, y := a as real / b as real, c as real / d as real;
    var bd := b as real * d as real;
    assert x * bd == (a * d) as real;
    assert y * bd == (c * b) as real;
    assert x <= y <==> x * bd <= y * bd;
    assert x == y <==> x * bd == y * bd;
  }

  /** `b * (a / b) <= a < b * (a / b) + b` for the integer quotient. */
  lemma QuotientBounds(a: int, b: int)
    requires 0 <= a && 0 < b
    ensures b * (a / b) <= a < b * (a / b) + b
  {
  }

  /** `b * a / b == a` for a positive `b`. */
  lemma CancelQuotient(a: int, b: int)
    requires 0 <= a && 0 < b
    ensures b * a / b == a
  {
    var q, r := b * a / b, b * a % b;
    assert b * a == b * q + r && 0 <= r < b;
    assert b * (a - q) == r;
    MulSign(b, a - q);
  }

  /** A positive factor keeps a nonzero integer at least its own size away from zero. */
  lemma MulSign(b: int, d: int)
    requires 0 < b
    ensures d >= 1 ==> b * d >= b
    ensures d <= -1 ==> b * d <= -b
  {
  }

  /** Cancelling a positive factor from a strict product comparison. */
  lemma CancelLess(x: int, y: int, p: int)
    requires 0 < p && x * p < y * p
    ensures x < y
  {
  }

  /** An upper bound on a product bounds the quotient. */
  lemma QuotientAtMost(a: int, b: int, c: int)
    requires 0 <= a && 0 < b && a <= c * b
    ensures a / b <= c
  {
    QuotientBounds(a, b);
    assert (a / b) * b < (c + 1) * b;
    CancelLess(a / b, c + 1, b);
  }

  /** A lower bound on a product bounds the quotient. */
  lemma QuotientAtLeast(a: int, b: int, c: int)
    requires 0 <= a && 0 < b && c * b <= a
    ensures c <= a / b
  {
    QuotientBounds(a, b);
    assert c * b < (a / b + 1) * b;
    CancelLess(c, a / b + 1, b);
  }

  /**
   * The scale factor of the photo: the smaller (fit) or larger (cover) of the two
   * axis ratios, in exact real arithmetic.
   */
  function Scale(pw: int, ph: int, effW: int, effH: int, cover: bool): real
    requires pw > 0 && ph > 0
  {
    var sx := effW as real / pw as real;
    var sy := effH as real / ph as real;
    if cover then (if sy > sx then sy else sx) else (if sy < sx then sy else sx)
  }

  /** `(int(pw * scale), int(ph * scale))`: the size the photo is resized to. */
  function Resized(pw: int, ph: int, effW: int, effH: int, cover: bool): (int, int)
    requires pw > 0 && ph > 0
  {
    var s := Scale(pw, ph, effW, effH, cover);
    ((pw as real * s).Floor, (ph as real * s).Floor)
  }

  /** When the width ratio is the scale, the width is exact and the height proportional. */
  lemma ResizedByWidth(pw: int, ph: int, effW: int, effH: int, cover: bool)
    requires pw > 0 && ph > 0 && effW >= 0
    requires Scale(pw, ph, effW, effH, cover) == effW as real / pw as real
    ensures Resized(pw, ph, effW, effH, cover) == (effW, ph * effW / pw)
  {
    var sx := effW as real / pw as real;
    ScaledFloor(pw, effW, pw);
    ScaledFloor(ph, effW, pw);
    CancelQuotient(effW, pw);
    var r := Resized(pw, ph, effW, effH, cover);
    assert r.0 == (pw as real * sx).Floor;
    assert r.1 == (ph as real * sx).Floor;
    assert r.0 == pw * effW / pw;
    assert r.0 == effW;
    assert r.1 == ph * effW / pw;
  }

  /** When the height ratio is the scale, the height is exact and the width proportional. */
  lemma ResizedByHeight(pw: int, ph: int, effW: int, effH: int, cover: bool)
    requires pw > 0 && ph > 0 && effH >= 0
    requires Scale(pw, ph, effW, effH, cover) == effH as real / ph as real
    ensures Resized(pw, ph, effW, effH, cover) == (pw * effH / ph, effH)
  {
    var sy := effH as real / ph as real;
    ScaledFloor(pw, effH, ph);
    ScaledFloor(ph, effH, ph);
    CancelQuotient(effH, ph);
    var r := Resized(pw, ph, effW, effH, cover);
    assert r.0 == (pw as real * sy).Floor;
    assert r.1 == (ph as real * sy).Floor;
    assert r.1 == ph * effH / ph;
    assert r.1 == effH;
    assert r.0 == pw * effH / ph;
  }

  /**
   * The integer form of `Resized`: the side whose ratio is chosen becomes exactly the
   * box side, the other is the proportional size rounded down.
   */
  lemma ResizedExact(pw: int, ph: int, effW: int, effH: int, cover: bool)
    requires pw > 0 && ph > 0 && effW >= 0 && effH >= 0
    ensures var byWidth := if cover then effW * ph >= effH * pw else effW * ph <= effH * pw;
      Resized(pw, ph, effW, effH, cover) ==
        if byWidth then (effW, ph * effW / pw) else (pw * effH / ph, effH)
  {
    CompareRatios(effW, pw, effH, ph);
    CompareRatios(effH, ph, effW, pw);
    var byWidth := if cover then effW * ph >= effH * pw else effW * ph <= effH * pw;
    if byWidth {
      ResizedByWidth(pw, ph, effW, effH, cover);
    } else {
      ResizedByHeight(pw, ph, effW, effH, cover);
    }
  }

  // ------------------------------------------------------------ fit

  /** Where the fitted photo is pasted: centred in `eff`, `Resized` without cover. */
  function FitBox(pw: int, ph: int, eff: Box): Box
    requires pw > 0 && ph > 0
  {
    var (w, h) := Resized(pw, ph, eff.Width(), eff.Height(), false);
    var x := eff.left + (eff.Width() - w) / 2;
    var y := eff.top + (eff.Height() - h) / 2;
    Box(x, y, x + w, y + h)
  }

  /**
   * The fitted photo lies inside the box, centred to within a pixel on both axes,
   * fills it along at least one axis and keeps the photo's aspect ratio to within the
   * rounding of one side.
   */
  lemma FitBoxInside(pw: int, ph: int, eff: Box)
    requires pw > 0 && ph > 0 && eff.Width() >= 0 && eff.Height() >= 0
    ensures var b := FitBox(pw, ph, eff);
      && b.Within(eff)
      && 0 <= (eff.right - b.right) - (b.left - eff.left) <= 1
      && 0 <= (eff.bottom - b.bottom) - (b.top - eff.top) <= 1
      && (b.Width() == eff.Width() || b.Height() == eff.Height())
      && -ph < b.Width() * ph - b.Height() * pw < pw
  {
    var effW, effH := eff.Width(), eff.Height();
    ResizedExact(pw, ph, effW, effH, false);
    var (w, h) := Resized(pw, ph, effW, effH, false);
    if effW * ph <= effH * pw {
      QuotientBounds(ph * effW, pw);
      QuotientAtMost(ph * effW, pw, effH);
    } else {
      QuotientBounds(pw * effH, ph);
      QuotientAtMost(pw * effH, ph, effW);
    }
  }

  // ------------------------------------------------------------ cover

  /** The cover strategy: the resized photo's size and the crop taken from it. */
  datatype Cover = Cover(width: int, height: int, crop: Box)

  function CoverCrop(pw: int, ph: int, effW: int, effH: int): Cover
    requires pw > 0 && ph > 0
  {
    var (w, h) := Resized(pw, ph, effW, effH, true);
    var left := (w - effW) / 2;
    var top := (h - effH) / 2;
    Cover(w, h, Box(left, top, left + effW, top + effH))
  }

  /**
   * The covering photo is at least as large as the box on both axes and exactly as
   * large on one, keeps the photo's aspect ratio to within the rounding of one side;
   * the crop is exactly the box's size, lies inside the resized photo and
   * is centred in it to within a pixel.
   */
  lemma CoverCropFills(pw: int, ph: int, effW: int, effH: int)
    requires pw > 0 && ph > 0 && effW >= 0 && effH >= 0
    ensures var c := CoverCrop(pw, ph, effW, effH);
      && c.width >= effW && c.height >= effH
      && (c.width == effW || c.height == effH)
      && c.crop.Width() == effW && c.crop.Height() == effH
      && c.crop.Within(Box(0, 0, c.width, c.height))
      && 0 <= (c.width - c.crop.right) - c.crop.left <= 1
      && 0 <= (c.height - c.crop.bottom) - c.crop.top <= 1
      && -ph < c.width * ph - c.height * pw < pw
  {
    ResizedExact(pw, ph, effW, effH, true);
    var (w, h) := Resized(pw, ph, effW, effH, true);
    if effW * ph >= effH * pw {
      QuotientBounds(ph * effW, pw);
      QuotientAtLeast(ph * effW, pw, effH);
    } else {
      QuotientBounds(pw * effH, ph);
      QuotientAtLeast(pw * effH, ph, effW);
    }
  }

  // ------------------------------------------------------------ final crop

  /**
   * The final crop of a `width` x `height` card: the full width and `16/9` of it in
   * height when that fits, otherwise the full height and `9/16` of it in width,
   * centred.
   */
  function FinalCrop(width: int, height: int): Box
    requires width >= 0 && height >= 0
  {
    var fh := width * 16 / 9;
    var (fw, fh) := if fh > height then (height * 9 / 16, height) else (width, fh);
    var left := (width - fw) / 2;
    var top := (height - fh) / 2;
    Box(left, top, left + fw, top + fh)
  }

  /**
   * The crop lies inside the card, is centred to within a pixel, takes the whole width
   * or the whole height as the test `16 * width / 9 <= height` decides, and is a 9:16
   * portrait up to rounding, never a landscape.
   */
  lemma FinalCropShape(width: int, height: int)
    requires width >= 0 && height >= 0
    ensures var c := FinalCrop(width, height);
      && c.Within(Box(0, 0, width, height))
      && 0 <= (width - c.right) - c.left <= 1
      && 0 <= (height - c.bottom) - c.top <= 1
      && (width * 16 / 9 <= height ==> c.Width() == width && c.Height() == width * 16 / 9)
      && (width * 16 / 9 > height ==> c.Height() == height && c.Width() == height * 9 / 16)
      && c.Width() <= c.Height()
      && -16 < 16 * c.Width() - 9 * c.Height() < 9
  {
    var c := FinalCrop(width, height);
    var fh := width * 16 / 9;
    assert 9 * fh <= width * 16 < 9 * fh + 9;
    if fh > height {
      var fw := height * 9 / 16;
      assert 16 * fw <= height * 9 < 16 * fw + 16;
      assert fw < width;
    }
  }

  /** On a card 828 pixels wide and at least 1472 high, the crop is 828 x 1472. */
  lemma FinalCropOverlayWidth(height: int)
    requires height >= 1472
    ensures FinalCrop(828, height) == Box(0, (height - 1472) / 2, 828, (height - 1472) / 2 + 1472)
  {
  }
}
