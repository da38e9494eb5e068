/** The dimension arithmetic of `getScaledBitmap` and of the centring offset
    computed after a capture. Sizes are reals: the rounding of the scaled
    bitmap's sides to whole pixels happens inside the bitmap library and is
    not modelled. */
module BitmapFit {
  /** Width and height of a bitmap, in pixels. */
  datatype Size = Size(width: real, height: real)

  /** The rotation step: a landscape image (wider than tall) is turned 90
      degrees, which swaps its sides; a portrait or square one is kept. */
  function Orient(decoded: Size): (r: Size)
    ensures r != decoded <==> decoded.width > decoded.height
    ensures r.width <= r.height
    ensures r == decoded || r == Size(decoded.height, decoded.width)
  {
    if decoded.width > decoded.height then Size(decoded.height, decoded.width) else decoded
  }

  /** `Math.max(w / maxWidth, h / maxHeight)`: the larger of the two per-axis
      shrink ratios. */
  function ScaleFactor(rotated: Size, maxWidth: real, maxHeight: real): (s: real)
    requires maxWidth > 0.0 && maxHeight > 0.0
    ensures s >= rotated.width / maxWidth && s >= rotated.height / maxHeight
    ensures s == rotated.width / maxWidth || s == rotated.height / maxHeight
  {
    var sx := rotated.width / maxWidth;
    var sy := rotated.height / maxHeight;
    if sx >= sy then sx else sy
  }

  /** Scaling a positive side `a` by `1 / s` keeps it within `m` when `s` is at
      least `a / m`, and gives exactly `m` when `s` equals `a / m`. */
  lemma ShrinkWithin(a: real, m: real, s: real)
    requires a > 0.0 && m > 0.0 && s >= a / m
    ensures s > 0.0
    ensures a * (1.0 / s) <= m
    ensures s == a / m ==> a * (1.0 / s) == m
  {
    assert a / m > 0.0;
    assert m * (a / m) == a;
    assert m * s >= m * (a / m);
    assert a * (1.0 / s) == a / s;
    assert a / s <= m by {
      assert a <= m * s;
    }
  }

  /** `getScaledBitmap`: orient, then shrink (or enlarge) uniformly by
      `1 / scaleFactor`. The result fits the box on both axes, touches it on
      at least one, and keeps the oriented image's aspect ratio. */
  function GetScaledBitmap(decoded: Size, maxWidth: real, maxHeight: real): (r: Size)
    requires decoded.width > 0.0 && decoded.height > 0.0
    requires maxWidth > 0.0 && maxHeight > 0.0
    ensures 0.0 < r.width <= maxWidth && 0.0 < r.height <= maxHeight
    ensures r.width == maxWidth || r.height == maxHeight
    ensures r.width * Orient(decoded).height == r.height * Orient(decoded).width
  {
    var rotated := Orient(decoded);
    var s := ScaleFactor(rotated, maxWidth, maxHeight);
    ShrinkWithin(rotated.width, maxWidth, s);
    ShrinkWithin(rotated.height, maxHeight, s);
    Size(rotated.width * (1.0 / s), rotated.height * (1.0 / s))
  }

  /** The offset `((maxWidth - width) / 2, (maxHeight - height) / 2)` that
      centres the photo in the box: equal margins on each side. */
  function CenteringOffset(maxWidth: real, maxHeight: real, photo: Size): (offset: (real, real))
    ensures 2.0 * offset.0 + photo.width == maxWidth
    ensures 2.0 * offset.1 + photo.height == maxHeight
  {
    ((maxWidth - photo.width) / 2.0, (maxHeight - photo.height) / 2.0)
  }

  /** For a fitted photo the offset is never negative, and is zero on the
      axis where the photo touches the box. */
  lemma FittedOffsetNonNegative(decoded: Size, maxWidth: real, maxHeight: real)
    requires decoded.width > 0.0 && decoded.height > 0.0
    requires maxWidth > 0.0 && maxHeight > 0.0
    ensures var offset := CenteringOffset(maxWidth, maxHeight, GetScaledBitmap(decoded, maxWidth, maxHeight));
      offset.0 >= 0.0 && offset.1 >= 0.0 && (offset.0 == 0.0 || offset.1 == 0.0)
  {
  }
}
