/** Regions of interest and publish crops: normalised rectangles mapped onto pixels. */
module Score {
  import opened Wrappers

  datatype Roi = Roi(x: real, y: real, w: real, h: real)

  /** A pixel rectangle, low corner inclusive and high corner exclusive. */
  datatype Rect = Rect(x0: int, y0: int, x1: int, y1: int) {
    function Dx(): int { x1 - x0 }

    function Dy(): int { y1 - y0 }

    predicate WellFormed() { x0 <= x1 && y0 <= y1 }

    predicate Inside(b: Rect) {
      b.x0 <= x0 && x1 <= b.x1 && b.y0 <= y0 && y1 <= b.y1
    }
  }

  const MIN_PIXELS := 64

  function Bounds(w: nat, h: nat): Rect { Rect(0, 0, w, h) }

  /** Rounds half up, which on the non-negative sizes used here is half away from zero. */
  function Round(v: real): int { (v + 0.5).Floor }

  /** The canonical rectangle with these corners, whichever order they come in. */
  function MakeRect(x0: int, y0: int, x1: int, y1: int): Rect {
    Rect(if x0 <= x1 then x0 else x1, if y0 <= y1 then y0 else y1,
         if x0 <= x1 then x1 else x0, if y0 <= y1 then y1 else y0)
  }

  /** A share of an axis, clamped so that origin plus share stays on the axis. */
  function Clamp(origin: real, share: real): real {
    if origin + share > 1.0 then 1.0 - origin else share
  }

  lemma Scaled(a: real, b: real, n: int)
    requires 0.0 <= a <= b && n >= 0
    ensures 0.0 <= a * n as real <= b * n as real
  {
  }

  /** What is left of n whole pixels after a floored start has room for the rounded rest. */
  lemma FloorThenRound(a: real, s: real, n: int)
    requires 0.0 <= a && 0.0 <= s && a + s <= n as real
    ensures 0 <= a.Floor && 0 <= Round(s) && a.Floor + Round(s) <= n
  {
    assert s + 0.5 < (n - a.Floor + 1) as real;
  }

  lemma RoundMonotone(a: real, b: real)
    requires a <= b
    ensures Round(a) <= Round(b)
  {
  }

  /** The exact position and extent of an axis, in fractions of a pixel. */
  function Position(origin: real, n: int): real { origin * n as real }

  function Extent(origin: real, share: real, n: int): real { Clamp(origin, share) * n as real }

  lemma PositionPlusExtent(origin: real, share: real, n: int)
    requires 0.0 <= origin <= 1.0 && 0.0 <= share <= 1.0 && n >= 0
    ensures 0.0 <= Position(origin, n) && 0.0 <= Extent(origin, share, n)
    ensures Position(origin, n) + Extent(origin, share, n) <= n as real
  {
    var s := Clamp(origin, share);
    Scaled(origin, 1.0, n);
    Scaled(s, 1.0 - origin, n);
    assert (1.0 - origin) * n as real == n as real - origin * n as real;
  }

  /** One axis of n pixels: a floored start and a rounded size, which together never cross the
      far edge. */
  function Span(origin: real, share: real, n: int): (r: (int, int))
    requires 0.0 <= origin <= 1.0 && 0.0 <= share <= 1.0 && n >= 0
    ensures 0 <= r.0 && 0 <= r.1 && r.0 + r.1 <= n
  {
    PositionPlusExtent(origin, share, n);
    FloorThenRound(Position(origin, n), Extent(origin, share, n), n);
    (Position(origin, n).Floor, Round(Extent(origin, share, n)))
  }

  lemma SpanGrows(origin: real, share: real, more: real, n: int)
    requires 0.0 <= origin <= 1.0 && 0.0 <= share <= more <= 1.0 && n >= 0
    ensures Span(origin, share, n).0 == Span(origin, more, n).0
    ensures Span(origin, share, n).1 <= Span(origin, more, n).1
  {
    Scaled(Clamp(origin, share), Clamp(origin, more), n);
    RoundMonotone(Extent(origin, share, n), Extent(origin, more, n));
  }

  /** Maps a normalised rectangle onto image bounds; None is the invalid-ROI error. */
  function PixelRect(roi: Roi, b: Rect): (r: Option<Rect>)
    requires b.WellFormed()
    ensures r.Some? ==> r.value.Inside(b)
    ensures r.Some? ==> r.value.Dx() >= MIN_PIXELS && r.value.Dy() >= MIN_PIXELS
  {
    if roi.x < 0.0 || roi.y < 0.0 || roi.w < 0.0 || roi.h < 0.0 then None
    else if roi.x > 1.0 || roi.y > 1.0 || roi.w > 1.0 || roi.h > 1.0 then None
    else
      var (x, w) := Span(roi.x, roi.w, b.Dx());
      var (y, h) := Span(roi.y, roi.h, b.Dy());
      var r := MakeRect(b.x0 + x, b.y0 + y, b.x0 + x + w, b.y0 + y + h);
      if r.Dx() < MIN_PIXELS || r.Dy() < MIN_PIXELS then None else Some(r)
  }

  predicate Normalised(roi: Roi) {
    && 0.0 <= roi.x <= 1.0 && 0.0 <= roi.y <= 1.0
    && 0.0 <= roi.w <= 1.0 && 0.0 <= roi.h <= 1.0
  }

  /** start and size are the whole pixels for an exact position and extent: the start is less
      than one pixel early, the size within half a pixel. */
  predicate Nearest(start: int, size: int, position: real, extent: real) {
    && start as real <= position < start as real + 1.0
    && extent - 0.5 < size as real <= extent + 0.5
  }

  lemma PixelRectByExtents(roi: Roi, b: Rect)
    requires b.WellFormed()
    ensures PixelRect(roi, b).Some? <==>
      && Normalised(roi)
      && Extent(roi.x, roi.w, b.Dx()) >= MIN_PIXELS as real - 0.5
      && Extent(roi.y, roi.h, b.Dy()) >= MIN_PIXELS as real - 0.5
    ensures PixelRect(roi, b).Some? ==>
      var r := PixelRect(roi, b).value;
      && Nearest(r.x0 - b.x0, r.Dx(), Position(roi.x, b.Dx()), Extent(roi.x, roi.w, b.Dx()))
      && Nearest(r.y0 - b.y0, r.Dy(), Position(roi.y, b.Dy()), Extent(roi.y, roi.h, b.Dy()))
  {
    hide Span, Position, Extent;
    if Normalised(roi) {
      SpanIsNearest(roi.x, roi.w, b.Dx());
      SpanIsNearest(roi.y, roi.h, b.Dy());
      assert PixelRect(roi, b).Some? <==>
        Span(roi.x, roi.w, b.Dx()).1 >= MIN_PIXELS && Span(roi.y, roi.h, b.Dy()).1 >= MIN_PIXELS;
    }
  }

  /** Acceptance in terms of the exact, unrounded extents, and how close the pixels come.  A share
      that would cross the far edge ends there. */
  lemma PixelRectIsNearest(roi: Roi, b: Rect)
    requires b.WellFormed()
    ensures var (w, h) := (if roi.x + roi.w > 1.0 then 1.0 - roi.x else roi.w,
                           if roi.y + roi.h > 1.0 then 1.0 - roi.y else roi.h);
      && (PixelRect(roi, b).Some? <==>
        && 0.0 <= roi.x <= 1.0 && 0.0 <= roi.y <= 1.0 && 0.0 <= roi.w <= 1.0 && 0.0 <= roi.h <= 1.0
        && w * b.Dx() as real >= 63.5 && h * b.Dy() as real >= 63.5)
      && (PixelRect(roi, b).Some? ==>
        var r := PixelRect(roi, b).value;
        && Nearest(r.x0 - b.x0, r.x1 - r.x0, roi.x * b.Dx() as real, w * b.Dx() as real)
        && Nearest(r.y0 - b.y0, r.y1 - r.y0, roi.y * b.Dy() as real, h * b.Dy() as real))
  {
    hide PixelRect, Position, Extent;
    ExtentIs(roi.x, roi.w, b.Dx());
    ExtentIs(roi.y, roi.h, b.Dy());
    PixelRectByExtents(roi, b);
  }

  lemma ExtentIs(origin: real, share: real, n: int)
    ensures Position(origin, n) == origin * n as real
    ensures Extent(origin, share, n) == (if origin + share > 1.0 then 1.0 - origin else share) * n as real
  {
  }

  lemma SpanIsNearest(origin: real, share: real, n: int)
    requires 0.0 <= origin <= 1.0 && 0.0 <= share <= 1.0 && n >= 0
    ensures var r, extent := Span(origin, share, n), Extent(origin, share, n);
      && Nearest(r.0, r.1, Position(origin, n), extent)
      && (r.1 >= MIN_PIXELS <==> extent >= MIN_PIXELS as real - 0.5)
  {
    hide Position, Extent;
    RoundIsNearest(Extent(origin, share, n));
  }

  lemma RoundIsNearest(v: real)
    ensures v - 0.5 < Round(v) as real <= v + 0.5
    ensures Round(v) >= MIN_PIXELS <==> v >= MIN_PIXELS as real - 0.5
  {
  }

  /** Acceptance and size depend on the image only through its width and height; moving the
      bounds moves the rectangle with them. */
  lemma PixelRectDependsOnSize(roi: Roi, b: Rect, c: Rect)
    requires b.WellFormed() && c.WellFormed() && b.Dx() == c.Dx() && b.Dy() == c.Dy()
    ensures PixelRect(roi, b).Some? == PixelRect(roi, c).Some?
    ensures PixelRect(roi, b).Some? ==>
      var r, q := PixelRect(roi, b).value, PixelRect(roi, c).value;
      && r.Dx() == q.Dx() && r.x0 - b.x0 == q.x0 - c.x0
      && r.Dy() == q.Dy() && r.y0 - b.y0 == q.y0 - c.y0
  {
    hide Span;
  }

  /** Growing a crop never turns an accepted rectangle into a rejected one, and never loses a
      pixel. */
  lemma PixelRectGrows(roi: Roi, big: Roi, b: Rect)
    requires b.WellFormed() && PixelRect(roi, b).Some?
    requires big.x == roi.x && big.y == roi.y && roi.w <= big.w <= 1.0 && roi.h <= big.h <= 1.0
    ensures PixelRect(big, b).Some?
    ensures PixelRect(roi, b).value.Inside(PixelRect(big, b).value)
  {
    hide Span;
    SpanGrows(roi.x, roi.w, big.w, b.Dx());
    SpanGrows(roi.y, roi.h, big.h, b.Dy());
  }
}
