/**
 * The detection normaliser shared by both detector backends: a raw pixel box is
 * clamped, truncated to an integer pixel box and converted to percentages of the
 * frame, and the confidence is rounded or kept absent.
 */
module Detections {
  import opened Wrappers
  import opened Numeric

  /** A frame dimension in pixels; a decoded frame is never empty. */
  type Dim = n: int | n >= 1 witness 1

  /** A raw detector box in pixels: neither ordered nor inside the frame. */
  datatype Box = Box(x1: real, y1: real, x2: real, y2: real)

  /** The `bbox_px` field: four integers. */
  datatype PixelBox = PixelBox(x1: int, y1: int, x2: int, y2: int)

  /** The `bbox_pct` field: four percentages of the frame width or height. */
  datatype PercentBox = PercentBox(x1: real, y1: real, x2: real, y2: real)

  /** One entry of a frame's `boxes` list; `labelName` is its `label` key. */
  datatype Detection = Detection(
    labelName: string,
    confidence: Option<real>,
    bboxPx: PixelBox,
    bboxPct: PercentBox)

  /** `round(·, 2)` is rounding to hundredths, `round(·, 3)` to thousandths. */
  const PercentScale: nat := 100
  const ConfidenceScale: nat := 1000

  function Max(a: real, b: real): real { if b > a then b else a }
  function Min(a: real, b: real): real { if b < a then b else a }

  /**
   * The clamp: `x1` and `y1` are raised to at least 0, `x2` and `y2` lowered to at
   * most `w - 1` and `h - 1`. Each coordinate moves only when it is past its one
   * bound, and then onto that bound; there is no other bound.
   */
  function Clamp(b: Box, w: Dim, h: Dim): (c: Box)
    ensures 0.0 <= c.x1 && b.x1 <= c.x1 && (c.x1 == b.x1 || c.x1 == 0.0)
    ensures 0.0 <= c.y1 && b.y1 <= c.y1 && (c.y1 == b.y1 || c.y1 == 0.0)
    ensures c.x2 <= (w - 1) as real && c.x2 <= b.x2 && (c.x2 == b.x2 || c.x2 == (w - 1) as real)
    ensures c.y2 <= (h - 1) as real && c.y2 <= b.y2 && (c.y2 == b.y2 || c.y2 == (h - 1) as real)
  {
    Box(Max(0.0, b.x1), Max(0.0, b.y1), Min((w - 1) as real, b.x2), Min((h - 1) as real, b.y2))
  }

  /** `bbox_px`: `int()` of each clamped coordinate. */
  function PixelOf(c: Box): PixelBox
  {
    PixelBox(Trunc(c.x1), Trunc(c.y1), Trunc(c.x2), Trunc(c.y2))
  }

  function Percent(v: real, dim: Dim): real
  {
    RoundDecimals(100.0 * v / dim as real, PercentScale)
  }

  /** `bbox_pct`: `round(100 * coord / dim, 2)` of each clamped, untruncated coordinate. */
  function PercentOf(c: Box, w: Dim, h: Dim): PercentBox
  {
    PercentBox(Percent(c.x1, w), Percent(c.y1, h), Percent(c.x2, w), Percent(c.y2, h))
  }

  /** `round(conf, 3)` when a confidence is present; an absent one stays absent. */
  function RoundConfidence(conf: Option<real>): (r: Option<real>)
    ensures r.Some? <==> conf.Some?
    ensures conf.Some? ==> conf.value - 0.0005 <= r.value <= conf.value + 0.0005
  {
    match conf
    case None => None
    case Some(v) => Some(RoundDecimals(v, ConfidenceScale))
  }

  /**
   * Normalises one raw detection of a `w` by `h` frame under an already resolved
   * label. The pixel box is the truncation toward zero of the clamped box; the
   * percentages come from the clamped box before truncation.
   */
  function NormalizeBox(labelName: string, conf: Option<real>, raw: Box, w: Dim, h: Dim): (d: Detection)
    ensures d.labelName == labelName
    ensures d.confidence.Some? <==> conf.Some?
    ensures conf.Some? ==> conf.value - 0.0005 <= d.confidence.value <= conf.value + 0.0005
    ensures 0 <= d.bboxPx.x1 && 0 <= d.bboxPx.y1 && d.bboxPx.x2 <= w - 1 && d.bboxPx.y2 <= h - 1
    ensures 0.0 <= d.bboxPct.x1 && 0.0 <= d.bboxPct.y1 && d.bboxPct.x2 <= 100.0 && d.bboxPct.y2 <= 100.0
    ensures var c := Clamp(raw, w, h);
      && d.bboxPx == PixelBox(Trunc(c.x1), Trunc(c.y1), Trunc(c.x2), Trunc(c.y2))
      && d.bboxPct == PercentOf(c, w, h)
  {
    var c := Clamp(raw, w, h);
    PercentBounds(c, w, h);
    Detection(labelName, RoundConfidence(conf), PixelOf(c), PercentOf(c, w, h))
  }

  /**
   * The clamps bound each percentage on one side only: the origin is at least 0 %
   * and the far corner at most 100 %.
   */
  lemma PercentBounds(c: Box, w: Dim, h: Dim)
    requires 0.0 <= c.x1 && 0.0 <= c.y1 && c.x2 <= (w - 1) as real && c.y2 <= (h - 1) as real
    ensures var p := PercentOf(c, w, h);
      0.0 <= p.x1 && 0.0 <= p.y1 && p.x2 <= 100.0 && p.y2 <= 100.0
  {
    PercentLow(c.x1, w);
    PercentLow(c.y1, h);
    PercentHigh(c.x2, w);
    PercentHigh(c.y2, h);
  }

  lemma PercentLow(v: real, dim: Dim)
    requires 0.0 <= v
    ensures 0.0 <= Percent(v, dim)
  {
    assert 0.0 <= 100.0 * v / dim as real;
    RoundDecimalsMonotonic(0.0, 100.0 * v / dim as real, PercentScale);
    RoundDecimalsOfInt(0, PercentScale);
  }

  lemma PercentHigh(v: real, dim: Dim)
    requires v <= (dim - 1) as real
    ensures Percent(v, dim) <= 100.0
  {
    assert 100.0 * v <= 100.0 * dim as real;
    assert 100.0 * v / dim as real <= 100.0;
    RoundDecimalsMonotonic(100.0 * v / dim as real, 100.0, PercentScale);
    RoundDecimalsOfInt(100, PercentScale);
  }

  /** Clamping a clamped box changes nothing. */
  lemma ClampIdempotent(b: Box, w: Dim, h: Dim)
    ensures Clamp(Clamp(b, w, h), w, h) == Clamp(b, w, h)
  {
  }

  /** A box already within the bounds the clamp enforces passes through unchanged. */
  lemma ClampKeepsInBoundsBox(b: Box, w: Dim, h: Dim)
    requires 0.0 <= b.x1 && 0.0 <= b.y1 && b.x2 <= (w - 1) as real && b.y2 <= (h - 1) as real
    ensures Clamp(b, w, h) == b
  {
  }

  /** A raw box `(-5, 2, 650, 400)` on a 640x480 frame gives `bbox_px = [0, 2, 639, 400]`. */
  lemma ClampAndTruncateExample()
    ensures var d := NormalizeBox("person", None, Box(-5.0, 2.0, 650.0, 400.0), 640, 480);
      && d.bboxPx == PixelBox(0, 2, 639, 400)
      && d.bboxPct == PercentBox(0.0, 0.42, 99.84, 83.33)
      && d.confidence == None
  {
  }

  /**
   * The percentage comes from the clamped coordinate before truncation: 319.5 on a
   * 640-wide frame gives 49.92 %, where the truncated pixel 319 would give 49.84 %.
   */
  lemma PercentUsesUntruncatedCoordinate()
    ensures var d := NormalizeBox("katana", Some(0.8), Box(319.5, 0.0, 320.0, 10.0), 640, 480);
      && d.bboxPx.x1 == 319
      && d.bboxPct.x1 == 49.92
      && Percent(d.bboxPx.x1 as real, 640) == 49.84
  {
  }

  /**
   * Nothing orders the corners or bounds the origin from above: a box past the far
   * edge keeps `x1 > x2`, and its origin lies beyond 100 %.
   */
  lemma ClampLeavesCornersUnordered()
    ensures var d := NormalizeBox("person", None, Box(700.0, 500.0, 650.0, 490.0), 640, 480);
      && d.bboxPx == PixelBox(700, 500, 639, 479)
      && d.bboxPx.x1 > d.bboxPx.x2 && d.bboxPx.y1 > d.bboxPx.y2
      && d.bboxPct.x1 == 109.38
  {
  }

  /**
   * The far corner has no lower bound, and `int()` truncates it toward zero rather
   * than flooring it: -2.5 becomes -2.
   */
  lemma NegativeCornerTruncatesTowardZero()
    ensures var d := NormalizeBox("person", None, Box(-20.0, -20.0, -2.5, -2.5), 640, 480);
      && d.bboxPx == PixelBox(0, 0, -2, -2)
      && (-2.5).Floor == -3
      && d.bboxPct.x2 < 0.0
  {
  }
}
