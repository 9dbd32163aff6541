/** The drawing delegate of the circular progress indicator: it keeps the geometry of the
    current frame in five fields, which `AdjustCanvas` writes and the fill methods read, and
    draws on a recording canvas with a paint that it reconfigures for every fill. */
module CircularDrawing {
  import opened Surface
  import opened CircularGeometry

  class CircularDrawingDelegate {
    const spec: CircularSpec
    /** Compositing a colour with the drawable's alpha, supplied by the colour utilities. */
    const composite: (Color, Alpha) -> Color

    /** +1 to draw clockwise, -1 to draw counter-clockwise. */
    var arcDirectionFactor: int
    var displayedTrackThickness: real
    var displayedCornerRadius: real
    var adjustedRadius: real
    /** Below 1 only during the escape hide animation, which shrinks the track's length
        toward the 1.0 end. */
    var totalTrackLengthFraction: real

    /** The five per-frame fields as one value. */
    function Geometry(): FrameGeometry
      reads this
    {
      FrameGeometry(arcDirectionFactor, displayedTrackThickness, displayedCornerRadius,
                    adjustedRadius, totalTrackLengthFraction)
    }

    predicate Valid()
      reads this
    {
      ValidGeometry(Geometry())
    }

    /** The direction starts clockwise and the four sizes at zero until the first `AdjustCanvas`. */
    constructor (spec: CircularSpec, composite: (Color, Alpha) -> Color)
      ensures this.spec == spec && this.composite == composite
      ensures Geometry() == FrameGeometry(1, 0.0, 0.0, 0.0, 0.0)
      ensures Valid()
    {
      this.spec := spec;
      this.composite := composite;
      arcDirectionFactor := 1;
      displayedTrackThickness := 0.0;
      displayedCornerRadius := 0.0;
      adjustedRadius := 0.0;
      totalTrackLengthFraction := 0.0;
    }

    function GetPreferredWidth(): (w: int)
      ensures w == spec.indicatorSize + 2 * spec.indicatorInset
      ensures w as real == 2.0 * OuterRadiusWithInset(spec)
    {
      PreferredSize(spec)
    }

    function GetPreferredHeight(): (h: int)
      ensures h == GetPreferredWidth()
      ensures h as real == 2.0 * OuterRadiusWithInset(spec)
    {
      PreferredSize(spec)
    }

    /** Sets up the canvas and the geometry of this frame. */
    method AdjustCanvas(canvas: Canvas, bounds: Rect, trackThicknessFraction: real, isShowing: bool, isHiding: bool)
      requires 0.0 <= trackThicknessFraction <= 1.0
      requires PreferredSize(spec) != 0
      modifies this, canvas
      ensures canvas.trace == old(canvas.trace) + AdjustCmds(spec, bounds) && canvas.depth == old(canvas.depth)
      ensures Geometry() == FrameGeometryFor(spec, trackThicknessFraction, isShowing, isHiding)
      ensures Valid()
    {
      var f := trackThicknessFraction;
      var scaleX := bounds.Width() as real / GetPreferredWidth() as real;
      var scaleY := bounds.Height() as real / GetPreferredHeight() as real;
      assert scaleX == bounds.Width() as real / PreferredSize(spec) as real;
      assert scaleY == bounds.Height() as real / PreferredSize(spec) as real;

      var outerRadiusWithInset := spec.indicatorSize as real / 2.0 + spec.indicatorInset as real;
      assert outerRadiusWithInset == OuterRadiusWithInset(spec);
      var scaledOuterRadiusWithInsetX := outerRadiusWithInset * scaleX;
      var scaledOuterRadiusWithInsetY := outerRadiusWithInset * scaleY;

      assert |AdjustCmds(spec, bounds)| == 4;
      assert AdjustCmds(spec, bounds)[0] == DrawCmd.Translate(scaledOuterRadiusWithInsetX + bounds.left as real, scaledOuterRadiusWithInsetY + bounds.top as real);
      assert AdjustCmds(spec, bounds)[1] == DrawCmd.Scale(scaleX, scaleY);
      assert AdjustCmds(spec, bounds)[3] == DrawCmd.ClipRect(-outerRadiusWithInset, -outerRadiusWithInset, outerRadiusWithInset, outerRadiusWithInset);
      assert AdjustCmds(spec, bounds)
          == [ DrawCmd.Translate(scaledOuterRadiusWithInsetX + bounds.left as real, scaledOuterRadiusWithInsetY + bounds.top as real),
               DrawCmd.Scale(scaleX, scaleY),
               DrawCmd.Rotate(-90.0),
               DrawCmd.ClipRect(-outerRadiusWithInset, -outerRadiusWithInset, outerRadiusWithInset, outerRadiusWithInset) ];

      canvas.Translate(scaledOuterRadiusWithInsetX + bounds.left as real, scaledOuterRadiusWithInsetY + bounds.top as real);
      canvas.Scale(scaleX, scaleY);
      canvas.Rotate(-90.0);
      canvas.ClipRect(-outerRadiusWithInset, -outerRadiusWithInset, outerRadiusWithInset, outerRadiusWithInset);
      assert canvas.trace == old(canvas.trace) + AdjustCmds(spec, bounds);

      ghost var expected := FrameGeometryFor(spec, f, isShowing, isHiding);
      var radius := (spec.indicatorSize - spec.trackThickness) as real / 2.0;
      if ShrinksTowardOuterEdge(spec, isShowing, isHiding) {
        radius := radius + (1.0 - f) * spec.trackThickness as real / 2.0;
      } else if ShrinksTowardInnerEdge(spec, isShowing, isHiding) {
        radius := radius - (1.0 - f) * spec.trackThickness as real / 2.0;
      }
      assert radius == expected.adjustedRadius;
      var total := if isHiding && spec.hideAnimationBehavior == HideEscape then f else 1.0;
      assert total == expected.totalTrackLengthFraction;

      arcDirectionFactor := if spec.indicatorDirection == Clockwise then 1 else -1;
      displayedTrackThickness := spec.trackThickness as real * f;
      displayedCornerRadius := spec.trackCornerRadius as real * f;
      adjustedRadius := radius;
      totalTrackLengthFraction := total;
    }

    /** Draws the indicator from `startFraction` to `endFraction`, through 0 degrees when the
        end lies behind the start. */
    method FillIndicator(canvas: Canvas, paint: Paint, startFraction: real, endFraction: real,
                         color: Color, drawableAlpha: Alpha)
      requires InRange(startFraction, endFraction)
      modifies canvas, paint
      ensures var eff := IndicatorEffect(spec, Geometry(), composite, startFraction, endFraction,
                                         color, drawableAlpha, old(paint.State()));
              canvas.trace == old(canvas.trace) + eff.cmds && paint.State() == eff.paint
      ensures canvas.depth == old(canvas.depth)
      decreases SplitRank(Geometry(), startFraction, endFraction), 1
    {
      if startFraction == endFraction {
        return;
      }
      var c := composite(color, drawableAlpha);

      paint.SetStyle(Stroke);
      paint.SetStrokeCap(Butt);
      paint.SetAntiAlias(true);
      paint.SetColor(c);
      paint.SetStrokeWidth(displayedTrackThickness);

      var arcFraction := ArcFraction(startFraction, endFraction);
      var start := Mod1(startFraction);
      if totalTrackLengthFraction < 1.0 && start + arcFraction > 1.0 {
        SplitEffect(spec, Geometry(), composite, startFraction, endFraction, color, drawableAlpha, old(paint.State()));
        SplitHalvesDoNotSplit(Geometry(), startFraction, endFraction);
        FillSplit(canvas, paint, start, start + arcFraction, c, drawableAlpha);
        return;
      }
      DrawSegment(canvas, paint, start, arcFraction);
    }

    /** The escape split of `FillIndicator`: a segment that passes 1 is drawn as the two
        segments meeting there. They receive the colour already composited with the alpha, and
        composite it again. */
    method FillSplit(canvas: Canvas, paint: Paint, start: real, end: real, c: Color, drawableAlpha: Alpha)
      requires 0.0 <= start < 1.0 < end <= 2.0
      modifies canvas, paint
      ensures var first := IndicatorEffect(spec, Geometry(), composite, start, 1.0, c, drawableAlpha, old(paint.State()));
              var second := IndicatorEffect(spec, Geometry(), composite, 1.0, end, c, drawableAlpha, first.paint);
              canvas.trace == old(canvas.trace) + first.cmds + second.cmds && paint.State() == second.paint
      ensures canvas.depth == old(canvas.depth)
      decreases 1, 0
    {
      HalvesDoNotSplit(Geometry(), start, end);
      FillIndicator(canvas, paint, start, 1.0, c, drawableAlpha);
      FillIndicator(canvas, paint, 1.0, end, c, drawableAlpha);
    }

    /** The part of `FillIndicator` after the split: rescales a segment that does not wrap for
        the escape animation, converts it to degrees, trims the gaps off both ends, and draws
        the arc and its rounded ends with the stroke paint already set up. */
    method DrawSegment(canvas: Canvas, paint: Paint, start: real, arcFraction: real)
      modifies canvas, paint
      ensures var eff := DirectEffect(spec, Geometry(), start, arcFraction, old(paint.State()));
              canvas.trace == old(canvas.trace) + eff.cmds && paint.State() == eff.paint
      ensures canvas.depth == old(canvas.depth)
    {
      var sweep := SegmentSweep(spec, Geometry(), start, arcFraction);
      if sweep.None? {
        return;
      }
      var startDegree, arcDegree := sweep.value.start, sweep.value.sweep;

      var arcBound := RectF(-adjustedRadius, -adjustedRadius, adjustedRadius, adjustedRadius);
      canvas.DrawArc(arcBound, startDegree, arcDegree, false, paint);

      if displayedCornerRadius > 0.0 && Abs(arcDegree) > 0.0 && Abs(arcDegree) < 360.0 {
        paint.SetStyle(Fill);
        DrawRoundedEnd(canvas, paint, displayedTrackThickness, displayedCornerRadius, startDegree);
        DrawRoundedEnd(canvas, paint, displayedTrackThickness, displayedCornerRadius, startDegree + arcDegree);
      }
    }

    /** Draws the whole track in the track colour. */
    method FillTrack(canvas: Canvas, paint: Paint, drawableAlpha: Alpha)
      modifies canvas, paint
      ensures var eff := TrackEffect(spec, Geometry(), composite, drawableAlpha, old(paint.State()));
              canvas.trace == old(canvas.trace) + eff.cmds && paint.State() == eff.paint
      ensures canvas.depth == old(canvas.depth)
    {
      var trackColor := composite(spec.trackColor, drawableAlpha);

      paint.SetStyle(Stroke);
      paint.SetStrokeCap(Butt);
      paint.SetAntiAlias(true);
      paint.SetColor(trackColor);
      paint.SetStrokeWidth(displayedTrackThickness);

      var arcBound := RectF(-adjustedRadius, -adjustedRadius, adjustedRadius, adjustedRadius);
      canvas.DrawArc(arcBound, 0.0, 360.0, false, paint);
    }

    /** Draws a rounded end at `positionInDeg`, rotating the canvas only for that one draw. */
    method DrawRoundedEnd(canvas: Canvas, paint: Paint, trackSize: real, cornerRadius: real, positionInDeg: real)
      modifies canvas
      ensures canvas.trace == old(canvas.trace) + RoundedEndCmds(Geometry(), trackSize, cornerRadius, positionInDeg, paint.State())
      ensures canvas.depth == old(canvas.depth)
    {
      canvas.Save();
      canvas.Rotate(positionInDeg);
      var cornersBound := RectF(adjustedRadius - trackSize / 2.0, cornerRadius,
                                adjustedRadius + trackSize / 2.0, -cornerRadius);
      canvas.DrawRoundRect(cornersBound, cornerRadius, cornerRadius, paint);
      canvas.Restore();
    }
  }
}
