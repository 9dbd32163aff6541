/** What the circular progress indicator's drawing promises, proved about the pure model that
    the delegate's methods are verified against: the per-frame geometry, the splitting and
    trimming of a segment, the shape of what one fill draws, and the symmetry between the two
    drawing directions. */
module CircularProperties {
  import opened Surface
  import opened CircularGeometry

  // ---------------------------------------------------------------------------------------
  // Predicates over a command sequence

  /** Every arc and every rounded end is drawn in colour `c`. */
  predicate DrawsInColor(cmds: seq<DrawCmd>, c: Color) {
    forall i | 0 <= i < |cmds| ::
      (cmds[i].DrawArc? ==> cmds[i].paint.color == c) &&
      (cmds[i].DrawRoundRect? ==> cmds[i].paint.color == c)
  }

  /** Every arc follows the ring's centre line and is stroked as thick as the displayed track. */
  predicate ArcsOnRing(g: FrameGeometry, cmds: seq<DrawCmd>) {
    forall i | 0 <= i < |cmds| :: cmds[i].DrawArc? ==>
      cmds[i].oval == ArcBound(g) &&
      cmds[i].paint.style == Stroke &&
      cmds[i].paint.strokeWidth == g.displayedTrackThickness
  }

  lemma DrawsInColorAppend(a: seq<DrawCmd>, b: seq<DrawCmd>, c: Color)
    requires DrawsInColor(a, c) && DrawsInColor(b, c)
    ensures DrawsInColor(a + b, c)
  {
    forall i | 0 <= i < |a + b|
      ensures ((a + b)[i].DrawArc? ==> (a + b)[i].paint.color == c) &&
              ((a + b)[i].DrawRoundRect? ==> (a + b)[i].paint.color == c)
    {
      if i < |a| {
        assert (a + b)[i] == a[i];
      } else {
        assert (a + b)[i] == b[i - |a|];
      }
    }
  }

  lemma ArcsOnRingAppend(g: FrameGeometry, a: seq<DrawCmd>, b: seq<DrawCmd>)
    requires ArcsOnRing(g, a) && ArcsOnRing(g, b)
    ensures ArcsOnRing(g, a + b)
  {
    forall i | 0 <= i < |a + b| && (a + b)[i].DrawArc?
      ensures (a + b)[i].oval == ArcBound(g) && (a + b)[i].paint.style == Stroke &&
              (a + b)[i].paint.strokeWidth == g.displayedTrackThickness
    {
      if i < |a| {
        assert (a + b)[i] == a[i];
      } else {
        assert (a + b)[i] == b[i - |a|];
      }
    }
  }

  // ---------------------------------------------------------------------------------------
  // Per-frame geometry

  /** The fraction of the track thickness a frame draws with is between 0 and 1, so the
      geometry it produces draws in one of the two directions and shortens the track at most
      to nothing. */
  lemma FrameGeometryValid(spec: CircularSpec, f: real, isShowing: bool, isHiding: bool)
    requires 0.0 <= f <= 1.0
    ensures ValidGeometry(FrameGeometryFor(spec, f, isShowing, isHiding))
    ensures FrameGeometryFor(spec, f, isShowing, isHiding).arcDirectionFactor == 1
            <==> spec.indicatorDirection == Clockwise
  {
  }

  /** Showing inward or hiding outward keeps the track's outer edge on the ring's outer edge
      while the track thickens or thins. */
  lemma OuterEdgeStaysPut(spec: CircularSpec, f: real, isShowing: bool, isHiding: bool)
    requires ShrinksTowardOuterEdge(spec, isShowing, isHiding)
    ensures var g := FrameGeometryFor(spec, f, isShowing, isHiding);
            g.adjustedRadius + g.displayedTrackThickness / 2.0 == spec.indicatorSize as real / 2.0
  {
    var t := spec.trackThickness as real;
    assert (1.0 - f) * t / 2.0 + t * f / 2.0 == t / 2.0;
  }

  /** Showing outward or hiding inward keeps the track's inner edge where the inner edge of the
      full-thickness track lies. */
  lemma InnerEdgeStaysPut(spec: CircularSpec, f: real, isShowing: bool, isHiding: bool)
    requires !ShrinksTowardOuterEdge(spec, isShowing, isHiding)
    requires ShrinksTowardInnerEdge(spec, isShowing, isHiding)
    ensures var g := FrameGeometryFor(spec, f, isShowing, isHiding);
            g.adjustedRadius - g.displayedTrackThickness / 2.0
            == spec.indicatorSize as real / 2.0 - spec.trackThickness as real
  {
    var t := spec.trackThickness as real;
    assert (1.0 - f) * t / 2.0 + t * f / 2.0 == t / 2.0;
  }

  /** For a configuration whose track fits inside the ring, every frame draws with a
      non-negative thickness on a circle of non-negative radius. */
  lemma RadiusNonNegative(spec: CircularSpec, f: real, isShowing: bool, isHiding: bool)
    requires 0.0 <= f <= 1.0
    requires 0 <= spec.trackThickness && 2 * spec.trackThickness <= spec.indicatorSize
    ensures var g := FrameGeometryFor(spec, f, isShowing, isHiding);
            g.adjustedRadius >= 0.0 && g.displayedTrackThickness >= 0.0
  {
    var t := spec.trackThickness as real;
    assert (1.0 - f) * t == t - f * t;
    assert 0.0 <= f * t <= t;
  }

  /** Without a show or hide animation that moves it, the track is centred between the outer
      edge and the full thickness inside it. */
  lemma CentreLineOtherwise(spec: CircularSpec, f: real, isShowing: bool, isHiding: bool)
    requires !ShrinksTowardOuterEdge(spec, isShowing, isHiding)
    requires !ShrinksTowardInnerEdge(spec, isShowing, isHiding)
    ensures var g := FrameGeometryFor(spec, f, isShowing, isHiding);
            g.adjustedRadius + spec.trackThickness as real / 2.0 == spec.indicatorSize as real / 2.0
  {
  }

  /** At full thickness every show and hide animation draws the same frame as the steady state. */
  lemma FullThicknessIgnoresAnimation(spec: CircularSpec, isShowing: bool, isHiding: bool)
    ensures FrameGeometryFor(spec, 1.0, isShowing, isHiding) == FrameGeometryFor(spec, 1.0, false, false)
  {
  }

  /** Track thickness and corner radius are scaled by the same fraction, so their ratio is kept. */
  lemma CornerRadiusKeepsRatio(spec: CircularSpec, f: real, isShowing: bool, isHiding: bool)
    ensures var g := FrameGeometryFor(spec, f, isShowing, isHiding);
            g.displayedCornerRadius * spec.trackThickness as real
            == g.displayedTrackThickness * spec.trackCornerRadius as real
  {
  }

  /** The track is shortened only while hiding with the escape animation, and then to exactly
      the thickness fraction. */
  lemma EscapeShortensTrack(spec: CircularSpec, f: real, isShowing: bool, isHiding: bool)
    requires 0.0 <= f < 1.0
    ensures var g := FrameGeometryFor(spec, f, isShowing, isHiding);
            (g.totalTrackLengthFraction < 1.0 <==> isHiding && spec.hideAnimationBehavior == HideEscape) &&
            (g.totalTrackLengthFraction < 1.0 ==> g.totalTrackLengthFraction == f)
  {
  }

  function Mirrored(g: FrameGeometry): FrameGeometry {
    g.(arcDirectionFactor := -g.arcDirectionFactor)
  }

  /** The counter-clockwise configuration draws with the clockwise geometry, direction reversed. */
  lemma CounterClockwiseGeometry(spec: CircularSpec, f: real, isShowing: bool, isHiding: bool)
    ensures FrameGeometryFor(spec.(indicatorDirection := CounterClockwise), f, isShowing, isHiding)
            == Mirrored(FrameGeometryFor(spec.(indicatorDirection := Clockwise), f, isShowing, isHiding))
  {
  }

  /** A 40 pixel ring with a 4 pixel track and no inset, in the steady state. */
  const SteadySpec := CircularSpec(40, 0, 4, 0, Clockwise, 0, 0, 0.0, ShowNone, HideNone)

  lemma SteadyStateGeometry()
    ensures FrameGeometryFor(SteadySpec, 1.0, false, false) == FrameGeometry(1, 4.0, 0.0, 18.0, 1.0)
    ensures PreferredSize(SteadySpec) == 40
  {
  }

  // ---------------------------------------------------------------------------------------
  // Canvas adjustment

  /** The origin is moved to the centre of the bounds, and the clip square, as wide and high as
      the preferred size, is scaled onto the bounds exactly. */
  lemma AdjustFitsBounds(spec: CircularSpec, bounds: Rect)
    requires PreferredSize(spec) != 0
    ensures var cmds := AdjustCmds(spec, bounds);
            |cmds| == 4 && cmds[2] == Rotate(-90.0) &&
            cmds[0].dx == bounds.left as real + bounds.Width() as real / 2.0 &&
            cmds[0].dy == bounds.top as real + bounds.Height() as real / 2.0 &&
            cmds[3].right - cmds[3].left == PreferredSize(spec) as real &&
            cmds[3].top - cmds[3].bottom == -(PreferredSize(spec) as real) &&
            (cmds[3].right - cmds[3].left) * cmds[1].sx == bounds.Width() as real &&
            (cmds[3].right - cmds[3].left) * cmds[1].sy == bounds.Height() as real
  {
    var p := PreferredSize(spec) as real;
    var outer := OuterRadiusWithInset(spec);
    assert outer * 2.0 == p;
    var w := bounds.Width() as real;
    var h := bounds.Height() as real;
    assert p * (w / p) == w;
    assert p * (h / p) == h;
    assert outer * (w / p) == w / 2.0;
    assert outer * (h / p) == h / 2.0;
  }

  // ---------------------------------------------------------------------------------------
  // Arithmetic of a segment

  lemma Mod1OnRing(s: real)
    requires 0.0 <= s <= 1.0
    ensures Mod1(s) == (if s == 1.0 then 0.0 else s)
  {
    if s < 1.0 {
      assert s.Floor == 0;
    }
  }

  /** Going from 0.9 forward to 0.1 passes 0 and covers a fifth of the ring. */
  lemma ArcFractionWraps()
    ensures ArcFraction(0.9, 0.1) == 0.2
    ensures ArcFraction(0.0, 0.5) == 0.5
  {
  }

  /** Outside the escape animation, rescaling is the identity: a fraction becomes its share of
      360 degrees in the drawing direction. */
  lemma NoEscapeNoRescaling(g: FrameGeometry, s: real, arc: real)
    requires g.totalTrackLengthFraction == 1.0
    ensures StartDegree(g, s) == s * 360.0 * g.arcDirectionFactor as real
    ensures ArcDegree(g, arc) == arc * 360.0 * g.arcDirectionFactor as real
  {
  }

  /** Outside the escape animation, no segment is split. */
  lemma NoEscapeNoSplit(g: FrameGeometry, s: real, e: real)
    requires InRange(s, e) && g.totalTrackLengthFraction == 1.0
    ensures SplitRank(g, s, e) == 0
  {
  }

  /** The gap trimmed from each end is the configured gap, clamped by the distance of the start
      from 0 degrees, and it points in the drawing direction. */
  lemma GapClamp(gapDegree: real, startDegree: real, arcDirectionFactor: int)
    requires gapDegree >= 0.0
    requires arcDirectionFactor == 1 || arcDirectionFactor == -1
    ensures var gap := GapSize(gapDegree, startDegree, arcDirectionFactor);
            Abs(gap) == Min(gapDegree, Abs(startDegree)) &&
            Abs(gap) <= Abs(startDegree) && Abs(gap) <= gapDegree &&
            gap * arcDirectionFactor as real >= 0.0
  {
  }

  /** The gap does not depend on the drawing direction other than by its sign. */
  lemma GapMirrors(gapDegree: real, startDegree: real, arcDirectionFactor: int)
    ensures GapSize(gapDegree, -startDegree, -arcDirectionFactor) == -GapSize(gapDegree, startDegree, arcDirectionFactor)
  {
  }

  /** A segment's arc in degrees points in the drawing direction. */
  lemma ArcDegreeSign(g: FrameGeometry, arc: real)
    requires ValidGeometry(g) && arc >= 0.0
    ensures ArcDegree(g, arc) * g.arcDirectionFactor as real >= 0.0
  {
    assert ScaledArc(g, arc) == arc * g.totalTrackLengthFraction;
    assert arc * g.totalTrackLengthFraction >= 0.0;
  }

  /** With a gap configured, a segment no longer than both gaps together draws nothing; any
      longer segment loses one gap at each end and keeps its direction. Without a gap, the
      segment is drawn as converted. */
  lemma GapTrimsBothEnds(spec: CircularSpec, g: FrameGeometry, s: real, arc: real)
    requires ValidSpec(spec) && ValidGeometry(g) && arc >= 0.0
    ensures var sd, ad := StartDegree(g, s), ArcDegree(g, arc);
            var gap := if spec.indicatorTrackGapSize > 0
                       then GapSize(spec.indicatorTrackGapSizeDegree, sd, g.arcDirectionFactor) else 0.0;
            var r := SegmentSweep(spec, g, s, arc);
            (r.None? <==> spec.indicatorTrackGapSize > 0 && Abs(ad) <= Abs(gap) * 2.0) &&
            (r.Some? ==> r.value.start == sd + gap &&
                         r.value.start + r.value.sweep == sd + ad - gap &&
                         Abs(r.value.sweep) == Abs(ad) - Abs(gap) * 2.0 &&
                         r.value.sweep * ad >= 0.0)
  {
    var sd, ad := StartDegree(g, s), ArcDegree(g, arc);
    ArcDegreeSign(g, arc);
    if spec.indicatorTrackGapSize > 0 {
      GapClamp(spec.indicatorTrackGapSizeDegree, sd, g.arcDirectionFactor);
    }
  }

  /** A segment starting at 0 degrees loses no gap at its start, nor at its end. */
  lemma NoGapAtTop(spec: CircularSpec, g: FrameGeometry, arc: real)
    requires ValidSpec(spec) && ValidGeometry(g) && g.totalTrackLengthFraction == 1.0 && arc > 0.0
    ensures SegmentSweep(spec, g, 0.0, arc) == Some(Sweep(0.0, ArcDegree(g, arc)))
  {
  }

  // ---------------------------------------------------------------------------------------
  // Shape of what a fill draws

  /** The rounded end is a box across the ring's centre line, as wide as the track and twice
      the corner radius high, drawn inside a save and restore of its own. */
  lemma RoundedEndShape(g: FrameGeometry, trackSize: real, cornerRadius: real, positionInDeg: real, p: PaintState)
    ensures var cmds := RoundedEndCmds(g, trackSize, cornerRadius, positionInDeg, p);
            Balanced(cmds) && cmds[1] == Rotate(positionInDeg) &&
            (cmds[2].rect.left + cmds[2].rect.right) / 2.0 == g.adjustedRadius &&
            cmds[2].rect.right - cmds[2].rect.left == trackSize &&
            cmds[2].rect.top - cmds[2].rect.bottom == cornerRadius * 2.0
  {
    var cmds := RoundedEndCmds(g, trackSize, cornerRadius, positionInDeg, p);
    assert cmds[1..][1..][1..][1..] == [];
    assert NoUnderflow(cmds[1..][1..][1..], 1);
    assert NoUnderflow(cmds[1..], 1);
    assert Depth(cmds[1..][1..][1..]) == -1;
    assert Depth(cmds[1..]) == -1;
  }

  /** One stroked arc on the ring, followed by a rounded end at each of its two ends exactly
      when the corners are rounded and the arc is neither empty nor a full circle. */
  lemma SegmentShape(g: FrameGeometry, sw: Sweep, stroke: PaintState)
    ensures var eff := SegmentEffect(g, sw, stroke);
            var fill := stroke.(style := Fill);
            var rounded := g.displayedCornerRadius > 0.0 && 0.0 < Abs(sw.sweep) < 360.0;
            |eff.cmds| == (if rounded then 9 else 1) &&
            eff.cmds[0] == DrawArc(ArcBound(g), sw.start, sw.sweep, false, stroke) &&
            (rounded ==> eff.cmds[1..5] == RoundedEndCmds(g, g.displayedTrackThickness, g.displayedCornerRadius, sw.start, fill) &&
                         eff.cmds[5..] == RoundedEndCmds(g, g.displayedTrackThickness, g.displayedCornerRadius, sw.start + sw.sweep, fill)) &&
            eff.paint == (if rounded then fill else stroke)
  {
  }

  /** The commands of one segment leave the canvas's save stack as they found it. */
  lemma SegmentBalanced(g: FrameGeometry, sw: Sweep, stroke: PaintState)
    ensures Balanced(SegmentEffect(g, sw, stroke).cmds)
  {
    var arc := [DrawArc(ArcBound(g), sw.start, sw.sweep, false, stroke)];
    assert Balanced(arc) by {
      assert arc[1..] == [];
      assert Depth(arc[1..]) == 0 && NoUnderflow(arc[1..], 0);
    }
    if HasRoundedEnds(g, sw.sweep) {
      var fill := stroke.(style := Fill);
      var first := RoundedEndCmds(g, g.displayedTrackThickness, g.displayedCornerRadius, sw.start, fill);
      var second := RoundedEndCmds(g, g.displayedTrackThickness, g.displayedCornerRadius, sw.start + sw.sweep, fill);
      RoundedEndShape(g, g.displayedTrackThickness, g.displayedCornerRadius, sw.start, fill);
      RoundedEndShape(g, g.displayedTrackThickness, g.displayedCornerRadius, sw.start + sw.sweep, fill);
      BalancedAppend(arc, first);
      BalancedAppend(arc + first, second);
    }
  }

  /** A segment draws on the ring and in its stroke colour. */
  lemma SegmentOnRing(g: FrameGeometry, sw: Sweep, stroke: PaintState)
    requires stroke.style == Stroke && stroke.strokeWidth == g.displayedTrackThickness
    ensures ArcsOnRing(g, SegmentEffect(g, sw, stroke).cmds)
    ensures DrawsInColor(SegmentEffect(g, sw, stroke).cmds, stroke.color)
  {
    var cmds := SegmentEffect(g, sw, stroke).cmds;
    SegmentShape(g, sw, stroke);
    forall i | 0 <= i < |cmds|
      ensures cmds[i].DrawArc? ==> cmds[i].oval == ArcBound(g) && cmds[i].paint.style == Stroke &&
                                   cmds[i].paint.strokeWidth == g.displayedTrackThickness
      ensures cmds[i].DrawArc? ==> cmds[i].paint.color == stroke.color
      ensures cmds[i].DrawRoundRect? ==> cmds[i].paint.color == stroke.color
    {
      if i >= 5 {
        assert cmds[i] == cmds[5..][i - 5];
      } else if i >= 1 {
        assert cmds[i] == cmds[1..5][i - 1];
      }
    }
  }

  lemma DirectBalancedOnRing(spec: CircularSpec, g: FrameGeometry, s: real, arc: real, stroke: PaintState)
    requires stroke.style == Stroke && stroke.strokeWidth == g.displayedTrackThickness
    ensures var eff := DirectEffect(spec, g, s, arc, stroke);
            Balanced(eff.cmds) && ArcsOnRing(g, eff.cmds) && DrawsInColor(eff.cmds, stroke.color)
  {
    match SegmentSweep(spec, g, s, arc)
    case None =>
    case Some(sw) =>
      SegmentBalanced(g, sw, stroke);
      SegmentOnRing(g, sw, stroke);
  }

  // ---------------------------------------------------------------------------------------
  // Filling an indicator segment

  /** A segment that starts where it ends draws nothing and leaves the paint alone. */
  lemma EmptySegmentDrawsNothing(spec: CircularSpec, g: FrameGeometry, composite: (Color, Alpha) -> Color,
                                 s: real, color: Color, alpha: Alpha, p: PaintState)
    requires InRange(s, s)
    ensures IndicatorEffect(spec, g, composite, s, s, color, alpha, p) == Effect([], p)
  {
  }

  /** A segment is drawn the same whatever the paint's settings before the call, since the
      call sets every one of them. */
  lemma IncomingPaintIrrelevant(spec: CircularSpec, g: FrameGeometry, composite: (Color, Alpha) -> Color,
                                s: real, e: real, color: Color, alpha: Alpha, p: PaintState, q: PaintState)
    requires InRange(s, e) && s != e
    ensures IndicatorEffect(spec, g, composite, s, e, color, alpha, p)
            == IndicatorEffect(spec, g, composite, s, e, color, alpha, q)
  {
    assert StrokePaint(p, composite(color, alpha), g.displayedTrackThickness)
        == StrokePaint(q, composite(color, alpha), g.displayedTrackThickness);
  }

  /** Whatever it draws, a fill leaves the save stack as it found it and draws only on the ring.
      A segment that is not split is drawn in the colour composited once with the alpha; the
      two halves of a split one are drawn in that colour composited a second time. */
  lemma {:induction false} IndicatorShape(spec: CircularSpec, g: FrameGeometry, composite: (Color, Alpha) -> Color,
                                          s: real, e: real, color: Color, alpha: Alpha, p: PaintState)
    requires InRange(s, e)
    ensures var eff := IndicatorEffect(spec, g, composite, s, e, color, alpha, p);
            Balanced(eff.cmds) && ArcsOnRing(g, eff.cmds) &&
            DrawsInColor(eff.cmds, if s != e && Splits(g, s, e)
                                   then composite(composite(color, alpha), alpha)
                                   else composite(color, alpha))
    decreases SplitRank(g, s, e)
  {
    if s == e {
      assert Balanced([]);
    } else {
      var c := composite(color, alpha);
      var stroke := StrokePaint(p, c, g.displayedTrackThickness);
      var arc := ArcFraction(s, e);
      var start := Mod1(s);
      if Splits(g, s, e) {
        SplitHalvesDoNotSplit(g, s, e);
        var first := IndicatorEffect(spec, g, composite, start, 1.0, c, alpha, stroke);
        var second := IndicatorEffect(spec, g, composite, 1.0, start + arc, c, alpha, first.paint);
        IndicatorShape(spec, g, composite, start, 1.0, c, alpha, stroke);
        IndicatorShape(spec, g, composite, 1.0, start + arc, c, alpha, first.paint);
        BalancedAppend(first.cmds, second.cmds);
        ArcsOnRingAppend(g, first.cmds, second.cmds);
        DrawsInColorAppend(first.cmds, second.cmds, composite(c, alpha));
      } else {
        DirectBalancedOnRing(spec, g, start, arc, stroke);
      }
    }
  }

  /** Outside the escape animation, a clockwise segment from 0 to a half is drawn as one arc
      from 0 degrees over 180 degrees. */
  lemma HalfRingFromTop(composite: (Color, Alpha) -> Color, color: Color, alpha: Alpha, p: PaintState)
    ensures var g := FrameGeometryFor(SteadySpec, 1.0, false, false);
            IndicatorEffect(SteadySpec, g, composite, 0.0, 0.5, color, alpha, p).cmds
            == [DrawArc(RectF(-18.0, -18.0, 18.0, 18.0), 0.0, 180.0, false,
                        StrokePaint(p, composite(color, alpha), 4.0))]
  {
    SteadyStateGeometry();
    var g := FrameGeometryFor(SteadySpec, 1.0, false, false);
    Mod1OnRing(0.0);
    assert SegmentSweep(SteadySpec, g, 0.0, 0.5) == Some(Sweep(0.0, 180.0));
  }

  /** Outside the escape animation, a clockwise segment from 0.9 to 0.1 passes 0 degrees in one
      arc: it starts at 324 degrees and sweeps 72. */
  lemma WrappingSegment(composite: (Color, Alpha) -> Color, color: Color, alpha: Alpha, p: PaintState)
    ensures var g := FrameGeometryFor(SteadySpec, 1.0, false, false);
            IndicatorEffect(SteadySpec, g, composite, 0.9, 0.1, color, alpha, p).cmds
            == [DrawArc(RectF(-18.0, -18.0, 18.0, 18.0), 324.0, 72.0, false,
                        StrokePaint(p, composite(color, alpha), 4.0))]
  {
    SteadyStateGeometry();
    var g := FrameGeometryFor(SteadySpec, 1.0, false, false);
    Mod1OnRing(0.9);
    assert SegmentSweep(SteadySpec, g, 0.9, 0.2) == Some(Sweep(324.0, 72.0));
  }

  /** Halfway through the escape animation, the segment from 0.8 to 0.1 passes 1 and is split
      there: the part up to 1 is drawn from 324 degrees over 36, and the part after it from
      180 degrees over 18, both in the colour composited twice. */
  lemma EscapeSplitExample(composite: (Color, Alpha) -> Color, color: Color, alpha: Alpha, p: PaintState)
    ensures var g := FrameGeometry(1, 4.0, 0.0, 18.0, 0.5);
            var twice := StrokePaint(p, composite(composite(color, alpha), alpha), 4.0);
            IndicatorEffect(SteadySpec, g, composite, 0.8, 0.1, color, alpha, p).cmds
            == [DrawArc(RectF(-18.0, -18.0, 18.0, 18.0), 324.0, 36.0, false, twice),
                DrawArc(RectF(-18.0, -18.0, 18.0, 18.0), 180.0, 18.0, false, twice)]
  {
    var g := FrameGeometry(1, 4.0, 0.0, 18.0, 0.5);
    var c := composite(color, alpha);
    Mod1OnRing(0.8);
    Mod1OnRing(1.0);
    assert Splits(g, 0.8, 0.1);
    SplitEffect(SteadySpec, g, composite, 0.8, 0.1, color, alpha, p);
    var stroke := StrokePaint(p, c, 4.0);
    var twice := StrokePaint(stroke, composite(c, alpha), 4.0);
    assert SegmentSweep(SteadySpec, g, 0.8, 0.2) == Some(Sweep(324.0, 36.0));
    var first := IndicatorEffect(SteadySpec, g, composite, 0.8, 1.0, c, alpha, stroke);
    assert first == Effect([DrawArc(RectF(-18.0, -18.0, 18.0, 18.0), 324.0, 36.0, false, twice)], twice);
    assert SegmentSweep(SteadySpec, g, 0.0, 0.1) == Some(Sweep(180.0, 18.0));
    var second := IndicatorEffect(SteadySpec, g, composite, 1.0, 1.1, c, alpha, first.paint);
    assert second.cmds == [DrawArc(RectF(-18.0, -18.0, 18.0, 18.0), 180.0, 18.0, false, twice)];
  }

  // ---------------------------------------------------------------------------------------
  // The two drawing directions

  /** A command as drawn in the opposite direction: every angle negated. */
  function MirrorCmd(c: DrawCmd): DrawCmd {
    match c
    case Rotate(d) => Rotate(-d)
    case DrawArc(oval, start, sweep, useCenter, paint) => DrawArc(oval, -start, -sweep, useCenter, paint)
    case _ => c
  }

  function Mirror(cmds: seq<DrawCmd>): (r: seq<DrawCmd>)
    ensures |r| == |cmds|
  {
    seq(|cmds|, i requires 0 <= i < |cmds| => MirrorCmd(cmds[i]))
  }

  lemma MirrorAppend(a: seq<DrawCmd>, b: seq<DrawCmd>)
    ensures Mirror(a + b) == Mirror(a) + Mirror(b)
  {
    assert forall i | 0 <= i < |a + b| :: Mirror(a + b)[i] == (Mirror(a) + Mirror(b))[i] by {
      forall i | 0 <= i < |a + b|
        ensures Mirror(a + b)[i] == (Mirror(a) + Mirror(b))[i]
      {
        if i < |a| {
          assert (a + b)[i] == a[i];
        } else {
          assert (a + b)[i] == b[i - |a|];
        }
      }
    }
  }

  /** Reversing the direction negates the start and the sweep of the trimmed arc, and keeps
      whether anything is drawn. */
  lemma SweepMirrors(spec: CircularSpec, g: FrameGeometry, s: real, arc: real)
    ensures var m := SegmentSweep(spec, Mirrored(g), s, arc);
            var r := SegmentSweep(spec, g, s, arc);
            m.None? == r.None? &&
            (r.Some? ==> m.value == Sweep(-r.value.start, -r.value.sweep))
  {
    var d := g.arcDirectionFactor as real;
    assert StartDegree(Mirrored(g), s) == -StartDegree(g, s) by {
      assert ScaledStart(g, s) * 360.0 * (-d) == -(ScaledStart(g, s) * 360.0 * d);
    }
    assert ArcDegree(Mirrored(g), arc) == -ArcDegree(g, arc) by {
      assert ScaledArc(g, arc) * 360.0 * (-d) == -(ScaledArc(g, arc) * 360.0 * d);
    }
    GapMirrors(spec.indicatorTrackGapSizeDegree, StartDegree(g, s), g.arcDirectionFactor);
  }

  lemma SegmentMirrors(g: FrameGeometry, sw: Sweep, stroke: PaintState)
    ensures var m := SegmentEffect(Mirrored(g), Sweep(-sw.start, -sw.sweep), stroke);
            var r := SegmentEffect(g, sw, stroke);
            m.cmds == Mirror(r.cmds) && m.paint == r.paint
  {
    var m := SegmentEffect(Mirrored(g), Sweep(-sw.start, -sw.sweep), stroke);
    var r := SegmentEffect(g, sw, stroke);
    SegmentShape(g, sw, stroke);
    SegmentShape(Mirrored(g), Sweep(-sw.start, -sw.sweep), stroke);
    assert ArcBound(Mirrored(g)) == ArcBound(g);
    assert CornersBound(Mirrored(g), g.displayedTrackThickness, g.displayedCornerRadius)
        == CornersBound(g, g.displayedTrackThickness, g.displayedCornerRadius);
    assert -sw.start + -sw.sweep == -(sw.start + sw.sweep);
    forall i | 0 <= i < |r.cmds|
      ensures m.cmds[i] == MirrorCmd(r.cmds[i])
    {
      if i >= 5 {
        assert m.cmds[i] == m.cmds[5..][i - 5];
        assert r.cmds[i] == r.cmds[5..][i - 5];
      } else if i >= 1 {
        assert m.cmds[i] == m.cmds[1..5][i - 1];
        assert r.cmds[i] == r.cmds[1..5][i - 1];
      }
    }
  }

  /** Drawing counter-clockwise instead of clockwise negates every angle drawn: the start and
      sweep of each arc and the position of each rounded end. Nothing else changes. */
  lemma {:induction false} DirectionMirrors(spec: CircularSpec, g: FrameGeometry, composite: (Color, Alpha) -> Color,
                                            s: real, e: real, color: Color, alpha: Alpha, p: PaintState)
    requires InRange(s, e)
    ensures var m := IndicatorEffect(spec, Mirrored(g), composite, s, e, color, alpha, p);
            var r := IndicatorEffect(spec, g, composite, s, e, color, alpha, p);
            m.cmds == Mirror(r.cmds) && m.paint == r.paint
    decreases SplitRank(g, s, e)
  {
    if s == e {
      assert Mirror([]) == [];
    } else {
      var c := composite(color, alpha);
      var stroke := StrokePaint(p, c, g.displayedTrackThickness);
      var arc := ArcFraction(s, e);
      var start := Mod1(s);
      assert Splits(Mirrored(g), s, e) == Splits(g, s, e);
      if Splits(g, s, e) {
        SplitHalvesDoNotSplit(g, s, e);
        var first := IndicatorEffect(spec, g, composite, start, 1.0, c, alpha, stroke);
        DirectionMirrors(spec, g, composite, start, 1.0, c, alpha, stroke);
        DirectionMirrors(spec, g, composite, 1.0, start + arc, c, alpha, first.paint);
        MirrorAppend(first.cmds, IndicatorEffect(spec, g, composite, 1.0, start + arc, c, alpha, first.paint).cmds);
      } else {
        SweepMirrors(spec, g, start, arc);
        match SegmentSweep(spec, g, start, arc)
        case None =>
          assert Mirror([]) == [];
        case Some(sw) =>
          SegmentMirrors(g, sw, stroke);
      }
    }
  }

  // ---------------------------------------------------------------------------------------
  // Filling the track

  /** The track is one full ring from 0 degrees, in the track colour, drawn the same in both
      directions, on the same ring and as thick as every indicator arc of the frame. */
  lemma TrackIsFullRing(spec: CircularSpec, g: FrameGeometry, composite: (Color, Alpha) -> Color,
                        alpha: Alpha, p: PaintState)
    ensures var eff := TrackEffect(spec, g, composite, alpha, p);
            |eff.cmds| == 1 && eff.cmds[0].DrawArc? &&
            eff.cmds[0].startAngle == 0.0 && eff.cmds[0].sweepAngle == 360.0 &&
            ArcsOnRing(g, eff.cmds) && DrawsInColor(eff.cmds, composite(spec.trackColor, alpha)) &&
            Balanced(eff.cmds) &&
            TrackEffect(spec, Mirrored(g), composite, alpha, p) == eff
  {
    var eff := TrackEffect(spec, g, composite, alpha, p);
    assert eff.cmds[1..] == [];
  }
}
