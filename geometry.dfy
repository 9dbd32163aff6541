/** The geometry of the circular progress indicator as pure functions over real numbers: the
    per-frame state that adjusting the canvas computes, and the canvas commands that filling
    the track or one indicator segment issues. The delegate's methods are proved against these. */
module CircularGeometry {
  import opened Surface

  datatype Option<T> = None | Some(value: T)

  /** The alpha of the calling drawable. */
  type Alpha = a: int | 0 <= a <= 255

  datatype Direction = Clockwise | CounterClockwise
  datatype ShowBehavior = ShowNone | ShowOutward | ShowInward
  datatype HideBehavior = HideNone | HideOutward | HideInward | HideEscape

  /** The configuration the delegate reads; sizes are in pixels. `indicatorTrackGapSizeDegree`
      is the gap at each end of a segment, in degrees, as the configuration derives it from
      `indicatorTrackGapSize` and the ring's size. */
  datatype CircularSpec = CircularSpec(
    indicatorSize: int,
    indicatorInset: int,
    trackThickness: int,
    trackCornerRadius: int,
    indicatorDirection: Direction,
    trackColor: Color,
    indicatorTrackGapSize: int,
    indicatorTrackGapSizeDegree: real,
    showAnimationBehavior: ShowBehavior,
    hideAnimationBehavior: HideBehavior)

  /** A gap is never negative in degrees. */
  predicate ValidSpec(spec: CircularSpec) {
    spec.indicatorTrackGapSizeDegree >= 0.0
  }

  /** The state one `adjustCanvas` call leaves for the fill calls of the same frame. */
  datatype FrameGeometry = FrameGeometry(
    arcDirectionFactor: int,
    displayedTrackThickness: real,
    displayedCornerRadius: real,
    adjustedRadius: real,
    totalTrackLengthFraction: real)

  predicate ValidGeometry(g: FrameGeometry) {
    (g.arcDirectionFactor == 1 || g.arcDirectionFactor == -1) &&
    0.0 <= g.totalTrackLengthFraction <= 1.0
  }

  // ---------------------------------------------------------------------------------------
  // Canvas adjustment

  /** The natural width and height of the indicator: the ring with the inset on each side. */
  function PreferredSize(spec: CircularSpec): int {
    spec.indicatorSize + spec.indicatorInset * 2
  }

  function OuterRadiusWithInset(spec: CircularSpec): real {
    spec.indicatorSize as real / 2.0 + spec.indicatorInset as real
  }

  /** The animations that keep the outer edge of the track fixed while it thickens or thins. */
  predicate ShrinksTowardOuterEdge(spec: CircularSpec, isShowing: bool, isHiding: bool) {
    (isShowing && spec.showAnimationBehavior == ShowInward) ||
    (isHiding && spec.hideAnimationBehavior == HideOutward)
  }

  /** The animations that keep the inner edge of the track fixed while it thickens or thins. */
  predicate ShrinksTowardInnerEdge(spec: CircularSpec, isShowing: bool, isHiding: bool) {
    (isShowing && spec.showAnimationBehavior == ShowOutward) ||
    (isHiding && spec.hideAnimationBehavior == HideInward)
  }

  /** The per-frame geometry for a given fraction of the track thickness. */
  function FrameGeometryFor(spec: CircularSpec, trackThicknessFraction: real, isShowing: bool, isHiding: bool): FrameGeometry {
    var f := trackThicknessFraction;
    var baseRadius := (spec.indicatorSize - spec.trackThickness) as real / 2.0;
    var shift := (1.0 - f) * spec.trackThickness as real / 2.0;
    FrameGeometry(
      if spec.indicatorDirection == Clockwise then 1 else -1,
      spec.trackThickness as real * f,
      spec.trackCornerRadius as real * f,
      if ShrinksTowardOuterEdge(spec, isShowing, isHiding) then baseRadius + shift
      else if ShrinksTowardInnerEdge(spec, isShowing, isHiding) then baseRadius - shift
      else baseRadius,
      if isHiding && spec.hideAnimationBehavior == HideEscape then f else 1.0)
  }

  /** The transforms `adjustCanvas` applies: move the origin, scale the preferred size onto the
      bounds, turn 0 degrees to the top, and clip to the square holding the ring and its inset. */
  function AdjustCmds(spec: CircularSpec, bounds: Rect): seq<DrawCmd>
    requires PreferredSize(spec) != 0
  {
    var scaleX := bounds.Width() as real / PreferredSize(spec) as real;
    var scaleY := bounds.Height() as real / PreferredSize(spec) as real;
    var outer := OuterRadiusWithInset(spec);
    [ Translate(outer * scaleX + bounds.left as real, outer * scaleY + bounds.top as real),
      Scale(scaleX, scaleY),
      Rotate(-90.0),
      ClipRect(-outer, -outer, outer, outer) ]
  }

  // ---------------------------------------------------------------------------------------
  // Arithmetic of a segment

  function Lerp(a: real, b: real, t: real): real {
    a + t * (b - a)
  }

  function Abs(x: real): (r: real)
  {
    if x < 0.0 then -x else x
  }

  function Min(a: real, b: real): (r: real)
  {
    if a <= b then a else b
  }

  /** `x` modulo 1 for a non-negative `x`. */
  function Mod1(x: real): (r: real)
    requires x >= 0.0
    ensures 0.0 <= r < 1.0
    ensures (x - r).Floor as real == x - r
  {
    x - x.Floor as real
  }

  /** The fraction of the ring covered going forward from `s` to `e`, wrapping through 0 once
      when `e` lies behind `s`. */
  function ArcFraction(s: real, e: real): (r: real)
    ensures (s + r == e) == (e >= s)
    ensures (s + r == e + 1.0) == (e < s)
    ensures 0.0 <= s <= 1.0 && 0.0 <= e <= 1.0 ==> 0.0 <= r <= 1.0
  {
    if e >= s then e - s else 1.0 + e - s
  }

  /** The start fraction rescaled for the escape animation, with 1 as the fixed point. */
  function ScaledStart(g: FrameGeometry, s: real): real {
    Lerp(1.0 - g.totalTrackLengthFraction, 1.0, s)
  }

  /** The arc fraction rescaled for the escape animation. */
  function ScaledArc(g: FrameGeometry, arc: real): real {
    Lerp(0.0, g.totalTrackLengthFraction, arc)
  }

  function StartDegree(g: FrameGeometry, s: real): real {
    ScaledStart(g, s) * 360.0 * g.arcDirectionFactor as real
  }

  function ArcDegree(g: FrameGeometry, arc: real): real {
    ScaledArc(g, arc) * 360.0 * g.arcDirectionFactor as real
  }

  /** The gap trimmed from each end: the configured gap, but never more than the distance of the
      start from 0 degrees, signed by the direction. */
  function GapSize(gapDegree: real, startDegree: real, arcDirectionFactor: int): real {
    Min(gapDegree, Abs(startDegree)) * arcDirectionFactor as real
  }

  /** Where an arc starts and how far it sweeps, in degrees. */
  datatype Sweep = Sweep(start: real, sweep: real)

  /** The arc of a segment that does not wrap, after the gaps are trimmed; None when the
      segment is too short to show once its gaps are taken off. */
  function SegmentSweep(spec: CircularSpec, g: FrameGeometry, s: real, arc: real): Option<Sweep> {
    var startDegree := StartDegree(g, s);
    var arcDegree := ArcDegree(g, arc);
    if spec.indicatorTrackGapSize > 0 then
      var gap := GapSize(spec.indicatorTrackGapSizeDegree, startDegree, g.arcDirectionFactor);
      if Abs(arcDegree) <= Abs(gap) * 2.0 then None
      else Some(Sweep(startDegree + gap, arcDegree - gap * 2.0))
    else Some(Sweep(startDegree, arcDegree))
  }

  // ---------------------------------------------------------------------------------------
  // Commands of a segment

  /** What a fill leaves behind: the commands it issued and the paint's final settings. */
  datatype Effect = Effect(cmds: seq<DrawCmd>, paint: PaintState)

  /** The paint set up for stroking a ring of the given colour and width. */
  function StrokePaint(p: PaintState, color: Color, width: real): PaintState {
    p.(style := Stroke, cap := Butt, antiAlias := true, color := color, strokeWidth := width)
  }

  /** The square bounding the ring's centre line. */
  function ArcBound(g: FrameGeometry): RectF {
    RectF(-g.adjustedRadius, -g.adjustedRadius, g.adjustedRadius, g.adjustedRadius)
  }

  /** The box of a rounded end before rotation: across the ring's centre line on the
      0-degree axis, as thick as the track and twice the corner radius high. */
  function CornersBound(g: FrameGeometry, trackSize: real, cornerRadius: real): RectF {
    RectF(g.adjustedRadius - trackSize / 2.0, cornerRadius, g.adjustedRadius + trackSize / 2.0, -cornerRadius)
  }

  function RoundedEndCmds(g: FrameGeometry, trackSize: real, cornerRadius: real, positionInDeg: real, p: PaintState): seq<DrawCmd> {
    [ Save,
      Rotate(positionInDeg),
      DrawRoundRect(CornersBound(g, trackSize, cornerRadius), cornerRadius, cornerRadius, p),
      Restore ]
  }

  /** Rounded ends are drawn on an arc that is neither empty nor a full circle. */
  predicate HasRoundedEnds(g: FrameGeometry, sweep: real) {
    g.displayedCornerRadius > 0.0 && Abs(sweep) > 0.0 && Abs(sweep) < 360.0
  }

  /** One stroked arc, then a rounded end at each of its two ends when it has them. */
  function SegmentEffect(g: FrameGeometry, sw: Sweep, stroke: PaintState): Effect {
    var arc := [DrawArc(ArcBound(g), sw.start, sw.sweep, false, stroke)];
    if HasRoundedEnds(g, sw.sweep) then
      var fill := stroke.(style := Fill);
      Effect(arc
             + RoundedEndCmds(g, g.displayedTrackThickness, g.displayedCornerRadius, sw.start, fill)
             + RoundedEndCmds(g, g.displayedTrackThickness, g.displayedCornerRadius, sw.start + sw.sweep, fill),
             fill)
    else Effect(arc, stroke)
  }

  /** What a call that does not split draws for the normalised start `s` and length `arc`,
      once the paint is set up for stroking: nothing when the gaps leave too little. */
  function DirectEffect(spec: CircularSpec, g: FrameGeometry, s: real, arc: real, stroke: PaintState): Effect {
    match SegmentSweep(spec, g, s, arc)
    case None => Effect([], stroke)
    case Some(sw) => SegmentEffect(g, sw, stroke)
  }

  // ---------------------------------------------------------------------------------------
  // Filling an indicator segment

  /** The fractions `fillIndicator` accepts: a start on the ring and an end at most one turn
      further (the second half of a wrapping segment ends beyond 1). */
  predicate InRange(s: real, e: real) {
    0.0 <= s <= 1.0 && 0.0 <= e <= 2.0
  }

  /** In the escape animation, a segment whose normalised start plus length passes 1 is split there. */
  predicate Splits(g: FrameGeometry, s: real, e: real)
    requires s >= 0.0
  {
    g.totalTrackLengthFraction < 1.0 && Mod1(s) + ArcFraction(s, e) > 1.0
  }

  /** 1 for a call that splits, 0 for one that draws directly or draws nothing. */
  function SplitRank(g: FrameGeometry, s: real, e: real): nat
    requires s >= 0.0
  {
    if s != e && Splits(g, s, e) then 1 else 0
  }

  /** Halves meeting at 1 never split again: the first ends exactly at 1, and the second starts
      at 0 once normalised and is less than a whole turn long. */
  lemma HalvesDoNotSplit(g: FrameGeometry, start: real, end: real)
    requires 0.0 <= start < 1.0 < end <= 2.0
    ensures InRange(start, 1.0) && InRange(1.0, end)
    ensures SplitRank(g, start, 1.0) == 0 && SplitRank(g, 1.0, end) == 0
  {
    assert Mod1(start) == start;
    assert Mod1(1.0) == 0.0;
  }

  /** A split segment breaks at 1 into two halves that cover exactly its length. */
  lemma SplitHalvesDoNotSplit(g: FrameGeometry, s: real, e: real)
    requires InRange(s, e) && s != e && Splits(g, s, e)
    ensures 0.0 <= Mod1(s) < 1.0 < Mod1(s) + ArcFraction(s, e) <= 2.0
    ensures InRange(Mod1(s), 1.0) && InRange(1.0, Mod1(s) + ArcFraction(s, e))
    ensures SplitRank(g, Mod1(s), 1.0) == 0 && SplitRank(g, 1.0, Mod1(s) + ArcFraction(s, e)) == 0
    ensures ArcFraction(Mod1(s), 1.0) + ArcFraction(1.0, Mod1(s) + ArcFraction(s, e)) == ArcFraction(s, e)
  {
    var start := Mod1(s);
    assert start == s || (s == 1.0 && start == 0.0);
    HalvesDoNotSplit(g, start, start + ArcFraction(s, e));
  }

  /** What `fillIndicator` draws for the segment from `s` to `e`, starting from paint `p`. */
  function IndicatorEffect(spec: CircularSpec, g: FrameGeometry, composite: (Color, Alpha) -> Color,
                           s: real, e: real, color: Color, alpha: Alpha, p: PaintState): Effect
    requires InRange(s, e)
    decreases SplitRank(g, s, e)
  {
    if s == e then Effect([], p)
    else
      var c := composite(color, alpha);
      var stroke := StrokePaint(p, c, g.displayedTrackThickness);
      var arc := ArcFraction(s, e);
      var start := Mod1(s);
      if g.totalTrackLengthFraction < 1.0 && start + arc > 1.0 then
        SplitHalvesDoNotSplit(g, s, e);
        var first := IndicatorEffect(spec, g, composite, start, 1.0, c, alpha, stroke);
        var second := IndicatorEffect(spec, g, composite, 1.0, start + arc, c, alpha, first.paint);
        Effect(first.cmds + second.cmds, second.paint)
      else DirectEffect(spec, g, start, arc, stroke)
  }

  /** A call that splits draws its first half and then its second half, each with the colour
      already composited once, the second starting from the paint the first left. */
  lemma SplitEffect(spec: CircularSpec, g: FrameGeometry, composite: (Color, Alpha) -> Color,
                    s: real, e: real, color: Color, alpha: Alpha, p: PaintState)
    requires InRange(s, e) && s != e && Splits(g, s, e)
    ensures InRange(Mod1(s), 1.0) && InRange(1.0, Mod1(s) + ArcFraction(s, e))
    ensures var c := composite(color, alpha);
            var first := IndicatorEffect(spec, g, composite, Mod1(s), 1.0, c, alpha,
                                         StrokePaint(p, c, g.displayedTrackThickness));
            var second := IndicatorEffect(spec, g, composite, 1.0, Mod1(s) + ArcFraction(s, e), c, alpha, first.paint);
            IndicatorEffect(spec, g, composite, s, e, color, alpha, p) == Effect(first.cmds + second.cmds, second.paint)
  {
    SplitHalvesDoNotSplit(g, s, e);
  }

  // ---------------------------------------------------------------------------------------
  // Filling the track

  /** What `fillTrack` draws: the whole ring in the track colour. */
  function TrackEffect(spec: CircularSpec, g: FrameGeometry, composite: (Color, Alpha) -> Color,
                       alpha: Alpha, p: PaintState): Effect {
    var stroke := StrokePaint(p, composite(spec.trackColor, alpha), g.displayedTrackThickness);
    Effect([DrawArc(ArcBound(g), 0.0, 360.0, false, stroke)], stroke)
  }
}
