# Circular progress indicator drawing, modelled in Dafny

This project models the drawing delegate of Material Components' circular progress
indicator, `CircularDrawingDelegate`. In each frame the delegate first adjusts the canvas and
records five geometry fields. It then turns progress fractions into canvas commands:

- the whole track as one ring;
- each indicator segment as one stroked arc, trimmed by a gap at each end, with optional
  rounded ends;
- during the escape hide animation, a segment that crosses 0 degrees is drawn as two halves.

The numbers are Dafny `real`s. The canvas is a recorder: every call appends a command to its
`trace`, and a save counter tracks open saves. The paint is a record of five settings. Each
method of the delegate class is proved against a pure function of its inputs and of the
delegate's fields, and the properties of the drawing are proved about those functions.

Files:

- `surface.dfy` (module `Surface`): the canvas commands, the recording `Canvas`, the `Paint`,
  and the save-stack balance of a command sequence.
- `geometry.dfy` (module `CircularGeometry`): the configuration, the per-frame geometry and
  the pure functions that say what each call draws.
- `delegate.dfy` (module `CircularDrawing`): the class `CircularDrawingDelegate` with the
  five fields and the methods.
- `properties.dfy` (module `CircularProperties`): lemmas about the pure functions.

The class uses two helper methods. `FillSplit` is the escape split of `fillIndicator`
(lines 171-176). `DrawSegment` is the rest of `fillIndicator` (lines 177-206). Together with
`FillIndicator` they issue exactly the calls that the one Java method issues, in the same
order.

A note on which edge stays put. Despite the names, the code at
`CircularDrawingDelegate.java:112-124` and its comments keep the OUTER edge of the track fixed at
`indicatorSize / 2` for `SHOW_INWARD` and `HIDE_OUTWARD`, and the INNER edge fixed for
`SHOW_OUTWARD` and `HIDE_INWARD`. `OuterEdgeStaysPut` and `InnerEdgeStaysPut` prove it.

## Model

All source paths are under `lib/java/com/google/android/material/progressindicator/`.

| member | source | states |
|---|---|---|
| CircularDrawing.CircularDrawingDelegate.constructor | lib/java/com/google/android/material/progressindicator/CircularDrawingDelegate.java:37-52 | the spec is kept; the direction factor starts at +1 (clockwise) and the four sizes at zero, which is a valid geometry |
| CircularDrawing.CircularDrawingDelegate.GetPreferredWidth | lib/java/com/google/android/material/progressindicator/CircularDrawingDelegate.java:54-57 | the preferred width is `indicatorSize + 2 * indicatorInset`, twice the outer radius with the inset |
| CircularDrawing.CircularDrawingDelegate.GetPreferredHeight | lib/java/com/google/android/material/progressindicator/CircularDrawingDelegate.java:59-62 | the preferred height equals the preferred width |
| CircularDrawing.CircularDrawingDelegate.AdjustCanvas | lib/java/com/google/android/material/progressindicator/CircularDrawingDelegate.java:78-131 | appends translate, scale, rotate(-90) and clip in that order, leaves the save depth alone, sets the five fields to `FrameGeometryFor` of the spec, fraction and flags, and leaves them valid |
| CircularDrawing.CircularDrawingDelegate.FillIndicator | lib/java/com/google/android/material/progressindicator/CircularDrawingDelegate.java:146-176 | the canvas gains exactly `IndicatorEffect(...)`'s commands, the paint ends with its settings, and the save depth is unchanged |
| CircularDrawing.CircularDrawingDelegate.FillSplit | lib/java/com/google/android/material/progressindicator/CircularDrawingDelegate.java:171-176 | draws the half up to 1 and then the half after 1, both with the once-composited colour, the second from the paint the first left |
| CircularDrawing.CircularDrawingDelegate.DrawSegment | lib/java/com/google/android/material/progressindicator/CircularDrawingDelegate.java:177-206 | the canvas gains exactly `DirectEffect`'s commands for the normalised start and length: the trimmed arc and its rounded ends, or nothing |
| CircularDrawing.CircularDrawingDelegate.FillTrack | lib/java/com/google/android/material/progressindicator/CircularDrawingDelegate.java:216-232 | the canvas gains exactly `TrackEffect`'s one full-ring arc, and the paint is set for stroking in the composited track colour |
| CircularDrawing.CircularDrawingDelegate.DrawRoundedEnd | lib/java/com/google/android/material/progressindicator/CircularDrawingDelegate.java:238-251 | appends save, rotate to the position, the round rectangle across the ring, and restore; the save depth is unchanged |
| CircularGeometry.PreferredSize | lib/java/com/google/android/material/progressindicator/CircularDrawingDelegate.java:234-236 | no contract of its own: `getSize`, the reference `GetPreferredWidth` and `GetPreferredHeight` return; its value is stated in their ensures |
| CircularGeometry.FrameGeometryFor | lib/java/com/google/android/material/progressindicator/CircularDrawingDelegate.java:107-130 | no contract of its own: the five field values `AdjustCanvas` is proved to set; its properties are the geometry lemmas below |
| CircularGeometry.AdjustCmds | lib/java/com/google/android/material/progressindicator/CircularDrawingDelegate.java:85-104 | no contract of its own: the four transforms `AdjustCanvas` is proved to append; `AdjustFitsBounds` states what they do |
| CircularGeometry.GapSize | lib/java/com/google/android/material/progressindicator/CircularDrawingDelegate.java:186-187 | no contract of its own: the signed, clamped gap that `DrawSegment`'s reference uses; `GapClamp` and `GapMirrors` state its properties |
| CircularGeometry.SegmentSweep | lib/java/com/google/android/material/progressindicator/CircularDrawingDelegate.java:177-194 | no contract of its own: the rescaled, converted and trimmed arc, or none, that `DrawSegment` is proved to draw; `GapTrimsBothEnds` states it |
| CircularGeometry.RoundedEndCmds | lib/java/com/google/android/material/progressindicator/CircularDrawingDelegate.java:238-251 | no contract of its own: the commands `DrawRoundedEnd` is proved to append; `RoundedEndShape` states their shape |
| CircularGeometry.SegmentEffect | lib/java/com/google/android/material/progressindicator/CircularDrawingDelegate.java:196-206 | no contract of its own: the arc and optional rounded ends `DrawSegment` is proved to draw; `SegmentShape` states them |
| CircularGeometry.DirectEffect | lib/java/com/google/android/material/progressindicator/CircularDrawingDelegate.java:177-206 | no contract of its own: what `DrawSegment` is proved equal to; `DirectBalancedOnRing` states its properties |
| CircularGeometry.IndicatorEffect | lib/java/com/google/android/material/progressindicator/CircularDrawingDelegate.java:146-206 | no contract of its own: what `FillIndicator` is proved equal to; `SplitEffect`, `IndicatorShape` and `DirectionMirrors` state its properties |
| CircularGeometry.TrackEffect | lib/java/com/google/android/material/progressindicator/CircularDrawingDelegate.java:217-232 | no contract of its own: what `FillTrack` is proved equal to; `TrackIsFullRing` states it |
| CircularGeometry.Mod1 | lib/java/com/google/android/material/progressindicator/CircularDrawingDelegate.java:170 | `x % 1` of a non-negative `x` lies in [0, 1) and differs from `x` by a whole number |
| CircularGeometry.ArcFraction | lib/java/com/google/android/material/progressindicator/CircularDrawingDelegate.java:166-169 | going forward from the start reaches the end without wrapping exactly when end >= start, and after one turn exactly when end < start; in [0, 1] for fractions on the ring |
| CircularGeometry.HalvesDoNotSplit | lib/java/com/google/android/material/progressindicator/CircularDrawingDelegate.java:171-174 | the halves meeting at 1 are accepted inputs and neither splits again |
| CircularGeometry.SplitHalvesDoNotSplit | lib/java/com/google/android/material/progressindicator/CircularDrawingDelegate.java:166-176 | a split segment breaks at 1 into two halves of a depth-0 recursion, whose lengths add up to the segment's |
| CircularGeometry.SplitEffect | lib/java/com/google/android/material/progressindicator/CircularDrawingDelegate.java:157-176 | what a split call draws is what the call up to 1 draws followed by what the call from 1 draws, both with the colour composited once already |
| CircularProperties.FrameGeometryValid | lib/java/com/google/android/material/progressindicator/CircularDrawingDelegate.java:107-130 | for a fraction in [0, 1] the direction factor is +1 or -1, +1 exactly for clockwise, and the track length fraction is in [0, 1] |
| CircularProperties.OuterEdgeStaysPut | lib/java/com/google/android/material/progressindicator/CircularDrawingDelegate.java:111-117 | showing inward or hiding outward keeps the displayed track's outer edge at `indicatorSize / 2` |
| CircularProperties.InnerEdgeStaysPut | lib/java/com/google/android/material/progressindicator/CircularDrawingDelegate.java:118-124 | showing outward or hiding inward keeps the displayed track's inner edge at `indicatorSize / 2 - trackThickness` |
| CircularProperties.RadiusNonNegative | lib/java/com/google/android/material/progressindicator/CircularDrawingDelegate.java:109-124 | when the track fits inside the ring (0 <= thickness, twice the thickness at most the size), every frame's radius and displayed thickness are non-negative |
| CircularProperties.CentreLineOtherwise | lib/java/com/google/android/material/progressindicator/CircularDrawingDelegate.java:111 | with neither animation class the radius is the full-thickness centre line |
| CircularProperties.FullThicknessIgnoresAnimation | lib/java/com/google/android/material/progressindicator/CircularDrawingDelegate.java:107-130 | at full thickness every show and hide flag gives the steady-state geometry |
| CircularProperties.CornerRadiusKeepsRatio | lib/java/com/google/android/material/progressindicator/CircularDrawingDelegate.java:109-110 | displayed thickness and corner radius are scaled by the same fraction |
| CircularProperties.EscapeShortensTrack | lib/java/com/google/android/material/progressindicator/CircularDrawingDelegate.java:126-130 | the track is shorter than the ring exactly while hiding with the escape animation, and then is the thickness fraction long |
| CircularProperties.CounterClockwiseGeometry | lib/java/com/google/android/material/progressindicator/CircularDrawingDelegate.java:107-108 | the counter-clockwise geometry is the clockwise one with the direction factor negated |
| CircularProperties.SteadyStateGeometry | lib/java/com/google/android/material/progressindicator/CircularDrawingDelegate.java:107-130 | a 40 pixel ring with a 4 pixel track gives radius 18, thickness 4, a whole track and preferred size 40 |
| CircularProperties.AdjustFitsBounds | lib/java/com/google/android/material/progressindicator/CircularDrawingDelegate.java:85-104 | the origin moves to the centre of the bounds, the canvas turns -90 degrees, and the clip square is the preferred size wide and high and is scaled exactly onto the bounds |
| CircularProperties.Mod1OnRing | lib/java/com/google/android/material/progressindicator/CircularDrawingDelegate.java:170 | normalising keeps a start in [0, 1) and turns 1 into 0 |
| CircularProperties.ArcFractionWraps | lib/java/com/google/android/material/progressindicator/CircularDrawingDelegate.java:166-169 | from 0.9 to 0.1 covers 0.2 of the ring, and from 0 to 0.5 covers half of it |
| CircularProperties.NoEscapeNoRescaling | lib/java/com/google/android/material/progressindicator/CircularDrawingDelegate.java:177-182 | with the whole track, start and length in degrees are the fractions times 360 times the direction |
| CircularProperties.NoEscapeNoSplit | lib/java/com/google/android/material/progressindicator/CircularDrawingDelegate.java:171 | with the whole track, no segment is split |
| CircularProperties.GapClamp | lib/java/com/google/android/material/progressindicator/CircularDrawingDelegate.java:186-187 | the gap's size is the smaller of the configured gap and the start's distance from 0 degrees, so it is at most either, and it points in the drawing direction |
| CircularProperties.GapMirrors | lib/java/com/google/android/material/progressindicator/CircularDrawingDelegate.java:186-187 | reversing the direction and the start only negates the gap |
| CircularProperties.ArcDegreeSign | lib/java/com/google/android/material/progressindicator/CircularDrawingDelegate.java:179-182 | a segment's sweep in degrees points in the drawing direction |
| CircularProperties.GapTrimsBothEnds | lib/java/com/google/android/material/progressindicator/CircularDrawingDelegate.java:185-194 | nothing is drawn exactly when a gap is configured and the sweep is at most twice the gap; otherwise the arc loses one gap at each end and keeps its direction |
| CircularProperties.NoGapAtTop | lib/java/com/google/android/material/progressindicator/CircularDrawingDelegate.java:185-194 | outside the escape animation, a non-empty segment starting at fraction 0 is drawn untrimmed from 0 degrees, because the clamp makes its gap 0 |
| CircularProperties.RoundedEndShape | lib/java/com/google/android/material/progressindicator/CircularDrawingDelegate.java:238-251 | a rounded end is balanced in saves and restores, is rotated to its position, and is a box centred on the ring, as wide as the track and twice the corner radius high |
| CircularProperties.SegmentShape | lib/java/com/google/android/material/progressindicator/CircularDrawingDelegate.java:196-206 | one stroked arc on the ring, then rounded ends at its start and at its end exactly when the corner radius is positive and the sweep is strictly between 0 and 360 degrees in size |
| CircularProperties.SegmentBalanced | lib/java/com/google/android/material/progressindicator/CircularDrawingDelegate.java:196-206 | a segment's commands leave the save stack as they found it |
| CircularProperties.SegmentOnRing | lib/java/com/google/android/material/progressindicator/CircularDrawingDelegate.java:196-206 | a segment draws its arcs on the ring at the track's thickness, all in the stroke colour |
| CircularProperties.DirectBalancedOnRing | lib/java/com/google/android/material/progressindicator/CircularDrawingDelegate.java:177-206 | a call that does not split is balanced and draws on the ring in its colour |
| CircularProperties.EmptySegmentDrawsNothing | lib/java/com/google/android/material/progressindicator/CircularDrawingDelegate.java:153-156 | a segment that starts where it ends draws nothing and leaves the paint unchanged |
| CircularProperties.IncomingPaintIrrelevant | lib/java/com/google/android/material/progressindicator/CircularDrawingDelegate.java:159-164 | a non-empty segment draws the same whatever the paint held before the call |
| CircularProperties.IndicatorShape | lib/java/com/google/android/material/progressindicator/CircularDrawingDelegate.java:157-206 | every fill is balanced in saves and draws on the ring; an unsplit segment is in the colour composited once, a split one in the colour composited twice |
| CircularProperties.HalfRingFromTop | lib/java/com/google/android/material/progressindicator/CircularDrawingDelegate.java:166-198 | from 0 to 0.5 clockwise, with no gap and no escape, draws one arc from 0 degrees over 180 |
| CircularProperties.WrappingSegment | lib/java/com/google/android/material/progressindicator/CircularDrawingDelegate.java:166-198 | from 0.9 to 0.1 draws one arc from 324 degrees over 72 |
| CircularProperties.EscapeSplitExample | lib/java/com/google/android/material/progressindicator/CircularDrawingDelegate.java:166-198 | at track length 0.5, from 0.8 to 0.1 draws 324 over 36 and then 180 over 18, both in the twice-composited colour |
| CircularProperties.SweepMirrors | lib/java/com/google/android/material/progressindicator/CircularDrawingDelegate.java:181-194 | reversing the direction negates the trimmed arc's start and sweep, and keeps whether anything is drawn |
| CircularProperties.SegmentMirrors | lib/java/com/google/android/material/progressindicator/CircularDrawingDelegate.java:196-206 | reversing the direction negates the arc's angles and the rounded ends' rotations, and nothing else |
| CircularProperties.DirectionMirrors | lib/java/com/google/android/material/progressindicator/CircularDrawingDelegate.java:107-108 | counter-clockwise draws what clockwise draws with every angle negated, and leaves the same paint |
| CircularProperties.TrackIsFullRing | lib/java/com/google/android/material/progressindicator/CircularDrawingDelegate.java:217-232 | the track is one arc from 0 over 360 degrees, on the ring, in the composited track colour, balanced, and the same in both directions |

## Left out

- Rendering: `Canvas`, `Paint`, `Rect` and `RectF` are reduced to the recorded commands and the
  paint's settings. Nothing is rasterised.
- Floating point: the model uses exact reals. It does not capture `float` rounding, 32-bit
  overflow of `getSize`, or Java's `%` on negative operands. Starts are never negative here.
- `MaterialColors.compositeARGBWithAlpha` is not part of this model. It is an arbitrary
  function field `composite` of the delegate. The double compositing of a split segment's
  colour (line 157 reassigns `color` before the calls at lines 173-174) is kept and proved by
  `IndicatorShape`.
- `lerp` from `MathUtils` and `getIndicatorTrackGapSizeDegree()` of the spec class are not part
  of this model. The former is defined locally as `a + t * (b - a)`. The latter is the spec field
  `indicatorTrackGapSizeDegree`, required to be non-negative where a lemma needs it.
- The configuration class, the drawable that calls the delegate, the animators and the view
  lifecycle are not shown. Their values are parameters.
- CircularDrawing.CircularDrawingDelegate.AdjustCanvas requires a non-zero preferred size. The
  Java code would divide by zero and scale by an infinite or undefined factor.
- CircularDrawing.CircularDrawingDelegate.FillIndicator accepts an end fraction up to 2, not
  only up to 1. The second half of a split segment is called with an end greater than 1. The
  range annotations on the parameters are not checked otherwise.
