/** The drawing surface the delegate draws on and the paint it draws with, reduced to what
    the delegate can observe of them: the paint's current settings, and the sequence of
    commands issued to the canvas together with the number of saves not yet restored. */
module Surface {

  /** A colour packed as an ARGB integer. */
  type Color = int

  datatype Style = Stroke | Fill
  datatype Cap = Butt | Round | Square

  /** The settings of a paint at the moment a draw command uses it. */
  datatype PaintState = PaintState(style: Style, cap: Cap, antiAlias: bool, color: Color, strokeWidth: real)

  /** An integer rectangle, as the bounds handed to the drawable. */
  datatype Rect = Rect(left: int, top: int, right: int, bottom: int) {
    function Width(): int { right - left }
    function Height(): int { bottom - top }
  }

  /** A rectangle with real coordinates: the oval of an arc or the box of a rounded rectangle. */
  datatype RectF = RectF(left: real, top: real, right: real, bottom: real)

  /** One call on the canvas. */
  datatype DrawCmd =
    | Translate(dx: real, dy: real)
    | Scale(sx: real, sy: real)
    | Rotate(degrees: real)
    | ClipRect(left: real, top: real, right: real, bottom: real)
    | Save
    | Restore
    | DrawArc(oval: RectF, startAngle: real, sweepAngle: real, useCenter: bool, paint: PaintState)
    | DrawRoundRect(rect: RectF, rx: real, ry: real, paint: PaintState)

  /** How a command changes the number of outstanding saves. */
  function SaveDelta(c: DrawCmd): int {
    match c
    case Save => 1
    case Restore => -1
    case _ => 0
  }

  /** The net change in the number of outstanding saves over a sequence of commands. */
  function Depth(cmds: seq<DrawCmd>): int {
    if cmds == [] then 0 else SaveDelta(cmds[0]) + Depth(cmds[1..])
  }

  /** Starting with `d` outstanding saves, no command of `cmds` restores a save that was never made. */
  predicate NoUnderflow(cmds: seq<DrawCmd>, d: int) {
    cmds == [] || (d + SaveDelta(cmds[0]) >= 0 && NoUnderflow(cmds[1..], d + SaveDelta(cmds[0])))
  }

  /** Every restore of `cmds` pairs with an earlier save of `cmds`, and none is left open. */
  predicate Balanced(cmds: seq<DrawCmd>) {
    NoUnderflow(cmds, 0) && Depth(cmds) == 0
  }

  lemma {:induction false} DepthAppend(a: seq<DrawCmd>, b: seq<DrawCmd>)
    ensures Depth(a + b) == Depth(a) + Depth(b)
  {
    if a != [] {
      assert (a + b)[1..] == a[1..] + b;
      DepthAppend(a[1..], b);
    } else {
      assert a + b == b;
    }
  }

  lemma {:induction false} NoUnderflowAppend(a: seq<DrawCmd>, b: seq<DrawCmd>, d: int)
    requires NoUnderflow(a, d) && NoUnderflow(b, d + Depth(a))
    ensures NoUnderflow(a + b, d)
  {
    if a != [] {
      assert (a + b)[0] == a[0];
      assert (a + b)[1..] == a[1..] + b;
      NoUnderflowAppend(a[1..], b, d + SaveDelta(a[0]));
    } else {
      assert a + b == b;
    }
  }

  /** Two balanced command sequences in a row are balanced. */
  lemma BalancedAppend(a: seq<DrawCmd>, b: seq<DrawCmd>)
    requires Balanced(a) && Balanced(b)
    ensures Balanced(a + b)
  {
    DepthAppend(a, b);
    NoUnderflowAppend(a, b, 0);
  }

  /** A paint: its settings are changed one at a time by the setters. */
  class Paint {
    var style: Style
    var cap: Cap
    var antiAlias: bool
    var color: Color
    var strokeWidth: real

    function State(): PaintState
      reads this
    {
      PaintState(style, cap, antiAlias, color, strokeWidth)
    }

    constructor (initial: PaintState)
      ensures State() == initial
    {
      style, cap, antiAlias := initial.style, initial.cap, initial.antiAlias;
      color, strokeWidth := initial.color, initial.strokeWidth;
    }

    method SetStyle(s: Style)
      modifies this
      ensures State() == old(State()).(style := s)
    {
      style := s;
    }

    method SetStrokeCap(c: Cap)
      modifies this
      ensures State() == old(State()).(cap := c)
    {
      cap := c;
    }

    method SetAntiAlias(aa: bool)
      modifies this
      ensures State() == old(State()).(antiAlias := aa)
    {
      antiAlias := aa;
    }

    method SetColor(c: Color)
      modifies this
      ensures State() == old(State()).(color := c)
    {
      color := c;
    }

    method SetStrokeWidth(w: real)
      modifies this
      ensures State() == old(State()).(strokeWidth := w)
    {
      strokeWidth := w;
    }
  }

  /** A canvas that records every call made on it, and counts the saves not yet restored.
      The counter is kept beside the trace, not derived from it: each method states how both
      change, and `Depth` and `Balanced` relate the counter's change to the commands appended. */
  class Canvas {
    var trace: seq<DrawCmd>
    var depth: nat

    constructor ()
      ensures trace == [] && depth == 0
    {
      trace, depth := [], 0;
    }

    method Translate(dx: real, dy: real)
      modifies this
      ensures trace == old(trace) + [DrawCmd.Translate(dx, dy)] && depth == old(depth)
    {
      trace := trace + [DrawCmd.Translate(dx, dy)];
    }

    method Scale(sx: real, sy: real)
      modifies this
      ensures trace == old(trace) + [DrawCmd.Scale(sx, sy)] && depth == old(depth)
    {
      trace := trace + [DrawCmd.Scale(sx, sy)];
    }

    method Rotate(degrees: real)
      modifies this
      ensures trace == old(trace) + [DrawCmd.Rotate(degrees)] && depth == old(depth)
    {
      trace := trace + [DrawCmd.Rotate(degrees)];
    }

    method ClipRect(left: real, top: real, right: real, bottom: real)
      modifies this
      ensures trace == old(trace) + [DrawCmd.ClipRect(left, top, right, bottom)] && depth == old(depth)
    {
      trace := trace + [DrawCmd.ClipRect(left, top, right, bottom)];
    }

    method Save()
      modifies this
      ensures trace == old(trace) + [DrawCmd.Save] && depth == old(depth) + 1
    {
      trace, depth := trace + [DrawCmd.Save], depth + 1;
    }

    /** Restoring with no save outstanding is an error on a real canvas. */
    method Restore()
      requires depth > 0
      modifies this
      ensures trace == old(trace) + [DrawCmd.Restore] && depth == old(depth) - 1
    {
      trace, depth := trace + [DrawCmd.Restore], depth - 1;
    }

    /** Draws with the settings `paint` has at the time of the call. */
    method DrawArc(oval: RectF, startAngle: real, sweepAngle: real, useCenter: bool, paint: Paint)
      modifies this
      ensures trace == old(trace) + [DrawCmd.DrawArc(oval, startAngle, sweepAngle, useCenter, paint.State())]
      ensures depth == old(depth)
    {
      trace := trace + [DrawCmd.DrawArc(oval, startAngle, sweepAngle, useCenter, paint.State())];
    }

    method DrawRoundRect(rect: RectF, rx: real, ry: real, paint: Paint)
      modifies this
      ensures trace == old(trace) + [DrawCmd.DrawRoundRect(rect, rx, ry, paint.State())] && depth == old(depth)
    {
      trace := trace + [DrawCmd.DrawRoundRect(rect, rx, ry, paint.State())];
    }
  }
}
