/** Boundary checks applied to a window while its header is dragged.
    Coordinates are pixels; the browser's fractional values are taken as integers. */
module Geometry {

  /** Height of the top bar: a dragged window never goes above it. */
  const TopBar: int := 32

  /** A committed window position (its `style.left` and `style.top`). */
  datatype Pos = Pos(left: int, top: int)

  function Max(a: int, b: int): int { if a < b then b else a }
  function Min(a: int, b: int): int { if a < b then a else b }

  /** The right-hand limit of a window's left edge in a desktop whose rectangle
      starts at `deskLeft` and is `deskWidth` wide, for a window `winWidth` wide. */
  function RightLimit(deskLeft: int, deskWidth: int, winWidth: int): int {
    deskWidth + deskLeft - winWidth
  }

  /** The chain of boundary checks of the move handler, in the order the handler
      runs them: left and top to 0, then the right edge, then the top bar. */
  function Clamp(x: int, y: int, deskLeft: int, deskWidth: int, winWidth: int): (p: Pos)
    ensures p.top >= TopBar
    ensures winWidth <= deskWidth + deskLeft ==>
              0 <= p.left && p.left + winWidth <= deskWidth + deskLeft
    ensures winWidth > deskWidth + deskLeft ==> p.left == RightLimit(deskLeft, deskWidth, winWidth) < 0
  {
    var x1 := if x < 0 then 0 else x;
    var y1 := if y < 0 then 0 else y;
    var x2 := if x1 + winWidth > deskWidth + deskLeft then deskWidth + deskLeft - winWidth else x1;
    var y2 := if y1 < TopBar then TopBar else y1;
    Pos(x2, y2)
  }

  /** An independent description of the clamp: the left edge is the raw value
      forced into [0, right limit], with the right limit winning when the window is
      wider than the desktop; the top is the raw value raised to the top bar. */
  lemma ClampIsMinMax(x: int, y: int, deskLeft: int, deskWidth: int, winWidth: int)
    ensures Clamp(x, y, deskLeft, deskWidth, winWidth)
            == Pos(Min(Max(x, 0), RightLimit(deskLeft, deskWidth, winWidth)), Max(y, TopBar))
  {
  }

  /** A position that already satisfies every check is committed unchanged. */
  lemma ClampKeepsLegalPosition(x: int, y: int, deskLeft: int, deskWidth: int, winWidth: int)
    requires 0 <= x && x + winWidth <= deskWidth + deskLeft && TopBar <= y
    ensures Clamp(x, y, deskLeft, deskWidth, winWidth) == Pos(x, y)
  {
  }

  /** Clamping the clamped position again changes nothing. */
  lemma ClampIdempotent(x: int, y: int, deskLeft: int, deskWidth: int, winWidth: int)
    ensures var p := Clamp(x, y, deskLeft, deskWidth, winWidth);
            Clamp(p.left, p.top, deskLeft, deskWidth, winWidth) == p
  {
  }

  /** The clamp never carries the window further than needed across: when the window
      fits, the committed left edge is at least as close to the raw one as any legal
      left edge is. */
  lemma ClampLeftIsNearest(x: int, y: int, deskLeft: int, deskWidth: int, winWidth: int, qLeft: int)
    requires 0 <= qLeft && qLeft + winWidth <= deskWidth + deskLeft
    ensures Dist(Clamp(x, y, deskLeft, deskWidth, winWidth).left, x) <= Dist(qLeft, x)
  {
  }

  /** Likewise downwards: the committed top is at least as close to the raw one as any
      top below the top bar is, whatever the horizontal geometry. */
  lemma ClampTopIsNearest(x: int, y: int, deskLeft: int, deskWidth: int, winWidth: int, qTop: int)
    requires TopBar <= qTop
    ensures Dist(Clamp(x, y, deskLeft, deskWidth, winWidth).top, y) <= Dist(qTop, y)
  {
  }

  function Dist(a: int, b: int): nat { if a < b then b - a else a - b }

  /** Moving the pointer further right (or down) never moves the window left (or up). */
  lemma ClampMonotone(x: int, y: int, x': int, y': int, deskLeft: int, deskWidth: int, winWidth: int)
    requires x <= x' && y <= y'
    ensures var p := Clamp(x, y, deskLeft, deskWidth, winWidth);
            var p' := Clamp(x', y', deskLeft, deskWidth, winWidth);
            p.left <= p'.left && p.top <= p'.top
  {
  }
}
