/**
 * Coordinate transforms of the driver: the mirror-then-rotate transform
 * drawPixel applies to one pixel, the helper _logicalToNative2 that claims
 * to follow it, and _rotate, which turns a rectangle for updateWindow.
 */
module Transform {
  import opened Geometry

  /** drawPixel's range check on a logical pixel (width()/height() of the base class). */
  predicate InLogicalBounds(x: int, y: int, rotation: Rotation) {
    0 <= x < LogicalWidth(rotation) && 0 <= y < LogicalHeight(rotation)
  }

  predicate InNativeBounds(nx: int, ny: int) {
    0 <= nx < WIDTH && 0 <= ny < HEIGHT
  }

  /**
   * drawPixel's transform: mirror x against the logical width, then move
   * the pixel around for the rotation.  Every logical pixel lands on the
   * native panel.
   */
  function PixelToNative(x: int, y: int, rotation: Rotation): (p: (int, int))
    requires InLogicalBounds(x, y, rotation)
    ensures InNativeBounds(p.0, p.1)
  {
    var mx := LogicalWidth(rotation) - 1 - x;
    if rotation == 1 then (WIDTH - y - 1, mx)
    else if rotation == 2 then (WIDTH - mx - 1, HEIGHT - y - 1)
    else if rotation == 3 then (y, HEIGHT - mx - 1)
    else (mx, y)
  }

  /** Independent inverse of drawPixel's transform: the logical pixel a native one shows. */
  function NativeToLogical(nx: int, ny: int, rotation: Rotation): (p: (int, int))
    requires InNativeBounds(nx, ny)
    ensures InLogicalBounds(p.0, p.1, rotation)
  {
    if rotation == 1 then (HEIGHT - 1 - ny, WIDTH - 1 - nx)
    else if rotation == 2 then (nx, HEIGHT - 1 - ny)
    else if rotation == 3 then (ny, nx)
    else (WIDTH - 1 - nx, ny)
  }

  /** Closed forms of drawPixel's transform for the four rotations. */
  lemma PixelToNativeClosedForm(x: int, y: int, rotation: Rotation)
    requires InLogicalBounds(x, y, rotation)
    ensures rotation == 0 ==> PixelToNative(x, y, rotation) == (399 - x, y)
    ensures rotation == 1 ==> PixelToNative(x, y, rotation) == (399 - y, 299 - x)
    ensures rotation == 2 ==> PixelToNative(x, y, rotation) == (x, 299 - y)
    ensures rotation == 3 ==> PixelToNative(x, y, rotation) == (y, x)
  {
  }

  /** The transform is a bijection between the logical and the native panel. */
  lemma PixelToNativeRoundTrip(x: int, y: int, rotation: Rotation)
    requires InLogicalBounds(x, y, rotation)
    ensures NativeToLogical(PixelToNative(x, y, rotation).0, PixelToNative(x, y, rotation).1, rotation) == (x, y)
  {
  }

  lemma NativeToPixelRoundTrip(nx: int, ny: int, rotation: Rotation)
    requires InNativeBounds(nx, ny)
    ensures PixelToNative(NativeToLogical(nx, ny, rotation).0, NativeToLogical(nx, ny, rotation).1, rotation) == (nx, ny)
  {
  }

  /** Two different logical pixels never share a native pixel. */
  lemma {:induction false} PixelToNativeInjective(x1: int, y1: int, x2: int, y2: int, rotation: Rotation)
    requires InLogicalBounds(x1, y1, rotation) && InLogicalBounds(x2, y2, rotation)
    requires PixelToNative(x1, y1, rotation) == PixelToNative(x2, y2, rotation)
    ensures x1 == x2 && y1 == y2
  {
    PixelToNativeRoundTrip(x1, y1, rotation);
    PixelToNativeRoundTrip(x2, y2, rotation);
  }

  /**
   * _logicalToNative2: rotate first, then mirror, in int16_t arithmetic
   * (every assignment to an int16_t wraps).
   */
  function LogicalToNative2(lx: Int16, ly: Int16, rotation: Rotation): (p: (Int16, Int16))
    ensures rotation == 1 ==> p == (ly, lx)
  {
    var (rx, ry) :=
      if rotation == 1 then (Wrap16(WIDTH - 1 - ly), lx)
      else if rotation == 2 then (Wrap16(WIDTH - 1 - lx), Wrap16(HEIGHT - 1 - ly))
      else if rotation == 3 then (ly, Wrap16(HEIGHT - 1 - lx))
      else (lx, ly);
    (Wrap16(WIDTH - 1 - rx), ry)
  }

  /** At rotations 0 and 2 _logicalToNative2 agrees with drawPixel, as its comments claim. */
  lemma LogicalToNative2MatchesDrawPixel(x: int, y: int, rotation: Rotation)
    requires InLogicalBounds(x, y, rotation)
    requires rotation == 0 || rotation == 2
    ensures LogicalToNative2(x, y, rotation) == PixelToNative(x, y, rotation)
  {
  }

  /** Closed forms of _logicalToNative2 on the logical panel at the quarter turns. */
  lemma LogicalToNative2QuarterTurns(x: int, y: int, rotation: Rotation)
    requires InLogicalBounds(x, y, rotation)
    ensures rotation == 1 ==> LogicalToNative2(x, y, rotation) == (y, x)
    ensures rotation == 3 ==> LogicalToNative2(x, y, rotation) == (399 - y, 299 - x)
  {
  }

  /** At rotations 1 and 3 it does not agree with drawPixel: the logical origin shows the difference. */
  lemma LogicalToNative2DiffersAtQuarterTurns(rotation: Rotation)
    requires rotation == 1 || rotation == 3
    ensures LogicalToNative2(0, 0, rotation) != PixelToNative(0, 0, rotation)
  {
  }

  /**
   * _rotate: turn a rectangle (x, y, w, h) held in uint16_t variables for the
   * rotation; every assignment wraps modulo 2^16.
   */
  function Rotate(x: Uint16, y: Uint16, w: Uint16, h: Uint16, rotation: Rotation): (r: (Uint16, Uint16, Uint16, Uint16))
    ensures rotation == 0 ==> r == (x, y, w, h)
    ensures rotation % 2 == 1 ==> r.2 == h && r.3 == w
    ensures rotation == 2 ==> r.2 == w && r.3 == h
  {
    if rotation == 1 then (U16(WIDTH - y - h - 1), x, h, w)
    else if rotation == 2 then (U16(WIDTH - x - w - 1), U16(HEIGHT - y - h - 1), w, h)
    else if rotation == 3 then (y, U16(HEIGHT - x - w - 1), h, w)
    else (x, y, w, h)
  }

  /** At rotation 2 the origin moves to 399-x-w, 299-y-h; with no wrap these are the plain differences. */
  lemma RotateHalfTurn(x: Uint16, y: Uint16, w: Uint16, h: Uint16)
    requires x + w <= 399 && y + h <= 299
    ensures Rotate(x, y, w, h, 2) == (399 - x - w, 299 - y - h, w, h)
  {
  }

  /** Turning a rectangle by a half turn twice gives it back, wrap-around included. */
  lemma RotateHalfTurnInvolution(x: Uint16, y: Uint16, w: Uint16, h: Uint16)
    ensures var r := Rotate(x, y, w, h, 2); Rotate(r.0, r.1, r.2, r.3, 2) == (x, y, w, h)
  {
  }
}
