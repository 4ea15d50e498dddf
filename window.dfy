/**
 * The two windowed-update paths.  updateWindow mirrors, clamps and rotates
 * the request in uint16_t arithmetic and addresses the byte columns
 * [x / 8, (xe + 7) / 8) of rows y..ye; updateWindow2 takes the bounding box of
 * the four transformed corners, clamps it to the panel and addresses the
 * inclusive byte columns x / 8 .. x_max / 8.  Both stream plane 1 only.
 */
module Window {
  import opened Wrappers
  import opened Geometry
  import opened Transform
  import opened Framebuffer
  import opened Protocol
  import opened Sequences

  function Min(a: int, b: int): int { if a <= b then a else b }

  // ---------------------------------------------------------------------
  // The bytes a window streams

  /**
   * Byte columns [xs, xe) of one native row, in order, leaving out every
   * index that falls outside the plane (the source logs and skips those).
   */
  function RowBytes(plane: seq<bv8>, row: nat, xs: nat, xe: int): (r: seq<bv8>)
    requires |plane| == BUFFER_SIZE
    decreases xe - xs
  {
    if xe <= xs then []
    else
      var idx := row * BYTES_PER_ROW + (xe - 1);
      RowBytes(plane, row, xs, xe - 1) + (if idx < BUFFER_SIZE then [plane[idx]] else [])
  }

  /** Rows [y, yEnd) of a window, row-major. */
  function Rows(plane: seq<bv8>, xs: nat, xe: int, y: nat, yEnd: int): (r: seq<bv8>)
    requires |plane| == BUFFER_SIZE
    decreases yEnd - y
  {
    if yEnd <= y then []
    else Rows(plane, xs, xe, y, yEnd - 1) + RowBytes(plane, yEnd - 1, xs, xe)
  }

  lemma {:induction false} RowBytesExact(plane: seq<bv8>, row: nat, xs: nat, xe: int)
    requires |plane| == BUFFER_SIZE
    requires xs <= xe <= BYTES_PER_ROW && row < HEIGHT
    ensures |RowBytes(plane, row, xs, xe)| == xe - xs
    ensures forall k :: 0 <= k < xe - xs ==> RowBytes(plane, row, xs, xe)[k] == plane[row * BYTES_PER_ROW + xs + k]
    decreases xe - xs
  {
    if xe > xs {
      RowBytesExact(plane, row, xs, xe - 1);
    }
  }

  /** Position in a window's byte stream of row r, byte column c. */
  function Offset(y: int, xs: int, xe: int, r: int, c: int): int {
    (r - y) * (xe - xs) + (c - xs)
  }

  /**
   * A window inside the panel streams every byte of it, row by row: the byte
   * of row r and column c comes at Offset(y, xs, xe - xs, r, c), and the
   * count is (xe - xs) * (yEnd - y).
   */
  lemma {:induction false} RowsExact(plane: seq<bv8>, xs: nat, xe: int, y: nat, yEnd: int)
    requires |plane| == BUFFER_SIZE
    requires xs <= xe <= BYTES_PER_ROW && y <= yEnd <= HEIGHT
    ensures |Rows(plane, xs, xe, y, yEnd)| == (xe - xs) * (yEnd - y)
    ensures forall r, c :: y <= r < yEnd && xs <= c < xe ==>
      0 <= Offset(y, xs, xe, r, c) < |Rows(plane, xs, xe, y, yEnd)| &&
      Rows(plane, xs, xe, y, yEnd)[Offset(y, xs, xe, r, c)] == plane[r * BYTES_PER_ROW + c]
    decreases yEnd - y
  {
    if yEnd > y {
      var n := xe - xs;
      RowsExact(plane, xs, xe, y, yEnd - 1);
      RowBytesExact(plane, yEnd - 1, xs, xe);
      var head := Rows(plane, xs, xe, y, yEnd - 1);
      var last := RowBytes(plane, yEnd - 1, xs, xe);
      assert Rows(plane, xs, xe, y, yEnd) == head + last;
      MulStep(n, yEnd - 1 - y);
      forall r, c | y <= r < yEnd && xs <= c < xe
        ensures 0 <= Offset(y, xs, xe, r, c) < |head + last| &&
          (head + last)[Offset(y, xs, xe, r, c)] == plane[r * BYTES_PER_ROW + c]
      {
        if r < yEnd - 1 {
          RowsIndexHead(head, last, y, xs, xe, r, c, yEnd - 1, plane[r * BYTES_PER_ROW + c]);
        } else {
          RowsIndexLast(head, last, y, xs, xe, c, yEnd - 1, plane[r * BYTES_PER_ROW + c]);
        }
      }
    }
  }

  /** A byte of an earlier row keeps its offset when the next row is appended. */
  lemma RowsIndexHead(head: seq<bv8>, last: seq<bv8>, y: int, xs: int, xe: int, r: int, c: int, lastRow: int, b: bv8)
    requires y <= r < lastRow && xs <= c < xe
    requires |head| == (xe - xs) * (lastRow - y)
    requires 0 <= Offset(y, xs, xe, r, c) < |head| && head[Offset(y, xs, xe, r, c)] == b
    ensures 0 <= Offset(y, xs, xe, r, c) < |head + last| && (head + last)[Offset(y, xs, xe, r, c)] == b
  {
  }

  /** A byte of the appended row comes after all earlier rows. */
  lemma RowsIndexLast(head: seq<bv8>, last: seq<bv8>, y: int, xs: int, xe: int, c: int, lastRow: int, b: bv8)
    requires y <= lastRow && xs <= c < xe
    requires |head| == (xe - xs) * (lastRow - y) && |last| == xe - xs
    requires last[c - xs] == b
    ensures 0 <= Offset(y, xs, xe, lastRow, c) < |head + last| && (head + last)[Offset(y, xs, xe, lastRow, c)] == b
  {
    OffsetInRow(y, xs, xe, lastRow, c, lastRow);
  }

  /** Rows before `last` end before it; row `last` starts right after them. */
  lemma OffsetInRow(y: int, xs: int, xe: int, r: int, c: int, last: int)
    requires y <= r <= last && xs <= c < xe
    ensures r < last ==> 0 <= Offset(y, xs, xe, r, c) < (xe - xs) * (last - y)
    ensures r == last ==> Offset(y, xs, xe, r, c) == (xe - xs) * (last - y) + (c - xs)
  {
    var n := xe - xs;
    if r < last {
      assert (r - y) * n <= (last - 1 - y) * n by {
        assert 0 <= n;
        MulMono(r - y, last - 1 - y, n);
      }
      MulStep(n, last - 1 - y);
      assert 0 <= (r - y) * n by { MulMono(0, r - y, n); }
    }
  }

  // ---------------------------------------------------------------------
  // updateWindow

  /** The native window updateWindow computes, or Rejected when it returns early. */
  datatype WindowPlan =
    | Rejected
    | Window(x: Uint16, y: Uint16, xe: Uint16, ye: Uint16, xsByte: Uint16, xeByte: Uint16)

  /** Mirror the request in x, then cut w and h at the panel edge, all in uint16_t. */
  function MirrorAndClamp(x: Uint16, y: Uint16, w: Uint16, h: Uint16): (r: (Uint16, Uint16, Uint16, Uint16))
    ensures r.1 == y
    ensures x + w <= WIDTH - 1 ==> r.0 == WIDTH - 1 - (x + w) && r.2 == w
    ensures r.0 < WIDTH ==> r.0 + r.2 <= WIDTH - 1
    ensures y < HEIGHT ==> r.1 + r.3 <= HEIGHT - 1
    ensures y + h <= HEIGHT - 1 ==> r.3 == h
  {
    var mx := U16(WIDTH - x - w - 1);
    var cw := if mx + w > WIDTH - 1 then U16(WIDTH - 1 - mx) else w;
    var ch := if y + h > HEIGHT - 1 then U16(HEIGHT - 1 - y) else h;
    (mx, y, cw, ch)
  }

  /** updateWindow's window arithmetic, gx_uint16_min taken as the minimum of two uint16_t. */
  function UpdateWindowPlan(x: Uint16, y: Uint16, w: Uint16, h: Uint16, usingRotation: bool, rotation: Rotation): (p: WindowPlan)
    ensures (w == 0 || h == 0) ==> p == Rejected
    ensures p.Window? ==> p.x < WIDTH && p.y < HEIGHT && p.xsByte == p.x / 8
    ensures p.Window? ==> (p.xe < WIDTH || p.xe == 0xFFFF) && (p.ye < HEIGHT || p.ye == 0xFFFF)
    ensures p.Window? ==> p.xeByte == (p.xe + 7) / 8
  {
    if w == 0 || h == 0 then Rejected
    else
      var (mx, my, mw, mh) := MirrorAndClamp(x, y, w, h);
      var (rx, ry, rw, rh) := if usingRotation then Rotate(mx, my, mw, mh, rotation) else (mx, my, mw, mh);
      if rx >= WIDTH || ry >= HEIGHT then Rejected
      else NativePlan(rx, ry, rw, rh)
  }

  /** Inclusive ends min(origin + size, panel) - 1, wrapped to uint16_t, and the byte range. */
  function NativePlan(rx: Uint16, ry: Uint16, rw: Uint16, rh: Uint16): (p: WindowPlan)
    requires rx < WIDTH && ry < HEIGHT
    ensures p.Window? && p.x == rx && p.y == ry && p.xsByte == p.x / 8
    ensures (p.xe < WIDTH || p.xe == 0xFFFF) && (p.ye < HEIGHT || p.ye == 0xFFFF)
    ensures p.xeByte == (p.xe + 7) / 8
  {
    var xe := U16(Min(WIDTH, U16(rx + rw)) - 1);
    var ye := U16(Min(HEIGHT, U16(ry + rh)) - 1);
    Window(rx, ry, xe, ye, rx / 8, U16((xe + 7) / 8))
  }

  /**
   * The window whose last row wrapped round to 65535: the source's int16_t
   * row counter can never exceed it, so that updateWindow never returns.
   */
  predicate UpdateWindowHangs(x: Uint16, y: Uint16, w: Uint16, h: Uint16, usingRotation: bool, rotation: Rotation): (r: bool)
    ensures r ==> (UpdateWindowPlan(x, y, w, h, usingRotation, rotation).Window? &&
                   UpdateWindowPlan(x, y, w, h, usingRotation, rotation).ye == 0xFFFF)
    ensures r ==> usingRotation && rotation != 0
  {
    var p := UpdateWindowPlan(x, y, w, h, usingRotation, rotation);
    p.Window? && p.ye >= HEIGHT
  }

  /**
   * Without rotation (or at rotation 0) the window stays inside the panel:
   * byte columns within a row, rows within the panel, so no index is ever
   * out of bounds.  The last row, 299, is never part of it.
   */
  lemma UpdateWindowUnrotatedInPanel(x: Uint16, y: Uint16, w: Uint16, h: Uint16, usingRotation: bool, rotation: Rotation)
    requires !usingRotation || rotation == 0
    ensures var p := UpdateWindowPlan(x, y, w, h, usingRotation, rotation);
      p.Window? ==> p.xsByte <= p.xeByte <= BYTES_PER_ROW && p.y <= p.ye + 1 && p.ye < HEIGHT - 1
  {
  }

  /** Closed form at rotation 0 for a request that needs no clamping. */
  lemma UpdateWindowAtRotationZero(x: Uint16, y: Uint16, w: Uint16, h: Uint16)
    requires 1 <= w && 1 <= h && x + w <= WIDTH - 1 && y + h <= HEIGHT - 1
    ensures UpdateWindowPlan(x, y, w, h, true, 0) ==
      Window(399 - x - w, y, 398 - x, y + h - 1, (399 - x - w) / 8, (405 - x) / 8)
  {
  }

  /**
   * The byte end (xe + 7) / 8 takes an inclusive xe: the byte holding column
   * xe is sent exactly when xe is not a multiple of 8.
   */
  lemma ByteEndCoversIff(xe: nat)
    ensures xe / 8 < (xe + 7) / 8 <==> xe % 8 != 0
  {
  }

  /**
   * A request hanging over the right edge mirrors to a wrapped x: it is
   * dropped without rotation and at rotations 0, 1 and 3.
   */
  lemma UpdateWindowRejectsOverhang()
    ensures UpdateWindowPlan(390, 0, 50, 10, false, 0) == Rejected
    ensures UpdateWindowPlan(390, 0, 50, 10, true, 0) == Rejected
    ensures UpdateWindowPlan(390, 0, 50, 10, true, 1) == Rejected
    ensures UpdateWindowPlan(390, 0, 50, 10, true, 3) == Rejected
  {
  }

  /**
   * At rotation 2 _rotate subtracts the mirrored x from 399 - w again and
   * the wrap cancels: the same request becomes every byte of rows 289..298.
   */
  lemma UpdateWindowOverhangAtHalfTurn()
    ensures UpdateWindowPlan(390, 0, 50, 10, true, 2) == Window(0, 289, 399, 298, 0, 50)
  {
  }

  // ---------------------------------------------------------------------
  // updateWindow against drawPixel

  /**
   * At rotation 0, for a request that needs no clamp, the window is the
   * box of native pixels drawPixel writes for it moved one column left.
   */
  lemma UpdateWindowVersusDrawPixelAtRotationZero(x: Uint16, y: Uint16, w: Uint16, h: Uint16)
    requires 1 <= w && 1 <= h && x + w <= WIDTH - 1 && y + h <= HEIGHT - 1
    ensures var p := UpdateWindowPlan(x, y, w, h, true, 0);
      p.Window? &&
      p.x == PixelToNative(x + w - 1, y, 0).0 - 1 && p.xe == PixelToNative(x, y, 0).0 - 1 &&
      p.y == PixelToNative(x, y, 0).1 && p.ye == PixelToNative(x, y + h - 1, 0).1
  {
  }

  /**
   * At rotation 1, for a request that needs no clamp and starts at logical
   * column 100 or later, the window is drawPixel's box moved one column
   * left and 99 rows down.
   */
  lemma UpdateWindowVersusDrawPixelAtQuarterTurn(x: Uint16, y: Uint16, w: Uint16, h: Uint16)
    requires 1 <= w && 1 <= h && 100 <= x && x + w <= HEIGHT && y + h <= HEIGHT - 1
    ensures var p := UpdateWindowPlan(x, y, w, h, true, 1);
      p.Window? &&
      p.x == PixelToNative(x, y + h - 1, 1).0 - 1 && p.xe == PixelToNative(x, y, 1).0 - 1 &&
      p.y == PixelToNative(x + w - 1, y, 1).1 + 99 && p.ye == PixelToNative(x, y, 1).1 + 99
  {
  }

  /**
   * At rotation 2, for a request that needs no clamp, the window has
   * drawPixel's columns but sits one row above drawPixel's rows.
   */
  lemma UpdateWindowVersusDrawPixelAtHalfTurn(x: Uint16, y: Uint16, w: Uint16, h: Uint16)
    requires 1 <= w && 1 <= h && x + w <= WIDTH - 1 && y + h <= HEIGHT - 1
    ensures var p := UpdateWindowPlan(x, y, w, h, true, 2);
      p.Window? &&
      p.x == PixelToNative(x, y, 2).0 && p.xe == PixelToNative(x + w - 1, y, 2).0 &&
      p.y == PixelToNative(x, y + h - 1, 2).1 - 1 && p.ye == PixelToNative(x, y, 2).1 - 1
  {
  }

  /**
   * At rotation 3, for a request that needs no clamp and starts at logical
   * column 100 or later, the window has drawPixel's columns but sits 100
   * rows above drawPixel's rows.
   */
  lemma UpdateWindowVersusDrawPixelAtThreeQuarterTurn(x: Uint16, y: Uint16, w: Uint16, h: Uint16)
    requires 1 <= w && 1 <= h && 100 <= x && x + w <= HEIGHT && y + h <= HEIGHT - 1
    ensures var p := UpdateWindowPlan(x, y, w, h, true, 3);
      p.Window? &&
      p.x == PixelToNative(x, y, 3).0 && p.xe == PixelToNative(x, y + h - 1, 3).0 &&
      p.y == PixelToNative(x, y, 3).1 - 100 && p.ye == PixelToNative(x + w - 1, y, 3).1 - 100
  {
  }

  /**
   * At rotations 1 and 3 the mirror uses the native width 400, not the
   * logical width 300: every request within the first 99 logical columns
   * is dropped, although drawPixel puts each of its pixels on the panel.
   */
  lemma UpdateWindowDropsLeftBandAtQuarterTurns(x: Uint16, y: Uint16, w: Uint16, h: Uint16, rotation: Rotation)
    requires rotation == 1 || rotation == 3
    requires 1 <= w && 1 <= h && x + w <= 99
    ensures UpdateWindowPlan(x, y, w, h, true, rotation) == Rejected
  {
  }

  /**
   * A pixel drawPixel writes that updateWindow does not send: at rotation 0
   * the one-pixel request at (7, 0) sends byte column 48 only, while
   * drawPixel put the pixel in byte 49.
   */
  lemma UpdateWindowMissesDrawnByte()
    ensures UpdateWindowPlan(7, 0, 1, 1, true, 0) == Window(391, 0, 391, 0, 48, 49)
    ensures PixelTarget(7, 0, 0) == Some(Target(49, 0x80))
  {
  }

  /** The one-pixel request at the logical origin, against drawPixel, at rotations 1 to 3. */
  lemma UpdateWindowMissesOrigin()
    ensures UpdateWindowPlan(0, 0, 1, 1, true, 1) == Rejected && PixelToNative(0, 0, 1) == (399, 299)
    ensures UpdateWindowPlan(0, 0, 1, 1, true, 2) == Window(0, 298, 0, 298, 0, 0) && PixelToNative(0, 0, 2) == (0, 299)
    ensures UpdateWindowPlan(150, 0, 1, 1, true, 3) == Window(0, 50, 0, 50, 0, 0) && PixelToNative(150, 0, 3) == (0, 150)
  {
  }

  /** At rotation 2 a window on logical row 299 wraps its last row to 65535. */
  lemma UpdateWindowHangsAtHalfTurn()
    ensures UpdateWindowPlan(0, 299, 10, 1, true, 2) == Window(0, 0, 9, 0xFFFF, 0, 2)
    ensures UpdateWindowHangs(0, 299, 10, 1, true, 2)
  {
  }

  /**
   * At rotation 1 a window on logical row 399 wraps its last column to 65535;
   * the byte range runs to 8192 and indices past the plane are skipped.
   */
  lemma UpdateWindowOverrunsAtQuarterTurn()
    ensures UpdateWindowPlan(0, 399, 100, 1, true, 1) == Window(100, 299, 0xFFFF, 299, 12, 8192)
    ensures 299 * BYTES_PER_ROW + 50 >= BUFFER_SIZE
  {
  }

  /** Command 0x44: first and last byte column of the RAM window, one byte each. */
  function XRange(first: int, last: int): Step {
    Command(0x44, [Byte(first), Byte(last)])
  }

  /** Command 0x45: first and last gate row of the RAM window, each low byte first. */
  function YRange(first: int, last: int): Step {
    Command(0x45, [Byte(first % 256), Byte(first / 256), Byte(last % 256), Byte(last / 256)])
  }

  /** Command 0x4E: the RAM x cursor, one byte. */
  function XCursor(x: int): Step {
    Command(0x4E, [Byte(x)])
  }

  /** Command 0x4F: the RAM y cursor, low byte first. */
  function YCursor(y: int): Step {
    Command(0x4F, [Byte(y % 256), Byte(y / 256)])
  }

  /** The x registers hold their columns modulo 256 (uint8_t parameters). */
  lemma XRegistersBytes(first: int, last: int)
    ensures ByteValue(XRange(first, last).args[0]) == first % 256
    ensures ByteValue(XRange(first, last).args[1]) == last % 256
    ensures ByteValue(XCursor(first).args[0]) == first % 256
  {
  }

  /** Byte columns below 256 reach the x registers unchanged. */
  lemma XRegistersExact(first: int, last: int)
    requires 0 <= first < 256 && 0 <= last < 256
    ensures ByteValue(XRange(first, last).args[0]) == first
    ensures ByteValue(XRange(first, last).args[1]) == last
    ensures ByteValue(XCursor(first).args[0]) == first
  {
    SmallByte(first);
    SmallByte(last);
  }

  /** The y registers read back as the 16-bit rows they were given. */
  lemma YRegistersWords(first: Uint16, last: Uint16)
    ensures Word(YRange(first, last).args[0], YRange(first, last).args[1]) == first
    ensures Word(YRange(first, last).args[2], YRange(first, last).args[3]) == last
    ensures Word(YCursor(first).args[0], YCursor(first).args[1]) == first
  {
    LittleEndian16(first);
    LittleEndian16(last);
  }

  /** Registers of updateWindow: reset, SWRESET, gate count, entry mode, no bypass, border 0x80, window, cursor. */
  function UpdateWindowSetupSteps(p: WindowPlan): (s: seq<Step>)
    requires p.Window?
    ensures |s| == 12
    ensures s[..5] == PreInitSteps(Full)[..5]
    ensures s[6] == InitPartialSteps()[3] && s[7] == InitPartialSteps()[2]
    ensures s[6] != PreInitSteps(Full)[5]
  {
    [ Pulse(10), Busy, Command(0x12, []), Busy,
      Command(0x01, [0x2B, 0x01, 0x00]),
      Command(0x11, [0x01]),
      Command(0x21, [0x00, 0x00]),
      Command(0x3C, [0x80]),
      XRange(p.xsByte, p.xeByte - 1),
      YRange(p.y, p.ye),
      XCursor(p.xsByte),
      YCursor(HEIGHT - 1 - p.y) ]
  }

  /** The bytes updateWindow streams: plane 1 over byte columns [xsByte, xeByte) of rows y..ye. */
  function UpdateWindowBytes(plane: seq<bv8>, p: WindowPlan): seq<bv8>
    requires |plane| == BUFFER_SIZE && p.Window?
  {
    Rows(plane, p.xsByte, p.xeByte, p.y, p.ye + 1)
  }

  /** The transport record of an updateWindow that does not return early. */
  function UpdateWindowTrace(p: WindowPlan, plane: seq<bv8>): seq<Event>
    requires |plane| == BUFFER_SIZE && p.Window?
  {
    Encode(UpdateWindowSetupSteps(p))
    + [Cmd(0x24)] + DataBufs(Chunks(UpdateWindowBytes(plane, p)))
    + Encode(ActivateSteps(0xFF) + SleepSteps())
  }

  /** The controller receives the window registers, the window's bytes under 0x24, partial activation and power-off. */
  lemma UpdateWindowDelivers(p: WindowPlan, plane: seq<bv8>)
    requires |plane| == BUFFER_SIZE && p.Window?
    ensures Steps(UpdateWindowTrace(p, plane)) ==
      UpdateWindowSetupSteps(p) + [Command(0x24, UpdateWindowBytes(plane, p))] + ActivateSteps(0xFF) + SleepSteps()
  {
    WindowDelivers(UpdateWindowSetupSteps(p), UpdateWindowBytes(plane, p));
  }

  /** updateWindow's x window (0x44) holds the first and last byte column, as uint8_t. */
  lemma UpdateWindowXRange(p: WindowPlan)
    requires p.Window?
    ensures var s := UpdateWindowSetupSteps(p)[8];
      s.code == 0x44 && ByteValue(s.args[0]) == p.xsByte % 256 && ByteValue(s.args[1]) == (p.xeByte - 1) % 256
  {
    var last := p.xeByte - 1;
    assert UpdateWindowSetupSteps(p)[8] == XRange(p.xsByte, last);
    XRegistersBytes(p.xsByte, last);
  }

  /** updateWindow's y window (0x45) holds rows y and ye, little-endian. */
  lemma UpdateWindowYRange(p: WindowPlan)
    requires p.Window?
    ensures var s := UpdateWindowSetupSteps(p)[9];
      s.code == 0x45 && Word(s.args[0], s.args[1]) == p.y && Word(s.args[2], s.args[3]) == p.ye
  {
    assert UpdateWindowSetupSteps(p)[9] == YRange(p.y, p.ye);
    YRegistersWords(p.y, p.ye);
  }

  /** updateWindow's cursor: x (0x4E) on the first byte column, y (0x4F) on row 299 - y. */
  lemma UpdateWindowCursor(p: WindowPlan)
    requires p.Window? && p.y < HEIGHT
    ensures var s := UpdateWindowSetupSteps(p);
      s[10].code == 0x4E && ByteValue(s[10].args[0]) == p.xsByte % 256 &&
      s[11].code == 0x4F && Word(s[11].args[0], s[11].args[1]) == HEIGHT - 1 - p.y
  {
    var row: Uint16 := HEIGHT - 1 - p.y;
    assert UpdateWindowSetupSteps(p)[10] == XCursor(p.xsByte);
    assert UpdateWindowSetupSteps(p)[11] == YCursor(row);
    XRegistersBytes(p.xsByte, p.xeByte - 1);
    YRegistersWords(row, p.ye);
  }

  /** Shared by both windowed paths: encoded setup, streamed 0x24 transfer, activation and power-off. */
  lemma WindowDelivers(setup: seq<Step>, bytes: seq<bv8>)
    ensures Steps(Encode(setup) + [Cmd(0x24)] + DataBufs(Chunks(bytes)) + Encode(ActivateSteps(0xFF) + SleepSteps())) ==
      setup + [Command(0x24, bytes)] + ActivateSteps(0xFF) + SleepSteps()
  {
    var post := ActivateSteps(0xFF) + SleepSteps();
    var tail := Encode(post);
    var head := Encode(setup);
    var d := DataBufs(Chunks(bytes));
    EncodeClosed(post);
    DecodeEncode(post);
    DecodeEncode(setup);
    var stream := [Cmd(0x24)] + d + tail;
    StreamedCommand(0x24, bytes, tail);
    assert Steps(stream) == [Command(0x24, bytes)] + post;
    StepsAppend(head, stream);
    assert Steps(head + stream) == setup + ([Command(0x24, bytes)] + post);
    Regroup4(head, [Cmd(0x24)], d, tail);
    RegroupSteps(setup, [Command(0x24, bytes)], ActivateSteps(0xFF), SleepSteps());
  }

  // ---------------------------------------------------------------------
  // updateWindow2

  /**
   * The native window of updateWindow2: the clamped bounding box in pixels,
   * and the byte columns and rows it addresses (both ends inclusive).
   */
  datatype NativeWindow = NativeWindow(
    nativeX: int, nativeY: int, nativeXMax: int, nativeYMax: int,
    xStart: int, xEnd: int, yStart: int, yEnd: int)

  /** _logicalToNative applied to a corner; its outputs are int16_t. */
  function Corner(toNative: (int, int) -> (int, int), lx: int, ly: int): (Int16, Int16) {
    var p := toNative(Wrap16(lx), Wrap16(ly));
    (Wrap16(p.0), Wrap16(p.1))
  }

  /** The four corners of the logical box, in native coordinates. */
  function Corners(x: Uint16, y: Uint16, w: Uint16, h: Uint16, toNative: (int, int) -> (int, int)): seq<(Int16, Int16)> {
    [ Corner(toNative, x, y), Corner(toNative, x + w - 1, y),
      Corner(toNative, x, y + h - 1), Corner(toNative, x + w - 1, y + h - 1) ]
  }

  function Min4(a: int, b: int, c: int, d: int): int { Min(Min(a, b), Min(c, d)) }
  function Max4(a: int, b: int, c: int, d: int): int { -Min4(-a, -b, -c, -d) }

  /** updateWindow2's window arithmetic: bounding box, clamping, final check, byte alignment. */
  function Window2(x: Uint16, y: Uint16, w: Uint16, h: Uint16, toNative: (int, int) -> (int, int)): (r: Option<NativeWindow>)
    ensures r.None? <==> (w == 0 || h == 0)
  {
    if w == 0 || h == 0 then None
    else
      var c := Corners(x, y, w, h, toNative);
      var nx0 := Min4(c[0].0, c[1].0, c[2].0, c[3].0);
      var ny0 := Min4(c[0].1, c[1].1, c[2].1, c[3].1);
      var nxm0 := Max4(c[0].0, c[1].0, c[2].0, c[3].0);
      var nym0 := Max4(c[0].1, c[1].1, c[2].1, c[3].1);
      var nx1 := if nx0 < 0 then 0 else nx0;
      var ny1 := if ny0 < 0 then 0 else ny0;
      var nx := if nx1 >= WIDTH then WIDTH - 1 else nx1;
      var ny := if ny1 >= HEIGHT then HEIGHT - 1 else ny1;
      var nxm1 := if nxm0 < nx then nx else nxm0;
      var nym1 := if nym0 < ny then ny else nym0;
      var nxm := if nxm1 >= WIDTH then WIDTH - 1 else nxm1;
      var nym := if nym1 >= HEIGHT then HEIGHT - 1 else nym1;
      var nw := Wrap16(nxm - nx + 1);
      var nh := Wrap16(nym - ny + 1);
      if nx >= WIDTH || ny >= HEIGHT || nw == 0 || nh == 0 then None
      else Some(NativeWindow(nx, ny, nxm, nym, U16(nx / 8), U16((nx + nw - 1) / 8), U16(ny), U16(ny + nh - 1)))
  }

  /**
   * Any non-empty request yields a window inside the panel: the final check
   * never rejects, and the byte columns stay within one row, so every index
   * is inside the plane and the out-of-bounds exit is never taken.
   */
  lemma Window2InPanel(x: Uint16, y: Uint16, w: Uint16, h: Uint16, toNative: (int, int) -> (int, int))
    ensures var r := Window2(x, y, w, h, toNative);
      r.Some? <==> (w != 0 && h != 0)
    ensures var r := Window2(x, y, w, h, toNative); r.Some? ==>
      var n := r.value;
      0 <= n.nativeX <= n.nativeXMax < WIDTH && 0 <= n.nativeY <= n.nativeYMax < HEIGHT &&
      n.xStart == n.nativeX / 8 && n.xEnd == n.nativeXMax / 8 && n.xStart <= n.xEnd < BYTES_PER_ROW &&
      n.yStart == n.nativeY && n.yEnd == n.nativeYMax &&
      n.yEnd * BYTES_PER_ROW + n.xEnd < BUFFER_SIZE
  {
  }

  function Clamp(v: int, hi: int): int { if v < 0 then 0 else if v > hi then hi else v }

  /** The window's pixel box: each axis clamps the corners' minimum, then their maximum (at least the minimum). */
  lemma Window2Box(x: Uint16, y: Uint16, w: Uint16, h: Uint16, toNative: (int, int) -> (int, int))
    requires w != 0 && h != 0
    ensures var c := Corners(x, y, w, h, toNative);
      var n := Window2(x, y, w, h, toNative).value;
      var lx := Clamp(Min4(c[0].0, c[1].0, c[2].0, c[3].0), WIDTH - 1);
      var ly := Clamp(Min4(c[0].1, c[1].1, c[2].1, c[3].1), HEIGHT - 1);
      n.nativeX == lx && n.nativeXMax == Clamp(Max(Max4(c[0].0, c[1].0, c[2].0, c[3].0), lx), WIDTH - 1) &&
      n.nativeY == ly && n.nativeYMax == Clamp(Max(Max4(c[0].1, c[1].1, c[2].1, c[3].1), ly), HEIGHT - 1)
  {
    Window2InPanel(x, y, w, h, toNative);
  }

  function Max(a: int, b: int): int { if a >= b then a else b }

  /** A value between the minimum and maximum of a box side lands, clamped, inside the clamped side. */
  lemma ClampBetween(lo: int, v: int, hi: int, top: int)
    requires lo <= v <= hi && 0 <= top
    ensures Clamp(lo, top) <= Clamp(v, top) <= Clamp(Max(hi, Clamp(lo, top)), top)
  {
  }

  lemma Min4Max4Bounds(a: int, b: int, c: int, d: int)
    ensures Min4(a, b, c, d) <= a <= Max4(a, b, c, d) && Min4(a, b, c, d) <= b <= Max4(a, b, c, d)
    ensures Min4(a, b, c, d) <= c <= Max4(a, b, c, d) && Min4(a, b, c, d) <= d <= Max4(a, b, c, d)
  {
  }

  /** The window holds every corner of the request, clamped to the panel. */
  lemma Window2CoversCorners(x: Uint16, y: Uint16, w: Uint16, h: Uint16, toNative: (int, int) -> (int, int))
    requires w != 0 && h != 0
    ensures var n := Window2(x, y, w, h, toNative).value;
      forall i :: 0 <= i < 4 ==>
        var c := Corners(x, y, w, h, toNative)[i];
        n.nativeX <= Clamp(c.0, WIDTH - 1) <= n.nativeXMax &&
        n.nativeY <= Clamp(c.1, HEIGHT - 1) <= n.nativeYMax
  {
    var c := Corners(x, y, w, h, toNative);
    Window2Box(x, y, w, h, toNative);
    var xs, ys := [c[0].0, c[1].0, c[2].0, c[3].0], [c[0].1, c[1].1, c[2].1, c[3].1];
    Min4Max4Bounds(xs[0], xs[1], xs[2], xs[3]);
    Min4Max4Bounds(ys[0], ys[1], ys[2], ys[3]);
    forall i | 0 <= i < 4
      ensures var n := Window2(x, y, w, h, toNative).value;
        n.nativeX <= Clamp(c[i].0, WIDTH - 1) <= n.nativeXMax &&
        n.nativeY <= Clamp(c[i].1, HEIGHT - 1) <= n.nativeYMax
    {
      assert xs[i] == c[i].0 && ys[i] == c[i].1;
      ClampBetween(Min4(xs[0], xs[1], xs[2], xs[3]), xs[i], Max4(xs[0], xs[1], xs[2], xs[3]), WIDTH - 1);
      ClampBetween(Min4(ys[0], ys[1], ys[2], ys[3]), ys[i], Max4(ys[0], ys[1], ys[2], ys[3]), HEIGHT - 1);
    }
  }

  /** The byte columns xStart..xEnd hold every native column of the window. */
  lemma Window2CoversColumns(x: Uint16, y: Uint16, w: Uint16, h: Uint16, toNative: (int, int) -> (int, int))
    requires w != 0 && h != 0
    ensures var n := Window2(x, y, w, h, toNative).value;
      forall col :: n.nativeX <= col <= n.nativeXMax ==> n.xStart <= col / 8 <= n.xEnd
  {
    Window2InPanel(x, y, w, h, toNative);
  }

  function Window2SetupSteps(n: NativeWindow): (s: seq<Step>)
    ensures |s| == 10
    ensures s[..3] == InitPartialSteps()[..3] && s[4] == InitPartialSteps()[3]
    ensures Command(0x12, []) !in s && s[|s| - 1] == Busy
  {
    [ Pulse(10), Busy,
      Command(0x3C, [0x80]),
      Command(0x11, [0x01]),
      Command(0x21, [0x00, 0x00]),
      XRange(n.xStart, n.xEnd),
      YRange(n.yStart, n.yEnd),
      XCursor(n.xStart),
      YCursor(n.yStart),
      Busy ]
  }

  /** The bytes updateWindow2 streams: plane 1 over byte columns xStart..xEnd of rows yStart..yEnd. */
  function Window2Bytes(plane: seq<bv8>, n: NativeWindow): seq<bv8>
    requires |plane| == BUFFER_SIZE && 0 <= n.xStart && 0 <= n.yStart
  {
    Rows(plane, n.xStart, n.xEnd + 1, n.yStart, n.yEnd + 1)
  }

  function UpdateWindow2Trace(n: NativeWindow, plane: seq<bv8>): seq<Event>
    requires |plane| == BUFFER_SIZE && 0 <= n.xStart && 0 <= n.yStart
  {
    Encode(Window2SetupSteps(n))
    + [Cmd(0x24)] + DataBufs(Chunks(Window2Bytes(plane, n)))
    + Encode(ActivateSteps(0xFF) + SleepSteps())
  }

  lemma UpdateWindow2Delivers(n: NativeWindow, plane: seq<bv8>)
    requires |plane| == BUFFER_SIZE && 0 <= n.xStart && 0 <= n.yStart
    ensures Steps(UpdateWindow2Trace(n, plane)) ==
      Window2SetupSteps(n) + [Command(0x24, Window2Bytes(plane, n))] + ActivateSteps(0xFF) + SleepSteps()
  {
    WindowDelivers(Window2SetupSteps(n), Window2Bytes(plane, n));
  }

  /**
   * What the controller is told for a window of updateWindow2: x bytes
   * xStart..xEnd, rows yStart..yEnd little-endian, and the cursor on row
   * yStart (not 299 - yStart as in updateWindow).
   */
  lemma UpdateWindow2XRegisters(n: NativeWindow)
    requires 0 <= n.xStart < 256 && 0 <= n.xEnd < 256
    ensures var s := Window2SetupSteps(n);
      s[5].code == 0x44 && ByteValue(s[5].args[0]) == n.xStart && ByteValue(s[5].args[1]) == n.xEnd &&
      s[7].code == 0x4E && ByteValue(s[7].args[0]) == n.xStart
  {
    assert Window2SetupSteps(n)[5] == XRange(n.xStart, n.xEnd);
    assert Window2SetupSteps(n)[7] == XCursor(n.xStart);
    XRegistersExact(n.xStart, n.xEnd);
  }

  lemma UpdateWindow2YRegisters(n: NativeWindow)
    requires 0 <= n.yStart < 0x1_0000 && 0 <= n.yEnd < 0x1_0000
    ensures var s := Window2SetupSteps(n);
      s[6].code == 0x45 &&
      Word(s[6].args[0], s[6].args[1]) == n.yStart && Word(s[6].args[2], s[6].args[3]) == n.yEnd &&
      s[8].code == 0x4F &&
      Word(s[8].args[0], s[8].args[1]) == n.yStart
  {
    YRegistersWords(n.yStart, n.yEnd);
  }

  /** Position in updateWindow2's byte stream of row r, byte column c. */
  function Window2Offset(n: NativeWindow, r: int, c: int): int {
    Offset(n.yStart, n.xStart, n.xEnd + 1, r, c)
  }

  /** updateWindow2 streams all of its window, row-major, with nothing skipped. */
  lemma Window2BytesExact(plane: seq<bv8>, n: NativeWindow)
    requires |plane| == BUFFER_SIZE
    requires 0 <= n.xStart <= n.xEnd < BYTES_PER_ROW && 0 <= n.yStart <= n.yEnd < HEIGHT
    ensures |Window2Bytes(plane, n)| == (n.xEnd + 1 - n.xStart) * (n.yEnd + 1 - n.yStart)
    ensures forall r, c :: n.yStart <= r <= n.yEnd && n.xStart <= c <= n.xEnd ==>
      0 <= Window2Offset(n, r, c) < |Window2Bytes(plane, n)| &&
      Window2Bytes(plane, n)[Window2Offset(n, r, c)] == plane[r * BYTES_PER_ROW + c]
  {
    RowsExact(plane, n.xStart, n.xEnd + 1, n.yStart, n.yEnd + 1);
  }

  // ---------------------------------------------------------------------
  // Regrouping for the proofs only: associativity and arithmetic steps
  // that the proofs above call; they state nothing about the driver.

  lemma MulStep(n: int, k: int)
    ensures n * (k + 1) == n * k + n
  {
  }

  lemma MulMono(a: int, b: int, n: int)
    requires a <= b && 0 <= n
    ensures a * n <= b * n
  {
    assert b * n - a * n == (b - a) * n;
  }

  /** A record followed by a window's setup and then its transfer, activation and sleep. */
  lemma RefreshRegroup(before: seq<Event>, setup: seq<Event>, chunks: seq<seq<bv8>>)
    ensures before + setup + ([Cmd(0x24)] + DataBufs(chunks) + Encode(ActivateSteps(0xFF) + SleepSteps())) ==
      before + (setup + [Cmd(0x24)] + DataBufs(chunks) + Encode(ActivateSteps(0xFF) + SleepSteps()))
  {
  }

  lemma RegroupSteps(a: seq<Step>, b: seq<Step>, c: seq<Step>, d: seq<Step>)
    ensures a + (b + (c + d)) == a + b + c + d
  {
  }

  lemma Regroup4(a: seq<Event>, b: seq<Event>, c: seq<Event>, d: seq<Event>)
    ensures a + b + c + d == a + (b + c + d)
  {
  }
}
