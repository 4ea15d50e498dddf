/**
 * The Gdey042T81 driver object: its state (the two framebuffer planes, the
 * refresh mode, the power and partial flags, the rotation of the drawing
 * base class) and its operations.  The EpdSpi transport it holds a
 * reference to is replaced by `io`, the record of every call made on it.
 */
module Driver {
  import opened Wrappers
  import opened Geometry
  import opened Transform
  import opened Framebuffer
  import opened Protocol
  import opened Sequences
  import opened Window
  import opened Streaming

  class Gdey042T81 {
    /** _buffer1: black/white plane; _buffer2: the second plane of 4-gray mode. */
    const buffer1: array<bv8>
    const buffer2: array<bv8>
    var refreshMode: RefreshMode
    /** Never read by the modelled code: its only uses are commented out. */
    var fastmode: int
    var isPowered: bool
    var partialMode: bool
    var debugEnabled: bool
    /** getRotation() of the drawing base class. */
    var rotation: Rotation
    /** Every call made on the transport, oldest first. */
    var io: seq<Event>

    predicate Valid()
      reads this
    {
      buffer1.Length == BUFFER_SIZE && buffer2.Length == BUFFER_SIZE && buffer1 != buffer2
    }

    /** The constructor and the header's defaults; the planes' contents are unspecified. */
    constructor (rotation: Rotation)
      ensures Valid() && fresh(buffer1) && fresh(buffer2)
      ensures refreshMode == Full && fastmode == 0 && !isPowered && !partialMode && !debugEnabled
      ensures this.rotation == rotation && io == []
    {
      buffer1 := new bv8[BUFFER_SIZE];
      buffer2 := new bv8[BUFFER_SIZE];
      refreshMode := Full;
      fastmode := 0;
      isPowered := false;
      partialMode := false;
      debugEnabled := false;
      this.rotation := rotation;
      io := [];
    }

    // -------------------------------------------------------------------
    // Transport

    /** Record transport calls that are not whole steps (a bare command byte, streamed chunks). */
    method Emit(events: seq<Event>)
      modifies this`io
      ensures io == old(io) + events
    {
      io := io + events;
    }

    /** Issue steps on the transport: each command byte, then one call per data byte. */
    method Send(steps: seq<Step>)
      modifies this`io
      ensures io == old(io) + Encode(steps)
    {
      io := io + Encode(steps);
    }

    /**
     * Issue steps on the transport.  `start` and `sent` say what has been
     * issued since `start`, so a caller can build up a whole sequence.
     */
    method Issue(steps: seq<Step>, ghost start: seq<Event>, ghost sent: seq<Step>) returns (ghost sentNow: seq<Step>)
      requires io == start + Encode(sent)
      modifies this`io
      ensures sentNow == sent + steps
      ensures io == start + Encode(sentNow)
    {
      EncodeSnoc(start, sent, steps);
      Send(steps);
      sentNow := sent + steps;
    }

    // -------------------------------------------------------------------
    // Initialisation and modes

    /** init: debug flag, fast mode, transport at 4 MHz, a 20 ms reset, and a white screen. */
    method Init(debug: bool)
      requires Valid()
      modifies this`debugEnabled, this`refreshMode, this`io, buffer1, buffer2
      ensures debugEnabled == debug && refreshMode == Fast
      ensures io == old(io) + [Setup(4, debug), Reset(20)]
      ensures forall i :: 0 <= i < BUFFER_SIZE ==> buffer1[i] == PIX8_WHITE && buffer2[i] == PIX8_WHITE
    {
      debugEnabled := debug;
      refreshMode := Fast;
      Emit([Setup(4, debug)]);
      Emit([Reset(20)]);
      FillScreen(White);
    }

    method SetRefreshMode(mode: RefreshMode)
      modifies this`refreshMode
      ensures refreshMode == mode
    {
      refreshMode := mode;
    }

    /**
     * _hwPreInit (and _wakeUp, which only calls it): reset, SWRESET, gate
     * count, RAM bypass unless in 4-gray mode, border, the mode's
     * temperature load in fast and 4-gray mode, and the full-panel window.
     */
    method HwPreInit()
      modifies this`io, this`isPowered
      ensures io == old(io) + Encode(PreInitSteps(refreshMode))
      ensures isPowered
    {
      ghost var start := io;
      ghost var sent: seq<Step> := [];
      sent := Issue([Pulse(10), Busy], start, sent);
      isPowered := true;
      sent := Issue([Command(0x12, []), Busy], start, sent);
      sent := Issue([Command(0x01, [Byte((HEIGHT - 1) % 256), Byte((HEIGHT - 1) / 256), 0x00])], start, sent);
      GateCountBytes();
      ghost var head := sent;
      assert head == [Pulse(10), Busy, Command(0x12, []), Busy, Command(0x01, [0x2B, 0x01, 0x00])];
      if refreshMode != FourGray {
        sent := Issue([Command(0x21, [0x40, 0x00])], start, sent);
      }
      sent := Issue([Command(0x3C, [0x05])], start, sent);
      ghost var border := sent;
      if refreshMode == Fast {
        sent := Issue(TemperatureLoad(0x6E), start, sent);
      } else if refreshMode == FourGray {
        sent := Issue(TemperatureLoad(0x5A), start, sent);
      }
      ghost var temperature := sent;
      sent := Issue(FullWindowSteps(), start, sent);
      assert border == head + (if refreshMode != FourGray then [Command(0x21, [0x40, 0x00])] else []) + [Command(0x3C, [0x05])];
      assert temperature == border + (if refreshMode == Fast then TemperatureLoad(0x6E)
        else if refreshMode == FourGray then TemperatureLoad(0x5A) else []);
    }

    /** _hwInitPartial: reset, border 0x80, no RAM bypass. */
    method HwInitPartial()
      modifies this`io, this`isPowered
      ensures io == old(io) + Encode(InitPartialSteps())
      ensures isPowered
    {
      ghost var start := io;
      ghost var sent: seq<Step> := [];
      sent := Issue([Pulse(10), Busy], start, sent);
      isPowered := true;
      sent := Issue([Command(0x3C, [0x80])], start, sent);
      sent := Issue([Command(0x21, [0x00, 0x00])], start, sent);
      assert sent == InitPartialSteps();
    }

    /** _sleep: deep sleep command, power flag cleared. */
    method Sleep()
      modifies this`io, this`isPowered
      ensures io == old(io) + Encode(SleepSteps())
      ensures !isPowered
    {
      Send([Command(0x10, [0x01])]);
      isPowered := false;
    }

    method DeepSleep()
      modifies this`io, this`isPowered
      ensures io == old(io) + Encode(SleepSteps())
      ensures !isPowered
    {
      Sleep();
    }

    // -------------------------------------------------------------------
    // Drawing

    /** fillScreen: every byte of each plane gets the colour's byte. */
    method FillScreen(color: Color)
      requires Valid()
      modifies buffer1, buffer2
      ensures forall i :: 0 <= i < BUFFER_SIZE ==>
        buffer1[i] == FillBytes(refreshMode, color).0 && buffer2[i] == FillBytes(refreshMode, color).1
    {
      var c := color;
      if refreshMode != FourGray && IsGrey(c) {
        c := White;
      }
      var buf1: bv8, buf2: bv8;
      match c {
        case DarkGrey => buf1, buf2 := 0x00, 0xFF;
        case LightGrey => buf1, buf2 := 0xFF, 0x00;
        case White => buf1, buf2 := 0xFF, 0xFF;
        case _ => buf1, buf2 := 0x00, 0x00;
      }
      var x := 0;
      while x < buffer1.Length
        invariant 0 <= x <= buffer1.Length
        invariant forall i :: 0 <= i < x ==> buffer1[i] == buf1 && buffer2[i] == buf2
      {
        buffer1[x] := buf1;
        buffer2[x] := buf2;
        x := x + 1;
      }
    }

    /**
     * drawPixel: off-panel pixels change nothing; otherwise exactly the
     * pixel's bit of its byte changes in each plane, to the colour's bits.
     */
    method DrawPixel(x: Int16, y: Int16, color: Color)
      requires Valid()
      modifies buffer1, buffer2
      ensures PixelTarget(x, y, rotation).None? ==>
        buffer1[..] == old(buffer1[..]) && buffer2[..] == old(buffer2[..])
      ensures PixelTarget(x, y, rotation).Some? ==>
        var t := PixelTarget(x, y, rotation).value;
        var bits := PixelBits(refreshMode, color);
        buffer1[..] == old(buffer1[..])[t.index := WriteBit(old(buffer1[t.index]), t.mask, bits.0)] &&
        buffer2[..] == old(buffer2[..])[t.index := WriteBit(old(buffer2[t.index]), t.mask, bits.1)]
    {
      if x < 0 || x >= LogicalWidth(rotation) || y < 0 || y >= LogicalHeight(rotation) {
        return;
      }
      var px, py := NativePixel(x, y);
      var i := px / 8 + py * WIDTH / 8;
      var mask := (0x80 as bv8) >> (px % 8);
      assert i == PixelIndex(px, py) && mask == PixelMask(px);
      PaintBit(i, mask, color);
    }

    /**
     * drawPixel's coordinate steps: mirror x against the logical width,
     * then swap and flip for the rotation, landing on the native panel.
     */
    method NativePixel(x: int, y: int) returns (px: int, py: int)
      requires InLogicalBounds(x, y, rotation)
      ensures (px, py) == PixelToNative(x, y, rotation)
    {
      px := LogicalWidth(rotation) - 1 - x;
      py := y;
      if rotation == 1 {
        px, py := py, px;
        px := WIDTH - px - 1;
      } else if rotation == 2 {
        px := WIDTH - px - 1;
        py := HEIGHT - py - 1;
      } else if rotation == 3 {
        px, py := py, px;
        py := HEIGHT - py - 1;
      }
    }

    /**
     * The colour switch of drawPixel on one byte of each plane: grey colours
     * fall back to black outside four-grey mode, then each plane's masked
     * bit is set or cleared.
     */
    method PaintBit(i: int, mask: bv8, color: Color)
      requires Valid() && 0 <= i < BUFFER_SIZE
      modifies buffer1, buffer2
      ensures var bits := PixelBits(refreshMode, color);
        buffer1[..] == old(buffer1[..])[i := WriteBit(old(buffer1[i]), mask, bits.0)] &&
        buffer2[..] == old(buffer2[..])[i := WriteBit(old(buffer2[i]), mask, bits.1)]
    {
      var c := color;
      if refreshMode != FourGray && IsGrey(c) {
        c := Black;
      }
      match c {
        case DarkGrey =>
          WritePlaneBit(buffer1, i, mask, true);
          WritePlaneBit(buffer2, i, mask, false);
        case LightGrey =>
          WritePlaneBit(buffer1, i, mask, false);
          WritePlaneBit(buffer2, i, mask, true);
        case White =>
          WritePlaneBit(buffer1, i, mask, true);
          WritePlaneBit(buffer2, i, mask, true);
        case _ =>
          WritePlaneBit(buffer1, i, mask, false);
          WritePlaneBit(buffer2, i, mask, false);
      }
    }

    /** `plane[i] |= mask` when `on`, `plane[i] &= 0xFF ^ mask` otherwise. */
    static method WritePlaneBit(plane: array<bv8>, i: int, mask: bv8, on: bool)
      requires 0 <= i < plane.Length
      modifies plane
      ensures plane[..] == old(plane[..])[i := WriteBit(old(plane[i]), mask, on)]
    {
      if on {
        plane[i] := plane[i] | mask;
      } else {
        plane[i] := plane[i] & (0xFF ^ mask);
      }
    }

    // -------------------------------------------------------------------
    // Refresh

    /** The activation of a refresh: 0x22 with the mode's byte, 0x20, busy wait. */
    method Activate()
      modifies this`io
      ensures io == old(io) + Encode(ActivateSteps(ActivationByte(refreshMode)))
    {
      var b: bv8;
      match refreshMode {
        case Full => b := 0xF7;
        case Fast => b := 0xC7;
        case Partial => b := 0xFF;
        case FourGray => b := 0xCF;
      }
      Send([Command(0x22, [b]), Command(0x20, []), Busy]);
    }

    /** A RAM write of update: the command byte, then the whole plane streamed in chunks. */
    method WritePlane(code: bv8, plane: array<bv8>)
      requires plane.Length == BUFFER_SIZE
      modifies this`io
      ensures io == old(io) + ([Cmd(code)] + DataBufs(Chunks(plane[..])))
    {
      Emit([Cmd(code)]);
      var chunks := StreamPlane(plane);
      Emit(DataBufs(chunks));
    }

    /**
     * update: wake-up, both planes streamed whole (plane 1 under 0x24,
     * after a bare 0x24, plane 2 under 0x26), the mode's activation, sleep.
     */
    method Update()
      requires Valid()
      modifies this`io, this`isPowered, this`partialMode
      ensures io == old(io) + UpdateTrace(refreshMode, buffer1[..], buffer2[..])
      ensures !isPowered && !partialMode
    {
      partialMode := false;
      HwPreInit();
      WriteRamAndRefresh();
      AppendAssoc(old(io), Encode(PreInitSteps(refreshMode)),
        [Cmd(0x24)]
        + ([Cmd(0x24)] + DataBufs(Chunks(buffer1[..])))
        + ([Cmd(0x26)] + DataBufs(Chunks(buffer2[..])))
        + (Encode(ActivateSteps(ActivationByte(refreshMode))) + Encode(SleepSteps())));
      UpdateTraceShape(refreshMode, buffer1[..], buffer2[..]);
    }

    /** update after the wake-up: the bare 0x24, both planes, the activation and sleep. */
    method WriteRamAndRefresh()
      requires Valid()
      modifies this`io, this`isPowered
      ensures io == old(io) +
        ([Cmd(0x24)]
         + ([Cmd(0x24)] + DataBufs(Chunks(buffer1[..])))
         + ([Cmd(0x26)] + DataBufs(Chunks(buffer2[..])))
         + (Encode(ActivateSteps(ActivationByte(refreshMode))) + Encode(SleepSteps())))
      ensures !isPowered
    {
      ghost var sent := [Cmd(0x24)];
      Emit([Cmd(0x24)]);
      AppendAssoc(old(io), sent, [Cmd(0x24)] + DataBufs(Chunks(buffer1[..])));
      WritePlane(0x24, buffer1);
      sent := sent + ([Cmd(0x24)] + DataBufs(Chunks(buffer1[..])));
      AppendAssoc(old(io), sent, [Cmd(0x26)] + DataBufs(Chunks(buffer2[..])));
      WritePlane(0x26, buffer2);
      sent := sent + ([Cmd(0x26)] + DataBufs(Chunks(buffer2[..])));
      ghost var post := Encode(ActivateSteps(ActivationByte(refreshMode)));
      AppendAssoc(old(io), sent, post);
      Activate();
      AppendAssoc(old(io), sent + post, Encode(SleepSteps()));
      AppendAssoc(sent, post, Encode(SleepSteps()));
      Sleep();
    }

    /**
     * The common end of updateWindow and updateWindow2: 0x24, the window's
     * chunks, partial activation (0xFF) and sleep.  The chunks are
     * computed by the caller before the call, which changes nothing on
     * the transport, since computing them makes no transport call.
     */
    method PartialRefresh(chunks: seq<seq<bv8>>)
      modifies this`io, this`isPowered
      ensures io == old(io) + ([Cmd(0x24)] + DataBufs(chunks) + Encode(ActivateSteps(0xFF) + SleepSteps()))
      ensures !isPowered
    {
      ghost var sent := [Cmd(0x24)] + DataBufs(chunks);
      Emit([Cmd(0x24)]);
      AppendAssoc(old(io), [Cmd(0x24)], DataBufs(chunks));
      Emit(DataBufs(chunks));
      ghost var post := Encode(ActivateSteps(0xFF));
      AppendAssoc(old(io), sent, post);
      Send(ActivateSteps(0xFF));
      AppendAssoc(old(io), sent + post, Encode(SleepSteps()));
      AppendAssoc(sent, post, Encode(SleepSteps()));
      Sleep();
      EncodeAppend(ActivateSteps(0xFF), SleepSteps());
    }

    /**
     * updateWindow: nothing happens for a request updateWindow rejects;
     * otherwise the window's setup, its bytes of plane 1 under 0x24, the
     * partial activation and sleep.  The requires leaves out the requests
     * for which the source never returns.
     */
    method UpdateWindow(x: Uint16, y: Uint16, w: Uint16, h: Uint16, usingRotation: bool)
      requires Valid()
      requires !UpdateWindowHangs(x, y, w, h, usingRotation, rotation)
      modifies this`io, this`isPowered
      ensures UpdateWindowPlan(x, y, w, h, usingRotation, rotation).Rejected? ==>
        io == old(io) && isPowered == old(isPowered)
      ensures UpdateWindowPlan(x, y, w, h, usingRotation, rotation).Window? ==>
        io == old(io) + UpdateWindowTrace(UpdateWindowPlan(x, y, w, h, usingRotation, rotation), buffer1[..]) &&
        !isPowered
    {
      var p := UpdateWindowPlan(x, y, w, h, usingRotation, rotation);
      if p.Rejected? {
        return;
      }
      RefreshPlannedWindow(p);
    }

    /** updateWindow from the register writes on: the setup, the window's bytes under 0x24, activation and sleep. */
    method RefreshPlannedWindow(p: WindowPlan)
      requires Valid()
      requires p.Window? && p.ye < HEIGHT
      modifies this`io, this`isPowered
      ensures io == old(io) + UpdateWindowTrace(p, buffer1[..])
      ensures !isPowered
    {
      ghost var bytes := UpdateWindowBytes(buffer1[..], p);
      Send(UpdateWindowSetupSteps(p));
      var chunks := StreamWindow(buffer1, p.xsByte, p.xeByte, p.y, p.ye);
      assert chunks == Chunks(bytes);
      PartialRefresh(chunks);
      RefreshRegroup(old(io), Encode(UpdateWindowSetupSteps(p)), chunks);
    }

    /**
     * updateWindow2: nothing happens for an empty request; otherwise the
     * native window's setup, its bytes of plane 1 under 0x24, the partial
     * activation and sleep.  `toNative` stands for _logicalToNative; the
     * using_rotation flag is not read.
     */
    method UpdateWindow2(x: Uint16, y: Uint16, w: Uint16, h: Uint16, usingRotation: bool, toNative: (int, int) -> (int, int))
      requires Valid()
      modifies this`io, this`isPowered
      ensures (w == 0 || h == 0) ==> io == old(io) && isPowered == old(isPowered)
      ensures w != 0 && h != 0 ==>
        Window2(x, y, w, h, toNative).Some? &&
        io == old(io) + UpdateWindow2Trace(Window2(x, y, w, h, toNative).value, buffer1[..]) &&
        !isPowered
    {
      var r := Window2(x, y, w, h, toNative);
      Window2InPanel(x, y, w, h, toNative);
      if r.None? {
        return;
      }
      RefreshNativeWindow(r.value);
    }

    /** updateWindow2 from the native window on: its setup, its bytes under 0x24, activation and sleep. */
    method RefreshNativeWindow(n: NativeWindow)
      requires Valid()
      requires 0 <= n.xStart && n.xEnd < BYTES_PER_ROW && 0 <= n.yStart && n.yEnd < HEIGHT
      modifies this`io, this`isPowered
      ensures io == old(io) + UpdateWindow2Trace(n, buffer1[..])
      ensures !isPowered
    {
      ghost var bytes := Window2Bytes(buffer1[..], n);
      Send(Window2SetupSteps(n));
      var chunks := StreamWindow2(buffer1, n.xStart, n.xEnd, n.yStart, n.yEnd);
      assert chunks == Chunks(bytes);
      PartialRefresh(chunks);
      RefreshRegroup(old(io), Encode(Window2SetupSteps(n)), chunks);
    }
  }
}
