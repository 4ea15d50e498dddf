# GDEY042T81 e-paper driver, modelled in Dafny

This project models the `Gdey042T81` driver of the CalEPD library. The
driver runs a 400 x 300 pixel GoodDisplay GDEY042T81 panel with an SSD1683
controller. The model covers:

- the driver's two bit-packed framebuffer planes and the pixel and fill
  operations that write them;
- the coordinate helpers `_logicalToNative2` and `_rotate`;
- the two windowed partial updates `updateWindow` and `updateWindow2`;
- the command sequences of `update`, `_hwPreInit`, `_hwInitPartial`,
  `_sleep`/`deepsleep`, `init` and `setRefreshMode`;
- the header's constants, refresh-mode enumeration and field defaults.

The `EpdSpi` transport is replaced by `io`, a field of the driver object.
`io` records every transport call in order: `IO.init`, `IO.reset`,
`IO.cmd`, `IO.data(byte)`, `IO.data(xbuf, n)`, and each `_waitBusy` as a
`WaitBusy` event. `Protocol.Steps` reads such a record the way the
controller does: each command byte takes the data that follows it.
`Protocol.DecodeEncode` proves that steps issued one call per byte read
back unchanged. `Protocol.StreamedCommand` proves the same for a transfer
streamed through the 3000-byte buffer.

Modules:

- `Geometry`: constants, machine integers, enumerations.
- `Transform`: drawPixel's transform, `_logicalToNative2`, `_rotate`.
- `Framebuffer`: pixel addressing and colour bits.
- `Protocol`: events, steps, chunking.
- `Sequences`: the fixed command sequences.
- `Window`: the window arithmetic of both windowed updates and the bytes
  they stream.
- `Streaming`: the `xbuf` loops, as methods.
- `Driver`: the class `Gdey042T81`.

The planes are `array<bv8>` fields that `drawPixel` and `fillScreen`
change in place. The streaming loops are `while` loops over those arrays
and a local 3000-byte `xbuf`. Each loop is proved equal to a function of
the plane (`Chunks(Rows(...))`).

Each bullet below names what the code departs from: one of its own
comments, another part of the driver, or what a caller would expect.
The model follows the code in every case:

- **Grey bit pairs.** A caller would expect a grey fill to read back as
  the same grey. `drawPixel` writes dark grey as (plane 1 set, plane 2
  clear) and light grey as the reverse (gdey042T81.cpp:615-622). `fillScreen` writes
  dark grey as 0x00/0xFF and light grey as 0xFF/0x00 (gdey042T81.cpp:123-130). So a
  grey fill read back pixel by pixel shows the other grey
  (`Framebuffer.FillThenRead`).
- **Grey outside 4-gray mode.** The two operations coerce grey in
  opposite directions: grey becomes black in `drawPixel` and white in
  `fillScreen` (`Framebuffer.GreyCoercionOpposite`).
- **Unconditional wake-up and power-off.** The commented-out `fastmode`
  tests (gdey042T81.cpp:42, gdey042T81.cpp:576) suggest that a fast wake-up once skipped the
  reset and the power-off. As written, `_hwPreInit` always resets and
  issues SWRESET, and `_sleep` always powers off. `_hwPreInit` does
  nothing special in partial mode.
- **updateWindow's window is not drawPixel's.** Its comments say the
  window is mirrored "as in drawPixel" and rotated to match drawPixel's
  sequence (gdey042T81.cpp:296, gdey042T81.cpp:312). The code mirrors against the native width
  400 at every rotation, while drawPixel mirrors against the logical
  width, which is 300 at rotations 1 and 3. For a request that needs no
  clamp, the window is drawPixel's box of native pixels moved:
  - at rotation 0, one column left
    (`Window.UpdateWindowVersusDrawPixelAtRotationZero`);
  - at rotation 1, one column left and 99 rows down
    (`Window.UpdateWindowVersusDrawPixelAtQuarterTurn`);
  - at rotation 2, one row up
    (`Window.UpdateWindowVersusDrawPixelAtHalfTurn`);
  - at rotation 3, 100 rows up
    (`Window.UpdateWindowVersusDrawPixelAtThreeQuarterTurn`).

  At rotations 1 and 3, every request within the first 99 logical columns
  is dropped (`Window.UpdateWindowDropsLeftBandAtQuarterTurns`). A
  one-pixel request can miss the only byte drawPixel changed for it
  (`Window.UpdateWindowMissesDrawnByte`, `Window.UpdateWindowMissesOrigin`).
- **Requests past the right edge.** The clamp that follows the mirror is
  written to cut w at the right edge (gdey042T81.cpp:299-302). It cannot do so,
  because the mirror `399 - x - w` has already wrapped round in
  `uint16_t`. `updateWindow(390, 0, 50, 10)` is dropped without rotation
  and at rotations 0, 1 and 3 (`Window.UpdateWindowRejectsOverhang`). At
  rotation 2, `_rotate` subtracts the wrapped x again and the wrap
  cancels, so the request sends every byte of rows 289..298
  (`Window.UpdateWindowOverhangAtHalfTurn`).
- **Byte end of updateWindow.** The comment calls `(xe + 7) / 8` a ceil
  division for bytes (gdey042T81.cpp:326), but `xe` is inclusive. So the byte
  holding column `xe` is sent only when `xe` is not a multiple of 8
  (`Window.ByteEndCoversIff`). The height is clamped against 299
  (gdey042T81.cpp:305-308), so without rotation row 299 is never part of the window,
  although the error message speaks of the height 300
  (`Window.UpdateWindowUnrotatedInPanel`).
- **Rows never swapped.** The wake-up's full window gives register 0x45
  row 299 first and row 0 last (gdey042T81.cpp:87-91). `updateWindow` gives it
  `y` then `ye`, the lower row first, at every rotation (gdey042T81.cpp:357-361).
- **Two conditions of updateWindow that the code reaches.** A caller
  would expect every call to return and every index to stay inside the
  plane:
  - at rotation 2, a one-row request on the last logical row clamps its
    height to 0, and the last row then wraps to 65535. The `int16_t` row
    counter can never pass that, so the call does not return
    (`Window.UpdateWindowHangsAtHalfTurn`);
  - at rotation 1, the last column can wrap to 65535 and the byte range
    then runs to 8192. The out-of-range indices are logged and skipped
    (`Window.UpdateWindowOverrunsAtQuarterTurn`).
- **_logicalToNative2 at quarter turns.** Its comments say it follows
  drawPixel (gdey042T81.cpp:241, gdey042T81.cpp:245, gdey042T81.cpp:254, gdey042T81.cpp:260). It agrees with drawPixel
  at rotations 0 and 2 (`Transform.LogicalToNative2MatchesDrawPixel`). It
  does not agree at rotations 1 and 3
  (`Transform.LogicalToNative2DiffersAtQuarterTurns`).
- **updateWindow2's final check never fires.** The code guards against a
  zero-size or off-panel window after clamping (gdey042T81.cpp:453-457) and against
  an index past the plane (gdey042T81.cpp:527-532). For every non-empty request
  neither guard is taken (`Window.Window2InPanel`).

## Model

| member | source | states |
|---|---|---|
| Geometry.Wrap16 | models/goodisplay/gdey042T81.cpp:417-420 | conversion to int16_t: the identity on the int16_t range, otherwise congruent to the value modulo 2^16 |
| Geometry.U16 | models/goodisplay/gdey042T81.cpp:297-307 | conversion to uint16_t: the identity on 0..65535, otherwise congruent modulo 2^16 |
| Geometry.Byte | models/goodisplay/gdey042T81.cpp:336-339 | a value passed as one data byte arrives as that value modulo 256 |
| Geometry.SmallByte | models/goodisplay/gdey042T81.cpp:352-353 | a value below 256 arrives as a data byte unchanged |
| Geometry.LittleEndian16 | models/goodisplay/gdey042T81.cpp:357-361 | a 16-bit value sent as `v % 256` then `v / 256` reads back as v |
| Geometry.LogicalWidth | models/goodisplay/gdey042T81.cpp:584 | the logical width is 400 or 300, and it is 300 exactly at rotations 1 and 3 |
| Geometry.LogicalHeight | models/goodisplay/gdey042T81.cpp:584 | the logical height is 300 or 400, and it is 400 exactly at rotations 1 and 3 |
| Geometry.GeometryFacts | include/goodisplay/gdey042T81.h:22-24 | the plane size is 400 * 300 / 8 = 15000; a row is exactly 50 whole bytes; a plane is five 3000-byte bursts |
| Transform.PixelToNative | models/goodisplay/gdey042T81.cpp:584-605 | drawPixel's mirror-then-rotate transform takes every pixel on the logical panel to a pixel on the 400 x 300 native panel |
| Transform.NativeToLogical | models/goodisplay/gdey042T81.cpp:588-605 | an independently written inverse: every native pixel comes from a pixel on the logical panel |
| Transform.PixelToNativeClosedForm | models/goodisplay/gdey042T81.cpp:588-605 | drawPixel's transform is (399-x, y), (399-y, 299-x), (x, 299-y) and (y, x) at rotations 0 to 3 |
| Transform.PixelToNativeRoundTrip | models/goodisplay/gdey042T81.cpp:588-605 | inverting the transform gives back the logical pixel |
| Transform.NativeToPixelRoundTrip | models/goodisplay/gdey042T81.cpp:588-605 | transforming the inverse gives back the native pixel, so the transform is a bijection |
| Transform.PixelToNativeInjective | models/goodisplay/gdey042T81.cpp:588-605 | two logical pixels never land on the same native pixel |
| Transform.LogicalToNative2 | models/goodisplay/gdey042T81.cpp:237-263 | _logicalToNative2 in int16_t arithmetic; at rotation 1 it maps (lx, ly) to (ly, lx) for every input |
| Transform.LogicalToNative2MatchesDrawPixel | models/goodisplay/gdey042T81.cpp:235-263 | at rotations 0 and 2 _logicalToNative2 equals drawPixel's transform on the whole logical panel |
| Transform.LogicalToNative2QuarterTurns | models/goodisplay/gdey042T81.cpp:242-262 | on the logical panel it gives (y, x) at rotation 1 and (399-y, 299-x) at rotation 3 |
| Transform.LogicalToNative2DiffersAtQuarterTurns | models/goodisplay/gdey042T81.cpp:243-256 | at rotations 1 and 3 it differs from drawPixel's transform at the logical origin |
| Transform.Rotate | models/goodisplay/gdey042T81.cpp:265-286 | _rotate is the identity at rotation 0; it swaps w and h at rotations 1 and 3 and keeps them at rotation 2 |
| Transform.RotateHalfTurn | models/goodisplay/gdey042T81.cpp:274-276 | without wrap-around, at rotation 2 the origin becomes (399-x-w, 299-y-h) with w and h kept |
| Transform.RotateHalfTurnInvolution | models/goodisplay/gdey042T81.cpp:274-276 | applying the half turn twice gives back the rectangle, wrap-around included |
| Framebuffer.PixelIndex | models/goodisplay/gdey042T81.cpp:606 | the byte index `x / 8 + y * 400 / 8` of a native pixel is x / 8 + 50 y and lies inside the plane |
| Framebuffer.PixelMask | models/goodisplay/gdey042T81.cpp:607 | the mask `0x80 >> (x & 7)` has exactly one bit set |
| Framebuffer.PixelMaskColumn | models/goodisplay/gdey042T81.cpp:607 | `0x80 >> (x & 7)` has exactly one bit set, and which bit it is identifies x mod 8 (both directions) |
| Framebuffer.PixelTarget | models/goodisplay/gdey042T81.cpp:583-607 | drawPixel addresses a byte exactly when the pixel is on the logical panel, and the byte is inside the plane |
| Framebuffer.PixelTargetInjective | models/goodisplay/gdey042T81.cpp:588-607 | two logical pixels never share a byte and bit |
| Framebuffer.DrawnColor | models/goodisplay/gdey042T81.cpp:609-631 | the colour drawPixel stores: never "other", only black or white outside 4-gray mode, white exactly when white was asked for |
| Framebuffer.PixelBits | models/goodisplay/gdey042T81.cpp:609-631 | outside 4-gray mode both planes get the same bit |
| Framebuffer.WriteBit | models/goodisplay/gdey042T81.cpp:616-629 | setting or clearing the masked bit leaves every other bit of the byte unchanged and puts the masked bit on or off |
| Framebuffer.DrawThenRead | models/goodisplay/gdey042T81.cpp:614-631 | a pixel read back after drawPixel (white 1/1, dark grey 1/0, light grey 0/1, black 0/0) shows the colour drawPixel stores |
| Framebuffer.FillBytes | models/goodisplay/gdey042T81.cpp:113-139 | fillScreen's byte pair: equal planes outside 4-gray mode; 0xFF/0xFF exactly for white and for grey outside 4-gray mode; 0x00/0x00 for black and other colours |
| Framebuffer.FillThenRead | models/goodisplay/gdey042T81.cpp:113-139 | after fillScreen every pixel reads back as white, black, or in 4-gray mode as the opposite grey |
| Framebuffer.GreyCoercionOpposite | models/goodisplay/gdey042T81.cpp:610-611 | outside 4-gray mode drawPixel stores grey as black while fillScreen fills it as white |
| Protocol.Chunks | models/goodisplay/gdey042T81.cpp:170-178 | a transfer of n bytes goes out in ceil(n / 3000) chunks |
| Protocol.ChunksSound | models/goodisplay/gdey042T81.cpp:170-178 | the chunks concatenate to the bytes, each is 1..3000 bytes, all but the last full, and there are ceil(n / 3000) of them |
| Protocol.PlaneChunks | models/goodisplay/gdey042T81.cpp:164-178 | a whole plane goes out as exactly five full 3000-byte chunks that concatenate to the plane |
| Protocol.ChunksOfFlatten | models/goodisplay/gdey042T81.cpp:385-398 | well-formed chunks are exactly the chunking of their concatenation |
| Protocol.DecodeEncode | models/goodisplay/gdey042T81.cpp:50-53 | steps issued as a command byte plus one call per data byte are read back by the controller unchanged |
| Protocol.StreamedCommand | models/goodisplay/gdey042T81.cpp:168-178 | a command byte followed by a chunked transfer reads back as one command carrying all the bytes |
| Sequences.GateCountBytes | models/goodisplay/gdey042T81.cpp:50-53 | the gate count (HEIGHT - 1) goes out as the bytes 0x2B 0x01 |
| Sequences.PreInitSteps | models/goodisplay/gdey042T81.cpp:39-99 | the wake-up has 13 steps, four more in fast mode (temperature load with bypass) and three more in 4-gray mode (temperature load without bypass) |
| Sequences.InitPartialSteps | models/goodisplay/gdey042T81.cpp:222-233 | _hwInitPartial starts with the same reset and busy wait as every wake-up, but sends neither SWRESET nor the gate count |
| Sequences.ActivationByte | models/goodisplay/gdey042T81.cpp:194-209 | the activation byte is 0xF7, 0xC7, 0xFF, 0xCF for full, fast, partial, 4-gray, each exactly for its mode |
| Sequences.UpdateTrace | models/goodisplay/gdey042T81.cpp:154-220 | the record of update ends with power-off 0x10 0x01 |
| Sequences.PowerOffLast | models/goodisplay/gdey042T81.cpp:573-581 | any record of steps that ends with _sleep ends with the events 0x10 0x01 |
| Sequences.PreInitAlwaysResets | models/goodisplay/gdey042T81.cpp:43-63 | every wake-up starts with reset, busy wait, SWRESET, busy wait, gate count 0x2B 0x01 0x00, and includes border 0x05 |
| Sequences.PreInitBypass | models/goodisplay/gdey042T81.cpp:56-60 | RAM bypass 0x21 0x40 0x00, and any 0x21 command, is sent exactly when the mode is not 4-gray |
| Sequences.PreInitFastTemperature | models/goodisplay/gdey042T81.cpp:65-71 | temperature override 0x1A 0x6E is sent exactly in fast mode |
| Sequences.PreInitGrayTemperature | models/goodisplay/gdey042T81.cpp:72-78 | temperature override 0x1A 0x5A is sent exactly in 4-gray mode |
| Sequences.PreInitLoadsTemperature | models/goodisplay/gdey042T81.cpp:65-79 | the load-temperature trigger 0x22 0x91 is sent exactly in fast and 4-gray mode |
| Sequences.PreInitEndsWithFullWindow | models/goodisplay/gdey042T81.cpp:81-98 | every wake-up ends with entry mode, the full-panel x and y windows, the cursor on row 299, and a busy wait; the register bytes stand for 49 and 299 |
| Sequences.UpdateDelivers | models/goodisplay/gdey042T81.cpp:154-220 | the controller receives the wake-up, a bare 0x24, plane 1 whole under 0x24, plane 2 whole under 0x26, the mode's activation with 0x20, and power-off 0x10 0x01 |
| Sequences.TransferDelivers | models/goodisplay/gdey042T81.cpp:161-190 | the two plane transfers read back as 0x24 with no data, 0x24 with plane 1 and 0x26 with plane 2 |
| Sequences.UpdateChunks | models/goodisplay/gdey042T81.cpp:164-190 | each plane goes out in five chunks of 3000 bytes |
| Streaming.PushByte | models/goodisplay/gdey042T81.cpp:384-388 | a byte is appended to what has been sent and buffered, and xbuf is handed over exactly when it fills |
| Streaming.StreamPlane | models/goodisplay/gdey042T81.cpp:163-178 | update's loop sends exactly the chunking of the whole plane |
| Streaming.StreamRow | models/goodisplay/gdey042T81.cpp:381-392 | the inner window loop appends the row's in-plane bytes of columns [xs, xe) to what has been sent and buffered |
| Streaming.FinalFlush | models/goodisplay/gdey042T81.cpp:395-398 | handing over a non-empty remainder completes the chunking of the window's bytes |
| Streaming.StreamWindow | models/goodisplay/gdey042T81.cpp:371-398 | updateWindow's loops send exactly the chunking of the window's bytes, rows y..ye |
| Streaming.StreamWindow2 | models/goodisplay/gdey042T81.cpp:502-540 | updateWindow2's loops send exactly the chunking of the window's bytes, both ends inclusive |
| Window.RowBytesExact | models/goodisplay/gdey042T81.cpp:381-384 | a row of a panel-sized window streams every byte column [xs, xe) of that row, in order |
| Window.RowsExact | models/goodisplay/gdey042T81.cpp:379-393 | a window inside the panel streams (xe - xs) * (yEnd - y) bytes, and the byte at row r, column c comes at offset (r - y)(xe - xs) + (c - xs) |
| Window.MirrorAndClamp | models/goodisplay/gdey042T81.cpp:297-308 | the mirror keeps y and, without wrap-around, puts x at 399 - x - w with w kept; a mirrored x on the panel has its width cut to end by column 399, a y on the panel has its height cut to end by row 299, and a request already inside keeps its height |
| Window.UpdateWindowPlan | models/goodisplay/gdey042T81.cpp:288-326 | an empty request is dropped; a window that is kept starts on the panel, and its last column and row are on the panel or wrapped to 65535 |
| Window.UpdateWindowHangs | models/goodisplay/gdey042T81.cpp:320-380 | a request that hangs has last row 65535, and it needs rotation other than 0 |
| Window.NativePlan | models/goodisplay/gdey042T81.cpp:320-326 | the window keeps the rotated origin, and its start and end bytes are x / 8 and (xe + 7) / 8 |
| Window.UpdateWindowUnrotatedInPanel | models/goodisplay/gdey042T81.cpp:295-326 | without rotation, or at rotation 0, the window lies within the panel's rows and byte columns and never includes row 299 |
| Window.UpdateWindowAtRotationZero | models/goodisplay/gdey042T81.cpp:295-326 | at rotation 0, for a request needing no clamp, the window is x' = 399-x-w, rows y..y+h-1, bytes x'/8 up to (405-x)/8 |
| Window.ByteEndCoversIff | models/goodisplay/gdey042T81.cpp:326 | the byte holding column xe is sent exactly when xe is not a multiple of 8 |
| Window.UpdateWindowRejectsOverhang | models/goodisplay/gdey042T81.cpp:297-317 | updateWindow(390, 0, 50, 10) is dropped without rotation and at rotations 0, 1 and 3 |
| Window.UpdateWindowOverhangAtHalfTurn | models/goodisplay/gdey042T81.cpp:297-326 | at rotation 2 the same request becomes the window of rows 289..298 with all 50 byte columns |
| Window.UpdateWindowVersusDrawPixelAtRotationZero | models/goodisplay/gdey042T81.cpp:295-322 | at rotation 0, for a request needing no clamp, the window is drawPixel's box of native pixels shifted one column left |
| Window.UpdateWindowVersusDrawPixelAtQuarterTurn | models/goodisplay/gdey042T81.cpp:295-322 | at rotation 1, for a request needing no clamp from logical column 100 on, the window is drawPixel's box shifted one column left and 99 rows down |
| Window.UpdateWindowVersusDrawPixelAtHalfTurn | models/goodisplay/gdey042T81.cpp:295-322 | at rotation 2, for a request needing no clamp, the window has drawPixel's columns and its rows shifted one up |
| Window.UpdateWindowVersusDrawPixelAtThreeQuarterTurn | models/goodisplay/gdey042T81.cpp:295-322 | at rotation 3, for a request needing no clamp from logical column 100 on, the window has drawPixel's columns and its rows shifted 100 up |
| Window.UpdateWindowDropsLeftBandAtQuarterTurns | models/goodisplay/gdey042T81.cpp:297-317 | at rotations 1 and 3 every non-empty request with x + w <= 99 is dropped |
| Window.UpdateWindowMissesDrawnByte | models/goodisplay/gdey042T81.cpp:295-326 | at rotation 0 the one-pixel request at (7, 0) sends byte column 48 only, while drawPixel wrote the pixel into byte 49 |
| Window.UpdateWindowMissesOrigin | models/goodisplay/gdey042T81.cpp:295-322 | against drawPixel's native pixel for the request: dropped at rotation 1, row 298 for 299 at rotation 2, row 50 for 150 at rotation 3 |
| Window.UpdateWindowHangsAtHalfTurn | models/goodisplay/gdey042T81.cpp:305-322 | at rotation 2 a one-row request on row 299 gets last row 65535, a window whose row loop never ends |
| Window.UpdateWindowOverrunsAtQuarterTurn | models/goodisplay/gdey042T81.cpp:313-326 | at rotation 1 a request on row 399 gets last column 65535 and byte end 8192, past the end of the plane |
| Window.XRegistersBytes | models/goodisplay/gdey042T81.cpp:352-365 | the x window and cursor registers receive their byte columns modulo 256 |
| Window.XRegistersExact | models/goodisplay/gdey042T81.cpp:481-494 | byte columns below 256 reach the x registers unchanged |
| Window.YRegistersWords | models/goodisplay/gdey042T81.cpp:486-498 | the y window and cursor registers read back, little-endian, as the rows given |
| Window.UpdateWindowSetupSteps | models/goodisplay/gdey042T81.cpp:331-368 | updateWindow's setup has 12 steps; it starts with the wake-up's reset, SWRESET and gate count, then sends _hwInitPartial's bypass-off 0x21 and border 0x80, not the wake-up's RAM bypass |
| Window.UpdateWindowXRange | models/goodisplay/gdey042T81.cpp:351-354 | updateWindow's register 0x44 gets xs_bx and xe_bx - 1, each as uint8_t |
| Window.UpdateWindowYRange | models/goodisplay/gdey042T81.cpp:356-361 | updateWindow's register 0x45 gets y and ye, each low byte first |
| Window.UpdateWindowCursor | models/goodisplay/gdey042T81.cpp:363-368 | updateWindow's cursor is byte column xs_bx (0x4E) and row 299 - y (0x4F) |
| Window.WindowDelivers | models/goodisplay/gdey042T81.cpp:371-406 | a window's setup, a streamed 0x24, activation and sleep read back as the setup, one 0x24 with all the window's bytes, 0x22 0xFF, 0x20, busy, 0x10 0x01 |
| Window.UpdateWindowDelivers | models/goodisplay/gdey042T81.cpp:330-406 | the controller receives updateWindow's registers, the window's bytes of plane 1 under 0x24, partial activation and power-off |
| Window.Window2 | models/goodisplay/gdey042T81.cpp:410-465 | updateWindow2 gives no window exactly for an empty request |
| Window.Window2InPanel | models/goodisplay/gdey042T81.cpp:429-465 | updateWindow2 keeps a window exactly for non-empty requests; its box is ordered and on the panel, its bytes x / 8 and x_max / 8 are within a row, and every index is inside the plane |
| Window.Window2Box | models/goodisplay/gdey042T81.cpp:429-445 | the box is the clamped minimum of the corners and the clamped maximum of the corners (at least the minimum), on each axis |
| Window.Window2CoversCorners | models/goodisplay/gdey042T81.cpp:416-445 | every transformed corner, clamped to the panel, lies in the box |
| Window.Window2CoversColumns | models/goodisplay/gdey042T81.cpp:461-463 | the byte columns x_start..x_end hold every native column of the box |
| Window.Window2SetupSteps | models/goodisplay/gdey042T81.cpp:467-500 | updateWindow2's setup has 10 steps: _hwInitPartial's reset, busy wait and border with its bypass-off 0x21 after data-entry mode, no SWRESET, and a busy wait last |
| Window.UpdateWindow2Delivers | models/goodisplay/gdey042T81.cpp:467-548 | the controller receives updateWindow2's registers, the window's bytes of plane 1 under 0x24, partial activation and power-off |
| Window.UpdateWindow2XRegisters | models/goodisplay/gdey042T81.cpp:480-494 | updateWindow2's 0x44 gets x_start and x_end and its 0x4E gets x_start |
| Window.UpdateWindow2YRegisters | models/goodisplay/gdey042T81.cpp:485-498 | updateWindow2's 0x45 gets y_start and y_end and its 0x4F gets y_start (not 299 - y_start), little-endian |
| Window.Window2BytesExact | models/goodisplay/gdey042T81.cpp:512-535 | updateWindow2 streams every byte of its inclusive window, row-major, with nothing skipped |
| Driver.Gdey042T81.constructor | include/goodisplay/gdey042T81.h:43-78 | fresh planes of 15000 bytes; mode full, fastmode 0, not powered, not partial, nothing sent yet |
| Driver.Gdey042T81.Init | models/goodisplay/gdey042T81.cpp:21-32 | init sets the debug flag and fast mode, sends IO.init(4, debug) and a 20 ms reset, and leaves both planes white |
| Driver.Gdey042T81.SetRefreshMode | models/goodisplay/gdey042T81.cpp:34-37 | the refresh mode becomes the given one |
| Driver.Gdey042T81.HwPreInit | models/goodisplay/gdey042T81.cpp:39-99 | _hwPreInit sends exactly the mode's wake-up sequence and sets is_powered |
| Driver.Gdey042T81.HwInitPartial | models/goodisplay/gdey042T81.cpp:222-233 | _hwInitPartial sends reset, busy wait, border 0x80 and 0x21 0x00 0x00, and sets is_powered |
| Driver.Gdey042T81.Sleep | models/goodisplay/gdey042T81.cpp:573-581 | _sleep sends 0x10 0x01 and clears is_powered |
| Driver.Gdey042T81.DeepSleep | models/goodisplay/gdey042T81.cpp:569-571 | deepsleep does what _sleep does |
| Driver.Gdey042T81.FillScreen | models/goodisplay/gdey042T81.cpp:113-148 | every byte of plane 1 and of plane 2 becomes the colour's fill byte for that plane |
| Driver.Gdey042T81.DrawPixel | models/goodisplay/gdey042T81.cpp:583-632 | off the logical panel both planes are unchanged; on it, only the pixel's bit of its byte changes in each plane, to the colour's bits |
| Driver.Gdey042T81.NativePixel | models/goodisplay/gdey042T81.cpp:586-605 | drawPixel's in-place mirror, swap and flip steps compute the transform |
| Driver.Gdey042T81.PaintBit | models/goodisplay/gdey042T81.cpp:609-631 | drawPixel's colour switch writes the colour's bit into byte i of each plane and changes nothing else |
| Driver.Gdey042T81.WritePlaneBit | models/goodisplay/gdey042T81.cpp:616-629 | one `|= mask` or `&= 0xFF ^ mask` changes byte i only |
| Driver.Gdey042T81.Activate | models/goodisplay/gdey042T81.cpp:194-211 | 0x22 with the mode's activation byte, 0x20, busy wait |
| Driver.Gdey042T81.WritePlane | models/goodisplay/gdey042T81.cpp:168-178 | the command byte, then the whole plane in its chunks |
| Driver.Gdey042T81.Update | models/goodisplay/gdey042T81.cpp:154-220 | update sends exactly the record of a full update of the current planes and mode, leaves the planes alone, and ends not powered and not partial |
| Driver.Gdey042T81.WriteRamAndRefresh | models/goodisplay/gdey042T81.cpp:159-220 | after the wake-up, update sends the bare 0x24, both planes in their chunks, the activation and power-off, and ends not powered |
| Driver.Gdey042T81.PartialRefresh | models/goodisplay/gdey042T81.cpp:371-406 | 0x24, the window's chunks, 0x22 0xFF, 0x20, busy wait, power-off |
| Driver.Gdey042T81.UpdateWindow | models/goodisplay/gdey042T81.cpp:288-407 | a rejected request sends nothing and changes nothing; otherwise updateWindow sends exactly the window's record and ends not powered |
| Driver.Gdey042T81.RefreshPlannedWindow | models/goodisplay/gdey042T81.cpp:330-406 | from the reset on, updateWindow sends its registers, the window's bytes, activation and power-off |
| Driver.Gdey042T81.UpdateWindow2 | models/goodisplay/gdey042T81.cpp:409-549 | an empty request sends nothing; any other keeps a window and sends exactly its record, ending not powered |
| Driver.Gdey042T81.RefreshNativeWindow | models/goodisplay/gdey042T81.cpp:467-548 | from the reset on, updateWindow2 sends its registers, the window's bytes, activation and power-off |

## Left out

- `_waitBusy` (models/goodisplay/gdey042T81.cpp:551-566) polls a GPIO pin under a 2-second timeout. That is hardware and timing, so each call is one `WaitBusy` event.
- The bodies of the `EpdSpi` calls are outside the driver. Each call is one recorded event.
- Timing statistics (`esp_timer_get_time`) and all `printf` and `ESP_LOG*` output carry no driver state, so they are left out. This includes the constructor's printing.
- The drawing base classes (`Adafruit_GFX`, `Epd`) are not part of this model. Their rotation is a constructor parameter that the driver never changes. Their `width()`/`height()` are taken as 400 x 300 at rotations 0 and 2 and 300 x 400 at rotations 1 and 3.
- `_logicalToNative` has no body in this driver. `Driver.Gdey042T81.UpdateWindow2` therefore takes it as a function parameter whose outputs are wrapped to `int16_t`.
- `gx_uint16_min` has no body in this driver. It is taken as the minimum of its two arguments after conversion to `uint16_t`.
- The `EPD_*` colour codes are not part of this model. Colours are an abstract datatype whose `Other` case stands for every other code and behaves as black.
- The empty stubs `_hwRAMInit`, `hwInitFull`, `hwInitFast` and `hwInit4Gray` do nothing, and `_wakeUp` only calls `_hwPreInit`. `Update` calls `HwPreInit` directly.
- `setMode` and `_setPartialRamArea` are declared but have no definition.
- The `fastmode` tests in `_hwPreInit` and `_sleep` are commented out. `fastmode` is a field that nothing reads.
- `colors_supported` is never read by the modelled code.
- `debug_enabled` only gates printing, so it is kept as a field and nothing else.
- The constructor does not specify the planes' contents: in the source they are whatever the object's storage held.
- Driver.Gdey042T81.UpdateWindow: its requires excludes the requests whose last row wraps to 65535. For those the `int16_t` row loop never ends, so no terminating method can model them. `Window.UpdateWindowHangs` names them and `Window.UpdateWindowHangsAtHalfTurn` exhibits one.
- Streaming.StreamWindow2: its requires keeps the window inside the plane (last byte column below 50, last row below 300), so the `goto` exit of updateWindow2's inner loop is not modelled. `Window.Window2InPanel` proves that updateWindow2 never calls it with any other window.
- The window methods compute the streamed chunks first and record them afterwards. The source interleaves reading the plane with transport calls. Nothing in the model observes the difference, because reading a plane changes no state.
- `IO.data(xbuf, n)` is recorded with the payload as a value, not as a reference to the reused `xbuf` array.
