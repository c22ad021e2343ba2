# LS020 frame-buffer driver: a Dafny model

This project models the display-update engine of the LS020 frame-buffer driver
(`ls020_fb.c`) and the drawing helpers of its test program (`test_lcd.c`), and
proves what they do. The display is a 176×132 panel of RGB565 pixels driven
over SPI.

The driver keeps a video memory the applications draw into. With partial
updates on, it also keeps a shadow copy of what the panel shows. A flush
compares the two and sends only the bounding box of the pixels that differ.
Every transfer first programs the controller's address window through
register writes. The window registers depend on the current orientation.

Modules, in dependency order:

- `Frame`: the geometry shared by everything. It holds the frame size, the row-major
  offset `Off(x, y)`, the `u8`/`u16` value ranges, and `Paint`. `Paint` is the reference
  meaning of "this rectangle, clipped to the frame, takes this colour".
- `Wire`: the SPI bus as a value. A `Bus` is the trace of writes attempted so far. Each
  write is a command-mode or data-mode event with its bytes. The bus also holds the set
  of trace positions at which a write fails. On top of this sit `spi_write`, the
  high-byte-first pixel split of `ls020_write_data16`, `ls020_write_reg`, the `ret |=`
  accumulation of several register writes, and a run of writes that stops at the first
  failure.
- `Registers`: the register values of `ls020_set_addr_window` for each orientation, with
  their inverse. Also the `0x01`/`0x05` table of `ls020_set_rotation`, the 14-byte
  `setup_cmds` table and the FPS clamp of the probe routine.
- `DirtyRegion`: the dirty bounding box. It covers marking a rectangle
  (`ls020_mark_dirty_region`) and the scan that compares the frame with the shadow
  (`ls020_detect_changes`). It also covers the footprint rule that collapses a large box
  to the whole frame.
- `Packing`: how pixels become bytes, big-endian. It covers the whole frame and a box of
  it in row-major order.
- `Engine`: the driver's state `Dev` as a value, with a function for each routine. These
  functions specify the class below, and the lemmas about them state what the routines
  promise.
- `Ls020Fb`: class `Par` is `struct ls020_fb_par`. Its methods update its fields and its
  arrays in place, with the loops of the C code. Each method is proved to take the
  abstract state `Abs()` exactly as the matching `Engine` function does.
- `TestLcd`: the drawing helpers of `test_lcd.c` on a 176×132 `uint16_t` array:
  `rgb_to_rgb565`, `fill_screen`, `draw_pixel`, Bresenham `draw_line`, `draw_rect` and
  `fill_rect`.

Outside inputs are parameters:

- Whether an `spi_write` fails is fixed by the bus's failure set.
- Whether a `kmalloc(GFP_ATOMIC)` succeeds is the boolean `allocOk`.
- The only bus error code is `-EIO`, so OR-ing return codes means "some write failed".

## Model

| member | source | states |
|---|---|---|
| Wire.Split16 | ls020_fb.c:96-111 | a pixel goes out as two bytes, high byte first, that join back to the pixel |
| Wire.JoinSplit | ls020_fb.c:101-102 | splitting the join of two bytes gives the two bytes back (the other half of the round trip) |
| Wire.OrErr | ls020_fb.c:166-196 | OR-ing two bus return codes gives a bus code that is zero exactly when both are zero |
| Wire.SendEachSpec | ls020_fb.c:134-148 | a run of writes that stops at the first failure sends a prefix of its events and leaves the failure set alone; it returns 0 exactly when no write fails, and then sends them all; otherwise the last write sent is the first failing one |
| Wire.WriteRegSpec | ls020_fb.c:75-94 | a register write sends only command bytes and succeeds exactly when both of its writes do; if the register byte fails it returns the error and the value byte is never sent; otherwise the value byte follows whether or not it fails |
| Wire.WriteRegsOrSpec | ls020_fb.c:164-197 | writing several registers and OR-ing the results sends only commands; every register is tried in order even after a failure, so n to 2n writes go out, exactly the attempts of Wire.RegAttempts; the result is 0 exactly when none of the writes fails, and then every register/value pair went out |
| Wire.RegAttempts | ls020_fb.c:75-94 | a run of n register writes that are all tried leaves between n and 2n single-byte writes on the bus |
| Wire.RegAttemptsAllSent | ls020_fb.c:164-197 | when no write fails, the attempts are the complete register/value pairs in order |
| Wire.WriteRegsOrTrace | ls020_fb.c:166-196 | the OR-accumulating run leaves exactly the attempt of every register on the bus: its register byte, then its value byte unless the register byte failed |
| Wire.RegEventsAppend | ls020_fb.c:164-197 | the events of two register lists written one after the other are the events of the concatenated list |
| Registers.WindowRegs | ls020_fb.c:164-197 | the six window registers go out in the order 0x08, 0x09, 0x0A, 0x0B, 0x06, 0x07; 0x06 repeats 0x08 and 0x07 repeats 0x0A; orientation 1 is the identity |
| Registers.WindowRoundTrip | ls020_fb.c:164-197 | in every orientation, the rectangle can be read back from the register values, so the mapping loses nothing, wrap-around included |
| Registers.WindowInjective | ls020_fb.c:164-197 | two rectangles that program the same registers in one orientation are the same rectangle |
| Registers.Orientation3Wraps | ls020_fb.c:186-192 | in orientation 3, an x beyond 131 wraps: x0 = 132 programs 255 |
| Registers.ScanDirectionDistinct | ls020_fb.c:351-368 | the four orientations select four different (0x01, 0x05) value pairs |
| Registers.RotationRegs | ls020_fb.c:351-372 | set_rotation writes the bank register 0xEF = 0x90, then 0x01 and 0x05 with the orientation's scan-direction pair |
| Registers.SetupIsFullWindowOfOrientation0 | ls020_fb.c:486-501 | the fixed 14-byte setup table is the bank write plus the orientation-0 window over the whole frame |
| Registers.SetupDiffersInOtherOrientations | ls020_fb.c:486-501 | in orientations 1 to 3 that table differs from the window set_addr_window programs for the whole frame |
| Registers.ClampFps | ls020_fb.c:660-663 | the frame rate ends in [1, 120]; it is kept exactly when already in range and becomes 40 otherwise |
| DirtyRegion.MarkBox | ls020_fb.c:211-231 | after marking, the box contains every in-frame pixel of the rectangle and of the old box when one was pending; every other pixel it contains lies on the last column or row, where the clamp can pull an off-frame bound in; a box that was valid or fresh stays within the frame |
| DirtyRegion.MarkAllIsClampedHull | ls020_fb.c:202-234 | marking a series of rectangles from nothing pending gives the clamped bounding hull of all of them |
| DirtyRegion.ClampJoin | ls020_fb.c:228-231 | clamping after each mark is the same as clamping once at the end |
| DirtyRegion.MarkOrderFree | ls020_fb.c:202-234 | marking the same rectangles in any order, and any number of times each, after nothing was pending leaves the same dirty box |
| DirtyRegion.HullMonotone | ls020_fb.c:217-226 | the box grown over a list of rectangles holds the box grown over any list taken from them |
| DirtyRegion.ScanFrameSpec | ls020_fb.c:245-272 | the scan reports a change exactly when some pixel differs from the shadow; then its bounds contain every differing pixel and each bound is attained by one; with no change the bounds are as before |
| DirtyRegion.ScanIdentical | ls020_fb.c:245-272 | a frame scanned against an identical shadow reports nothing and leaves the bounds alone |
| DirtyRegion.ScanSinglePixel | ls020_fb.c:245-272 | a frame that differs from the shadow in one pixel gives the one-pixel box at that pixel |
| DirtyRegion.Collapse | ls020_fb.c:287-299 | the box sent is the dirty box when its footprint is at most a quarter of the frame, and otherwise the whole frame at 46464 bytes; either way it contains the dirty box's corners |
| DirtyRegion.CollapseIdempotent | ls020_fb.c:287-299 | collapsing a collapsed box changes nothing |
| DirtyRegion.FootprintBounds | ls020_fb.c:287-289 | a valid box takes between 2 and 46464 bytes |
| Packing.UnpackBytes | ls020_fb.c:503-507 | packing pixels big-endian and reading them back gives the pixels |
| Packing.BytesUnpack | ls020_fb.c:503-507 | reading an even byte string as pixels and packing them gives the bytes back |
| Packing.BytesIndex | ls020_fb.c:505-506 | byte 2i of the encoded buffer is pixel i shifted right by 8, and byte 2i+1 is its low byte |
| Packing.PackRectLength | ls020_fb.c:319-329 | the encoded box is exactly width × height × 2 bytes |
| Packing.PackRectPixels | ls020_fb.c:319-326 | the encoded box reads back as the box's pixels in row-major order: entry r × width + c is pixel (xMin + c, yMin + r) |
| Packing.PackRectFull | ls020_fb.c:503-507 | packing the full-frame box is packing the whole frame |
| Engine.SetAddrWindowSpec | ls020_fb.c:156-200 | programming the window sends only commands and succeeds exactly when none of its 14 writes fails, and then it sent the bank register and the six window registers; a failed bank select returns the error after one or two writes; once the bank select is through, all six window registers are tried whatever fails, 8 to 14 writes in all |
| Engine.SetRotationSpec | ls020_fb.c:344-375 | the orientation becomes rotation & 3 whatever the bus does, and nothing else but the bus changes; all three register writes are tried even after a failure, 3 to 6 writes in all; on success they carry the bank select and that orientation's pair |
| Engine.InitDisplaySpec | ls020_fb.c:126-154 | initialisation sends the 66 bytes of init_array_0 then init_array_1 as single commands in order; it returns 0 exactly when none fails; otherwise it stops right after the first failing byte, and every byte before it went through |
| Engine.SendTablesIsOneRun | ls020_fb.c:134-148 | sending the two tables one after the other is one run over their concatenation |
| Engine.Mark | ls020_fb.c:202-234 | with partial update off, marking changes nothing; otherwise it sets the pending flag and changes nothing else but the bounds; these are DirtyRegion.MarkBox's, so they cover the rectangle's in-frame pixels and the old box if one was pending and, off the last column and row, no more |
| Engine.DetectSpec | ls020_fb.c:236-273 | with diffing off it changes nothing and reports a change; otherwise the shadow becomes the frame, earlier marks are dropped, and the result and pending flag say whether any pixel differed; the bounds are then exactly the min and max coordinates of the differing pixels |
| Engine.PartialIdle | ls020_fb.c:284-285 | with nothing pending, the partial update returns 0 and changes nothing |
| Engine.PartialNoMemory | ls020_fb.c:301-310 | without a buffer and with the allocation failing, it returns -ENOMEM and sends nothing; the bounds are left collapsed and nothing else changes |
| Engine.PartialOutcome | ls020_fb.c:275-342 | if programming the window fails, its error is returned and the flags stay; otherwise the window and then the encoded box go out, both flags are cleared whatever the data write returns, and the result is that write's |
| Engine.PartialCollapses | ls020_fb.c:291-299 | a box over a quarter of the frame becomes the full frame and the data write is the whole packed frame, 46464 bytes |
| Engine.PartialSendsBox | ls020_fb.c:312-329 | a small box is sent as it is: the data write has footprint-many bytes and reads back as the box's pixels |
| Engine.SlowSpec | ls020_fb.c:441-459 | the slow path sends the full window and then one 2-byte data write per pixel in frame order; it returns 0 exactly when none of those writes fails, and the bytes sent are the encoded frame; a failed window returns its error with only commands sent and no pixel data; once the window is set, the pixel writes stop at the k-th one, the first that fails, so the trace is the window and the first k pixel writes |
| Engine.FullSpec | ls020_fb.c:474-520 | the setup table goes out only when the window is not known to be set; the flag is set only if that write succeeds; a failure there returns -EIO before any data; otherwise the whole packed frame follows and, with diffing, the shadow becomes the frame whatever the write returns |
| Engine.TwoFullUpdatesSetWindowOnce | ls020_fb.c:487-501 | two full updates in a row send the setup table at most once |
| Engine.UpdateGood | ls020_fb.c:461-520 | an update keeps the device state well formed |
| Engine.UpdateUnchangedIsSilent | ls020_fb.c:463-466 | with diffing on and a frame equal to its shadow, an update returns 0 and sends nothing |
| Engine.UpdateSyncsShadow | ls020_fb.c:463-514 | with diffing on, after any update the shadow equals the frame |
| Engine.UpdateWithDiffingIsPartial | ls020_fb.c:463-471 | with diffing on and a change found, the update is the partial update of the detected box |
| Engine.PartialThenFullResendsWindow | ls020_fb.c:335 | after a partial update, the next full update starts by sending the setup table again |
| Engine.FillRectState | ls020_fb.c:377-429 | fillrect marks the rectangle, clears the window flag and leaves video memory alone; if the window write fails it stops there; otherwise the shadow, when present, holds the colour over the rectangle and is otherwise unchanged |
| Engine.FillRectSends | ls020_fb.c:394-428 | after the window, fillrect sends only data, and the data bytes are the colour repeated width × height times, whichever path it takes |
| Engine.FillDataSends | ls020_fb.c:394-428 | both fill paths append only data writes, carrying width × height copies of the colour |
| Engine.PaintedEnd | ls020_fb.c:410-416 | a shadow painted pixel by pixel over the whole rectangle is the rectangle painted in that colour |
| Ls020Fb.Par.constructor | ls020_fb.c:606-626 | a fresh device has zeroed video memory, a zeroed shadow exactly when partial update was requested and its allocation succeeded (partial update is off otherwise), orientation 0, the window flag clear and nothing pending |
| Ls020Fb.Par.WriteReg | ls020_fb.c:75-94 | the register write in place is the bus-level register write |
| Ls020Fb.Par.WriteData16 | ls020_fb.c:96-111 | a pixel write sends its two bytes high first in data mode |
| Ls020Fb.Par.InitDisplay | ls020_fb.c:126-154 | the two table loops do what Engine.InitDisplay describes |
| Ls020Fb.Par.SetAddrWindow | ls020_fb.c:156-200 | programming the window in place is Engine.SetAddrWindow for the current orientation |
| Ls020Fb.Par.SetRotation | ls020_fb.c:344-375 | the orientation field and the bus change as Engine.SetRotation describes |
| Ls020Fb.Par.MarkDirtyRegion | ls020_fb.c:202-234 | the four bound fields and the pending flag change as Engine.Mark describes |
| Ls020Fb.Par.DetectChanges | ls020_fb.c:236-273 | the nested scan updates the bounds and copies each differing pixel into the shadow, as Engine.Detect describes |
| Ls020Fb.Par.ScanAll | ls020_fb.c:247-269 | after the nested loops, the found flag and bounds are the scan of the frame and the shadow equals the frame |
| Ls020Fb.Par.UpdateDisplayPartial | ls020_fb.c:275-342 | the partial update in place is Engine.Partial |
| Ls020Fb.Par.CollapseDirty | ls020_fb.c:287-299 | the bounds and the byte count become the collapsed box and its footprint |
| Ls020Fb.Par.PackBox | ls020_fb.c:319-326 | the row loops fill the buffer's first footprint bytes with the encoded box |
| Ls020Fb.Par.FillRect | ls020_fb.c:377-429 | fillrect in place is Engine.FillRect |
| Ls020Fb.Par.FillBuffer | ls020_fb.c:401-404 | the fill buffer holds the colour's two bytes n times |
| Ls020Fb.Par.PaintShadow | ls020_fb.c:410-416 | the shadow loops paint exactly the rectangle in the colour |
| Ls020Fb.Par.FillPixels | ls020_fb.c:421-428 | the per-pixel path writes every pixel of the rectangle and paints the shadow |
| Ls020Fb.Par.UpdateDisplaySlow | ls020_fb.c:441-459 | the slow path in place is Engine.Slow |
| Ls020Fb.Par.PackFrame | ls020_fb.c:503-507 | the encoding loop leaves the buffer equal to the encoded frame |
| Ls020Fb.Par.CopyToShadow | ls020_fb.c:512-514 | the shadow becomes a copy of the frame |
| Ls020Fb.Par.UpdateDisplayFull | ls020_fb.c:474-520 | the full path in place is Engine.Full |
| Ls020Fb.Par.UpdateDisplay | ls020_fb.c:461-520 | the update entry point in place is Engine.Update |
| TestLcd.Rgb565 | test_lcd.c:23-25 | the top five bits of the colour are r >> 3, the middle six are g >> 2 and the low five are b >> 3 |
| TestLcd.Channels | test_lcd.c:23-25 | every 16-bit colour is the conversion of some channel triple |
| TestLcd.ChannelsOfRgb565 | test_lcd.c:23-25 | the conversion keeps exactly the top 5, 6 and 5 bits of the channels |
| TestLcd.NamedColours | test_lcd.c:14-25 | pure black, red, green, blue, white, yellow, cyan and magenta convert to the named colour constants |
| TestLcd.FillScreen | test_lcd.c:27-31 | every cell of the buffer holds the colour, which is the whole frame painted |
| TestLcd.PlotPixels | test_lcd.c:33-37 | plotting changes exactly the pixel at (x, y) when it is in the frame, and nothing otherwise |
| TestLcd.DrawPixel | test_lcd.c:33-37 | draw_pixel leaves the buffer plotted at (x, y) |
| TestLcd.PlotIsPaint | test_lcd.c:33-37 | plotting a pixel is painting the one-pixel rectangle there |
| TestLcd.FillRow | test_lcd.c:71-75 | one row of fill_rect paints that w-by-1 strip, clipped to the frame |
| TestLcd.FillRect | test_lcd.c:70-76 | every in-frame pixel of the rectangle holds the colour and every other pixel is unchanged |
| TestLcd.StepBounds | test_lcd.c:48-59 | short of the end, Bresenham's error term always selects a step, and never one past the end on either axis |
| TestLcd.WalkEnds | test_lcd.c:46-50 | the walk ends exactly at (x1, y1), so the loop terminates there |
| TestLcd.WalkAdjacent | test_lcd.c:52-59 | each step moves to a new pixel, each coordinate by at most one, toward the end |
| TestLcd.WalkInBox | test_lcd.c:39-61 | every pixel the walk visits lies in the rectangle the two ends span |
| TestLcd.LineShape | test_lcd.c:39-61 | a line starts at (x0, y0), ends at (x1, y1), moves one pixel at a time toward the end and stays in the ends' rectangle |
| TestLcd.PlotAllPixels | test_lcd.c:33-37 | plotting a list of points colours exactly the in-frame pixels on it |
| TestLcd.LineEffect | test_lcd.c:39-61 | after draw_line, both ends are coloured when in the frame and no pixel outside the ends' rectangle changed |
| TestLcd.Advance | test_lcd.c:52-59 | one pass of the loop body moves to the next point of the walk and keeps the error term at its closed form |
| TestLcd.DrawLine | test_lcd.c:39-61 | the loop plots exactly the points of the line, in order |
| TestLcd.HorizontalLine | test_lcd.c:64-67 | a line along a row is the run of pixels between its ends |
| TestLcd.VerticalLine | test_lcd.c:64-67 | a line along a column is the run of pixels between its ends |
| TestLcd.DrawRect | test_lcd.c:63-68 | draw_rect plots the top, left, right and bottom edges as four lines |
| TestLcd.OutlineIsBorder | test_lcd.c:63-68 | for w, h ≥ 1 the points of the four lines are exactly the border pixels of [x, x+w-1] × [y, y+h-1] |
| TestLcd.RectEffect | test_lcd.c:63-68 | for w, h ≥ 1, draw_rect colours exactly the in-frame border pixels, leaves every other pixel unchanged, and colours the four corners |

## Left out

- The kernel lifecycle and fbdev glue are not modelled. This covers probe (apart from the frame-rate clamp and the buffer allocation the constructor stands for), remove, deferred I/O, `ls020_write`, mmap and pan. They hold no driver logic.
- `ls020_copyarea` and `ls020_imageblit` only call the generic `cfb_*` helpers, which are not part of this model.
- SPI, GPIO and timing are not modelled: the data/command line, `msleep`, `spi_setup` and the reset pulse of `ls020_reset`. A write is an event in the bus trace, tagged with its mode.
- Allocation is an input. `kmalloc` success is the boolean `allocOk`. `kfree` and `vfree` are not modelled.
- The lock around the dirty bounds and concurrent writers through mmap are not modelled. The model is sequential.
- Logging is not modelled.
- The test pattern drawn at probe is not modelled.
- The fps-to-delay computation is not modelled; only the clamp is.
- `test_lcd.c`'s `main` and its demo sequences are not modelled. They are device I/O, `printf` and `sleep` around the drawing helpers.
- Engine.SetRotation: the mask `rotation & 3` is written as `rotation % 4`. The two agree on the `u8` argument.
- The contents of the preallocated `spi_buffer` between calls are not modelled. The buffer is scratch space, and every transfer writes it before reading it.
- Every failing `spi_write` returns `-EIO`. Other errno values are not distinguished.
- Ls020Fb.Par.MarkDirtyRegion, Engine.Mark, DirtyRegion.MarkBox: require width and height of at least 1, and no 16-bit wrap-around of `x + width - 1` or `y + height - 1`. The model therefore leaves out the boxes that the source builds from a wrapped `u16` far edge. For example, marking a 0-by-0 rectangle at (0, 0) with nothing pending stores 65535 as the far edge, and the clamp turns that into the whole frame. Marking a 0-wide rectangle at x = 5 leaves `dirty_x_min` = 5 above `dirty_x_max` = 4.
- Ls020Fb.Par.FillRect, Engine.FillRect, Engine.FillRectState, Engine.FillRectSends: require a rectangle inside the frame with width and height of at least 1. The model therefore leaves out two kinds of rectangle the source accepts. A 0-wide or 0-high rectangle gets the wrapped far edge of the mark described above; its window is programmed with the far edge `dx - 1` (or `dy - 1`) truncated to `u8`, so 255 when `dx` is 0; and since `width * height` is 0, no data is written and the shadow is not touched. A rectangle that reaches past the frame still has its window programmed (with `u8`-truncated coordinates) and its pixels written to the bus; with a shadow present the source then writes the shadow outside the frame, since it indexes it without clipping, and that is undefined behaviour the model cannot state.
- Engine.SetAddrWindowSpec: a mirrored register value such as `(LS020_HEIGHT-1) - x0` is computed as an `int` and truncated to the `u8 val` parameter of `ls020_write_reg`. The model takes it modulo 256, so in orientation 3 an x above 131 wraps (x0 = 132 programs 255), as in the source. Nothing is excluded by a precondition.
- TestLcd.Walk: besides the error-term tests of `draw_line`, each step also tests `i < dx` or `j < dy`. TestLcd.StepBounds proves the error term already implies these tests, so the walk takes the same steps as the C loop.
- TestLcd.DrawLine: integers are unbounded. The `int` overflow of `2 * err` or of `x + w - 1` for extreme arguments is not modelled.
- TestLcd.FillRect: the `int` overflow of `x + i` for extreme arguments is not modelled.
- TestLcd.DrawRect: the `int` overflow of `x + w - 1` for extreme arguments is not modelled.

Behaviour of ls020_fb.c worth knowing:

- A transfer buffer is either the preallocated `spi_buffer` or a `kmalloc` one.
- The partial path has no slow fallback. When allocation fails it returns `-ENOMEM` (Engine.PartialNoMemory).
- `dirty_pending` and `window_set` are cleared after the partial data write, even when that write fails (Engine.PartialOutcome).
- The full path copies the frame into the shadow whatever its data write returned (Engine.FullSpec).
- With partial update on and a shadow present, the full path's copy into the shadow is never reached. A change makes the update take the partial path (Engine.UpdateWithDiffingIsPartial); no change returns early (Engine.UpdateUnchangedIsSilent).
