/** The driver itself: the per-device state of ls020_fb_par and the routines of
    ls020_fb.c that read and update it in place, each proved to do exactly what
    the matching function of module Engine describes. */
module Ls020Fb {
  import opened Frame
  import opened Wire
  import opened Registers
  import opened DirtyRegion
  import opened Packing
  import Engine

  /** struct ls020_fb_par, without the SPI/GPIO handles, the fb_info back-pointer, the
      palette and the lock. The bus field stands for the SPI device: the writes attempted
      on it so far and the positions at which they fail. */
  class Par {
    const videomemory: array<u16>
    const shadow: array?<u16>
    const spiBuffer: array?<u8>
    var orientation: int
    var windowSet: bool
    var partialUpdate: bool
    var dirtyXMin: u16
    var dirtyYMin: u16
    var dirtyXMax: u16
    var dirtyYMax: u16
    var dirtyPending: bool
    var bus: Bus

    ghost predicate Valid()
      reads this`orientation, this`dirtyXMin, this`dirtyYMin, this`dirtyXMax, this`dirtyYMax, this`dirtyPending
    {
      && videomemory.Length == PIXELS
      && (shadow != null ==> shadow.Length == PIXELS && shadow != videomemory)
      && (spiBuffer != null ==> spiBuffer.Length == FRAME_BYTES)
      && 0 <= orientation < 4
      && (dirtyPending ==> BoxOk(Box(dirtyXMin, dirtyYMin, dirtyXMax, dirtyYMax)))
    }

    /** The video memory holds exactly the frame vm. */
    ghost predicate VideoIs(vm: seq<u16>)
      reads this, videomemory
      ensures VideoIs(vm) ==> IsFrame(vm)
    {
      videomemory.Length == PIXELS && videomemory[..] == vm
    }

    ghost function Abs(): Engine.Dev
      reads this, videomemory, shadow
    {
      Engine.Dev(
        videomemory[..],
        if shadow == null then Engine.None else Engine.Some(shadow[..]),
        spiBuffer != null,
        orientation,
        windowSet,
        partialUpdate,
        Box(dirtyXMin, dirtyYMin, dirtyXMax, dirtyYMax),
        dirtyPending,
        bus)
    }

    /** The state ls020_fb_probe sets up before it talks to the panel: zeroed video memory,
        the transfer buffer if its allocation succeeded, and the shadow copy when partial
        updates are requested, partial updates being turned off if the shadow cannot be
        allocated. */
    constructor (partialParam: bool, spiBufferOk: bool, shadowOk: bool, b: Bus)
      ensures Valid() && fresh(videomemory)
      ensures shadow != null ==> fresh(shadow)
      ensures partialUpdate <==> shadow != null
      ensures Abs() == Engine.Dev(
        seq(PIXELS, _ => 0),
        if partialParam && shadowOk then Engine.Some(seq(PIXELS, _ => 0)) else Engine.None,
        spiBufferOk, 0, false, partialParam && shadowOk, Box(0, 0, 0, 0), false, b)
    {
      videomemory := new u16[PIXELS](_ => 0);
      if spiBufferOk {
        spiBuffer := new u8[FRAME_BYTES](_ => 0);
      } else {
        spiBuffer := null;
      }
      if partialParam && shadowOk {
        shadow := new u16[PIXELS](_ => 0);
        partialUpdate := true;
      } else {
        shadow := null;
        // without the parameter, or with a failed shadow allocation, partial updates are off
        partialUpdate := false;
      }
      orientation := 0;
      windowSet := false;
      dirtyXMin, dirtyYMin, dirtyXMax, dirtyYMax := 0, 0, 0, 0;
      dirtyPending := false;
      bus := b;
      new;
      assert videomemory[..] == seq(PIXELS, _ => 0);
      if shadow != null {
        assert shadow[..] == seq(PIXELS, _ => 0);
      }
    }

    // -------------------------------------------------------------------
    // Bus primitives

    /** Set the RS line for the mode and hand the bytes to spi_write. */
    method SpiWrite(mode: Mode, bytes: seq<u8>) returns (r: int)
      modifies this`bus
      ensures (bus, r) == Write(old(bus), mode, bytes)
    {
      r := if |bus.trace| in bus.fails then EIO else 0;
      bus := Bus(bus.trace + [Event(mode, bytes)], bus.fails);
    }

    /** ls020_write_cmd. */
    method WriteCmd(cmd: u8) returns (r: int)
      modifies this`bus
      ensures (bus, r) == Write(old(bus), Cmd, [cmd])
    {
      r := SpiWrite(Cmd, [cmd]);
    }

    /** ls020_write_reg. */
    method WriteReg(reg: u8, val: u8) returns (r: int)
      modifies this`bus
      ensures (bus, r) == Wire.WriteReg(old(bus), Reg(reg, val))
    {
      r := SpiWrite(Cmd, [reg]);
      if r != 0 {
        return;
      }
      r := SpiWrite(Cmd, [val]);
    }

    /** ls020_write_data16: high byte, then low byte, in one data write. */
    method WriteData16(data: u16) returns (r: int)
      modifies this`bus
      ensures (bus, r) == Write(old(bus), Data, Split16(data))
    {
      var buf := [data / 256, data % 256];
      r := SpiWrite(Data, buf);
    }

    /** One `ret |= ls020_write_reg(...)` step. */
    method OrWriteReg(acc: int, reg: Reg) returns (r: int)
      requires IsBusCode(acc)
      modifies this`bus
      ensures (bus, r) == (Wire.WriteReg(old(bus), reg).0, OrErr(acc, Wire.WriteReg(old(bus), reg).1))
      ensures IsBusCode(r)
    {
      WriteRegSpec(bus, reg);
      var r1 := WriteReg(reg.addr, reg.val);
      r := OrErr(acc, r1);
    }

    // -------------------------------------------------------------------
    // Initialisation, window, rotation

    /** ls020_init_display; the reset pulse is timing only and always succeeds. */
    method InitDisplay() returns (r: int)
      modifies this`bus
      ensures (bus, r) == Engine.InitDisplay(old(bus))
    {
      r := SendCmds(INIT_ARRAY_0);
      if r != 0 {
        return;
      }
      r := SendCmds(INIT_ARRAY_1);
    }

    /** One table loop of ls020_init_display: a command write per byte, returning at the
        first failure. */
    method SendCmds(cmds: seq<u8>) returns (r: int)
      modifies this`bus
      ensures (bus, r) == SendEach(old(bus), Cmd, Engine.Singles(cmds))
    {
      ghost var chunks := Engine.Singles(cmds);
      var i := 0;
      while i < |cmds|
        invariant 0 <= i <= |cmds|
        invariant SendEach(old(bus), Cmd, chunks) == SendEach(bus, Cmd, chunks[i..])
      {
        assert chunks[i..][1..] == chunks[i + 1..];
        r := WriteCmd(cmds[i]);
        if r != 0 {
          return;
        }
        i := i + 1;
      }
      r := 0;
    }

    /** The six `ret |= ls020_write_reg(...)` lines of ls020_set_addr_window, for the
        register values the orientation's table chose. */
    method WriteWindowRegs(regs: seq<Reg>) returns (r: int)
      requires |regs| == 6
      modifies this`bus
      ensures (bus, r) == WriteRegsOr(old(bus), regs)
    {
      ghost var b0 := bus;
      WriteRegsOrSnoc(b0, regs, 0);
      assert regs[..0] == [];
      r := OrWriteReg(0, regs[0]);
      WriteRegsOrSnoc(b0, regs, 1);
      r := OrWriteReg(r, regs[1]);
      WriteRegsOrSnoc(b0, regs, 2);
      r := OrWriteReg(r, regs[2]);
      WriteRegsOrSnoc(b0, regs, 3);
      r := OrWriteReg(r, regs[3]);
      WriteRegsOrSnoc(b0, regs, 4);
      r := OrWriteReg(r, regs[4]);
      WriteRegsOrSnoc(b0, regs, 5);
      r := OrWriteReg(r, regs[5]);
      assert regs[..6] == regs;
    }

    /** ls020_set_addr_window: the register values come from the orientation's table. */
    method SetAddrWindow(x0: u8, y0: u8, x1: u8, y1: u8) returns (r: int)
      requires Valid()
      modifies this`bus
      ensures (bus, r) == Engine.SetAddrWindow(old(bus), orientation, x0, y0, x1, y1)
    {
      r := WriteReg(0xEF, 0x90);
      if r != 0 {
        return;
      }
      r := WriteWindowRegs(WindowRegs(orientation, x0, y0, x1, y1));
    }

    /** ls020_set_rotation. */
    method SetRotation(rotation: u8) returns (r: int)
      requires Valid()
      modifies this`bus, this`orientation
      ensures (Abs(), r) == Engine.SetRotation(old(Abs()), rotation)
      ensures Valid()
    {
      orientation := rotation % 4;
      var val01: u8, val05: u8;
      if orientation == 1 {
        val01, val05 := 0x00, 0x00;
      } else if orientation == 2 {
        val01, val05 := 0x80, 0x04;
      } else if orientation == 3 {
        val01, val05 := 0xC0, 0x00;
      } else {
        val01, val05 := 0x40, 0x04;
      }
      assert [Reg(0xEF, 0x90), Reg(0x01, val01), Reg(0x05, val05)] == RotationRegs(orientation);
      r := WriteRotationRegs(val01, val05);
    }

    /** The three `ret |= ls020_write_reg(...)` lines of ls020_set_rotation. */
    method WriteRotationRegs(val01: u8, val05: u8) returns (r: int)
      modifies this`bus
      ensures (bus, r) == WriteRegsOr(old(bus), [Reg(0xEF, 0x90), Reg(0x01, val01), Reg(0x05, val05)])
    {
      ghost var b0 := bus;
      ghost var regs := [Reg(0xEF, 0x90), Reg(0x01, val01), Reg(0x05, val05)];
      WriteRegsOrSnoc(b0, regs, 0);
      assert regs[..0] == [];
      r := OrWriteReg(0, Reg(0xEF, 0x90));
      WriteRegsOrSnoc(b0, regs, 1);
      r := OrWriteReg(r, Reg(0x01, val01));
      WriteRegsOrSnoc(b0, regs, 2);
      r := OrWriteReg(r, Reg(0x05, val05));
      assert regs[..3] == regs;
    }
  
    // -------------------------------------------------------------------
    // Dirty tracking

    /** ls020_mark_dirty_region. */
    method MarkDirtyRegion(x: u16, y: u16, width: u16, height: u16)
      requires Valid() && MarkArgs(x, y, width, height)
      modifies this
      ensures Abs() == Engine.Mark(old(Abs()), x, y, width, height) && Valid()
    {
      if !partialUpdate {
        return;
      }
      GrowDirty(x, y, width, height);
    }

    /** The bounds arithmetic of ls020_mark_dirty_region: start or widen the bounds, then
        clamp them to the frame. */
    method GrowDirty(x: u16, y: u16, width: u16, height: u16)
      requires MarkArgs(x, y, width, height)
      modifies this`dirtyXMin, this`dirtyYMin, this`dirtyXMax, this`dirtyYMax, this`dirtyPending
      ensures dirtyPending
      ensures Box(dirtyXMin, dirtyYMin, dirtyXMax, dirtyYMax) ==
        MarkBox(old(dirtyPending), old(Box(dirtyXMin, dirtyYMin, dirtyXMax, dirtyYMax)), x, y, width, height)
    {
      ghost var nb := MarkBox(dirtyPending, Box(dirtyXMin, dirtyYMin, dirtyXMax, dirtyYMax), x, y, width, height);
      if !dirtyPending {
        dirtyXMin := x;
        dirtyYMin := y;
        dirtyXMax := x + width - 1;
        dirtyYMax := y + height - 1;
        dirtyPending := true;
      } else {
        if x < dirtyXMin {
          dirtyXMin := x;
        }
        if y < dirtyYMin {
          dirtyYMin := y;
        }
        if x + width - 1 > dirtyXMax {
          dirtyXMax := x + width - 1;
        }
        if y + height - 1 > dirtyYMax {
          dirtyYMax := y + height - 1;
        }
      }
      dirtyXMin := Min(dirtyXMin, WIDTH - 1);
      dirtyYMin := Min(dirtyYMin, HEIGHT - 1);
      dirtyXMax := Min(dirtyXMax, WIDTH - 1);
      dirtyYMax := Min(dirtyYMax, HEIGHT - 1);
      assert Box(dirtyXMin, dirtyYMin, dirtyXMax, dirtyYMax) == nb;
    }

    /** ls020_detect_changes: one row-major pass over the frame that copies every differing
        pixel into the shadow and grows the bounds around it. */
    method DetectChanges() returns (found: bool)
      requires Valid()
      modifies this, shadow
      ensures (Abs(), found) == Engine.Detect(old(Abs())) && Valid()
    {
      if !partialUpdate || shadow == null {
        return true;
      }
      ghost var d0 := Abs();
      dirtyPending := false;
      found := ScanAll(videomemory[..], shadow[..], Box(dirtyXMin, dirtyYMin, dirtyXMax, dirtyYMax));
      ghost var d1 := Engine.Detect(d0).0;
      assert d1.box == Box(dirtyXMin, dirtyYMin, dirtyXMax, dirtyYMax) && d1.pending == found;
      dirtyPending := found;
    }

    /** After the first y rows of the pass the flag and the bounds are the scan of those rows. */
    ghost predicate RowsScanned(y: int, found: bool, vm: seq<u16>, sh0: seq<u16>, a: Scan)
      reads this
      requires IsFrame(vm) && IsFrame(sh0) && 0 <= y <= HEIGHT
    {
      Scan(found, Box(dirtyXMin, dirtyYMin, dirtyXMax, dirtyYMax)) == ScanRows(vm, sh0, y, a)
    }

    /** After the first y rows of the pass the shadow holds the frame up to row y and its
        old contents from there on. */
    ghost predicate RowsCopied(y: int, vm: seq<u16>, sh0: seq<u16>)
      reads this, shadow
      requires IsFrame(vm) && IsFrame(sh0) && 0 <= y <= HEIGHT
    {
      shadow != null && shadow[..] == vm[..Off(0, y)] + sh0[Off(0, y)..]
    }

    /** The two loops of ls020_detect_changes, row by row. */
    method ScanAll(ghost vm: seq<u16>, ghost sh0: seq<u16>, ghost init: Box) returns (found: bool)
      requires shadow != null && shadow.Length == PIXELS && shadow != videomemory
      requires VideoIs(vm) && shadow[..] == sh0
      requires Box(dirtyXMin, dirtyYMin, dirtyXMax, dirtyYMax) == init
      modifies this`dirtyXMin, this`dirtyYMin, this`dirtyXMax, this`dirtyYMax, shadow
      ensures Scan(found, Box(dirtyXMin, dirtyYMin, dirtyXMax, dirtyYMax)) == ScanFrame(vm, sh0, init)
      ensures shadow[..] == vm
    {
      found := false;
      assert RowsScanned(0, found, vm, sh0, Scan(false, init)) && RowsCopied(0, vm, sh0);
      for y := 0 to HEIGHT
        invariant RowsScanned(y, found, vm, sh0, Scan(false, init)) && RowsCopied(y, vm, sh0)
      {
        found := DetectRow(y, found, vm, sh0, Scan(false, init));
      }
    }

    /** The inner loop of ls020_detect_changes: row y, left to right. */
    method DetectRow(y: int, found0: bool, ghost vm: seq<u16>, ghost sh0: seq<u16>, ghost a: Scan) returns (found: bool)
      requires shadow != null && shadow.Length == PIXELS && shadow != videomemory && 0 <= y < HEIGHT
      requires VideoIs(vm) && IsFrame(sh0)
      requires RowsScanned(y, found0, vm, sh0, a) && RowsCopied(y, vm, sh0)
      modifies this`dirtyXMin, this`dirtyYMin, this`dirtyXMax, this`dirtyYMax, shadow
      ensures RowsScanned(y + 1, found, vm, sh0, a) && RowsCopied(y + 1, vm, sh0)
    {
      ghost var rowStart := Scan(found0, Box(dirtyXMin, dirtyYMin, dirtyXMax, dirtyYMax));
      found := found0;
      var x := 0;
      while x < WIDTH
        invariant 0 <= x <= WIDTH
        invariant Scan(found, Box(dirtyXMin, dirtyYMin, dirtyXMax, dirtyYMax)) == ScanRow(vm, sh0, y, x, rowStart)
        invariant shadow[..] == vm[..Off(x, y)] + sh0[Off(x, y)..]
      {
        SpliceStep(vm, sh0, Off(x, y));
        found := VisitPixel(x, y, found);
        x := x + 1;
      }
      ScanRowsNext(vm, sh0, y, a, rowStart, Scan(found, Box(dirtyXMin, dirtyYMin, dirtyXMax, dirtyYMax)));
      assert Off(WIDTH, y) == Off(0, y + 1);
    }

    /** The body of that loop for pixel (x, y): on a difference, start or widen the bounds
        and copy the pixel into the shadow. */
    method VisitPixel(x: int, y: int, found0: bool) returns (found: bool)
      requires shadow != null && shadow.Length == PIXELS && shadow != videomemory
      requires videomemory.Length == PIXELS && InFrame(x, y)
      modifies this`dirtyXMin, this`dirtyYMin, this`dirtyXMax, this`dirtyYMax, shadow
      ensures var a := Scan(found0, old(Box(dirtyXMin, dirtyYMin, dirtyXMax, dirtyYMax)));
        Scan(found, Box(dirtyXMin, dirtyYMin, dirtyXMax, dirtyYMax)) ==
          if videomemory[Off(x, y)] != old(shadow[Off(x, y)]) then Visit(a, x, y) else a
      ensures shadow[..] == old(shadow[..])[Off(x, y) := videomemory[Off(x, y)]]
    {
      found := found0;
      var offset := y * WIDTH + x;
      if videomemory[offset] != shadow[offset] {
        if !found {
          dirtyXMin, dirtyYMin, dirtyXMax, dirtyYMax := x, y, x, y;
          found := true;
        } else {
          if x < dirtyXMin {
            dirtyXMin := x;
          }
          if x > dirtyXMax {
            dirtyXMax := x;
          }
          if y < dirtyYMin {
            dirtyYMin := y;
          }
          if y > dirtyYMax {
            dirtyYMax := y;
          }
        }
        shadow[offset] := videomemory[offset];
      }
    }

    // -------------------------------------------------------------------
    // Partial update

    /** ls020_update_display_partial; allocOk is the outcome of the kmalloc it may need. */
    method UpdateDisplayPartial(allocOk: bool) returns (r: int)
      requires Valid()
      modifies this, spiBuffer
      ensures (Abs(), r) == Engine.Partial(old(Abs()), allocOk) && Valid()
    {
      if !dirtyPending {
        return 0;
      }
      var bufSize := CollapseDirty();
      PackRectLength(videomemory[..], Box(dirtyXMin, dirtyYMin, dirtyXMax, dirtyYMax));
      var buf: array<u8>;
      if spiBuffer != null && bufSize <= FRAME_BYTES {
        buf := spiBuffer;
      } else {
        if !allocOk {
          return ENOMEM;
        }
        buf := new u8[bufSize];
      }
      r := SendDirtyBox(buf, bufSize);
    }

    /** The sending half of ls020_update_display_partial: window, copy loop, one data
        write, and both flags cleared. */
    method SendDirtyBox(buf: array<u8>, bufSize: int) returns (r: int)
      requires Valid() && dirtyPending
      requires bufSize == 2 * |BoxPixels(videomemory[..], Box(dirtyXMin, dirtyYMin, dirtyXMax, dirtyYMax))| <= buf.Length
      modifies this, buf
      ensures (Abs(), r) == Engine.SendBox(old(Abs())) && Valid()
    {
      var box := Box(dirtyXMin, dirtyYMin, dirtyXMax, dirtyYMax);
      r := SetAddrWindow(dirtyXMin, dirtyYMin, dirtyXMax, dirtyYMax);
      if r != 0 {
        return;
      }
      PackBox(buf, box, bufSize, videomemory[..]);
      r := SpiWrite(Data, buf[..bufSize]);
      dirtyPending := false;
      windowSet := false;
    }

    /** The sizing step of ls020_update_display_partial: a dirty box whose transfer would
        exceed a quarter of the frame grows to the whole frame. Returns the transfer size. */
    method CollapseDirty() returns (bufSize: int)
      requires Valid() && dirtyPending
      modifies this`dirtyXMin, this`dirtyYMin, this`dirtyXMax, this`dirtyYMax
      ensures (Box(dirtyXMin, dirtyYMin, dirtyXMax, dirtyYMax), bufSize) == Collapse(old(Box(dirtyXMin, dirtyYMin, dirtyXMax, dirtyYMax)))
      ensures Valid()
    {
      var width := dirtyXMax - dirtyXMin + 1;
      var height := dirtyYMax - dirtyYMin + 1;
      bufSize := width * height * 2;
      if bufSize > FRAME_BYTES / 4 {
        dirtyXMin, dirtyYMin, dirtyXMax, dirtyYMax := 0, 0, WIDTH - 1, HEIGHT - 1;
        bufSize := FRAME_BYTES;
      }
    }

    /** The copy loop of ls020_update_display_partial: the box's pixels, top row first and
        each row left to right, high byte first, into the front of buf. */
    method PackBox(buf: array<u8>, b: Box, size: int, ghost vm: seq<u16>)
      requires VideoIs(vm)
      requires BoxOk(b) && size == 2 * |BoxPixels(vm, b)| <= buf.Length
      modifies buf
      ensures buf[..size] == PackRect(vm, b)
    {
      var i := 0;
      for y := b.yMin to b.yMax + 1
        invariant RowsPacked(buf, i, vm, b, y)
      {
        i := PackRow(buf, i, b, y, vm);
      }
    }

    /** The front i bytes of buf hold the encoding of the rows of box b above row y. */
    ghost predicate RowsPacked(buf: array<u8>, i: int, vm: seq<u16>, b: Box, y: int)
      reads buf
      requires IsFrame(vm) && BoxOk(b) && b.yMin <= y <= b.yMax + 1
    {
      0 <= i <= buf.Length && i == 2 * |BoxRows(vm, b, y)| && buf[..i] == Bytes(BoxRows(vm, b, y))
    }

    /** One row of that copy loop: row y of box b, appended at byte start. */
    method PackRow(buf: array<u8>, start: int, b: Box, y: int, ghost vm: seq<u16>) returns (end: int)
      requires VideoIs(vm) && BoxOk(b) && b.yMin <= y <= b.yMax
      requires RowsPacked(buf, start, vm, b, y) && 2 * |BoxPixels(vm, b)| <= buf.Length
      modifies buf
      ensures RowsPacked(buf, end, vm, b, y + 1)
    {
      BoxRowsNext(vm, b, y);
      ghost var pre := buf[..start];
      assert pre == Bytes(BoxRows(vm, b, y));
      assert start + 2 * (b.xMax - b.xMin + 1) <= buf.Length;
      end := start;
      for x := b.xMin to b.xMax + 1
        invariant end == start + 2 * (x - b.xMin)
        invariant RunPacked(buf, end, pre, vm, Off(b.xMin, y), Off(x, y))
      {
        end := PackPixel(buf, end, Off(x, y), pre, Off(b.xMin, y), vm);
      }
      RowRunPacked(vm, b, y, pre, buf[..end]);
    }

    /** The front end bytes of buf are pre followed by the encoding of pixels lo..hi - 1. */
    ghost predicate RunPacked(buf: array<u8>, end: int, pre: seq<u8>, vm: seq<u16>, lo: int, hi: int)
      reads buf
    {
      0 <= lo <= hi <= |vm| && 0 <= end <= buf.Length && buf[..end] == pre + Bytes(vm[lo..hi])
    }

    /** The body of the copy loops for the pixel at offset k: its high byte, then its low
        byte, appended at byte i. */
    method PackPixel(buf: array<u8>, i: int, k: int, ghost pre: seq<u8>, ghost lo: int, ghost vm: seq<u16>)
      returns (end: int)
      requires VideoIs(vm) && lo <= k < PIXELS
      requires i + 2 <= buf.Length && RunPacked(buf, i, pre, vm, lo, k)
      modifies buf
      ensures end == i + 2 && RunPacked(buf, end, pre, vm, lo, k + 1)
    {
      ghost var before := buf[..i];
      var pixel := videomemory[k];
      buf[i] := pixel / 256;
      buf[i + 1] := pixel % 256;
      end := i + 2;
      assert buf[..end] == before + Split16(pixel);
      BytesRunSnoc(vm, lo, k);
      assert before + Split16(pixel) == pre + Bytes(vm[lo..k + 1]);
    }

    // -------------------------------------------------------------------
    // Rectangle fill

    /** ls020_fillrect, for a rectangle inside the frame; allocOk is the outcome of the
        kmalloc of the one-write buffer. */
    method FillRect(dx: int, dy: int, width: int, height: int, color: u16, allocOk: bool)
      requires Valid() && Engine.FrameRect(dx, dy, width, height)
      modifies this, shadow
      ensures Abs() == Engine.FillRect(old(Abs()), dx, dy, width, height, color, allocOk) && Valid()
    {
      MarkDirtyRegion(dx, dy, width, height);
      windowSet := false;
      var r := SetAddrWindow(dx, dy, dx + width - 1, dy + height - 1);
      if r != 0 {
        return;
      }
      FillData(dx, dy, width, height, color, allocOk);
    }

    /** The data half of ls020_fillrect, once its window is programmed. */
    method FillData(dx: int, dy: int, width: int, height: int, color: u16, allocOk: bool)
      requires Engine.FrameRect(dx, dy, width, height)
      requires shadow != null ==> shadow.Length == PIXELS
      modifies this`bus, shadow
      ensures bus == Engine.FillData(old(bus), width * height, color, allocOk)
      ensures shadow != null ==> shadow[..] == Paint(old(shadow[..]), dx, dy, width, height, color)
    {
      if width * height > 64 && allocOk {
        var fillBuf := new u8[width * height * 2];
        FillBuffer(fillBuf, color, width * height);
        var r := SpiWrite(Data, fillBuf[..]);
        if shadow != null {
          PaintShadow(dx, dy, width, height, color);
        }
        return;
      }
      FillPixels(dx, dy, width, height, color);
    }

    /** The buffer loop of ls020_fillrect: n copies of the colour's two bytes. */
    method FillBuffer(buf: array<u8>, color: u16, n: nat)
      requires buf.Length == 2 * n
      modifies buf
      ensures buf[..] == Bytes(Engine.Solid(color, n))
    {
      for i := 0 to n
        invariant buf[..2 * i] == Bytes(Engine.Solid(color, i))
      {
        ghost var before := buf[..2 * i];
        buf[i * 2] := color / 256;
        buf[i * 2 + 1] := color % 256;
        assert buf[..2 * (i + 1)] == before + Split16(color);
        assert Engine.Solid(color, i + 1) == Engine.Solid(color, i) + [color];
        BytesSnoc(Engine.Solid(color, i), color);
      }
      assert buf[..] == buf[..2 * n];
    }

    /** The shadow holds s0 with the pixels of the rectangle before (cx, cy) painted. */
    ghost predicate ShadowPainted(s0: seq<u16>, dx: int, dy: int, width: int, height: int, color: u16, cx: int, cy: int)
      reads this, shadow
    {
      shadow != null ==> Engine.PaintedBefore(s0, shadow[..], dx, dy, width, height, color, cx, cy)
    }

    /** One store of the shadow loops of ls020_fillrect, at pixel (x, y) of the rectangle. */
    method PaintPixel(x: int, y: int, color: u16, ghost s0: seq<u16>, ghost dx: int, ghost dy: int, ghost width: int, ghost height: int)
      requires shadow != null && InFrame(x, y) && InRect(x, y, dx, dy, width, height)
      requires ShadowPainted(s0, dx, dy, width, height, color, x, y)
      modifies shadow
      ensures ShadowPainted(s0, dx, dy, width, height, color, x + 1, y)
    {
      Engine.PaintedStep(s0, shadow[..], dx, dy, width, height, color, x, y);
      shadow[y * WIDTH + x] := color;
    }

    /** The shadow loops of the one-write path: every pixel of the rectangle, row by row. */
    method PaintShadow(dx: int, dy: int, width: int, height: int, color: u16)
      requires Engine.FrameRect(dx, dy, width, height)
      requires shadow != null && shadow.Length == PIXELS
      modifies shadow
      ensures shadow[..] == Paint(old(shadow[..]), dx, dy, width, height, color)
    {
      ghost var s0 := shadow[..];
      Engine.PaintedStart(s0, dx, dy, width, height, color);
      for y := dy to dy + height
        invariant ShadowPainted(s0, dx, dy, width, height, color, dx, y)
      {
        for x := dx to dx + width
          invariant ShadowPainted(s0, dx, dy, width, height, color, x, y)
        {
          PaintPixel(x, y, color, s0, dx, dy, width, height);
        }
        Engine.PaintedRow(s0, shadow[..], dx, dy, width, height, color, y);
      }
      Engine.PaintedEnd(s0, shadow[..], dx, dy, width, height, color);
    }

    /** How far the per-pixel path has got: k pixels written since bus b0, and the shadow
        painted before (cx, cy). */
    ghost predicate PixelsWritten(b0: Bus, s0: seq<u16>, dx: int, dy: int, width: int, height: int, color: u16, k: nat, cx: int, cy: int)
      reads this, shadow
    {
      && bus == Engine.SendAll(b0, Data, Engine.PixelChunks(Engine.Solid(color, k)))
      && ShadowPainted(s0, dx, dy, width, height, color, cx, cy)
    }

    /** The per-pixel path of ls020_fillrect: a data write per pixel, results ignored, each
        pixel stored into the shadow as it goes. */
    method FillPixels(dx: int, dy: int, width: int, height: int, color: u16)
      requires Engine.FrameRect(dx, dy, width, height)
      requires shadow != null ==> shadow.Length == PIXELS
      modifies this`bus, shadow
      ensures bus == Engine.SendAll(old(bus), Data, Engine.PixelChunks(Engine.Solid(color, width * height)))
      ensures shadow != null ==> shadow[..] == Paint(old(shadow[..]), dx, dy, width, height, color)
    {
      ghost var b0 := bus;
      ghost var s0 := if shadow != null then shadow[..] else [];
      ghost var k := 0;
      if shadow != null {
        Engine.PaintedStart(s0, dx, dy, width, height, color);
      }
      assert Events(Data, Engine.PixelChunks(Engine.Solid(color, 0))) == [];
      for y := 0 to height
        invariant k == y * width
        invariant PixelsWritten(b0, s0, dx, dy, width, height, color, k, dx, dy + y)
      {
        k := FillRow(dx, dy, width, height, y, color, b0, s0, k);
      }
      if shadow != null {
        Engine.PaintedEnd(s0, shadow[..], dx, dy, width, height, color);
      }
    }

    /** The inner loop of the per-pixel path: row y of the rectangle. */
    method FillRow(dx: int, dy: int, width: int, height: int, y: int, color: u16, ghost b0: Bus, ghost s0: seq<u16>, ghost k0: nat)
      returns (ghost k: nat)
      requires Engine.FrameRect(dx, dy, width, height) && 0 <= y < height
      requires PixelsWritten(b0, s0, dx, dy, width, height, color, k0, dx, dy + y)
      modifies this`bus, shadow
      ensures k == k0 + width && PixelsWritten(b0, s0, dx, dy, width, height, color, k, dx, dy + y + 1)
    {
      k := k0;
      for x := 0 to width
        invariant k == k0 + x
        invariant PixelsWritten(b0, s0, dx, dy, width, height, color, k, dx + x, dy + y)
      {
        Engine.SolidEventsSnoc(color, k);
        var r := WriteData16(color);
        if shadow != null {
          PaintPixel(dx + x, dy + y, color, s0, dx, dy, width, height);
        }
        k := k + 1;
      }
      if shadow != null {
        Engine.PaintedRow(s0, shadow[..], dx, dy, width, height, color, dy + y);
      }
    }

    // -------------------------------------------------------------------
    // Full update

    /** ls020_update_display_slow: the whole-frame window, then one data write per pixel,
        returning at the first failure. */
    method UpdateDisplaySlow() returns (r: int)
      requires Valid()
      modifies this`bus
      ensures (Abs(), r) == Engine.Slow(old(Abs()))
    {
      r := SetAddrWindow(0, 0, WIDTH - 1, HEIGHT - 1);
      if r != 0 {
        return;
      }
      ghost var b1 := bus;
      ghost var chunks := Engine.PixelChunks(videomemory[..]);
      for y := 0 to HEIGHT
        invariant SentFrom(b1, chunks, Off(0, y))
      {
        r := WriteRow(y, b1, chunks);
        if r != 0 {
          return;
        }
      }
      assert chunks[PIXELS..] == [];
      r := 0;
    }

    /** The data writes made since bus b1 are the first k chunks, one write each, none
        failing: finishing the run from here ends as the whole run from b1 would. */
    ghost predicate SentFrom(b1: Bus, chunks: seq<seq<u8>>, k: int)
      reads this
    {
      0 <= k <= |chunks| && SendEach(b1, Data, chunks) == SendEach(bus, Data, chunks[k..])
    }

    /** The inner loop of ls020_update_display_slow: row y, left to right. */
    method WriteRow(y: int, ghost b1: Bus, ghost chunks: seq<seq<u8>>) returns (r: int)
      requires videomemory.Length == PIXELS && chunks == Engine.PixelChunks(videomemory[..])
      requires 0 <= y < HEIGHT && SentFrom(b1, chunks, Off(0, y))
      modifies this`bus
      ensures r == 0 ==> SentFrom(b1, chunks, Off(0, y + 1))
      ensures r != 0 ==> (bus, r) == SendEach(b1, Data, chunks)
    {
      for x := 0 to WIDTH
        invariant SentFrom(b1, chunks, Off(x, y))
      {
        assert chunks[Off(x, y)..][1..] == chunks[Off(x, y) + 1..];
        r := WriteData16(videomemory[y * WIDTH + x]);
        if r != 0 {
          return;
        }
      }
      assert Off(WIDTH, y) == Off(0, y + 1);
      r := 0;
    }

    /** The copy loop of ls020_update_display: the whole frame in memory order. */
    method PackFrame(buf: array<u8>, ghost vm: seq<u16>)
      requires VideoIs(vm) && buf.Length == FRAME_BYTES
      modifies buf
      ensures buf[..] == Bytes(vm)
    {
      for i := 0 to PIXELS
        invariant RunPacked(buf, 2 * i, [], vm, 0, i)
      {
        var end := PackPixel(buf, 2 * i, i, [], 0, vm);
      }
      assert buf[..] == buf[..2 * PIXELS];
      assert vm[0..PIXELS] == vm;
    }

    /** The memcpy of ls020_update_display: the shadow takes the whole frame. */
    method CopyToShadow()
      requires shadow != null && shadow.Length == PIXELS && videomemory.Length == PIXELS
      requires shadow != videomemory
      modifies shadow
      ensures shadow[..] == videomemory[..]
    {
      forall i | 0 <= i < PIXELS {
        shadow[i] := videomemory[i];
      }
    }

    /** The full-frame half of ls020_update_display; allocOk is the outcome of the kmalloc
        it makes when there is no pre-allocated transfer buffer. */
    method UpdateDisplayFull(allocOk: bool) returns (r: int)
      requires Valid()
      modifies this`bus, this`windowSet, shadow, spiBuffer
      ensures (Abs(), r) == Engine.Full(old(Abs()), allocOk) && Valid()
    {
      var dataBuf := spiBuffer;
      if dataBuf == null {
        if !allocOk {
          r := UpdateDisplaySlow();
          return;
        }
        dataBuf := new u8[FRAME_BYTES];
      }
      r := SendFrameVia(dataBuf);
    }

    /** The rest of the full-frame path, with dataBuf as the transfer buffer. */
    method SendFrameVia(dataBuf: array<u8>) returns (r: int)
      requires Valid() && dataBuf.Length == FRAME_BYTES
      modifies this`bus, this`windowSet, shadow, dataBuf
      ensures (Abs(), r) == Engine.Buffered(old(Abs()))
    {
      if !windowSet {
        r := SpiWrite(Cmd, SETUP_CMDS);
        if r != 0 {
          return;
        }
        windowSet := true;
      }
      PackFrame(dataBuf, videomemory[..]);
      r := SpiWrite(Data, dataBuf[..]);
      if shadow != null && partialUpdate {
        CopyToShadow();
      }
    }

    /** ls020_update_display. */
    method UpdateDisplay(allocOk: bool) returns (r: int)
      requires Valid()
      modifies this, shadow, spiBuffer
      ensures (Abs(), r) == Engine.Update(old(Abs()), allocOk) && Valid()
    {
      if partialUpdate {
        if shadow != null {
          var changed := DetectChanges();
          if !changed {
            return 0;
          }
        }
        if dirtyPending {
          r := UpdateDisplayPartial(allocOk);
          return;
        }
      }
      r := UpdateDisplayFull(allocOk);
    }
  }
}
