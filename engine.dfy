/** The driver's operations as functions of the device state: what each one
    sends on the bus, what it returns and how it leaves the state. The
    imperative driver in module Ls020Fb is proved to follow these, and the
    properties of the update engine are proved about them here. */
module Engine {
  import opened Frame
  import opened Wire
  import opened Registers
  import opened DirtyRegion
  import opened Packing

  datatype Option<T> = None | Some(value: T)

  /** The driver state of ls020_fb_par that the engine reads and writes, plus the bus.
      hasSpiBuffer says whether the pre-allocated transfer buffer exists; its contents are
      scratch and are not part of the state. */
  datatype Dev = Dev(
    vm: seq<u16>,
    shadow: Option<seq<u16>>,
    hasSpiBuffer: bool,
    orientation: int,
    windowSet: bool,
    partialUpdate: bool,
    box: Box,
    pending: bool,
    bus: Bus)

  /** The invariant every operation keeps. */
  predicate Good(d: Dev) {
    && IsFrame(d.vm)
    && (d.shadow.Some? ==> IsFrame(d.shadow.value))
    && 0 <= d.orientation < 4
    && (d.pending ==> BoxOk(d.box))
  }

  // ---------------------------------------------------------------------
  // Addressing, rotation, initialisation

  /** The register writes ls020_set_addr_window attempts when the bank select succeeds. */
  function WindowProgram(o: int, x0: u8, y0: u8, x1: u8, y1: u8): seq<Reg>
    requires 0 <= o < 4
  {
    [Reg(0xEF, 0x90)] + WindowRegs(o, x0, y0, x1, y1)
  }

  /** ls020_set_addr_window: select the register bank, giving up if that fails, then write
      the six window registers, all of them attempted. */
  function SetAddrWindow(b: Bus, o: int, x0: u8, y0: u8, x1: u8, y1: u8): (Bus, int)
    requires 0 <= o < 4
  {
    var (b1, r) := WriteReg(b, Reg(0xEF, 0x90));
    if r != 0 then (b1, r) else WriteRegsOr(b1, WindowRegs(o, x0, y0, x1, y1))
  }

  /** Programming a window sends only commands; it succeeds exactly when all fourteen
      single-byte writes succeed, and then it sent the seven register/value pairs in order.
      A failed bank select ends it after one or two writes; once the bank select is through,
      all six window registers are tried whatever fails, eight to fourteen writes in all. */
  lemma SetAddrWindowSpec(b: Bus, o: int, x0: u8, y0: u8, x1: u8, y1: u8)
    requires 0 <= o < 4
    ensures var (b', r) := SetAddrWindow(b, o, x0, y0, x1, y1);
      var n := |b.trace|;
      && OnlyCommandsAfter(b, b')
      && IsBusCode(r)
      && (r == 0 <==> NoFail(b.fails, n, n + 14))
      && (r == 0 ==> b'.trace == b.trace + RegEvents(WindowProgram(o, x0, y0, x1, y1)))
      && (n in b.fails ==> r == EIO && b'.trace == b.trace + [Event(Cmd, [0xEF])])
      && (n !in b.fails && n + 1 in b.fails ==> r == EIO && b'.trace == b.trace + RegEvents([Reg(0xEF, 0x90)]))
      && (NoFail(b.fails, n, n + 2) ==>
            && b'.trace == b.trace + RegEvents([Reg(0xEF, 0x90)]) + RegAttempts(b.fails, n + 2, WindowRegs(o, x0, y0, x1, y1))
            && 8 <= |b'.trace| - n <= 14)
  {
    WriteRegSpec(b, Reg(0xEF, 0x90));
    var (b1, r1) := WriteReg(b, Reg(0xEF, 0x90));
    var n := |b.trace|;
    if r1 == 0 {
      WindowAfterBank(b, b1, o, x0, y0, x1, y1);
      WriteRegsOrTrace(b1, WindowRegs(o, x0, y0, x1, y1));
    } else {
      assert !NoFail(b.fails, n, n + 2);
    }
  }

  /** Once the bank select has gone out, the six window registers complete the program. */
  lemma WindowAfterBank(b: Bus, b1: Bus, o: int, x0: u8, y0: u8, x1: u8, y1: u8)
    requires 0 <= o < 4
    requires OnlyCommandsAfter(b, b1) && NoFail(b.fails, |b.trace|, |b.trace| + 2)
    requires b1.trace == b.trace + RegEvents([Reg(0xEF, 0x90)])
    ensures var (b', r) := WriteRegsOr(b1, WindowRegs(o, x0, y0, x1, y1));
      && OnlyCommandsAfter(b, b')
      && IsBusCode(r)
      && (r == 0 <==> NoFail(b.fails, |b.trace|, |b.trace| + 14))
      && (r == 0 ==> b'.trace == b.trace + RegEvents(WindowProgram(o, x0, y0, x1, y1)))
  {
    var regs := WindowRegs(o, x0, y0, x1, y1);
    var n := |b.trace|;
    WriteRegsOrCommands(b1, regs);
    WriteRegsOrOk(b1, regs);
    var (b2, r2) := WriteRegsOr(b1, regs);
    OnlyCommandsTrans(b, b1, b2);
    RegEventsAppend([Reg(0xEF, 0x90)], regs);
    assert NoFail(b.fails, n, n + 14) <==> NoFail(b.fails, n + 2, n + 14);
  }

  /** ls020_set_rotation: store `rotation & 3`, then write the bank select and the two
      scan-direction registers, all attempted. */
  function SetRotation(d: Dev, rotation: u8): (Dev, int) {
    var o := Orientation(rotation);
    var (b, r) := WriteRegsOr(d.bus, RotationRegs(o));
    (d.(orientation := o, bus := b), r)
  }

  /** The orientation is the low two bits of the request whatever the bus does, and the
      three register writes carry that orientation's scan direction. */
  lemma SetRotationSpec(d: Dev, rotation: u8)
    ensures var (d', r) := SetRotation(d, rotation);
      && d' == d.(orientation := rotation % 4, bus := d'.bus)
      && 0 <= d'.orientation < 4
      && OnlyCommandsAfter(d.bus, d'.bus)
      && (r == 0 <==> NoFail(d.bus.fails, |d.bus.trace|, |d.bus.trace| + 6))
      && (r == 0 ==> d'.bus.trace == d.bus.trace + RegEvents([Reg(0xEF, 0x90), Reg(0x01, ScanDirection(rotation % 4).0), Reg(0x05, ScanDirection(rotation % 4).1)]))
      // all three registers are tried, even after a failure
      && d'.bus.trace == d.bus.trace + RegAttempts(d.bus.fails, |d.bus.trace|, RotationRegs(rotation % 4))
      && 3 <= |d'.bus.trace| - |d.bus.trace| <= 6
  {
    WriteRegsOrSpec(d.bus, RotationRegs(Orientation(rotation)));
  }

  /** Each byte of a table as its own one-byte write. */
  function Singles(bs: seq<u8>): (cs: seq<seq<u8>>)
    ensures |cs| == |bs| && forall i :: 0 <= i < |bs| ==> cs[i] == [bs[i]]
  {
    seq(|bs|, i requires 0 <= i < |bs| => [bs[i]])
  }

  /** Two tables of command bytes, one byte per write, the second only if the first went out
      whole; the first failed write ends it. */
  function SendTables(b: Bus, t0: seq<u8>, t1: seq<u8>): (Bus, int) {
    var (b1, r) := SendEach(b, Cmd, Singles(t0));
    if r != 0 then (b1, r) else SendEach(b1, Cmd, Singles(t1))
  }

  /** Sending two tables is sending their concatenation ... */
  lemma SendTablesIsOneRun(b: Bus, t0: seq<u8>, t1: seq<u8>)
    ensures SendTables(b, t0, t1) == SendEach(b, Cmd, Singles(t0 + t1))
  {
    assert Singles(t0 + t1) == Singles(t0) + Singles(t1);
    SendEachAppend(b, Cmd, Singles(t0), Singles(t1));
  }

  /** ... so it sends the same run of command bytes in order, stopping right after the first
      write that fails, and reports success exactly when none failed. */
  lemma SendTablesSpec(b: Bus, t0: seq<u8>, t1: seq<u8>)
    ensures var (b', r) := SendTables(b, t0, t1);
      var n, k, all := |b.trace|, |b'.trace| - |b.trace|, t0 + t1;
      && b'.fails == b.fails
      && 0 <= k <= |all|
      && b'.trace == b.trace + Events(Cmd, Singles(all))[..k]
      && IsBusCode(r)
      && (r == 0 <==> NoFail(b.fails, n, n + |all|))
      && (r == 0 ==> k == |all|)
      && (r != 0 ==> 1 <= k && NoFail(b.fails, n, n + k - 1) && n + k - 1 in b.fails)
  {
    SendTablesIsOneRun(b, t0, t1);
    SendEachSpec(b, Cmd, Singles(t0 + t1));
  }

  /** ls020_init_display after the reset pulse: init_array_0 then init_array_1. */
  function InitDisplay(b: Bus): (Bus, int) {
    SendTables(b, INIT_ARRAY_0, INIT_ARRAY_1)
  }

  /** Initialisation sends the 66 bytes of the two tables in order as commands, and stops at
      the first failure. */
  lemma InitDisplaySpec(b: Bus)
    ensures var (b', r) := InitDisplay(b);
      var k := |b'.trace| - |b.trace|;
      && 0 <= k <= 66
      && b'.trace == b.trace + Events(Cmd, Singles(INIT_ARRAY_0 + INIT_ARRAY_1))[..k]
      && (r == 0 <==> NoFail(b.fails, |b.trace|, |b.trace| + 66))
      && (r == 0 ==> k == 66)
      && (r != 0 ==> 1 <= k && NoFail(b.fails, |b.trace|, |b.trace| + k - 1) && |b.trace| + k - 1 in b.fails)
  {
    SendTablesSpec(b, INIT_ARRAY_0, INIT_ARRAY_1);
  }

  // ---------------------------------------------------------------------
  // Dirty tracking

  /** ls020_mark_dirty_region. */
  function Mark(d: Dev, x: int, y: int, w: int, h: int): (d': Dev)
    requires MarkArgs(x, y, w, h)
    ensures Good(d) ==> Good(d')
    ensures !d.partialUpdate ==> d' == d
    ensures d.partialUpdate ==> d' == d.(box := d'.box, pending := true)
    ensures d.partialUpdate ==> forall px, py :: InFrame(px, py) && InRect(px, py, x, y, w, h) ==> InBox(d'.box, px, py)
    ensures d.partialUpdate && d.pending ==> forall px, py :: InFrame(px, py) && InBox(d.box, px, py) ==> InBox(d'.box, px, py)
    // the new bounds are those of MarkBox, so they are also no wider than needed
    ensures d.partialUpdate ==> d'.box == MarkBox(d.pending, d.box, x, y, w, h)
  {
    if !d.partialUpdate then d
    else d.(box := MarkBox(d.pending, d.box, x, y, w, h), pending := true)
  }

  /** ls020_detect_changes: with diffing enabled, scan the frame against the shadow,
      copying every differing pixel into the shadow; report whether anything differed. */
  function Detect(d: Dev): (r: (Dev, bool))
    requires Good(d)
    ensures Good(r.0)
  {
    if !d.partialUpdate || d.shadow.None? then (d, true)
    else
      var a := ScanFrame(d.vm, d.shadow.value, d.box);
      ScanFrameSpec(d.vm, d.shadow.value, d.box);
      (d.(shadow := Some(d.vm), box := a.box, pending := a.found), a.found)
  }

  /** Pixel (x, y) of the frame differs from the shadow. */
  predicate Changed(d: Dev, x: int, y: int)
    requires Good(d) && d.shadow.Some? && InFrame(x, y)
  {
    Differs(d.vm, d.shadow.value, x, y)
  }

  /** After diffing the shadow equals the frame; the result and the pending flag say whether
      any pixel differed, and then the bounds are exactly the smallest box around the
      differing pixels. Without diffing it reports a change and touches nothing. */
  lemma DetectSpec(d: Dev)
    requires Good(d)
    ensures var (d', found) := Detect(d);
      && Good(d')
      && (!d.partialUpdate || d.shadow.None? ==> d' == d && found)
      && (d.partialUpdate && d.shadow.Some? ==>
            && d' == d.(shadow := Some(d.vm), box := d'.box, pending := found)
            && (found <==> exists x, y :: InFrame(x, y) && Changed(d, x, y))
            && (!found ==> d'.box == d.box)
            && (found ==>
                  && (forall x, y :: InFrame(x, y) && Changed(d, x, y) ==> InBox(d'.box, x, y))
                  && (exists x, y :: InFrame(x, y) && Changed(d, x, y) && x == d'.box.xMin)
                  && (exists x, y :: InFrame(x, y) && Changed(d, x, y) && x == d'.box.xMax)
                  && (exists x, y :: InFrame(x, y) && Changed(d, x, y) && y == d'.box.yMin)
                  && (exists x, y :: InFrame(x, y) && Changed(d, x, y) && y == d'.box.yMax)))
  {
    if d.partialUpdate && d.shadow.Some? {
      ScanFrameSpec(d.vm, d.shadow.value, d.box);
    }
  }

  // ---------------------------------------------------------------------
  // Partial update

  /** ls020_update_display_partial; allocOk is the outcome of the kmalloc it may need. */
  function Partial(d: Dev, allocOk: bool): (Dev, int)
    requires Good(d)
  {
    if !d.pending then (d, 0)
    else
      var (box, size) := Collapse(d.box);
      var d1 := d.(box := box);
      if !(d.hasSpiBuffer && size <= FRAME_BYTES) && !allocOk then (d1, ENOMEM)
      else SendBox(d1)
  }

  /** The rest of the partial update once a buffer is had: program the window for the
      pending box, giving up if that fails, then write the box's pixels and clear both
      flags whatever that write returns. */
  function SendBox(d: Dev): (Dev, int)
    requires Good(d) && BoxOk(d.box)
  {
    var (b1, r) := SetAddrWindow(d.bus, d.orientation, d.box.xMin, d.box.yMin, d.box.xMax, d.box.yMax);
    if r != 0 then (d.(bus := b1), r)
    else
      var (b2, r2) := Write(b1, Data, PackRect(d.vm, d.box));
      (d.(bus := b2, pending := false, windowSet := false), r2)
  }

  /** Nothing pending: nothing happens. */
  lemma PartialIdle(d: Dev, allocOk: bool)
    requires Good(d) && !d.pending
    ensures Partial(d, allocOk) == (d, 0)
  {
  }

  /** With no pre-allocated buffer and a failed allocation the partial update gives up with
      -ENOMEM before touching the bus, keeping the (possibly collapsed) box pending. */
  lemma PartialNoMemory(d: Dev)
    requires Good(d) && d.pending && !d.hasSpiBuffer
    ensures var (d', r) := Partial(d, false);
      r == ENOMEM && d'.bus == d.bus && d' == d.(box := Collapse(d.box).0) && Good(d')
  {
  }

  /** Once a buffer is had, the outcome of a partial update: the window is programmed for the
      (possibly collapsed) box; if that fails its error is returned, no pixel data is sent and
      both flags are kept; otherwise exactly one data write follows, of the box's pixels row
      by row, and both flags are cleared whatever that write returns. */
  lemma PartialOutcome(d: Dev, allocOk: bool)
    requires Good(d) && d.pending && (d.hasSpiBuffer || allocOk)
    ensures var (d', r) := Partial(d, allocOk);
      var box := Collapse(d.box).0;
      var (bw, rw) := SetAddrWindow(d.bus, d.orientation, box.xMin, box.yMin, box.xMax, box.yMax);
      && Good(d')
      && d'.box == box && d'.vm == d.vm && d'.shadow == d.shadow
      && (rw != 0 ==> r == rw && d' == d.(box := box, bus := bw) && OnlyCommandsAfter(d.bus, d'.bus))
      && (rw == 0 ==>
            && d'.bus.trace == d.bus.trace + RegEvents(WindowProgram(d.orientation, box.xMin, box.yMin, box.xMax, box.yMax))
                               + [Event(Data, PackRect(d.vm, box))]
            && !d'.pending && !d'.windowSet
            && IsBusCode(r) && (r == 0 <==> |bw.trace| !in d.bus.fails))
  {
    var box := Collapse(d.box).0;
    FootprintBounds(box);
    SetAddrWindowSpec(d.bus, d.orientation, box.xMin, box.yMin, box.xMax, box.yMax);
  }

  /** A pending box bigger than a quarter of the frame is sent as the whole frame: 46464
      bytes, the frame in memory order. */
  lemma PartialCollapses(d: Dev, allocOk: bool)
    requires Good(d) && d.pending && Footprint(d.box) > QUARTER && (d.hasSpiBuffer || allocOk)
    requires SetAddrWindow(d.bus, d.orientation, 0, 0, WIDTH - 1, HEIGHT - 1).1 == 0
    ensures var (d', r) := Partial(d, allocOk);
      && d'.box == FULL_BOX
      && d'.bus.trace[|d'.bus.trace| - 1] == Event(Data, Bytes(d.vm))
      && |Bytes(d.vm)| == 46464
  {
    PartialOutcome(d, allocOk);
    PackRectFull(d.vm);
  }

  /** A pending box of at most a quarter of the frame is sent as it is: its packing, of its
      footprint in bytes, which unpack to its pixels row by row. */
  lemma PartialSendsBox(d: Dev, allocOk: bool)
    requires Good(d) && d.pending && Footprint(d.box) <= QUARTER && (d.hasSpiBuffer || allocOk)
    requires SetAddrWindow(d.bus, d.orientation, d.box.xMin, d.box.yMin, d.box.xMax, d.box.yMax).1 == 0
    ensures var (d', r) := Partial(d, allocOk);
      && d'.box == d.box
      && |d'.bus.trace| > 0
      && var data := d'.bus.trace[|d'.bus.trace| - 1];
      && data == Event(Data, PackRect(d.vm, d.box))
      && |data.bytes| == Footprint(d.box)
      && Unpack(data.bytes) == BoxPixels(d.vm, d.box)
  {
    PartialOutcome(d, allocOk);
    PackRectLength(d.vm, d.box);
    PackRectPixels(d.vm, d.box);
  }

  // ---------------------------------------------------------------------
  // Full update

  /** One two-byte data write per pixel. */
  function PixelChunks(vm: seq<u16>): (cs: seq<seq<u8>>)
    ensures |cs| == |vm| && forall i :: 0 <= i < |vm| ==> cs[i] == Split16(vm[i])
  {
    seq(|vm|, i requires 0 <= i < |vm| => Split16(vm[i]))
  }

  /** The bytes of a run of writes, end to end. */
  function Flatten(cs: seq<seq<u8>>): seq<u8>
    decreases |cs|
  {
    if cs == [] then [] else Flatten(cs[..|cs| - 1]) + cs[|cs| - 1]
  }

  /** The per-pixel writes carry, end to end, exactly the bytes of the one-write transfer. */
  lemma {:induction false} FlattenPixelChunks(vm: seq<u16>)
    ensures Flatten(PixelChunks(vm)) == Bytes(vm)
    decreases |vm|
  {
    if vm != [] {
      var init := vm[..|vm| - 1];
      FlattenPixelChunks(init);
      assert PixelChunks(vm)[..|vm| - 1] == PixelChunks(init);
    }
  }

  /** ls020_update_display_slow: the whole-frame window, then one data write per pixel,
      stopping at the first failure. */
  function Slow(d: Dev): (Dev, int)
    requires Good(d)
  {
    var (b1, r) := SetAddrWindow(d.bus, d.orientation, 0, 0, WIDTH - 1, HEIGHT - 1);
    if r != 0 then (d.(bus := b1), r)
    else
      var (b2, r2) := SendEach(b1, Data, PixelChunks(d.vm));
      (d.(bus := b2), r2)
  }

  /** When every write succeeds the slow path sends the window and then the frame pixel by
      pixel, the same bytes as the one-write transfer; it changes nothing but the bus. A failed
      window returns its error before any pixel goes out; once the window is set, the pixel
      writes stop right after the first one that fails. */
  lemma SlowSpec(d: Dev)
    requires Good(d)
    ensures var (d', r) := Slow(d);
      var n := |d.bus.trace|;
      && d' == d.(bus := d'.bus) && IsBusCode(r)
      && (r == 0 <==> NoFail(d.bus.fails, n, n + 14 + PIXELS))
      && (r == 0 ==>
            && d'.bus.trace == d.bus.trace + RegEvents(WindowProgram(d.orientation, 0, 0, WIDTH - 1, HEIGHT - 1))
                               + Events(Data, PixelChunks(d.vm))
            && Flatten(PixelChunks(d.vm)) == Bytes(d.vm))
      && var (b1, r1) := SetAddrWindow(d.bus, d.orientation, 0, 0, WIDTH - 1, HEIGHT - 1);
      && (r1 != 0 ==> r == r1 && d'.bus == b1 && OnlyCommandsAfter(d.bus, d'.bus))
      && var k := |d'.bus.trace| - (n + 14);
      && (r1 == 0 && r != 0 ==>
            && 1 <= k <= PIXELS
            && d'.bus.trace == b1.trace + Events(Data, PixelChunks(d.vm))[..k]
            && NoFail(d.bus.fails, n + 14, n + 14 + k - 1) && n + 14 + k - 1 in d.bus.fails)
  {
    var n := |d.bus.trace|;
    SetAddrWindowSpec(d.bus, d.orientation, 0, 0, WIDTH - 1, HEIGHT - 1);
    var (b1, r1) := SetAddrWindow(d.bus, d.orientation, 0, 0, WIDTH - 1, HEIGHT - 1);
    FlattenPixelChunks(d.vm);
    NoFailSplit(d.bus.fails, n, n + 14, n + 14 + PIXELS);
    if r1 == 0 {
      PixelsAfterWindow(d.bus, b1, d.orientation, d.vm);
    }
    SlowWindowFailure(d);
    SlowPixelFailure(d);
  }

  /** A failed window ends the slow path with the window's error, before any pixel data. */
  lemma SlowWindowFailure(d: Dev)
    requires Good(d)
    ensures var (d', r) := Slow(d);
      var (b1, r1) := SetAddrWindow(d.bus, d.orientation, 0, 0, WIDTH - 1, HEIGHT - 1);
      r1 != 0 ==> r == r1 && d'.bus == b1 && OnlyCommandsAfter(d.bus, d'.bus)
  {
    SetAddrWindowSpec(d.bus, d.orientation, 0, 0, WIDTH - 1, HEIGHT - 1);
  }

  /** Once the window is set, a failure at the k-th pixel leaves the first k pixel writes
      sent, with only the last of them failing. */
  lemma SlowPixelFailure(d: Dev)
    requires Good(d)
    ensures var (d', r) := Slow(d);
      var n := |d.bus.trace|;
      var (b1, r1) := SetAddrWindow(d.bus, d.orientation, 0, 0, WIDTH - 1, HEIGHT - 1);
      var k := |d'.bus.trace| - (n + 14);
      r1 == 0 && r != 0 ==>
        && 1 <= k <= PIXELS
        && d'.bus.trace == b1.trace + Events(Data, PixelChunks(d.vm))[..k]
        && NoFail(d.bus.fails, n + 14, n + 14 + k - 1) && n + 14 + k - 1 in d.bus.fails
  {
    SetAddrWindowSpec(d.bus, d.orientation, 0, 0, WIDTH - 1, HEIGHT - 1);
    var (b1, r1) := SetAddrWindow(d.bus, d.orientation, 0, 0, WIDTH - 1, HEIGHT - 1);
    if r1 == 0 {
      PixelFailureAfterWindow(d.bus, b1, d.vm);
    }
  }

  /** The pixel run after a fourteen-write window, when it fails. */
  lemma PixelFailureAfterWindow(b: Bus, b1: Bus, vm: seq<u16>)
    requires IsFrame(vm) && b1.fails == b.fails && |b1.trace| == |b.trace| + 14
    ensures var (b2, r2) := SendEach(b1, Data, PixelChunks(vm));
      var n, k := |b.trace|, |b2.trace| - (|b.trace| + 14);
      r2 != 0 ==>
        && 1 <= k <= PIXELS
        && b2.trace == b1.trace + Events(Data, PixelChunks(vm))[..k]
        && NoFail(b.fails, n + 14, n + 14 + k - 1) && n + 14 + k - 1 in b.fails
  {
    SendEachSpec(b1, Data, PixelChunks(vm));
  }

  /** Once the whole-frame window is programmed, the per-pixel writes go out in order and
      succeed exactly when none of them fails. */
  lemma PixelsAfterWindow(b: Bus, b1: Bus, o: int, vm: seq<u16>)
    requires 0 <= o < 4 && IsFrame(vm)
    requires b1.fails == b.fails
    requires b1.trace == b.trace + RegEvents(WindowProgram(o, 0, 0, WIDTH - 1, HEIGHT - 1))
    ensures var (b2, r2) := SendEach(b1, Data, PixelChunks(vm));
      var n := |b.trace|;
      && IsBusCode(r2)
      && (r2 == 0 <==> NoFail(b.fails, n + 14, n + 14 + PIXELS))
      && (r2 == 0 ==> b2.trace == b1.trace + Events(Data, PixelChunks(vm)))
  {
    SendEachSpec(b1, Data, PixelChunks(vm));
    assert Events(Data, PixelChunks(vm))[..PIXELS] == Events(Data, PixelChunks(vm));
  }

  /** The one-write frame transfer of ls020_update_display; the shadow takes a copy of the
      frame when diffing is enabled, whatever the write returned. */
  function SendFrame(d: Dev): (Dev, int) {
    var (b, r) := Write(d.bus, Data, Bytes(d.vm));
    (d.(bus := b, shadow := if d.shadow.Some? && d.partialUpdate then Some(d.vm) else d.shadow), r)
  }

  /** The full-frame path of ls020_update_display: with no buffer to be had it falls back to
      the slow path; otherwise it sends the fixed window unless it is known to be set, then
      the frame. */
  function Full(d: Dev, allocOk: bool): (Dev, int)
    requires Good(d)
  {
    if !d.hasSpiBuffer && !allocOk then Slow(d) else Buffered(d)
  }

  /** The full-frame path once a transfer buffer is had: the fixed window unless it is known
      to be set, giving up if that write fails, then the frame. */
  function Buffered(d: Dev): (Dev, int) {
    if d.windowSet then SendFrame(d)
    else
      var (b1, r) := Write(d.bus, Cmd, SETUP_CMDS);
      if r != 0 then (d.(bus := b1), r) else SendFrame(d.(bus := b1, windowSet := true))
  }

  /** The window cache: the fixed window goes out only when it is not known to be set, and the
      flag is set only when that write succeeds; a frame transfer follows unless it failed.
      With diffing enabled the shadow then equals the frame. */
  lemma FullSpec(d: Dev, allocOk: bool)
    requires Good(d) && (d.hasSpiBuffer || allocOk)
    ensures var (d', r) := Full(d, allocOk);
      var n := |d.bus.trace|;
      var setup := if d.windowSet then [] else [Event(Cmd, SETUP_CMDS)];
      && Good(d') && d'.vm == d.vm && d'.box == d.box && d'.pending == d.pending
      && d'.bus.fails == d.bus.fails
      && (!d.windowSet && n in d.bus.fails ==>
            d' == d.(bus := d'.bus) && d'.bus.trace == d.bus.trace + setup && r == EIO)
      && (d.windowSet || n !in d.bus.fails ==>
            && d'.windowSet
            && d'.bus.trace == d.bus.trace + setup + [Event(Data, Bytes(d.vm))]
            && (r == 0 <==> n + |setup| !in d.bus.fails)
            && (d.shadow.Some? && d.partialUpdate ==> d'.shadow == Some(d.vm)))
  {
  }

  /** Two full updates in a row with a working bus send the fixed window at most once. */
  lemma TwoFullUpdatesSetWindowOnce(d: Dev, a1: bool, a2: bool)
    requires Good(d) && (d.hasSpiBuffer || (a1 && a2))
    requires NoFail(d.bus.fails, |d.bus.trace|, |d.bus.trace| + 3)
    ensures var (d1, r1) := Full(d, a1);
      var (d2, r2) := Full(d1, a2);
      && r1 == 0 && r2 == 0 && d2.windowSet
      && d2.bus.trace == d.bus.trace + (if d.windowSet then [] else [Event(Cmd, SETUP_CMDS)])
                         + [Event(Data, Bytes(d.vm)), Event(Data, Bytes(d.vm))]
  {
    FullSpec(d, a1);
    var (d1, r1) := Full(d, a1);
    FullSpec(d1, a2);
  }

  // ---------------------------------------------------------------------
  // The update entry point

  /** ls020_update_display: with diffing enabled, return at once when nothing changed; with a
      box pending, take the partial path; otherwise send the whole frame. */
  function Update(d: Dev, allocOk: bool): (Dev, int)
    requires Good(d)
  {
    if d.partialUpdate && d.shadow.Some? then
      var (d1, found) := Detect(d);
      if !found then (d1, 0)
      else if d1.pending then Partial(d1, allocOk)
      else Full(d1, allocOk)
    else if d.partialUpdate && d.pending then Partial(d, allocOk)
    else Full(d, allocOk)
  }

  /** Every update keeps the invariant. */
  lemma UpdateGood(d: Dev, allocOk: bool)
    requires Good(d)
    ensures Good(Update(d, allocOk).0)
  {
    DetectSpec(d);
    if d.partialUpdate && d.shadow.Some? {
      var (d1, found) := Detect(d);
      if found && d1.pending {
        if d1.hasSpiBuffer || allocOk {
          PartialOutcome(d1, allocOk);
        }
      } else if found && (d1.hasSpiBuffer || allocOk) {
        FullSpec(d1, allocOk);
      }
    } else if d.partialUpdate && d.pending {
      if d.hasSpiBuffer || allocOk {
        PartialOutcome(d, allocOk);
      }
    } else if d.hasSpiBuffer || allocOk {
      FullSpec(d, allocOk);
    }
  }

  /** With diffing enabled, an unchanged frame costs nothing: the update returns 0 and sends
      no bus event at all. */
  lemma UpdateUnchangedIsSilent(d: Dev, allocOk: bool)
    requires Good(d) && d.partialUpdate && d.shadow == Some(d.vm)
    ensures var (d', r) := Update(d, allocOk);
      r == 0 && d'.bus == d.bus && !d'.pending && d'.shadow == Some(d.vm)
  {
    ScanIdentical(d.vm, d.box);
  }

  /** With diffing enabled, after any update, whatever the bus did, the shadow equals the
      frame: every differing pixel was copied during the scan. */
  lemma UpdateSyncsShadow(d: Dev, allocOk: bool)
    requires Good(d) && d.partialUpdate && d.shadow.Some?
    ensures Update(d, allocOk).0.shadow == Some(d.vm)
  {
    DetectSpec(d);
    var (d1, found) := Detect(d);
    if found && d1.pending && (d1.hasSpiBuffer || allocOk) {
      PartialOutcome(d1, allocOk);
    }
  }

  /** With diffing enabled a changed frame always takes the partial path: the scan leaves the
      box pending, so the full path of ls020_update_display is reached only with diffing off
      or when there is no shadow copy. */
  lemma UpdateWithDiffingIsPartial(d: Dev, allocOk: bool)
    requires Good(d) && d.partialUpdate && d.shadow.Some?
    ensures var (d1, found) := Detect(d);
      found ==> d1.pending && Update(d, allocOk) == Partial(d1, allocOk)
  {
    DetectSpec(d);
    var (d1, found) := Detect(d);
    if found {
      assert Update(d, allocOk) == Partial(d1, allocOk);
    }
  }

  /** A partial update that programs its window forgets the cached full-frame window, so the
      next full update sends the fixed window again. */
  lemma PartialThenFullResendsWindow(d: Dev, allocOk: bool, allocOk2: bool)
    requires Good(d) && d.pending && (d.hasSpiBuffer || allocOk) && (d.hasSpiBuffer || allocOk2)
    requires var box := Collapse(d.box).0;
      SetAddrWindow(d.bus, d.orientation, box.xMin, box.yMin, box.xMax, box.yMax).1 == 0
    ensures var (d1, _) := Partial(d, allocOk);
      Good(d1) && Full(d1, allocOk2).0.bus.trace[|d1.bus.trace|] == Event(Cmd, SETUP_CMDS)
  {
    PartialOutcome(d, allocOk);
    var (d1, _) := Partial(d, allocOk);
    FullSpec(d1, allocOk2);
  }

  // ---------------------------------------------------------------------
  // Rectangle fill (ls020_fillrect)

  /** n pixels of one colour. */
  function Solid(c: u16, n: nat): (ps: seq<u16>)
    ensures |ps| == n && forall i :: 0 <= i < n ==> ps[i] == c
  {
    seq(n, _ => c)
  }

  /** Every write is attempted and none of their results is looked at. */
  function SendAll(b: Bus, mode: Mode, chunks: seq<seq<u8>>): (b': Bus) {
    Bus(b.trace + Events(mode, chunks), b.fails)
  }

  /** A rectangle that lies inside the frame, as the fbdev core hands it to fillrect. */
  predicate FrameRect(x: int, y: int, w: int, h: int) {
    0 <= x && 0 <= y && 1 <= w && 1 <= h && x + w <= WIDTH && y + h <= HEIGHT
  }

  /** ls020_fillrect; allocOk is the outcome of the kmalloc of the one-write buffer. */
  function FillRect(d: Dev, x: int, y: int, w: int, h: int, color: u16, allocOk: bool): Dev
    requires Good(d) && FrameRect(x, y, w, h)
  {
    var d1 := Mark(d, x, y, w, h).(windowSet := false);
    var (b1, r) := SetAddrWindow(d1.bus, d1.orientation, x, y, x + w - 1, y + h - 1);
    if r != 0 then d1.(bus := b1)
    else
      var painted := if d1.shadow.Some? then Some(Paint(d1.shadow.value, x, y, w, h, color)) else None;
      d1.(bus := FillData(b1, w * h, color, allocOk), shadow := painted)
  }

  /** The data writes of a fill of n pixels: one write of the whole buffer when n > 64 and
      the buffer could be allocated, else one write per pixel; no result is looked at. */
  function FillData(b: Bus, n: nat, color: u16, allocOk: bool): Bus {
    if n > 64 && allocOk then Write(b, Data, Bytes(Solid(color, n))).0
    else SendAll(b, Data, PixelChunks(Solid(color, n)))
  }

  /** One more pixel of the per-pixel fill appends one two-byte data event. */
  lemma SolidEventsSnoc(color: u16, k: nat)
    ensures Events(Data, PixelChunks(Solid(color, k + 1))) ==
      Events(Data, PixelChunks(Solid(color, k))) + [Event(Data, Split16(color))]
  {
  }

  /** t is s with the pixels of the w-by-h rectangle at (x, y) that come before (cx, cy) in
      row-major order set to c: a fill loop part way through. */
  ghost predicate PaintedBefore(s: seq<u16>, t: seq<u16>, x: int, y: int, w: int, h: int, c: u16, cx: int, cy: int) {
    && IsFrame(s) && IsFrame(t)
    && forall px, py :: InFrame(px, py) ==>
         t[Off(px, py)] == if InRect(px, py, x, y, w, h) && Before(px, py, cx, cy) then c else s[Off(px, py)]
  }

  /** Before the first pixel of the rectangle nothing is painted. */
  lemma PaintedStart(s: seq<u16>, x: int, y: int, w: int, h: int, c: u16)
    requires IsFrame(s)
    ensures PaintedBefore(s, s, x, y, w, h, c, x, y)
  {
    forall px, py | InFrame(px, py) && InRect(px, py, x, y, w, h)
      ensures !Before(px, py, x, y)
    {
    }
  }

  /** Painting pixel (px, py) of the rectangle moves the loop one pixel along its row. */
  lemma PaintedStep(s: seq<u16>, t: seq<u16>, x: int, y: int, w: int, h: int, c: u16, px: int, py: int)
    requires InFrame(px, py) && InRect(px, py, x, y, w, h)
    requires PaintedBefore(s, t, x, y, w, h, c, px, py)
    ensures PaintedBefore(s, t[Off(px, py) := c], x, y, w, h, c, px + 1, py)
  {
    var t' := t[Off(px, py) := c];
    forall qx, qy | InFrame(qx, qy)
      ensures t'[Off(qx, qy)] == if InRect(qx, qy, x, y, w, h) && Before(qx, qy, px + 1, py) then c else s[Off(qx, qy)]
    {
      if Off(qx, qy) == Off(px, py) {
        OffInjective(qx, qy, px, py);
      }
    }
  }

  /** The end of row cy of the rectangle is the start of row cy + 1. */
  lemma PaintedRow(s: seq<u16>, t: seq<u16>, x: int, y: int, w: int, h: int, c: u16, cy: int)
    requires PaintedBefore(s, t, x, y, w, h, c, x + w, cy)
    ensures PaintedBefore(s, t, x, y, w, h, c, x, cy + 1)
  {
    forall px, py | InFrame(px, py) && InRect(px, py, x, y, w, h)
      ensures Before(px, py, x + w, cy) == Before(px, py, x, cy + 1)
    {
    }
  }

  /** Past the last row every pixel of the rectangle is painted: the frame is Paint's. */
  lemma PaintedEnd(s: seq<u16>, t: seq<u16>, x: int, y: int, w: int, h: int, c: u16)
    requires PaintedBefore(s, t, x, y, w, h, c, x, y + h)
    ensures t == Paint(s, x, y, w, h, c)
  {
    forall px, py | InFrame(px, py)
      ensures t[Off(px, py)] == if InRect(px, py, x, y, w, h) then c else s[Off(px, py)]
    {
      if InRect(px, py, x, y, w, h) {
        assert Before(px, py, x, y + h);
      }
    }
    PaintByPixels(s, t, x, y, w, h, c);
  }

  /** The bytes of a run of events, end to end. */
  function Payload(es: seq<Event>): seq<u8>
    decreases |es|
  {
    if es == [] then [] else Payload(es[..|es| - 1]) + es[|es| - 1].bytes
  }

  lemma {:induction false} PayloadOfEvents(mode: Mode, cs: seq<seq<u8>>)
    ensures Payload(Events(mode, cs)) == Flatten(cs)
    decreases |cs|
  {
    if cs != [] {
      PayloadOfEvents(mode, cs[..|cs| - 1]);
      assert Events(mode, cs)[..|cs| - 1] == Events(mode, cs[..|cs| - 1]);
    }
  }

  /** A fill marks the rectangle dirty, forgets the cached window and never touches the
      frame; when programming its window fails it stops there, and otherwise it paints the
      rectangle into the shadow. */
  lemma FillRectState(d: Dev, x: int, y: int, w: int, h: int, color: u16, allocOk: bool)
    requires Good(d) && FrameRect(x, y, w, h)
    ensures var d' := FillRect(d, x, y, w, h, color, allocOk);
      var (bw, rw) := SetAddrWindow(d.bus, d.orientation, x, y, x + w - 1, y + h - 1);
      && Good(d')
      && d'.vm == d.vm && !d'.windowSet
      && d'.box == Mark(d, x, y, w, h).box && d'.pending == Mark(d, x, y, w, h).pending
      && d'.bus.fails == d.bus.fails
      && |bw.trace| <= |d'.bus.trace| && d'.bus.trace[..|bw.trace|] == bw.trace
      && (rw != 0 ==> d'.bus == bw && d'.shadow == d.shadow)
      && (rw == 0 && d.shadow.Some? ==> d'.shadow == Some(Paint(d.shadow.value, x, y, w, h, color)))
  {
    var d1 := Mark(d, x, y, w, h).(windowSet := false);
    var (bw, rw) := SetAddrWindow(d.bus, d.orientation, x, y, x + w - 1, y + h - 1);
    SetAddrWindowSpec(d.bus, d.orientation, x, y, x + w - 1, y + h - 1);
    var d' := FillRect(d, x, y, w, h, color, allocOk);
    if rw != 0 {
      assert d' == d1.(bus := bw);
    } else {
      FillDataSends(bw, w * h, color, allocOk);
      var painted := if d.shadow.Some? then Some(Paint(d.shadow.value, x, y, w, h, color)) else None;
      assert d' == d1.(bus := FillData(bw, w * h, color, allocOk), shadow := painted);
    }
  }

  /** Once its window is programmed a fill sends w * h pixels of the colour as data, in one
      write or one per pixel: the same bytes either way. */
  lemma FillRectSends(d: Dev, x: int, y: int, w: int, h: int, color: u16, allocOk: bool)
    requires Good(d) && FrameRect(x, y, w, h)
    requires SetAddrWindow(d.bus, d.orientation, x, y, x + w - 1, y + h - 1).1 == 0
    ensures var d' := FillRect(d, x, y, w, h, color, allocOk);
      var bw := SetAddrWindow(d.bus, d.orientation, x, y, x + w - 1, y + h - 1).0;
      && |bw.trace| <= |d'.bus.trace|
      && (forall i :: |bw.trace| <= i < |d'.bus.trace| ==> d'.bus.trace[i].mode == Data)
      && Payload(d'.bus.trace[|bw.trace|..]) == Bytes(Solid(color, w * h))
  {
    var bw := SetAddrWindow(d.bus, d.orientation, x, y, x + w - 1, y + h - 1).0;
    FillDataSends(bw, w * h, color, allocOk);
  }

  /** The data writes of a fill carry the n pixels of the colour, whichever way they go. */
  lemma FillDataSends(b: Bus, n: nat, color: u16, allocOk: bool)
    ensures var b' := FillData(b, n, color, allocOk);
      && b'.fails == b.fails
      && |b.trace| <= |b'.trace| && b'.trace[..|b.trace|] == b.trace
      && (forall i :: |b.trace| <= i < |b'.trace| ==> b'.trace[i].mode == Data)
      && Payload(b'.trace[|b.trace|..]) == Bytes(Solid(color, n))
  {
    var sent := FillData(b, n, color, allocOk).trace[|b.trace|..];
    if n > 64 && allocOk {
      assert sent == [Event(Data, Bytes(Solid(color, n)))];
      assert sent[..0] == [];
    } else {
      assert sent == Events(Data, PixelChunks(Solid(color, n)));
      PayloadOfEvents(Data, PixelChunks(Solid(color, n)));
      FlattenPixelChunks(Solid(color, n));
    }
  }
}
