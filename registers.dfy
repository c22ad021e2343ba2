/** Register-level tables of the LS020 controller: the addressing window per
    orientation, the scan-direction pair per orientation, the fixed command
    streams, and the refresh-rate bound. */
module Registers {
  import opened Frame
  import opened Wire

  /** The truncation of a computed register value at ls020_write_reg's `u8 val` parameter. */
  function U8(v: int): u8 {
    v % 256
  }

  // ---------------------------------------------------------------------
  // Addressing window (ls020_set_addr_window)

  /** The six register writes that program the window for logical rectangle
      (x0, y0)-(x1, y1) under orientation o, in the order they are sent.
      0x08/0x09 bound one controller axis, 0x0A/0x0B the other, and 0x06/0x07
      place the cursor at the window's start corner. */
  function WindowRegs(o: int, x0: u8, y0: u8, x1: u8, y1: u8): (r: seq<Reg>)
    requires 0 <= o < 4
    ensures |r| == 6
    ensures r[0].addr == 0x08 && r[1].addr == 0x09 && r[2].addr == 0x0A
    ensures r[3].addr == 0x0B && r[4].addr == 0x06 && r[5].addr == 0x07
    // the cursor starts where both axis ranges start
    ensures r[4].val == r[0].val && r[5].val == r[2].val
    // orientation 1 is the identity
    ensures o == 1 ==> r[0].val == x0 && r[1].val == x1 && r[2].val == y0 && r[3].val == y1
  {
    var xm0, xm1 := U8((WIDTH - 1) - x0), U8((WIDTH - 1) - x1);
    if o == 0 then
      [Reg(0x08, y0), Reg(0x09, y1), Reg(0x0A, xm0), Reg(0x0B, xm1), Reg(0x06, y0), Reg(0x07, xm0)]
    else if o == 1 then
      [Reg(0x08, x0), Reg(0x09, x1), Reg(0x0A, y0), Reg(0x0B, y1), Reg(0x06, x0), Reg(0x07, y0)]
    else if o == 2 then
      var ym0, ym1 := U8((HEIGHT - 1) - y0), U8((HEIGHT - 1) - y1);
      [Reg(0x08, ym0), Reg(0x09, ym1), Reg(0x0A, x0), Reg(0x0B, x1), Reg(0x06, ym0), Reg(0x07, x0)]
    else
      var a0, a1 := U8((HEIGHT - 1) - x0), U8((HEIGHT - 1) - x1);
      var b0, b1 := U8((WIDTH - 1) - y0), U8((WIDTH - 1) - y1);
      [Reg(0x08, a0), Reg(0x09, a1), Reg(0x0A, b0), Reg(0x0B, b1), Reg(0x06, a0), Reg(0x07, b0)]
  }

  /** The logical rectangle (x0, y0, x1, y1) that the window registers 0x08..0x0B designate
      under orientation o: the inverse of WindowRegs. */
  function WindowRect(o: int, r: seq<Reg>): (u8, u8, u8, u8)
    requires 0 <= o < 4 && |r| >= 4
  {
    if o == 0 then
      (U8((WIDTH - 1) - r[2].val), r[0].val, U8((WIDTH - 1) - r[3].val), r[1].val)
    else if o == 1 then
      (r[0].val, r[2].val, r[1].val, r[3].val)
    else if o == 2 then
      (r[2].val, U8((HEIGHT - 1) - r[0].val), r[3].val, U8((HEIGHT - 1) - r[1].val))
    else
      (U8((HEIGHT - 1) - r[0].val), U8((WIDTH - 1) - r[2].val), U8((HEIGHT - 1) - r[1].val), U8((WIDTH - 1) - r[3].val))
  }

  /** Mirroring a byte about c, modulo 256, undoes itself. */
  lemma MirrorTwice(c: int, v: u8)
    ensures U8(c - U8(c - v)) == v
  {
    var m := U8(c - v);
    assert (c - v) - m == 256 * ((c - v) / 256);
    assert c - m == v + 256 * ((c - v) / 256);
  }

  /** Every orientation's window mapping can be undone: reading the rectangle back from
      the registers gives the rectangle that was programmed. */
  lemma WindowRoundTrip(o: int, x0: u8, y0: u8, x1: u8, y1: u8)
    requires 0 <= o < 4
    ensures WindowRect(o, WindowRegs(o, x0, y0, x1, y1)) == (x0, y0, x1, y1)
  {
    if o == 0 {
      MirrorTwice(WIDTH - 1, x0);
      MirrorTwice(WIDTH - 1, x1);
    } else if o == 2 {
      MirrorTwice(HEIGHT - 1, y0);
      MirrorTwice(HEIGHT - 1, y1);
    } else if o == 3 {
      RoundTrip3(x0, y0, x1, y1);
    }
  }

  /** Orientation 3 mirrors both axes and swaps them. */
  lemma RoundTrip3(x0: u8, y0: u8, x1: u8, y1: u8)
    ensures WindowRect(3, WindowRegs(3, x0, y0, x1, y1)) == (x0, y0, x1, y1)
  {
    MirrorTwice(HEIGHT - 1, x0);
    MirrorTwice(HEIGHT - 1, x1);
    MirrorTwice(WIDTH - 1, y0);
    MirrorTwice(WIDTH - 1, y1);
  }

  /** Two different rectangles never program the same window in one orientation. */
  lemma WindowInjective(o: int, x0: u8, y0: u8, x1: u8, y1: u8, x0': u8, y0': u8, x1': u8, y1': u8)
    requires 0 <= o < 4
    requires WindowRegs(o, x0, y0, x1, y1) == WindowRegs(o, x0', y0', x1', y1')
    ensures x0 == x0' && y0 == y0' && x1 == x1' && y1 == y1'
  {
    WindowRoundTrip(o, x0, y0, x1, y1);
    WindowRoundTrip(o, x0', y0', x1', y1');
  }

  /** In orientation 3 the first axis is computed as (HEIGHT - 1) - x, which leaves the
      byte range once x passes HEIGHT - 1 and is truncated. */
  lemma Orientation3Wraps()
    ensures WindowRegs(3, 132, 0, 175, 0)[0].val == 255
    ensures WindowRegs(3, 132, 0, 175, 0)[1].val == 212
  {
  }

  // ---------------------------------------------------------------------
  // Rotation (ls020_set_rotation)

  /** The stored orientation: `rotation & 3`, which on a byte is `rotation % 4`. */
  function Orientation(rotation: u8): int {
    rotation % 4
  }

  /** The scan-direction values for registers 0x01 and 0x05 in each orientation. */
  function ScanDirection(o: int): (u8, u8)
    requires 0 <= o < 4
  {
    if o == 1 then (0x00, 0x00)
    else if o == 2 then (0x80, 0x04)
    else if o == 3 then (0xC0, 0x00)
    else (0x40, 0x04)
  }

  /** Each orientation has its own scan direction. */
  lemma ScanDirectionDistinct(o1: int, o2: int)
    requires 0 <= o1 < 4 && 0 <= o2 < 4 && o1 != o2
    ensures ScanDirection(o1) != ScanDirection(o2)
  {
  }

  /** The three register writes of ls020_set_rotation, in order. */
  function RotationRegs(o: int): (r: seq<Reg>)
    requires 0 <= o < 4
    ensures |r| == 3 && r[0] == Reg(0xEF, 0x90)
    ensures (r[1].addr, r[2].addr) == (0x01, 0x05)
    ensures (r[1].val, r[2].val) == ScanDirection(o)
  {
    [Reg(0xEF, 0x90), Reg(0x01, ScanDirection(o).0), Reg(0x05, ScanDirection(o).1)]
  }

  // ---------------------------------------------------------------------
  // Fixed command streams

  /** The bytes of a run of register writes, register then value. */
  function RegBytes(regs: seq<Reg>): (bs: seq<u8>)
    decreases |regs|
    ensures |bs| == 2 * |regs|
    ensures forall i :: 0 <= i < |regs| ==> bs[2 * i] == regs[i].addr && bs[2 * i + 1] == regs[i].val
  {
    if regs == [] then [] else [regs[0].addr, regs[0].val] + RegBytes(regs[1..])
  }

  /** The full-frame window the fast full update sends in one command write. */
  const SETUP_CMDS: seq<u8> :=
    [0xEF, 0x90, 0x08, 0x00, 0x09, 0x83, 0x0A, 0xAF, 0x0B, 0x00, 0x06, 0x00, 0x07, 0xAF]

  const INIT_ARRAY_0: seq<u8> :=
    [0xEF, 0x00, 0xEE, 0x04, 0x1B, 0x04, 0xFE, 0xFE,
     0xFE, 0xFE, 0xEF, 0x90, 0x4A, 0x04, 0x7F, 0x3F,
     0xEE, 0x04, 0x43, 0x06]

  const INIT_ARRAY_1: seq<u8> :=
    [0xEF, 0x90, 0x09, 0x83, 0x08, 0x00, 0x0B, 0xAF,
     0x0A, 0x00, 0x05, 0x00, 0x06, 0x00, 0x07, 0x00,
     0xEF, 0x00, 0xEE, 0x0C, 0xEF, 0x90, 0x00, 0x80,
     0xEF, 0xB0, 0x49, 0x02, 0xEF, 0x00, 0x7F, 0x01,
     0xE1, 0x81, 0xE2, 0x02, 0xE2, 0x76, 0xE1, 0x83,
     0x80, 0x01, 0xEF, 0x90, 0x00, 0x00]

  /** The fixed setup stream is exactly the bank select followed by the window that
      ls020_set_addr_window programs for the whole frame in orientation 0 ... */
  lemma SetupIsFullWindowOfOrientation0()
    ensures SETUP_CMDS == RegBytes([Reg(0xEF, 0x90)] + WindowRegs(0, 0, 0, WIDTH - 1, HEIGHT - 1))
  {
    var w := WindowRegs(0, 0, 0, WIDTH - 1, HEIGHT - 1);
    assert w == [Reg(0x08, 0x00), Reg(0x09, 0x83), Reg(0x0A, 0xAF), Reg(0x0B, 0x00), Reg(0x06, 0x00), Reg(0x07, 0xAF)];
    assert [Reg(0xEF, 0x90)] + w == [Reg(0xEF, 0x90), Reg(0x08, 0x00), Reg(0x09, 0x83), Reg(0x0A, 0xAF), Reg(0x0B, 0x00), Reg(0x06, 0x00), Reg(0x07, 0xAF)];
  }

  /** ... and differs from the full-frame window of every other orientation. */
  lemma SetupDiffersInOtherOrientations(o: int)
    requires 1 <= o < 4
    ensures SETUP_CMDS != RegBytes([Reg(0xEF, 0x90)] + WindowRegs(o, 0, 0, WIDTH - 1, HEIGHT - 1))
  {
    var regs := [Reg(0xEF, 0x90)] + WindowRegs(o, 0, 0, WIDTH - 1, HEIGHT - 1);
    assert RegBytes(regs)[2 * 2 + 1] == regs[2].val;
  }

  // ---------------------------------------------------------------------
  // Refresh rate

  /** The probe-time bound on the `fps` parameter: out-of-range values fall back to 40. */
  function ClampFps(fps: int): (r: int)
    ensures 1 <= r <= 120
    ensures r == fps <==> 1 <= fps <= 120
    ensures r != fps ==> r == 40
  {
    if fps < 1 || fps > 120 then 40 else fps
  }
}
