/** Geometry and pixel storage of the 176x132 RGB565 panel.
    A frame is WIDTH * HEIGHT 16-bit pixels stored row-major; pixel (x, y)
    lives at offset y * WIDTH + x. */
module Frame {

  const WIDTH: int := 176
  const HEIGHT: int := 132
  const PIXELS: int := WIDTH * HEIGHT
  /** Two bytes per pixel on the wire. */
  const FRAME_BYTES: int := PIXELS * 2

  type u8 = x: int | 0 <= x < 0x100
  type u16 = x: int | 0 <= x < 0x1_0000

  predicate InFrame(x: int, y: int) {
    0 <= x < WIDTH && 0 <= y < HEIGHT
  }

  /** Row-major offset of pixel (x, y). */
  function Off(x: int, y: int): int {
    y * WIDTH + x
  }

  /** A frame buffer, shadow copy or drawing surface. */
  predicate IsFrame(s: seq<u16>) {
    |s| == PIXELS
  }

  lemma OffInRange(x: int, y: int)
    requires InFrame(x, y)
    ensures 0 <= Off(x, y) < PIXELS
  {
  }

  /** Distinct in-frame pixels have distinct offsets. */
  lemma OffInjective(x1: int, y1: int, x2: int, y2: int)
    requires InFrame(x1, y1) && InFrame(x2, y2)
    requires Off(x1, y1) == Off(x2, y2)
    ensures x1 == x2 && y1 == y2
  {
  }

  /** Every offset of a frame is the offset of exactly the pixel (k % WIDTH, k / WIDTH). */
  lemma OffCoords(k: int)
    requires 0 <= k < PIXELS
    ensures InFrame(k % WIDTH, k / WIDTH) && Off(k % WIDTH, k / WIDTH) == k
  {
  }

  /** Multiplying by a natural number keeps order. */
  lemma MulLe(a: int, c: int, w: nat)
    requires a <= c
    ensures a * w <= c * w
  {
    assert c * w - a * w == (c - a) * w;
  }

  /** The w-by-h rectangle whose top-left pixel is (x, y). */
  predicate InRect(px: int, py: int, x: int, y: int, w: int, h: int) {
    x <= px < x + w && y <= py < y + h
  }

  /** The frame with every pixel of the w-by-h rectangle at (x, y) that lies inside the
      frame set to c; the parts of the rectangle outside the frame are dropped. */
  function Paint(s: seq<u16>, x: int, y: int, w: int, h: int, c: u16): (r: seq<u16>)
    requires IsFrame(s)
    ensures IsFrame(r)
    ensures forall px, py :: InFrame(px, py) ==> r[Off(px, py)] == if InRect(px, py, x, y, w, h) then c else s[Off(px, py)]
  {
    var r := seq(PIXELS, k requires 0 <= k < PIXELS => if InRect(k % WIDTH, k / WIDTH, x, y, w, h) then c else s[k]);
    assert forall px, py :: InFrame(px, py) ==> Off(px, py) % WIDTH == px && Off(px, py) / WIDTH == py;
    r
  }

  /** A frame that agrees with the painted frame at every pixel is the painted frame. */
  lemma PaintByPixels(s: seq<u16>, t: seq<u16>, x: int, y: int, w: int, h: int, c: u16)
    requires IsFrame(s) && IsFrame(t)
    requires forall px, py :: InFrame(px, py) ==> t[Off(px, py)] == if InRect(px, py, x, y, w, h) then c else s[Off(px, py)]
    ensures t == Paint(s, x, y, w, h, c)
  {
    forall k | 0 <= k < PIXELS
      ensures t[k] == Paint(s, x, y, w, h, c)[k]
    {
      OffCoords(k);
    }
  }
}
