/** The drawing helpers of the user-space test program: RGB565 colour packing
    and plotting into a memory-mapped 176x132 frame of 16-bit pixels. Each helper
    works on the frame array in place; its effect is stated as a Paint of the
    frame (module Frame) or as a run of single-pixel plots. */
module TestLcd {
  import opened Frame

  // ---------------------------------------------------------------------
  // Colours

  const COLOR_BLACK: u16 := 0x0000
  const COLOR_RED: u16 := 0xF800
  const COLOR_GREEN: u16 := 0x07E0
  const COLOR_BLUE: u16 := 0x001F
  const COLOR_WHITE: u16 := 0xFFFF
  const COLOR_YELLOW: u16 := 0xFFE0
  const COLOR_CYAN: u16 := 0x07FF
  const COLOR_MAGENTA: u16 := 0xF81F

  /** rgb_to_rgb565: the top five bits of red, six of green and five of blue, packed red
      highest. */
  function Rgb565(r: bv8, g: bv8, b: bv8): (c: bv16)
    ensures c >> 11 == (r >> 3) as bv16
    ensures (c >> 5) & 0x3F == (g >> 2) as bv16
    ensures c & 0x1F == (b >> 3) as bv16
  {
    ((r as bv16 & 0xF8) << 8) | ((g as bv16 & 0xFC) << 3) | (b as bv16 >> 3)
  }

  /** The channel levels a packed colour stands for, each field shifted back to the top of
      its byte; every 16-bit colour is the encoding of the levels it stands for. */
  function Channels(c: bv16): (rgb: (bv8, bv8, bv8))
    ensures Rgb565(rgb.0, rgb.1, rgb.2) == c
  {
    (((c >> 11) << 3) as bv8, (((c >> 5) & 0x3F) << 2) as bv8, ((c & 0x1F) << 3) as bv8)
  }

  /** Packing keeps exactly the top five, six and five bits of the channels. */
  lemma ChannelsOfRgb565(r: bv8, g: bv8, b: bv8)
    ensures Channels(Rgb565(r, g, b)) == (r & 0xF8, g & 0xFC, b & 0xF8)
  {
  }

  /** The named colours are the encodings of the full-intensity channel mixes. */
  lemma NamedColours()
    ensures Rgb565(0, 0, 0) as int == COLOR_BLACK
    ensures Rgb565(0xFF, 0, 0) as int == COLOR_RED
    ensures Rgb565(0, 0xFF, 0) as int == COLOR_GREEN
    ensures Rgb565(0, 0, 0xFF) as int == COLOR_BLUE
    ensures Rgb565(0xFF, 0xFF, 0xFF) as int == COLOR_WHITE
    ensures Rgb565(0xFF, 0xFF, 0) as int == COLOR_YELLOW
    ensures Rgb565(0, 0xFF, 0xFF) as int == COLOR_CYAN
    ensures Rgb565(0xFF, 0, 0xFF) as int == COLOR_MAGENTA
  {
  }

  // ---------------------------------------------------------------------
  // Filling and plotting

  /** fill_screen: every pixel of the frame takes the colour, which is filling the whole
      frame as a rectangle. */
  method FillScreen(fb: array<u16>, color: u16)
    requires fb.Length == PIXELS
    modifies fb
    ensures forall i :: 0 <= i < PIXELS ==> fb[i] == color
    ensures fb[..] == Paint(old(fb[..]), 0, 0, WIDTH, HEIGHT, color)
  {
    for i := 0 to WIDTH * HEIGHT
      invariant forall k :: 0 <= k < i ==> fb[k] == color
    {
      fb[i] := color;
    }
    forall px, py | InFrame(px, py)
      ensures fb[..][Off(px, py)] == color
    {
      OffInRange(px, py);
    }
    PaintByPixels(old(fb[..]), fb[..], 0, 0, WIDTH, HEIGHT, color);
  }

  /** The frame with pixel (x, y) set to c when it lies inside the frame. */
  function Plot(s: seq<u16>, x: int, y: int, c: u16): (t: seq<u16>)
    requires IsFrame(s)
    ensures IsFrame(t)
  {
    if InFrame(x, y) then s[Off(x, y) := c] else s
  }

  /** Plotting a pixel changes that pixel and no other. */
  lemma PlotPixels(s: seq<u16>, x: int, y: int, c: u16)
    requires IsFrame(s)
    ensures forall px, py :: InFrame(px, py) ==>
      Plot(s, x, y, c)[Off(px, py)] == if px == x && py == y then c else s[Off(px, py)]
  {
    forall px, py | InFrame(px, py)
      ensures Plot(s, x, y, c)[Off(px, py)] == if px == x && py == y then c else s[Off(px, py)]
    {
      OffInRange(px, py);
      if InFrame(x, y) && Off(px, py) == Off(x, y) {
        OffInjective(px, py, x, y);
      }
    }
  }

  /** Plotting a pixel is painting the one-pixel rectangle there. */
  lemma PlotIsPaint(s: seq<u16>, x: int, y: int, c: u16)
    requires IsFrame(s)
    ensures Plot(s, x, y, c) == Paint(s, x, y, 1, 1, c)
  {
    PlotPixels(s, x, y, c);
    PaintByPixels(s, Plot(s, x, y, c), x, y, 1, 1, c);
  }

  /** draw_pixel: a pixel inside the frame takes the colour; one outside it is dropped. */
  method DrawPixel(fb: array<u16>, x: int, y: int, color: u16)
    requires fb.Length == PIXELS
    modifies fb
    ensures fb[..] == Plot(old(fb[..]), x, y, color)
  {
    if x >= 0 && x < WIDTH && y >= 0 && y < HEIGHT {
      fb[y * WIDTH + x] := color;
    }
  }

  /** A rectangle that is empty in either direction paints nothing. */
  lemma PaintNothing(s: seq<u16>, x: int, y: int, w: int, h: int, c: u16)
    requires IsFrame(s) && (w <= 0 || h <= 0)
    ensures Paint(s, x, y, w, h, c) == s
  {
    PaintByPixels(s, s, x, y, w, h, c);
  }

  /** Painting pixel i of a row after its first i pixels paints its first i + 1. */
  lemma PaintRowStep(s: seq<u16>, x: int, y: int, i: int, c: u16)
    requires IsFrame(s) && 0 <= i
    ensures Paint(Paint(s, x, y, i, 1, c), x + i, y, 1, 1, c) == Paint(s, x, y, i + 1, 1, c)
  {
    var t := Paint(Paint(s, x, y, i, 1, c), x + i, y, 1, 1, c);
    PaintByPixels(s, t, x, y, i + 1, 1, c);
  }

  /** Painting row j after the first j rows paints the first j + 1. */
  lemma PaintRowsStep(s: seq<u16>, x: int, y: int, w: int, j: int, c: u16)
    requires IsFrame(s) && 0 <= j
    ensures Paint(Paint(s, x, y, w, j, c), x, y + j, w, 1, c) == Paint(s, x, y, w, j + 1, c)
  {
    var t := Paint(Paint(s, x, y, w, j, c), x, y + j, w, 1, c);
    PaintByPixels(s, t, x, y, w, j + 1, c);
  }

  /** fill_rect: the part of the rectangle inside the frame takes the colour and the rest of
      the frame is unchanged; the parts outside the frame are clipped pixel by pixel. */
  method FillRect(fb: array<u16>, x: int, y: int, w: int, h: int, color: u16)
    requires fb.Length == PIXELS
    modifies fb
    ensures fb[..] == Paint(old(fb[..]), x, y, w, h, color)
  {
    ghost var s0 := fb[..];
    PaintNothing(s0, x, y, w, 0, color);
    var j := 0;
    while j < h
      invariant 0 <= j && (j <= h || j == 0)
      invariant fb[..] == Paint(s0, x, y, w, j, color)
    {
      FillRow(fb, x, y + j, w, color);
      PaintRowsStep(s0, x, y, w, j, color);
      j := j + 1;
    }
    if h <= 0 {
      PaintNothing(s0, x, y, w, h, color);
    }
  }

  /** The inner loop of fill_rect: row y of the rectangle, left to right. */
  method FillRow(fb: array<u16>, x: int, y: int, w: int, color: u16)
    requires fb.Length == PIXELS
    modifies fb
    ensures fb[..] == Paint(old(fb[..]), x, y, w, 1, color)
  {
    ghost var s0 := fb[..];
    PaintNothing(s0, x, y, 0, 1, color);
    var i := 0;
    while i < w
      invariant 0 <= i && (i <= w || i == 0)
      invariant fb[..] == Paint(s0, x, y, i, 1, color)
    {
      ghost var before := fb[..];
      DrawPixel(fb, x + i, y, color);
      PlotIsPaint(before, x + i, y, color);
      PaintRowStep(s0, x, y, i, color);
      i := i + 1;
    }
    if w <= 0 {
      PaintNothing(s0, x, y, w, 1, color);
    }
  }

  // ---------------------------------------------------------------------
  // Lines (Bresenham)

  function Abs(v: int): (a: int)
    ensures a >= 0
  {
    if v < 0 then -v else v
  }

  function Min(a: int, b: int): int { if a < b then a else b }
  function Max(a: int, b: int): int { if a < b then b else a }

  /** The step draw_line takes along an axis: +1 toward a larger end, else -1. */
  function Sign(a: int, b: int): int {
    if a < b then 1 else -1
  }

  /** The coordinate k steps from a toward b. */
  function Toward(a: int, b: int, k: int): int {
    if a < b then a + k else a - k
  }

  /** n copies of a added up. Written as repeated addition so that unfolding the error
      term below stays linear; TimesIsProduct ties it to multiplication. */
  function Times(n: nat, a: int): int {
    if n == 0 then 0 else Times(n - 1, a) + a
  }

  lemma {:induction false} TimesIsProduct(n: nat, a: int)
    ensures Times(n, a) == n * a
  {
    if n > 0 {
      TimesIsProduct(n - 1, a);
    }
  }

  /** The error term of draw_line after i steps along x and j along y, (j + 1) * dx -
      (i + 1) * dy: it starts at dx - dy, and each x step subtracts dy and each y step
      adds dx. */
  function Err(dx: int, dy: int, i: nat, j: nat): int {
    Times(j + 1, dx) - Times(i + 1, dy)
  }

  /** The error term draw_line starts from. */
  lemma ErrStart(dx: int, dy: int)
    ensures Err(dx, dy, 0, 0) == dx - dy
  {
    assert Times(0, dx) == 0 && Times(0, dy) == 0;
    assert Times(1, dx) == dx && Times(1, dy) == dy;
  }

  /** A step along x takes dy off the error term; a step along y adds dx. */
  lemma ErrSteps(dx: int, dy: int, i: nat, j: nat)
    ensures Err(dx, dy, i + 1, j) == Err(dx, dy, i, j) - dy
    ensures Err(dx, dy, i, j + 1) == Err(dx, dy, i, j) + dx
  {
  }

  /** From any point short of the end, draw_line steps along at least one axis and never
      past the end of either. */
  lemma StepBounds(dx: int, dy: int, i: int, j: int)
    requires 0 <= i <= dx && 0 <= j <= dy && !(i == dx && j == dy)
    ensures 2 * Err(dx, dy, i, j) > -dy ==> i < dx
    ensures 2 * Err(dx, dy, i, j) < dx ==> j < dy
    ensures 2 * Err(dx, dy, i, j) > -dy || 2 * Err(dx, dy, i, j) < dx
  {
    TimesIsProduct(j + 1, dx);
    TimesIsProduct(i + 1, dy);
    if i == dx {
      // j < dy, so (j + 1) * dx <= dy * dx while (i + 1) * dy == dx * dy + dy
      MulLe(j + 1, dy, dx);
      assert (i + 1) * dy == dx * dy + dy;
      assert dy * dx == dx * dy;
    }
    if j == dy {
      MulLe(i + 1, dx, dy);
      assert (j + 1) * dx == dy * dx + dx;
      assert dx * dy == dy * dx;
    }
  }

  /** Whether draw_line's loop steps along x, from step i with error term err, and whether
      it steps along y, from step j. The tests are the loop's own, e2 > -dy and e2 < dx; the
      bounds i < dx and j < dy never decide anything while err is the error term of (i, j)
      (StepBounds), and they keep the walk below well defined for any err. */
  predicate StepX(dx: int, dy: int, i: int, err: int) {
    2 * err > -dy && i < dx
  }

  predicate StepY(dx: int, dy: int, j: int, err: int) {
    2 * err < dx && j < dy
  }

  /** The pixels draw_line plots, in order, from the point i steps along x and j along y
      with error term err. */
  function Walk(x0: int, y0: int, x1: int, y1: int, i: int, j: int, err: int): (ps: seq<(int, int)>)
    requires 0 <= i <= Abs(x1 - x0) && 0 <= j <= Abs(y1 - y0)
    ensures |ps| >= 1 && ps[0] == (Toward(x0, x1, i), Toward(y0, y1, j))
    decreases Abs(x1 - x0) - i + Abs(y1 - y0) - j
  {
    var dx, dy: int := Abs(x1 - x0), Abs(y1 - y0);
    var p := (Toward(x0, x1, i), Toward(y0, y1, j));
    var mx, my := StepX(dx, dy, i, err), StepY(dx, dy, j, err);
    if (i == dx && j == dy) || !(mx || my) then [p]
    else
      [p] + Walk(x0, y0, x1, y1, if mx then i + 1 else i, if my then j + 1 else j,
                 err - (if mx then dy else 0) + (if my then dx else 0))
  }

  /** The pixels of the line from (x0, y0) to (x1, y1), in the order draw_line plots them. */
  function Line(x0: int, y0: int, x1: int, y1: int): seq<(int, int)> {
    Walk(x0, y0, x1, y1, 0, 0, Abs(x1 - x0) - Abs(y1 - y0))
  }

  /** Consecutive pixels of a line: a different pixel, each coordinate unchanged or one step
      toward the end. */
  predicate Adjacent(p: (int, int), q: (int, int), x0: int, y0: int, x1: int, y1: int) {
    && q != p
    && (q.0 == p.0 || q.0 == p.0 + Sign(x0, x1))
    && (q.1 == p.1 || q.1 == p.1 + Sign(y0, y1))
  }

  /** A walk short of its end whose error term selects a step: its first pixel, then the
      walk from the next step. */
  lemma WalkNext(x0: int, y0: int, x1: int, y1: int, i: int, j: int, err: int, i': int, j': int, err': int)
    requires 0 <= i <= Abs(x1 - x0) && 0 <= j <= Abs(y1 - y0) && !(i == Abs(x1 - x0) && j == Abs(y1 - y0))
    requires StepX(Abs(x1 - x0), Abs(y1 - y0), i, err) || StepY(Abs(x1 - x0), Abs(y1 - y0), j, err)
    requires i' == if StepX(Abs(x1 - x0), Abs(y1 - y0), i, err) then i + 1 else i
    requires j' == if StepY(Abs(x1 - x0), Abs(y1 - y0), j, err) then j + 1 else j
    requires err' == err - (if StepX(Abs(x1 - x0), Abs(y1 - y0), i, err) then Abs(y1 - y0) else 0)
                         + (if StepY(Abs(x1 - x0), Abs(y1 - y0), j, err) then Abs(x1 - x0) else 0)
    ensures 0 <= i' <= Abs(x1 - x0) && 0 <= j' <= Abs(y1 - y0)
    ensures Walk(x0, y0, x1, y1, i, j, err) == [(Toward(x0, x1, i), Toward(y0, y1, j))] + Walk(x0, y0, x1, y1, i', j', err')
  {
  }

  /** A walk whose error term is draw_line's ends at the far end of the line ... */
  lemma {:induction false} WalkEnds(x0: int, y0: int, x1: int, y1: int, i: int, j: int, err: int)
    requires 0 <= i <= Abs(x1 - x0) && 0 <= j <= Abs(y1 - y0)
    requires err == Err(Abs(x1 - x0), Abs(y1 - y0), i, j)
    ensures var ps := Walk(x0, y0, x1, y1, i, j, err); ps[|ps| - 1] == (x1, y1)
    decreases Abs(x1 - x0) - i + Abs(y1 - y0) - j
  {
    var dx, dy: int := Abs(x1 - x0), Abs(y1 - y0);
    var ps := Walk(x0, y0, x1, y1, i, j, err);
    if i == dx && j == dy {
      assert ps == [(x1, y1)];
    } else {
      StepBounds(dx, dy, i, j);
      ErrSteps(dx, dy, i, j);
      ErrSteps(dx, dy, i + 1, j);
      var mx, my := StepX(dx, dy, i, err), StepY(dx, dy, j, err);
      var i', j', err' := if mx then i + 1 else i, if my then j + 1 else j,
                          err - (if mx then dy else 0) + (if my then dx else 0);
      WalkNext(x0, y0, x1, y1, i, j, err, i', j', err');
      WalkEnds(x0, y0, x1, y1, i', j', err');
      var rest := Walk(x0, y0, x1, y1, i', j', err');
      assert ps[|ps| - 1] == rest[|rest| - 1];
    }
  }

  /** Every pixel of a run is adjacent to the next. */
  predicate Connected(ps: seq<(int, int)>, x0: int, y0: int, x1: int, y1: int) {
    forall k :: 0 <= k < |ps| - 1 ==> Adjacent(ps[k], ps[k + 1], x0, y0, x1, y1)
  }

  lemma ConnectedCons(p: (int, int), ps: seq<(int, int)>, x0: int, y0: int, x1: int, y1: int)
    requires ps != [] && Adjacent(p, ps[0], x0, y0, x1, y1) && Connected(ps, x0, y0, x1, y1)
    ensures Connected([p] + ps, x0, y0, x1, y1)
  {
    var qs := [p] + ps;
    forall k | 0 <= k < |qs| - 1
      ensures Adjacent(qs[k], qs[k + 1], x0, y0, x1, y1)
    {
      if k > 0 {
        assert qs[k] == ps[k - 1] && qs[k + 1] == ps[k];
      }
    }
  }

  /** ... moving one pixel at a time toward it ... */
  lemma {:induction false} WalkAdjacent(x0: int, y0: int, x1: int, y1: int, i: int, j: int, err: int)
    requires 0 <= i <= Abs(x1 - x0) && 0 <= j <= Abs(y1 - y0)
    ensures Connected(Walk(x0, y0, x1, y1, i, j, err), x0, y0, x1, y1)
    decreases Abs(x1 - x0) - i + Abs(y1 - y0) - j
  {
    var dx, dy: int := Abs(x1 - x0), Abs(y1 - y0);
    var mx, my := StepX(dx, dy, i, err), StepY(dx, dy, j, err);
    if !((i == dx && j == dy) || !(mx || my)) {
      var i', j', err' := if mx then i + 1 else i, if my then j + 1 else j,
                          err - (if mx then dy else 0) + (if my then dx else 0);
      WalkNext(x0, y0, x1, y1, i, j, err, i', j', err');
      WalkAdjacent(x0, y0, x1, y1, i', j', err');
      var p := (Toward(x0, x1, i), Toward(y0, y1, j));
      var rest := Walk(x0, y0, x1, y1, i', j', err');
      assert Adjacent(p, rest[0], x0, y0, x1, y1);
      ConnectedCons(p, rest, x0, y0, x1, y1);
    }
  }

  /** ... and never leaving the rectangle the two ends span. */
  lemma {:induction false} WalkInBox(x0: int, y0: int, x1: int, y1: int, i: int, j: int, err: int)
    requires 0 <= i <= Abs(x1 - x0) && 0 <= j <= Abs(y1 - y0)
    ensures forall p :: p in Walk(x0, y0, x1, y1, i, j, err) ==>
      Min(x0, x1) <= p.0 <= Max(x0, x1) && Min(y0, y1) <= p.1 <= Max(y0, y1)
    decreases Abs(x1 - x0) - i + Abs(y1 - y0) - j
  {
    var dx, dy: int := Abs(x1 - x0), Abs(y1 - y0);
    var mx, my := StepX(dx, dy, i, err), StepY(dx, dy, j, err);
    if !((i == dx && j == dy) || !(mx || my)) {
      var i', j', err' := if mx then i + 1 else i, if my then j + 1 else j,
                          err - (if mx then dy else 0) + (if my then dx else 0);
      WalkNext(x0, y0, x1, y1, i, j, err, i', j', err');
      WalkInBox(x0, y0, x1, y1, i', j', err');
    }
  }

  /** A line starts at its first end, stops at its second, moves one pixel at a time toward
      it and stays within the rectangle the two ends span. */
  lemma LineShape(x0: int, y0: int, x1: int, y1: int)
    ensures var ps := Line(x0, y0, x1, y1);
      && ps[0] == (x0, y0) && ps[|ps| - 1] == (x1, y1)
      && Connected(ps, x0, y0, x1, y1)
      && (forall p :: p in ps ==> Min(x0, x1) <= p.0 <= Max(x0, x1) && Min(y0, y1) <= p.1 <= Max(y0, y1))
  {
    var err := Abs(x1 - x0) - Abs(y1 - y0);
    ErrStart(Abs(x1 - x0), Abs(y1 - y0));
    WalkEnds(x0, y0, x1, y1, 0, 0, err);
    WalkAdjacent(x0, y0, x1, y1, 0, 0, err);
    WalkInBox(x0, y0, x1, y1, 0, 0, err);
  }

  /** The frame after draw_pixel at each of the points in turn. */
  function PlotAll(s: seq<u16>, ps: seq<(int, int)>, c: u16): (t: seq<u16>)
    requires IsFrame(s)
    ensures IsFrame(t)
    decreases |ps|
  {
    if ps == [] then s else PlotAll(Plot(s, ps[0].0, ps[0].1, c), ps[1..], c)
  }

  /** Plotting a run of points colours exactly the in-frame pixels among them. */
  lemma {:induction false} PlotAllPixels(s: seq<u16>, ps: seq<(int, int)>, c: u16)
    requires IsFrame(s)
    ensures forall px, py :: InFrame(px, py) ==>
      PlotAll(s, ps, c)[Off(px, py)] == if (px, py) in ps then c else s[Off(px, py)]
    decreases |ps|
  {
    if ps != [] {
      PlotAllPixels(Plot(s, ps[0].0, ps[0].1, c), ps[1..], c);
      PlotPixels(s, ps[0].0, ps[0].1, c);
      assert forall p :: p in ps <==> p == ps[0] || p in ps[1..];
    }
  }

  /** Plotting two runs one after the other is plotting them joined. */
  lemma {:induction false} PlotAllAppend(s: seq<u16>, ps: seq<(int, int)>, qs: seq<(int, int)>, c: u16)
    requires IsFrame(s)
    ensures PlotAll(s, ps + qs, c) == PlotAll(PlotAll(s, ps, c), qs, c)
    decreases |ps|
  {
    if ps == [] {
      assert ps + qs == qs;
    } else {
      assert (ps + qs)[1..] == ps[1..] + qs;
      PlotAllAppend(Plot(s, ps[0].0, ps[0].1, c), ps[1..], qs, c);
    }
  }

  /** What draw_line leaves: both ends coloured when they are in the frame, and no pixel
      outside the rectangle the ends span changed. */
  lemma LineEffect(s: seq<u16>, x0: int, y0: int, x1: int, y1: int, c: u16)
    requires IsFrame(s)
    ensures var t := PlotAll(s, Line(x0, y0, x1, y1), c);
      && (InFrame(x0, y0) ==> t[Off(x0, y0)] == c)
      && (InFrame(x1, y1) ==> t[Off(x1, y1)] == c)
      && forall px, py :: InFrame(px, py) && !(Min(x0, x1) <= px <= Max(x0, x1) && Min(y0, y1) <= py <= Max(y0, y1)) ==>
           t[Off(px, py)] == s[Off(px, py)]
  {
    var ps := Line(x0, y0, x1, y1);
    LineShape(x0, y0, x1, y1);
    PlotAllPixels(s, ps, c);
    assert (x0, y0) in ps && (x1, y1) in ps;
  }

  /** One pass of draw_line's loop short of the end: the x and y steps its error term
      selects keep the position and the error term in step with the walk. */
  lemma Advance(x0: int, y0: int, x1: int, y1: int, i: int, j: int, err: int,
                i': int, j': int, x': int, y': int, err': int)
    requires 0 <= i <= Abs(x1 - x0) && 0 <= j <= Abs(y1 - y0) && !(i == Abs(x1 - x0) && j == Abs(y1 - y0))
    requires err == Err(Abs(x1 - x0), Abs(y1 - y0), i, j)
    requires i' == (if 2 * err > -Abs(y1 - y0) then i + 1 else i)
    requires j' == (if 2 * err < Abs(x1 - x0) then j + 1 else j)
    requires x' == Toward(x0, x1, i) + (if 2 * err > -Abs(y1 - y0) then Sign(x0, x1) else 0)
    requires y' == Toward(y0, y1, j) + (if 2 * err < Abs(x1 - x0) then Sign(y0, y1) else 0)
    requires err' == err - (if 2 * err > -Abs(y1 - y0) then Abs(y1 - y0) else 0) + (if 2 * err < Abs(x1 - x0) then Abs(x1 - x0) else 0)
    ensures 0 <= i' <= Abs(x1 - x0) && 0 <= j' <= Abs(y1 - y0) && i + j < i' + j'
    ensures x' == Toward(x0, x1, i') && y' == Toward(y0, y1, j') && err' == Err(Abs(x1 - x0), Abs(y1 - y0), i', j')
    ensures Walk(x0, y0, x1, y1, i, j, err) == [(Toward(x0, x1, i), Toward(y0, y1, j))] + Walk(x0, y0, x1, y1, i', j', err')
  {
    var dx, dy := Abs(x1 - x0), Abs(y1 - y0);
    StepBounds(dx, dy, i, j);
    ErrSteps(dx, dy, i, j);
    ErrSteps(dx, dy, i + 1, j);
    WalkNext(x0, y0, x1, y1, i, j, err, i', j', err');
  }

  /** Plotting a run after its first pixel plotted is plotting the whole run. */
  lemma PlotAllCons(s: seq<u16>, p: (int, int), ps: seq<(int, int)>, c: u16)
    requires IsFrame(s)
    ensures PlotAll(s, [p] + ps, c) == PlotAll(Plot(s, p.0, p.1, c), ps, c)
  {
    assert ([p] + ps)[1..] == ps;
  }

  /** draw_line: Bresenham's walk from (x0, y0) to (x1, y1), plotting every pixel it
      visits. */
  method DrawLine(fb: array<u16>, x0: int, y0: int, x1: int, y1: int, color: u16)
    requires fb.Length == PIXELS
    modifies fb
    ensures fb[..] == PlotAll(old(fb[..]), Line(x0, y0, x1, y1), color)
  {
    var dx: int := Abs(x1 - x0);
    var dy: int := Abs(y1 - y0);
    var sx := if x0 < x1 then 1 else -1;
    var sy := if y0 < y1 then 1 else -1;
    var err := dx - dy;
    var x, y := x0, y0;
    ErrStart(dx, dy);
    ghost var goal := PlotAll(fb[..], Line(x0, y0, x1, y1), color);
    ghost var i, j := 0, 0;
    while true
      invariant 0 <= i <= dx && 0 <= j <= dy
      invariant x == Toward(x0, x1, i) && y == Toward(y0, y1, j) && err == Err(dx, dy, i, j)
      invariant PlotAll(fb[..], Walk(x0, y0, x1, y1, i, j, err), color) == goal
      decreases dx - i + dy - j
    {
      ghost var before := fb[..];
      DrawPixel(fb, x, y, color);
      if x == x1 && y == y1 {
        assert Walk(x0, y0, x1, y1, i, j, err) == [(x, y)];
        PlotAllCons(before, (x, y), [], color);
        break;
      }
      ghost var i0, j0, err0 := i, j, err;
      var e2 := 2 * err;
      if e2 > -dy {
        err := err - dy;
        x := x + sx;
        i := i + 1;
      }
      if e2 < dx {
        err := err + dx;
        y := y + sy;
        j := j + 1;
      }
      Advance(x0, y0, x1, y1, i0, j0, err0, i, j, x, y, err);
      PlotAllCons(before, (Toward(x0, x1, i0), Toward(y0, y1, j0)), Walk(x0, y0, x1, y1, i, j, err), color);
    }
  }

  // ---------------------------------------------------------------------
  // Rectangle outlines

  /** The pixels draw_rect plots: top edge, left edge, right edge, bottom edge. */
  function Outline(x: int, y: int, w: int, h: int): seq<(int, int)> {
    Line(x, y, x + w - 1, y) + Line(x, y, x, y + h - 1)
      + Line(x + w - 1, y, x + w - 1, y + h - 1) + Line(x, y + h - 1, x + w - 1, y + h - 1)
  }

  /** Plotting four runs one after the other is plotting them joined. */
  lemma PlotAll4(s: seq<u16>, a: seq<(int, int)>, b: seq<(int, int)>, d: seq<(int, int)>, e: seq<(int, int)>, c: u16)
    requires IsFrame(s)
    ensures PlotAll(s, a + b + d + e, c) == PlotAll(PlotAll(PlotAll(PlotAll(s, a, c), b, c), d, c), e, c)
  {
    PlotAllAppend(s, a, b, c);
    PlotAllAppend(s, a + b, d, c);
    PlotAllAppend(s, a + b + d, e, c);
  }

  /** draw_rect: the four edges as four lines. */
  method DrawRect(fb: array<u16>, x: int, y: int, w: int, h: int, color: u16)
    requires fb.Length == PIXELS
    modifies fb
    ensures fb[..] == PlotAll(old(fb[..]), Outline(x, y, w, h), color)
  {
    ghost var s0 := fb[..];
    DrawLine(fb, x, y, x + w - 1, y, color);
    ghost var s1 := fb[..];
    assert s1 == PlotAll(s0, Line(x, y, x + w - 1, y), color);
    DrawLine(fb, x, y, x, y + h - 1, color);
    ghost var s2 := fb[..];
    assert s2 == PlotAll(s1, Line(x, y, x, y + h - 1), color);
    DrawLine(fb, x + w - 1, y, x + w - 1, y + h - 1, color);
    ghost var s3 := fb[..];
    assert s3 == PlotAll(s2, Line(x + w - 1, y, x + w - 1, y + h - 1), color);
    DrawLine(fb, x, y + h - 1, x + w - 1, y + h - 1, color);
    OutlineSteps(s0, s1, s2, s3, fb[..], x, y, w, h, color);
  }

  /** The frames after each of draw_rect's four lines end in the outline plotted. */
  lemma OutlineSteps(s0: seq<u16>, s1: seq<u16>, s2: seq<u16>, s3: seq<u16>, s4: seq<u16>,
                     x: int, y: int, w: int, h: int, c: u16)
    requires IsFrame(s0)
    requires s1 == PlotAll(s0, Line(x, y, x + w - 1, y), c)
    requires s2 == PlotAll(s1, Line(x, y, x, y + h - 1), c)
    requires s3 == PlotAll(s2, Line(x + w - 1, y, x + w - 1, y + h - 1), c)
    requires s4 == PlotAll(s3, Line(x, y + h - 1, x + w - 1, y + h - 1), c)
    ensures s4 == PlotAll(s0, Outline(x, y, w, h), c)
  {
    PlotAll4(s0, Line(x, y, x + w - 1, y), Line(x, y, x, y + h - 1),
      Line(x + w - 1, y, x + w - 1, y + h - 1), Line(x, y + h - 1, x + w - 1, y + h - 1), c);
  }

  /** Row y from column a to column b, left to right ... */
  function RowRun(y: int, a: int, b: int): seq<(int, int)>
    decreases b - a
  {
    if a > b then [] else [(a, y)] + RowRun(y, a + 1, b)
  }

  /** ... and column x from row a to row b, top to bottom. */
  function ColumnRun(x: int, a: int, b: int): seq<(int, int)>
    decreases b - a
  {
    if a > b then [] else [(x, a)] + ColumnRun(x, a + 1, b)
  }

  lemma {:induction false} RowRunMembers(y: int, a: int, b: int)
    ensures forall p :: p in RowRun(y, a, b) <==> p.1 == y && a <= p.0 <= b
    decreases b - a
  {
    if a <= b {
      RowRunMembers(y, a + 1, b);
    }
  }

  lemma {:induction false} ColumnRunMembers(x: int, a: int, b: int)
    ensures forall p :: p in ColumnRun(x, a, b) <==> p.0 == x && a <= p.1 <= b
    decreases b - a
  {
    if a <= b {
      ColumnRunMembers(x, a + 1, b);
    }
  }

  /** From any point on, a horizontal walk left to right is the rest of its row ... */
  lemma {:induction false} HorizontalWalk(x0: int, x1: int, y: int, i: int)
    requires x0 <= x1 && 0 <= i <= x1 - x0
    ensures Walk(x0, y, x1, y, i, 0, x1 - x0) == RowRun(y, x0 + i, x1)
    decreases x1 - x0 - i
  {
    if i < x1 - x0 {
      HorizontalWalk(x0, x1, y, i + 1);
    } else {
      assert RowRun(y, x1 + 1, x1) == [];
    }
  }

  /** ... and a vertical walk top to bottom the rest of its column. */
  lemma {:induction false} VerticalWalk(x: int, y0: int, y1: int, j: int)
    requires y0 <= y1 && 0 <= j <= y1 - y0
    ensures Walk(x, y0, x, y1, 0, j, y0 - y1) == ColumnRun(x, y0 + j, y1)
    decreases y1 - y0 - j
  {
    if j < y1 - y0 {
      VerticalWalk(x, y0, y1, j + 1);
    } else {
      assert ColumnRun(x, y1 + 1, y1) == [];
    }
  }

  /** A horizontal line from left to right is the row between its ends ... */
  lemma HorizontalLine(x0: int, x1: int, y: int)
    requires x0 <= x1
    ensures Line(x0, y, x1, y) == RowRun(y, x0, x1)
  {
    assert Abs(x1 - x0) - Abs(y - y) == x1 - x0;
    HorizontalWalk(x0, x1, y, 0);
  }

  /** ... and a vertical line from top to bottom the column between its ends. */
  lemma VerticalLine(x: int, y0: int, y1: int)
    requires y0 <= y1
    ensures Line(x, y0, x, y1) == ColumnRun(x, y0, y1)
  {
    assert Abs(x - x) - Abs(y1 - y0) == y0 - y1;
    VerticalWalk(x, y0, y1, 0);
  }

  /** Pixel (px, py) lies on the edge of the w-by-h rectangle at (x, y). */
  predicate OnBorder(px: int, py: int, x: int, y: int, w: int, h: int) {
    InRect(px, py, x, y, w, h) && (px == x || px == x + w - 1 || py == y || py == y + h - 1)
  }

  /** For a rectangle at least one pixel wide and high, the outline is its top row, left
      column, right column and bottom row. */
  lemma OutlineRuns(x: int, y: int, w: int, h: int)
    requires w >= 1 && h >= 1
    ensures Outline(x, y, w, h)
         == RowRun(y, x, x + w - 1) + ColumnRun(x, y, y + h - 1)
          + ColumnRun(x + w - 1, y, y + h - 1) + RowRun(y + h - 1, x, x + w - 1)
  {
    HorizontalLine(x, x + w - 1, y);
    VerticalLine(x, y, y + h - 1);
    VerticalLine(x + w - 1, y, y + h - 1);
    HorizontalLine(x, x + w - 1, y + h - 1);
  }

  /** Those four runs together are exactly the edge of the rectangle. */
  lemma EdgesAreBorder(x: int, y: int, w: int, h: int)
    requires w >= 1 && h >= 1
    ensures forall px, py ::
      (px, py) in RowRun(y, x, x + w - 1) + ColumnRun(x, y, y + h - 1)
                + ColumnRun(x + w - 1, y, y + h - 1) + RowRun(y + h - 1, x, x + w - 1)
      <==> OnBorder(px, py, x, y, w, h)
  {
    var top, left := RowRun(y, x, x + w - 1), ColumnRun(x, y, y + h - 1);
    var right, bottom := ColumnRun(x + w - 1, y, y + h - 1), RowRun(y + h - 1, x, x + w - 1);
    RowRunMembers(y, x, x + w - 1);
    ColumnRunMembers(x, y, y + h - 1);
    ColumnRunMembers(x + w - 1, y, y + h - 1);
    RowRunMembers(y + h - 1, x, x + w - 1);
    forall px, py
      ensures (px, py) in top + left + right + bottom <==> OnBorder(px, py, x, y, w, h)
    {
      var p := (px, py);
      assert p in top + left + right + bottom <==> p in top || p in left || p in right || p in bottom;
    }
  }

  /** For a rectangle at least one pixel wide and high, the outline is exactly its edge. */
  lemma OutlineIsBorder(x: int, y: int, w: int, h: int)
    requires w >= 1 && h >= 1
    ensures forall px, py :: (px, py) in Outline(x, y, w, h) <==> OnBorder(px, py, x, y, w, h)
  {
    OutlineRuns(x, y, w, h);
    EdgesAreBorder(x, y, w, h);
  }

  /** For a rectangle at least one pixel wide and high, draw_rect colours exactly the
      in-frame pixels of its edge and leaves every other pixel as it was. */
  lemma RectEffect(s: seq<u16>, x: int, y: int, w: int, h: int, c: u16)
    requires IsFrame(s) && w >= 1 && h >= 1
    ensures forall px, py :: InFrame(px, py) ==>
      PlotAll(s, Outline(x, y, w, h), c)[Off(px, py)] == if OnBorder(px, py, x, y, w, h) then c else s[Off(px, py)]
    ensures forall px, py :: InFrame(px, py) && (px == x || px == x + w - 1) && (py == y || py == y + h - 1) ==>
      PlotAll(s, Outline(x, y, w, h), c)[Off(px, py)] == c
  {
    OutlineIsBorder(x, y, w, h);
    PlotAllPixels(s, Outline(x, y, w, h), c);
  }
}
