/** The dirty rectangle: four inclusive bounds plus a pending flag, grown by
    explicit marks (ls020_mark_dirty_region) or by diffing the frame against
    a shadow copy (ls020_detect_changes), and collapsed to the whole frame by
    the partial update when it covers more than a quarter of it. */
module DirtyRegion {
  import opened Frame

  /** Inclusive bounds dirty_x_min, dirty_y_min, dirty_x_max, dirty_y_max. */
  datatype Box = Box(xMin: int, yMin: int, xMax: int, yMax: int)

  /** An ordered box inside the frame. */
  predicate BoxOk(b: Box) {
    0 <= b.xMin <= b.xMax < WIDTH && 0 <= b.yMin <= b.yMax < HEIGHT
  }

  const FULL_BOX: Box := Box(0, 0, WIDTH - 1, HEIGHT - 1)

  predicate InBox(b: Box, x: int, y: int) {
    b.xMin <= x <= b.xMax && b.yMin <= y <= b.yMax
  }

  function Min(a: int, b: int): int { if a < b then a else b }
  function Max(a: int, b: int): int { if a < b then b else a }

  // ---------------------------------------------------------------------
  // Explicit marking (ls020_mark_dirty_region)

  /** The min_t clamp of all four bounds to the last column and row. */
  function Clamp(b: Box): Box {
    Box(Min(b.xMin, WIDTH - 1), Min(b.yMin, HEIGHT - 1), Min(b.xMax, WIDTH - 1), Min(b.yMax, HEIGHT - 1))
  }

  /** The smallest box holding both boxes. */
  function Join(a: Box, b: Box): Box {
    Box(Min(a.xMin, b.xMin), Min(a.yMin, b.yMin), Max(a.xMax, b.xMax), Max(a.yMax, b.yMax))
  }

  /** The inclusive bounds of the w-by-h rectangle at (x, y). */
  function RectBox(x: int, y: int, w: int, h: int): Box {
    Box(x, y, x + w - 1, y + h - 1)
  }

  /** A rectangle as the u16 arguments of ls020_mark_dirty_region, nonempty and
      without 16-bit wrap-around of its far edge. */
  predicate MarkArgs(x: int, y: int, w: int, h: int) {
    0 <= x && 0 <= y && 1 <= w && 1 <= h && x + w <= 0x1_0000 && y + h <= 0x1_0000
  }

  /** The new bounds after marking the rectangle: a fresh box when nothing was
      pending, else each bound widened to the rectangle; then clamped. */
  function MarkBox(pending: bool, b: Box, x: int, y: int, w: int, h: int): (r: Box)
    requires MarkArgs(x, y, w, h)
    ensures (!pending || BoxOk(b)) ==> BoxOk(r)
    // every in-frame pixel of the rectangle, and of the old box when pending, is now dirty
    ensures forall px, py :: InFrame(px, py) && InRect(px, py, x, y, w, h) ==> InBox(r, px, py)
    ensures pending ==> forall px, py :: InFrame(px, py) && InBox(b, px, py) ==> InBox(r, px, py)
    // and nothing outside the rectangle and the old box is
    ensures forall px, py :: InBox(r, px, py) && px < WIDTH - 1 && py < HEIGHT - 1 ==>
      InBox(if pending then Join(b, RectBox(x, y, w, h)) else RectBox(x, y, w, h), px, py)
  {
    Clamp(if pending then Join(b, RectBox(x, y, w, h)) else RectBox(x, y, w, h))
  }

  /** The smallest box holding every rectangle of a nonempty list. */
  function Hull(rects: seq<Box>): Box
    requires |rects| > 0
    decreases |rects|
  {
    if |rects| == 1 then rects[0] else Join(Hull(rects[..|rects| - 1]), rects[|rects| - 1])
  }

  /** Marks a list of rectangles in order, starting from the given pending state. */
  function MarkAll(pending: bool, b: Box, rects: seq<Box>): Box
    requires forall i :: 0 <= i < |rects| ==> MarkArgs(rects[i].xMin, rects[i].yMin,
      rects[i].xMax - rects[i].xMin + 1, rects[i].yMax - rects[i].yMin + 1)
    decreases |rects|
  {
    if rects == [] then b
    else
      var last := rects[|rects| - 1];
      var b1 := MarkAll(pending, b, rects[..|rects| - 1]);
      MarkBox(pending || |rects| > 1, b1, last.xMin, last.yMin, last.xMax - last.xMin + 1, last.yMax - last.yMin + 1)
  }

  lemma ClampJoin(a: Box, c: Box)
    ensures Clamp(Join(Clamp(a), c)) == Clamp(Join(a, c))
  {
  }

  /** However many rectangles are marked after the pending flag was clear, the dirty box is
      the clamped hull of them all. */
  lemma {:induction false} MarkAllIsClampedHull(b: Box, rects: seq<Box>)
    requires |rects| > 0
    requires forall i :: 0 <= i < |rects| ==> MarkArgs(rects[i].xMin, rects[i].yMin,
      rects[i].xMax - rects[i].xMin + 1, rects[i].yMax - rects[i].yMin + 1)
    ensures MarkAll(false, b, rects) == Clamp(Hull(rects))
    decreases |rects|
  {
    if |rects| > 1 {
      var init := rects[..|rects| - 1];
      MarkAllIsClampedHull(b, init);
      assert Hull(rects) == Join(Hull(init), rects[|rects| - 1]);
      ClampJoin(Hull(init), rects[|rects| - 1]);
    }
  }

  /** Box c holds box a. */
  predicate Within(a: Box, c: Box) {
    c.xMin <= a.xMin && c.yMin <= a.yMin && a.xMax <= c.xMax && a.yMax <= c.yMax
  }

  /** The hull holds every rectangle of the list. */
  lemma {:induction false} HullHoldsAll(rects: seq<Box>)
    requires |rects| > 0
    ensures forall i :: 0 <= i < |rects| ==> Within(rects[i], Hull(rects))
    decreases |rects|
  {
    if |rects| > 1 {
      var init := rects[..|rects| - 1];
      HullHoldsAll(init);
      assert forall i :: 0 <= i < |init| ==> rects[i] == init[i];
    }
  }

  /** The hull of a list holds the hull of any list of rectangles taken from it. */
  lemma {:induction false} HullMonotone(rs: seq<Box>, ts: seq<Box>)
    requires |rs| > 0 && |ts| > 0
    requires forall i :: 0 <= i < |rs| ==> rs[i] in ts
    ensures Within(Hull(rs), Hull(ts))
    decreases |rs|
  {
    HullHoldsAll(ts);
    var last := rs[|rs| - 1];
    var j :| 0 <= j < |ts| && ts[j] == last;
    assert Within(last, Hull(ts));
    if |rs| > 1 {
      var init := rs[..|rs| - 1];
      assert forall i :: 0 <= i < |init| ==> init[i] == rs[i];
      HullMonotone(init, ts);
    }
  }

  /** Marking the same rectangles in any order, any number of times each, after the pending
      flag was clear, leaves the same dirty box. */
  lemma MarkOrderFree(b: Box, rs: seq<Box>, ts: seq<Box>)
    requires |rs| > 0
    requires forall i :: 0 <= i < |rs| ==> MarkArgs(rs[i].xMin, rs[i].yMin,
      rs[i].xMax - rs[i].xMin + 1, rs[i].yMax - rs[i].yMin + 1)
    requires forall i :: 0 <= i < |ts| ==> MarkArgs(ts[i].xMin, ts[i].yMin,
      ts[i].xMax - ts[i].xMin + 1, ts[i].yMax - ts[i].yMin + 1)
    requires forall r :: r in rs <==> r in ts
    ensures MarkAll(false, b, rs) == MarkAll(false, b, ts)
  {
    assert rs[0] in ts;
    MarkAllIsClampedHull(b, rs);
    MarkAllIsClampedHull(b, ts);
    HullMonotone(rs, ts);
    HullMonotone(ts, rs);
  }

  // ---------------------------------------------------------------------
  // Change detection (ls020_detect_changes)

  /** What the scan has found so far: whether a pixel differed, and the bounds. */
  datatype Scan = Scan(found: bool, box: Box)

  predicate Differs(vm: seq<u16>, sh: seq<u16>, x: int, y: int)
    requires IsFrame(vm) && IsFrame(sh) && InFrame(x, y)
  {
    vm[Off(x, y)] != sh[Off(x, y)]
  }

  /** Copying pixel o of vm over a frame that holds vm before o and sh from o on moves the
      boundary one pixel along. */
  lemma SpliceStep(vm: seq<u16>, sh: seq<u16>, o: int)
    requires |vm| == |sh| && 0 <= o < |vm|
    ensures (vm[..o] + sh[o..])[o := vm[o]] == vm[..o + 1] + sh[o + 1..]
  {
  }

  /** A differing pixel at (x, y): the first one starts the box, later ones widen it. */
  function Visit(a: Scan, x: int, y: int): Scan {
    if !a.found then Scan(true, Box(x, y, x, y))
    else
      var b := a.box;
      Scan(true, Box(if x < b.xMin then x else b.xMin, if y < b.yMin then y else b.yMin,
                     if x > b.xMax then x else b.xMax, if y > b.yMax then y else b.yMax))
  }

  /** The scan state after the first n pixels of row y. */
  function ScanRow(vm: seq<u16>, sh: seq<u16>, y: int, n: int, a: Scan): Scan
    requires IsFrame(vm) && IsFrame(sh) && 0 <= y < HEIGHT && 0 <= n <= WIDTH
    decreases n, a
  {
    if n == 0 then a
    else
      var a1 := ScanRow(vm, sh, y, n - 1, a);
      if Differs(vm, sh, n - 1, y) then Visit(a1, n - 1, y) else a1
  }

  /** The scan state after the first m rows. (Here and in ScanRow the decreases clause also
      names the start state, so that a proof about a whole row or frame, where the count is
      a known number, does not unfold the scan pixel by pixel.) */
  function ScanRows(vm: seq<u16>, sh: seq<u16>, m: int, a: Scan): Scan
    requires IsFrame(vm) && IsFrame(sh) && 0 <= m <= HEIGHT
    decreases m, a
  {
    if m == 0 then a else ScanRow(vm, sh, m - 1, WIDTH, ScanRows(vm, sh, m - 1, a))
  }

  /** The whole-frame scan, starting with nothing found and the old bounds. */
  function ScanFrame(vm: seq<u16>, sh: seq<u16>, init: Box): Scan
    requires IsFrame(vm) && IsFrame(sh)
  {
    ScanRows(vm, sh, HEIGHT, Scan(false, init))
  }

  /** Pixel (x, y) comes before (cx, cy) in row-major order. */
  predicate Before(x: int, y: int, cx: int, cy: int) {
    y < cy || (y == cy && x < cx)
  }

  /** The box holds every differing pixel before (cx, cy), and each of its four bounds is
      the coordinate of one of them. */
  ghost predicate Bounds(vm: seq<u16>, sh: seq<u16>, b: Box, cx: int, cy: int)
    requires IsFrame(vm) && IsFrame(sh)
  {
    && (forall x, y :: InFrame(x, y) && Before(x, y, cx, cy) && Differs(vm, sh, x, y) ==> InBox(b, x, y))
    && (exists x, y :: InFrame(x, y) && Before(x, y, cx, cy) && Differs(vm, sh, x, y) && x == b.xMin)
    && (exists x, y :: InFrame(x, y) && Before(x, y, cx, cy) && Differs(vm, sh, x, y) && x == b.xMax)
    && (exists x, y :: InFrame(x, y) && Before(x, y, cx, cy) && Differs(vm, sh, x, y) && y == b.yMin)
    && (exists x, y :: InFrame(x, y) && Before(x, y, cx, cy) && Differs(vm, sh, x, y) && y == b.yMax)
  }

  /** Scan state a describes exactly the pixels before (cx, cy). */
  ghost predicate Summarises(vm: seq<u16>, sh: seq<u16>, init: Box, a: Scan, cx: int, cy: int)
    requires IsFrame(vm) && IsFrame(sh)
  {
    && (a.found <==> exists x, y :: InFrame(x, y) && Before(x, y, cx, cy) && Differs(vm, sh, x, y))
    && (!a.found ==> a.box == init)
    && (a.found ==> BoxOk(a.box) && Bounds(vm, sh, a.box, cx, cy))
  }

  /** One pixel of the scan keeps the summary: a pixel that does not differ leaves the state
      as it is, one that does is taken into the box. */
  lemma VisitStep(vm: seq<u16>, sh: seq<u16>, init: Box, a: Scan, a': Scan, cx: int, cy: int)
    requires IsFrame(vm) && IsFrame(sh) && InFrame(cx, cy)
    requires Summarises(vm, sh, init, a, cx, cy)
    requires a' == if Differs(vm, sh, cx, cy) then Visit(a, cx, cy) else a
    ensures Summarises(vm, sh, init, a', cx + 1, cy)
  {
    if !Differs(vm, sh, cx, cy) {
      SkipStep(vm, sh, init, a, cx, cy);
    } else if !a.found {
      FirstStep(vm, sh, init, a, cx, cy);
    } else {
      WidenStep(vm, sh, init, a, cx, cy);
    }
  }

  lemma SkipStep(vm: seq<u16>, sh: seq<u16>, init: Box, a: Scan, cx: int, cy: int)
    requires IsFrame(vm) && IsFrame(sh) && InFrame(cx, cy) && !Differs(vm, sh, cx, cy)
    requires Summarises(vm, sh, init, a, cx, cy)
    ensures Summarises(vm, sh, init, a, cx + 1, cy)
  {
    forall x, y | InFrame(x, y) && Before(x, y, cx + 1, cy) && Differs(vm, sh, x, y)
      ensures Before(x, y, cx, cy)
    {
    }
  }

  lemma FirstStep(vm: seq<u16>, sh: seq<u16>, init: Box, a: Scan, cx: int, cy: int)
    requires IsFrame(vm) && IsFrame(sh) && InFrame(cx, cy) && Differs(vm, sh, cx, cy) && !a.found
    requires Summarises(vm, sh, init, a, cx, cy)
    ensures Summarises(vm, sh, init, Visit(a, cx, cy), cx + 1, cy)
  {
    assert Before(cx, cy, cx + 1, cy);
    forall x, y | InFrame(x, y) && Before(x, y, cx + 1, cy) && Differs(vm, sh, x, y)
      ensures x == cx && y == cy
    {
      assert !Before(x, y, cx, cy);
    }
  }

  lemma WidenStep(vm: seq<u16>, sh: seq<u16>, init: Box, a: Scan, cx: int, cy: int)
    requires IsFrame(vm) && IsFrame(sh) && InFrame(cx, cy) && Differs(vm, sh, cx, cy) && a.found
    requires Summarises(vm, sh, init, a, cx, cy)
    ensures Summarises(vm, sh, init, Visit(a, cx, cy), cx + 1, cy)
  {
    assert Before(cx, cy, cx + 1, cy);
    var b, b' := a.box, Visit(a, cx, cy).box;
    forall x, y | InFrame(x, y) && Before(x, y, cx + 1, cy) && Differs(vm, sh, x, y)
      ensures InBox(b', x, y)
    {
      if Before(x, y, cx, cy) {
        assert InBox(b, x, y);
      }
    }
    WidenColumns(vm, sh, b, cx, cy);
    WidenRows(vm, sh, b, cx, cy);
  }

  /** Widening by a differing pixel keeps each column bound the column of a differing pixel. */
  lemma WidenColumns(vm: seq<u16>, sh: seq<u16>, b: Box, cx: int, cy: int)
    requires IsFrame(vm) && IsFrame(sh) && InFrame(cx, cy) && Differs(vm, sh, cx, cy)
    requires Bounds(vm, sh, b, cx, cy)
    ensures var b' := Visit(Scan(true, b), cx, cy).box;
      && (exists x, y :: InFrame(x, y) && Before(x, y, cx + 1, cy) && Differs(vm, sh, x, y) && x == b'.xMin)
      && (exists x, y :: InFrame(x, y) && Before(x, y, cx + 1, cy) && Differs(vm, sh, x, y) && x == b'.xMax)
  {
    assert Before(cx, cy, cx + 1, cy);
    if cx >= b.xMin {
      var x, y :| InFrame(x, y) && Before(x, y, cx, cy) && Differs(vm, sh, x, y) && x == b.xMin;
      assert Before(x, y, cx + 1, cy);
    }
    if cx <= b.xMax {
      var x, y :| InFrame(x, y) && Before(x, y, cx, cy) && Differs(vm, sh, x, y) && x == b.xMax;
      assert Before(x, y, cx + 1, cy);
    }
  }

  /** Widening by a differing pixel keeps each row bound the row of a differing pixel; the
      top bound never moves, since every pixel found so far lies in a row up to cy. */
  lemma WidenRows(vm: seq<u16>, sh: seq<u16>, b: Box, cx: int, cy: int)
    requires IsFrame(vm) && IsFrame(sh) && InFrame(cx, cy) && Differs(vm, sh, cx, cy)
    requires Bounds(vm, sh, b, cx, cy)
    ensures var b' := Visit(Scan(true, b), cx, cy).box;
      && (exists x, y :: InFrame(x, y) && Before(x, y, cx + 1, cy) && Differs(vm, sh, x, y) && y == b'.yMin)
      && (exists x, y :: InFrame(x, y) && Before(x, y, cx + 1, cy) && Differs(vm, sh, x, y) && y == b'.yMax)
  {
    assert Before(cx, cy, cx + 1, cy);
    var x, y :| InFrame(x, y) && Before(x, y, cx, cy) && Differs(vm, sh, x, y) && y == b.yMin;
    assert Before(x, y, cx + 1, cy);
    if cy <= b.yMax {
      var x, y :| InFrame(x, y) && Before(x, y, cx, cy) && Differs(vm, sh, x, y) && y == b.yMax;
      assert Before(x, y, cx + 1, cy);
    }
  }

  /** Scanning pixel n - 1 of row y keeps the summary. */
  lemma ScanRowStep(vm: seq<u16>, sh: seq<u16>, init: Box, y: int, n: int, a: Scan)
    requires IsFrame(vm) && IsFrame(sh) && 0 <= y < HEIGHT && 0 < n <= WIDTH
    requires Summarises(vm, sh, init, ScanRow(vm, sh, y, n - 1, a), n - 1, y)
    ensures Summarises(vm, sh, init, ScanRow(vm, sh, y, n, a), n, y)
  {
    VisitStep(vm, sh, init, ScanRow(vm, sh, y, n - 1, a), ScanRow(vm, sh, y, n, a), n - 1, y);
  }

  lemma {:induction false} ScanRowSummarises(vm: seq<u16>, sh: seq<u16>, init: Box, y: int, n: int, a: Scan)
    requires IsFrame(vm) && IsFrame(sh) && 0 <= y < HEIGHT && 0 <= n <= WIDTH
    requires Summarises(vm, sh, init, a, 0, y)
    ensures Summarises(vm, sh, init, ScanRow(vm, sh, y, n, a), n, y)
    decreases n
  {
    if n > 0 {
      ScanRowSummarises(vm, sh, init, y, n - 1, a);
      ScanRowStep(vm, sh, init, y, n, a);
    }
  }

  /** Having scanned all of row y is having scanned everything before row y + 1. */
  lemma RowEnd(vm: seq<u16>, sh: seq<u16>, init: Box, a: Scan, y: int)
    requires IsFrame(vm) && IsFrame(sh)
    requires Summarises(vm, sh, init, a, WIDTH, y)
    ensures Summarises(vm, sh, init, a, 0, y + 1)
  {
    forall x, y' | InFrame(x, y') ensures Before(x, y', WIDTH, y) == Before(x, y', 0, y + 1) {
    }
  }

  /** The scan of the first y + 1 rows continues the scan of the first y with row y. */
  lemma ScanRowsNext(vm: seq<u16>, sh: seq<u16>, y: int, a: Scan, before: Scan, after: Scan)
    requires IsFrame(vm) && IsFrame(sh) && 0 <= y < HEIGHT
    requires before == ScanRows(vm, sh, y, a) && after == ScanRow(vm, sh, y, WIDTH, before)
    ensures after == ScanRows(vm, sh, y + 1, a)
  {
  }

  lemma {:induction false} ScanRowsSummarises(vm: seq<u16>, sh: seq<u16>, init: Box, m: int)
    requires IsFrame(vm) && IsFrame(sh) && 0 <= m <= HEIGHT
    ensures Summarises(vm, sh, init, ScanRows(vm, sh, m, Scan(false, init)), 0, m)
    decreases m
  {
    if m > 0 {
      var a := ScanRows(vm, sh, m - 1, Scan(false, init));
      ScanRowsSummarises(vm, sh, init, m - 1);
      ScanRowSummarises(vm, sh, init, m - 1, WIDTH, a);
      RowEnd(vm, sh, init, ScanRow(vm, sh, m - 1, WIDTH, a), m - 1);
    }
  }

  /** The scan of ls020_detect_changes finds a change exactly when some pixel differs from
      the shadow; it then leaves the tight bounding box of all differing pixels, and
      otherwise the old bounds untouched. */
  lemma ScanFrameSpec(vm: seq<u16>, sh: seq<u16>, init: Box)
    requires IsFrame(vm) && IsFrame(sh)
    ensures var a := ScanFrame(vm, sh, init);
      && (a.found <==> exists x, y :: InFrame(x, y) && Differs(vm, sh, x, y))
      && (!a.found ==> a.box == init)
      && (a.found ==>
            && BoxOk(a.box)
            && (forall x, y :: InFrame(x, y) && Differs(vm, sh, x, y) ==> InBox(a.box, x, y))
            && (exists x, y :: InFrame(x, y) && Differs(vm, sh, x, y) && x == a.box.xMin)
            && (exists x, y :: InFrame(x, y) && Differs(vm, sh, x, y) && x == a.box.xMax)
            && (exists x, y :: InFrame(x, y) && Differs(vm, sh, x, y) && y == a.box.yMin)
            && (exists x, y :: InFrame(x, y) && Differs(vm, sh, x, y) && y == a.box.yMax))
  {
    ScanRowsSummarises(vm, sh, init, HEIGHT);
    forall x, y | InFrame(x, y) ensures Before(x, y, 0, HEIGHT) {
    }
  }

  /** Identical frames: nothing found. */
  lemma ScanIdentical(vm: seq<u16>, init: Box)
    requires IsFrame(vm)
    ensures ScanFrame(vm, vm, init) == Scan(false, init)
  {
    ScanFrameSpec(vm, vm, init);
  }

  /** Frames differing in one pixel only: the box is exactly that pixel. */
  lemma ScanSinglePixel(vm: seq<u16>, sh: seq<u16>, init: Box, x: int, y: int)
    requires IsFrame(vm) && IsFrame(sh) && InFrame(x, y)
    requires forall k :: 0 <= k < PIXELS ==> (vm[k] != sh[k] <==> k == Off(x, y))
    ensures ScanFrame(vm, sh, init) == Scan(true, Box(x, y, x, y))
  {
    ScanFrameSpec(vm, sh, init);
    assert Differs(vm, sh, x, y);
    forall x', y' | InFrame(x', y') && Differs(vm, sh, x', y') ensures x' == x && y' == y {
      OffInRange(x', y');
      OffInjective(x', y', x, y);
    }
  }

  // ---------------------------------------------------------------------
  // Collapse to the full frame (ls020_update_display_partial)

  const QUARTER: int := FRAME_BYTES / 4

  /** Bytes needed to send the box: two per pixel. */
  function Footprint(b: Box): int {
    (b.xMax - b.xMin + 1) * (b.yMax - b.yMin + 1) * 2
  }

  lemma FootprintBounds(b: Box)
    requires BoxOk(b)
    ensures 2 <= Footprint(b) <= FRAME_BYTES
  {
    var w, h := b.xMax - b.xMin + 1, b.yMax - b.yMin + 1;
    MulLe(1, w, h);
    MulLe(w, WIDTH, h);
    MulLe(h, HEIGHT, WIDTH);
  }

  /** The box the partial update sends, and the size of its transfer: the box itself when its
      footprint is at most a quarter of the frame, and otherwise the whole frame. */
  function Collapse(b: Box): (r: (Box, int))
    requires BoxOk(b)
    ensures BoxOk(r.0) && r.1 == Footprint(r.0)
    ensures InBox(r.0, b.xMin, b.yMin) && InBox(r.0, b.xMax, b.yMax)
    ensures r.1 <= QUARTER || r.0 == FULL_BOX
    ensures Footprint(b) <= QUARTER ==> r.0 == b
    ensures Footprint(b) > QUARTER ==> r == (FULL_BOX, FRAME_BYTES)
  {
    FootprintBounds(b);
    if Footprint(b) > QUARTER then (FULL_BOX, FRAME_BYTES) else (b, Footprint(b))
  }

  /** Collapsing is idempotent: a collapsed box is sent as it is. */
  lemma CollapseIdempotent(b: Box)
    requires BoxOk(b)
    ensures Collapse(Collapse(b).0) == Collapse(b)
  {
  }
}
