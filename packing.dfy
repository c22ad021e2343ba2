/** How pixels become transfer bytes: each pixel high byte first, and a dirty
    rectangle as its rows top to bottom, each row left to right. */
module Packing {
  import opened Frame
  import opened Wire
  import opened DirtyRegion

  /** The transfer bytes of a run of pixels, in order. */
  function Bytes(ps: seq<u16>): (bs: seq<u8>)
    ensures |bs| == 2 * |ps|
    decreases |ps|
  {
    if ps == [] then [] else Bytes(ps[..|ps| - 1]) + Split16(ps[|ps| - 1])
  }

  /** Packing one more pixel appends its two bytes. */
  lemma BytesSnoc(ps: seq<u16>, p: u16)
    ensures Bytes(ps + [p]) == Bytes(ps) + Split16(p)
  {
    assert (ps + [p])[..|ps|] == ps;
  }

  /** A run of the frame grows by the pixel just past its end. */
  lemma RunSnoc(vm: seq<u16>, i: int, j: int)
    requires 0 <= i <= j < |vm|
    ensures vm[i..j + 1] == vm[i..j] + [vm[j]]
  {
  }

  /** Packing a run of the frame one pixel further appends that pixel's two bytes. */
  lemma BytesRunSnoc(vm: seq<u16>, lo: int, hi: int)
    requires 0 <= lo <= hi < |vm|
    ensures Bytes(vm[lo..hi + 1]) == Bytes(vm[lo..hi]) + Split16(vm[hi])
  {
    RunSnoc(vm, lo, hi);
    BytesSnoc(vm[lo..hi], vm[hi]);
  }

  /** Byte 2i is the high byte and byte 2i+1 the low byte of pixel i. */
  lemma {:induction false} BytesIndex(ps: seq<u16>)
    ensures forall i :: 0 <= i < |ps| ==> Bytes(ps)[2 * i] == ps[i] / 256 && Bytes(ps)[2 * i + 1] == ps[i] % 256
    decreases |ps|
  {
    if ps != [] {
      var init := ps[..|ps| - 1];
      BytesIndex(init);
      forall i | 0 <= i < |ps| ensures Bytes(ps)[2 * i] == ps[i] / 256 && Bytes(ps)[2 * i + 1] == ps[i] % 256 {
        if i < |init| {
          assert Bytes(ps)[2 * i] == Bytes(init)[2 * i];
          assert Bytes(ps)[2 * i + 1] == Bytes(init)[2 * i + 1];
        }
      }
    }
  }

  lemma {:induction false} BytesAppend(ps: seq<u16>, qs: seq<u16>)
    ensures Bytes(ps + qs) == Bytes(ps) + Bytes(qs)
    decreases |qs|
  {
    if qs != [] {
      var init, last := qs[..|qs| - 1], qs[|qs| - 1];
      assert (ps + qs)[..|ps + qs| - 1] == ps + init;
      BytesAppend(ps, init);
      calc {
        Bytes(ps + qs);
        Bytes(ps + init) + Split16(last);
        Bytes(ps) + Bytes(init) + Split16(last);
        Bytes(ps) + (Bytes(init) + Split16(last));
      }
      assert Bytes(qs) == Bytes(init) + Split16(last);
    } else {
      assert ps + qs == ps;
    }
  }

  /** The pixels a receiver rebuilds from the bytes, two at a time. */
  function Unpack(bs: seq<u8>): (ps: seq<u16>)
    requires |bs| % 2 == 0
    ensures |ps| == |bs| / 2
  {
    seq(|bs| / 2, i requires 0 <= i < |bs| / 2 => Join16(bs[2 * i], bs[2 * i + 1]))
  }

  /** Packing then unpacking gives back every pixel ... */
  lemma UnpackBytes(ps: seq<u16>)
    ensures Unpack(Bytes(ps)) == ps
  {
    BytesIndex(ps);
    forall i | 0 <= i < |ps| ensures Unpack(Bytes(ps))[i] == ps[i] {
      assert Split16(ps[i]) == [ps[i] / 256, ps[i] % 256];
    }
  }

  /** ... and every even-length byte string is the encoding of the pixels it unpacks to. */
  lemma BytesUnpack(bs: seq<u8>)
    requires |bs| % 2 == 0
    ensures Bytes(Unpack(bs)) == bs
  {
    var ps := Unpack(bs);
    BytesIndex(ps);
    forall k | 0 <= k < |bs| ensures Bytes(ps)[k] == bs[k] {
      var i := k / 2;
      assert k == 2 * i || k == 2 * i + 1;
      assert ps[i] == Join16(bs[2 * i], bs[2 * i + 1]);
      JoinSplit(bs[2 * i], bs[2 * i + 1]);
      assert Split16(ps[i]) == [ps[i] / 256, ps[i] % 256];
    }
  }

  // ---------------------------------------------------------------------
  // Row-major rectangles

  /** Row y of the box, left to right: one contiguous run of the frame. */
  function RowPixels(vm: seq<u16>, b: Box, y: int): (ps: seq<u16>)
    requires IsFrame(vm) && BoxOk(b) && 0 <= y < HEIGHT
    ensures |ps| == b.xMax - b.xMin + 1
  {
    vm[Off(b.xMin, y)..Off(b.xMax, y) + 1]
  }

  /** The rows of the box above row y, top to bottom. */
  function BoxRows(vm: seq<u16>, b: Box, y: int): seq<u16>
    requires IsFrame(vm) && BoxOk(b) && b.yMin <= y <= b.yMax + 1
    decreases y - b.yMin
  {
    if y == b.yMin then [] else BoxRows(vm, b, y - 1) + RowPixels(vm, b, y - 1)
  }

  /** The pixels of the whole box in transfer order. */
  function BoxPixels(vm: seq<u16>, b: Box): seq<u16>
    requires IsFrame(vm) && BoxOk(b)
  {
    BoxRows(vm, b, b.yMax + 1)
  }

  /** The rows above y of a w-wide box hold (y - yMin) * w pixels. */
  lemma {:induction false} BoxRowsLength(vm: seq<u16>, b: Box, y: int)
    requires IsFrame(vm) && BoxOk(b) && b.yMin <= y <= b.yMax + 1
    ensures |BoxRows(vm, b, y)| == (y - b.yMin) * (b.xMax - b.xMin + 1)
    decreases y - b.yMin
  {
    if y > b.yMin {
      var w := b.xMax - b.xMin + 1;
      BoxRowsLength(vm, b, y - 1);
      assert (y - 1 - b.yMin) * w + w == (y - b.yMin) * w;
    }
  }

  /** Position of column c of row r in a row-major run of w-wide rows. */
  function RowMajor(w: int, r: int, c: int): int {
    r * w + c
  }

  /** r whole rows of width w and one more fit in h rows when r < h. */
  lemma RowsBelow(r: int, h: int, w: nat)
    requires 0 <= r < h
    ensures r * w + w <= h * w
  {
    MulLe(r + 1, h, w);
    assert (r + 1) * w == r * w + w;
  }

  /** Packing the rows above y + 1 appends row y to the encoding of the rows above y, and
      there is room for it within the encoding of the whole box. */
  lemma BoxRowsNext(vm: seq<u16>, b: Box, y: int)
    requires IsFrame(vm) && BoxOk(b) && b.yMin <= y <= b.yMax
    ensures Bytes(BoxRows(vm, b, y + 1)) == Bytes(BoxRows(vm, b, y)) + Bytes(RowPixels(vm, b, y))
    ensures 2 * |BoxRows(vm, b, y)| + 2 * (b.xMax - b.xMin + 1) <= 2 * |BoxPixels(vm, b)|
  {
    BytesAppend(BoxRows(vm, b, y), RowPixels(vm, b, y));
    BoxRowsRoom(vm, b, y);
  }

  /** The encoding of the rows above y followed by the encoding of the run of the frame from
      the left end of row y to just past its right end is the encoding of the rows above y + 1. */
  lemma RowRunPacked(vm: seq<u16>, b: Box, y: int, pre: seq<u8>, bs: seq<u8>)
    requires IsFrame(vm) && BoxOk(b) && b.yMin <= y <= b.yMax
    requires pre == Bytes(BoxRows(vm, b, y))
    requires Off(b.xMin, y) <= Off(b.xMax + 1, y) <= |vm|
    requires bs == pre + Bytes(vm[Off(b.xMin, y)..Off(b.xMax + 1, y)])
    ensures bs == Bytes(BoxRows(vm, b, y + 1))
  {
    assert vm[Off(b.xMin, y)..Off(b.xMax + 1, y)] == RowPixels(vm, b, y) by {
      assert Off(b.xMax + 1, y) == Off(b.xMax, y) + 1;
    }
    BoxRowsNext(vm, b, y);
  }

  /** Row y of the box still fits within the whole box after the rows above it. */
  lemma BoxRowsRoom(vm: seq<u16>, b: Box, y: int)
    requires IsFrame(vm) && BoxOk(b) && b.yMin <= y <= b.yMax
    ensures |BoxRows(vm, b, y)| + (b.xMax - b.xMin + 1) <= |BoxPixels(vm, b)|
  {
    var r, h, w := y - b.yMin, b.yMax - b.yMin + 1, b.xMax - b.xMin + 1;
    BoxRowsLength(vm, b, y);
    BoxRowsLength(vm, b, b.yMax + 1);
    RowsBelow(r, h, w);
  }

  /** Pixel (c, r) of the box sits at position r * w + c of its rows. */
  lemma {:induction false} BoxRowsAt(vm: seq<u16>, b: Box, y: int, r: int, c: int)
    requires IsFrame(vm) && BoxOk(b) && b.yMin <= y <= b.yMax + 1
    requires 0 <= r < y - b.yMin && 0 <= c <= b.xMax - b.xMin
    ensures 0 <= RowMajor(b.xMax - b.xMin + 1, r, c) < |BoxRows(vm, b, y)|
    ensures BoxRows(vm, b, y)[RowMajor(b.xMax - b.xMin + 1, r, c)] == vm[Off(b.xMin + c, b.yMin + r)]
    decreases y - b.yMin
  {
    var w := b.xMax - b.xMin + 1;
    var prev := BoxRows(vm, b, y - 1);
    BoxRowsLength(vm, b, y - 1);
    BoxRowsLength(vm, b, y);
    MulLe(0, r, w);
    if r < y - 1 - b.yMin {
      BoxRowsAt(vm, b, y - 1, r, c);
    } else {
      assert r * w == |prev|;
    }
  }

  /** The pixels of box b, packed: what the partial update sends. */
  function PackRect(vm: seq<u16>, b: Box): (bs: seq<u8>)
    requires IsFrame(vm) && BoxOk(b)
    ensures |bs| % 2 == 0
  {
    Bytes(BoxPixels(vm, b))
  }

  /** The partial transfer is exactly the footprint of the box ... */
  lemma PackRectLength(vm: seq<u16>, b: Box)
    requires IsFrame(vm) && BoxOk(b)
    ensures |BoxPixels(vm, b)| == (b.xMax - b.xMin + 1) * (b.yMax - b.yMin + 1)
    ensures |PackRect(vm, b)| == Footprint(b)
  {
    BoxRowsLength(vm, b, b.yMax + 1);
  }

  /** ... and it holds the box's pixels row by row, each high byte first. */
  lemma PackRectPixels(vm: seq<u16>, b: Box)
    requires IsFrame(vm) && BoxOk(b)
    ensures Unpack(PackRect(vm, b)) == BoxPixels(vm, b)
    ensures var w, h := b.xMax - b.xMin + 1, b.yMax - b.yMin + 1;
      forall r, c :: 0 <= r < h && 0 <= c < w ==>
        0 <= RowMajor(w, r, c) < |BoxPixels(vm, b)| && BoxPixels(vm, b)[RowMajor(w, r, c)] == vm[Off(b.xMin + c, b.yMin + r)]
  {
    UnpackBytes(BoxPixels(vm, b));
    var w, h := b.xMax - b.xMin + 1, b.yMax - b.yMin + 1;
    forall r, c | 0 <= r < h && 0 <= c < w
      ensures 0 <= RowMajor(w, r, c) < |BoxPixels(vm, b)| && BoxPixels(vm, b)[RowMajor(w, r, c)] == vm[Off(b.xMin + c, b.yMin + r)]
    {
      BoxRowsAt(vm, b, b.yMax + 1, r, c);
    }
  }

  /** The first n rows of the whole frame are the first n * WIDTH pixels. */
  lemma {:induction false} FullRows(vm: seq<u16>, n: int)
    requires IsFrame(vm) && 0 <= n <= HEIGHT
    ensures BoxRows(vm, FULL_BOX, n) == vm[..n * WIDTH]
    decreases n
  {
    if n > 0 {
      FullRows(vm, n - 1);
      assert vm[..n * WIDTH] == vm[..(n - 1) * WIDTH] + vm[(n - 1) * WIDTH..n * WIDTH];
    }
  }

  /** The whole-frame box packs to the whole frame in memory order: what the full update
      sends. */
  lemma PackRectFull(vm: seq<u16>)
    requires IsFrame(vm)
    ensures BoxPixels(vm, FULL_BOX) == vm
    ensures PackRect(vm, FULL_BOX) == Bytes(vm)
  {
    FullRows(vm, HEIGHT);
    assert vm[..HEIGHT * WIDTH] == vm;
  }
}
