/**
 * The second half of the frame callback `cb`: the box the tracker reported is
 * drawn into the RGBA frame as a one-pixel outline of colour (255, 255, 0, 255).
 *
 * The box words are pixel coordinates. The code scales them by 4, walks the
 * scaled box in steps of 4 and writes four bytes at `y * width + x`. With
 * `x = 4 * (bx + k)` and `y = 4 * (by + m)` that offset is
 * `4 * ((by + m) * width + bx + k)`, the first byte of pixel (bx + k, by + m)
 * of a frame `width` pixels wide. The specification below is therefore stated
 * in pixels: a pixel index q covers bytes 4q .. 4q + 3.
 */
module BoxOutline {
  import opened MachineWords

  /** The four `bounding_box` words, as the callback reads them: x, y, width, height. */
  datatype BoxWords = BoxWords(x: u32, y: u32, w: u32, h: u32)

  /** The words before the tracker writes anything. */
  const NoBox: BoxWords := BoxWords(0, 0, 0, 0)

  /** Cell (k, m) of the box's pixel grid is drawn unless it is strictly inside. */
  predicate OnBorder(b: BoxWords, k: int, m: int) {
    !(0 < k < b.w as int - 1 && 0 < m < b.h as int - 1)
  }

  /** Index of the pixel at cell (k, m) in a frame `width` pixels wide. */
  function PixelAt(b: BoxWords, width: nat, k: int, m: int): int {
    (b.y as int + m) * width + b.x as int + k
  }

  /** The outline pixels the row-by-row scan reaches before cell (k0, m0). */
  ghost function PaintedBefore(b: BoxWords, width: nat, m0: int, k0: int): set<int> {
    set k: int, m: int |
      0 <= k < b.w as int && 0 <= m < b.h as int && OnBorder(b, k, m) && (m < m0 || (m == m0 && k < k0))
      :: PixelAt(b, width, k, m)
  }

  /** Every pixel of the outline. */
  ghost function Outline(b: BoxWords, width: nat): set<int> {
    PaintedBefore(b, width, b.h as int, 0)
  }

  /** Byte c of an outline pixel: red 255, green 255, blue 0, alpha 255. */
  function OutlineColour(c: int): u8
    requires 0 <= c < 4
  {
    if c == 2 then 0 else 255
  }

  /**
   * What the painter needs so that none of its `u32` operations overflows and
   * every byte it writes lies inside `data` (the program would panic otherwise):
   * the four scaled words fit; the outer range end `4 * (y + h)` fits; the
   * inner range end `4 * (x + w)` fits whenever the outer loop runs at all;
   * and so does the last byte of the last pixel drawn, the bottom-right corner.
   */
  predicate PaintInRange(b: BoxWords, width: u32, len: nat) {
    && 4 * b.x as int < U32Limit
    && 4 * b.w as int < U32Limit
    && 4 * (b.y as int + b.h as int) < U32Limit
    && (b.h > 0 ==> 4 * (b.x as int + b.w as int) < U32Limit)
    && (b.w > 0 && b.h > 0 ==>
          var last := 4 * PixelAt(b, width as int, b.w as int - 1, b.h as int - 1) + 3;
          last < U32Limit && last < len)
  }

  lemma MulMonotone(a: int, c: int, width: nat)
    requires a <= c
    ensures a * width <= c * width
  {
    assert c * width - a * width == (c - a) * width;
  }

  /** The scan reaches cell (k, m) next: the painted set grows by that pixel if it is drawn. */
  lemma PaintedStep(b: BoxWords, width: nat, m: int, k: int)
    requires 0 <= k < b.w as int && 0 <= m < b.h as int
    ensures PaintedBefore(b, width, m, k + 1)
         == PaintedBefore(b, width, m, k) + (if OnBorder(b, k, m) then {PixelAt(b, width, k, m)} else {})
  {
  }

  /** Finishing row m is the same as starting row m + 1. */
  lemma PaintedRowDone(b: BoxWords, width: nat, m: int)
    ensures PaintedBefore(b, width, m, b.w as int) == PaintedBefore(b, width, m + 1, 0)
  {
  }

  lemma MulNonNegative(a: int, width: nat)
    requires 0 <= a
    ensures 0 <= a * width
  {
  }

  lemma ScaledOffset(row: int, col: int, width: int)
    ensures (4 * row) * width + 4 * col == 4 * (row * width + col)
  {
  }

  /** Where the painter writes cell (k, m): byte offset `y * width + x` is the pixel's first byte, and it is in range. */
  lemma CellOffset(b: BoxWords, width: u32, len: nat, x: int, y: int, k: int, m: int)
    requires PaintInRange(b, width, len)
    requires 0 <= k < b.w as int && 0 <= m < b.h as int
    requires x == b.x as int * 4 + 4 * k && y == b.y as int * 4 + 4 * m
    ensures y * width as int + x == 4 * PixelAt(b, width as int, k, m)
    ensures 0 <= 4 * PixelAt(b, width as int, k, m)
    ensures 4 * PixelAt(b, width as int, k, m) + 3 < U32Limit
    ensures 4 * PixelAt(b, width as int, k, m) + 3 < len
  {
    var row, lastRow := b.y as int + m, b.y as int + b.h as int - 1;
    MulNonNegative(row, width as int);
    MulMonotone(row, lastRow, width as int);
    assert y == 4 * row;
    ScaledOffset(row, b.x as int + k, width as int);
  }

  /** `cur` is `orig` with exactly the pixels of S drawn in the outline colour. */
  ghost predicate Drawn(cur: seq<u8>, orig: seq<u8>, S: set<int>) {
    |cur| == |orig| &&
    forall j :: 0 <= j < |cur| ==> cur[j] == if j / 4 in S then OutlineColour(j % 4) else orig[j]
  }

  /** Drawing one more pixel q extends the drawn set by q. */
  lemma DrawnGrow(prev: seq<u8>, cur: seq<u8>, orig: seq<u8>, S: set<int>, q: int)
    requires Drawn(prev, orig, S)
    requires |cur| == |prev|
    requires forall j :: 0 <= j < |cur| ==> cur[j] == if j / 4 == q then OutlineColour(j % 4) else prev[j]
    ensures Drawn(cur, orig, S + {q})
  {
  }

  /**
   * The four byte writes at `pos`, `pos + 1`, `pos + 2`, `pos + 3`: pixel
   * `pos / 4` gets the outline colour and no other byte changes, so a frame
   * drawn with the set S becomes one drawn with S and that pixel.
   */
  method FillPixel(data: array<u8>, pos: int, ghost q: int, ghost orig: seq<u8>, ghost S: set<int>)
    requires 0 <= pos && pos == 4 * q && pos + 3 < data.Length
    requires Drawn(data[..], orig, S)
    modifies data
    ensures forall j :: 0 <= j < data.Length ==>
      data[j] == if j / 4 == q then OutlineColour(j % 4) else old(data[j])
    ensures Drawn(data[..], orig, S + {q})
  {
    ghost var before := data[..];
    data[pos] := 255;
    data[pos + 1] := 255;
    data[pos + 2] := 0;
    data[pos + 3] := 255;
    DrawnGrow(before, data[..], orig, S, q);
  }

  /**
   * The body of the inner loop at grid point (x, y) = (4 * (bx + k), 4 * (by + m)):
   * a point strictly inside the scaled box is skipped, every other point gets
   * the outline colour in its four bytes.
   */
  method PaintCell(data: array<u8>, b: BoxWords, width: u32, x: int, y: int,
                   ghost k: int, ghost m: int, ghost orig: seq<u8>)
    requires PaintInRange(b, width, data.Length)
    requires 0 <= k < b.w as int && 0 <= m < b.h as int
    requires x == b.x as int * 4 + 4 * k && y == b.y as int * 4 + 4 * m
    requires Drawn(data[..], orig, PaintedBefore(b, width as int, m, k))
    modifies data
    ensures Drawn(data[..], orig, PaintedBefore(b, width as int, m, k + 1))
  {
    var x0, y0 := b.x as int * 4, b.y as int * 4;
    var w, h := b.w as int * 4, b.h as int * 4;
    PaintedStep(b, width as int, m, k);
    if x > x0 && x < x0 + w - 4 && y > y0 && y < y0 + h - 4 {
      // strictly inside: nothing is drawn
      assert !OnBorder(b, k, m);
    } else {
      assert OnBorder(b, k, m);
      ghost var q := PixelAt(b, width as int, k, m);
      CellOffset(b, width, data.Length, x, y, k, m);
      var pos := y * width as int + x;
      FillPixel(data, pos, q, orig, PaintedBefore(b, width as int, m, k));
    }
  }

  /** The inner loop of the painter: row m of the box, at byte row `y = 4 * (by + m)`. */
  method PaintRow(data: array<u8>, b: BoxWords, width: u32, y: int, ghost m: int, ghost orig: seq<u8>)
    requires PaintInRange(b, width, data.Length)
    requires 0 <= m < b.h as int && y == b.y as int * 4 + 4 * m
    requires Drawn(data[..], orig, PaintedBefore(b, width as int, m, 0))
    modifies data
    ensures Drawn(data[..], orig, PaintedBefore(b, width as int, m + 1, 0))
  {
    var x0, w := b.x as int * 4, b.w as int * 4;
    var x := x0;
    ghost var k := 0;
    while x < x0 + w
      invariant 0 <= k <= b.w as int && x == x0 + 4 * k
      invariant Drawn(data[..], orig, PaintedBefore(b, width as int, m, k))
    {
      PaintCell(data, b, width, x, y, k, m, orig);
      x := x + 4;
      k := k + 1;
    }
    PaintedRowDone(b, width as int, m);
  }

  /**
   * The outer loop of the painter: the scaled box is walked row by row in
   * steps of 4, from `4 * by` up to `4 * (by + bh)`.
   */
  method PaintOutline(data: array<u8>, b: BoxWords, width: u32)
    requires PaintInRange(b, width, data.Length)
    modifies data
    ensures Drawn(data[..], old(data[..]), Outline(b, width as int))
  {
    var y0, h := b.y as int * 4, b.h as int * 4;
    var y := y0;
    ghost var m := 0;
    assert PaintedBefore(b, width as int, 0, 0) == {};
    while y < y0 + h
      invariant 0 <= m <= b.h as int && y == y0 + 4 * m
      invariant Drawn(data[..], old(data[..]), PaintedBefore(b, width as int, m, 0))
    {
      PaintRow(data, b, width, y, m, old(data[..]));
      y := y + 4;
      m := m + 1;
    }
  }

  /** A box with no width or no height (in particular NoBox) has no outline, so the frame is left as it was. */
  lemma EmptyBoxDrawsNothing(b: BoxWords, width: nat, orig: seq<u8>, cur: seq<u8>)
    requires b.w == 0 || b.h == 0
    requires Drawn(cur, orig, Outline(b, width))
    ensures Outline(b, width) == {}
    ensures cur == orig
  {
  }

  /**
   * The pixel at column `col`, row `row` of the frame lies on the outline of
   * the box drawn in frame coordinates.
   */
  predicate OnBoxEdge(b: BoxWords, col: int, row: int) {
    && b.x as int <= col < b.x as int + b.w as int
    && b.y as int <= row < b.y as int + b.h as int
    && !(b.x as int < col < b.x as int + b.w as int - 1 && b.y as int < row < b.y as int + b.h as int - 1)
  }

  lemma DivModUnique(q: int, width: int, row: int, col: int)
    requires 0 < width && 0 <= col < width && q == row * width + col
    ensures q / width == row && q % width == col
  {
    var r, c := q / width, q % width;
    assert q == r * width + c;
    assert (row - r) * width == c - col;
    if row - r >= 1 {
      MulMonotone(1, row - r, width);
    } else if row - r <= -1 {
      MulMonotone(row - r, -1, width);
    }
  }

  /** Every outline pixel lies on the box's edge in frame coordinates. */
  lemma OutlineOnBoxEdge(b: BoxWords, width: nat, q: int)
    requires 0 < width && b.x as int + b.w as int <= width
    requires q in Outline(b, width)
    ensures 0 <= q && OnBoxEdge(b, q % width, q / width)
  {
    var k, m :| 0 <= k < b.w as int && 0 <= m < b.h as int && OnBorder(b, k, m)
                && q == PixelAt(b, width, k, m);
    MulNonNegative(b.y as int + m, width);
    DivModUnique(q, width, b.y as int + m, b.x as int + k);
  }

  /** Every pixel on the box's edge in frame coordinates is an outline pixel. */
  lemma BoxEdgeInOutline(b: BoxWords, width: nat, q: int)
    requires 0 < width
    requires 0 <= q && OnBoxEdge(b, q % width, q / width)
    ensures q in Outline(b, width)
  {
    var k, m := q % width - b.x as int, q / width - b.y as int;
    assert q == PixelAt(b, width, k, m);
    assert OnBorder(b, k, m);
  }

  /**
   * When the box fits within the frame's width, its outline is exactly the
   * set of frame pixels on the edge of the box: pixel q, at column q % width
   * and row q / width, is drawn if and only if it lies on that edge.
   */
  lemma OutlineIsBoxEdge(b: BoxWords, width: nat, q: int)
    requires 0 < width && b.x as int + b.w as int <= width
    ensures q in Outline(b, width) <==> 0 <= q && OnBoxEdge(b, q % width, q / width)
  {
    if q in Outline(b, width) {
      OutlineOnBoxEdge(b, width, q);
    }
    if 0 <= q && OnBoxEdge(b, q % width, q / width) {
      BoxEdgeInOutline(b, width, q);
    }
  }
}
