/** Pixels as cells of a strided byte buffer, and the rectangles that select them: internal/fbui/canvas.go. */
module Grid {
  import opened GoStrings

  /** `size` bytes per cell, `w` cells to a row, rows `stride` bytes apart. */
  datatype Grid = Grid(stride: nat, size: nat, w: nat, h: nat)

  predicate GridOk(g: Grid) { g.size > 0 && g.w * g.size <= g.stride }

  predicate Fits(g: Grid, buf: Bytes) { GridOk(g) && g.h * g.stride <= |buf| }

  predicate InGrid(g: Grid, x: int, y: int) { 0 <= x < g.w && 0 <= y < g.h }

  function Offset(g: Grid, x: nat, y: nat): nat { y * g.stride + x * g.size }

  lemma MulMono(a: nat, b: nat, c: nat)
    requires a <= b
    ensures a * c <= b * c
  {
  }

  lemma OffsetInside(g: Grid, x: int, y: int)
    requires GridOk(g) && InGrid(g, x, y)
    ensures Offset(g, x, y) + g.size <= (y + 1) * g.stride <= g.h * g.stride
  {
    MulMono(x + 1, g.w, g.size);
    MulMono(y + 1, g.h, g.stride);
    assert (x + 1) * g.size == x * g.size + g.size;
    assert (y + 1) * g.stride == y * g.stride + g.stride;
  }

  lemma OffsetsApart(g: Grid, x: int, y: int, x': int, y': int)
    requires GridOk(g) && InGrid(g, x, y) && InGrid(g, x', y')
    requires y < y' || (y == y' && x < x')
    ensures Offset(g, x, y) + g.size <= Offset(g, x', y')
  {
    if y < y' {
      OffsetInside(g, x, y);
      MulMono(y + 1, y', g.stride);
    } else {
      MulMono(x + 1, x', g.size);
      assert (x + 1) * g.size == x * g.size + g.size;
    }
  }

  function Cell(g: Grid, buf: Bytes, x: int, y: int): (c: Bytes)
    requires Fits(g, buf) && InGrid(g, x, y)
    ensures |c| == g.size
  {
    OffsetInside(g, x, y);
    buf[Offset(g, x, y)..Offset(g, x, y) + g.size]
  }

  function PutCell(g: Grid, buf: Bytes, x: int, y: int, c: Bytes): (r: Bytes)
    requires Fits(g, buf) && InGrid(g, x, y) && |c| == g.size
    ensures |r| == |buf|
  {
    OffsetInside(g, x, y);
    buf[..Offset(g, x, y)] + c + buf[Offset(g, x, y) + g.size..]
  }

  lemma CellAfterPut(g: Grid, buf: Bytes, x: int, y: int, c: Bytes, x': int, y': int)
    requires Fits(g, buf) && InGrid(g, x, y) && |c| == g.size && InGrid(g, x', y')
    ensures Cell(g, PutCell(g, buf, x, y, c), x', y') == if x == x' && y == y' then c else Cell(g, buf, x', y')
  {
    OffsetInside(g, x, y);
    OffsetInside(g, x', y');
    var r, o, o' := PutCell(g, buf, x, y, c), Offset(g, x, y), Offset(g, x', y');
    hide Offset;
    if x == x' && y == y' {
      assert r[o..o + g.size] == c;
    } else if y < y' || (y == y' && x < x') {
      OffsetsApart(g, x, y, x', y');
      forall j | o' <= j < o' + g.size ensures r[j] == buf[j] {}
      assert r[o'..o' + g.size] == buf[o'..o' + g.size];
    } else {
      OffsetsApart(g, x', y', x, y);
      forall j | o' <= j < o' + g.size ensures r[j] == buf[j] {}
      assert r[o'..o' + g.size] == buf[o'..o' + g.size];
    }
  }

  /** Buffers of the grid's exact size are equal when all their cells are. */
  lemma CellsDecide(g: Grid, a: Bytes, b: Bytes)
    requires Fits(g, a) && Fits(g, b) && g.stride == g.w * g.size && |a| == |b| == g.h * g.stride
    requires forall x, y | InGrid(g, x, y) :: Cell(g, a, x, y) == Cell(g, b, x, y)
    ensures a == b
  {
    forall i | 0 <= i < |a| ensures a[i] == b[i] {
      var y := RowOf(g.stride, g.h, i);
      var x := RowOf(g.size, g.w, i - y * g.stride);
      OffsetInside(g, x, y);
      var k := i - Offset(g, x, y);
      assert a[i] == Cell(g, a, x, y)[k] && b[i] == Cell(g, b, x, y)[k];
    }
  }

  lemma {:induction false} RowOf(stride: nat, h: nat, i: nat) returns (y: nat)
    requires i < h * stride
    ensures y < h && y * stride <= i < y * stride + stride
  {
    if i < stride {
      y := 0;
    } else {
      assert h * stride == (h - 1) * stride + stride;
      var above := RowOf(stride, h - 1, i - stride);
      y := above + 1;
      assert y * stride == above * stride + stride;
    }
  }

  // ----- rectangles

  /** Top-left inclusive, bottom-right exclusive. */
  datatype Rect = Rect(x: int, y: int, w: int, h: int)

  predicate Contains(r: Rect, x: int, y: int) { r.x <= x < r.x + r.w && r.y <= y < r.y + r.h }

  function Intersect(a: Rect, b: Rect): Rect {
    var x0, y0 := Max(a.x, b.x), Max(a.y, b.y);
    var x1, y1 := Min(a.x + a.w, b.x + b.w), Min(a.y + a.h, b.y + b.h);
    Rect(x0, y0, Max(x1, x0) - x0, Max(y1, y0) - y0)
  }

  /** The overlap holds exactly the common points and never has a negative size. */
  lemma IntersectIsOverlap(a: Rect, b: Rect, x: int, y: int)
    ensures Contains(Intersect(a, b), x, y) <==> Contains(a, x, y) && Contains(b, x, y)
    ensures Intersect(a, b).w >= 0 && Intersect(a, b).h >= 0
  {
  }

  function Bounds(g: Grid): Rect { Rect(0, 0, g.w, g.h) }
}
