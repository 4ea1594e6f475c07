/** Canvas, cursor and framebuffer as values: what one redraw does to the pixels (internal/fbui). */
module Screen {
  import opened GoStrings
  import opened Bits
  import opened Grid

  datatype Color = Color(r: byte, g: byte, b: byte)

  const BLACK: Color := Color(0, 0, 0)

  // ----- the canvas: four bytes a pixel, the last always 255

  function Pixel(c: Color): (b: Bytes)
    ensures |b| == 4
  {
    [c.r, c.g, c.b, 255]
  }

  predicate IsCanvas(g: Grid) { g.size == 4 && g.stride == 4 * g.w }

  /** A whole opaque picture. */
  ghost predicate IsPicture(g: Grid, pix: Bytes)
    ensures IsPicture(g, pix) ==> IsCanvas(g) && Fits(g, pix) && |pix| == g.h * g.stride
  {
    && IsCanvas(g) && |pix| == g.h * g.stride
    && forall x, y | InGrid(g, x, y) :: Cell(g, pix, x, y)[3] == 255
  }

  /** Reading a pixel: black outside the canvas. */
  function ColorAt(g: Grid, pix: Bytes, x: int, y: int): Color
    requires IsCanvas(g) && Fits(g, pix)
  {
    if !InGrid(g, x, y) then BLACK
    else
      var c := Cell(g, pix, x, y);
      Color(c[0], c[1], c[2])
  }

  /** The clip never reaches outside the canvas. */
  ghost predicate ClipOk(g: Grid, clip: Rect) { forall x, y | Contains(clip, x, y) :: InGrid(g, x, y) }

  function SetPixel(g: Grid, clip: Rect, pix: Bytes, x: int, y: int, c: Color): (r: Bytes)
    requires IsCanvas(g) && Fits(g, pix) && ClipOk(g, clip)
    ensures |r| == |pix|
  {
    if Contains(clip, x, y) then PutCell(g, pix, x, y, Pixel(c)) else pix
  }

  lemma SetPixelAt(g: Grid, clip: Rect, pix: Bytes, x: int, y: int, c: Color, x': int, y': int)
    requires IsPicture(g, pix) && ClipOk(g, clip) && InGrid(g, x', y')
    ensures IsPicture(g, SetPixel(g, clip, pix, x, y, c))
    ensures ColorAt(g, SetPixel(g, clip, pix, x, y, c), x', y')
            == if x == x' && y == y' && Contains(clip, x, y) then c else ColorAt(g, pix, x', y')
  {
    hide Cell, PutCell;
    if Contains(clip, x, y) {
      CellAfterPut(g, pix, x, y, Pixel(c), x', y');
      var after := SetPixel(g, clip, pix, x, y, c);
      forall u, v | InGrid(g, u, v) ensures Cell(g, after, u, v)[3] == 255 {
        CellAfterPut(g, pix, x, y, Pixel(c), u, v);
      }
    }
  }

  // ----- the cursor

  const CURSOR_W: nat := 12
  const CURSOR_H: nat := 19
  const CURSOR_CELLS: nat := 228

  /** '#' is fill, '.' is border, anything else lets the picture through. */
  const CURSOR_MASK: seq<string> := [
    ".           ", "..          ", ".#.         ", ".##.        ", ".###.       ",
    ".####.      ", ".#####.     ", ".######.    ", ".#######.   ", ".########.  ",
    ".#########. ", ".#####..... ", ".##.##.     ", ".#. .##.    ", "..   .##.   ",
    "      .##.  ", "       .##. ", "        ... ", "            "
  ]

  datatype Look = Look(fill: Color, border: Color)

  /** The colour the cursor has at one of its own cells. */
  function MaskColor(look: Look, col: nat, row: nat): Option<Color> {
    if row >= |CURSOR_MASK| || col >= |CURSOR_MASK[row]| then None
    else if CURSOR_MASK[row][col] == '#' then Some(look.fill)
    else if CURSOR_MASK[row][col] == '.' then Some(look.border)
    else None
  }

  predicate UnderCursor(cx: int, cy: int, x: int, y: int) {
    cx <= x < cx + CURSOR_W && cy <= y < cy + CURSOR_H
  }

  /** The picture with the cursor's tip at (cx, cy), as far as the clip lets it show. */
  function Overlay(look: Look, clip: Rect, cx: int, cy: int, x: int, y: int, under: Color): Color {
    if UnderCursor(cx, cy, x, y) && Contains(clip, x, y) && MaskColor(look, x - cx, y - cy).Some?
    then MaskColor(look, x - cx, y - cy).value
    else under
  }

  function ColOf(k: nat): nat { k % 12 }

  function RowAt(k: nat): nat { k / 12 }

  /** The canvas after the first k cells of the cursor have been drawn. */
  function Drawn(g: Grid, clip: Rect, look: Look, pix: Bytes, cx: int, cy: int, k: nat): (r: Bytes)
    requires IsCanvas(g) && Fits(g, pix) && ClipOk(g, clip)
    ensures |r| == |pix|
  {
    if k == 0 then pix
    else
      var before := Drawn(g, clip, look, pix, cx, cy, k - 1);
      var c := MaskColor(look, ColOf(k - 1), RowAt(k - 1));
      if c.Some? then SetPixel(g, clip, before, cx + ColOf(k - 1), cy + RowAt(k - 1), c.value) else before
  }

  /** The colours under the first k cells. */
  function Saved(g: Grid, pix: Bytes, cx: int, cy: int, k: nat): (s: seq<Color>)
    requires IsCanvas(g) && Fits(g, pix)
    ensures |s| == k
  {
    seq(k, i requires 0 <= i < k => ColorAt(g, pix, cx + ColOf(i), cy + RowAt(i)))
  }

  /** The canvas after the first k cells have been written back from the saved colours. */
  function Restored(g: Grid, clip: Rect, pix: Bytes, cx: int, cy: int, saved: seq<Color>, k: nat): (r: Bytes)
    requires IsCanvas(g) && Fits(g, pix) && ClipOk(g, clip) && k <= |saved|
    ensures |r| == |pix|
  {
    if k == 0 then pix
    else
      SetPixel(g, clip, Restored(g, clip, pix, cx, cy, saved, k - 1), cx + ColOf(k - 1), cy + RowAt(k - 1),
               saved[k - 1])
  }

  /** Cell (x, y) is one of the first k cells of the cursor. */
  predicate AmongFirst(cx: int, cy: int, k: nat, x: int, y: int) {
    UnderCursor(cx, cy, x, y) && (y - cy) * 12 + (x - cx) < k
  }

  lemma CellNumber(cx: int, cy: int, k: nat, x: int, y: int)
    requires k > 0 && UnderCursor(cx, cy, x, y)
    ensures (x == cx + ColOf(k - 1) && y == cy + RowAt(k - 1)) <==> (y - cy) * 12 + (x - cx) == k - 1
  {
  }

  lemma {:induction false} DrawnAt(g: Grid, clip: Rect, look: Look, pix: Bytes, cx: int, cy: int, k: nat,
                                   x: int, y: int)
    requires IsPicture(g, pix) && ClipOk(g, clip) && InGrid(g, x, y) && k <= CURSOR_CELLS
    ensures IsPicture(g, Drawn(g, clip, look, pix, cx, cy, k))
    ensures ColorAt(g, Drawn(g, clip, look, pix, cx, cy, k), x, y)
            == if AmongFirst(cx, cy, k, x, y) then Overlay(look, clip, cx, cy, x, y, ColorAt(g, pix, x, y))
                else ColorAt(g, pix, x, y)
  {
    hide ColorAt, SetPixel, MaskColor, IsPicture, ColOf, RowAt;
    if k > 0 {
      DrawnAt(g, clip, look, pix, cx, cy, k - 1, x, y);
      var before := Drawn(g, clip, look, pix, cx, cy, k - 1);
      var c := MaskColor(look, ColOf(k - 1), RowAt(k - 1));
      CellIsInside(k - 1);
      if c.Some? {
        SetPixelAt(g, clip, before, cx + ColOf(k - 1), cy + RowAt(k - 1), c.value, x, y);
      }
      if UnderCursor(cx, cy, x, y) {
        CellNumber(cx, cy, k, x, y);
      }
    }
  }

  lemma CellIsInside(k: nat)
    requires k < CURSOR_CELLS
    ensures ColOf(k) < CURSOR_W && RowAt(k) < CURSOR_H && RowAt(k) * 12 + ColOf(k) == k
  {
  }

  lemma {:induction false} RestoredAt(g: Grid, clip: Rect, pix: Bytes, cx: int, cy: int, saved: seq<Color>, k: nat,
      x: int, y: int)
    requires IsPicture(g, pix) && ClipOk(g, clip) && InGrid(g, x, y) && k <= CURSOR_CELLS == |saved|
    ensures IsPicture(g, Restored(g, clip, pix, cx, cy, saved, k))
    ensures ColorAt(g, Restored(g, clip, pix, cx, cy, saved, k), x, y)
            == if AmongFirst(cx, cy, k, x, y) && Contains(clip, x, y) then saved[(y - cy) * 12 + (x - cx)]
                else ColorAt(g, pix, x, y)
  {
    hide ColorAt, SetPixel, IsPicture, ColOf, RowAt;
    if k > 0 {
      RestoredAt(g, clip, pix, cx, cy, saved, k - 1, x, y);
      var before := Restored(g, clip, pix, cx, cy, saved, k - 1);
      CellIsInside(k - 1);
      SetPixelAt(g, clip, before, cx + ColOf(k - 1), cy + RowAt(k - 1), saved[k - 1], x, y);
      if UnderCursor(cx, cy, x, y) {
        CellNumber(cx, cy, k, x, y);
      }
    }
  }

  lemma PictureIsColours(g: Grid, a: Bytes, b: Bytes)
    requires IsPicture(g, a) && IsPicture(g, b)
    requires forall x, y | InGrid(g, x, y) :: ColorAt(g, a, x, y) == ColorAt(g, b, x, y)
    ensures a == b
  {
    hide Cell;
    forall x, y | InGrid(g, x, y) ensures Cell(g, a, x, y) == Cell(g, b, x, y) {
      assert ColorAt(g, a, x, y) == ColorAt(g, b, x, y);
      var c, d := Cell(g, a, x, y), Cell(g, b, x, y);
      assert c == [c[0], c[1], c[2], c[3]] && d == [d[0], d[1], d[2], d[3]];
    }
    CellsDecide(g, a, b);
  }

  /** Drawing the cursor and writing the saved colours back leaves every byte of the canvas as it was. */
  lemma RestoreUndoesDraw(g: Grid, clip: Rect, look: Look, pix: Bytes, cx: int, cy: int)
    requires IsPicture(g, pix) && ClipOk(g, clip)
    ensures Restored(g, clip, Drawn(g, clip, look, pix, cx, cy, CURSOR_CELLS), cx, cy,
                     Saved(g, pix, cx, cy, CURSOR_CELLS), CURSOR_CELLS) == pix
  {
    hide ColorAt, IsPicture, Drawn, Restored, MaskColor;
    var drawn, saved := Drawn(g, clip, look, pix, cx, cy, CURSOR_CELLS), Saved(g, pix, cx, cy, CURSOR_CELLS);
    DrawnIsPicture(g, clip, look, pix, cx, cy);
    var back := Restored(g, clip, drawn, cx, cy, saved, CURSOR_CELLS);
    RestoredIsPicture(g, clip, drawn, cx, cy, saved);
    forall x, y | InGrid(g, x, y) ensures ColorAt(g, back, x, y) == ColorAt(g, pix, x, y) {
      DrawnAt(g, clip, look, pix, cx, cy, CURSOR_CELLS, x, y);
      RestoredAt(g, clip, drawn, cx, cy, saved, CURSOR_CELLS, x, y);
      if UnderCursor(cx, cy, x, y) {
        var k := (y - cy) * 12 + (x - cx);
        CellNumber(cx, cy, k + 1, x, y);
      }
    }
    PictureIsColours(g, back, pix);
  }

  lemma {:induction false} DrawnIsPicture(g: Grid, clip: Rect, look: Look, pix: Bytes, cx: int, cy: int)
    requires IsPicture(g, pix) && ClipOk(g, clip)
    ensures IsPicture(g, Drawn(g, clip, look, pix, cx, cy, CURSOR_CELLS))
  {
    if g.w > 0 && g.h > 0 {
      DrawnAt(g, clip, look, pix, cx, cy, CURSOR_CELLS, 0, 0);
    } else {
      assert forall x, y :: !InGrid(g, x, y);
    }
  }

  lemma {:induction false} RestoredIsPicture(g: Grid, clip: Rect, pix: Bytes, cx: int, cy: int, saved: seq<Color>)
    requires IsPicture(g, pix) && ClipOk(g, clip) && |saved| == CURSOR_CELLS
    ensures IsPicture(g, Restored(g, clip, pix, cx, cy, saved, CURSOR_CELLS))
  {
    if g.w > 0 && g.h > 0 {
      RestoredAt(g, clip, pix, cx, cy, saved, CURSOR_CELLS, 0, 0);
    } else {
      assert forall x, y :: !InGrid(g, x, y);
    }
  }

  // ----- the framebuffer

  /** A component's place in the device's pixel value. */
  datatype Channel = Channel(offset: u32, length: u32)

  datatype Device = Device(grid: Grid, red: Channel, green: Channel, blue: Channel)

  /** One component: cut to its length, then moved to its place; the shift counts are uint32. */
  function Component(v: byte, c: Channel): u32 {
    ShiftLeft(ShiftRight(v as int, (8 - c.length) % 0x1_0000_0000), c.offset)
  }

  /** The device's value of a colour. */
  function Pack(d: Device, c: Color): u32 {
    Or(Or(Component(c.r, d.red), Component(c.g, d.green)), Component(c.b, d.blue))
  }

  predicate IsDevice(d: Device) {
    GridOk(d.grid) && 2 <= d.grid.size <= 4
  }

  /** The lowest bytes of a pixel value, lowest first: two, three or four of them. */
  function Lowest(v: u32, size: nat): (b: Bytes)
    requires 2 <= size <= 4
    ensures |b| == size
  {
    [LowByte(v), LowByte(ShiftRight(v, 8))] + (if size >= 3 then [LowByte(ShiftRight(v, 16))] else [])
    + (if size == 4 then [LowByte(ShiftRight(v, 24))] else [])
  }

  /** The bytes of one device pixel. */
  function DevicePixel(d: Device, c: Color): (b: Bytes)
    requires IsDevice(d)
    ensures |b| == d.grid.size
  {
    Lowest(Pack(d, c), d.grid.size)
  }

  /** What a flush of r really covers. */
  function FlushArea(d: Device, g: Grid, r: Rect): Rect { Intersect(Intersect(r, Bounds(g)), Bounds(d.grid)) }

  lemma FlushAreaIs(d: Device, g: Grid, r: Rect, x: int, y: int)
    ensures Contains(FlushArea(d, g, r), x, y) <==> Contains(r, x, y) && InGrid(g, x, y) && InGrid(d.grid, x, y)
  {
    IntersectIsOverlap(r, Bounds(g), x, y);
    IntersectIsOverlap(Intersect(r, Bounds(g)), Bounds(d.grid), x, y);
  }

  ghost predicate Showable(d: Device, g: Grid, a: Rect) {
    forall x, y | Contains(a, x, y) :: InGrid(g, x, y) && InGrid(d.grid, x, y)
  }

  /** Screen memory after the first k pixels of row y of area a. */
  function FlushedRow(d: Device, g: Grid, pix: Bytes, a: Rect, mem: Bytes, y: int, k: nat): (r: Bytes)
    requires IsDevice(d) && IsCanvas(g) && Fits(g, pix) && Fits(d.grid, mem) && Showable(d, g, a)
    requires k <= Max(a.w, 0) && a.y <= y < a.y + a.h
    ensures |r| == |mem|
  {
    if k == 0 then mem
    else
      var x := a.x + k - 1;
      assert Contains(a, x, y);
      PutCell(d.grid, FlushedRow(d, g, pix, a, mem, y, k - 1), x, y, DevicePixel(d, ColorAt(g, pix, x, y)))
  }

  /** Screen memory after the first n rows of area a. */
  function FlushedRows(d: Device, g: Grid, pix: Bytes, a: Rect, mem: Bytes, n: nat): (r: Bytes)
    requires IsDevice(d) && IsCanvas(g) && Fits(g, pix) && Fits(d.grid, mem) && Showable(d, g, a)
    requires n <= Max(a.h, 0)
    ensures |r| == |mem|
  {
    if n == 0 then mem
    else FlushedRow(d, g, pix, a, FlushedRows(d, g, pix, a, mem, n - 1), a.y + n - 1, Max(a.w, 0))
  }

  lemma AreaShowable(d: Device, g: Grid, r: Rect)
    ensures Showable(d, g, FlushArea(d, g, r))
    ensures FlushArea(d, g, r).w >= 0 && FlushArea(d, g, r).h >= 0
  {
    hide FlushArea;
    forall x, y | Contains(FlushArea(d, g, r), x, y) ensures InGrid(g, x, y) && InGrid(d.grid, x, y) {
      FlushAreaIs(d, g, r, x, y);
    }
    AreaSize(d, g, r);
  }

  lemma AreaSize(d: Device, g: Grid, r: Rect)
    ensures FlushArea(d, g, r).w >= 0 && FlushArea(d, g, r).h >= 0
  {
  }

  function Flushed(d: Device, g: Grid, pix: Bytes, r: Rect, mem: Bytes): (m: Bytes)
    requires IsDevice(d) && IsCanvas(g) && Fits(g, pix) && Fits(d.grid, mem)
    ensures |m| == |mem|
  {
    AreaShowable(d, g, r);
    FlushedRows(d, g, pix, FlushArea(d, g, r), mem, FlushArea(d, g, r).h)
  }

  lemma {:induction false} FlushedRowAt(d: Device, g: Grid, pix: Bytes, a: Rect, mem: Bytes, row: int, k: nat,
      x: int, y: int)
    requires IsDevice(d) && IsCanvas(g) && Fits(g, pix) && Fits(d.grid, mem) && Showable(d, g, a)
    requires k <= Max(a.w, 0) && a.y <= row < a.y + a.h && InGrid(d.grid, x, y)
    ensures Cell(d.grid, FlushedRow(d, g, pix, a, mem, row, k), x, y)
            == if y == row && a.x <= x < a.x + k then DevicePixel(d, ColorAt(g, pix, x, y)) else Cell(d.grid, mem, x, y)
  {
    hide Cell, PutCell, DevicePixel, ColorAt, IsDevice;
    if k > 0 {
      FlushedRowAt(d, g, pix, a, mem, row, k - 1, x, y);
      var u := a.x + k - 1;
      assert Contains(a, u, row);
      PixelSize(d, ColorAt(g, pix, u, row));
      var before := FlushedRow(d, g, pix, a, mem, row, k - 1);
      CellAfterPut(d.grid, before, u, row, DevicePixel(d, ColorAt(g, pix, u, row)), x, y);
    }
  }

  lemma PixelSize(d: Device, c: Color)
    requires IsDevice(d)
    ensures |DevicePixel(d, c)| == d.grid.size && GridOk(d.grid)
  {
  }

  lemma {:induction false} FlushedRowsAt(d: Device, g: Grid, pix: Bytes, a: Rect, mem: Bytes, n: nat, x: int, y: int)
    requires IsDevice(d) && IsCanvas(g) && Fits(g, pix) && Fits(d.grid, mem) && Showable(d, g, a)
    requires n <= Max(a.h, 0) && InGrid(d.grid, x, y)
    ensures Cell(d.grid, FlushedRows(d, g, pix, a, mem, n), x, y)
            == if a.y <= y < a.y + n && a.x <= x < a.x + a.w then DevicePixel(d, ColorAt(g, pix, x, y))
                else Cell(d.grid, mem, x, y)
  {
    hide Cell, FlushedRow, DevicePixel, ColorAt, IsDevice, Showable;
    if n > 0 {
      FlushedRowsAt(d, g, pix, a, mem, n - 1, x, y);
      FlushedRowAt(d, g, pix, a, FlushedRows(d, g, pix, a, mem, n - 1), a.y + n - 1, Max(a.w, 0), x, y);
    }
  }

  /** A flush writes the canvas's colours over its rectangle, where that meets both surfaces, and nothing else. */
  lemma FlushedAt(d: Device, g: Grid, pix: Bytes, r: Rect, mem: Bytes, x: int, y: int)
    requires IsDevice(d) && IsCanvas(g) && Fits(g, pix) && Fits(d.grid, mem) && InGrid(d.grid, x, y)
    ensures Cell(d.grid, Flushed(d, g, pix, r, mem), x, y)
            == if Contains(r, x, y) && InGrid(g, x, y) then DevicePixel(d, ColorAt(g, pix, x, y))
                else Cell(d.grid, mem, x, y)
  {
    hide Cell, FlushedRows, DevicePixel, ColorAt, IsDevice, FlushArea;
    AreaShowable(d, g, r);
    var a := FlushArea(d, g, r);
    FlushedRowsAt(d, g, pix, a, mem, a.h, x, y);
    FlushAreaIs(d, g, r, x, y);
  }

  // ----- the display: one canvas, one screen of its size, one cursor

  datatype Cursor = Cursor(x: int, y: int, visible: bool, cx: int, cy: int, look: Look)

  datatype Display = Display(g: Grid, clip: Rect, pix: Bytes, device: Device, mem: Bytes, cursor: Cursor)

  ghost predicate DisplayOk(s: Display) {
    && IsPicture(s.g, s.pix) && ClipOk(s.g, s.clip)
    && IsDevice(s.device) && Fits(s.device.grid, s.mem) && s.device.grid.w == s.g.w && s.device.grid.h == s.g.h
  }

  /** The canvas as it stands while it is flushed: with the cursor on it, if it is visible. */
  function WithCursor(s: Display): (pix: Bytes)
    requires DisplayOk(s)
    ensures IsCanvas(s.g) && Fits(s.g, pix)
  {
    if s.cursor.visible then Drawn(s.g, s.clip, s.cursor.look, s.pix, s.cursor.x, s.cursor.y, CURSOR_CELLS) else s.pix
  }

  /** The cursor after Draw: it remembers where it was drawn. */
  function AfterDraw(c: Cursor): Cursor { if c.visible then c.(cx := c.x, cy := c.y) else c }

  function LastBounds(c: Cursor): Rect { Rect(c.cx, c.cy, CURSOR_W, CURSOR_H) }

  function Presented(s: Display): Display
    requires DisplayOk(s)
  {
    s.(mem := Flushed(s.device, s.g, WithCursor(s), Bounds(s.g), s.mem), cursor := AfterDraw(s.cursor))
  }

  /** presentCursorMove: the area left behind from the clean canvas, then the new area with the cursor on. */
  function CursorPresented(s: Display, left: Rect): Display
    requires DisplayOk(s)
  {
    var cleared := Flushed(s.device, s.g, s.pix, left, s.mem);
    s.(mem := Flushed(s.device, s.g, WithCursor(s), LastBounds(AfterDraw(s.cursor)), cleared),
        cursor := AfterDraw(s.cursor))
  }

  /** The colour the user should see at (x, y). */
  function Seen(s: Display, x: int, y: int): Color
    requires DisplayOk(s)
  {
    var under := ColorAt(s.g, s.pix, x, y);
    if s.cursor.visible then Overlay(s.cursor.look, s.clip, s.cursor.cx, s.cursor.cy, x, y, under) else under
  }

  /** The screen shows the packed canvas with the cursor where it was last drawn. */
  ghost predicate Shows(s: Display) {
    && DisplayOk(s)
    && forall x, y | InGrid(s.g, x, y) :: Cell(s.device.grid, s.mem, x, y) == DevicePixel(s.device, Seen(s, x, y))
  }

  lemma WithCursorAt(s: Display, x: int, y: int)
    requires DisplayOk(s) && InGrid(s.g, x, y)
    ensures ColorAt(s.g, WithCursor(s), x, y)
            == if s.cursor.visible
               then Overlay(s.cursor.look, s.clip, s.cursor.x, s.cursor.y, x, y, ColorAt(s.g, s.pix, x, y))
               else ColorAt(s.g, s.pix, x, y)
  {
    hide ColorAt, Drawn, MaskColor;
    if s.cursor.visible {
      DrawnAt(s.g, s.clip, s.cursor.look, s.pix, s.cursor.x, s.cursor.y, CURSOR_CELLS, x, y);
    }
  }

  /** A full present shows everything, whatever was on the screen. */
  lemma PresentShows(s: Display)
    requires DisplayOk(s)
    ensures Shows(Presented(s))
  {
    hide ColorAt, Drawn, MaskColor, Overlay, Flushed, Cell, DevicePixel, WithCursor;
    var t := Presented(s);
    forall x, y | InGrid(s.g, x, y) ensures Cell(s.device.grid, t.mem, x, y) == DevicePixel(s.device, Seen(t, x, y)) {
      WithCursorAt(s, x, y);
      FlushedAt(s.device, s.g, WithCursor(s), Bounds(s.g), s.mem, x, y);
    }
  }

  /** Two small flushes after a move leave the same screen as a full present would. */
  lemma CursorMoveShows(s: Display, x': int, y': int)
    requires Shows(s)
    ensures Shows(CursorPresented(s.(cursor := s.cursor.(x := x', y := y')), LastBounds(s.cursor)))
  {
    hide ColorAt, Drawn, MaskColor, Flushed, Cell, DevicePixel, WithCursor;
    var moved := s.(cursor := s.cursor.(x := x', y := y'));
    var left := LastBounds(s.cursor);
    var t := CursorPresented(moved, left);
    var cleared := Flushed(s.device, s.g, s.pix, left, s.mem);
    forall x, y | InGrid(s.g, x, y) ensures Cell(s.device.grid, t.mem, x, y) == DevicePixel(s.device, Seen(t, x, y)) {
      WithCursorAt(moved, x, y);
      FlushedAt(s.device, s.g, s.pix, left, s.mem, x, y);
      FlushedAt(s.device, s.g, WithCursor(moved), LastBounds(AfterDraw(moved.cursor)), cleared, x, y);
    }
  }

  // ----- runs of the event loop

  /** An event, with the picture the wizard draws when it asks for a redraw. */
  datatype Event = MouseMove(x: int, y: int, redraw: Option<Bytes>) | Other(redraw: Option<Bytes>)

  ghost predicate EventOk(g: Grid, e: Event) { e.redraw.Some? ==> IsPicture(g, e.redraw.value) }

  function Redrawn(s: Display, redraw: Option<Bytes>): Display {
    if redraw.Some? then s.(pix := redraw.value) else s
  }

  function Handled(s: Display, e: Event): Display
    requires DisplayOk(s) && EventOk(s.g, e)
  {
    var moved := if e.MouseMove? then s.(cursor := s.cursor.(x := e.x, y := e.y)) else s;
    if e.redraw.Some? then Presented(Redrawn(moved, e.redraw))
    else if e.MouseMove? then CursorPresented(moved, LastBounds(s.cursor))
    else s
  }

  ghost predicate EventsOk(g: Grid, events: seq<Event>) { forall i | 0 <= i < |events| :: EventOk(g, events[i]) }

  lemma HandledShows(s: Display, e: Event)
    requires Shows(s) && EventOk(s.g, e)
    ensures Shows(Handled(s, e)) && Handled(s, e).g == s.g
    ensures Handled(s, e).pix == if e.redraw.Some? then e.redraw.value else s.pix
  {
    hide Seen, Presented, CursorPresented, Shows;
    var moved := if e.MouseMove? then s.(cursor := s.cursor.(x := e.x, y := e.y)) else s;
    ShownIsOk(s);
    if e.redraw.Some? {
      PresentShows(Redrawn(moved, e.redraw));
      PresentedKeeps(Redrawn(moved, e.redraw));
    } else if e.MouseMove? {
      CursorMoveShows(s, e.x, e.y);
      CursorPresentedKeeps(moved, LastBounds(s.cursor));
    }
  }

  lemma ShownIsOk(s: Display)
    requires Shows(s)
    ensures DisplayOk(s)
  {
  }

  lemma PresentedKeeps(s: Display)
    requires DisplayOk(s)
    ensures Presented(s).pix == s.pix && Presented(s).g == s.g
  {
    hide Flushed, WithCursor;
  }

  lemma CursorPresentedKeeps(s: Display, left: Rect)
    requires DisplayOk(s)
    ensures CursorPresented(s, left).pix == s.pix && CursorPresented(s, left).g == s.g
  {
    hide Flushed, WithCursor;
  }

  /** The display after a whole run of events. */
  function AfterAll(s: Display, events: seq<Event>): (t: Display)
    requires Shows(s) && EventsOk(s.g, events)
    ensures Shows(t) && t.g == s.g
    decreases |events|
  {
    if events == [] then s
    else
      HandledShows(s, events[0]);
      AfterAll(Handled(s, events[0]), events[1..])
  }

  /** The picture drawn last. */
  function LastPicture(first: Bytes, events: seq<Event>): Bytes
    decreases |events|
  {
    if events == [] then first
    else LastPicture(if events[0].redraw.Some? then events[0].redraw.value else first, events[1..])
  }

  /** Where the mouse was last. */
  function LastPlace(first: (int, int), events: seq<Event>): (int, int)
    decreases |events|
  {
    if events == [] then first
    else LastPlace(if events[0].MouseMove? then (events[0].x, events[0].y) else first, events[1..])
  }

  /** A visible cursor stands where it was last drawn. */
  predicate Settled(c: Cursor) { c.visible ==> c.cx == c.x && c.cy == c.y }

  /** What the screen should hold after a run: every pixel the packed colour of the last picture with the cursor at
      the last place of the mouse. Nothing of earlier pictures or earlier cursor places remains. */
  ghost predicate ShowsPicture(s: Display, picture: Bytes, place: (int, int))
    requires IsDevice(s.device) && Fits(s.device.grid, s.mem) && IsCanvas(s.g) && Fits(s.g, picture)
    requires s.device.grid.w == s.g.w && s.device.grid.h == s.g.h
  {
    forall x, y | InGrid(s.g, x, y) ::
      var under := ColorAt(s.g, picture, x, y);
      Cell(s.device.grid, s.mem, x, y)
      == DevicePixel(s.device, if s.cursor.visible
                               then Overlay(s.cursor.look, s.clip, place.0, place.1, x, y, under)
                               else under)
  }

  lemma HandledSettles(s: Display, e: Event)
    requires DisplayOk(s) && EventOk(s.g, e) && Settled(s.cursor)
    ensures var t := Handled(s, e);
            && Settled(t.cursor) && t.clip == s.clip
            && t.cursor.visible == s.cursor.visible && t.cursor.look == s.cursor.look
            && t.cursor.x == (if e.MouseMove? then e.x else s.cursor.x)
            && t.cursor.y == (if e.MouseMove? then e.y else s.cursor.y)
  {
    hide Flushed, WithCursor;
  }

  lemma AfterNone(s: Display)
    requires Shows(s)
    ensures AfterAll(s, []) == s
  {
  }

  lemma {:induction false} AfterOneMore(s: Display, events: seq<Event>, n: nat)
    requires Shows(s) && EventsOk(s.g, events) && n < |events|
    ensures EventsOk(s.g, events[..n]) && EventsOk(s.g, events[..n + 1])
    ensures AfterAll(s, events[..n + 1]) == Handled(AfterAll(s, events[..n]), events[n])
    decreases |events|
  {
    hide Handled, Shows;
    ShownIsOk(s);
    HandledShows(s, events[0]);
    if n > 0 {
      AfterOneMore(Handled(s, events[0]), events[1..], n - 1);
      assert events[1..][..n - 1] == events[..n][1..];
    }
    assert events[1..][..n] == events[..n + 1][1..];
  }

  lemma {:induction false} RunKeeps(s: Display, events: seq<Event>)
    requires Shows(s) && EventsOk(s.g, events) && Settled(s.cursor)
    ensures var t := AfterAll(s, events);
            && Settled(t.cursor) && t.clip == s.clip
            && t.cursor.visible == s.cursor.visible && t.cursor.look == s.cursor.look
            && t.pix == LastPicture(s.pix, events)
            && (t.cursor.x, t.cursor.y) == LastPlace((s.cursor.x, s.cursor.y), events)
    decreases |events|
  {
    hide Handled, Shows;
    if events != [] {
      ShownIsOk(s);
      HandledShows(s, events[0]);
      HandledSettles(s, events[0]);
      RunKeeps(Handled(s, events[0]), events[1..]);
    }
  }

  /** After any run of events the screen is what one full present of the last picture would have made of it. */
  lemma RunShows(s: Display, events: seq<Event>)
    requires Shows(s) && EventsOk(s.g, events) && Settled(s.cursor)
    ensures var t := AfterAll(s, events);
            && DisplayOk(t) && t.pix == LastPicture(s.pix, events)
            && ShowsPicture(t, LastPicture(s.pix, events), LastPlace((s.cursor.x, s.cursor.y), events))
  {
    hide AfterAll, DevicePixel, ColorAt, Overlay, Cell;
    RunKeeps(s, events);
    var t := AfterAll(s, events);
    var place := LastPlace((s.cursor.x, s.cursor.y), events);
    ShownIsOk(t);
    forall x, y | InGrid(t.g, x, y)
      ensures Cell(t.device.grid, t.mem, x, y)
              == DevicePixel(t.device, if t.cursor.visible
                                       then Overlay(t.cursor.look, t.clip, place.0, place.1, x, y,
                                                    ColorAt(t.g, t.pix, x, y))
                                       else ColorAt(t.g, t.pix, x, y))
    {
      assert Cell(t.device.grid, t.mem, x, y) == DevicePixel(t.device, Seen(t, x, y));
    }
  }
}
