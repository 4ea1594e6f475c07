/** The buffers and loops that draw and flush: canvas.go, cursor.go, fb_linux.go and session_linux.go in
    internal/fbui. */
module ScreenSession {
  import opened GoStrings
  import opened Bits
  import opened Grid
  import opened Screen

  class Canvas {
    const g: Grid
    const pix: array<byte>
    var clip: Rect

    ghost predicate Valid()
      reads this, pix
    {
      IsCanvas(g) && Fits(g, pix[..]) && ClipOk(g, clip)
    }

    /** An opaque black canvas. */
    constructor (w: nat, h: nat)
      ensures Valid() && g == Grid(4 * w, 4, w, h) && clip == Bounds(g) && IsPicture(g, pix[..])
      ensures fresh(pix)
    {
      g := Grid(4 * w, 4, w, h);
      pix := new byte[h * (4 * w)](i => if i % 4 == 3 then 255 else 0);
      clip := Rect(0, 0, w, h);
      new;
      hide IsPicture, Fits;
      BlackPicture(w, h, pix[..]);
    }

    /** Narrow the drawing area and give the previous one back. */
    method Clip(r: Rect) returns (previous: Rect)
      requires Valid()
      modifies this`clip
      ensures Valid() && previous == old(clip)
      ensures forall x, y :: Contains(clip, x, y) <==> Contains(old(clip), x, y) && Contains(r, x, y)
    {
      previous := clip;
      forall x, y ensures Contains(Intersect(clip, r), x, y) <==> Contains(clip, x, y) && Contains(r, x, y) {
        IntersectIsOverlap(clip, r, x, y);
      }
      clip := Intersect(clip, r);
    }

    method Set(x: int, y: int, c: Color)
      requires Valid()
      modifies pix
      ensures Valid() && pix[..] == SetPixel(g, clip, old(pix[..]), x, y, c)
    {
      if !Contains(clip, x, y) {
        return;
      }
      OffsetInside(g, x, y);
      var i := y * g.stride + x * 4;
      assert i == Offset(g, x, y);
      pix[i] := c.r;
      pix[i + 1] := c.g;
      pix[i + 2] := c.b;
      pix[i + 3] := 255;
    }

    /** Whatever the widgets draw: the canvas ends up holding some other opaque picture. */
    method Repaint(picture: Bytes)
      requires Valid() && IsPicture(g, picture) && pix.Length == |picture|
      modifies pix
      ensures Valid() && pix[..] == picture
    {
      forall i | 0 <= i < pix.Length {
        pix[i] := picture[i];
      }
    }

    method Get(x: int, y: int) returns (c: Color)
      requires Valid()
      ensures c == ColorAt(g, pix[..], x, y)
    {
      if x < 0 || y < 0 || x >= g.w || y >= g.h {
        return BLACK;
      }
      OffsetInside(g, x, y);
      var i := y * g.stride + x * 4;
      assert i == Offset(g, x, y);
      c := Color(pix[i], pix[i + 1], pix[i + 2]);
    }
  }

  lemma BlackPicture(w: nat, h: nat, pix: Bytes)
    requires |pix| == h * (4 * w)
    requires forall i | 0 <= i < |pix| :: pix[i] == if i % 4 == 3 then 255 else 0
    ensures IsPicture(Grid(4 * w, 4, w, h), pix)
  {
    var g := Grid(4 * w, 4, w, h);
    forall x, y | InGrid(g, x, y) ensures Cell(g, pix, x, y)[3] == 255 {
      OffsetInside(g, x, y);
      assert y * (4 * w) == 4 * (y * w);
      assert Cell(g, pix, x, y)[3] == pix[Offset(g, x, y) + 3];
    }
  }

  class MouseCursor {
    var x: int
    var y: int
    var visible: bool
    const backup: array<byte>
    var backedUp: bool
    var cx: int
    var cy: int
    const look: Look

    ghost predicate Valid()
      reads this
    {
      backup.Length == 3 * CURSOR_CELLS
    }

    constructor ()
      ensures Valid() && visible && !backedUp && fresh(backup) && x == y == cx == cy == 0
      ensures look == Look(Color(255, 255, 255), Color(0, 0, 0))
    {
      x, y, cx, cy := 0, 0, 0, 0;
      visible, backedUp := true, false;
      backup := new byte[3 * CURSOR_CELLS];
      look := Look(Color(255, 255, 255), BLACK);
    }

    function Value(): Cursor
      reads this
    {
      Cursor(x, y, visible, cx, cy, look)
    }

    /** The first k saved colours. */
    ghost predicate Holds(saved: seq<Color>, k: nat)
      requires Valid() && k <= |saved| && k <= CURSOR_CELLS
      reads this, backup
    {
      forall i | 0 <= i < k :: Color(backup[3 * i], backup[3 * i + 1], backup[3 * i + 2]) == saved[i]
    }

    lemma SavedAt(saved: seq<Color>, k: nat, i: nat)
      requires Valid() && k <= |saved| && k <= CURSOR_CELLS && Holds(saved, k) && i < k
      ensures Color(backup[3 * i], backup[3 * i + 1], backup[3 * i + 2]) == saved[i]
    {
    }

    method SetVisible(v: bool)
      modifies this`visible
      ensures visible == v
    {
      visible := v;
    }

    method MoveTo(x: int, y: int)
      modifies this`x, this`y
      ensures this.x == x && this.y == y
    {
      this.x, this.y := x, y;
    }

    /** One cell of the cursor: keep the colour under it, then paint it. */
    method DrawCell(c: Canvas, row: nat, col: nat, i: nat, ghost before: Bytes, ghost saved: seq<Color>)
      requires Valid() && c.Valid() && IsPicture(c.g, before) && backup != c.pix
      requires row < CURSOR_H && col < CURSOR_W && i == 3 * (row * CURSOR_W + col)
      requires saved == Saved(c.g, before, cx, cy, CURSOR_CELLS) && Holds(saved, row * CURSOR_W + col)
      requires c.pix[..] == Drawn(c.g, c.clip, look, before, cx, cy, row * CURSOR_W + col)
      modifies backup, c.pix
      ensures c.Valid() && Holds(saved, row * CURSOR_W + col + 1)
      ensures c.pix[..] == Drawn(c.g, c.clip, look, before, cx, cy, row * CURSOR_W + col + 1)
    {
      hide Cell, IsPicture, ColorAt, SetPixel, MaskColor, ColOf, RowAt;
      ghost var k := row * CURSOR_W + col;
      NextCell(row, col);
      CellStillClean(c.g, c.clip, look, before, cx, cy, k);
      var under := c.Get(cx + col, cy + row);
      assert under == saved[k];
      Keep(i, under, saved);
      var color := MaskColor(look, col, row);
      if color.Some? {
        c.Set(cx + col, cy + row, color.value);
      }
    }

    method Keep(i: nat, under: Color, ghost saved: seq<Color>)
      requires Valid() && i % 3 == 0 && i + 3 <= 3 * CURSOR_CELLS && |saved| == CURSOR_CELLS
      requires Holds(saved, i / 3) && under == saved[i / 3]
      modifies backup
      ensures Holds(saved, i / 3 + 1)
    {
      backup[i] := under.r;
      backup[i + 1] := under.g;
      backup[i + 2] := under.b;
    }

    /** All cells, row by row. */
    method DrawCells(c: Canvas)
      requires Valid() && c.Valid() && IsPicture(c.g, c.pix[..]) && backup != c.pix
      modifies backup, c.pix
      ensures c.Valid() && Holds(Saved(c.g, old(c.pix[..]), cx, cy, CURSOR_CELLS), CURSOR_CELLS)
      ensures c.pix[..] == Drawn(c.g, c.clip, look, old(c.pix[..]), cx, cy, CURSOR_CELLS)
    {
      hide Cell, IsPicture, ColorAt, SetPixel, MaskColor, ColOf, RowAt, Fits, Saved, Drawn;
      ghost var before := c.pix[..];
      ghost var saved := Saved(c.g, before, cx, cy, CURSOR_CELLS);
      NothingDrawn(c.g, c.clip, look, before, cx, cy);
      var i := 0;
      for row := 0 to CURSOR_H
        invariant c.Valid() && i == 3 * (row * CURSOR_W)
        invariant c.pix[..] == Drawn(c.g, c.clip, look, before, cx, cy, row * CURSOR_W)
        invariant Holds(saved, row * CURSOR_W)
      {
        for col := 0 to CURSOR_W
          invariant c.Valid() && i == 3 * (row * CURSOR_W + col)
          invariant c.pix[..] == Drawn(c.g, c.clip, look, before, cx, cy, row * CURSOR_W + col)
          invariant Holds(saved, row * CURSOR_W + col)
        {
          DrawCell(c, row, col, i, before, saved);
          i := i + 3;
        }
      }
    }

    /** Put the cursor on the canvas, keeping the colours it covers. */
    method Draw(c: Canvas)
      requires Valid() && c.Valid() && IsPicture(c.g, c.pix[..]) && backup != c.pix
      modifies this`backedUp, this`cx, this`cy, backup, c.pix
      ensures Valid() && c.Valid() && Value() == AfterDraw(old(Value()))
      ensures !visible ==> c.pix[..] == old(c.pix[..]) && backedUp == old(backedUp)
      ensures visible ==>
                && backedUp
                && c.pix[..] == Drawn(c.g, c.clip, look, old(c.pix[..]), x, y, CURSOR_CELLS)
                && Holds(Saved(c.g, old(c.pix[..]), x, y, CURSOR_CELLS), CURSOR_CELLS)
    {
      hide Cell, IsPicture, ColorAt, SetPixel, Fits, Saved, Drawn;
      if !visible {
        return;
      }
      cx, cy := x, y;
      DrawCells(c);
      backedUp := true;
    }

    /** One cell of the cursor: its kept colour goes back. */
    method RestoreCell(c: Canvas, row: nat, col: nat, i: nat, ghost before: Bytes, ghost saved: seq<Color>)
      requires Valid() && c.Valid() && backup != c.pix && Fits(c.g, before)
      requires row < CURSOR_H && col < CURSOR_W && i == 3 * (row * CURSOR_W + col)
      requires |saved| == CURSOR_CELLS && Holds(saved, CURSOR_CELLS)
      requires c.pix[..] == Restored(c.g, c.clip, before, cx, cy, saved, row * CURSOR_W + col)
      modifies c.pix
      ensures c.Valid() && Holds(saved, CURSOR_CELLS)
      ensures c.pix[..] == Restored(c.g, c.clip, before, cx, cy, saved, row * CURSOR_W + col + 1)
    {
      hide SetPixel, ColOf, RowAt, Restored;
      ghost var k := row * CURSOR_W + col;
      NextCell(row, col);
      NextRestored(c.g, c.clip, before, cx, cy, saved, k);
      SavedAt(saved, CURSOR_CELLS, k);
      c.Set(cx + col, cy + row, Color(backup[i], backup[i + 1], backup[i + 2]));
    }

    /** Put back the colours Draw covered. */
    method Restore(c: Canvas, ghost saved: seq<Color>)
      requires Valid() && c.Valid() && backup != c.pix
      requires |saved| == CURSOR_CELLS && (backedUp ==> Holds(saved, CURSOR_CELLS))
      modifies this`backedUp, c.pix
      ensures c.Valid() && !backedUp
      ensures c.pix[..] == if old(backedUp) then Restored(c.g, c.clip, old(c.pix[..]), cx, cy, saved, CURSOR_CELLS)
                           else old(c.pix[..])
    {
      if !backedUp {
        return;
      }
      hide SetPixel, ColOf, RowAt, Restored;
      ghost var before := c.pix[..];
      NothingRestored(c.g, c.clip, before, cx, cy, saved);
      var i := 0;
      for row := 0 to CURSOR_H
        invariant c.Valid() && i == 3 * (row * CURSOR_W) && Holds(saved, CURSOR_CELLS)
        invariant c.pix[..] == Restored(c.g, c.clip, before, cx, cy, saved, row * CURSOR_W)
      {
        for col := 0 to CURSOR_W
          invariant c.Valid() && i == 3 * (row * CURSOR_W + col) && Holds(saved, CURSOR_CELLS)
          invariant c.pix[..] == Restored(c.g, c.clip, before, cx, cy, saved, row * CURSOR_W + col)
        {
          RestoreCell(c, row, col, i, before, saved);
          i := i + 3;
        }
      }
      backedUp := false;
    }
  }

  lemma NothingDrawn(g: Grid, clip: Rect, look: Look, pix: Bytes, cx: int, cy: int)
    requires IsCanvas(g) && Fits(g, pix) && ClipOk(g, clip)
    ensures Drawn(g, clip, look, pix, cx, cy, 0) == pix
  {
  }

  lemma NothingRestored(g: Grid, clip: Rect, pix: Bytes, cx: int, cy: int, saved: seq<Color>)
    requires IsCanvas(g) && Fits(g, pix) && ClipOk(g, clip)
    ensures Restored(g, clip, pix, cx, cy, saved, 0) == pix
  {
  }

  lemma NextRestored(g: Grid, clip: Rect, pix: Bytes, cx: int, cy: int, saved: seq<Color>, k: nat)
    requires IsCanvas(g) && Fits(g, pix) && ClipOk(g, clip) && k < |saved|
    ensures Restored(g, clip, pix, cx, cy, saved, k + 1)
            == SetPixel(g, clip, Restored(g, clip, pix, cx, cy, saved, k), cx + ColOf(k), cy + RowAt(k), saved[k])
  {
    hide SetPixel, ColOf, RowAt;
  }

  lemma NextCell(row: nat, col: nat)
    requires row < CURSOR_H && col < CURSOR_W
    ensures row * CURSOR_W + col < CURSOR_CELLS
    ensures ColOf(row * CURSOR_W + col) == col && RowAt(row * CURSOR_W + col) == row
  {
  }

  /** The k-th cell is not touched by drawing the cells before it. */
  lemma CellStillClean(g: Grid, clip: Rect, look: Look, pix: Bytes, cx: int, cy: int, k: nat)
    requires IsPicture(g, pix) && ClipOk(g, clip) && k < CURSOR_CELLS
    ensures ColorAt(g, Drawn(g, clip, look, pix, cx, cy, k), cx + ColOf(k), cy + RowAt(k))
            == ColorAt(g, pix, cx + ColOf(k), cy + RowAt(k))
  {
    hide Cell, MaskColor, Drawn;
    var x, y := cx + ColOf(k), cy + RowAt(k);
    if InGrid(g, x, y) {
      DrawnAt(g, clip, look, pix, cx, cy, k, x, y);
      CellNumber(cx, cy, k + 1, x, y);
    }
  }

  lemma Between(before: Bytes, after: Bytes, dst: nat, size: nat)
    requires |after| == |before| && dst + size <= |before|
    requires forall k | 0 <= k < |before| && !(dst <= k < dst + size) :: after[k] == before[k]
    ensures after == before[..dst] + after[dst..dst + size] + before[dst + size..]
  {
  }

  class Framebuffer {
    const device: Device
    const mem: array<byte>

    ghost predicate Valid()
      reads this, mem
    {
      IsDevice(device) && Fits(device.grid, mem[..])
    }

    constructor (device: Device, mem: array<byte>)
      requires IsDevice(device) && Fits(device.grid, mem[..])
      ensures this.device == device && this.mem == mem && Valid()
    {
      this.device, this.mem := device, mem;
    }

    method Store(dst: nat, v: u32)
      requires IsDevice(device) && dst + device.grid.size <= mem.Length
      modifies mem
      ensures mem[..] == old(mem[..dst]) + Lowest(v, device.grid.size) + old(mem[dst + device.grid.size..])
    {
      hide LowByte, ShiftRight;
      ghost var before := mem[..];
      mem[dst] := LowByte(v);
      mem[dst + 1] := LowByte(ShiftRight(v, 8));
      if device.grid.size >= 3 {
        mem[dst + 2] := LowByte(ShiftRight(v, 16));
      }
      if device.grid.size == 4 {
        mem[dst + 3] := LowByte(ShiftRight(v, 24));
      }
      assert mem[dst..dst + device.grid.size] == Lowest(v, device.grid.size);
      Between(before, mem[..], dst, device.grid.size);
    }

    /** Move one area of the canvas to the screen. */
    method FlushRect(c: Canvas, r: Rect)
      requires Valid() && c.Valid() && mem != c.pix
      modifies mem
      ensures Valid() && mem[..] == Flushed(device, c.g, c.pix[..], r, old(mem[..]))
    {
      hide Cell, PutCell, ColorAt, Pack, Lowest, FlushArea, IsDevice;
      AreaShowable(device, c.g, r);
      var a := FlushArea(device, c.g, r);
      ghost var before, pix := mem[..], c.pix[..];
      if a.w <= 0 || a.h <= 0 {
        NothingFlushed(device, c.g, pix, r, before);
        return;
      }
      for row := 0 to a.h
        invariant Valid()
        invariant mem[..] == FlushedRows(device, c.g, pix, a, before, row)
      {
        FlushOneRow(c, a, a.y + row);
      }
    }

    method FlushPixel(c: Canvas, x: int, y: int, src: nat, dst: nat)
      requires Valid() && c.Valid() && mem != c.pix && InGrid(c.g, x, y) && InGrid(device.grid, x, y)
      requires src == Offset(c.g, x, y) && dst == Offset(device.grid, x, y)
      modifies mem
      ensures Valid()
      ensures mem[..] == PutCell(device.grid, old(mem[..]), x, y, DevicePixel(device, ColorAt(c.g, c.pix[..], x, y)))
    {
      hide Cell, PutCell, ColorAt, Pack, Lowest, DevicePixel, Offset;
      OffsetInside(c.g, x, y);
      OffsetInside(device.grid, x, y);
      var v := Pack(device, Color(c.pix[src], c.pix[src + 1], c.pix[src + 2]));
      StoredIsPut(device, c.g, c.pix[..], mem[..], x, y);
      Store(dst, v);
    }

    method FlushOneRow(c: Canvas, a: Rect, y: int)
      requires Valid() && c.Valid() && mem != c.pix
      requires Showable(device, c.g, a) && a.w > 0 && a.y <= y < a.y + a.h
      modifies mem
      ensures Valid() && mem[..] == FlushedRow(device, c.g, c.pix[..], a, old(mem[..]), y, a.w)
    {
      hide Cell, Pack, Lowest, IsDevice, PutCell, ColorAt, DevicePixel;
      ghost var before, pix := mem[..], c.pix[..];
      assert Contains(a, a.x, y);
      var src := y * c.g.stride + a.x * 4;
      var dst := y * device.grid.stride + a.x * device.grid.size;
      for k := 0 to a.w
        invariant Valid()
        invariant src == y * c.g.stride + (a.x + k) * 4 && dst == y * device.grid.stride + (a.x + k) * device.grid.size
        invariant mem[..] == FlushedRow(device, c.g, pix, a, before, y, k)
      {
        assert Contains(a, a.x + k, y);
        OffsetInside(c.g, a.x + k, y);
        OffsetInside(device.grid, a.x + k, y);
        FlushPixel(c, a.x + k, y, src, dst);
        src := src + 4;
        NextOffset(device.grid.size, a.x + k);
        dst := dst + device.grid.size;
      }
    }

    method Flush(c: Canvas)
      requires Valid() && c.Valid() && mem != c.pix
      modifies mem
      ensures Valid() && mem[..] == Flushed(device, c.g, c.pix[..], Bounds(c.g), old(mem[..]))
    {
      FlushRect(c, Rect(0, 0, c.g.w, c.g.h));
    }
  }

  lemma NextOffset(size: nat, x: int)
    ensures (x + 1) * size == x * size + size
  {
  }

  /** Storing a packed colour at its offset is writing its cell. */
  lemma StoredIsPut(d: Device, g: Grid, pix: Bytes, mem: Bytes, x: int, y: int)
    requires IsDevice(d) && IsCanvas(g) && Fits(g, pix) && Fits(d.grid, mem) && InGrid(g, x, y) && InGrid(d.grid, x, y)
    ensures Offset(g, x, y) + 4 <= |pix| && Offset(d.grid, x, y) + d.grid.size <= |mem|
    ensures var i, o := Offset(g, x, y), Offset(d.grid, x, y);
            PutCell(d.grid, mem, x, y, DevicePixel(d, ColorAt(g, pix, x, y)))
            == mem[..o] + Lowest(Pack(d, Color(pix[i], pix[i + 1], pix[i + 2])), d.grid.size) + mem[o + d.grid.size..]
  {
    hide Pack, Lowest;
    OffsetInside(g, x, y);
    OffsetInside(d.grid, x, y);
  }

  lemma NothingFlushed(d: Device, g: Grid, pix: Bytes, r: Rect, mem: Bytes)
    requires IsDevice(d) && IsCanvas(g) && Fits(g, pix) && Fits(d.grid, mem)
    requires FlushArea(d, g, r).w <= 0 || FlushArea(d, g, r).h <= 0
    ensures Flushed(d, g, pix, r, mem) == mem
  {
    hide FlushArea;
    AreaShowable(d, g, r);
    EmptyRows(d, g, pix, FlushArea(d, g, r), mem, FlushArea(d, g, r).h);
  }

  lemma {:induction false} EmptyRows(d: Device, g: Grid, pix: Bytes, a: Rect, mem: Bytes, n: nat)
    requires IsDevice(d) && IsCanvas(g) && Fits(g, pix) && Fits(d.grid, mem) && Showable(d, g, a)
    requires n <= Max(a.h, 0) && (a.w <= 0 || n == 0)
    ensures FlushedRows(d, g, pix, a, mem, n) == mem
  {
    if n > 0 {
      EmptyRows(d, g, pix, a, mem, n - 1);
    }
  }

  /** The first full present settles the cursor. */
  lemma FirstShown(s: Display)
    requires DisplayOk(s)
    ensures var t := Presented(s);
            && Shows(t) && Settled(t.cursor) && t.pix == s.pix && t.g == s.g
            && t.cursor.x == s.cursor.x && t.cursor.y == s.cursor.y && t.cursor.visible == s.cursor.visible
  {
    hide Flushed, WithCursor, Shows;
    PresentShows(s);
  }

  class Session {
    const fb: Framebuffer
    const canvas: Canvas
    const cursor: MouseCursor

    /** Outside a present the cursor is off the canvas. */
    ghost predicate Valid()
      reads fb, fb.mem, canvas, canvas.pix, cursor, cursor.backup
    {
      && fb.Valid() && canvas.Valid() && cursor.Valid() && !cursor.backedUp
      && IsPicture(canvas.g, canvas.pix[..])
      && fb.device.grid.w == canvas.g.w && fb.device.grid.h == canvas.g.h
      && canvas.pix != fb.mem && canvas.pix != cursor.backup && fb.mem != cursor.backup
    }

    ghost function View(): (s: Display)
      requires Valid()
      reads fb, fb.mem, canvas, canvas.pix, cursor, cursor.backup
      ensures DisplayOk(s)
    {
      Display(canvas.g, canvas.clip, canvas.pix[..], fb.device, fb.mem[..], cursor.Value())
    }

    /** Without input devices the cursor is hidden, with them it starts in the middle. */
    constructor (fb: Framebuffer, hasInput: bool)
      requires fb.Valid()
      ensures Valid() && this.fb == fb && cursor.visible == hasInput
      ensures cursor.look == Look(Color(255, 255, 255), Color(0, 0, 0))
      ensures hasInput ==> cursor.x == fb.device.grid.w / 2 && cursor.y == fb.device.grid.h / 2
      ensures fresh(canvas) && fresh(canvas.pix) && fresh(cursor) && fresh(cursor.backup)
    {
      var c := new Canvas(fb.device.grid.w, fb.device.grid.h);
      var m := new MouseCursor();
      if hasInput {
        m.MoveTo(fb.device.grid.w / 2, fb.device.grid.h / 2);
      } else {
        m.SetVisible(false);
      }
      this.fb, canvas, cursor := fb, c, m;
    }

    method Present()
      requires Valid()
      modifies fb.mem, canvas.pix, cursor, cursor.backup
      ensures Valid() && View() == Presented(old(View()))
    {
      hide IsPicture, Drawn, Restored, Flushed, Saved, ClipOk, IsDevice, Fits, Shows;
      ghost var s := View();
      ghost var saved := Saved(canvas.g, s.pix, s.cursor.x, s.cursor.y, CURSOR_CELLS);
      RestoreUndoesDraw(s.g, s.clip, s.cursor.look, s.pix, s.cursor.x, s.cursor.y);
      cursor.Draw(canvas);
      fb.Flush(canvas);
      cursor.Restore(canvas, saved);
    }

    method PresentCursorMove(left: Rect)
      requires Valid()
      modifies fb.mem, canvas.pix, cursor, cursor.backup
      ensures Valid() && View() == CursorPresented(old(View()), left)
    {
      hide IsPicture, Drawn, Restored, Flushed, Saved, ClipOk, IsDevice, Fits, Shows;
      ghost var s := View();
      ghost var saved := Saved(canvas.g, s.pix, s.cursor.x, s.cursor.y, CURSOR_CELLS);
      RestoreUndoesDraw(s.g, s.clip, s.cursor.look, s.pix, s.cursor.x, s.cursor.y);
      fb.FlushRect(canvas, left);
      cursor.Draw(canvas);
      fb.FlushRect(canvas, Rect(cursor.cx, cursor.cy, CURSOR_W, CURSOR_H));
      cursor.Restore(canvas, saved);
    }

    /** One turn of the event loop. */
    method Handle(e: Event)
      requires Valid() && EventOk(canvas.g, e)
      modifies fb.mem, canvas.pix, cursor, cursor.backup
      ensures Valid() && View() == Handled(old(View()), e)
    {
      hide IsPicture, Presented, CursorPresented, ClipOk, IsDevice, Fits;
      var left := Rect(cursor.cx, cursor.cy, CURSOR_W, CURSOR_H);
      if e.MouseMove? {
        cursor.MoveTo(e.x, e.y);
      }
      if e.redraw.Some? {
        canvas.Repaint(e.redraw.value);
        Present();
      } else if e.MouseMove? {
        PresentCursorMove(left);
      }
    }

    method Run(first: Bytes, events: seq<Event>)
      requires Valid() && IsPicture(canvas.g, first) && EventsOk(canvas.g, events)
      modifies fb.mem, canvas.pix, cursor, cursor.backup
      ensures Valid() && canvas.pix[..] == LastPicture(first, events) && cursor.visible == old(cursor.visible)
      ensures ShowsPicture(View(), LastPicture(first, events), LastPlace(old((cursor.x, cursor.y)), events))
    {
      hide IsPicture, Presented, ClipOk, IsDevice, Fits, Handled, AfterAll, ShowsPicture, Shows, LastPicture,
          LastPlace, Flushed;
      canvas.Repaint(first);
      FirstShown(View());
      Present();
      ghost var start := View();
      AfterNone(start);
      assert events[..0] == [];
      for n := 0 to |events|
        invariant Valid() && EventsOk(start.g, events[..n]) && View() == AfterAll(start, events[..n])
      {
        AfterOneMore(start, events, n);
        Handle(events[n]);
      }
      assert events[..|events|] == events;
      RunKeeps(start, events);
      RunShows(start, events);
    }
  }
}
