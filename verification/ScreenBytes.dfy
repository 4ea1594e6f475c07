/** What stands in the screen's memory, byte by byte, on the usual layout of 32 bits a pixel. */
module ScreenBytes {
  import opened GoStrings
  import opened Grid
  import opened PixelBits
  import opened Screen

  predicate Usual(d: Device) {
    IsDevice(d) && d == Device(d.grid, Channel(16, 8), Channel(8, 8), Channel(0, 8)) && d.grid.size == 4
  }

  /** White, with a black border. */
  const ARROW: Look := Look(Color(255, 255, 255), Color(0, 0, 0))

  lemma PlaceInMemory(g: Grid, buf: Bytes, x: int, y: int)
    requires Fits(g, buf) && g.size == 4 && InGrid(g, x, y)
    ensures 0 <= y * g.stride + 4 * x && y * g.stride + 4 * x + 4 <= |buf|
    ensures Cell(g, buf, x, y) == buf[y * g.stride + 4 * x..y * g.stride + 4 * x + 4]
  {
    OffsetInside(g, x, y);
  }

  lemma CanvasBytes(g: Grid, pix: Bytes, x: int, y: int)
    requires IsCanvas(g) && Fits(g, pix) && InGrid(g, x, y)
    ensures var p := y * g.stride + 4 * x;
            0 <= p && p + 4 <= |pix| && ColorAt(g, pix, x, y) == Color(pix[p], pix[p + 1], pix[p + 2])
  {
    hide Cell;
    PlaceInMemory(g, pix, x, y);
    var p := y * g.stride + 4 * x;
    assert Cell(g, pix, x, y)[0] == pix[p];
    assert Cell(g, pix, x, y)[1] == pix[p + 1];
    assert Cell(g, pix, x, y)[2] == pix[p + 2];
  }

  /** Away from the cursor: the red, green and blue byte of the picture in the opposite order. */
  lemma PictureBytes(s: Display, picture: Bytes, place: (int, int), x: int, y: int)
    requires Usual(s.device) && Fits(s.device.grid, s.mem) && IsCanvas(s.g) && Fits(s.g, picture)
    requires s.device.grid.w == s.g.w && s.device.grid.h == s.g.h && ShowsPicture(s, picture, place)
    requires InGrid(s.g, x, y) && (s.cursor.visible ==> !UnderCursor(place.0, place.1, x, y))
    ensures var m, p := y * s.device.grid.stride + 4 * x, y * s.g.stride + 4 * x;
            && 0 <= m && m + 4 <= |s.mem| && 0 <= p && p + 4 <= |picture|
            && s.mem[m..m + 4] == [picture[p + 2], picture[p + 1], picture[p], 0]
  {
    hide Cell, ColorAt, DevicePixel, MaskColor;
    PlaceInMemory(s.device.grid, s.mem, x, y);
    CanvasBytes(s.g, picture, x, y);
    UsualPixel(s.device.grid, ColorAt(s.g, picture, x, y));
  }

  /** Cells of the arrow: its tip and left edge are border, the inside is fill, beside it the picture shows. */
  lemma ArrowCells(look: Look)
    ensures MaskColor(look, 0, 0) == Some(look.border) && MaskColor(look, 0, 13) == Some(look.border)
    ensures MaskColor(look, 1, 2) == Some(look.fill) && MaskColor(look, 1, 10) == Some(look.fill)
    ensures MaskColor(look, 2, 1) == None && MaskColor(look, 10, 1) == None
  {
  }

  /** Under the cursor: black at its tip, white inside. */
  lemma ArrowBytes(s: Display, picture: Bytes, place: (int, int), x: int, y: int)
    requires Usual(s.device) && Fits(s.device.grid, s.mem) && IsCanvas(s.g) && Fits(s.g, picture)
    requires s.device.grid.w == s.g.w && s.device.grid.h == s.g.h && ShowsPicture(s, picture, place)
    requires InGrid(s.g, x, y) && s.cursor.visible && s.cursor.look == ARROW && Contains(s.clip, x, y)
    requires (x, y) == place || (x, y) == (place.0 + 1, place.1 + 2)
    ensures var m := y * s.device.grid.stride + 4 * x;
            && 0 <= m && m + 4 <= |s.mem|
            && s.mem[m..m + 4] == if (x, y) == place then [0, 0, 0, 0] else [255, 255, 255, 0]
  {
    hide Cell, ColorAt, DevicePixel, MaskColor;
    PlaceInMemory(s.device.grid, s.mem, x, y);
    ArrowCells(ARROW);
    UsualPixel(s.device.grid, ARROW.fill);
    UsualPixel(s.device.grid, ARROW.border);
  }
}
