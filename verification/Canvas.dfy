/** Canvases as noVNC's display uses them: pixels that are opaque or have never been
    drawn, source-over drawing, and the browser's clipping. */
module CanvasModel {

  datatype Pixel = Clear | Solid(rgb: int)

  datatype Canvas = Canvas(width: int, height: int, at: (int, int) -> Pixel)

  /** What a canvas shows; outside it there is nothing. */
  function Look(c: Canvas, x: int, y: int): Pixel {
    if 0 <= x < c.width && 0 <= y < c.height then c.at(x, y) else Clear
  }

  /** Assigning width or height clears a canvas. */
  function Blank(width: int, height: int): Canvas {
    Canvas(width, height, (x, y) => Clear)
  }

  predicate InRect(x: int, y: int, left: int, top: int, width: int, height: int) {
    left <= x < left + width && top <= y < top + height
  }

  function Fill(c: Canvas, left: int, top: int, width: int, height: int, color: int): Canvas {
    c.(at := (x, y) => if InRect(x, y, left, top, width, height) then Solid(color) else c.at(x, y))
  }

  function Over(below: Pixel, above: Pixel): Pixel { if above.Clear? then below else above }

  /** drawImage(src, sx, sy, width, height, dx, dy, width, height) */
  function Draw(c: Canvas, src: Canvas, sx: int, sy: int, width: int, height: int, dx: int, dy: int): Canvas {
    c.(at := (x, y) =>
      if InRect(x, y, dx, dy, width, height) then Over(c.at(x, y), Look(src, sx + x - dx, sy + y - dy))
      else c.at(x, y))
  }

  /** putImageData replaces pixels. */
  function Put(c: Canvas, data: Canvas, dx: int, dy: int): Canvas {
    c.(at := (x, y) =>
      if InRect(x, y, dx, dy, data.width, data.height) then Look(data, x - dx, y - dy) else c.at(x, y))
  }

  /** Display.resize: a new size, the old contents put back. */
  function Resized(c: Canvas, width: int, height: int): Canvas {
    if c.width == width && c.height == height then c
    else if c.width > 0 && c.height > 0 then Put(Blank(width, height), c, 0, 0)
    else Blank(width, height)
  }

  /** A resize keeps what lies inside the new size. */
  lemma LookResized(c: Canvas, width: int, height: int, x: int, y: int)
    ensures Look(Resized(c, width, height), x, y) == if 0 <= x < width && 0 <= y < height then Look(c, x, y) else Clear
  {
    var put := Put(Blank(width, height), c, 0, 0);
    assert put.at(x, y) == if InRect(x, y, 0, 0, c.width, c.height) then Look(c, x - 0, y - 0) else Clear;
  }

  lemma ResizedSize(c: Canvas, width: int, height: int)
    ensures Resized(c, width, height).width == width && Resized(c, width, height).height == height
  {
  }

  lemma LookBlank(width: int, height: int, x: int, y: int)
    ensures Look(Blank(width, height), x, y) == Clear
  {
  }

  lemma LookFill(c: Canvas, left: int, top: int, width: int, height: int, color: int, x: int, y: int)
    requires 0 <= x < c.width && 0 <= y < c.height
    ensures Look(Fill(c, left, top, width, height, color), x, y)
         == if left <= x < left + width && top <= y < top + height then Solid(color) else Look(c, x, y)
  {
    assert InRect(x, y, left, top, width, height) <==> left <= x < left + width && top <= y < top + height;
  }

  /** Pixels in rows, taken from position start of a buffer on. */
  function Picture(buffer: seq<int>, start: nat, width: nat, height: nat): Canvas {
    Canvas(width, height, (x, y) =>
      var k := start + y * width + x;
      if 0 <= k < |buffer| then Solid(buffer[k]) else Clear)
  }

  ghost predicate SameLook(a: Canvas, b: Canvas) {
    forall x, y :: Look(a, x, y) == Look(b, x, y)
  }

  lemma LookPut(c: Canvas, data: Canvas, dx: int, dy: int, x: int, y: int)
    ensures Look(Put(c, data, dx, dy), x, y)
         == if 0 <= x < c.width && 0 <= y < c.height && dx <= x < dx + data.width && dy <= y < dy + data.height
            then Look(data, x - dx, y - dy) else Look(c, x, y)
  {
    assert InRect(x, y, dx, dy, data.width, data.height)
      <==> dx <= x < dx + data.width && dy <= y < dy + data.height;
  }

  lemma PutsLookAlike(c: Canvas, a: Canvas, b: Canvas, dx: int, dy: int)
    requires a.width == b.width && a.height == b.height && SameLook(a, b)
    ensures SameLook(Put(c, a, dx, dy), Put(c, b, dx, dy))
  {
    hide Put, Look;
    forall x, y ensures Look(Put(c, a, dx, dy), x, y) == Look(Put(c, b, dx, dy), x, y) {
      LookPut(c, a, dx, dy, x, y);
      LookPut(c, b, dx, dy, x, y);
    }
  }

  /** On a canvas with room for both, different pictures look different. */
  lemma PutsDiffer(a: Canvas, b: Canvas, dx: nat, dy: nat)
    requires a.width == b.width && a.height == b.height && !SameLook(a, b)
    ensures var c := Blank(dx + a.width, dy + a.height);
            !SameLook(Put(c, a, dx, dy), Put(c, b, dx, dy))
  {
    var c := Blank(dx + a.width, dy + a.height);
    var x, y :| Look(a, x, y) != Look(b, x, y);
    hide Put;
    LookPut(c, a, dx, dy, dx + x, dy + y);
    LookPut(c, b, dx, dy, dx + x, dy + y);
  }

  lemma PutsOnAlike(c1: Canvas, c2: Canvas, a: Canvas, b: Canvas, dx: int, dy: int)
    requires c1.width == c2.width && c1.height == c2.height && SameLook(c1, c2)
    requires a.width == b.width && a.height == b.height && SameLook(a, b)
    ensures SameLook(Put(c1, a, dx, dy), Put(c2, b, dx, dy))
    ensures var p1, p2 := Put(c1, a, dx, dy), Put(c2, b, dx, dy); p1.width == p2.width && p1.height == p2.height
  {
    forall x, y ensures Look(Put(c1, a, dx, dy), x, y) == Look(Put(c2, b, dx, dy), x, y) {
      LookPut(c1, a, dx, dy, x, y);
      LookPut(c2, b, dx, dy, x, y);
    }
  }

  lemma FillsLookAlike(c1: Canvas, c2: Canvas, left: int, top: int, width: int, height: int, color: int)
    requires c1.width == c2.width && c1.height == c2.height && SameLook(c1, c2)
    ensures var f1, f2 := Fill(c1, left, top, width, height, color), Fill(c2, left, top, width, height, color);
            f1.width == f2.width && f1.height == f2.height && SameLook(f1, f2)
  {
    var f1, f2 := Fill(c1, left, top, width, height, color), Fill(c2, left, top, width, height, color);
    forall x, y ensures Look(f1, x, y) == Look(f2, x, y) {
      if 0 <= x < c1.width && 0 <= y < c1.height {
        LookFill(c1, left, top, width, height, color, x, y);
        LookFill(c2, left, top, width, height, color, x, y);
      }
    }
  }

  lemma LookDraw(c: Canvas, src: Canvas, sx: int, sy: int, width: int, height: int, dx: int, dy: int, x: int, y: int)
    ensures Look(Draw(c, src, sx, sy, width, height, dx, dy), x, y)
         == if 0 <= x < c.width && 0 <= y < c.height && dx <= x < dx + width && dy <= y < dy + height
               && Look(src, sx + (x - dx), sy + (y - dy)).Solid?
            then Look(src, sx + (x - dx), sy + (y - dy)) else Look(c, x, y)
  {
    assert InRect(x, y, dx, dy, width, height) <==> dx <= x < dx + width && dy <= y < dy + height;
    var above := Look(src, sx + (x - dx), sy + (y - dy));
    assert sx + x - dx == sx + (x - dx) && sy + y - dy == sy + (y - dy);
    assert Draw(c, src, sx, sy, width, height, dx, dy).at(x, y)
        == if InRect(x, y, dx, dy, width, height) then Over(c.at(x, y), above) else c.at(x, y);
  }

  lemma DrawsLookAlike(c1: Canvas, c2: Canvas, src1: Canvas, src2: Canvas, sx: int, sy: int, width: int, height: int,
                       dx: int, dy: int)
    requires c1.width == c2.width && c1.height == c2.height && SameLook(c1, c2) && SameLook(src1, src2)
    ensures var d1 := Draw(c1, src1, sx, sy, width, height, dx, dy);
            var d2 := Draw(c2, src2, sx, sy, width, height, dx, dy);
            d1.width == d2.width && d1.height == d2.height && SameLook(d1, d2)
  {
    var d1 := Draw(c1, src1, sx, sy, width, height, dx, dy);
    var d2 := Draw(c2, src2, sx, sy, width, height, dx, dy);
    forall x, y ensures Look(d1, x, y) == Look(d2, x, y) {
      LookDraw(c1, src1, sx, sy, width, height, dx, dy, x, y);
      LookDraw(c2, src2, sx, sy, width, height, dx, dy, x, y);
    }
  }

  lemma LooksLikeItself(c: Canvas)
    ensures SameLook(c, c)
  {
  }

  /** A picture in a buffer, row by row. */
  lemma LookPicture(buffer: seq<int>, start: nat, width: nat, height: nat, i: int, j: int)
    requires 0 <= i < width && 0 <= j < height && 0 <= start + j * width + i < |buffer|
    ensures Look(Picture(buffer, start, width, height), i, j) == Solid(buffer[start + j * width + i])
  {
  }

  lemma LookOutside(c: Canvas, x: int, y: int)
    requires !(0 <= x < c.width && 0 <= y < c.height)
    ensures Look(c, x, y) == Clear
  {
  }
}
