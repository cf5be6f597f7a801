/** Where each tile of a combined request lies in the pixmap it is rendered into. */
module RenderGeometry {
  import opened Arithmetic

  class Rectangle {
    var x1: int
    var y1: int
    var x2: int
    var y2: int

    constructor (x: int, y: int, width: int, height: int)
      ensures x1 == x && y1 == y && x2 == x + width && y2 == y + height
    {
      x1, y1, x2, y2 := x, y, x + width, y + height;
    }

    /** The rectangle lies in this one. */
    ghost predicate Contains(left: int, top: int, right: int, bottom: int)
      reads this
    {
      x1 <= left && right <= x2 && y1 <= top && bottom <= y2
    }

    /** Grows to the smallest rectangle that also contains the other one. */
    method Extend(rectangle: Rectangle)
      modifies this
      ensures x1 in {old(x1), old(rectangle.x1)} && x2 in {old(x2), old(rectangle.x2)}
      ensures y1 in {old(y1), old(rectangle.y1)} && y2 in {old(y2), old(rectangle.y2)}
      ensures Contains(old(x1), old(y1), old(x2), old(y2))
      ensures Contains(old(rectangle.x1), old(rectangle.y1), old(rectangle.x2), old(rectangle.y2))
      ensures forall l, t, r, b :: l <= old(x1) && l <= old(rectangle.x1) && t <= old(y1) && t <= old(rectangle.y1)
                && r >= old(x2) && r >= old(rectangle.x2) && b >= old(y2) && b >= old(rectangle.y2)
                ==> Within(l, t, r, b)
    {
      if rectangle.x1 < x1 {
        x1 := rectangle.x1;
      }
      if rectangle.x2 > x2 {
        x2 := rectangle.x2;
      }
      if rectangle.y1 < y1 {
        y1 := rectangle.y1;
      }
      if rectangle.y2 > y2 {
        y2 := rectangle.y2;
      }
    }

    ghost predicate Within(left: int, top: int, right: int, bottom: int)
      reads this
    {
      left <= x1 && x2 <= right && top <= y1 && y2 <= bottom
    }
  }

  datatype Place = Place(x: int, y: int)

  /** The size of the pixmap and the pixel offset of every tile. */
  datatype Layout = Layout(width: int, height: int, offsets: seq<Place>)

  type size = n: int | n > 0 witness 1

  /** The size of every tile of a request, in document units and in pixels. */
  datatype Grid = Grid(tileWidth: size, tileHeight: size, pixelWidth: size, pixelHeight: size)

  /** The tile's pixels lie inside the pixmap. */
  predicate Inside(l: Layout, grid: Grid, i: nat)
    requires i < |l.offsets|
  {
    && 0 <= l.offsets[i].x && l.offsets[i].x + grid.pixelWidth <= l.width
    && 0 <= l.offsets[i].y && l.offsets[i].y + grid.pixelHeight <= l.height
  }

  predicate Disjoint(a: Place, b: Place, grid: Grid) {
    || a.x + grid.pixelWidth <= b.x || b.x + grid.pixelWidth <= a.x
    || a.y + grid.pixelHeight <= b.y || b.y + grid.pixelHeight <= a.y
  }

  /** Two tile positions on one grid. */
  predicate OneGrid(a: Place, b: Place, grid: Grid) {
    (a.x - b.x) % grid.tileWidth == 0 && (a.y - b.y) % grid.tileHeight == 0
  }

  /** A tile that ends within the area ends within the whole tiles that fit into it. */
  lemma FitsAlong(from: int, at: int, to: int, size: int, pixels: int)
    requires size > 0 && pixels > 0 && from <= at && at + size <= to
    ensures 0 <= (at - from) / size * pixels
    ensures (at - from) / size * pixels + pixels <= (to - from) / size * pixels
  {
    var k, n := (at - from) / size, (to - from) / size;
    Quotient(at - from, size, k);
    Quotient(to - from, size, n);
    assert k >= 0 by {
      if k < 0 { NegativeProduct(k, size); }
    }
    assert k + 1 <= n by {
      if n <= k { Monotone(n, k, size); }
    }
    Monotone(k + 1, n, pixels);
    Monotone(0, k, pixels);
    assert (k + 1) * pixels == k * pixels + pixels;
  }

  /** Different positions on one grid are different pixel positions, a whole tile apart. */
  lemma ApartAlong(from: int, a: int, b: int, size: int, pixels: int)
    requires size > 0 && pixels > 0 && from <= a < b && (b - a) % size == 0
    ensures (a - from) / size * pixels + pixels <= (b - from) / size * pixels
  {
    assert b - a >= size;
    FitsAlong(from, a, b, size, pixels);
  }

  /** Where a position along one axis lies in the pixmap. */
  function Offset(from: int, at: int, size: int, pixels: int): int
    requires size > 0
  {
    (at - from) / size * pixels
  }

  function OffsetOf(left: int, top: int, tile: Place, grid: Grid): Place {
    Place(Offset(left, tile.x, grid.tileWidth, grid.pixelWidth), Offset(top, tile.y, grid.tileHeight, grid.pixelHeight))
  }

  lemma TileInside(area: Rectangle, tile: Place, grid: Grid, l: Layout, i: nat)
    requires area.Contains(tile.x, tile.y, tile.x + grid.tileWidth, tile.y + grid.tileHeight)
    requires l.width == Offset(area.x1, area.x2, grid.tileWidth, grid.pixelWidth)
    requires l.height == Offset(area.y1, area.y2, grid.tileHeight, grid.pixelHeight)
    requires i < |l.offsets| && l.offsets[i] == OffsetOf(area.x1, area.y1, tile, grid)
    ensures Inside(l, grid, i)
  {
    FitsAlong(area.x1, tile.x, area.x2, grid.tileWidth, grid.pixelWidth);
    FitsAlong(area.y1, tile.y, area.y2, grid.tileHeight, grid.pixelHeight);
  }

  lemma Apart(left: int, top: int, a: Place, b: Place, grid: Grid)
    requires left <= a.x && left <= b.x && top <= a.y && top <= b.y
    requires a != b && OneGrid(a, b, grid)
    ensures Disjoint(OffsetOf(left, top, a, grid), OffsetOf(left, top, b, grid), grid)
  {
    if a.x < b.x {
      Opposite(a.x - b.x, grid.tileWidth);
      ApartAlong(left, a.x, b.x, grid.tileWidth, grid.pixelWidth);
    } else if b.x < a.x {
      ApartAlong(left, b.x, a.x, grid.tileWidth, grid.pixelWidth);
    } else if a.y < b.y {
      Opposite(a.y - b.y, grid.tileHeight);
      ApartAlong(top, a.y, b.y, grid.tileHeight, grid.pixelHeight);
    } else {
      ApartAlong(top, b.y, a.y, grid.tileHeight, grid.pixelHeight);
    }
  }

  ghost predicate Covers(area: Rectangle, tiles: seq<Place>, n: nat, grid: Grid)
    requires n <= |tiles|
    reads area
  {
    forall j :: 0 <= j < n ==>
      area.Contains(tiles[j].x, tiles[j].y, tiles[j].x + grid.tileWidth, tiles[j].y + grid.tileHeight)
  }

  /** Each side of the area is a side of one of the first n tiles. */
  ghost predicate TouchesTiles(area: Rectangle, tiles: seq<Place>, n: nat, grid: Grid)
    requires n <= |tiles|
    reads area
  {
    && (exists j :: 0 <= j < n && tiles[j].x == area.x1)
    && (exists j :: 0 <= j < n && tiles[j].y == area.y1)
    && (exists j :: 0 <= j < n && tiles[j].x + grid.tileWidth == area.x2)
    && (exists j :: 0 <= j < n && tiles[j].y + grid.tileHeight == area.y2)
  }

  /** The area that is rendered: the smallest that covers every tile. */
  method RenderArea(tiles: seq<Place>, grid: Grid) returns (area: Rectangle)
    requires tiles != []
    ensures fresh(area) && Covers(area, tiles, |tiles|, grid) && TouchesTiles(area, tiles, |tiles|, grid)
  {
    area := new Rectangle(tiles[0].x, tiles[0].y, grid.tileWidth, grid.tileHeight);
    for i := 1 to |tiles|
      invariant fresh(area)
      invariant Covers(area, tiles, i, grid) && TouchesTiles(area, tiles, i, grid)
    {
      var rectangle := new Rectangle(tiles[i].x, tiles[i].y, grid.tileWidth, grid.tileHeight);
      area.Extend(rectangle);
      assert tiles[i].x == rectangle.x1 && tiles[i].y == rectangle.y1;
    }
  }

  /** The pixmap is no larger than needed: tiles touch all of its four sides. */
  ghost predicate Tight(l: Layout, grid: Grid) {
    && (exists i :: 0 <= i < |l.offsets| && l.offsets[i].x == 0)
    && (exists i :: 0 <= i < |l.offsets| && l.offsets[i].y == 0)
    && (exists i :: 0 <= i < |l.offsets| && l.offsets[i].x + grid.pixelWidth == l.width)
    && (exists i :: 0 <= i < |l.offsets| && l.offsets[i].y + grid.pixelHeight == l.height)
  }

  lemma OneMoreTile(from: int, at: int, size: int, pixels: int)
    requires size > 0
    ensures Offset(from, at + size, size, pixels) == Offset(from, at, size, pixels) + pixels
    ensures Offset(from, from, size, pixels) == 0
  {
    assert (at + size - from) / size == (at - from) / size + 1 by {
      Quotient(at - from, size, (at - from) / size);
      Quotient(at + size - from, size, (at + size - from) / size);
      var k, n := (at - from) / size, (at + size - from) / size;
      assert (k + 1) * size == k * size + size && (k + 2) * size == k * size + 2 * size;
      assert (n + 1) * size == n * size + size;
      if n <= k { Monotone(n + 1, k + 1, size); }
      if n >= k + 2 { Monotone(k + 2, n, size); }
    }
    assert ((at - from) / size + 1) * pixels == (at - from) / size * pixels + pixels;
  }

  /** Whole tiles further along in the document are as many whole tiles further along in the
      pixmap. */
  lemma OffsetAlong(from: int, a: int, b: int, size: int, pixels: int)
    requires size > 0 && (b - a) % size == 0
    ensures Offset(from, b, size, pixels) - Offset(from, a, size, pixels) == (b - a) / size * pixels
  {
    var k, r, n := (a - from) / size, (a - from) % size, (b - a) / size;
    assert b - from == (k + n) * size + r;
    QuotientOf(k + n, r, size);
    assert (k + n) * pixels == k * pixels + n * pixels;
  }

  lemma TightLayout(area: Rectangle, tiles: seq<Place>, grid: Grid, l: Layout)
    requires TouchesTiles(area, tiles, |tiles|, grid)
    requires l.width == Offset(area.x1, area.x2, grid.tileWidth, grid.pixelWidth)
    requires l.height == Offset(area.y1, area.y2, grid.tileHeight, grid.pixelHeight)
    requires |l.offsets| == |tiles|
    requires forall i :: 0 <= i < |tiles| ==> l.offsets[i] == OffsetOf(area.x1, area.y1, tiles[i], grid)
    ensures Tight(l, grid)
  {
    hide Offset;
    var left :| 0 <= left < |tiles| && tiles[left].x == area.x1;
    OneMoreTile(area.x1, area.x1, grid.tileWidth, grid.pixelWidth);
    assert l.offsets[left].x == 0;
    var top :| 0 <= top < |tiles| && tiles[top].y == area.y1;
    OneMoreTile(area.y1, area.y1, grid.tileHeight, grid.pixelHeight);
    assert l.offsets[top].y == 0;
    var right :| 0 <= right < |tiles| && tiles[right].x + grid.tileWidth == area.x2;
    OneMoreTile(area.x1, tiles[right].x, grid.tileWidth, grid.pixelWidth);
    assert l.offsets[right].x + grid.pixelWidth == l.width;
    var bottom :| 0 <= bottom < |tiles| && tiles[bottom].y + grid.tileHeight == area.y2;
    OneMoreTile(area.y1, tiles[bottom].y, grid.tileHeight, grid.pixelHeight);
    assert l.offsets[bottom].y + grid.pixelHeight == l.height;
  }

  /** From tile a to tile b it is as many columns and rows in the pixmap, at pixels p and q, as in
      the document. */
  predicate InStep(a: Place, b: Place, p: Place, q: Place, grid: Grid) {
    && q.x - p.x == (b.x - a.x) / grid.tileWidth * grid.pixelWidth
    && q.y - p.y == (b.y - a.y) / grid.tileHeight * grid.pixelHeight
  }

  lemma StepsAgree(left: int, top: int, a: Place, b: Place, grid: Grid)
    requires OneGrid(b, a, grid)
    ensures InStep(a, b, OffsetOf(left, top, a, grid), OffsetOf(left, top, b, grid), grid)
  {
    OffsetAlong(left, a.x, b.x, grid.tileWidth, grid.pixelWidth);
    OffsetAlong(top, a.y, b.y, grid.tileHeight, grid.pixelHeight);
  }

  /** The geometry of a non-empty combined request: every tile lies inside the pixmap, which
      is no larger than that, and tiles of one grid lie in the pixmap as they do in the document,
      so that different ones do not overlap. */
  method Arrange(tiles: seq<Place>, grid: Grid) returns (layout: Layout)
    requires tiles != []
    ensures |layout.offsets| == |tiles| && Tight(layout, grid)
    ensures forall i :: 0 <= i < |tiles| ==> Inside(layout, grid, i)
    ensures forall i, j :: 0 <= i < j < |tiles| && tiles[i] != tiles[j] && OneGrid(tiles[i], tiles[j], grid)
              ==> Disjoint(layout.offsets[i], layout.offsets[j], grid)
    ensures forall i, j :: 0 <= i < |tiles| && 0 <= j < |tiles| && OneGrid(tiles[i], tiles[j], grid)
              ==> InStep(tiles[j], tiles[i], layout.offsets[j], layout.offsets[i], grid)
  {
    hide Offset, Inside, Disjoint, OneGrid, Tight, TouchesTiles, InStep;
    var area := RenderArea(tiles, grid);
    var offsets: seq<Place> := [];
    for i := 0 to |tiles|
      modifies {}
      invariant |offsets| == i
      invariant forall j :: 0 <= j < i ==> offsets[j] == OffsetOf(area.x1, area.y1, tiles[j], grid)
    {
      offsets := offsets + [OffsetOf(area.x1, area.y1, tiles[i], grid)];
    }
    layout := Layout(Offset(area.x1, area.x2, grid.tileWidth, grid.pixelWidth),
                     Offset(area.y1, area.y2, grid.tileHeight, grid.pixelHeight), offsets);
    TightLayout(area, tiles, grid, layout);
    forall i | 0 <= i < |tiles| ensures Inside(layout, grid, i) {
      TileInside(area, tiles[i], grid, layout, i);
    }
    forall i, j | 0 <= i < j < |tiles| && tiles[i] != tiles[j] && OneGrid(tiles[i], tiles[j], grid)
      ensures Disjoint(layout.offsets[i], layout.offsets[j], grid)
    {
      Apart(area.x1, area.y1, tiles[i], tiles[j], grid);
    }
    forall i, j | 0 <= i < |tiles| && 0 <= j < |tiles| && OneGrid(tiles[i], tiles[j], grid)
      ensures InStep(tiles[j], tiles[i], layout.offsets[j], layout.offsets[i], grid)
    {
      StepsAgree(area.x1, area.y1, tiles[j], tiles[i], grid);
    }
  }
}
