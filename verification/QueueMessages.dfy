/** The messages of the kit's queue, as parsed from their text. */
module QueueMessages {
  import opened Decimals
  import opened Options

  const INT_MAX := 0x7fff_ffff

  type int32 = n: int | -0x8000_0000 <= n <= INT_MAX

  type nonpositive = n: int32 | n <= 0

  /** The least coordinates of a square of INT_MAX within the int range. */
  datatype Corner = Corner(left: nonpositive, top: nonpositive)

  /** x, y, width and height as an invalidation carries them; "EMPTY" is everything from
      (0, 0) with INT_MAX as both sizes. */
  datatype Rect = Rect(x: int, y: int, w: int, h: int) {
    /** The point lies in this rectangle. */
    predicate Has(px: int, py: int) {
      x <= px < x + w && y <= py < y + h
    }

    /** All of it lies in the square of INT_MAX at this corner. Rectangles of one such square
        can be compared and joined in int arithmetic. */
    predicate Fits(c: Corner) {
      && c.left <= x <= c.left + INT_MAX && c.left <= x + w <= c.left + INT_MAX
      && c.top <= y <= c.top + INT_MAX && c.top <= y + h <= c.top + INT_MAX
    }
  }

  /** The sum of two ints, which wraps around. */
  function Sum(a: int32, b: int32): int32 {
    var s := a + b;
    if s > INT_MAX then s - 0x1_0000_0000 else if s < -0x8000_0000 then s + 0x1_0000_0000 else s
  }

  /** TileDesc::rectanglesIntersect: touching counts. */
  predicate Intersect(a: Rect, b: Rect) {
    a.x + a.w >= b.x && a.x <= b.x + b.w && a.y + a.h >= b.y && a.y <= b.y + b.h
  }

  datatype Tile = Tile(
    nviewid: int, part: int, width: int, height: int, posX: int, posY: int,
    tileWidth: int, tileHeight: int, oldWid: nat, wid: nat,
    ver: int, id: int, imgSize: int, broadcast: bool, mode: int)
  {
    /** What the constructor of a tile descriptor checks. */
    predicate Valid() {
      && nviewid >= 0 && part >= 0 && mode >= 0 && width > 0 && height > 0
      && posX >= 0 && posY >= 0 && tileWidth > 0 && tileHeight > 0 && imgSize >= 0
    }

    predicate IsPreview() { id >= 0 }

    /** The text of a serialised tile up to its version, which is what duplicates are compared by. */
    function Key(): TileKey {
      TileKey(nviewid, part, width, height, posX, posY, tileWidth, tileHeight, oldWid, wid)
    }

    function Area(): Rect { Rect(posX, posY, tileWidth, tileHeight) }

    /** Same part, mode and sizes. */
    predicate SameKind(other: Tile) {
      && part == other.part && mode == other.mode && width == other.width && height == other.height
      && tileWidth == other.tileWidth && tileHeight == other.tileHeight
    }

    predicate SamePlace(other: Tile) {
      posX == other.posX && posY == other.posY
    }

    predicate OnSameRow(other: Tile) {
      && SameKind(other) && nviewid == other.nviewid
      && other.posY + other.tileHeight >= posY && other.posY <= posY + tileHeight
    }

    /** At most sixteen tiles apart on one row. */
    predicate CanCombine(other: Tile)
      requires Valid() && other.Valid()
    {
      OnSameRow(other) && -16 <= posX / tileWidth - other.posX / other.tileWidth <= 16
    }
  }

  datatype TileKey = TileKey(nviewid: int, part: int, width: int, height: int, posX: int, posY: int,
                             tileWidth: int, tileHeight: int, oldWid: nat, wid: nat)
  {
    /** The text of this key is how the text of the other one begins. It ends in the wire id,
        whose digits may go on. */
    predicate Begins(other: TileKey) {
      this.(wid := other.wid) == other && Decimal(wid) <= Decimal(other.wid)
    }
  }

  datatype Kind = Key | Mouse | WindowKey

  datatype Text = Text(id: string, text: string)
  datatype Removal = Removal(id: string, before: int32, after: int32)

  /** What a callback says. Plain callbacks are never replaced, nor are invalidations without a
      readable rectangle and state changes of no .uno: command. */
  datatype News =
    | Invalidate(rect: Rect, part: int, mode: int)
    | StateChanged(command: string)
    | Latest(callbackType: int)
    | LatestOfView(callbackType: int, viewId: string)
    | Plain(callbackType: int)

  datatype Message =
    | TextInput(view: string, text: Option<Text>)          // None: id or text is missing
    | RemoveText(view: string, removal: Option<Removal>)   // None: id, before or after is missing
    | Input(view: string, kind: Kind, payload: string)
    | SingleToken(token: string)
    | TileRequest(tile: Tile)
    | Callback(view: string, news: News, payload: string)
    | Other(view: string, payload: string)
  {
    predicate Valid() {
      TileRequest? ==> tile.Valid()
    }

    predicate IsPreview() { TileRequest? && tile.IsPreview() }

    /** A tile request that may be prioritised and combined. */
    predicate IsPlainTile() { TileRequest? && !tile.IsPreview() }
  }

  /** What put accepts: one message, or a combined request that is broken up first. */
  datatype Incoming = One(message: Message) | Combined(tiles: seq<Tile>)
}
