/** The delta generator: a bounded cache of the last bitmap sent per tile location, and the
    choice between a keyframe, a delta and nothing at all. */
module DeltaCache {
  import opened Options
  import opened Pixels
  import opened DeltaCodec
  import opened DeltaEncoder

  datatype Location = Location(left: int, top: int, size: int, part: int, canonicalViewId: int)

  datatype Message =
    | Keyframe(image: seq<byte>)
    | Delta(bytes: seq<byte>)
    | Unchanged

  /** A cached bitmap and the wire id it was sent under. */
  datatype Entry = Entry(bitmap: Bitmap, wid: nat)

  type Cache = map<Location, Entry>

  // ---- the message for one render

  predicate Mergeable(prev: Bitmap, cur: Bitmap) {
    prev.width == cur.width && prev.height == cur.height
  }

  /** What the encoder asserts of the bitmaps it compares. */
  predicate Encodable(prev: Bitmap, cur: Bitmap) {
    prev.Valid() && cur.Valid() && (Mergeable(prev, cur) ==> cur.width <= 256 && cur.height <= 256)
  }

  function Reply(signed: bool, cached: Option<Bitmap>, cur: Bitmap, forceKeyframe: bool): Message
    requires cur.Valid()
    requires cached.Some? && !forceKeyframe ==> Encodable(cached.value, cur)
  {
    if cached.None? || forceKeyframe || !Mergeable(cached.value, cur) then Keyframe(Wire(cur.Shown()))
    else
      var bytes := DeltaBytes(signed, cached.value, cur);
      if bytes == [] then Unchanged else Delta(bytes)
  }

  predicate Odd(b: Bitmap) { b.width % 2 != 0 }

  /** The bitmap a render of a location is compared with: none for odd widths. */
  function Found(cache: Cache, loc: Location, cur: Bitmap): Option<Bitmap> {
    if !Odd(cur) && loc in cache then Some(cache[loc].bitmap) else None
  }

  /** The cache after a render of a location. */
  function Stored(cache: Cache, loc: Location, cur: Bitmap, wid: nat): Cache {
    if Odd(cur) then cache else cache[loc := Entry(cur, wid)]
  }

  /** What a client shows of a tile: its canvas has a width, and so many pixels. */
  datatype Picture = Picture(width: nat, image: Image)

  function PictureOf(b: Bitmap): Picture { Picture(b.width, b.Shown()) }

  /** A client applies a message: a keyframe of the given width replaces the picture, a delta
      changes pixels of the picture shown. */
  function Receive(shown: Picture, m: Message, width: nat): Picture {
    match m
    case Keyframe(image) => if |image| % 4 == 0 then Picture(width, Unwire(image)) else shown
    case Delta(bytes) => shown.(image := ApplyStream(bytes, shown.image, shown.width))
    case Unchanged => shown
  }

  /** Every row the delta takes from below the previous bitmap is meant to be blank anyway. */
  ghost predicate Faithful(signed: bool, prev: Bitmap, cur: Bitmap)
    requires Shape(prev, cur)
  {
    forall y :: 0 <= y < prev.height && Overshoots(signed, prev, cur, y) ==>
      UnpremultAll(cur.rows[y]) == BlankRow(prev.width)
  }

  lemma KeyframeShows(shown: Picture, cur: Bitmap)
    ensures Receive(shown, Keyframe(Wire(cur.Shown())), cur.width) == PictureOf(cur)
  {
    UnwireWire(cur.Shown());
  }

  /** A client that shows the cached bitmap shows the new one after the reply, if and only if
      the reply is no unfaithful delta. */
  lemma ReplyShows(signed: bool, prev: Bitmap, cur: Bitmap, forceKeyframe: bool)
    requires !forceKeyframe ==> Encodable(prev, cur)
    requires prev.Valid() && cur.Valid()
    ensures Receive(PictureOf(prev), Reply(signed, Some(prev), cur, forceKeyframe), cur.width) == PictureOf(cur)
       <==> (!forceKeyframe && Mergeable(prev, cur) ==> Faithful(signed, prev, cur))
  {
    hide ApplyStream, Overshoots, Bitmap.Shown, Unpremult, UnpremultAll, DeltaBytes, Wire, Unwire;
    if forceKeyframe || !Mergeable(prev, cur) {
      KeyframeShows(PictureOf(prev), cur);
    } else {
      DeltaRoundTrip(signed, prev, cur);
      EmptyIffEqual(signed, prev, cur);
      EmptyStream(prev.Shown(), cur.width);
    }
  }

  /** When a render is sent whole, as nothing, or as a delta. */
  lemma ReplyKind(signed: bool, cached: Option<Bitmap>, cur: Bitmap, forceKeyframe: bool)
    requires cur.Valid() && (cached.Some? ==> cached.value.Valid())
    requires cached.Some? && !forceKeyframe ==> Encodable(cached.value, cur)
    ensures var reply := Reply(signed, cached, cur, forceKeyframe);
      && (reply.Keyframe? <==>
            cached.None? || forceKeyframe || cached.value.width != cur.width || cached.value.height != cur.height)
      && (reply.Unchanged? <==> !reply.Keyframe? && cached.value == cur)
      && (reply.Delta? ==> |reply.bytes| > 0)
  {
    if cached.Some? && !forceKeyframe && Mergeable(cached.value, cur) {
      EmptyIffEqual(signed, cached.value, cur);
    }
  }

  lemma EmptyStream(shown: Image, width: nat)
    ensures ApplyStream([], shown, width) == shown
  {
  }

  // ---- eviction

  /** How many of the oldest entries rebalancing removes. */
  function Excess(size: nat, maxEntries: nat, dropAll: bool): (n: nat)
    ensures n <= size
  {
    if dropAll then size
    else if size > maxEntries then size - maxEntries * 3 / 4
    else 0
  }

  /** The cache lost exactly its n oldest entries, by wire id. */
  ghost predicate LostOldest(before: Cache, after: Cache, n: nat) {
    && after.Keys <= before.Keys
    && (forall l :: l in after ==> after[l] == before[l])
    && |before.Keys - after.Keys| == n
    && forall gone, kept :: gone in before.Keys - after.Keys && kept in after ==> before[gone].wid <= before[kept].wid
  }

  /** What rebalancing leaves: no more than the limit, three quarters of it once the limit was
      exceeded, and everything otherwise. */
  lemma SizeAfter(before: Cache, after: Cache, maxEntries: nat, dropAll: bool)
    requires LostOldest(before, after, Excess(|before|, maxEntries, dropAll))
    ensures |after| <= maxEntries || dropAll
    ensures |after| == if dropAll then 0 else if |before| > maxEntries then maxEntries * 3 / 4 else |before|
  {
    hide LostOldest;
    Shrunk(before, after, Excess(|before|, maxEntries, dropAll));
  }

  lemma Shrunk(before: Cache, after: Cache, n: nat)
    requires LostOldest(before, after, n)
    ensures |after| == |before| - n
  {
    assert before.Keys == after.Keys + (before.Keys - after.Keys);
    assert |before| == |before.Keys| && |after| == |after.Keys|;
  }

  /** l is one of the first n locations. */
  predicate Among(order: seq<Location>, n: nat, l: Location)
    requires n <= |order|
  {
    exists k :: 0 <= k < n && order[k] == l
  }

  /** Different cached locations, by wire id. */
  predicate WidOrdered(cache: Cache, order: seq<Location>) {
    && (forall i :: 0 <= i < |order| ==> order[i] in cache)
    && forall i, j :: 0 <= i < j < |order| ==> order[i] != order[j] && cache[order[i]].wid <= cache[order[j]].wid
  }

  lemma NothingOrdered(cache: Cache)
    ensures WidOrdered(cache, [])
  {
  }

  /** One more location, in its place. */
  lemma InsertOrdered(cache: Cache, order: seq<Location>, k: nat, l: Location)
    requires WidOrdered(cache, order) && k <= |order| && l in cache && l !in order
    requires forall i :: 0 <= i < k ==> cache[order[i]].wid < cache[l].wid
    requires k < |order| ==> cache[order[k]].wid >= cache[l].wid
    ensures WidOrdered(cache, order[..k] + [l] + order[k..])
  {
    var more := order[..k] + [l] + order[k..];
    forall i | 0 <= i < |more| ensures more[i] in cache {
      assert more[i] == if i < k then order[i] else if i == k then l else order[i - 1];
    }
    forall i, j | 0 <= i < j < |more| ensures more[i] != more[j] && cache[more[i]].wid <= cache[more[j]].wid {
      InsertPair(cache, order, k, l, i, j);
    }
  }

  /** Two places of the longer order. */
  lemma InsertPair(cache: Cache, order: seq<Location>, k: nat, l: Location, i: nat, j: nat)
    requires WidOrdered(cache, order) && k <= |order| && l in cache && l !in order && i < j <= |order|
    requires forall i :: 0 <= i < k ==> cache[order[i]].wid < cache[l].wid
    requires k < |order| ==> cache[order[k]].wid >= cache[l].wid
    ensures var more := order[..k] + [l] + order[k..];
      && more[i] in cache && more[j] in cache
      && more[i] != more[j] && cache[more[i]].wid <= cache[more[j]].wid
  {
    var more := order[..k] + [l] + order[k..];
    if j < k {
      assert more[i] == order[i] && more[j] == order[j];
    } else if j == k {
      assert more[i] == order[i] && more[j] == l;
    } else if i < k {
      assert more[i] == order[i] && more[j] == order[j - 1];
    } else if i == k {
      assert more[i] == l && more[j] == order[j - 1];
      assert cache[order[k]].wid <= cache[order[j - 1]].wid;
    } else {
      assert more[i] == order[i - 1] && more[j] == order[j - 1];
    }
  }

  lemma InsertMembers(order: seq<Location>, k: nat, l: Location)
    requires k <= |order|
    ensures forall x :: x in order[..k] + [l] + order[k..] <==> x in order || x == l
  {
    assert order == order[..k] + order[k..];
  }

  lemma LostPrefix(before: Cache, after: Cache, order: seq<Location>, n: nat)
    requires n <= |order|
    requires forall l :: l in order <==> l in before
    requires WidOrdered(before, order)
    requires forall l :: l in after <==> l in before && !Among(order, n, l)
    requires forall l :: l in after ==> after[l] == before[l]
    ensures LostOldest(before, after, n)
  {
    var gone := before.Keys - after.Keys;
    assert forall l :: l in gone <==> Among(order, n, l);
    DistinctCount(order, n, gone);
    forall g, kept | g in gone && kept in after
      ensures before[g].wid <= before[kept].wid
    {
      assert Among(order, n, g) && !Among(order, n, kept);
      var j :| 0 <= j < |order| && order[j] == kept;
    }
  }

  lemma {:induction false} DistinctCount(order: seq<Location>, n: nat, s: set<Location>)
    requires n <= |order|
    requires forall i, j :: 0 <= i < j < |order| ==> order[i] != order[j]
    requires forall l :: l in s <==> Among(order, n, l)
    ensures |s| == n
  {
    if n == 0 {
      assert s == {};
    } else {
      var last := order[n - 1];
      assert Among(order, n, last);
      forall l
        ensures l in s - {last} <==> Among(order, n - 1, l)
      {
      }
      DistinctCount(order, n - 1, s - {last});
    }
  }

  lemma LostNothing(cache: Cache)
    ensures LostOldest(cache, cache, 0)
  {
    assert cache.Keys - cache.Keys == {};
  }

  // ---- the shared generator

  /** One bitmap of the cache, replaced in place when its tile is rendered again. */
  class DeltaData {
    const loc: Location
    var inUse: bool
    var wid: nat
    var bitmap: Bitmap

    constructor (wid: nat, pixmap: seq<Pixel>, startX: nat, startY: nat, width: nat, height: nat,
                 loc: Location, bufferWidth: nat, bufferHeight: nat)
      requires |pixmap| == bufferHeight * bufferWidth && width % 2 == 0
      requires startX + width <= bufferWidth && startY + height <= bufferHeight
      ensures this.loc == loc && this.wid == wid && !inUse
      ensures bitmap == Crop(pixmap, startX, startY, width, height, bufferWidth, bufferHeight)
    {
      this.loc, this.wid, inUse := loc, wid, false;
      bitmap := Bitmap(width, 0, []);
      new;
      hide Crc, CropRow;
      for y := 0 to height
        invariant this.wid == wid && !inUse
        invariant bitmap == Crop(pixmap, startX, startY, width, y, bufferWidth, bufferHeight)
      {
        var row, crc := CopyWithCrc(CropRow(pixmap, startX, startY + y, width, bufferWidth, bufferHeight));
        bitmap := Bitmap(width, y + 1, bitmap.rows + [row]);
      }
    }

    method Use()
      requires !inUse
      modifies this`inUse
      ensures inUse
    {
      inUse := true;
    }

    method Unuse()
      requires inUse
      modifies this`inUse
      ensures !inUse
    {
      inUse := false;
    }

    method ReplaceAndFree(repl: DeltaData)
      requires loc == repl.loc
      modifies this`wid, this`bitmap
      ensures wid == repl.wid && bitmap == repl.bitmap
    {
      wid, bitmap := repl.wid, repl.bitmap;
    }
  }

  /** The part of one pixmap line that a tile covers. */
  function CropRow(pixmap: seq<Pixel>, startX: nat, y: nat, width: nat, bufferWidth: nat, bufferHeight: nat)
    : (row: seq<Pixel>)
    requires |pixmap| == bufferHeight * bufferWidth
    requires startX + width <= bufferWidth && y < bufferHeight
    ensures |row| == width
  {
    RowOrder(bufferWidth, y, bufferHeight);
    var position := Offset(bufferWidth, y, startX);
    pixmap[position..position + width]
  }

  function CropRows(pixmap: seq<Pixel>, startX: nat, startY: nat, width: nat, height: nat,
                    bufferWidth: nat, bufferHeight: nat): (rows: seq<seq<Pixel>>)
    requires |pixmap| == bufferHeight * bufferWidth
    requires startX + width <= bufferWidth && startY + height <= bufferHeight
    ensures |rows| == height && forall y :: 0 <= y < height ==> |rows[y]| == width
  {
    if height == 0 then []
    else CropRows(pixmap, startX, startY, width, height - 1, bufferWidth, bufferHeight)
         + [CropRow(pixmap, startX, startY + height - 1, width, bufferWidth, bufferHeight)]
  }

  /** The rectangle of a pixmap that one tile covers. */
  function Crop(pixmap: seq<Pixel>, startX: nat, startY: nat, width: nat, height: nat,
                bufferWidth: nat, bufferHeight: nat): (tile: Bitmap)
    requires |pixmap| == bufferHeight * bufferWidth
    requires startX + width <= bufferWidth && startY + height <= bufferHeight
    ensures tile.Valid() && tile.width == width && tile.height == height
  {
    Bitmap(width, height, CropRows(pixmap, startX, startY, width, height, bufferWidth, bufferHeight))
  }

  lemma {:induction false} CropPrefix(pixmap: seq<Pixel>, startX: nat, startY: nat, width: nat, height: nat,
                                      bufferWidth: nat, bufferHeight: nat, y: nat)
    requires |pixmap| == bufferHeight * bufferWidth && y < height
    requires startX + width <= bufferWidth && startY + height <= bufferHeight
    ensures Crop(pixmap, startX, startY, width, height, bufferWidth, bufferHeight).rows[y]
         == CropRow(pixmap, startX, startY + y, width, bufferWidth, bufferHeight)
  {
    hide CropRow;
    if y < height - 1 {
      CropPrefix(pixmap, startX, startY, width, height - 1, bufferWidth, bufferHeight, y);
    }
  }

  /** The tile's pixel in column x of row y is the pixmap's in column startX + x of line
      startY + y. */
  lemma CropPixel(pixmap: seq<Pixel>, startX: nat, startY: nat, width: nat, height: nat,
                  bufferWidth: nat, bufferHeight: nat, x: nat, y: nat)
    requires |pixmap| == bufferHeight * bufferWidth && x < width && y < height
    requires startX + width <= bufferWidth && startY + height <= bufferHeight
    ensures 0 <= (startY + y) * bufferWidth + (startX + x) < |pixmap|
    ensures Crop(pixmap, startX, startY, width, height, bufferWidth, bufferHeight).rows[y][x]
         == pixmap[(startY + y) * bufferWidth + (startX + x)]
  {
    RowOrder(bufferWidth, startY + y, bufferHeight);
    CropPrefix(pixmap, startX, startY, width, height, bufferWidth, bufferHeight, y);
  }

  class DeltaGenerator {
    const signed: bool   // whether char is signed on this platform
    var deltaEntries: map<Location, DeltaData>
    var maxEntries: nat

    ghost predicate Valid()
      reads this, deltaEntries.Values
    {
      forall l :: l in deltaEntries ==>
        var d := deltaEntries[l]; d.loc == l && d.bitmap.Valid()
    }

    ghost function Contents(): Cache
      reads this, deltaEntries.Values
    {
      map l | l in deltaEntries :: Entry(deltaEntries[l].bitmap, deltaEntries[l].wid)
    }

    constructor (signed: bool, maxEntries: nat)
      ensures Valid() && Contents() == map[] && this.signed == signed && this.maxEntries == maxEntries
    {
      this.signed, this.maxEntries, deltaEntries := signed, maxEntries, map[];
    }

    /** The cached locations, oldest wire id first. */
    method OldestFirst() returns (order: seq<Location>)
      requires Valid()
      ensures forall l :: l in order <==> l in deltaEntries
      ensures |order| == |deltaEntries|
      ensures WidOrdered(Contents(), order)
    {
      hide Bitmap.Valid, WidOrdered;
      ghost var cache := Contents();
      order := [];
      NothingOrdered(cache);
      var todo := deltaEntries.Keys;
      while todo != {}
        invariant todo <= deltaEntries.Keys
        invariant forall l :: l in order <==> l in deltaEntries.Keys - todo
        invariant |order| + |todo| == |deltaEntries.Keys|
        invariant forall i :: 0 <= i < |order| ==> order[i] in cache
        invariant WidOrdered(cache, order)
      {
        var l :| l in todo;
        todo := todo - {l};
        var k := 0;
        while k < |order| && deltaEntries[order[k]].wid < deltaEntries[l].wid
          invariant k <= |order|
          invariant forall i :: 0 <= i < k ==> cache[order[i]].wid < cache[l].wid
        {
          k := k + 1;
        }
        InsertOrdered(cache, order, k, l);
        InsertMembers(order, k, l);
        order := order[..k] + [l] + order[k..];
      }
    }

    method EraseFirst(entries: seq<Location>, toRemove: nat)
      requires Valid() && toRemove <= |entries|
      modifies this`deltaEntries
      ensures Valid()
      ensures forall l :: l in deltaEntries <==> l in old(deltaEntries) && !Among(entries, toRemove, l)
      ensures forall l :: l in deltaEntries ==> deltaEntries[l] == old(deltaEntries)[l]
    {
      for i := 0 to toRemove
        invariant forall l :: l in deltaEntries <==> l in old(deltaEntries) && !Among(entries, i, l)
        invariant forall l :: l in deltaEntries ==> deltaEntries[l] == old(deltaEntries)[l]
      {
        deltaEntries := deltaEntries - {entries[i]};
      }
    }

    method RebalanceDeltasT(dropAll: bool)
      requires Valid()
      modifies this`deltaEntries
      ensures Valid()
      ensures LostOldest(old(Contents()), Contents(), Excess(|old(Contents())|, maxEntries, dropAll))
    {
      hide LostOldest, Among, Bitmap.Valid;
      ghost var before := Contents();
      assert |before| == |deltaEntries| by {
        assert before.Keys == deltaEntries.Keys;
      }
      if |deltaEntries| > maxEntries || dropAll {
        var toRemove := |deltaEntries|;
        if !dropAll {
          toRemove := toRemove - maxEntries * 3 / 4;
        }
        var entries := OldestFirst();
        EraseFirst(entries, toRemove);
        LostPrefix(before, Contents(), entries, toRemove);
        assert toRemove == Excess(|before|, maxEntries, dropAll);
        assert LostOldest(before, Contents(), Excess(|before|, maxEntries, dropAll));
      } else {
        LostNothing(before);
        assert LostOldest(before, Contents(), Excess(|before|, maxEntries, dropAll));
      }
    }

    method RebalanceDeltas(limit: int)
      requires Valid()
      modifies this`deltaEntries, this`maxEntries
      ensures Valid() && maxEntries == if limit > 0 then limit else old(maxEntries)
      ensures LostOldest(old(Contents()), Contents(), Excess(|old(Contents())|, maxEntries, false))
    {
      hide LostOldest, Bitmap.Valid;
      ghost var before := Contents();
      if limit > 0 {
        maxEntries := limit;
      }
      assert before == Contents();
      RebalanceDeltasT(false);
    }

    method SetSessionCount(count: nat)
      requires Valid()
      modifies this`deltaEntries, this`maxEntries
      ensures Valid() && maxEntries == (if count > 1 then count else 1) * 24
      ensures LostOldest(old(Contents()), Contents(), Excess(|old(Contents())|, maxEntries, false))
    {
      RebalanceDeltas((if count > 1 then count else 1) * 24);
    }

    method DropCache()
      requires Valid()
      modifies this`deltaEntries
      ensures Valid() && Contents() == map[]
    {
      RebalanceDeltasT(true);
    }

    /** No thread is working on this location. */
    ghost predicate Free(loc: Location)
      reads this, deltaEntries.Values
    {
      loc in deltaEntries ==> !deltaEntries[loc].inUse
    }

    /** The first critical section of createDelta: a location not cached yet is cached and there
        is nothing to compare with; otherwise the entry found is claimed. */
    method FindOrInsert(update: DeltaData) returns (cacheEntry: DeltaData?)
      requires Valid() && Free(update.loc) && update.bitmap.Valid() && update !in deltaEntries.Values && !update.inUse
      modifies this`deltaEntries, deltaEntries.Values
      ensures Valid()
      ensures cacheEntry == null <==> update.loc !in old(deltaEntries)
      ensures cacheEntry == null ==>
        && deltaEntries == old(deltaEntries)[update.loc := update] && !update.inUse
        && Contents() == old(Contents())[update.loc := Entry(update.bitmap, update.wid)]
      ensures cacheEntry != null ==>
        && deltaEntries == old(deltaEntries) && cacheEntry == deltaEntries[update.loc] && cacheEntry.inUse
        && Contents() == old(Contents())
      ensures forall l :: l in old(deltaEntries) && l != update.loc ==>
                old(deltaEntries)[l].inUse == old(deltaEntries[l].inUse)
    {
      if update.loc !in deltaEntries {
        deltaEntries := deltaEntries[update.loc := update];
        return null;
      }
      cacheEntry := deltaEntries[update.loc];
      cacheEntry.Use();
    }

    /** The rest of createDelta, outside the lock. By now the entry may have been evicted: then
        only the entry itself changes, and the cache does not. */
    method CompareAndReplace(cacheEntry: DeltaData, update: DeltaData, forceKeyframe: bool)
      returns (delta: bool, output: seq<byte>)
      requires Valid() && cacheEntry.inUse && cacheEntry != update && update !in deltaEntries.Values
      requires cacheEntry.loc == update.loc && cacheEntry.bitmap.Valid() && update.bitmap.Valid()
      requires !forceKeyframe ==> Encodable(cacheEntry.bitmap, update.bitmap)
      modifies cacheEntry
      ensures Valid() && !cacheEntry.inUse && cacheEntry.bitmap == update.bitmap && cacheEntry.wid == update.wid
      ensures delta <==> !forceKeyframe && Mergeable(old(cacheEntry.bitmap), update.bitmap)
      ensures !delta ==> output == []
      ensures delta ==> output == DeltaBytes(signed, old(cacheEntry.bitmap), update.bitmap)
      ensures var l := update.loc;
        Contents() == if l in deltaEntries && deltaEntries[l] == cacheEntry
                      then old(Contents())[l := Entry(update.bitmap, update.wid)] else old(Contents())
    {
      hide Bitmap.Valid, DeltaBytes;
      delta, output := false, [];
      if !forceKeyframe {
        assert cacheEntry.bitmap.Valid() && update.bitmap.Valid();
        delta, output := MakeDelta(cacheEntry.bitmap, update.bitmap, signed);
      }
      cacheEntry.ReplaceAndFree(update);
      cacheEntry.Unuse();
    }

    /** createDelta, with no other call between its critical sections: a delta if possible, and
        the new bitmap is remembered. */
    method CreateDelta(pixmap: seq<Pixel>, startX: nat, startY: nat, width: nat, height: nat,
                       bufferWidth: nat, bufferHeight: nat, loc: Location, wid: nat, forceKeyframe: bool)
      returns (delta: bool, output: seq<byte>)
      requires Valid() && Free(loc)
      requires |pixmap| == bufferHeight * bufferWidth
      requires startX + width <= bufferWidth && startY + height <= bufferHeight
      requires loc in deltaEntries && width % 2 == 0 && !forceKeyframe ==>
        Encodable(Contents()[loc].bitmap, Crop(pixmap, startX, startY, width, height, bufferWidth, bufferHeight))
      modifies this`deltaEntries, deltaEntries.Values
      ensures Valid() && Free(loc)
      ensures var cur := Crop(pixmap, startX, startY, width, height, bufferWidth, bufferHeight);
        && var found := Found(old(Contents()), loc, cur);
        && (delta <==> found.Some? && !forceKeyframe && Mergeable(found.value, cur))
        && (!delta ==> output == [])
        && (delta ==> output == DeltaBytes(signed, found.value, cur))
        && Contents() == Stored(old(Contents()), loc, cur, wid)
      ensures forall l :: l in old(deltaEntries) && l != loc ==>
                old(deltaEntries)[l].inUse == old(deltaEntries[l].inUse)
    {
      hide Crop, DeltaBytes, Bitmap.Valid;
      delta, output := false, [];
      if width % 2 != 0 {
        return;
      }
      var update := new DeltaData(wid, pixmap, startX, startY, width, height, loc, bufferWidth, bufferHeight);
      var cacheEntry := FindOrInsert(update);
      if cacheEntry == null {
        return;
      }
      delta, output := CompareAndReplace(cacheEntry, update, forceKeyframe);
    }

    /** compressOrDelta: what is sent for a freshly rendered tile. */
    method CompressOrDelta(pixmap: seq<Pixel>, startX: nat, startY: nat, width: nat, height: nat,
                           bufferWidth: nat, bufferHeight: nat, loc: Location, wid: nat, forceKeyframe: bool)
      returns (message: Message)
      requires Valid() && Free(loc)
      requires |pixmap| == bufferHeight * bufferWidth
      requires startX + width <= bufferWidth && startY + height <= bufferHeight
      requires loc in deltaEntries && width % 2 == 0 && !forceKeyframe ==>
        Encodable(Contents()[loc].bitmap, Crop(pixmap, startX, startY, width, height, bufferWidth, bufferHeight))
      modifies this`deltaEntries, deltaEntries.Values
      ensures Valid() && Free(loc)
      ensures var cur := Crop(pixmap, startX, startY, width, height, bufferWidth, bufferHeight);
        && Contents() == Stored(old(Contents()), loc, cur, wid)
        && message == Reply(signed, Found(old(Contents()), loc, cur), cur, forceKeyframe)
      ensures forall l :: l in old(deltaEntries) && l != loc ==>
                old(deltaEntries)[l].inUse == old(deltaEntries[l].inUse)
    {
      hide Unpremult, UnpremultAll, DeltaBytes, Wire, Flatten, CropRow;
      ghost var cur := Crop(pixmap, startX, startY, width, height, bufferWidth, bufferHeight);
      var delta, output :=
        CreateDelta(pixmap, startX, startY, width, height, bufferWidth, bufferHeight, loc, wid, forceKeyframe);
      if delta {
        message := if output == [] then Unchanged else Delta(output);
        return;
      }
      var image: seq<byte> := [];
      WireOfNothing();
      for y := 0 to height
        modifies {}
        invariant image == Wire(Flatten(cur.ShownRows()[..y]))
      {
        CropPrefix(pixmap, startX, startY, width, height, bufferWidth, bufferHeight, y);
        var fixedupLine := UnpremultCopy(CropRow(pixmap, startX, startY + y, width, bufferWidth, bufferHeight));
        FlattenAppend(cur.ShownRows()[..y], UnpremultAll(cur.rows[y]));
        assert cur.ShownRows()[..y + 1] == cur.ShownRows()[..y] + [UnpremultAll(cur.rows[y])];
        image := image + fixedupLine;
      }
      assert cur.ShownRows()[..height] == cur.ShownRows();
      message := Keyframe(image);
    }
  }

  lemma WireOfNothing()
    ensures Wire(Flatten([])) == []
  {
  }

  lemma {:induction false} FlattenAppend(rows: seq<seq<Rgba>>, row: seq<Rgba>)
    ensures Wire(Flatten(rows + [row])) == Wire(Flatten(rows)) + Wire(row)
  {
    hide Wire;
    if rows == [] {
      assert Wire([]) == [] by { WireOfNothing(); }
      assert Flatten([row]) == row + Flatten([]) == row;
    } else {
      assert (rows + [row])[1..] == rows[1..] + [row];
      FlattenAppend(rows[1..], row);
      WireConcat(rows[0], Flatten(rows[1..] + [row]));
      WireConcat(rows[0], Flatten(rows[1..]));
    }
  }

  lemma {:induction false} WireConcat(a: seq<Rgba>, b: seq<Rgba>)
    ensures Wire(a + b) == Wire(a) + Wire(b)
  {
    if a == [] {
      assert a + b == b;
    } else {
      assert (a + b)[1..] == a[1..] + b;
      WireConcat(a[1..], b);
    }
  }
}
