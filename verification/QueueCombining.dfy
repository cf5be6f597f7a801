/** Which tiles a get combines, which it leaves, and in which order it answers. */
module QueueCombining {
  import opened QueueMessages
  import opened QueueSpec
  import opened QueueMeaning
  import opened QueueService

  /** The tiles may be rendered at once: of one view, part, mode and sizes, on rows that touch, at
      most sixteen columns apart. */
  predicate Together(a: Tile, b: Tile)
    requires a.tileWidth > 0 && b.tileWidth > 0
  {
    && a.nviewid == b.nviewid && a.part == b.part && a.mode == b.mode
    && a.width == b.width && a.height == b.height && a.tileWidth == b.tileWidth && a.tileHeight == b.tileHeight
    && a.posY <= b.posY + b.tileHeight && b.posY <= a.posY + a.tileHeight
    && a.posX / a.tileWidth <= b.posX / b.tileWidth + 16 && b.posX / b.tileWidth <= a.posX / a.tileWidth + 16
  }

  /** The queued tiles, previews apart, that go with a tile, in queue order. */
  function TogetherWith(first: Tile, q: Queue): seq<Tile>
    requires first.Valid() && AllTilesValid(q)
    decreases |q|
  {
    if q == [] then []
    else
      var n := |q| - 1;
      TogetherWith(first, q[..n])
      + if q[n].TileRequest? && q[n].tile.id < 0 && Together(first, q[n].tile) then [q[n].tile] else []
  }

  lemma JoinsMeans(first: Tile, m: Message)
    requires first.Valid() && m.Valid()
    ensures JoinsWith(first, m) <==> m.TileRequest? && m.tile.id < 0 && Together(first, m.tile)
  {
  }

  /** The companions taken along are all that go with the first tile, in queue order. */
  lemma {:induction false} CompanionsAreTogether(first: Tile, q: Queue)
    requires first.Valid() && AllTilesValid(q)
    ensures Companions(first, q) == TogetherWith(first, q)
    decreases |q|
  {
    if q != [] {
      var front, m := q[..|q| - 1], q[|q| - 1];
      assert front + [m] == q;
      CompanionsAreTogether(first, front);
      LeftoverOneMore(first, front, m);
      JoinsMeans(first, m);
    }
  }

  // ---- duplicates

  /** The first tile at each place, in order. */
  function Firsts(tiles: seq<Tile>): seq<Tile>
    decreases |tiles|
  {
    if tiles == [] then []
    else
      var front, t := tiles[..|tiles| - 1], tiles[|tiles| - 1];
      Firsts(front) + if exists u :: u in front && u.posX == t.posX && u.posY == t.posY then [] else [t]
  }

  lemma {:induction false} ElsewhereOneMore(tiles: seq<Tile>, t: Tile, a: Tile)
    ensures Elsewhere(tiles + [t], a) == Elsewhere(tiles, a) + if t.SamePlace(a) then [] else [t]
  {
    if tiles == [] {
      assert (tiles + [t])[1..] == [];
    } else {
      hide Tile.SamePlace;
      assert (tiles + [t])[1..] == tiles[1..] + [t];
      ElsewhereOneMore(tiles[1..], t, a);
    }
  }

  /** Some of the tiles is at the place of this one. */
  ghost predicate PlaceTaken(tiles: seq<Tile>, t: Tile) {
    exists u :: u in tiles && u.SamePlace(t)
  }

  lemma PlaceTakenElsewhere(tiles: seq<Tile>, t: Tile)
    requires tiles != [] && !t.SamePlace(tiles[0])
    ensures PlaceTaken(tiles, t) <==> PlaceTaken(Elsewhere(tiles[1..], tiles[0]), t)
  {
    if PlaceTaken(tiles, t) {
      var u :| u in tiles && u.SamePlace(t);
      assert u in tiles[1..];
    }
  }

  lemma DedupFirst(tiles: seq<Tile>, a: Tile, others: seq<Tile>, rest: seq<Tile>)
    requires tiles == [a] + others && rest == Elsewhere(others, a)
    ensures Dedup(tiles) == [a] + Dedup(rest)
  {
  }

  lemma FrontOfMore(tiles: seq<Tile>, t: Tile)
    requires tiles != []
    ensures tiles == [tiles[0]] + tiles[1..] && tiles + [t] == [tiles[0]] + (tiles[1..] + [t])
  {
  }

  lemma DedupAgain(tiles: seq<Tile>, t: Tile)
    requires tiles != [] && t.SamePlace(tiles[0])
    ensures Dedup(tiles + [t]) == Dedup(tiles)
  {
    hide Dedup, Elsewhere, Tile.SamePlace;
    var a, others := tiles[0], tiles[1..];
    FrontOfMore(tiles, t);
    ElsewhereOneMore(others, t, a);
    assert Elsewhere(others, a) + [] == Elsewhere(others, a);
    DedupFirst(tiles, a, others, Elsewhere(others, a));
    DedupFirst(tiles + [t], a, others + [t], Elsewhere(others, a));
  }

  lemma {:induction false} DedupOneMore(tiles: seq<Tile>, t: Tile)
    ensures Dedup(tiles + [t]) == Dedup(tiles) + if PlaceTaken(tiles, t) then [] else [t]
    decreases |tiles|
  {
    if tiles == [] {
      assert (tiles + [t])[1..] == [];
    } else if t.SamePlace(tiles[0]) {
      assert PlaceTaken(tiles, t) by { assert tiles[0] in tiles && tiles[0].SamePlace(t); }
      DedupAgain(tiles, t);
    } else {
      var a, others := tiles[0], tiles[1..];
      var rest := Elsewhere(others, a);
      FrontOfMore(tiles, t);
      ElsewhereOneMore(others, t, a);
      PlaceTakenElsewhere(tiles, t);
      hide Dedup, Elsewhere, Tile.SamePlace, PlaceTaken;
      DedupFirst(tiles, a, others, rest);
      DedupFirst(tiles + [t], a, others + [t], rest + [t]);
      DedupOneMore(rest, t);
    }
  }

  /** Dropping duplicates pair by pair leaves the first tile at each place. */
  lemma {:induction false} DedupIsFirsts(tiles: seq<Tile>)
    ensures Dedup(tiles) == Firsts(tiles)
    decreases |tiles|
  {
    if tiles != [] {
      var front, t := tiles[..|tiles| - 1], tiles[|tiles| - 1];
      assert front + [t] == tiles;
      DedupIsFirsts(front);
      DedupOneMore(front, t);
    }
  }

  // ---- one get

  /** The answer to a front tile: the most urgent tile and all queued ones that go with it, the
      first at each place; one that nothing goes with is answered as a message of its own. */
  lemma GetAnswers(q: Queue, views: Views)
    requires q != [] && q[0].IsPlainTile() && views.Valid() && AllTilesValid(q)
    ensures exists i: nat :: i < |q| && q[i].TileRequest? && MostUrgent(q, views, i) && AllTilesValid(RemoveAt(q, i))
              && Rendered(Get(q, views).0) == Firsts([q[i].tile] + TogetherWith(q[i].tile, RemoveAt(q, i)))
              && (Get(q, views).0.Just? <==> TogetherWith(q[i].tile, RemoveAt(q, i)) == [])
  {
    var i := Choose(q, views, PlainPrefix(q));
    var first, rest, tiles := q[i].tile, RemoveAt(q, i), Taken(q, views);
    RemoveAtValid(q, i);
    CompanionsAreTogether(first, rest);
    DedupIsFirsts(tiles);
    assert MostUrgent(q, views, i);
    assert Rendered(Get(q, views).0) == Dedup(tiles);
  }

  /** The first tile answered. */
  lemma FirstAnswered(q: Queue, views: Views)
    requires q != [] && q[0].IsPlainTile() && views.Valid() && AllTilesValid(q)
    ensures var (a, rest) := Get(q, views);
      && Rendered(a) != [] && Rendered(a)[0].Valid() && Rendered(a)[0] == Taken(q, views)[0]
      && exists i: nat :: i < |q| && q[i].TileRequest? && q[i].tile == Rendered(a)[0]
           && AllTilesValid(RemoveAt(q, i)) && rest == Filter(RemoveAt(q, i), Leftover(q[i].tile, RemoveAt(q, i)))
  {
    var i := Choose(q, views, PlainPrefix(q));
    RemoveAtValid(q, i);
    assert q[i].Valid();
    hide Filter, Leftover, Choose, PlainPrefix, Companions;
    assert Rendered(Get(q, views).0)[0] == q[i].tile;
  }

  /** A get combines all it can: no plain tile that goes with the first one answered stays
      queued ... */
  lemma GetCombines(q: Queue, views: Views)
    requires q != [] && q[0].IsPlainTile() && views.Valid() && AllTilesValid(q)
    ensures var (a, rest) := Get(q, views);
      && Rendered(a) != [] && Rendered(a)[0].Valid()
      && forall m :: m in rest && m.IsPlainTile() ==> m.Valid() && !Together(Rendered(a)[0], m.tile)
  {
    var rest := Get(q, views).1;
    FirstAnswered(q, views);
    hide Get, Leftover, Filter;
    var i: nat :| i < |q| && q[i].TileRequest? && q[i].tile == Rendered(Get(q, views).0)[0]
      && AllTilesValid(RemoveAt(q, i)) && rest == Filter(RemoveAt(q, i), Leftover(q[i].tile, RemoveAt(q, i)));
    var first, others := q[i].tile, RemoveAt(q, i);
    FilterFlags(others, Leftover(first, others));
    forall m | m in rest && m.IsPlainTile() ensures m.Valid() && !Together(first, m.tile) {
      var k :| 0 <= k < |others| && Leftover(first, others)[k] && others[k] == m;
      JoinsMeans(first, m);
    }
  }

  /** ... and each that was queued is answered, itself or one at its place. */
  lemma GetAnswersAll(q: Queue, views: Views, m: Message)
    requires q != [] && q[0].IsPlainTile() && views.Valid() && AllTilesValid(q)
    requires m in q && m.IsPlainTile()
    ensures var a := Get(q, views).0;
      && Rendered(a) != [] && Rendered(a)[0].Valid() && m.Valid()
      && (Together(Rendered(a)[0], m.tile) ==>
            exists u :: u in Rendered(a) && u.posX == m.tile.posX && u.posY == m.tile.posY)
  {
    FirstAnswered(q, views);
    GetCombines(q, views);
    GetConserves(q, views);
    hide Get, Filter, Leftover, Taken, Requests;
    assert m in multiset(q);
    if Together(Rendered(Get(q, views).0)[0], m.tile) {
      assert m in TakenMessages(q, views);
      InRequests(Taken(q, views), m);
      TwinIsRendered(q, views, m.tile);
    }
  }

  lemma {:induction false} FilterFlags(q: Queue, keep: seq<bool>)
    requires |keep| == |q|
    ensures forall m :: m in Filter(q, keep) ==> exists k :: 0 <= k < |q| && keep[k] && q[k] == m
  {
    if q != [] {
      FilterFlags(q[1..], keep[1..]);
      FilterFirst(q, keep);
      hide Filter;
      forall m | m in Filter(q, keep) ensures exists k :: 0 <= k < |q| && keep[k] && q[k] == m {
        if m in Filter(q[1..], keep[1..]) {
          var k :| 0 <= k < |q| - 1 && keep[1..][k] && q[1..][k] == m;
          assert keep[k + 1] && q[k + 1] == m;
        } else {
          assert keep[0] && q[0] == m;
        }
      }
    }
  }

  /** A preview at the front is answered alone, and the previews right behind it go to the back,
      in order. */
  lemma GetPreview(q: Queue, views: Views)
    requires q != [] && q[0].TileRequest? && q[0].tile.id >= 0 && views.Valid() && AllTilesValid(q)
    ensures exists n: nat :: 1 <= n <= |q| && (forall k :: 1 <= k < n ==> q[k].TileRequest? && q[k].tile.id >= 0)
              && (n < |q| ==> !(q[n].TileRequest? && q[n].tile.id >= 0))
              && Get(q, views) == (Just(q[0]), q[n..] + q[1..n])
  {
    var rest := q[1..];
    var n := PreviewPrefix(rest) + 1;
    assert rest[n - 1..] == q[n..] && rest[..n - 1] == q[1..n];
    assert forall k :: 1 <= k < n ==> q[k] == rest[k - 1];
    assert Get(q, views) == (Just(q[0]), q[n..] + q[1..n]);
  }

  // ---- urgency

  /** The cursor of a view touches the tile. */
  predicate Touches(c: Cursor, t: Tile) {
    && t.posX <= c.x + c.width && c.x <= t.posX + t.tileWidth
    && t.posY <= c.y + c.height && c.y <= t.posY + t.tileHeight
  }

  /** The priority of a tile is the place in the order of the newest view whose cursor touches
      it, and -1 if none does. */
  lemma PriorityIsNewest(views: Views, t: Tile)
    requires views.Valid()
    ensures var p := views.Priority(t);
      && -1 <= p < |views.order|
      && (p >= 0 ==> Touches(views.cursors[views.order[p]], t))
      && forall i :: p < i < |views.order| ==> !Touches(views.cursors[views.order[i]], t)
  {
    assert forall i :: 0 <= i < |views.order| ==> (views.AtCursor(t, i) <==> Touches(views.cursors[views.order[i]], t));
  }
}
