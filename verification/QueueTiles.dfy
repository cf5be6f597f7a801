/** Tile requests over whole runs: exactly when each is handed out, itself or by one that
    stands for it, or still queued. */
module QueueTiles {
  import opened Options
  import opened QueueMessages
  import opened QueueSpec
  import opened QueueMeaning
  import opened QueueService
  import opened QueueRuns

  /** Rendering the one tile serves who asked for the other: the same view, part, mode, sizes
      and place, and the same preview if it is one. */
  predicate Stands(u: Tile, t: Tile) {
    && u.SameKind(t) && u.SamePlace(t) && u.nviewid == t.nviewid
    && (if t.IsPreview() then u.id == t.id else !u.IsPreview())
  }

  predicate RequestFor(m: Message, t: Tile) { m.TileRequest? && Stands(m.tile, t) }

  /** A request that serves who asked for the tile is queued. */
  ghost predicate Wanted(q: Queue, t: Tile) {
    exists k :: 0 <= k < |q| && RequestFor(q[k], t)
  }

  // ---- one put

  /** The put drops a tile request for which neither the new message nor a queued one stands. */
  ghost predicate Drops(q: Queue, m: Message) {
    m.TileRequest? &&
    match FindRegister(q, TileAt(m.tile.Key()), 0)
    case None => false
    case Some(i) =>
      && !Stands(m.tile, q[i].tile)
      && forall k :: 0 <= k < |q| && k != i ==> !RequestFor(q[k], q[i].tile)
  }

  /** A new request stands for the one it replaces exactly if both are of one mode, and of one
      preview or none: the keys that are compared have neither. */
  lemma StandsForReplaced(m: Tile, queued: Message)
    requires Replaces(TileAt(m.Key()), queued)
    ensures Stands(m, queued.tile) <==>
      m.mode == queued.tile.mode && (if queued.tile.IsPreview() then m.id == queued.tile.id else !m.IsPreview())
  {
  }

  /** A put loses no tile. */
  ghost predicate KeepsTiles(q: Queue, m: Message) {
    forall t :: Wanted(q, t) || RequestFor(m, t) ==> Wanted(Put(q, m), t)
  }

  lemma StandsIsEquivalence(a: Tile, b: Tile, c: Tile)
    ensures Stands(a, a)
    ensures Stands(a, b) ==> Stands(b, a)
    ensures Stands(a, b) && Stands(b, c) ==> Stands(a, c)
  {
  }

  lemma WantedSplit(a: Queue, b: Queue, t: Tile)
    ensures Wanted(a + b, t) <==> Wanted(a, t) || Wanted(b, t)
  {
    hide RequestFor;
    if k :| 0 <= k < |a| && RequestFor(a[k], t) {
      assert (a + b)[k] == a[k];
    }
    if k :| 0 <= k < |b| && RequestFor(b[k], t) {
      assert (a + b)[|a| + k] == b[k];
    }
  }

  lemma WantedOne(m: Message, t: Tile)
    ensures Wanted([m], t) <==> RequestFor(m, t)
  {
    assert [m][0] == m;
  }

  /** Erasing one message. */
  lemma WantedAround(q: Queue, i: nat, t: Tile)
    requires i < |q|
    ensures Wanted(RemoveAt(q, i), t) <==> exists k :: 0 <= k < |q| && k != i && RequestFor(q[k], t)
  {
    hide RequestFor;
    var r := RemoveAt(q, i);
    if k :| 0 <= k < |q| && k != i && RequestFor(q[k], t) {
      assert r[if k < i then k else k - 1] == q[k];
    }
    if j :| 0 <= j < |r| && RequestFor(r[j], t) {
      assert r[j] == q[if j < i then j else j + 1];
    }
  }

  /** A put that is no tile request drops no tile request. */
  lemma OtherPutsKeepTiles(q: Queue, m: Message, k: nat)
    requires !m.TileRequest? && k < |q| && !PutKeep(q, m)[k]
    ensures !q[k].TileRequest?
  {
    if m.Callback? && m.news.Invalidate? {
      SweepDrops(q, TargetOf(m), m.news.rect, k);
    }
  }

  lemma OtherPutKeepsWanted(q: Queue, m: Message, t: Tile)
    requires !m.TileRequest? && Wanted(q, t)
    ensures Wanted(Put(q, m), t)
  {
    var k :| 0 <= k < |q| && RequestFor(q[k], t);
    if !PutKeep(q, m)[k] {
      OtherPutsKeepTiles(q, m, k);
    }
    hide PutKeep, Put;
    PutPlace(q, m, k);
  }

  lemma TilePutKeepsTiles(q: Queue, m: Message)
    requires m.TileRequest?
    ensures KeepsTiles(q, m) <==> !Drops(q, m)
  {
    var found := FindRegister(q, TileAt(m.tile.Key()), 0);
    if found.None? {
      FilterNone(q);
      assert Put(q, m) == q + [m];
      forall t ensures Wanted(q + [m], t) <==> Wanted(q, t) || RequestFor(m, t) {
        WantedSplit(q, [m], t);
        WantedOne(m, t);
      }
    } else {
      var i := found.value;
      FilterAllBut(q, i);
      assert Put(q, m) == RemoveAt(q, i) + [m];
      assert q[i].TileRequest?;
      TilePutAround(q, m, i);
      assert Drops(q, m) <==> !Wanted(RemoveAt(q, i) + [m], q[i].tile) by {
        StandsIsEquivalence(q[i].tile, q[i].tile, q[i].tile);
        AfterReplacing(q, m, i, q[i].tile);
      }
      hide Put, Drops, RemoveAt;
      if KeepsTiles(q, m) {
        StandsIsEquivalence(q[i].tile, q[i].tile, q[i].tile);
        assert Wanted(q, q[i].tile);
      }
    }
  }

  lemma AfterReplacing(q: Queue, m: Message, i: nat, t: Tile)
    requires i < |q|
    ensures Wanted(RemoveAt(q, i) + [m], t)
       <==> RequestFor(m, t) || exists k :: 0 <= k < |q| && k != i && RequestFor(q[k], t)
  {
    WantedSplit(RemoveAt(q, i), [m], t);
    WantedOne(m, t);
    WantedAround(q, i, t);
  }

  /** Nothing but what the replaced request asked for can be lost. */
  lemma TilePutAround(q: Queue, m: Message, i: nat)
    requires m.TileRequest? && i < |q| && q[i].TileRequest?
    ensures (forall t :: Wanted(q, t) || RequestFor(m, t) ==> Wanted(RemoveAt(q, i) + [m], t))
       <==> Wanted(RemoveAt(q, i) + [m], q[i].tile)
  {
    var after, x := RemoveAt(q, i) + [m], q[i].tile;
    StandsIsEquivalence(x, x, x);
    assert Wanted(q, x);
    if Wanted(after, x) {
      forall t | Wanted(q, t) || RequestFor(m, t) ensures Wanted(after, t) {
        AfterReplacing(q, m, i, t);
        AfterReplacing(q, m, i, x);
        if RequestFor(q[i], t) {
          if RequestFor(m, x) {
            StandsIsEquivalence(m.tile, x, t);
          } else {
            var k :| 0 <= k < |q| && k != i && RequestFor(q[k], x);
            StandsIsEquivalence(q[k].tile, x, t);
          }
        }
      }
    }
  }

  /** A put loses no tile if and only if it drops none. */
  lemma PutKeepsTiles(q: Queue, m: Message)
    ensures KeepsTiles(q, m) <==> !Drops(q, m)
  {
    if m.TileRequest? {
      TilePutKeepsTiles(q, m);
    } else {
      forall t | Wanted(q, t) ensures Wanted(Put(q, m), t) {
        OtherPutKeepsWanted(q, m, t);
      }
    }
  }

  /** Such as a request for another mode, where nothing else is queued. */
  lemma OtherModeDrops(t: Tile, mode: int)
    requires mode != t.mode
    ensures Put([TileRequest(t)], TileRequest(t.(mode := mode))) == [TileRequest(t.(mode := mode))]
    ensures Drops([TileRequest(t)], TileRequest(t.(mode := mode)))
  {
    var q, m := [TileRequest(t)], TileRequest(t.(mode := mode));
    assert Replaces(TileAt(m.tile.Key()), q[0]);
    assert FindRegister(q, TileAt(m.tile.Key()), 0) == Some(0);
    FilterAllBut(q, 0);
  }

  // ---- one get

  /** The answer renders a tile that stands for this one. */
  ghost predicate Renders(a: Answer, t: Tile) {
    exists u :: u in Rendered(a) && Stands(u, t)
  }

  lemma TakenOneView(q: Queue, views: Views, t: Tile)
    requires q != [] && q[0].IsPlainTile() && views.Valid() && AllTilesValid(q)
    requires t in Taken(q, views)
    ensures t.SameKind(Taken(q, views)[0]) && t.nviewid == Taken(q, views)[0].nviewid && !t.IsPreview()
  {
    var i := Choose(q, views, PlainPrefix(q));
    assert q[i].IsPlainTile();
    var first, rest := q[i].tile, RemoveAt(q, i);
    hide Choose, PlainPrefix;
    if t in Companions(first, rest) {
      CompanionJoins(first, rest, t);
    }
  }

  lemma {:induction false} CompanionJoins(first: Tile, q: Queue, t: Tile)
    requires first.Valid() && AllTilesValid(q) && t in Companions(first, q)
    ensures !t.IsPreview() && first.SameKind(t) && first.nviewid == t.nviewid
  {
    if JoinsWith(first, q[0]) && q[0].tile == t {
    } else {
      CompanionJoins(first, q[1..], t);
    }
  }

  lemma TakenIsRendered(q: Queue, views: Views, t: Tile)
    requires q != [] && q[0].IsPlainTile() && views.Valid() && AllTilesValid(q)
    requires t in Taken(q, views)
    ensures Renders(Get(q, views).0, t)
  {
    TwinIsRendered(q, views, t);
    var u :| u in Rendered(Get(q, views).0) && u.SameKind(t) && u.SamePlace(t);
    RenderedIsTaken(q, views, u);
    TakenOneView(q, views, t);
    TakenOneView(q, views, u);
    hide Get, Taken;
    assert Stands(u, t);
  }

  lemma RenderedIsTaken(q: Queue, views: Views, u: Tile)
    requires q != [] && q[0].IsPlainTile() && views.Valid() && AllTilesValid(q)
    requires u in Rendered(Get(q, views).0)
    ensures u in Taken(q, views)
  {
    hide Choose, PlainPrefix, Filter, Leftover, Companions;
  }

  /** A get loses no tile: each is rendered or still queued. */
  lemma GetKeepsTiles(q: Queue, views: Views, t: Tile)
    requires q != [] && views.Valid() && AllTilesValid(q) && Wanted(q, t)
    ensures Renders(Get(q, views).0, t) || Wanted(Get(q, views).1, t)
  {
    var k :| 0 <= k < |q| && RequestFor(q[k], t);
    var rest := Get(q, views).1;
    GetConserves(q, views);
    assert q[k] in multiset(q);
    if q[k] in rest {
      assert Wanted(rest, t);
    } else {
      assert q[k] in TakenMessages(q, views);
      if q[0].IsPlainTile() {
        InRequests(Taken(q, views), q[k]);
        TakenIsRendered(q, views, q[k].tile);
        hide Get, Taken, Requests;
        var u :| u in Rendered(Get(q, views).0) && Stands(u, q[k].tile);
        StandsIsEquivalence(u, q[k].tile, t);
      } else {
        assert q[k] == q[0] && Get(q, views).0 == Just(q[0]);
        assert q[0].tile in Rendered(Get(q, views).0);
      }
    }
  }

  // ---- whole runs

  ghost predicate PutsDrop(q: Queue, tiles: seq<Tile>)
    decreases |tiles|
  {
    tiles != [] && (Drops(q, TileRequest(tiles[0])) || PutsDrop(Put(q, TileRequest(tiles[0])), tiles[1..]))
  }

  /** Some put of the operation drops a tile request. */
  ghost predicate OperationDrops(q: Queue, op: Operation) {
    match op
    case Putting(One(m)) => Drops(q, m)
    case Putting(Combined(tiles)) => PutsDrop(q, tiles)
    case Getting(_) => false
  }

  ghost predicate NeverDrops(q: Queue, ops: seq<Operation>)
    requires SoundRun(q, ops)
    decreases |ops|
  {
    ops == [] || (!OperationDrops(q, ops[0]) && NeverDrops(Perform(q, ops[0]), ops[1..]))
  }

  ghost predicate PutsKeepTiles(q: Queue, tiles: seq<Tile>)
    decreases |tiles|
  {
    tiles == [] ||
    (KeepsTiles(q, TileRequest(tiles[0])) && PutsKeepTiles(Put(q, TileRequest(tiles[0])), tiles[1..]))
  }

  /** No put of the operation loses a tile, and what a get takes it renders. */
  ghost predicate OperationKeepsTiles(q: Queue, op: Operation)
    requires Sound(q, op)
  {
    match op
    case Putting(One(m)) => KeepsTiles(q, m)
    case Putting(Combined(tiles)) => PutsKeepTiles(q, tiles)
    case Getting(views) => forall t :: Wanted(q, t) ==> Renders(Get(q, views).0, t) || Wanted(Get(q, views).1, t)
  }

  ghost predicate RunKeepsTiles(q: Queue, ops: seq<Operation>)
    requires SoundRun(q, ops)
    decreases |ops|
  {
    ops == [] || (OperationKeepsTiles(q, ops[0]) && RunKeepsTiles(Perform(q, ops[0]), ops[1..]))
  }

  lemma {:induction false} PutsKeepUnlessDropped(q: Queue, tiles: seq<Tile>)
    ensures PutsKeepTiles(q, tiles) <==> !PutsDrop(q, tiles)
    decreases |tiles|
  {
    hide KeepsTiles, Drops, Put;
    if tiles != [] {
      PutKeepsTiles(q, TileRequest(tiles[0]));
      PutsKeepUnlessDropped(Put(q, TileRequest(tiles[0])), tiles[1..]);
    }
  }

  /** In every run no tile is lost at any step if and only if no put drops a request that
      nothing stands for. */
  lemma {:induction false} TilesKeptUnlessDropped(q: Queue, ops: seq<Operation>)
    requires SoundRun(q, ops)
    ensures RunKeepsTiles(q, ops) <==> NeverDrops(q, ops)
    decreases |ops|
  {
    hide KeepsTiles, Drops, Perform, Get, Wanted, Renders;
    if ops != [] {
      match ops[0] {
        case Putting(One(m)) => PutKeepsTiles(q, m);
        case Putting(Combined(tiles)) => PutsKeepUnlessDropped(q, tiles);
        case Getting(views) =>
          forall t | Wanted(q, t) ensures Renders(Get(q, views).0, t) || Wanted(Get(q, views).1, t) {
            GetKeepsTiles(q, views, t);
          }
      }
      TilesKeptUnlessDropped(Perform(q, ops[0]), ops[1..]);
    }
  }

  /** The operation asks for the tile. */
  ghost predicate Asks(op: Operation, t: Tile) {
    match op
    case Putting(One(m)) => RequestFor(m, t)
    case Putting(Combined(tiles)) => exists u :: u in tiles && Stands(u, t)
    case Getting(_) => false
  }

  /** Some get of the run renders the tile. */
  ghost predicate RunRenders(q: Queue, ops: seq<Operation>, t: Tile)
    requires SoundRun(q, ops)
    decreases |ops|
  {
    ops != [] &&
    ((ops[0].Getting? && Renders(Get(q, ops[0].views).0, t)) || RunRenders(Perform(q, ops[0]), ops[1..], t))
  }

  lemma {:induction false} PutsKeepWanted(q: Queue, tiles: seq<Tile>, t: Tile)
    requires PutsKeepTiles(q, tiles) && (Wanted(q, t) || exists u :: u in tiles && Stands(u, t))
    ensures Wanted(PutTiles(q, tiles), t)
    decreases |tiles|
  {
    hide Wanted, Put, Stands;
    if tiles != [] {
      var m := TileRequest(tiles[0]);
      if Wanted(q, t) || Stands(tiles[0], t) {
        assert RequestFor(m, t) <==> Stands(tiles[0], t);
        assert Wanted(Put(q, m), t);
      } else {
        var u :| u in tiles && Stands(u, t);
        assert u in tiles[1..];
      }
      PutsKeepWanted(Put(q, m), tiles[1..], t);
    }
  }

  /** So in such a run each tile asked for is rendered, itself or one that stands for it, or a
      request for it is still queued. */
  lemma {:induction false} EachTileIsServed(q: Queue, ops: seq<Operation>, t: Tile)
    requires SoundRun(q, ops) && NeverDrops(q, ops)
    requires Wanted(q, t) || exists k :: 0 <= k < |ops| && Asks(ops[k], t)
    ensures RunRenders(q, ops, t) || Wanted(AfterAll(q, ops), t)
    decreases |ops|
  {
    hide Wanted, Renders, Drops, KeepsTiles, Put, Get;
    if ops != [] {
      var op, next, rest := ops[0], Perform(q, ops[0]), ops[1..];
      if Wanted(q, t) || Asks(op, t) {
        StepServes(q, op, t);
        if Wanted(next, t) {
          EachTileIsServed(next, rest, t);
        }
      } else {
        var k :| 0 <= k < |ops| && Asks(ops[k], t);
        assert rest[k - 1] == ops[k];
        EachTileIsServed(next, rest, t);
      }
    }
  }

  lemma StepServes(q: Queue, op: Operation, t: Tile)
    requires Sound(q, op) && !OperationDrops(q, op) && (Wanted(q, t) || Asks(op, t))
    ensures Wanted(Perform(q, op), t) || (op.Getting? && Renders(Get(q, op.views).0, t))
  {
    hide Wanted, Renders, Drops, Put, Get;
    match op
    case Putting(One(m)) => PutKeepsTiles(q, m);
    case Putting(Combined(tiles)) =>
      PutsKeepUnlessDropped(q, tiles);
      PutsKeepWanted(q, tiles, t);
    case Getting(views) => GetKeepsTiles(q, views, t);
  }
}
