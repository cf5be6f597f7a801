/** Getting messages out: nothing is lost or rendered twice, messages that are not tiles keep
    their order, and none of them waits for ever. */
module QueueService {
  import opened QueueMessages
  import opened QueueSpec

  // ---- conservation

  function Requests(tiles: seq<Tile>): (q: Queue)
    ensures |q| == |tiles|
  {
    if tiles == [] then [] else [TileRequest(tiles[0])] + Requests(tiles[1..])
  }

  /** The messages one get takes from the queue. */
  function TakenMessages(q: Queue, views: Views): Queue
    requires q != [] && views.Valid() && AllTilesValid(q)
  {
    if q[0].IsPlainTile() then Requests(Taken(q, views)) else [q[0]]
  }

  /** The tiles an answer asks to render. */
  function Rendered(a: Answer): seq<Tile> {
    match a
    case Just(m) => if m.TileRequest? then [m.tile] else []
    case Tiles(tiles) => tiles
  }

  lemma RemoveAtValid(q: Queue, i: nat)
    requires AllTilesValid(q) && i < |q|
    ensures AllTilesValid(RemoveAt(q, i))
  {
  }

  lemma {:induction false} Partition(first: Tile, q: Queue)
    requires first.Valid() && AllTilesValid(q)
    ensures multiset(Filter(q, Leftover(first, q))) + multiset(Requests(Companions(first, q))) == multiset(q)
  {
    hide JoinsWith, Tile.SameKind, Tile.Valid;
    if q != [] {
      var rest := q[1..];
      Partition(first, rest);
      assert q == [q[0]] + rest;
      LeftoverStep(first, q);
      hide Companions, Leftover, Filter, Requests;
      OneMore(q[0], rest, Filter(rest, Leftover(first, rest)), Requests(Companions(first, rest)));
      if JoinsWith(first, q[0]) {
        JoinsIsTile(first, q[0]);
        RequestsStep(q[0].tile, Companions(first, rest));
      } else {
        assert [] + Companions(first, rest) == Companions(first, rest);
      }
    }
  }

  lemma OneMore(m: Message, q: Queue, a: Queue, b: Queue)
    requires multiset(a) + multiset(b) == multiset(q)
    ensures multiset([m] + a) + multiset(b) == multiset([m] + q)
    ensures multiset([] + a) + multiset([m] + b) == multiset([m] + q)
  {
    assert [] + a == a;
  }

  lemma JoinsIsTile(first: Tile, m: Message)
    requires first.Valid() && m.Valid() && JoinsWith(first, m)
    ensures m.TileRequest?
  {
  }

  lemma LeftoverStep(first: Tile, q: Queue)
    requires first.Valid() && AllTilesValid(q) && q != []
    ensures Companions(first, q) == (if JoinsWith(first, q[0]) then [q[0].tile] else []) + Companions(first, q[1..])
    ensures Filter(q, Leftover(first, q))
         == (if JoinsWith(first, q[0]) then [] else [q[0]]) + Filter(q[1..], Leftover(first, q[1..]))
  {
    hide JoinsWith, Tile.SameKind, Tile.Valid;
    assert Leftover(first, q)[1..] == Leftover(first, q[1..]);
  }

  lemma {:induction false} InRequests(tiles: seq<Tile>, m: Message)
    requires m in Requests(tiles)
    ensures m.TileRequest? && m.tile in tiles
  {
    if m != TileRequest(tiles[0]) {
      InRequests(tiles[1..], m);
    }
  }

  lemma {:induction false} LeftoverOneMore(first: Tile, q: Queue, m: Message)
    requires first.Valid() && AllTilesValid(q) && m.Valid()
    ensures AllTilesValid(q + [m])
    ensures Companions(first, q + [m]) == Companions(first, q) + if JoinsWith(first, m) then [m.tile] else []
    ensures Leftover(first, q + [m]) == Leftover(first, q) + [!JoinsWith(first, m)]
  {
    assert AllTilesValid(q + [m]);
    hide JoinsWith, Message.Valid, Tile.Valid, Tile.SameKind;
    if JoinsWith(first, m) {
      JoinsIsTile(first, m);
    }
    if q == [] {
      assert q + [m] == [m] && [m][1..] == [];
    } else {
      assert (q + [m])[0] == q[0] && (q + [m])[1..] == q[1..] + [m];
      LeftoverOneMore(first, q[1..], m);
    }
  }

  lemma RequestsStep(t: Tile, tiles: seq<Tile>)
    ensures Requests([t] + tiles) == [TileRequest(t)] + Requests(tiles)
  {
    assert ([t] + tiles)[1..] == tiles;
  }

  lemma RemoveAtMultiset(q: Queue, i: nat)
    requires i < |q|
    ensures multiset(q) == multiset{q[i]} + multiset(RemoveAt(q, i))
  {
    assert q == q[..i] + [q[i]] + q[i + 1..];
  }

  /** Everything queued is either taken by the get or still queued. */
  lemma GetConserves(q: Queue, views: Views)
    requires q != [] && views.Valid() && AllTilesValid(q)
    ensures multiset(TakenMessages(q, views)) + multiset(Get(q, views).1) == multiset(q)
  {
    hide Taken, Filter, Choose, PlainPrefix, PreviewPrefix, Requests, Tile.Valid, Leftover;
    if q[0].IsPlainTile() {
      GetTilesConserves(q, views);
    } else {
      RemoveAtMultiset(q, 0);
      assert RemoveAt(q, 0) == q[1..];
      if q[0].IsPreview() {
        var rest := q[1..];
        var n := PreviewPrefix(rest);
        assert rest == rest[..n] + rest[n..];
      }
    }
  }

  lemma GetTilesConserves(q: Queue, views: Views)
    requires q != [] && views.Valid() && AllTilesValid(q) && q[0].IsPlainTile()
    ensures multiset(Requests(Taken(q, views))) + multiset(Get(q, views).1) == multiset(q)
  {
    hide Companions, Filter, Choose, PlainPrefix, PreviewPrefix, Requests, Tile.Valid, Leftover, Dedup;
    var i := Choose(q, views, PlainPrefix(q));
    var first, rest := q[i].tile, RemoveAt(q, i);
    RemoveAtValid(q, i);
    Partition(first, rest);
    RemoveAtMultiset(q, i);
    RequestsStep(first, Companions(first, rest));
    assert Get(q, views).1 == Filter(rest, Leftover(first, rest));
  }

  /** A tile taken but not answered has an answered twin of the same part, mode, sizes and place;
      answered tiles were all taken, and no two are at one place. */
  lemma TwinIsRendered(q: Queue, views: Views, t: Tile)
    requires q != [] && q[0].IsPlainTile() && views.Valid() && AllTilesValid(q)
    requires t in Taken(q, views)
    ensures exists u :: u in Rendered(Get(q, views).0) && u.SameKind(t) && u.SamePlace(t)
  {
    hide Choose, PlainPrefix, Filter, Leftover;
    var tiles := Taken(q, views);
    DedupTwin(tiles, t);
    var u :| u in Dedup(tiles) && u.SamePlace(t);
    TakenAlike(q, views, t);
    TakenAlike(q, views, u);
    if |tiles| == 1 {
      assert u == tiles[0];
    }
    assert u in Rendered(Get(q, views).0) && u.SameKind(t) && u.SamePlace(t);
  }

  lemma TakenAlike(q: Queue, views: Views, t: Tile)
    requires q != [] && q[0].IsPlainTile() && views.Valid() && AllTilesValid(q)
    requires t in Taken(q, views)
    ensures t.SameKind(Taken(q, views)[0])
  {
    hide Choose, PlainPrefix;
    var i := Choose(q, views, PlainPrefix(q));
    var others := Companions(q[i].tile, RemoveAt(q, i));
    var tiles := Taken(q, views);
    var k :| 0 <= k < |tiles| && tiles[k] == t;
    if k > 0 {
      assert tiles[k] == others[k - 1];
    }
  }

  lemma {:induction false} DedupTwin(tiles: seq<Tile>, t: Tile)
    requires t in tiles
    ensures exists u :: u in Dedup(tiles) && u.SamePlace(t)
    decreases |tiles|
  {
    var a := tiles[0];
    var rest := Elsewhere(tiles[1..], a);
    if a.SamePlace(t) {
      assert a in Dedup(tiles);
    } else {
      assert t in tiles[1..];
      DedupTwin(rest, t);
      var u :| u in Dedup(rest) && u.SamePlace(t);
      assert u in Dedup(tiles);
    }
  }

  /** What is asserted of a combined answer: one kind of tiles, each place once. */
  lemma CombinedIsWellFormed(q: Queue, views: Views)
    requires q != [] && views.Valid() && AllTilesValid(q)
    ensures var tiles := Rendered(Get(q, views).0);
      forall i, j :: 0 <= i < j < |tiles| ==> tiles[i].SameKind(tiles[j]) && !tiles[i].SamePlace(tiles[j])
  {
    hide Choose, PlainPrefix, Filter, Leftover, Dedup;
    var tiles := Rendered(Get(q, views).0);
    forall i, j | 0 <= i < j < |tiles|
      ensures tiles[i].SameKind(tiles[j]) && !tiles[i].SamePlace(tiles[j])
    {
      assert q[0].IsPlainTile() && tiles == Dedup(Taken(q, views));
      assert tiles[i] in tiles && tiles[j] in tiles;
      TakenAlike(q, views, tiles[i]);
      TakenAlike(q, views, tiles[j]);
    }
  }

  /** The answer to a front tile starts with the most urgent tile that may be taken. */
  lemma MostUrgentFirst(q: Queue, views: Views)
    requires q != [] && q[0].IsPlainTile() && views.Valid() && AllTilesValid(q)
    ensures exists i: nat :: MostUrgent(q, views, i) && Rendered(Get(q, views).0) != []
              && Rendered(Get(q, views).0)[0] == q[i].tile
  {
    hide Companions, Filter, Leftover;
    var i := Choose(q, views, PlainPrefix(q));
    assert MostUrgent(q, views, i);
    assert Rendered(Get(q, views).0)[0] == q[i].tile;
  }

  // ---- order of everything that is no tile

  function NonTiles(q: Queue): Queue {
    if q == [] then [] else (if q[0].TileRequest? then [] else [q[0]]) + NonTiles(q[1..])
  }

  lemma {:induction false} NonTilesSplit(a: Queue, b: Queue)
    ensures NonTiles(a + b) == NonTiles(a) + NonTiles(b)
  {
    if a == [] {
      assert a + b == b;
    } else {
      assert (a + b)[1..] == a[1..] + b;
      NonTilesSplit(a[1..], b);
    }
  }

  lemma {:induction false} OnlyTiles(q: Queue)
    requires forall k :: 0 <= k < |q| ==> q[k].TileRequest?
    ensures NonTiles(q) == []
  {
    if q != [] {
      OnlyTiles(q[1..]);
    }
  }

  lemma {:induction false} FilterNonTiles(q: Queue, keep: seq<bool>)
    requires |keep| == |q| && forall k :: 0 <= k < |q| && !keep[k] ==> q[k].TileRequest?
    ensures NonTiles(Filter(q, keep)) == NonTiles(q)
  {
    if q != [] {
      FilterNonTiles(q[1..], keep[1..]);
      NonTilesSplit(if keep[0] then [q[0]] else [], Filter(q[1..], keep[1..]));
      assert [q[0]][1..] == [];
    }
  }

  /** A get takes at most the head of the messages that are no tiles, and never reorders them. */
  lemma GetKeepsOrder(q: Queue, views: Views)
    requires q != [] && views.Valid() && AllTilesValid(q)
    ensures NonTiles(Get(q, views).1) == if q[0].TileRequest? then NonTiles(q) else NonTiles(q)[1..]
    ensures !q[0].TileRequest? ==> Get(q, views).0 == Just(NonTiles(q)[0])
  {
    hide Companions, Choose, Filter, Taken, PlainPrefix, PreviewPrefix, Leftover, Tile.Valid;
    if q[0].IsPlainTile() {
      var i := Choose(q, views, PlainPrefix(q));
      var first, rest := q[i].tile, RemoveAt(q, i);
      RemoveAtValid(q, i);
      FilterNonTiles(rest, Leftover(first, rest));
      RemoveTile(q, i);
    } else if q[0].IsPreview() {
      var rest := q[1..];
      var n := PreviewPrefix(rest);
      assert rest == rest[..n] + rest[n..];
      NonTilesSplit(rest[..n], rest[n..]);
      NonTilesSplit(rest[n..], rest[..n]);
      OnlyTiles(rest[..n]);
    }
  }

  lemma RemoveTile(q: Queue, i: nat)
    requires i < |q| && q[i].TileRequest?
    ensures NonTiles(RemoveAt(q, i)) == NonTiles(q)
  {
    hide NonTiles;
    assert q == q[..i] + ([q[i]] + q[i + 1..]);
    NonTilesSplit(q[..i], [q[i]] + q[i + 1..]);
    NonTilesSplit([q[i]], q[i + 1..]);
    NonTilesSplit(q[..i], q[i + 1..]);
    OnlyTiles([q[i]]);
    assert NonTiles(q) == NonTiles(q[..i]) + ([] + NonTiles(q[i + 1..]));
  }

  // ---- waiting time

  /** Where a message that was at position k is after an operation. */
  datatype Fate = At(k: nat) | Returned | Superseded

  function AfterFilter(keep: seq<bool>, k: nat): Fate
    requires k < |keep|
  {
    if keep[k] then At(Count(keep[..k])) else Superseded
  }

  lemma {:induction false} FilterPlace(q: Queue, keep: seq<bool>, k: nat)
    requires |keep| == |q| && k < |q| && keep[k]
    ensures Count(keep[..k]) <= k && Count(keep[..k]) < |Filter(q, keep)|
    ensures Filter(q, keep)[Count(keep[..k])] == q[k]
  {
    if k > 0 {
      FilterPlace(q[1..], keep[1..], k - 1);
      assert keep[..k][1..] == keep[1..][..k - 1];
    }
  }

  function AfterPut(q: Queue, m: Message, k: nat): Fate
    requires k < |q|
  {
    AfterFilter(PutKeep(q, m), k)
  }

  /** A put never moves a message back; it removes only messages it supersedes. */
  lemma PutPlace(q: Queue, m: Message, k: nat)
    requires k < |q|
    ensures match AfterPut(q, m, k)
      case At(k') => k' <= k && k' < |Put(q, m)| && Put(q, m)[k'] == q[k]
      case Superseded => PutKeep(q, m)[k] == false
      case Returned => false
  {
    hide Sweep, PutKeep;
    if PutKeep(q, m)[k] {
      FilterPlace(q, PutKeep(q, m), k);
    }
  }

  function AfterPuts(q: Queue, tiles: seq<Tile>, k: nat): Fate
    requires k < |q|
    decreases |tiles|
  {
    if tiles == [] then At(k)
    else
      PutPlace(q, TileRequest(tiles[0]), k);
      match AfterPut(q, TileRequest(tiles[0]), k)
      case At(k') => AfterPuts(Put(q, TileRequest(tiles[0])), tiles[1..], k')
      case other => other
  }

  function AfterIncoming(q: Queue, v: Incoming, k: nat): Fate
    requires k < |q|
  {
    match v
    case One(m) => AfterPut(q, m, k)
    case Combined(tiles) => AfterPuts(q, tiles, k)
  }

  lemma {:induction false} PutsPlace(q: Queue, tiles: seq<Tile>, k: nat)
    requires k < |q|
    ensures match AfterPuts(q, tiles, k)
      case At(k') => k' <= k && k' < |PutTiles(q, tiles)| && PutTiles(q, tiles)[k'] == q[k]
      case Superseded => true
      case Returned => false
    decreases |tiles|
  {
    hide Put, AfterPut;
    if tiles != [] {
      PutPlace(q, TileRequest(tiles[0]), k);
      match AfterPut(q, TileRequest(tiles[0]), k)
      case At(k') => PutsPlace(Put(q, TileRequest(tiles[0])), tiles[1..], k');
      case _ =>
    }
  }

  /** Where a message that is no tile is after a get. */
  function AfterGet(q: Queue, views: Views, k: nat): Fate
    requires k < |q| && !q[k].TileRequest? && views.Valid() && AllTilesValid(q)
  {
    if k == 0 then Returned
    else if !q[0].TileRequest? then At(k - 1)
    else if q[0].IsPreview() then
      PreviewsAhead(q[1..], k - 1);
      At(k - 1 - PreviewPrefix(q[1..]))
    else
      var i := Choose(q, views, PlainPrefix(q));
      var rest := RemoveAt(q, i);
      AfterFilter(Leftover(q[i].tile, rest), k - 1)
  }

  lemma PreviewsAhead(q: Queue, k: nat)
    requires k < |q| && !q[k].TileRequest?
    ensures PreviewPrefix(q) <= k
  {
  }

  lemma PlainAhead(q: Queue, k: nat)
    requires k < |q| && !q[k].TileRequest?
    ensures PlainPrefix(q) <= k
  {
  }

  /** Each get either returns a message that is no tile or moves it forward. */
  lemma GetPlace(q: Queue, views: Views, k: nat)
    requires k < |q| && !q[k].TileRequest? && views.Valid() && AllTilesValid(q)
    ensures match AfterGet(q, views, k)
      case At(k') => k' < k && k' < |Get(q, views).1| && Get(q, views).1[k'] == q[k]
      case Returned => Get(q, views).0 == Just(q[k])
      case Superseded => false
  {
    hide Companions, Choose, Filter, Count, Dedup, PlainPrefix, PreviewPrefix;
    if k > 0 && q[0].IsPreview() {
      PreviewsAhead(q[1..], k - 1);
    } else if k > 0 && q[0].IsPlainTile() {
      PlainAhead(q, k);
      var i := Choose(q, views, PlainPrefix(q));
      var rest := RemoveAt(q, i);
      assert rest[k - 1] == q[k];
      FilterPlace(rest, Leftover(q[i].tile, rest), k - 1);
    }
  }

  datatype Operation = Putting(v: Incoming) | Getting(views: Views)

  predicate Sound(q: Queue, op: Operation) {
    && AllTilesValid(q)
    && (op.Getting? ==> q != [] && op.views.Valid())
  }

  function Perform(q: Queue, op: Operation): Queue
    requires Sound(q, op)
  {
    match op
    case Putting(v) => PutIncoming(q, v)
    case Getting(views) => Get(q, views).1
  }

  /** Every get finds a message, every queued tile is a valid one. */
  ghost predicate SoundRun(q: Queue, ops: seq<Operation>)
    decreases |ops|
  {
    ops == [] || (Sound(q, ops[0]) && SoundRun(Perform(q, ops[0]), ops[1..]))
  }

  function AfterOp(q: Queue, op: Operation, k: nat): Fate
    requires Sound(q, op) && k < |q| && !q[k].TileRequest?
  {
    match op
    case Putting(v) => AfterIncoming(q, v, k)
    case Getting(views) => AfterGet(q, views, k)
  }

  lemma OpPlace(q: Queue, op: Operation, k: nat)
    requires Sound(q, op) && k < |q| && !q[k].TileRequest?
    ensures match AfterOp(q, op, k)
      case At(k') => k' < |Perform(q, op)| && Perform(q, op)[k'] == q[k] && k' + (if op.Getting? then 1 else 0) <= k
      case Returned => op.Getting? && Get(q, op.views).0 == Just(q[k])
      case Superseded => op.Putting?
  {
    hide Put, AfterPut, Get, AfterGet, AfterPuts, PutTiles;
    match op
    case Putting(One(m)) => PutPlace(q, m, k);
    case Putting(Combined(tiles)) => PutsPlace(q, tiles, k);
    case Getting(views) => GetPlace(q, views, k);
  }

  /** Following one message through a run. */
  ghost function AfterRun(q: Queue, ops: seq<Operation>, k: nat): Fate
    requires SoundRun(q, ops) && k < |q| && !q[k].TileRequest?
    decreases |ops|
  {
    if ops == [] then At(k)
    else
      OpPlace(q, ops[0], k);
      match AfterOp(q, ops[0], k)
      case At(k') => AfterRun(Perform(q, ops[0]), ops[1..], k')
      case other => other
  }

  function Gets(ops: seq<Operation>): nat {
    if ops == [] then 0 else (if ops[0].Getting? then 1 else 0) + Gets(ops[1..])
  }

  /** In every run of puts and gets, a message that is no tile and has k messages ahead of it
      is returned within k + 1 gets unless a put supersedes it. */
  lemma {:induction false} NoStarvation(q: Queue, ops: seq<Operation>, k: nat)
    requires SoundRun(q, ops) && k < |q| && !q[k].TileRequest?
    ensures AfterRun(q, ops, k).At? ==> AfterRun(q, ops, k).k + Gets(ops) <= k
    ensures Gets(ops) > k ==> AfterRun(q, ops, k) in {Returned, Superseded}
    decreases |ops|
  {
    hide Perform, AfterOp;
    if ops != [] {
      OpPlace(q, ops[0], k);
      match AfterOp(q, ops[0], k)
      case At(k') => NoStarvation(Perform(q, ops[0]), ops[1..], k');
      case _ =>
    }
  }
}
