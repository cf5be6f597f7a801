/** Whole runs of the queue: what is handed out, followed by what is still queued, means what
    was put. */
module QueueRuns {
  import opened QueueMessages
  import opened QueueSpec
  import opened QueueMeaning
  import opened QueueService

  // ---- events before and behind a normalised list

  /** Normalising the end of a list first changes nothing. */
  lemma {:induction false} NormalEnd(c: seq<Event>, a: seq<Event>)
    ensures Normal(c + a) == Normal(c + Normal(a))
    decreases |a|
  {
    hide Normal, Add;
    if a == [] {
      NormalNothing();
    } else {
      var front, e := a[..|a| - 1], a[|a| - 1];
      assert a == front + [e];
      NormalAppend(front, e);
      NormalEnd(c, front);
      assert c + a == (c + front) + [e];
      NormalAppend(c + front, e);
      AddAtEnd(c, Normal(front), e);
    }
  }

  lemma NormalNothing()
    ensures Normal([]) == []
  {
  }

  lemma AddAtEnd(c: seq<Event>, n: seq<Event>, e: Event)
    ensures Normal(c + Add(n, e)) == Add(Normal(c + n), e)
  {
    hide Normal, Sum;
    NormalAppend(c + n, e);
    assert (c + n) + [e] == c + (n + [e]);
    if n == [] {
      assert Add(n, e) == n + [e];
    } else {
      var f, x := n[..|n| - 1], n[|n| - 1];
      assert c + n == (c + f) + [x];
      match (x, e) {
        case (Typed(s), Typed(u)) =>
          NormalTexts(c + f, s, u);
          assert c + Add(n, e) == (c + f) + [Typed(s + u)];
        case (Removed(b1, a1), Removed(b2, a2)) =>
          NormalRemovals(c + f, b1, a1, b2, a2);
          assert c + Add(n, e) == (c + f) + [Removed(Sum(b1, b2), Sum(a1, a2))];
        case _ =>
          assert Add(n, e) == n + [e];
      }
    }
  }

  /** What means the same means the same behind anything ... */
  lemma SameBehind(c: seq<Event>, a: seq<Event>, b: seq<Event>)
    requires Normal(a) == Normal(b)
    ensures Normal(c + a) == Normal(c + b)
  {
    hide Normal;
    NormalEnd(c, a);
    NormalEnd(c, b);
  }

  /** ... and in front of anything. */
  lemma {:induction false} SameBefore(a: seq<Event>, b: seq<Event>, c: seq<Event>)
    requires Normal(a) == Normal(b)
    ensures Normal(a + c) == Normal(b + c)
    decreases |c|
  {
    hide Normal, Add;
    if c == [] {
      assert a + c == a && b + c == b;
    } else {
      var front, e := c[..|c| - 1], c[|c| - 1];
      SameBefore(a, b, front);
      assert a + c == (a + front) + [e] && b + c == (b + front) + [e];
      NormalAppend(a + front, e);
      NormalAppend(b + front, e);
    }
  }

  // ---- one operation

  /** The events put by an operation. A combined request is tiles only. */
  function EventsIn(op: Operation, view: string, id: string): seq<Event> {
    match op
    case Putting(One(m)) => EventsOf(m, view, id)
    case _ => []
  }

  /** The events an operation hands out. */
  function EventsOut(q: Queue, op: Operation, view: string, id: string): seq<Event>
    requires Sound(q, op)
  {
    if op.Getting? && !q[0].TileRequest? then EventsOf(q[0], view, id) else []
  }

  lemma {:induction false} TilesMeanNothing(q: Queue, view: string, id: string)
    ensures Events(NonTiles(q), view, id) == Events(q, view, id)
  {
    if q != [] {
      TilesMeanNothing(q[1..], view, id);
      var first := if q[0].TileRequest? then [] else [q[0]];
      EventsSplit(first, NonTiles(q[1..]), view, id);
      EventsOne(q[0], view, id);
    }
  }

  lemma {:induction false} PutTilesKeepMeaning(q: Queue, tiles: seq<Tile>, view: string, id: string)
    ensures Normal(Events(PutTiles(q, tiles), view, id)) == Normal(Events(q, view, id))
    decreases |tiles|
  {
    hide Put, Normal, Events;
    if tiles != [] {
      var m := TileRequest(tiles[0]);
      PutKeepsMeaning(q, m, view, id);
      assert Events(q, view, id) + EventsOf(m, view, id) == Events(q, view, id);
      PutTilesKeepMeaning(Put(q, m), tiles[1..], view, id);
    }
  }

  /** What is queued behind what an operation hands out is what was queued, followed by what
      the operation put. */
  lemma OperationKeepsMeaning(q: Queue, op: Operation, view: string, id: string)
    requires Sound(q, op)
    ensures Normal(EventsOut(q, op, view, id) + Events(Perform(q, op), view, id))
         == Normal(Events(q, view, id) + EventsIn(op, view, id))
  {
    hide Put, PutTiles, Get, Normal, Events, EventsOf;
    match op
    case Putting(One(m)) =>
      PutKeepsMeaning(q, m, view, id);
      assert [] + Events(Put(q, m), view, id) == Events(Put(q, m), view, id);
    case Putting(Combined(tiles)) =>
      PutTilesKeepMeaning(q, tiles, view, id);
      assert [] + Events(PutTiles(q, tiles), view, id) == Events(PutTiles(q, tiles), view, id);
      assert Events(q, view, id) + [] == Events(q, view, id);
    case Getting(views) =>
      GetKeepsMeaning(q, views, view, id);
      assert Events(q, view, id) + [] == Events(q, view, id);
  }

  lemma GetKeepsMeaning(q: Queue, views: Views, view: string, id: string)
    requires q != [] && views.Valid() && AllTilesValid(q)
    ensures (if q[0].TileRequest? then [] else EventsOf(q[0], view, id)) + Events(Get(q, views).1, view, id)
         == Events(q, view, id)
  {
    var rest := Get(q, views).1;
    GetKeepsOrder(q, views);
    TilesMeanNothing(q, view, id);
    TilesMeanNothing(rest, view, id);
    hide Get, Events, EventsOf, Views.Valid, AllTilesValid;
    if q[0].TileRequest? {
      assert [] + Events(rest, view, id) == Events(rest, view, id);
    } else {
      var n := NonTiles(q);
      assert n == [q[0]] + NonTiles(q[1..]) && n[1..] == NonTiles(q[1..]);
      EventsSplit([q[0]], n[1..], view, id);
      EventsOne(q[0], view, id);
    }
  }

  // ---- whole runs

  ghost function AfterAll(q: Queue, ops: seq<Operation>): Queue
    requires SoundRun(q, ops)
    decreases |ops|
  {
    if ops == [] then q else AfterAll(Perform(q, ops[0]), ops[1..])
  }

  /** Everything put in a run, in order. */
  function AllIn(ops: seq<Operation>, view: string, id: string): seq<Event> {
    if ops == [] then [] else EventsIn(ops[0], view, id) + AllIn(ops[1..], view, id)
  }

  /** Everything handed out in a run, in order. */
  ghost function AllOut(q: Queue, ops: seq<Operation>, view: string, id: string): seq<Event>
    requires SoundRun(q, ops)
    decreases |ops|
  {
    if ops == [] then [] else EventsOut(q, ops[0], view, id) + AllOut(Perform(q, ops[0]), ops[1..], view, id)
  }

  /** In every run of puts and gets, the events handed out so far followed by those still
      queued are, for every view and window id, all the events put, in the order they were put:
      only adjacent texts and adjacent removals are joined. */
  lemma {:induction false} RunKeepsMeaning(q: Queue, ops: seq<Operation>, view: string, id: string)
    requires SoundRun(q, ops)
    ensures Normal(AllOut(q, ops, view, id) + Events(AfterAll(q, ops), view, id))
         == Normal(Events(q, view, id) + AllIn(ops, view, id))
    decreases |ops|
  {
    hide Normal, Events, Perform, EventsIn, EventsOut;
    if ops == [] {
      assert [] + Events(q, view, id) == Events(q, view, id) + [];
    } else {
      var op, next, rest := ops[0], Perform(q, ops[0]), ops[1..];
      var first, last := EventsOut(q, op, view, id), AllIn(rest, view, id);
      var behind := AllOut(next, rest, view, id) + Events(AfterAll(next, rest), view, id);
      RunKeepsMeaning(next, rest, view, id);
      SameBehind(first, behind, Events(next, view, id) + last);
      OperationKeepsMeaning(q, op, view, id);
      SameBefore(first + Events(next, view, id), Events(q, view, id) + EventsIn(op, view, id), last);
      assert AllOut(q, ops, view, id) + Events(AfterAll(q, ops), view, id) == first + behind;
      assert first + (Events(next, view, id) + last) == (first + Events(next, view, id)) + last;
      assert Events(q, view, id) + AllIn(ops, view, id) == (Events(q, view, id) + EventsIn(op, view, id)) + last;
    }
  }

  // ---- invalidated areas

  /** The messages that are no tiles, handed out by an operation and in a run. */
  function HandedOut(q: Queue, op: Operation): Queue
    requires Sound(q, op)
  {
    if op.Getting? && !q[0].TileRequest? then [q[0]] else []
  }

  ghost function AllHandedOut(q: Queue, ops: seq<Operation>): Queue
    requires SoundRun(q, ops)
    decreases |ops|
  {
    if ops == [] then [] else HandedOut(q, ops[0]) + AllHandedOut(Perform(q, ops[0]), ops[1..])
  }

  /** The operation puts an invalidation that has the point. */
  predicate Puts(op: Operation, t: Target, px: int, py: int) {
    op.Putting? && op.v.One? && Invalidates(op.v.message, t) && op.v.message.news.rect.Has(px, py)
  }

  lemma {:induction false} TilesInvalidateNothing(q: Queue, t: Target, px: int, py: int)
    ensures Invalid(NonTiles(q), t, px, py) <==> Invalid(q, t, px, py)
  {
    hide Invalid;
    if q != [] {
      TilesInvalidateNothing(q[1..], t, px, py);
      InvalidFirst(q, t, px, py);
      if !q[0].TileRequest? {
        InvalidFirst(NonTiles(q), t, px, py);
        assert NonTiles(q)[1..] == NonTiles(q[1..]);
      } else {
        assert NonTiles(q) == NonTiles(q[1..]);
      }
    }
  }

  lemma {:induction false} PutTilesKeepInvalid(q: Queue, tiles: seq<Tile>, t: Target, px: int, py: int)
    requires Invalid(q, t, px, py)
    ensures Invalid(PutTiles(q, tiles), t, px, py)
    decreases |tiles|
  {
    hide Put, Invalid;
    if tiles != [] {
      PutKeepsInvalid(q, TileRequest(tiles[0]), t, px, py);
      PutTilesKeepInvalid(Put(q, TileRequest(tiles[0])), tiles[1..], t, px, py);
    }
  }

  lemma OperationKeepsInvalid(q: Queue, op: Operation, t: Target, px: int, py: int)
    requires Sound(q, op) && (Invalid(q, t, px, py) || Puts(op, t, px, py))
    ensures Invalid(HandedOut(q, op), t, px, py) || Invalid(Perform(q, op), t, px, py)
  {
    hide Put, PutTiles, Get, Invalid;
    match op
    case Putting(One(m)) => PutKeepsInvalid(q, m, t, px, py);
    case Putting(Combined(tiles)) => PutTilesKeepInvalid(q, tiles, t, px, py);
    case Getting(views) =>
      GetKeepsOrder(q, views);
      TilesInvalidateNothing(q, t, px, py);
      TilesInvalidateNothing(Get(q, views).1, t, px, py);
      if !q[0].TileRequest? {
        InvalidFirst(NonTiles(q), t, px, py);
        InvalidFirst([q[0]], t, px, py);
      }
  }

  /** In every run, each point invalidated for a view, part and mode is handed out in some
      invalidation or still queued in one. */
  lemma {:induction false} RunKeepsInvalid(q: Queue, ops: seq<Operation>, t: Target, px: int, py: int)
    requires SoundRun(q, ops)
    requires Invalid(q, t, px, py) || exists k :: 0 <= k < |ops| && Puts(ops[k], t, px, py)
    ensures Invalid(AllHandedOut(q, ops), t, px, py) || Invalid(AfterAll(q, ops), t, px, py)
    decreases |ops|
  {
    hide Invalid, Perform, HandedOut, Puts;
    if ops != [] {
      var op, next, rest := ops[0], Perform(q, ops[0]), ops[1..];
      InvalidSplit(HandedOut(q, op), AllHandedOut(next, rest), t, px, py);
      if Invalid(q, t, px, py) || Puts(op, t, px, py) {
        OperationKeepsInvalid(q, op, t, px, py);
        if Invalid(next, t, px, py) {
          RunKeepsInvalid(next, rest, t, px, py);
        }
      } else {
        var k :| 0 <= k < |ops| && Puts(ops[k], t, px, py);
        assert rest[k - 1] == ops[k];
        RunKeepsInvalid(next, rest, t, px, py);
      }
    }
  }
}
