/** Every run of the delta generator against its clients.

    A render takes two critical sections: the first looks its location up in the shared
    cache, the second (after the delta was built outside the lock) replaces the bitmap found.
    In between, other locations may be rendered and any part of the cache may be evicted. */
module DeltaRuns {
  import opened Options
  import opened Pixels
  import opened DeltaCodec
  import opened DeltaEncoder
  import opened DeltaCache

  datatype Render = Render(loc: Location, bitmap: Bitmap, wid: nat, forceKeyframe: bool)

  /** A render between its two critical sections, with the bitmap it found. */
  datatype Pending = Pending(found: Bitmap, render: Render)

  datatype World = World(
    cache: Cache,
    busy: map<Location, Pending>,
    client: map<Location, Picture>,    // what the client shows
    rendered: map<Location, Bitmap>)   // the last bitmap a message was sent for

  datatype Step =
    | Begin(render: Render)
    | Finish(loc: Location)
    | Evict(kept: set<Location>)

  const NOTHING := World(map[], map[], map[], map[])

  /** No two threads work on one tile, and bitmaps that are compared have sizes the encoder accepts. */
  predicate Enabled(w: World, s: Step) {
    match s
    case Begin(r) => r.loc !in w.busy && r.bitmap.Valid()
    case Finish(l) =>
      l in w.busy && w.busy[l].render.loc == l && w.busy[l].render.bitmap.Valid()
      && (!w.busy[l].render.forceKeyframe ==> Encodable(w.busy[l].found, w.busy[l].render.bitmap))
    case Evict(_) => true
  }

  function Deliver(w: World, r: Render, m: Message): World {
    var shown := if r.loc in w.client then w.client[r.loc] else Picture(0, []);
    w.(client := w.client[r.loc := Receive(shown, m, r.bitmap.width)], rendered := w.rendered[r.loc := r.bitmap])
  }

  function Next(signed: bool, w: World, s: Step): World
    requires Enabled(w, s)
  {
    match s
    case Begin(r) =>
      if Odd(r.bitmap) then Deliver(w, r, Reply(signed, None, r.bitmap, r.forceKeyframe))
      else if r.loc !in w.cache then
        Deliver(w.(cache := w.cache[r.loc := Entry(r.bitmap, r.wid)]), r,
                Reply(signed, None, r.bitmap, r.forceKeyframe))
      else w.(busy := w.busy[r.loc := Pending(w.cache[r.loc].bitmap, r)])
    case Finish(l) =>
      var r := w.busy[l].render;
      var cache := if l in w.cache then w.cache[l := Entry(r.bitmap, r.wid)] else w.cache;
      Deliver(w.(cache := cache, busy := w.busy - {l}), r,
              Reply(signed, Some(w.busy[l].found), r.bitmap, r.forceKeyframe))
    case Evict(kept) => w.(cache := map l | l in w.cache && l in kept :: w.cache[l])
  }

  ghost predicate EnabledRun(signed: bool, w: World, steps: seq<Step>)
    decreases |steps|
  {
    steps == [] || (Enabled(w, steps[0]) && EnabledRun(signed, Next(signed, w, steps[0]), steps[1..]))
  }

  /** The client shows, everywhere, the last bitmap rendered there. */
  ghost predicate ClientRight(w: World) {
    forall l :: l in w.rendered ==> l in w.client && w.client[l] == PictureOf(w.rendered[l])
  }

  /** A cached bitmap is the last one of even width rendered there: the last one at all, unless
      that had an odd width. */
  predicate Remembers(w: World, l: Location, b: Bitmap) {
    l in w.rendered && b.Valid() && !Odd(b) && (Odd(w.rendered[l]) || b == w.rendered[l])
  }

  /** This holds of what is cached, and of what was found by a render still in progress. */
  ghost predicate CacheRight(w: World) {
    && (forall l :: l in w.rendered ==> w.rendered[l].Valid())
    && (forall l :: l in w.cache ==> Remembers(w, l, w.cache[l].bitmap))
    && (forall l :: l in w.busy ==> Remembers(w, l, w.busy[l].found))
    && (forall l :: l in w.busy ==>
          var r := w.busy[l].render; r.loc == l && r.bitmap.Valid() && !Odd(r.bitmap))
  }

  /** The step sends a delta. */
  predicate SendsDelta(w: World, s: Step)
    requires Enabled(w, s)
  {
    s.Finish? && var p := w.busy[s.loc]; !p.render.forceKeyframe && Mergeable(p.found, p.render.bitmap)
  }

  /** A delta sent although the last bitmap rendered there had an odd width, so that the client
      no longer shows the bitmap the delta starts from. */
  predicate Stale(w: World, s: Step)
    requires Enabled(w, s)
  {
    SendsDelta(w, s) && s.loc in w.rendered && Odd(w.rendered[s.loc])
  }

  /** The step sends no stale delta, and none that reads a visible row from below the bitmap. */
  ghost predicate StepFaithful(signed: bool, w: World, s: Step)
    requires Enabled(w, s)
  {
    SendsDelta(w, s) ==> !Stale(w, s) && Faithful(signed, w.busy[s.loc].found, w.busy[s.loc].render.bitmap)
  }

  ghost predicate AlwaysRight(signed: bool, w: World, steps: seq<Step>)
    requires EnabledRun(signed, w, steps)
    decreases |steps|
  {
    ClientRight(w) && (steps == [] || AlwaysRight(signed, Next(signed, w, steps[0]), steps[1..]))
  }

  ghost predicate AllFaithful(signed: bool, w: World, steps: seq<Step>)
    requires EnabledRun(signed, w, steps)
    decreases |steps|
  {
    steps == [] || (StepFaithful(signed, w, steps[0]) && AllFaithful(signed, Next(signed, w, steps[0]), steps[1..]))
  }

  ghost predicate NeverStale(signed: bool, w: World, steps: seq<Step>)
    requires EnabledRun(signed, w, steps)
    decreases |steps|
  {
    steps == [] || (!Stale(w, steps[0]) && NeverStale(signed, Next(signed, w, steps[0]), steps[1..]))
  }

  /** What is cached at a location whose render has just been delivered is that render, under its
      own wire id, unless its width was odd. A render that found an entry which was evicted
      meanwhile is not cached again. */
  lemma DeliveredIsCached(signed: bool, w: World, s: Step, r: Render)
    requires Enabled(w, s) && !Odd(r.bitmap)
    requires (s == Begin(r) && r.loc !in w.cache) || (s == Finish(r.loc) && r == w.busy[r.loc].render)
    ensures var n := Next(signed, w, s);
      && n.rendered == w.rendered[r.loc := r.bitmap]
      && (r.loc in n.cache ==> n.cache[r.loc].bitmap == r.bitmap && n.cache[r.loc].wid == r.wid)
      && (r.loc in n.cache <==> s.Begin? || r.loc in w.cache)
      && forall l :: l != r.loc ==> (l in n.cache <==> l in w.cache) && (l in w.cache ==> n.cache[l] == w.cache[l])
  {
    hide Reply, Receive;
  }

  /** A render that is delivered leaves its location cached, unless its width is odd. */
  lemma RenderKeepsCacheRight(w: World, n: World, l: Location, b: Bitmap, wid: nat)
    requires CacheRight(w) && b.Valid()
    requires n.rendered == w.rendered[l := b] && n.busy == w.busy - {l}
    requires n.cache == (if Odd(b) || l !in n.cache then w.cache else w.cache[l := Entry(b, wid)])
    ensures CacheRight(n)
  {
    hide Bitmap.Valid, Odd;
  }

  lemma StepKeepsCacheRight(signed: bool, w: World, s: Step)
    requires Enabled(w, s) && CacheRight(w)
    ensures CacheRight(Next(signed, w, s))
  {
    hide Receive, Reply, Bitmap.Shown, Bitmap.Valid, Odd;
    var n := Next(signed, w, s);
    match s
    case Begin(r) =>
      if r.loc !in n.busy {
        assert n.rendered == w.rendered[r.loc := r.bitmap] && n.busy == w.busy - {r.loc};
        hide Next, CacheRight, Enabled;
        RenderKeepsCacheRight(w, n, r.loc, r.bitmap, r.wid);
      }
    case Finish(l) =>
      var r := w.busy[l].render;
      assert n.rendered == w.rendered[l := r.bitmap] && n.busy == w.busy - {l};
      assert n.cache == if l !in n.cache then w.cache else w.cache[l := Entry(r.bitmap, r.wid)];
      hide Next, CacheRight;
      RenderKeepsCacheRight(w, n, l, r.bitmap, r.wid);
    case Evict(_) =>
  }

  /** Applying anything but a keyframe leaves the size of the picture as it is. */
  lemma DeltaKeepsSize(shown: Picture, m: Message, width: nat)
    requires !m.Keyframe?
    ensures Receive(shown, m, width).width == shown.width && |Receive(shown, m, width).image| == |shown.image|
  {
  }

  lemma FinishKeepsClientRight(signed: bool, w: World, l: Location)
    requires Enabled(w, Finish(l)) && CacheRight(w) && ClientRight(w)
    ensures ClientRight(Next(signed, w, Finish(l))) <==> StepFaithful(signed, w, Finish(l))
  {
    var p := w.busy[l];
    var found, cur := p.found, p.render.bitmap;
    var reply := Reply(signed, Some(found), cur, p.render.forceKeyframe);
    var next := Next(signed, w, Finish(l));
    assert Remembers(w, l, found);
    assert w.client[l] == PictureOf(w.rendered[l]);
    assert next.client[l] == Receive(w.client[l], reply, cur.width) && next.rendered[l] == cur;
    assert ClientRight(next) <==> next.client[l] == PictureOf(cur);
    assert !SendsDelta(w, Finish(l)) ==> reply == Keyframe(Wire(cur.Shown()));
    hide Receive, Reply, Bitmap.Shown, Bitmap.Valid, Faithful, Encodable, ClientRight, CacheRight, Next;
    if !SendsDelta(w, Finish(l)) {
      KeyframeShows(w.client[l], cur);
    } else if Odd(w.rendered[l]) {
      DeltaKeepsSize(w.client[l], reply, cur.width);
    } else {
      ReplyShows(signed, found, cur, p.render.forceKeyframe);
    }
  }

  lemma BeginKeepsClientRight(signed: bool, w: World, r: Render)
    requires Enabled(w, Begin(r)) && ClientRight(w)
    ensures ClientRight(Next(signed, w, Begin(r)))
  {
    hide Receive, PictureOf, DeltaBytes, Wire, Bitmap.Valid, Bitmap.Shown;
    KeyframeShows(if r.loc in w.client then w.client[r.loc] else Picture(0, []), r.bitmap);
  }

  lemma StepKeepsClientRight(signed: bool, w: World, s: Step)
    requires Enabled(w, s) && CacheRight(w) && ClientRight(w)
    ensures ClientRight(Next(signed, w, s)) <==> StepFaithful(signed, w, s)
  {
    hide Deliver, Receive, PictureOf, Faithful, CacheRight;
    match s
    case Begin(r) => BeginKeepsClientRight(signed, w, r);
    case Finish(l) => FinishKeepsClientRight(signed, w, l);
    case Evict(_) =>
  }

  /** In every interleaving, whatever was evicted and whatever sizes are mixed, the client
      always shows the last bitmap rendered at each location if and only if no delta was stale
      and none unfaithful. */
  lemma {:induction false} ClientFollows(signed: bool, w: World, steps: seq<Step>)
    requires EnabledRun(signed, w, steps)
    requires CacheRight(w) && ClientRight(w)
    ensures AlwaysRight(signed, w, steps) <==> AllFaithful(signed, w, steps)
    decreases |steps|
  {
    hide CacheRight, ClientRight, StepFaithful, Next, Enabled;
    if steps != [] {
      var next := Next(signed, w, steps[0]);
      StepKeepsCacheRight(signed, w, steps[0]);
      StepKeepsClientRight(signed, w, steps[0]);
      if ClientRight(next) {
        ClientFollows(signed, next, steps[1..]);
      }
    }
  }

  predicate LowBitmap(s: Step) {
    s.Begin? ==> s.render.bitmap.height <= 255
  }

  ghost predicate LowPending(w: World) {
    forall l :: l in w.busy ==> w.busy[l].render.bitmap.height <= 255
  }

  /** From an empty start, with unsigned char or tiles under 256 rows, the client is always
      right if and only if no delta is sent right after a bitmap of odd width. */
  lemma ClientRightUnlessStale(signed: bool, steps: seq<Step>)
    requires EnabledRun(signed, NOTHING, steps)
    requires !signed || forall i :: 0 <= i < |steps| ==> LowBitmap(steps[i])
    ensures AlwaysRight(signed, NOTHING, steps) <==> NeverStale(signed, NOTHING, steps)
  {
    RunFaithful(signed, NOTHING, steps);
    ClientFollows(signed, NOTHING, steps);
  }

  /** So with tiles of even width only it always is. */
  lemma EvenTilesAlwaysRight(signed: bool, steps: seq<Step>)
    requires EnabledRun(signed, NOTHING, steps)
    requires !signed || forall i :: 0 <= i < |steps| ==> LowBitmap(steps[i])
    requires forall i :: 0 <= i < |steps| && steps[i].Begin? ==> !Odd(steps[i].render.bitmap)
    ensures AlwaysRight(signed, NOTHING, steps)
  {
    EvenIsNeverStale(signed, NOTHING, steps);
    ClientRightUnlessStale(signed, steps);
  }

  ghost predicate AllEven(w: World) {
    && (forall l :: l in w.rendered ==> !Odd(w.rendered[l]))
    && (forall l :: l in w.busy ==> !Odd(w.busy[l].render.bitmap))
  }

  lemma {:induction false} EvenIsNeverStale(signed: bool, w: World, steps: seq<Step>)
    requires EnabledRun(signed, w, steps) && AllEven(w)
    requires forall i :: 0 <= i < |steps| && steps[i].Begin? ==> !Odd(steps[i].render.bitmap)
    ensures NeverStale(signed, w, steps)
    decreases |steps|
  {
    hide Receive, Reply, Odd, Bitmap.Shown;
    if steps != [] {
      assert steps[0].Begin? ==> !Odd(steps[0].render.bitmap);
      var next := Next(signed, w, steps[0]);
      assert AllEven(next);
      assert forall i :: 0 <= i < |steps[1..]| ==> steps[1..][i] == steps[i + 1];
      EvenIsNeverStale(signed, next, steps[1..]);
    }
  }

  lemma {:induction false} RunFaithful(signed: bool, w: World, steps: seq<Step>)
    requires EnabledRun(signed, w, steps)
    requires !signed || (LowPending(w) && forall i :: 0 <= i < |steps| ==> LowBitmap(steps[i]))
    ensures AllFaithful(signed, w, steps) <==> NeverStale(signed, w, steps)
    decreases |steps|
  {
    hide Receive, Reply, Overshoots, Bitmap.Shown;
    if steps != [] {
      var s := steps[0];
      if SendsDelta(w, s) {
        var p := w.busy[s.loc];
        forall y | 0 <= y < p.found.height
          ensures !Overshoots(signed, p.found, p.render.bitmap, y)
        {
          NeverOvershoots(signed, p.found, p.render.bitmap, y);
        }
      }
      var next := Next(signed, w, s);
      assert !signed || LowPending(next);
      assert forall i :: 0 <= i < |steps[1..]| ==> steps[1..][i] == steps[i + 1];
      RunFaithful(signed, next, steps[1..]);
    }
  }

  // ---- mixing odd and even widths at one location

  /** An even bitmap, then an odd one, then an even one of the first one's size. */
  function MixedRun(loc: Location, a: Bitmap, b: Bitmap, c: Bitmap): seq<Step> {
    [Begin(Render(loc, a, 1, false)), Begin(Render(loc, b, 2, false)), Begin(Render(loc, c, 3, false)), Finish(loc)]
  }

  /** An odd render leaves the older even bitmap in the cache: whatever the pixels, the next
      even render is compared with a bitmap the client no longer shows, and comes out wrong. */
  lemma OddRenderLeavesStaleBitmap(signed: bool, loc: Location, a: Bitmap, b: Bitmap, c: Bitmap)
    requires a.Valid() && b.Valid() && Encodable(a, c) && Mergeable(a, c)
    requires !Odd(a) && Odd(b)
    ensures EnabledRun(signed, NOTHING, MixedRun(loc, a, b, c))
    ensures !AlwaysRight(signed, NOTHING, MixedRun(loc, a, b, c))
  {
    var run := MixedRun(loc, a, b, c);
    var w1 := Next(signed, NOTHING, run[0]);
    var w2 := Next(signed, w1, run[1]);
    var w3 := Next(signed, w2, run[2]);
    assert w3.busy[loc] == Pending(a, run[2].render) && w3.rendered[loc] == b;
    assert run[1..][1..] == run[2..] && run[2..][1..] == run[3..] && run[3..][1..] == [];
    assert Stale(w3, run[3]);
    assert Enabled(NOTHING, run[0]) && Enabled(w1, run[1]) && Enabled(w2, run[2]) && Enabled(w3, run[3]);
    assert CacheRight(NOTHING) && ClientRight(NOTHING);
    hide Next, Enabled, Stale, CacheRight, ClientRight, SendsDelta;
    assert EnabledRun(signed, w3, run[3..]);
    assert EnabledRun(signed, w2, run[2..]);
    assert EnabledRun(signed, w1, run[1..]);
    assert !AllFaithful(signed, w3, run[3..]);
    assert !AllFaithful(signed, w2, run[2..]);
    assert !AllFaithful(signed, w1, run[1..]);
    ClientFollows(signed, NOTHING, run);
  }

  /** Not even the number of pixels is right then, unless the odd bitmap has as many pixels as
      the even ones; where heights agree and there are rows, it never has. */
  lemma StaleDeltaHasWrongSize(signed: bool, w: World, s: Step)
    requires Enabled(w, s) && CacheRight(w) && ClientRight(w) && Stale(w, s)
    ensures var last, cur := w.rendered[s.loc], w.busy[s.loc].render.bitmap;
      && (|Next(signed, w, s).client[s.loc].image| == |cur.Shown()|
          <==> last.height * last.width == cur.height * cur.width)
      && (last.height == cur.height > 0 ==> last.height * last.width != cur.height * cur.width)
  {
    var p := w.busy[s.loc];
    var last, cur := w.rendered[s.loc], p.render.bitmap;
    var reply := Reply(signed, Some(p.found), cur, p.render.forceKeyframe);
    DeltaKeepsSize(w.client[s.loc], reply, cur.width);
    assert cur.Valid() && last.Valid() && last.width != cur.width;
    assert w.client[s.loc].image == last.Shown();
    assert Next(signed, w, s).client[s.loc] == Receive(w.client[s.loc], reply, cur.width);
    hide *;
    PixelCount(last);
    PixelCount(cur);
    if last.height == cur.height > 0 {
      Different(last.width, cur.width, cur.height);
    }
  }

  lemma PixelCount(b: Bitmap)
    requires b.Valid()
    ensures |b.Shown()| == b.height * b.width
  {
    ShownRow(b, 0);
  }

  lemma Different(a: nat, b: nat, n: nat)
    requires a != b && n > 0
    ensures n * a != n * b
  {
    if a < b {
      assert n * b == n * a + n * (b - a);
    } else {
      assert n * a == n * b + n * (a - b);
    }
  }

  // ---- the shared generator, when nothing comes in between

  /** A render whose second critical section directly follows the first one. */
  function AtOnce(signed: bool, w: World, r: Render): World
    requires Enabled(w, Begin(r))
    requires !r.forceKeyframe && Found(w.cache, r.loc, r.bitmap).Some? ==>
      Encodable(Found(w.cache, r.loc, r.bitmap).value, r.bitmap)
  {
    var begun := Next(signed, w, Begin(r));
    if r.loc in begun.busy then Next(signed, begun, Finish(r.loc)) else begun
  }

  /** It stores and sends what CompressOrDelta promises. */
  lemma AtOnceIsCompressOrDelta(signed: bool, w: World, r: Render)
    requires Enabled(w, Begin(r))
    requires !r.forceKeyframe && Found(w.cache, r.loc, r.bitmap).Some? ==>
      Encodable(Found(w.cache, r.loc, r.bitmap).value, r.bitmap)
    ensures AtOnce(signed, w, r)
         == Deliver(w.(cache := Stored(w.cache, r.loc, r.bitmap, r.wid)), r,
                    Reply(signed, Found(w.cache, r.loc, r.bitmap), r.bitmap, r.forceKeyframe))
  {
    hide Reply, Receive, Encodable, Bitmap.Valid;
    var begun := Next(signed, w, Begin(r));
    if r.loc in begun.busy {
      assert begun.busy - {r.loc} == w.busy;
    }
  }

  /** Rebalancing and dropping the cache are evictions. */
  lemma RebalanceIsEviction(w: World, after: Cache, n: nat)
    requires LostOldest(w.cache, after, n)
    ensures Next(false, w, Evict(after.Keys)) == w.(cache := after)
  {
  }
}
