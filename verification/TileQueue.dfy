/** The queue itself: loops that erase from and push to one shared vector. */
module TileQueue {
  import opened Options
  import opened QueueMessages
  import opened QueueSpec
  import opened QueueMeaning
  import opened QueueService

  /** Every view, part and mode has a square of its own that holds its rectangles. */
  type Corners = Target -> Corner

  predicate RectFits(m: Message, corners: Corners) {
    m.Callback? && m.news.Invalidate? ==> m.news.rect.Fits(corners(TargetOf(m)))
  }

  predicate AllRectsFit(q: Queue, corners: Corners) {
    forall k :: 0 <= k < |q| ==> RectFits(q[k], corners)
  }

  // ---- keeping and companions, one message at a time

  lemma {:induction false} SweepSize(q: Queue, t: Target, r: Rect, corners: Corners)
    requires r.Fits(corners(t)) && AllRectsFit(q, corners)
    ensures Sweep(q, t, r).1.Fits(corners(t))
  {
    if q != [] {
      assert RectFits(q[0], corners) && (Invalidates(q[0], t) ==> TargetOf(q[0]) == t);
      assert AllRectsFit(q[1..], corners) by {
        assert forall k :: 0 <= k < |q[1..]| ==> q[1..][k] == q[k + 1];
      }
      if Invalidates(q[0], t) && !Covers(r, q[0].news.rect) && Merges(r, q[0].news.rect) {
        SweepSize(q[1..], t, Join(r, q[0].news.rect), corners);
      } else {
        SweepSize(q[1..], t, r, corners);
      }
    }
  }

  /** Being most urgent singles out one position. */
  lemma MostUrgentIsChosen(q: Queue, views: Views, i: nat)
    requires views.Valid() && MostUrgent(q, views, i)
    ensures i == Choose(q, views, PlainPrefix(q))
  {
    hide Choose, PlainPrefix, Views.Valid;
    var c := Choose(q, views, PlainPrefix(q));
    var urgency, chosen := views.Priority(q[i].tile), views.Priority(q[c].tile);
    assert i < c ==> urgency < chosen;
    assert c < i ==> chosen < urgency;
  }

  /** One more message moved from the front to the back. */
  lemma RotateOnce(q: Queue, i: nat)
    requires i < |q|
    ensures var r := q[i..] + q[..i]; r[1..] + [r[0]] == q[i + 1..] + q[..i + 1]
  {
  }

  predicate NoRepeat(s: seq<int>) {
    forall i, j :: 0 <= i < j < |s| ==> s[i] != s[j]
  }

  /** The views but one, in their order. */
  function Without(s: seq<int>, v: int): seq<int> {
    if s == [] then [] else (if s[0] == v then [] else [s[0]]) + Without(s[1..], v)
  }

  lemma WithoutFirst(s: seq<int>, v: int)
    requires s != []
    ensures Without(s, v) == (if s[0] == v then [] else [s[0]]) + Without(s[1..], v)
    ensures s == [s[0]] + s[1..]
  {
  }

  lemma {:induction false} WithoutAt(s: seq<int>, v: int, k: nat)
    requires NoRepeat(s) && k <= |s| && (k < |s| ==> s[k] == v) && forall i :: 0 <= i < k ==> s[i] != v
    ensures Without(s, v) == if k < |s| then s[..k] + s[k + 1..] else s
  {
    hide Without;
    if s == [] {
      WithoutNone(s, v);
    } else {
      WithoutFirst(s, v);
      if k == 0 {
        WithoutNone(s[1..], v);
        assert s[..0] + s[1..] == s[1..];
      } else {
        WithoutAt(s[1..], v, k - 1);
        if k < |s| {
          assert [s[0]] + (s[1..][..k - 1] + s[1..][k..]) == s[..k] + s[k + 1..];
        }
      }
    }
  }

  lemma {:induction false} WithoutNone(s: seq<int>, v: int)
    requires v !in s
    ensures Without(s, v) == s
  {
    if s != [] {
      WithoutNone(s[1..], v);
    }
  }

  lemma NoRepeatMore(s: seq<int>, v: int)
    requires NoRepeat(s) && v !in s
    ensures NoRepeat(s + [v])
  {
    assert forall i :: 0 <= i < |s| ==> s[i] in s;
  }

  lemma {:induction false} WithoutMembers(s: seq<int>, v: int)
    requires NoRepeat(s)
    ensures NoRepeat(Without(s, v)) && forall x :: x in Without(s, v) <==> x in s && x != v
  {
    if s != [] {
      WithoutMembers(s[1..], v);
      assert s[0] !in s[1..];
      assert s == [s[0]] + s[1..];
    }
  }

  /** The sums and differences below stay within an int. */
  method CoveredBy(queued: Rect, msg: Rect, ghost corner: Corner) returns (covered: bool)
    requires queued.Fits(corner) && msg.Fits(corner)
    ensures covered == Covers(msg, queued)
  {
    var queuedRight: int32, queuedBottom: int32 := queued.x + queued.w, queued.y + queued.h;
    var msgRight: int32, msgBottom: int32 := msg.x + msg.w, msg.y + msg.h;
    covered := msg.x <= queued.x && queuedRight <= msgRight && msg.y <= queued.y && queuedBottom <= msgBottom;
  }

  method JoinRects(msg: Rect, queued: Rect, ghost corner: Corner) returns (join: Rect)
    requires queued.Fits(corner) && msg.Fits(corner)
    ensures join == Join(msg, queued) && join.Fits(corner)
  {
    var joinX: int32, joinY: int32 := Min(msg.x, queued.x), Min(msg.y, queued.y);
    var joinW: int32 := Max(msg.x + msg.w, queued.x + queued.w) - joinX;
    var joinH: int32 := Max(msg.y + msg.h, queued.y + queued.h) - joinY;
    join := Rect(joinX, joinY, joinW, joinH);
  }

  class TileQueue {
    var queue: Queue
    var cursorPositions: map<int, Cursor>
    var viewOrder: seq<int>

    ghost const corners: Corners

    ghost predicate Valid()
      reads this
    {
      AllTilesValid(queue) && AllRectsFit(queue, corners) && CurrentViews().Valid()
    }

    function CurrentViews(): Views
      reads this
    {
      Views(viewOrder, cursorPositions)
    }

    constructor (ghost corners: Corners)
      ensures Valid() && queue == [] && viewOrder == [] && cursorPositions == map[]
      ensures this.corners == corners
    {
      this.corners := corners;
      queue, cursorPositions, viewOrder := [], map[], [];
    }

    // ---- cursors

    /** Erases a view from the order; the others keep their places. */
    method Forget(viewId: int)
      requires NoRepeat(viewOrder)
      modifies this`viewOrder
      ensures viewOrder == Without(old(viewOrder), viewId)
    {
      var view := 0;
      while view < |viewOrder| && viewOrder[view] != viewId
        invariant view <= |viewOrder| && forall k :: 0 <= k < view ==> viewOrder[k] != viewId
      {
        view := view + 1;
      }
      WithoutAt(viewOrder, viewId, view);
      if view < |viewOrder| {
        viewOrder := viewOrder[..view] + viewOrder[view + 1..];
      }
    }

    /** The view becomes the newest; the others keep their order. */
    method UpdateCursorPosition(viewId: int, part: int, x: int, y: int, width: int, height: int)
      requires Valid()
      modifies this`viewOrder, this`cursorPositions
      ensures Valid()
      ensures cursorPositions == old(cursorPositions)[viewId := Cursor(part, x, y, width, height)]
      ensures viewOrder == Without(old(viewOrder), viewId) + [viewId]
    {
      ViewsUpdated(CurrentViews(), viewId, Cursor(part, x, y, width, height));
      ViewsByMembers(CurrentViews());
      hide Views.Valid, Without;
      cursorPositions := cursorPositions[viewId := Cursor(part, x, y, width, height)];
      Forget(viewId);
      viewOrder := viewOrder + [viewId];
    }

    method RemoveCursorPosition(viewId: int)
      requires Valid()
      modifies this`viewOrder, this`cursorPositions
      ensures Valid()
      ensures cursorPositions == old(cursorPositions) - {viewId}
      ensures viewOrder == Without(old(viewOrder), viewId)
    {
      ViewsRemoved(CurrentViews(), viewId);
      ViewsByMembers(CurrentViews());
      hide Views.Valid, Without;
      Forget(viewId);
      cursorPositions := cursorPositions - {viewId};
    }

    /** The newest view whose cursor the tile touches. */
    method Priority(tile: Tile) returns (p: int)
      requires Valid()
      ensures p == CurrentViews().Priority(tile)
    {
      ghost var views := CurrentViews();
      var i := |viewOrder| - 1;
      while i >= 0
        invariant -1 <= i < |viewOrder|
        invariant views.Priority(tile) == views.PriorityAmong(tile, i + 1)
      {
        var cursor := cursorPositions[viewOrder[i]];
        if Intersect(tile.Area(), Rect(cursor.x, cursor.y, cursor.width, cursor.height)) {
          return i;
        }
        i := i - 1;
      }
      p := -1;
    }

    // ---- put

    method Erase(i: nat)
      requires Valid() && i < |queue|
      modifies this`queue
      ensures Valid() && queue == RemoveAt(old(queue), i)
    {
      queue := queue[..i] + queue[i + 1..];
    }

    /** Takes a queued text input of the same view and window out of the queue and returns it
        merged with the new one; None when there is nothing to merge with. */
    method CombineTextInput(view: string, text: Text) returns (newMsg: Option<Message>)
      requires Valid()
      modifies this`queue
      ensures Valid()
      ensures match FindText(old(queue), view, text.id, |old(queue)|)
        case None => newMsg == None && queue == old(queue)
        case Some(i) => (
          && queue == RemoveAt(old(queue), i)
          && newMsg == Some(TextInput(view, Some(Text(text.id, old(queue)[i].text.value.text + text.text)))))
    {
      var i := |queue| - 1;
      while i >= 0
        invariant -1 <= i < |queue| && queue == old(queue)
        invariant FindText(queue, view, text.id, |queue|) == FindText(queue, view, text.id, i + 1)
      {
        var it := queue[i];
        if BlocksText(it, view) {
          return None;
        }
        if IsTextFor(it, view, text.id) {
          Erase(i);
          return Some(TextInput(view, Some(Text(text.id, it.text.value.text + text.text))));
        }
        i := i - 1;
      }
      newMsg := None;
    }

    method CombineRemoveText(view: string, removal: Removal) returns (newMsg: Option<Message>)
      requires Valid()
      modifies this`queue
      ensures Valid()
      ensures match FindRemoval(old(queue), view, removal.id, |old(queue)|)
        case None => newMsg == None && queue == old(queue)
        case Some(i) => (
          && queue == RemoveAt(old(queue), i)
          && newMsg == Some(RemoveText(view, Some(Removal(removal.id,
               Sum(old(queue)[i].removal.value.before, removal.before),
               Sum(old(queue)[i].removal.value.after, removal.after))))))
    {
      var i := |queue| - 1;
      while i >= 0
        invariant -1 <= i < |queue| && queue == old(queue)
        invariant FindRemoval(queue, view, removal.id, |queue|) == FindRemoval(queue, view, removal.id, i + 1)
      {
        var it := queue[i];
        if BlocksRemoval(it, view) {
          return None;
        }
        if IsRemovalFor(it, view, removal.id) {
          Erase(i);
          var queued := it.removal.value;
          var before, after := Sum(queued.before, removal.before), Sum(queued.after, removal.after);
          return Some(RemoveText(view, Some(Removal(removal.id, before, after))));
        }
        i := i - 1;
      }
      newMsg := None;
    }

    /** Erases the first queued message that a new one of the register replaces. */
    method RemoveRegister(r: Register)
      requires Valid()
      modifies this`queue
      ensures Valid()
      ensures queue == Filter(old(queue), AllBut(|old(queue)|, FindRegister(old(queue), r, 0)))
    {
      var i := 0;
      while i < |queue|
        invariant i <= |queue| && queue == old(queue)
        invariant FindRegister(queue, r, 0) == FindRegister(queue, r, i)
      {
        if Replaces(r, queue[i]) {
          FilterAllBut(queue, i);
          Erase(i);
          return;
        }
        i := i + 1;
      }
      FilterNone(queue);
    }

    /** Takes the queued invalidations that a new one covers, or that it can be joined with,
        out of the queue. Returns the joined rectangle, None if nothing was joined. */
    method MergeInvalidations(t: Target, rect: Rect) returns (joined: Option<Rect>)
      requires Valid() && rect.Fits(corners(t))
      modifies this`queue
      ensures Valid()
      ensures var s := Sweep(old(queue), t, rect);
        && queue == Filter(old(queue), s.0)
        && joined == if s.2 then Some(s.1) else None
    {
      hide Filter, Sweep, Views.Valid, Sweeping, Tile.Valid, Join, Covers;
      ghost var before, j, flags := queue, 0, [];
      var msgX: int32, msgY: int32, msgW: int32, msgH: int32 := rect.x, rect.y, rect.w, rect.h;
      var performedMerge := false;
      var i := 0;
      SweepBegin(before, t, rect);
      while i < |queue|
        invariant i <= |queue| && j <= |before|
        invariant Sweeping(before, t, rect, j, flags, queue, i, Rect(msgX, msgY, msgW, msgH), performedMerge)
        invariant Rect(msgX, msgY, msgW, msgH).Fits(corners(t))
        invariant Valid() && unchanged(`viewOrder, `cursorPositions)
        decreases |before| - j
      {
        var it := queue[i];
        SweepAdvance(before, t, rect, j, flags, queue, i, Rect(msgX, msgY, msgW, msgH), performedMerge);
        j := j + 1;
        if !Invalidates(it, t) {
          flags, i := flags + [true], i + 1;
          continue;
        }
        assert RectFits(it, corners) && TargetOf(it) == t;
        var queued := it.news.rect;
        var covered := CoveredBy(queued, Rect(msgX, msgY, msgW, msgH), corners(t));
        if covered {
          Erase(i);
          flags := flags + [false];
          continue;
        }
        if Intersect(Rect(msgX, msgY, msgW, msgH), queued) {
          var join := JoinRects(Rect(msgX, msgY, msgW, msgH), queued, corners(t));
          if !(join.w > REASONABLE_WIDTH || join.h > REASONABLE_HEIGHT) {
            msgX, msgY, msgW, msgH := join.x, join.y, join.w, join.h;
            performedMerge := true;
            Erase(i);
            flags := flags + [false];
            continue;
          }
        }
        flags, i := flags + [true], i + 1;
      }
      SweepEnd(before, t, rect, j, flags, queue, i, Rect(msgX, msgY, msgW, msgH), performedMerge);
      joined := if performedMerge then Some(Rect(msgX, msgY, msgW, msgH)) else None;
    }

    /** put_impl for one message. */
    method PutOne(m: Message)
      requires Valid() && m.Valid() && RectFits(m, corners)
      modifies this`queue
      ensures Valid() && queue == Put(old(queue), m)
    {
      hide Filter, Sweep, FindText, FindRemoval, FindRegister;
      ghost var before := queue;
      var newMsg: Option<Message> := None;
      if m.TextInput? && m.text.Some? {
        newMsg := CombineTextInput(m.view, m.text.value);
        TextKeep(before, m);
      } else if m.RemoveText? && m.removal.Some? {
        newMsg := CombineRemoveText(m.view, m.removal.value);
        RemovalKeep(before, m);
      } else if m.Callback? && m.news.Invalidate? {
        var joined := MergeInvalidations(TargetOf(m), m.news.rect);
        SweepSize(before, TargetOf(m), m.news.rect, corners);
        SweepIsTight(before, TargetOf(m), m.news.rect);
        if joined.Some? {
          newMsg := Some(m.(news := m.news.(rect := joined.value)));
        }
      } else {
        var register := RegisterOf(m);
        if register.Some? {
          RemoveRegister(register.value);
        } else {
          FilterNone(before);
        }
      }
      queue := queue + [if newMsg.Some? then newMsg.value else m];
    }

    method PutAny(v: Incoming)
      requires Valid()
      requires match v
        case One(m) => m.Valid() && RectFits(m, corners)
        case Combined(tiles) => forall t :: t in tiles ==> t.Valid()
      modifies this`queue
      ensures Valid() && queue == PutIncoming(old(queue), v)
    {
      match v
      case One(m) =>
        PutOne(m);
      case Combined(tiles) =>
        hide Put, Views.Valid, Tile.Valid;
        assert tiles[0..] == tiles;
        for i := 0 to |tiles|
          invariant Valid()
          invariant PutTiles(old(queue), tiles) == PutTiles(queue, tiles[i..])
        {
          assert tiles[i..][1..] == tiles[i + 1..];
          PutOne(TileRequest(tiles[i]));
        }
    }

    // ---- get

    /** Moves the front of the queue to its back. */
    method Rotate()
      requires Valid() && queue != []
      modifies this`queue
      ensures Valid() && queue == old(queue)[1..] + [old(queue)[0]]
    {
      var front := queue[0];
      queue := queue[1..];
      queue := queue + [front];
    }

    /** De-prioritises previews: moves them from the front to the back. */
    method DeprioritizePreviews()
      requires Valid()
      modifies this`queue
      ensures Valid() && queue == Deprioritize(old(queue))
    {
      hide PreviewPrefix, Valid, Message.IsPreview;
      ghost var before := queue;
      assert before == before[0..] + before[..0];
      for i := 0 to |queue|
        invariant |queue| == |before| && i <= PreviewPrefix(before)
        invariant queue == before[i..] + before[..i]
        invariant Valid() && unchanged(`viewOrder, `cursorPositions)
      {
        assert queue[0] == before[i];
        if !queue[0].IsPreview() {
          assert i == PreviewPrefix(before);
          return;
        }
        RotateOnce(before, i);
        Rotate();
      }
    }

    /** Position of the tile to handle first. */
    method FindPrioritized() returns (prioritized: nat)
      requires Valid() && queue != [] && queue[0].IsPlainTile()
      ensures MostUrgent(queue, CurrentViews(), prioritized)
    {
      hide Views.Priority;
      prioritized := 0;
      var prioritySoFar := -1;
      ghost var views := CurrentViews();
      for i := 0 to |queue|
        invariant i <= PlainPrefix(queue) && prioritized < PlainPrefix(queue)
        invariant prioritized < i || (prioritized == 0 && i == 0)
        invariant forall k :: 0 <= k < i ==> views.Priority(queue[k].tile) <= prioritySoFar
        invariant if prioritySoFar < 0 then prioritized == 0 else
                    prioritized < i && views.Priority(queue[prioritized].tile) == prioritySoFar
        invariant forall k :: 0 <= k < prioritized ==> views.Priority(queue[k].tile) < prioritySoFar
      {
        if !queue[i].IsPlainTile() {
          break;
        }
        var p := Priority(queue[i].tile);
        if p > prioritySoFar {
          prioritySoFar := p;
          prioritized := i;
          if prioritySoFar == |viewOrder| - 1 {
            return;
          }
        }
      }
    }

    /** Takes all tiles that can be rendered together with the first one. */
    method TakeCompanions(first: Tile) returns (tiles: seq<Tile>)
      requires Valid() && first.Valid()
      modifies this`queue
      ensures Valid() && unchanged(`viewOrder, `cursorPositions)
      ensures AllTilesValid(old(queue))
      ensures tiles == [first] + Companions(first, old(queue))
      ensures queue == Filter(old(queue), Leftover(first, old(queue)))
    {
      hide JoinsWith, Taking, Filter, Companions, Leftover, Views.Valid, Tile.Valid, Tile.SameKind;
      ghost var before, j := queue, 0;
      tiles := [first];
      TakeBegin(first, before);
      var i := 0;
      while i < |queue|
        invariant i <= |queue| && j <= |before|
        invariant Taking(first, before, j, queue, i, tiles)
        invariant Valid() && unchanged(`viewOrder, `cursorPositions)
        decreases |before| - j
      {
        var it := queue[i];
        TakeAdvance(first, before, j, queue, i, tiles);
        if JoinsWith(first, it) {
          tiles := tiles + [it.tile];
          Erase(i);
        } else {
          i := i + 1;
        }
        j := j + 1;
      }
      TakeEnd(first, before, j, queue, i, tiles);
    }

    /** get_impl */
    method GetImpl() returns (answer: Answer)
      requires Valid() && queue != []
      modifies this`queue
      ensures Valid() && unchanged(`viewOrder, `cursorPositions)
      ensures (answer, queue) == Get(old(queue), CurrentViews())
    {
      hide Companions, Leftover, Filter, Choose, PlainPrefix, PreviewPrefix, Dedup, Views.Valid, Tile.Valid;
      var front := queue[0];
      if !front.IsPlainTile() {
        Erase(0);
        assert queue == old(queue)[1..];
        if front.IsPreview() {
          DeprioritizePreviews();
        }
        return Just(front);
      }
      var prioritized := FindPrioritized();
      MostUrgentIsChosen(queue, CurrentViews(), prioritized);
      MostUrgentIsTile(queue, CurrentViews(), prioritized);
      var first := queue[prioritized].tile;
      Erase(prioritized);
      var tiles := TakeCompanions(first);
      if |tiles| == 1 {
        return Just(TileRequest(tiles[0]));
      }
      tiles := DropDuplicates(tiles);
      answer := Tiles(tiles);
    }

    /** pop: a message without waiting, None when there is none. */
    method Pop() returns (answer: Option<Answer>)
      requires Valid()
      modifies this`queue
      ensures Valid()
      ensures old(queue) == [] ==> answer == None && queue == []
      ensures old(queue) != [] ==> answer.Some? && (answer.value, queue) == Get(old(queue), CurrentViews())
    {
      if queue == [] {
        return None;
      }
      var a := GetImpl();
      answer := Some(a);
    }
  }

  lemma ViewsByMembers(views: Views)
    ensures views.Valid() <==> NoRepeat(views.order) && forall v :: v in views.order <==> v in views.cursors
  {
    assert forall i :: 0 <= i < |views.order| ==> views.order[i] in views.order;
    if views.Valid() {
      forall v | v in views.order
        ensures v in views.cursors
      {
        var i :| 0 <= i < |views.order| && views.order[i] == v;
      }
    }
  }

  lemma ViewsUpdated(views: Views, v: int, c: Cursor)
    requires views.Valid()
    ensures Views(Without(views.order, v) + [v], views.cursors[v := c]).Valid()
  {
    var after := Views(Without(views.order, v) + [v], views.cursors[v := c]);
    ViewsByMembers(views);
    hide Views.Valid, Without;
    WithoutMembers(views.order, v);
    NoRepeatMore(Without(views.order, v), v);
    assert forall x :: x in after.order <==> x in Without(views.order, v) || x == v;
    assert forall x :: x in after.cursors <==> x in views.cursors || x == v;
    ViewsByMembers(after);
  }

  lemma ViewsRemoved(views: Views, v: int)
    requires views.Valid()
    ensures Views(Without(views.order, v), views.cursors - {v}).Valid()
  {
    ViewsByMembers(views);
    hide Views.Valid, Without;
    WithoutMembers(views.order, v);
    assert forall x :: x in views.cursors - {v} <==> x in views.cursors && x != v;
    ViewsByMembers(Views(Without(views.order, v), views.cursors - {v}));
  }

  /** Drops every tile behind position i that is at its place. */
  method DropTwins(tiles: seq<Tile>, i: nat) returns (r: seq<Tile>)
    requires i < |tiles|
    ensures r == tiles[..i + 1] + Elsewhere(tiles[i + 1..], tiles[i])
  {
    hide Tile.SamePlace, Elsewhere;
    r := tiles;
    var j := i + 1;
    ghost var done: seq<Tile> := [];
    while j < |r|
      invariant j == i + 1 + |done| <= |r|
      invariant r[..j] == tiles[..i + 1] + done
      invariant Elsewhere(tiles[i + 1..], tiles[i]) == done + Elsewhere(r[j..], tiles[i])
      decreases |r| - j
    {
      ghost var rest := r[j + 1..];
      assert r[j..] == [r[j]] + rest;
      ElsewhereStep(r[j], rest, tiles[i]);
      if r[j].SamePlace(tiles[i]) {
        r := r[..j] + r[j + 1..];
        assert r[j..] == rest;
      } else {
        assert r[..j + 1] == r[..j] + [r[j]];
        done := done + [r[j]];
        j := j + 1;
      }
    }
    assert r[j..] == [] && r == r[..j];
    ElsewhereNothing(tiles[i]);
  }

  lemma ElsewhereStep(x: Tile, rest: seq<Tile>, a: Tile)
    ensures Elsewhere([x] + rest, a) == (if x.SamePlace(a) then [] else [x]) + Elsewhere(rest, a)
  {
    assert ([x] + rest)[1..] == rest;
  }

  lemma ElsewhereNothing(a: Tile)
    ensures Elsewhere([], a) == []
  {
  }

  lemma DedupStep(front: seq<Tile>, a: Tile, back: seq<Tile>)
    ensures front + Dedup([a] + back) == (front + [a]) + Dedup(Elsewhere(back, a))
  {
    assert ([a] + back)[1..] == back;
  }

  /** Drops every tile at the place of an earlier one. */
  method DropDuplicates(tiles: seq<Tile>) returns (r: seq<Tile>)
    requires tiles != []
    ensures r == Dedup(tiles)
  {
    hide Dedup, Elsewhere;
    r := tiles;
    var i := 0;
    assert r[0..] == tiles;
    while i < |r| - 1
      invariant i <= |r|
      invariant Dedup(tiles) == r[..i] + Dedup(r[i..])
      decreases |r| - i
    {
      assert r[i..] == [r[i]] + r[i + 1..] && r[..i + 1] == r[..i] + [r[i]];
      DedupStep(r[..i], r[i], r[i + 1..]);
      ghost var front, rest := r[..i + 1], Elsewhere(r[i + 1..], r[i]);
      r := DropTwins(r, i);
      assert r[..i + 1] == front && r[i + 1..] == rest;
      i := i + 1;
    }
    if i < |r| {
      DedupOne(r[i]);
      assert r[i..] == [r[i]] && r == r[..i] + [r[i]];
    } else {
      DedupNothing();
      assert r[i..] == [] && r == r[..i];
    }
  }

  lemma DedupNothing()
    ensures Dedup([]) == []
  {
  }

  lemma DedupOne(a: Tile)
    ensures Dedup([a]) == [a]
  {
    DedupStep([], a, []);
    assert [a] + [] == [a];
  }

  // ---- the state of the loops that erase as they go

  /** j messages of the old queue are dealt with, those kept are the first i of the new one. */
  ghost predicate Sweeping(before: Queue, t: Target, rect: Rect, j: nat, flags: seq<bool>,
                           q: Queue, i: nat, r: Rect, merged: bool)
  {
    && j <= |before| && |flags| == j
    && q == Filter(before[..j], flags) + before[j..] && |Filter(before[..j], flags)| == i
    && var all, rest := Sweep(before, t, rect), Sweep(before[j..], t, r);
       all.0 == flags + rest.0 && all.1 == rest.1 && all.2 == (merged || rest.2)
  }

  lemma SweepBegin(before: Queue, t: Target, rect: Rect)
    ensures Sweeping(before, t, rect, 0, [], before, 0, rect, false)
  {
    assert before[..0] == [] && before[0..] == before;
  }

  lemma SweepAdvance(before: Queue, t: Target, rect: Rect, j: nat, flags: seq<bool>,
                    q: Queue, i: nat, r: Rect, merged: bool)
    requires Sweeping(before, t, rect, j, flags, q, i, r, merged) && i < |q|
    ensures j < |before| && q[i] == before[j]
    ensures var it := q[i];
      if !Invalidates(it, t) then Sweeping(before, t, rect, j + 1, flags + [true], q, i + 1, r, merged)
      else if Covers(r, it.news.rect) then
        Sweeping(before, t, rect, j + 1, flags + [false], RemoveAt(q, i), i, r, merged)
      else if Merges(r, it.news.rect) then
        Sweeping(before, t, rect, j + 1, flags + [false], RemoveAt(q, i), i, Join(r, it.news.rect), true)
      else Sweeping(before, t, rect, j + 1, flags + [true], q, i + 1, r, merged)
  {
    hide Filter, Sweep, Covers, Merges, Join;
    var it := q[i];
    AdvanceKept(before, j, flags, q, i);
    SweepStep(before[j..], t, r);
    var b := !(Invalidates(it, t) && (Covers(r, it.news.rect) || Merges(r, it.news.rect)));
    var r' := if Invalidates(it, t) && !Covers(r, it.news.rect) && Merges(r, it.news.rect)
              then Join(r, it.news.rect) else r;
    var rest := Sweep(before[j + 1..], t, r').0;
    assert flags + ([b] + rest) == (flags + [b]) + rest;
  }

  /** One more message kept or dropped. */
  lemma AdvanceKept(before: Queue, j: nat, flags: seq<bool>, q: Queue, i: nat)
    requires j <= |before| && |flags| == j
    requires q == Filter(before[..j], flags) + before[j..] && |Filter(before[..j], flags)| == i < |q|
    ensures j < |before| && q[i] == before[j] && before[j..][1..] == before[j + 1..] && before[j..][0] == q[i]
    ensures q == Filter(before[..j + 1], flags + [true]) + before[j + 1..]
    ensures |Filter(before[..j + 1], flags + [true])| == i + 1
    ensures RemoveAt(q, i) == Filter(before[..j + 1], flags + [false]) + before[j + 1..]
    ensures |Filter(before[..j + 1], flags + [false])| == i
  {
    hide Filter;
    assert before[..j + 1] == before[..j] + [before[j]];
    FilterOneMore(before[..j], flags, before[j], true);
    FilterOneMore(before[..j], flags, before[j], false);
  }

  lemma SweepEnd(before: Queue, t: Target, rect: Rect, j: nat, flags: seq<bool>,
                q: Queue, i: nat, r: Rect, merged: bool)
    requires Sweeping(before, t, rect, j, flags, q, i, r, merged) && i == |q|
    ensures var s := Sweep(before, t, rect); q == Filter(before, s.0) && s.1 == r && s.2 == merged
  {
    hide Filter, Sweep;
    assert j == |before| && before[j..] == [] && before[..j] == before;
    SweepNothing(t, r);
    assert flags + [] == flags;
  }

  ghost predicate Taking(first: Tile, before: Queue, j: nat, q: Queue, i: nat, tiles: seq<Tile>)
  {
    && first.Valid() && j <= |before| && AllTilesValid(before) && AllTilesValid(before[..j])
    && tiles == [first] + Companions(first, before[..j])
    && q == Filter(before[..j], Leftover(first, before[..j])) + before[j..]
    && |Filter(before[..j], Leftover(first, before[..j]))| == i
  }

  lemma TakeBegin(first: Tile, before: Queue)
    requires first.Valid() && AllTilesValid(before)
    ensures Taking(first, before, 0, before, 0, [first])
  {
    assert before[..0] == [] && before[0..] == before;
  }

  lemma TakeAdvance(first: Tile, before: Queue, j: nat, q: Queue, i: nat, tiles: seq<Tile>)
    requires Taking(first, before, j, q, i, tiles) && i < |q| && AllTilesValid(q)
    ensures j < |before|
    ensures JoinsWith(first, q[i]) ==> q[i].TileRequest?
    ensures if JoinsWith(first, q[i])
            then Taking(first, before, j + 1, RemoveAt(q, i), i, tiles + [q[i].tile])
            else Taking(first, before, j + 1, q, i + 1, tiles)
  {
    hide JoinsWith, Filter, Companions, Leftover, Tile.Valid, Tile.SameKind;
    AdvanceKept(before, j, Leftover(first, before[..j]), q, i);
    assert before[..j + 1] == before[..j] + [q[i]];
    LeftoverOneMore(first, before[..j], q[i]);
    if JoinsWith(first, q[i]) {
      JoinsIsTile(first, q[i]);
    }
  }

  lemma TakeEnd(first: Tile, before: Queue, j: nat, q: Queue, i: nat, tiles: seq<Tile>)
    requires Taking(first, before, j, q, i, tiles) && i == |q|
    ensures AllTilesValid(before)
    ensures tiles == [first] + Companions(first, before) && q == Filter(before, Leftover(first, before))
  {
    hide Filter, Companions, Leftover;
    assert j == |before| && before[j..] == [] && before[..j] == before;
  }

  lemma SweepNothing(t: Target, r: Rect)
    ensures Sweep([], t, r) == ([], r, false)
  {
  }

  lemma SweepStep(q: Queue, t: Target, r: Rect)
    requires q != []
    ensures Sweep(q, t, r) ==
      if Invalidates(q[0], t) && !Covers(r, q[0].news.rect) && Merges(r, q[0].news.rect) then
        var s := Sweep(q[1..], t, Join(r, q[0].news.rect)); ([false] + s.0, s.1, true)
      else
        var s := Sweep(q[1..], t, r); ([!(Invalidates(q[0], t) && Covers(r, q[0].news.rect))] + s.0, s.1, s.2)
  {
  }

  lemma MostUrgentIsTile(q: Queue, views: Views, i: nat)
    requires views.Valid() && MostUrgent(q, views, i)
    ensures i < |q| && q[i].IsPlainTile()
  {
  }

  /** What stays of the queue when a text is put. */
  lemma TextKeep(q: Queue, m: Message)
    requires m.TextInput? && m.text.Some?
    ensures Filter(q, PutKeep(q, m)) == match FindText(q, m.view, m.text.value.id, |q|)
      case Some(i) => RemoveAt(q, i)
      case None => q
  {
    match FindText(q, m.view, m.text.value.id, |q|)
    case Some(i) => FilterAllBut(q, i);
    case None => FilterNone(q);
  }

  lemma RemovalKeep(q: Queue, m: Message)
    requires m.RemoveText? && m.removal.Some?
    ensures Filter(q, PutKeep(q, m)) == match FindRemoval(q, m.view, m.removal.value.id, |q|)
      case Some(i) => RemoveAt(q, i)
      case None => q
  {
    match FindRemoval(q, m.view, m.removal.value.id, |q|)
    case Some(i) => FilterAllBut(q, i);
    case None => FilterNone(q);
  }
}
