/** Coalescing does happen: exactly which queued messages a put takes out, and which messages
    are never queued together. */
module QueueCoalescing {
  import opened Decimals
  import opened Options
  import opened QueueMessages
  import opened QueueSpec
  import opened QueueMeaning
  import opened QueueService
  import opened QueueRuns

  type Which = Message -> bool

  /** The text inputs of a window of a view ... */
  function TextOf(view: string, id: string): Which {
    (m: Message) => m.TextInput? && m.view == view && m.text.Some? && m.text.value.id == id
  }

  /** ... and what they must not overtake: a message of a single token, an input event of the
      view, a removal of the view. */
  function StopsText(view: string): Which {
    (m: Message) => m.SingleToken? || (m.Input? && m.view == view) || (m.RemoveText? && m.view == view)
  }

  function RemovalOf(view: string, id: string): Which {
    (m: Message) => m.RemoveText? && m.view == view && m.removal.Some? && m.removal.value.id == id
  }

  function StopsRemoval(view: string): Which {
    (m: Message) => m.SingleToken? || (m.Input? && m.view == view) || (m.TextInput? && m.view == view)
  }

  /** Position i holds the last such message, and nothing behind it stops a new one. */
  ghost predicate LastFree(q: Queue, i: nat, one: Which, stop: Which) {
    && i < |q| && one(q[i])
    && forall k :: i < k < |q| ==> !stop(q[k]) && !one(q[k])
  }

  /** Behind every such message something stops a new one. */
  ghost predicate AllStopped(q: Queue, one: Which, stop: Which) {
    forall k :: 0 <= k < |q| && one(q[k]) ==> exists j :: k < j < |q| && stop(q[j])
  }

  /** A text is joined with the last queued text of its window, which moves to the end, unless
      that is stopped. */
  lemma PutText(q: Queue, m: Message)
    requires m.TextInput? && m.text.Some?
    ensures var one, stop := TextOf(m.view, m.text.value.id), StopsText(m.view);
      if AllStopped(q, one, stop) then Put(q, m) == q + [m]
      else exists i: nat :: LastFree(q, i, one, stop)
             && Put(q, m) == RemoveAt(q, i) + [TextInput(m.view, Some(Text(m.text.value.id,
                                                 q[i].text.value.text + m.text.value.text)))]
  {
    var one, stop := TextOf(m.view, m.text.value.id), StopsText(m.view);
    assert forall k :: 0 <= k < |q| ==> (one(q[k]) <==> IsTextFor(q[k], m.view, m.text.value.id));
    assert forall k :: 0 <= k < |q| ==> (stop(q[k]) <==> BlocksText(q[k], m.view));
    match FindText(q, m.view, m.text.value.id, |q|)
    case None => FilterNone(q);
    case Some(i) =>
      FilterAllBut(q, i);
      assert LastFree(q, i, one, stop);
  }

  /** The same for removals, whose numbers are added. */
  lemma PutRemoval(q: Queue, m: Message)
    requires m.RemoveText? && m.removal.Some?
    ensures var one, stop := RemovalOf(m.view, m.removal.value.id), StopsRemoval(m.view);
      if AllStopped(q, one, stop) then Put(q, m) == q + [m]
      else exists i: nat :: LastFree(q, i, one, stop)
             && Put(q, m) == RemoveAt(q, i) + [RemoveText(m.view, Some(Removal(m.removal.value.id,
                                                 Sum(q[i].removal.value.before, m.removal.value.before),
                                                 Sum(q[i].removal.value.after, m.removal.value.after))))]
  {
    hide Sum;
    var one, stop := RemovalOf(m.view, m.removal.value.id), StopsRemoval(m.view);
    assert forall k :: 0 <= k < |q| ==> (one(q[k]) <==> IsRemovalFor(q[k], m.view, m.removal.value.id));
    assert forall k :: 0 <= k < |q| ==> (stop(q[k]) <==> BlocksRemoval(q[k], m.view));
    match FindRemoval(q, m.view, m.removal.value.id, |q|)
    case None => FilterNone(q);
    case Some(i) =>
      FilterAllBut(q, i);
      assert LastFree(q, i, one, stop);
  }

  // ---- what is never queued together

  /** Between any two such messages something stops the later one. */
  ghost predicate Apart(q: Queue, one: Which, stop: Which) {
    forall i, j :: 0 <= i < j < |q| && one(q[i]) && one(q[j]) ==> exists k :: i < k < j && stop(q[k])
  }

  /** In front of every such message something stops it. */
  ghost predicate Guarded(q: Queue, one: Which, stop: Which) {
    forall j :: 0 <= j < |q| && one(q[j]) ==> exists k :: 0 <= k < j && stop(q[k])
  }

  /** Nothing that stops such a message is dropped in front of one. */
  ghost predicate KeepsStops(q: Queue, keep: seq<bool>, one: Which, stop: Which)
    requires |keep| == |q|
  {
    forall k, j :: 0 <= k < j < |q| && !keep[k] && stop(q[k]) ==> !one(q[j])
  }

  lemma ApartFirst(q: Queue, one: Which, stop: Which)
    requires q != []
    ensures Apart(q, one, stop) <==> Apart(q[1..], one, stop) && (one(q[0]) ==> Guarded(q[1..], one, stop))
  {
    var t := q[1..];
    assert forall k :: 0 <= k < |t| ==> t[k] == q[k + 1];
    if Apart(q, one, stop) {
      forall i, j | 0 <= i < j < |t| && one(t[i]) && one(t[j]) ensures exists k :: i < k < j && stop(t[k]) {
        var k :| i + 1 < k < j + 1 && stop(q[k]);
        assert stop(t[k - 1]);
      }
      if one(q[0]) {
        forall j | 0 <= j < |t| && one(t[j]) ensures exists k :: 0 <= k < j && stop(t[k]) {
          var k :| 0 < k < j + 1 && stop(q[k]);
          assert stop(t[k - 1]);
        }
      }
    }
    if Apart(t, one, stop) && (one(q[0]) ==> Guarded(t, one, stop)) {
      forall i, j | 0 <= i < j < |q| && one(q[i]) && one(q[j]) ensures exists k :: i < k < j && stop(q[k]) {
        assert one(t[j - 1]);
        var k :| i - 1 < k < j - 1 && 0 <= k && stop(t[k]);
        assert stop(q[k + 1]);
      }
    }
  }

  lemma GuardedFirst(q: Queue, one: Which, stop: Which)
    requires q != []
    ensures Guarded(q, one, stop) <==> !one(q[0]) && (stop(q[0]) || Guarded(q[1..], one, stop))
  {
    var t := q[1..];
    assert forall k :: 0 <= k < |t| ==> t[k] == q[k + 1];
    if Guarded(q, one, stop) && !stop(q[0]) {
      forall j | 0 <= j < |t| && one(t[j]) ensures exists k :: 0 <= k < j && stop(t[k]) {
        assert one(q[j + 1]);
        var k :| 0 <= k < j + 1 && stop(q[k]);
        assert stop(t[k - 1]);
      }
    }
    if !one(q[0]) && (stop(q[0]) || Guarded(t, one, stop)) {
      forall j | 0 <= j < |q| && one(q[j]) ensures exists k :: 0 <= k < j && stop(q[k]) {
        if !stop(q[0]) {
          assert one(t[j - 1]);
          var k :| 0 <= k < j - 1 && stop(t[k]);
          assert stop(q[k + 1]);
        }
      }
    }
  }

  lemma {:induction false} FilterMembers(q: Queue, keep: seq<bool>)
    requires |keep| == |q|
    ensures forall j :: 0 <= j < |Filter(q, keep)| ==> Filter(q, keep)[j] in q
  {
    if q != [] {
      FilterMembers(q[1..], keep[1..]);
    }
  }

  lemma {:induction false} FilterGuarded(q: Queue, keep: seq<bool>, one: Which, stop: Which)
    requires |keep| == |q| && Guarded(q, one, stop) && KeepsStops(q, keep, one, stop)
    ensures Guarded(Filter(q, keep), one, stop)
  {
    if q != [] {
      FilterFirst(q, keep);
      GuardedFirst(q, one, stop);
      KeepsStopsBehind(q, keep, one, stop);
      hide Filter, Guarded, KeepsStops;
      var rest := Filter(q[1..], keep[1..]);
      if keep[0] {
        GuardedFirst([q[0]] + rest, one, stop);
        if !stop(q[0]) {
          FilterGuarded(q[1..], keep[1..], one, stop);
        }
      } else {
        assert [] + rest == rest;
        if stop(q[0]) {
          NoneBehind(q, keep, one, stop);
        } else {
          FilterGuarded(q[1..], keep[1..], one, stop);
        }
      }
    }
  }

  lemma KeepsStopsBehind(q: Queue, keep: seq<bool>, one: Which, stop: Which)
    requires |keep| == |q| > 0 && KeepsStops(q, keep, one, stop)
    ensures KeepsStops(q[1..], keep[1..], one, stop)
  {
  }

  lemma NoneBehind(q: Queue, keep: seq<bool>, one: Which, stop: Which)
    requires |keep| == |q| > 0 && KeepsStops(q, keep, one, stop) && !keep[0] && stop(q[0])
    ensures Guarded(Filter(q[1..], keep[1..]), one, stop) && Apart(Filter(q[1..], keep[1..]), one, stop)
  {
    FilterMembers(q[1..], keep[1..]);
    hide Filter;
    var f := Filter(q[1..], keep[1..]);
    forall j | 0 <= j < |f| ensures !one(f[j]) {
      var i :| 0 <= i < |q[1..]| && q[1..][i] == f[j];
      assert !one(q[i + 1]);
    }
  }

  lemma {:induction false} FilterApart(q: Queue, keep: seq<bool>, one: Which, stop: Which)
    requires |keep| == |q| && Apart(q, one, stop) && KeepsStops(q, keep, one, stop)
    ensures Apart(Filter(q, keep), one, stop)
  {
    if q != [] {
      FilterFirst(q, keep);
      ApartFirst(q, one, stop);
      KeepsStopsBehind(q, keep, one, stop);
      hide Filter, Apart, Guarded, KeepsStops;
      var rest := Filter(q[1..], keep[1..]);
      FilterApart(q[1..], keep[1..], one, stop);
      if keep[0] {
        ApartFirst([q[0]] + rest, one, stop);
        if one(q[0]) {
          FilterGuarded(q[1..], keep[1..], one, stop);
        }
      } else {
        assert [] + rest == rest;
      }
    }
  }

  lemma ApartAppend(q: Queue, m: Message, one: Which, stop: Which)
    requires Apart(q, one, stop) && (one(m) ==> AllStopped(q, one, stop))
    ensures Apart(q + [m], one, stop)
  {
    var all := q + [m];
    assert forall k :: 0 <= k < |q| ==> all[k] == q[k];
    forall i, j | 0 <= i < j < |all| && one(all[i]) && one(all[j]) ensures exists k :: i < k < j && stop(all[k]) {
      assert one(q[i]);
      if j < |q| {
        var k :| i < k < j && stop(q[k]);
        assert stop(all[k]);
      } else {
        var k :| i < k < |q| && stop(q[k]);
        assert stop(all[k]);
      }
    }
  }

  lemma RemovedStopped(q: Queue, i: nat, one: Which, stop: Which)
    requires Apart(q, one, stop) && LastFree(q, i, one, stop)
    ensures AllStopped(RemoveAt(q, i), one, stop)
  {
    var r := RemoveAt(q, i);
    assert forall k :: 0 <= k < |r| ==> r[k] == q[if k < i then k else k + 1];
    forall k | 0 <= k < |r| && one(r[k]) ensures exists j :: k < j < |r| && stop(r[j]) {
      assert k < i && one(q[k]);
      var j :| k < j < i && stop(q[j]);
      assert stop(r[j]);
    }
  }

  lemma PutIs(q: Queue, m: Message)
    ensures Put(q, m) == Filter(q, PutKeep(q, m)) + [PutMessage(q, m)]
  {
  }

  /** A put of something else. */
  lemma OtherPutKeepsApart(q: Queue, m: Message, one: Which, stop: Which)
    requires Apart(q, one, stop) && KeepsStops(q, PutKeep(q, m), one, stop) && !one(PutMessage(q, m))
    ensures Apart(Put(q, m), one, stop)
  {
    PutIs(q, m);
    hide Put, PutKeep, PutMessage, Apart, KeepsStops;
    FilterApart(q, PutKeep(q, m), one, stop);
    ApartAppend(Filter(q, PutKeep(q, m)), PutMessage(q, m), one, stop);
  }

  /** A put that takes out the last such message and appends one. */
  lemma JoinKeepsApart(q: Queue, i: nat, m: Message, one: Which, stop: Which)
    requires Apart(q, one, stop) && LastFree(q, i, one, stop)
    requires forall k :: 0 <= k < |q| && one(q[k]) ==> !stop(q[k])
    ensures Apart(RemoveAt(q, i) + [m], one, stop)
  {
    var keep := AllBut(|q|, Some(i));
    FilterAllBut(q, i);
    assert KeepsStops(q, keep, one, stop);
    RemovedStopped(q, i, one, stop);
    hide Apart, KeepsStops, AllBut, RemoveAt;
    FilterApart(q, keep, one, stop);
    ApartAppend(RemoveAt(q, i), m, one, stop);
  }

  /** A put that joins what it may. */
  lemma JoiningKeepsApart(q: Queue, m: Message, one: Which, stop: Which)
    requires Apart(q, one, stop) && forall k :: 0 <= k < |q| && one(q[k]) ==> !stop(q[k])
    requires if AllStopped(q, one, stop) then Put(q, m) == q + [m]
             else exists i: nat, x :: LastFree(q, i, one, stop) && Put(q, m) == RemoveAt(q, i) + [x]
    ensures Apart(Put(q, m), one, stop)
  {
    hide Put, Apart, AllStopped;
    if AllStopped(q, one, stop) {
      ApartAppend(q, m, one, stop);
    } else {
      var i: nat, x :| LastFree(q, i, one, stop) && Put(q, m) == RemoveAt(q, i) + [x];
      JoinKeepsApart(q, i, x, one, stop);
    }
  }

  lemma TextPutKeepsTexts(q: Queue, m: Message, view: string, id: string)
    requires Apart(q, TextOf(view, id), StopsText(view)) && TextOf(view, id)(m)
    ensures Apart(Put(q, m), TextOf(view, id), StopsText(view))
  {
    PutText(q, m);
    hide Put, Apart, AllStopped, LastFree, RemoveAt;
    JoiningKeepsApart(q, m, TextOf(view, id), StopsText(view));
  }

  lemma OtherPutKeepsTexts(q: Queue, m: Message, view: string, id: string)
    requires !TextOf(view, id)(m)
    ensures KeepsStops(q, PutKeep(q, m), TextOf(view, id), StopsText(view)) && !TextOf(view, id)(PutMessage(q, m))
  {
    var one, stop, keep := TextOf(view, id), StopsText(view), PutKeep(q, m);
    forall k, j | 0 <= k < j < |q| && !keep[k] && stop(q[k]) ensures !one(q[j]) {
      if m.RemoveText? && m.removal.Some? {
        assert !BlocksRemoval(q[j], m.view);
      } else if m.Callback? {
        DropsOnlyNews(q, m, k);
      }
    }
  }

  /** A put never leaves two texts of a window that it could have joined. */
  lemma PutKeepsTextsApart(q: Queue, m: Message, view: string, id: string)
    requires Apart(q, TextOf(view, id), StopsText(view))
    ensures Apart(Put(q, m), TextOf(view, id), StopsText(view))
  {
    if TextOf(view, id)(m) {
      TextPutKeepsTexts(q, m, view, id);
    } else {
      OtherPutKeepsTexts(q, m, view, id);
      hide Put, PutKeep, PutMessage, Apart, KeepsStops, TextOf, StopsText;
      OtherPutKeepsApart(q, m, TextOf(view, id), StopsText(view));
    }
  }

  lemma RemovalPutKeepsRemovals(q: Queue, m: Message, view: string, id: string)
    requires Apart(q, RemovalOf(view, id), StopsRemoval(view)) && RemovalOf(view, id)(m)
    ensures Apart(Put(q, m), RemovalOf(view, id), StopsRemoval(view))
  {
    PutRemoval(q, m);
    hide Put, Apart, AllStopped, LastFree, RemoveAt, Sum;
    JoiningKeepsApart(q, m, RemovalOf(view, id), StopsRemoval(view));
  }

  lemma OtherPutKeepsRemovals(q: Queue, m: Message, view: string, id: string)
    requires !RemovalOf(view, id)(m)
    ensures KeepsStops(q, PutKeep(q, m), RemovalOf(view, id), StopsRemoval(view))
    ensures !RemovalOf(view, id)(PutMessage(q, m))
  {
    var one, stop, keep := RemovalOf(view, id), StopsRemoval(view), PutKeep(q, m);
    forall k, j | 0 <= k < j < |q| && !keep[k] && stop(q[k]) ensures !one(q[j]) {
      if m.TextInput? && m.text.Some? {
        assert !BlocksText(q[j], m.view);
      } else if m.Callback? {
        DropsOnlyNews(q, m, k);
      }
    }
  }

  /** Nor two removals. */
  lemma PutKeepsRemovalsApart(q: Queue, m: Message, view: string, id: string)
    requires Apart(q, RemovalOf(view, id), StopsRemoval(view))
    ensures Apart(Put(q, m), RemovalOf(view, id), StopsRemoval(view))
  {
    if RemovalOf(view, id)(m) {
      RemovalPutKeepsRemovals(q, m, view, id);
    } else {
      OtherPutKeepsRemovals(q, m, view, id);
      hide Put, PutKeep, PutMessage, Apart, KeepsStops, RemovalOf, StopsRemoval;
      OtherPutKeepsApart(q, m, RemovalOf(view, id), StopsRemoval(view));
    }
  }

  // ---- callbacks of which only the latest counts

  /** The queued callbacks that a new one outdates: of the same view and the same .uno: command
      other than the modified status, of the same kind, or of the same kind about the same other
      view. */
  function Outdated(m: Message): Which {
    (queued: Message) => m.Callback? && queued.Callback? && queued.view == m.view &&
      match (m.news, queued.news)
      case (StateChanged(c), StateChanged(d)) => c == d && c != "" && c != ".uno:ModifiedStatus"
      case (Latest(a), Latest(b)) => a == b
      case (LatestOfView(a, v), LatestOfView(b, w)) => a == b && v == w
      case _ => false
  }

  function Never(): Which { (m: Message) => false }

  lemma OutdatedIsReplaced(m: Message, r: Register)
    requires m.Callback? && RegisterOf(m) == Some(r)
    ensures forall queued :: Outdated(m)(queued) <==> Replaces(r, queued)
  {
  }

  lemma NoRegisterNoneOutdated(m: Message)
    requires m.Callback? && RegisterOf(m) == None
    ensures forall queued :: !Outdated(m)(queued)
  {
  }

  /** A callback takes the first queued one that it outdates out of the queue, and nothing else. */
  lemma PutNews(q: Queue, m: Message)
    requires m.Callback? && !m.news.Invalidate?
    ensures if exists k :: 0 <= k < |q| && Outdated(m)(q[k])
            then exists i: nat :: i < |q| && Outdated(m)(q[i]) && (forall k :: 0 <= k < i ==> !Outdated(m)(q[k]))
                                  && Put(q, m) == RemoveAt(q, i) + [m]
            else Put(q, m) == q + [m]
  {
    match RegisterOf(m)
    case None =>
      NoRegisterNoneOutdated(m);
      FilterNone(q);
    case Some(r) =>
      OutdatedIsReplaced(m, r);
      hide Outdated, Replaces;
      match FindRegister(q, r, 0) {
        case None => FilterNone(q);
        case Some(i) => FilterAllBut(q, i);
      }
  }

  lemma NewsOf(m: Message, c: Message)
    requires Outdated(c)(m)
    ensures m.Callback? && !m.news.Invalidate?
    ensures forall queued :: Outdated(m)(queued) <==> Outdated(c)(queued)
  {
  }

  lemma AtMostOne(q: Queue, one: Which)
    requires Apart(q, one, Never())
    ensures forall i, j :: 0 <= i < j < |q| && one(q[i]) ==> !one(q[j])
  {
  }

  /** A put never leaves two callbacks of which the later one outdates the earlier. */
  lemma PutKeepsNewsApart(q: Queue, m: Message, c: Message)
    requires Apart(q, Outdated(c), Never())
    ensures Apart(Put(q, m), Outdated(c), Never())
  {
    var one, stop := Outdated(c), Never();
    if one(m) {
      NewsOf(m, c);
      PutNews(q, m);
      hide Put, Outdated;
      if exists k :: 0 <= k < |q| && one(q[k]) {
        var i: nat :| i < |q| && one(q[i]) && Put(q, m) == RemoveAt(q, i) + [m];
        AtMostOne(q, one);
        JoinKeepsApart(q, i, m, one, stop);
      } else {
        ApartAppend(q, m, one, stop);
      }
    } else {
      assert KeepsStops(q, PutKeep(q, m), one, stop);
      OtherPutKeepsApart(q, m, one, stop);
    }
  }

  /** The queued tile requests that a new one replaces: those whose text up to the version its
      own text begins with. */
  function Repeated(t: Tile): Which {
    (m: Message) => m.TileRequest? &&
      var u := m.tile;
      && u.nviewid == t.nviewid && u.part == t.part && u.width == t.width && u.height == t.height
      && u.posX == t.posX && u.posY == t.posY && u.tileWidth == t.tileWidth && u.tileHeight == t.tileHeight
      && u.oldWid == t.oldWid && Decimal(t.wid) <= Decimal(u.wid)
  }

  /** A tile request takes the first queued one that it repeats out of the queue. */
  lemma PutTile(q: Queue, m: Message)
    requires m.TileRequest?
    ensures if exists k :: 0 <= k < |q| && Repeated(m.tile)(q[k])
            then exists i: nat :: i < |q| && Repeated(m.tile)(q[i])
                                  && (forall k :: 0 <= k < i ==> !Repeated(m.tile)(q[k]))
                                  && Put(q, m) == RemoveAt(q, i) + [m]
            else Put(q, m) == q + [m]
  {
    var r := TileAt(m.tile.Key());
    assert forall k :: 0 <= k < |q| ==> (Repeated(m.tile)(q[k]) <==> Replaces(r, q[k]));
    hide Repeated, Replaces;
    match FindRegister(q, r, 0)
    case None => FilterNone(q);
    case Some(i) => FilterAllBut(q, i);
  }

  /** Whatever is no text, removal, callback or tile, or is incomplete, is only appended. */
  lemma PutOther(q: Queue, m: Message)
    requires || m.Input? || m.SingleToken? || m.Other?
             || (m.TextInput? && m.text.None?) || (m.RemoveText? && m.removal.None?)
    ensures Put(q, m) == q + [m]
  {
    FilterNone(q);
  }

  // ---- getting

  lemma RotatedApart(a: Queue, b: Queue, one: Which, stop: Which)
    requires Apart(a + b, one, stop) && forall k :: 0 <= k < |a| ==> !one(a[k])
    ensures Apart(b + a, one, stop)
  {
    var q, r := a + b, b + a;
    assert forall k :: 0 <= k < |b| ==> q[|a| + k] == b[k] == r[k];
    assert forall k :: 0 <= k < |a| ==> r[|b| + k] == a[k];
    forall i, j | 0 <= i < j < |r| && one(r[i]) && one(r[j]) ensures exists k :: i < k < j && stop(r[k]) {
      assert one(q[|a| + i]) && one(q[|a| + j]);
      var k :| |a| + i < k < |a| + j && stop(q[k]);
      assert stop(r[k - |a|]);
    }
  }

  lemma GetKeepsApart(q: Queue, views: Views, one: Which, stop: Which)
    requires q != [] && views.Valid() && AllTilesValid(q) && Apart(q, one, stop)
    requires forall m: Message :: m.TileRequest? ==> !one(m) && !stop(m)
    ensures Apart(Get(q, views).1, one, stop)
  {
    hide Apart, Choose, Companions, Dedup, Filter, Tile.Valid;
    if q[0].IsPlainTile() {
      var i := Choose(q, views, PlainPrefix(q));
      var first, rest := q[i].tile, RemoveAt(q, i);
      FilterAllBut(q, i);
      FilterApart(q, AllBut(|q|, Some(i)), one, stop);
      RemoveAtValid(q, i);
      FilterApart(rest, Leftover(first, rest), one, stop);
    } else {
      ApartFirst(q, one, stop);
      if q[0].IsPreview() {
        var rest := q[1..];
        var n := PreviewPrefix(rest);
        assert rest == rest[..n] + rest[n..];
        RotatedApart(rest[..n], rest[n..], one, stop);
      }
    }
  }

  // ---- merging invalidations

  /** All of a lies in b. */
  predicate Within(a: Rect, b: Rect) {
    b.x <= a.x && a.x + a.w <= b.x + b.w && b.y <= a.y && a.y + a.h <= b.y + b.h
  }

  /** The smallest rectangle around the new one and those taken out of the queue. */
  ghost predicate Hull(q: Queue, keep: seq<bool>, r: Rect, hull: Rect)
    requires |keep| == |q|
  {
    && Within(r, hull)
    && (forall k :: 0 <= k < |q| && !keep[k] && q[k].Callback? && q[k].news.Invalidate? ==>
          Within(q[k].news.rect, hull))
    && SideOf(q, keep, r, (a: Rect) => a.x, hull.x)
    && SideOf(q, keep, r, (a: Rect) => a.y, hull.y)
    && SideOf(q, keep, r, (a: Rect) => a.x + a.w, hull.x + hull.w)
    && SideOf(q, keep, r, (a: Rect) => a.y + a.h, hull.y + hull.h)
  }

  lemma HullIsUnique(q: Queue, keep: seq<bool>, r: Rect, a: Rect, b: Rect)
    requires |keep| == |q| && Hull(q, keep, r, a) && Hull(q, keep, r, b)
    ensures a == b
  {
  }

  lemma {:induction false} SweepGrows(q: Queue, t: Target, r: Rect)
    ensures Within(r, Sweep(q, t, r).1)
    ensures forall k :: 0 <= k < |q| && !Sweep(q, t, r).0[k] ==>
              q[k].Callback? && q[k].news.Invalidate? && Within(q[k].news.rect, Sweep(q, t, r).1)
  {
    if q != [] {
      var head := q[0];
      var r' := if Invalidates(head, t) && !Covers(r, head.news.rect) && Merges(r, head.news.rect)
                then Join(r, head.news.rect) else r;
      SweepGrows(q[1..], t, r');
      assert Sweep(q, t, r).0[1..] == Sweep(q[1..], t, r').0;
      assert Within(r, r');
      forall k | 0 <= k < |q| && !Sweep(q, t, r).0[k]
        ensures q[k].Callback? && q[k].news.Invalidate? && Within(q[k].news.rect, Sweep(q, t, r).1)
      {
        if k > 0 {
          assert q[k] == q[1..][k - 1];
        }
      }
    }
  }

  lemma SweepIsHull(q: Queue, t: Target, r: Rect)
    ensures Hull(q, Sweep(q, t, r).0, r, Sweep(q, t, r).1)
  {
    hide Sweep, SideOf;
    SweepGrows(q, t, r);
    SweepIsTight(q, t, r);
  }

  lemma {:induction false} SweepPrefix(q: Queue, t: Target, r: Rect, k: nat)
    requires k < |q|
    ensures var before := Sweep(q[..k], t, r);
      && Sweep(q, t, r).0[..k] == before.0
      && (Sweep(q, t, r).0[k] <==>
            !Invalidates(q[k], t) || !(Covers(before.1, q[k].news.rect) || Merges(before.1, q[k].news.rect)))
  {
    hide Merges, Covers, Join;
    if k > 0 {
      var head := q[0];
      var r' := if Invalidates(head, t) && !Covers(r, head.news.rect) && Merges(r, head.news.rect)
                then Join(r, head.news.rect) else r;
      SweepPrefix(q[1..], t, r', k - 1);
      assert q[..k][1..] == q[1..][..k - 1];
      assert Sweep(q, t, r).0[1..] == Sweep(q[1..], t, r').0;
    }
  }

  /** Two rectangles touch and are small enough together. */
  predicate SmallTogether(a: Rect, b: Rect) {
    && b.x <= a.x + a.w && a.x <= b.x + b.w && b.y <= a.y + a.h && a.y <= b.y + b.h
    && a.x + a.w - b.x <= 15360 && b.x + b.w - a.x <= 15360 && a.w <= 15360 && b.w <= 15360
    && a.y + a.h - b.y <= 7680 && b.y + b.h - a.y <= 7680 && a.h <= 7680 && b.h <= 7680
  }

  /** A queued invalidation is taken out if and only if it is of the same view, part and mode and
      the rectangle grown so far, which is the smallest around the new one and those taken out
      before, covers it or touches it and is small enough together with it. */
  lemma SweepDecides(q: Queue, t: Target, r: Rect, k: nat, grown: Rect)
    requires k < |q| && Hull(q[..k], Sweep(q, t, r).0[..k], r, grown)
    ensures !Sweep(q, t, r).0[k] <==>
      && q[k].Callback? && q[k].news.Invalidate?
      && q[k].view == t.view && q[k].news.part == t.part && q[k].news.mode == t.mode
      && (Within(q[k].news.rect, grown) || SmallTogether(grown, q[k].news.rect))
  {
    hide Sweep, Hull;
    SweepPrefix(q, t, r, k);
    SweepIsHull(q[..k], t, r);
    HullIsUnique(q[..k], Sweep(q[..k], t, r).0, r, grown, Sweep(q[..k], t, r).1);
  }

  /** A put invalidation takes the place of those taken out, as the smallest rectangle around
      them and itself. */
  lemma PutInvalidation(q: Queue, m: Message)
    requires m.Callback? && m.news.Invalidate?
    ensures var keep := Sweep(q, TargetOf(m), m.news.rect).0;
      exists hull :: Hull(q, keep, m.news.rect, hull)
        && Put(q, m) == Filter(q, keep) + [Callback(m.view, Invalidate(hull, m.news.part, m.news.mode), m.payload)]
  {
    hide Hull, Sweep;
    SweepIsHull(q, TargetOf(m), m.news.rect);
  }

  // ---- whole runs

  /** Nothing queued could still be coalesced. */
  ghost predicate Coalesced(q: Queue) {
    && (forall view, id :: Apart(q, TextOf(view, id), StopsText(view)))
    && (forall view, id :: Apart(q, RemovalOf(view, id), StopsRemoval(view)))
    && (forall m :: Apart(q, Outdated(m), Never()))
  }

  lemma PutKeepsCoalesced(q: Queue, m: Message)
    requires Coalesced(q)
    ensures Coalesced(Put(q, m))
  {
    hide Put, Apart, TextOf, RemovalOf, StopsText, StopsRemoval, Outdated, Never;
    forall view, id ensures Apart(Put(q, m), TextOf(view, id), StopsText(view)) {
      PutKeepsTextsApart(q, m, view, id);
    }
    forall view, id ensures Apart(Put(q, m), RemovalOf(view, id), StopsRemoval(view)) {
      PutKeepsRemovalsApart(q, m, view, id);
    }
    forall c ensures Apart(Put(q, m), Outdated(c), Never()) {
      PutKeepsNewsApart(q, m, c);
    }
  }

  lemma GetKeepsCoalesced(q: Queue, views: Views)
    requires q != [] && views.Valid() && AllTilesValid(q) && Coalesced(q)
    ensures Coalesced(Get(q, views).1)
  {
    hide Get, Apart;
    var rest := Get(q, views).1;
    forall view, id ensures Apart(rest, TextOf(view, id), StopsText(view)) {
      GetKeepsApart(q, views, TextOf(view, id), StopsText(view));
    }
    forall view, id ensures Apart(rest, RemovalOf(view, id), StopsRemoval(view)) {
      GetKeepsApart(q, views, RemovalOf(view, id), StopsRemoval(view));
    }
    forall c ensures Apart(rest, Outdated(c), Never()) {
      GetKeepsApart(q, views, Outdated(c), Never());
    }
  }

  lemma {:induction false} PutTilesKeepCoalesced(q: Queue, tiles: seq<Tile>)
    requires Coalesced(q)
    ensures Coalesced(PutTiles(q, tiles))
    decreases |tiles|
  {
    hide Put, Coalesced;
    if tiles != [] {
      PutKeepsCoalesced(q, TileRequest(tiles[0]));
      PutTilesKeepCoalesced(Put(q, TileRequest(tiles[0])), tiles[1..]);
    }
  }

  lemma NothingCoalesced()
    ensures Coalesced([])
  {
  }

  /** In every run from an empty queue no two texts, and no two removals, of one window are
      queued without something between them that the later one must not overtake, and no
      callback is queued with one that outdates it. */
  lemma {:induction false} RunKeepsCoalesced(q: Queue, ops: seq<Operation>)
    requires SoundRun(q, ops) && Coalesced(q)
    ensures Coalesced(AfterAll(q, ops))
    decreases |ops|
  {
    hide Coalesced, Get, Put, PutTiles;
    if ops != [] {
      match ops[0] {
        case Putting(One(m)) => PutKeepsCoalesced(q, m);
        case Putting(Combined(tiles)) => PutTilesKeepCoalesced(q, tiles);
        case Getting(views) => GetKeepsCoalesced(q, views);
      }
      RunKeepsCoalesced(Perform(q, ops[0]), ops[1..]);
    }
  }
}
