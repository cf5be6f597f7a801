/** Coalescing keeps the meaning of the queue: no keystroke is reordered or lost, no
    invalidated area is forgotten, and only the latest word of a register survives. */
module QueueMeaning {
  import opened Decimals
  import opened Options
  import opened QueueMessages
  import opened QueueSpec

  // ---- keeping a part of the queue

  lemma {:induction false} FilterAll(q: Queue, keep: seq<bool>)
    requires |keep| == |q| && forall k :: 0 <= k < |keep| ==> keep[k]
    ensures Filter(q, keep) == q
  {
    if q != [] {
      FilterAll(q[1..], keep[1..]);
    }
  }

  lemma FilterFirst(q: Queue, keep: seq<bool>)
    requires |keep| == |q| > 0
    ensures Filter(q, keep) == (if keep[0] then [q[0]] else []) + Filter(q[1..], keep[1..])
  {
  }

  lemma {:induction false} FilterOneMore(q: Queue, keep: seq<bool>, m: Message, b: bool)
    requires |keep| == |q|
    ensures Filter(q + [m], keep + [b]) == Filter(q, keep) + if b then [m] else []
  {
    FilterFirst(q + [m], keep + [b]);
    if q == [] {
      assert Filter((q + [m])[1..], (keep + [b])[1..]) == [];
    } else {
      FilterFirst(q, keep);
      hide Filter;
      assert (q + [m])[1..] == q[1..] + [m] && (keep + [b])[1..] == keep[1..] + [b];
      FilterOneMore(q[1..], keep[1..], m, b);
    }
  }

  /** Dropping one message is erasing it. */
  lemma {:induction false} FilterAllBut(q: Queue, i: nat)
    requires i < |q|
    ensures Filter(q, AllBut(|q|, Some(i))) == RemoveAt(q, i)
    decreases i
  {
    var keep := AllBut(|q|, Some(i));
    if i == 0 {
      FilterAll(q[1..], keep[1..]);
    } else {
      assert keep[1..] == AllBut(|q| - 1, Some(i - 1));
      FilterAllBut(q[1..], i - 1);
      assert RemoveAt(q, i) == [q[0]] + RemoveAt(q[1..], i - 1);
    }
  }

  lemma FilterNone(q: Queue)
    ensures Filter(q, AllBut(|q|, None)) == q
  {
    FilterAll(q, AllBut(|q|, None));
  }

  // ---- what a window of a view is told

  datatype Event =
    | Act(message: Message)
    | Typed(text: string)
    | Removed(before: int32, after: int32)

  /** What a message means to one window id of one view: its own text and removals, and
      everything no text may be moved across. */
  function EventsOf(m: Message, view: string, id: string): (es: seq<Event>)
    ensures |es| <= 1
  {
    if m.SingleToken? || (m.Input? && m.view == view) then [Act(m)]
    else if IsTextFor(m, view, id) then [Typed(m.text.value.text)]
    else if IsRemovalFor(m, view, id) then [Removed(m.removal.value.before, m.removal.value.after)]
    else []
  }

  function Events(q: Queue, view: string, id: string): seq<Event> {
    if q == [] then [] else EventsOf(q[0], view, id) + Events(q[1..], view, id)
  }

  /** Adjacent texts are one text, adjacent removals one removal. */
  function Add(es: seq<Event>, e: Event): seq<Event> {
    if es == [] then [e]
    else
      var n := |es| - 1;
      match (es[n], e)
      case (Typed(a), Typed(b)) => es[..n] + [Typed(a + b)]
      case (Removed(b1, a1), Removed(b2, a2)) => es[..n] + [Removed(Sum(b1, b2), Sum(a1, a2))]
      case _ => es + [e]
  }

  function Normal(es: seq<Event>): seq<Event> {
    if es == [] then [] else Add(Normal(es[..|es| - 1]), es[|es| - 1])
  }

  lemma NormalAppend(es: seq<Event>, e: Event)
    ensures Normal(es + [e]) == Add(Normal(es), e)
  {
    assert (es + [e])[..|es|] == es;
  }

  lemma NormalTexts(es: seq<Event>, a: string, b: string)
    ensures Normal(es + [Typed(a)] + [Typed(b)]) == Normal(es + [Typed(a + b)])
  {
    hide Normal;
    NormalAppend(es + [Typed(a)], Typed(b));
    NormalAppend(es, Typed(a));
    NormalAppend(es, Typed(a + b));
    var n := Normal(es);
    if n != [] && n[|n| - 1].Typed? {
      assert n[|n| - 1].text + a + b == n[|n| - 1].text + (a + b);
    }
  }

  /** Sums are the true ones but for a multiple of two to the 32. */
  lemma SumWraps(a: int32, b: int32)
    ensures Sum(a, b) in {a + b, a + b - 0x1_0000_0000, a + b + 0x1_0000_0000}
    ensures -0x8000_0000 <= a + b <= 0x7fff_ffff ==> Sum(a, b) == a + b
  {
  }

  lemma SumAssociative(a: int32, b: int32, c: int32)
    ensures Sum(Sum(a, b), c) == Sum(a, Sum(b, c))
  {
  }

  lemma NormalRemovals(es: seq<Event>, b1: int32, a1: int32, b2: int32, a2: int32)
    ensures Normal(es + [Removed(b1, a1)] + [Removed(b2, a2)]) == Normal(es + [Removed(Sum(b1, b2), Sum(a1, a2))])
  {
    hide Normal, Sum;
    NormalAppend(es + [Removed(b1, a1)], Removed(b2, a2));
    NormalAppend(es, Removed(b1, a1));
    NormalAppend(es, Removed(Sum(b1, b2), Sum(a1, a2)));
    var n := Normal(es);
    if n != [] && n[|n| - 1].Removed? {
      var last, front := n[|n| - 1], n[..|n| - 1];
      assert Add(n, Removed(b1, a1)) == front + [Removed(Sum(last.before, b1), Sum(last.after, a1))];
      SumAssociative(last.before, b1, b2);
      SumAssociative(last.after, a1, a2);
    }
  }

  lemma {:induction false} EventsSplit(a: Queue, b: Queue, view: string, id: string)
    ensures Events(a + b, view, id) == Events(a, view, id) + Events(b, view, id)
  {
    hide EventsOf;
    if a == [] {
      assert a + b == b;
    } else {
      assert (a + b)[1..] == a[1..] + b;
      EventsSplit(a[1..], b, view, id);
    }
  }

  lemma {:induction false} NoEvents(q: Queue, view: string, id: string)
    requires forall k :: 0 <= k < |q| ==> EventsOf(q[k], view, id) == []
    ensures Events(q, view, id) == []
  {
    hide EventsOf;
    if q != [] {
      NoEvents(q[1..], view, id);
    }
  }

  /** Dropping messages that mean nothing to a window changes nothing for it. */
  lemma {:induction false} FilterEvents(q: Queue, keep: seq<bool>, view: string, id: string)
    requires |keep| == |q|
    requires forall k :: 0 <= k < |q| && !keep[k] ==> EventsOf(q[k], view, id) == []
    ensures Events(Filter(q, keep), view, id) == Events(q, view, id)
  {
    hide EventsOf;
    if q != [] {
      FilterEvents(q[1..], keep[1..], view, id);
      EventsSplit(if keep[0] then [q[0]] else [], Filter(q[1..], keep[1..]), view, id);
      EventsOne(q[0], view, id);
    }
  }

  lemma EventsOne(m: Message, view: string, id: string)
    ensures Events([m], view, id) == EventsOf(m, view, id)
  {
    hide EventsOf;
    assert [m][1..] == [];
  }

  /** Erasing one message, when nothing behind it means anything to the window. */
  lemma EventsAround(q: Queue, i: nat, view: string, id: string)
    requires i < |q|
    requires forall k :: i < k < |q| ==> EventsOf(q[k], view, id) == []
    ensures Events(q, view, id) == Events(q[..i], view, id) + EventsOf(q[i], view, id)
    ensures Events(RemoveAt(q, i), view, id) == Events(q[..i], view, id)
  {
    hide EventsOf;
    assert q == q[..i] + ([q[i]] + q[i + 1..]);
    EventsSplit(q[..i], [q[i]] + q[i + 1..], view, id);
    EventsSplit([q[i]], q[i + 1..], view, id);
    EventsOne(q[i], view, id);
    NoEvents(q[i + 1..], view, id);
    EventsSplit(q[..i], q[i + 1..], view, id);
  }

  /** Putting a message means, to every window of every view, the old sequence of events
      followed by the new one. */
  lemma PutKeepsMeaning(q: Queue, m: Message, view: string, id: string)
    ensures Normal(Events(Put(q, m), view, id)) == Normal(Events(q, view, id) + EventsOf(m, view, id))
  {
    if m.TextInput? && m.text.Some? {
      PutTextKeepsMeaning(q, m, view, id);
    } else if m.RemoveText? && m.removal.Some? {
      PutRemovalKeepsMeaning(q, m, view, id);
    } else {
      hide Events, Normal, Sweep;
      var keep, last := PutKeep(q, m), PutMessage(q, m);
      assert EventsOf(last, view, id) == EventsOf(m, view, id);
      forall k | 0 <= k < |q| && !keep[k]
        ensures EventsOf(q[k], view, id) == []
      {
        DropsOnlyNews(q, m, k);
      }
      FilterEvents(q, keep, view, id);
      EventsSplit(Filter(q, keep), [last], view, id);
      EventsOne(last, view, id);
    }
  }

  /** Putting anything but text drops only tile requests and callbacks. */
  lemma DropsOnlyNews(q: Queue, m: Message, k: nat)
    requires !(m.TextInput? && m.text.Some?) && !(m.RemoveText? && m.removal.Some?)
    requires k < |q| && !PutKeep(q, m)[k]
    ensures q[k].TileRequest? || q[k].Callback?
  {
    if m.Callback? && m.news.Invalidate? {
      SweepDrops(q, TargetOf(m), m.news.rect, k);
    }
  }

  lemma {:induction false} SweepDrops(q: Queue, t: Target, r: Rect, k: nat)
    requires k < |q| && !Sweep(q, t, r).0[k]
    ensures Invalidates(q[k], t)
  {
    hide Merges, Join, Covers;
    if k > 0 {
      var r' := if Invalidates(q[0], t) && !Covers(r, q[0].news.rect) && Merges(r, q[0].news.rect)
                then Join(r, q[0].news.rect) else r;
      SweepDrops(q[1..], t, r', k - 1);
    }
  }

  lemma PutTextKeepsMeaning(q: Queue, m: Message, view: string, id: string)
    requires m.TextInput? && m.text.Some?
    ensures Normal(Events(Put(q, m), view, id)) == Normal(Events(q, view, id) + EventsOf(m, view, id))
  {
    hide Events, Normal;
    var last := PutMessage(q, m);
    match FindText(q, m.view, m.text.value.id, |q|)
    case None =>
      FilterNone(q);
      EventsSplit(q, [last], view, id);
      EventsOne(last, view, id);
    case Some(i) =>
      FilterAllBut(q, i);
      EventsSplit(RemoveAt(q, i), [last], view, id);
      EventsOne(last, view, id);
      if view == m.view && id == m.text.value.id {
        EventsAround(q, i, view, id);
        NormalTexts(Events(q[..i], view, id), q[i].text.value.text, m.text.value.text);
      } else {
        assert EventsOf(q[i], view, id) == [] == EventsOf(m, view, id) == EventsOf(last, view, id);
        FilterEvents(q, AllBut(|q|, Some(i)), view, id);
      }
  }

  lemma PutRemovalKeepsMeaning(q: Queue, m: Message, view: string, id: string)
    requires m.RemoveText? && m.removal.Some?
    ensures Normal(Events(Put(q, m), view, id)) == Normal(Events(q, view, id) + EventsOf(m, view, id))
  {
    hide Events, Normal;
    var last := PutMessage(q, m);
    match FindRemoval(q, m.view, m.removal.value.id, |q|)
    case None =>
      FilterNone(q);
      EventsSplit(q, [last], view, id);
      EventsOne(last, view, id);
    case Some(i) =>
      FilterAllBut(q, i);
      EventsSplit(RemoveAt(q, i), [last], view, id);
      EventsOne(last, view, id);
      if view == m.view && id == m.removal.value.id {
        EventsAround(q, i, view, id);
        var a, b := q[i].removal.value, m.removal.value;
        NormalRemovals(Events(q[..i], view, id), a.before, a.after, b.before, b.after);
      } else {
        assert EventsOf(q[i], view, id) == [] == EventsOf(m, view, id) == EventsOf(last, view, id);
        FilterEvents(q, AllBut(|q|, Some(i)), view, id);
      }
  }

  // ---- invalidated areas

  /** Some queued invalidation of this target has the point. */
  ghost predicate Invalid(q: Queue, t: Target, px: int, py: int) {
    exists k :: 0 <= k < |q| && Invalidates(q[k], t) && q[k].news.rect.Has(px, py)
  }

  lemma InvalidSplit(a: Queue, b: Queue, t: Target, px: int, py: int)
    ensures Invalid(a + b, t, px, py) <==> Invalid(a, t, px, py) || Invalid(b, t, px, py)
  {
    if Invalid(a, t, px, py) {
      var k :| 0 <= k < |a| && Invalidates(a[k], t) && a[k].news.rect.Has(px, py);
      assert (a + b)[k] == a[k];
    }
    if Invalid(b, t, px, py) {
      var k :| 0 <= k < |b| && Invalidates(b[k], t) && b[k].news.rect.Has(px, py);
      assert (a + b)[|a| + k] == b[k];
    }
  }

  lemma InvalidFirst(q: Queue, t: Target, px: int, py: int)
    requires q != []
    ensures Invalid(q, t, px, py)
       <==> (Invalidates(q[0], t) && q[0].news.rect.Has(px, py)) || Invalid(q[1..], t, px, py)
  {
    assert q == [q[0]] + q[1..];
    InvalidSplit([q[0]], q[1..], t, px, py);
    assert Invalid([q[0]], t, px, py) <==> Invalidates(q[0], t) && q[0].news.rect.Has(px, py) by {
      assert [q[0]][0] == q[0];
    }
  }

  lemma JoinHas(a: Rect, b: Rect, px: int, py: int)
    requires a.Has(px, py) || b.Has(px, py)
    ensures Join(a, b).Has(px, py)
  {
  }

  /** No point of the swept target is lost: it stays queued or lies in the final rectangle. */
  lemma {:induction false} SweepLosesNothing(q: Queue, t: Target, r: Rect, px: int, py: int)
    requires r.Has(px, py) || Invalid(q, t, px, py)
    ensures var s := Sweep(q, t, r);
      s.1.Has(px, py) || Invalid(Filter(q, s.0), t, px, py)
  {
    hide Merges, Invalid;
    if q == [] {
      assert !Invalid(q, t, px, py) by { NothingInvalid(t, px, py); }
    } else {
      InvalidFirst(q, t, px, py);
      var head, s := q[0], Sweep(q, t, r);
      if Invalidates(head, t) && !Covers(r, head.news.rect) && Merges(r, head.news.rect) {
        if r.Has(px, py) || head.news.rect.Has(px, py) {
          JoinHas(r, head.news.rect, px, py);
        }
        SweepLosesNothing(q[1..], t, Join(r, head.news.rect), px, py);
        FilterDrop(q, s.0);
        assert s.0[1..] == Sweep(q[1..], t, Join(r, head.news.rect)).0;
      } else {
        assert s.0[1..] == Sweep(q[1..], t, r).0;
        if r.Has(px, py) || Invalid(q[1..], t, px, py) {
          SweepLosesNothing(q[1..], t, r, px, py);
        }
        if s.0[0] {
          FilterTake(q, s.0, t, px, py);
        } else {
          FilterDrop(q, s.0);
          if head.news.rect.Has(px, py) {
            SweepLosesNothing(q[1..], t, r, px, py);
          }
        }
      }
    }
  }

  lemma FilterDrop(q: Queue, keep: seq<bool>)
    requires |keep| == |q| > 0 && !keep[0]
    ensures Filter(q, keep) == Filter(q[1..], keep[1..])
  {
  }

  lemma FilterTake(q: Queue, keep: seq<bool>, t: Target, px: int, py: int)
    requires |keep| == |q| > 0 && keep[0]
    ensures Filter(q, keep) == [q[0]] + Filter(q[1..], keep[1..])
    ensures Invalid(Filter(q, keep), t, px, py)
       <==> (Invalidates(q[0], t) && q[0].news.rect.Has(px, py)) || Invalid(Filter(q[1..], keep[1..]), t, px, py)
  {
    InvalidFirst(Filter(q, keep), t, px, py);
    assert Filter(q, keep)[1..] == Filter(q[1..], keep[1..]);
  }

  lemma NothingInvalid(t: Target, px: int, py: int)
    ensures !Invalid([], t, px, py)
  {
  }

  /** Only the target's own invalidations are dropped. */
  lemma {:induction false} FilterKeepsInvalid(q: Queue, keep: seq<bool>, t: Target, px: int, py: int)
    requires |keep| == |q| && forall k :: 0 <= k < |q| && !keep[k] ==> !Invalidates(q[k], t)
    ensures Invalid(Filter(q, keep), t, px, py) <==> Invalid(q, t, px, py)
  {
    hide Invalid;
    if q != [] {
      FilterKeepsInvalid(q[1..], keep[1..], t, px, py);
      InvalidFirst(q, t, px, py);
      if keep[0] {
        FilterTake(q, keep, t, px, py);
      } else {
        FilterDrop(q, keep);
      }
    }
  }

  /** After a put, every target's queued invalidations still have every point they had, and
      every point of a new invalidation. */
  lemma PutKeepsInvalid(q: Queue, m: Message, t: Target, px: int, py: int)
    requires Invalid(q, t, px, py) || (Invalidates(m, t) && m.news.rect.Has(px, py))
    ensures Invalid(Put(q, m), t, px, py)
  {
    hide Invalid, Sweep;
    var keep, last := PutKeep(q, m), PutMessage(q, m);
    InvalidSplit(Filter(q, keep), [last], t, px, py);
    InvalidFirst([last], t, px, py);
    if Invalidates(m, t) {
      SweepLosesNothing(q, t, m.news.rect, px, py);
    } else {
      forall k | 0 <= k < |q| && !keep[k]
        ensures !Invalidates(q[k], t)
      {
        if m.Callback? && m.news.Invalidate? {
          SweepDrops(q, TargetOf(m), m.news.rect, k);
        }
      }
      FilterKeepsInvalid(q, keep, t, px, py);
    }
  }

  /** This rectangle or one of those taken out of the queue has the number for a side. */
  ghost predicate SideOf(q: Queue, keep: seq<bool>, r: Rect, side: Rect -> int, v: int)
    requires |keep| == |q|
  {
    || side(r) == v
    || exists k :: 0 <= k < |q| && !keep[k] && q[k].Callback? && q[k].news.Invalidate? && side(q[k].news.rect) == v
  }

  /** The final rectangle is the new one unless it merged; then it is small, and each of its
      four sides is a side of the new rectangle or of one it replaces: it is no larger than
      needed. */
  lemma {:induction false} SweepIsTight(q: Queue, t: Target, r: Rect)
    ensures var s := Sweep(q, t, r);
      && (!s.2 ==> s.1 == r)
      && (s.2 ==> s.1.w <= REASONABLE_WIDTH && s.1.h <= REASONABLE_HEIGHT)
      && SideOf(q, s.0, r, (a: Rect) => a.x, s.1.x)
      && SideOf(q, s.0, r, (a: Rect) => a.y, s.1.y)
      && SideOf(q, s.0, r, (a: Rect) => a.x + a.w, s.1.x + s.1.w)
      && SideOf(q, s.0, r, (a: Rect) => a.y + a.h, s.1.y + s.1.h)
  {
    if q != [] {
      var head, keep := q[0], Sweep(q, t, r).0;
      var merges := Invalidates(head, t) && !Covers(r, head.news.rect) && Merges(r, head.news.rect);
      var r' := if merges then Join(r, head.news.rect) else r;
      SweepIsTight(q[1..], t, r');
      var s := Sweep(q[1..], t, r').1;
      assert keep[1..] == Sweep(q[1..], t, r').0 && (merges ==> !keep[0]);
      SideBehind(q, keep, r, r', (a: Rect) => a.x, s.x);
      SideBehind(q, keep, r, r', (a: Rect) => a.y, s.y);
      SideBehind(q, keep, r, r', (a: Rect) => a.x + a.w, s.x + s.w);
      SideBehind(q, keep, r, r', (a: Rect) => a.y + a.h, s.y + s.h);
    }
  }

  lemma SideBehind(q: Queue, keep: seq<bool>, r: Rect, r': Rect, side: Rect -> int, v: int)
    requires |keep| == |q| > 0 && SideOf(q[1..], keep[1..], r', side, v)
    requires
      || side(r') == side(r)
      || (!keep[0] && q[0].Callback? && q[0].news.Invalidate? && side(r') == side(q[0].news.rect))
    ensures SideOf(q, keep, r, side, v)
  {
    if side(r') != v {
      var k :| 0 <= k < |q[1..]| && !keep[1..][k] && q[1..][k].Callback? && q[1..][k].news.Invalidate?
        && side(q[1..][k].news.rect) == v;
      assert q[k + 1] == q[1..][k] && !keep[k + 1];
    }
  }

  // ---- registers

  /** No register has two messages queued. */
  ghost predicate OnePerRegister(q: Queue) {
    forall i, j :: 0 <= i < j < |q| && RegisterOf(q[i]).Some? ==> RegisterOf(q[i]) != RegisterOf(q[j])
  }

  /** The message replaces one whose key its own only begins, and leaves a queued message of
      its own register behind. */
  ghost predicate Shadowed(q: Queue, m: Message) {
    && RegisterOf(m).Some?
    && var i := FindRegister(q, RegisterOf(m).value, 0);
       i.Some? && exists j :: 0 <= j < |q| && j != i.value && RegisterOf(q[j]) == RegisterOf(m)
  }

  /** A put leaves at most one message of every register if and only if the new one was not
      shadowed. The last message put of a register is always queued. */
  lemma PutKeepsOnePerRegister(q: Queue, m: Message)
    requires OnePerRegister(q)
    ensures OnePerRegister(Put(q, m)) <==> !Shadowed(q, m)
    ensures RegisterOf(m).Some? ==> Put(q, m)[|Put(q, m)| - 1] == m
  {
    hide Sweep;
    var keep, last := PutKeep(q, m), PutMessage(q, m);
    assert RegisterOf(last) == RegisterOf(m);
    FilterOnePerRegister(q, keep);
    match RegisterOf(m)
    case None =>
    case Some(r) =>
      OwnIsReplaced(r, q);
      match FindRegister(q, r, 0)
      case None => FilterNone(q);
      case Some(i) =>
        FilterAllBut(q, i);
        LastOfRegister(q, m, r, i);
  }

  lemma LastOfRegister(q: Queue, m: Message, r: Register, i: nat)
    requires i < |q| && OnePerRegister(q) && OnePerRegister(RemoveAt(q, i)) && RegisterOf(m) == Some(r)
    ensures OnePerRegister(RemoveAt(q, i) + [m]) <==> forall j :: 0 <= j < |q| && j != i ==> RegisterOf(q[j]) != Some(r)
  {
    hide RegisterOf;
    var kept := RemoveAt(q, i);
    var all := kept + [m];
    assert all[|kept|] == m;
    if j :| 0 <= j < |q| && j != i && RegisterOf(q[j]) == Some(r) {
      var k := if j < i then j else j - 1;
      assert kept[k] == q[j] && all[k] == q[j];
    } else {
      assert forall k :: 0 <= k < |kept| ==> kept[k] == q[if k < i then k else k + 1];
      assert forall k :: 0 <= k < |kept| ==> RegisterOf(kept[k]) != Some(r);
    }
  }

  lemma OwnIsReplaced(r: Register, q: Queue)
    ensures forall k :: 0 <= k < |q| && RegisterOf(q[k]) == Some(r) ==> Replaces(r, q[k])
  {
  }

  /** Only tile requests are ever shadowed. */
  lemma OnlyTilesAreShadowed(q: Queue, m: Message)
    requires OnePerRegister(q) && Shadowed(q, m)
    ensures m.TileRequest?
  {
  }

  /** A request under wire id 1, one under 12, and 1 again: each replaces at most its own. The
      next 1 replaces the request under 12, and two equal requests are queued. */
  lemma ShadowedTile(t: Tile)
    requires t.wid == 1
    ensures var one, twelve := TileRequest(t), TileRequest(t.(wid := 12));
      && Put(Put(Put([], one), twelve), one) == [twelve, one]
      && Put([twelve, one], one) == [one, one]
  {
    var one, twelve := TileRequest(t), TileRequest(t.(wid := 12));
    assert Decimal(1) == "1" && Decimal(12) == "12";
    assert Replaces(TileAt(t.Key()), one) && Replaces(TileAt(t.Key()), twelve);
    assert !Replaces(TileAt(twelve.tile.Key()), one);
    hide Replaces;
    FilterNone([]);
    assert Put([], one) == [one];
    assert FindRegister([one], TileAt(twelve.tile.Key()), 0) == None;
    FilterNone([one]);
    assert Put([one], twelve) == [one, twelve];
    FilterAllBut([one, twelve], 0);
    assert RemoveAt([one, twelve], 0) == [twelve];
    FilterAllBut([twelve, one], 0);
    assert RemoveAt([twelve, one], 0) == [one];
  }

  lemma {:induction false} FilterOnePerRegister(q: Queue, keep: seq<bool>)
    requires |keep| == |q| && OnePerRegister(q)
    ensures OnePerRegister(Filter(q, keep))
    ensures forall k :: 0 <= k < |Filter(q, keep)| ==> Filter(q, keep)[k] in q
  {
    hide RegisterOf, Filter;
    if q == [] {
      FilterAll(q, keep);
    } else {
      assert forall i :: 0 <= i < |q[1..]| ==> q[1..][i] == q[i + 1];
      FilterOnePerRegister(q[1..], keep[1..]);
      FilterFirst(q, keep);
      var rest := Filter(q[1..], keep[1..]);
      forall k | 0 <= k < |rest|
        ensures RegisterOf(q[0]).Some? ==> RegisterOf(q[0]) != RegisterOf(rest[k])
      {
        assert rest[k] in q[1..];
        var j :| 0 <= j < |q[1..]| && q[1..][j] == rest[k];
        assert q[j + 1] == rest[k];
      }
    }
  }
}
