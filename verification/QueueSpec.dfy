/** What putting a message into the queue and getting one out of it do, on values.

    Every put keeps some of the queued messages, in order, and appends one. */
module QueueSpec {
  import opened Options
  import opened QueueMessages

  type Queue = seq<Message>

  /** The messages a flag is set for. */
  function Filter(q: Queue, keep: seq<bool>): (r: Queue)
    requires |keep| == |q|
    ensures |r| <= |q|
  {
    if q == [] then [] else (if keep[0] then [q[0]] else []) + Filter(q[1..], keep[1..])
  }

  function Count(keep: seq<bool>): (n: nat)
    ensures n <= |keep|
  {
    if keep == [] then 0 else (if keep[0] then 1 else 0) + Count(keep[1..])
  }

  function AllBut(n: nat, i: Option<nat>): (keep: seq<bool>)
    ensures |keep| == n
  {
    seq(n, k => i != Some(k))
  }

  // ---- merging text

  predicate BlocksText(m: Message, view: string) {
    m.SingleToken? || (m.Input? && m.view == view) || (m.RemoveText? && m.view == view)
  }

  predicate IsTextFor(m: Message, view: string, id: string) {
    m.TextInput? && m.view == view && m.text.Some? && m.text.value.id == id
  }

  /** The last text input of this view and window id among the first n messages, unless a
      message that must not be overtaken comes later. */
  function FindText(q: Queue, view: string, id: string, n: nat): (i: Option<nat>)
    requires n <= |q|
    ensures i.Some? ==> i.value < n && IsTextFor(q[i.value], view, id)
    ensures i.Some? ==> forall k :: i.value < k < n ==> !BlocksText(q[k], view) && !IsTextFor(q[k], view, id)
    ensures i.None? ==> forall k :: 0 <= k < n && IsTextFor(q[k], view, id) ==>
              exists j :: k < j < n && BlocksText(q[j], view)
  {
    if n == 0 || BlocksText(q[n - 1], view) then None
    else if IsTextFor(q[n - 1], view, id) then Some(n - 1)
    else FindText(q, view, id, n - 1)
  }

  predicate BlocksRemoval(m: Message, view: string) {
    m.SingleToken? || (m.Input? && m.view == view) || (m.TextInput? && m.view == view)
  }

  predicate IsRemovalFor(m: Message, view: string, id: string) {
    m.RemoveText? && m.view == view && m.removal.Some? && m.removal.value.id == id
  }

  function FindRemoval(q: Queue, view: string, id: string, n: nat): (i: Option<nat>)
    requires n <= |q|
    ensures i.Some? ==> i.value < n && IsRemovalFor(q[i.value], view, id)
    ensures i.Some? ==> forall k :: i.value < k < n ==> !BlocksRemoval(q[k], view) && !IsRemovalFor(q[k], view, id)
    ensures i.None? ==> forall k :: 0 <= k < n && IsRemovalFor(q[k], view, id) ==>
              exists j :: k < j < n && BlocksRemoval(q[j], view)
  {
    if n == 0 || BlocksRemoval(q[n - 1], view) then None
    else if IsRemovalFor(q[n - 1], view, id) then Some(n - 1)
    else FindRemoval(q, view, id, n - 1)
  }

  // ---- replacing superseded messages

  /** What a message is the latest word on; only the newest message of a register matters. */
  datatype Register =
    | TileAt(key: TileKey)
    | StateOf(view: string, command: string)
    | LatestFor(view: string, callbackType: int)
    | LatestForView(view: string, callbackType: int, viewId: string)

  /** State changes of this command are never replaced. */
  const MODIFIED_STATUS := ".uno:ModifiedStatus"

  function RegisterOf(m: Message): Option<Register> {
    match m
    case TileRequest(tile) => Some(TileAt(tile.Key()))
    case Callback(view, StateChanged(command), _) =>
      if command == "" || command == MODIFIED_STATUS then None else Some(StateOf(view, command))
    case Callback(view, Latest(t), _) => Some(LatestFor(view, t))
    case Callback(view, LatestOfView(t, viewId), _) => Some(LatestForView(view, t, viewId))
    case _ => None
  }

  /** A new message of this register replaces the queued one: it is of the same register, or
      a tile request whose key begins with the register's. */
  predicate Replaces(r: Register, queued: Message) {
    match r
    case TileAt(key) => queued.TileRequest? && key.Begins(queued.tile.Key())
    case _ => RegisterOf(queued) == Some(r)
  }

  /** The first message at or behind position i that a new one of the register replaces. */
  function FindRegister(q: Queue, r: Register, i: nat): (at: Option<nat>)
    requires i <= |q|
    ensures at.Some? ==> i <= at.value < |q| && Replaces(r, q[at.value])
    ensures at.Some? ==> forall k :: i <= k < at.value ==> !Replaces(r, q[k])
    ensures at.None? ==> forall k :: i <= k < |q| ==> !Replaces(r, q[k])
    decreases |q| - i
  {
    if i == |q| then None
    else if Replaces(r, q[i]) then Some(i)
    else FindRegister(q, r, i + 1)
  }

  // ---- merging invalidations

  const REASONABLE_WIDTH := 4 * 3840
  const REASONABLE_HEIGHT := 2 * 3840

  /** Where an invalidation applies. */
  datatype Target = Target(view: string, part: int, mode: int)

  predicate Invalidates(m: Message, t: Target) {
    m.Callback? && m.news.Invalidate? && m.view == t.view && m.news.part == t.part && m.news.mode == t.mode
  }

  predicate Covers(a: Rect, b: Rect) {
    a.x <= b.x && b.x + b.w <= a.x + a.w && a.y <= b.y && b.y + b.h <= a.y + a.h
  }

  function Min(a: int, b: int): int { if a < b then a else b }
  function Max(a: int, b: int): int { if a < b then b else a }

  /** The smallest rectangle around two. */
  function Join(a: Rect, b: Rect): Rect {
    var x, y := Min(a.x, b.x), Min(a.y, b.y);
    Rect(x, y, Max(a.x + a.w, b.x + b.w) - x, Max(a.y + a.h, b.y + b.h) - y)
  }

  predicate Merges(a: Rect, b: Rect) {
    Intersect(a, b) && Join(a, b).w <= REASONABLE_WIDTH && Join(a, b).h <= REASONABLE_HEIGHT
  }

  /** One pass over the queue with a growing rectangle: which messages stay, the rectangle in
      the end, and whether it grew. */
  function Sweep(q: Queue, t: Target, r: Rect): (result: (seq<bool>, Rect, bool))
    ensures |result.0| == |q|
  {
    if q == [] then ([], r, false)
    else if !Invalidates(q[0], t) then
      var rest := Sweep(q[1..], t, r); ([true] + rest.0, rest.1, rest.2)
    else if Covers(r, q[0].news.rect) then
      var rest := Sweep(q[1..], t, r); ([false] + rest.0, rest.1, rest.2)
    else if Merges(r, q[0].news.rect) then
      var rest := Sweep(q[1..], t, Join(r, q[0].news.rect)); ([false] + rest.0, rest.1, true)
    else
      var rest := Sweep(q[1..], t, r); ([true] + rest.0, rest.1, rest.2)
  }

  function TargetOf(m: Message): Target
    requires m.Callback? && m.news.Invalidate?
  {
    Target(m.view, m.news.part, m.news.mode)
  }

  // ---- put

  /** Which queued messages stay when m is put. */
  function PutKeep(q: Queue, m: Message): (keep: seq<bool>)
    ensures |keep| == |q|
  {
    if m.TextInput? && m.text.Some? then AllBut(|q|, FindText(q, m.view, m.text.value.id, |q|))
    else if m.RemoveText? && m.removal.Some? then AllBut(|q|, FindRemoval(q, m.view, m.removal.value.id, |q|))
    else if m.Callback? && m.news.Invalidate? then Sweep(q, TargetOf(m), m.news.rect).0
    else match RegisterOf(m)
      case Some(r) => AllBut(|q|, FindRegister(q, r, 0))
      case None => AllBut(|q|, None)
  }

  /** The message that is appended when m is put. */
  function PutMessage(q: Queue, m: Message): Message {
    if m.TextInput? && m.text.Some? then
      match FindText(q, m.view, m.text.value.id, |q|)
      case Some(i) => m.(text := Some(m.text.value.(text := q[i].text.value.text + m.text.value.text)))
      case None => m
    else if m.RemoveText? && m.removal.Some? then
      match FindRemoval(q, m.view, m.removal.value.id, |q|)
      case Some(i) =>
        var a, b := q[i].removal.value, m.removal.value;
        m.(removal := Some(Removal(b.id, Sum(a.before, b.before), Sum(a.after, b.after))))
      case None => m
    else if m.Callback? && m.news.Invalidate? then
      m.(news := m.news.(rect := Sweep(q, TargetOf(m), m.news.rect).1))
    else m
  }

  function Put(q: Queue, m: Message): Queue {
    Filter(q, PutKeep(q, m)) + [PutMessage(q, m)]
  }

  function PutTiles(q: Queue, tiles: seq<Tile>): Queue
    decreases |tiles|
  {
    if tiles == [] then q else PutTiles(Put(q, TileRequest(tiles[0])), tiles[1..])
  }

  function PutIncoming(q: Queue, v: Incoming): Queue {
    match v
    case One(m) => Put(q, m)
    case Combined(tiles) => PutTiles(q, tiles)
  }

  // ---- priorities

  datatype Cursor = Cursor(part: int, x: int, y: int, width: int, height: int)

  datatype Views = Views(order: seq<int>, cursors: map<int, Cursor>) {
    /** Every ordered view has a cursor, and no view is listed twice. */
    predicate Valid() {
      && (forall i :: 0 <= i < |order| ==> order[i] in cursors)
      && (forall v :: v in cursors ==> v in order)
      && (forall i, j :: 0 <= i < j < |order| ==> order[i] != order[j])
    }

    predicate AtCursor(tile: Tile, i: nat)
      requires Valid() && i < |order|
    {
      var c := cursors[order[i]];
      Intersect(tile.Area(), Rect(c.x, c.y, c.width, c.height))
    }

    /** The newest of the first n views whose cursor the tile touches, -1 for none. */
    function PriorityAmong(tile: Tile, n: nat): (p: int)
      requires Valid() && n <= |order|
      ensures -1 <= p < n
      ensures p >= 0 ==> AtCursor(tile, p)
      ensures forall i :: p < i < n ==> !AtCursor(tile, i)
    {
      if n == 0 then -1 else if AtCursor(tile, n - 1) then n - 1 else PriorityAmong(tile, n - 1)
    }

    function Priority(tile: Tile): (p: int)
      requires Valid()
      ensures -1 <= p < |order|
    {
      PriorityAmong(tile, |order|)
    }
  }

  // ---- get

  /** Length of the run of messages at the front that are plain tiles (or previews). */
  function PlainPrefix(q: Queue): (n: nat)
    ensures n <= |q|
    ensures forall i :: 0 <= i < n ==> q[i].IsPlainTile()
    ensures n < |q| ==> !q[n].IsPlainTile()
  {
    if q != [] && q[0].IsPlainTile() then 1 + PlainPrefix(q[1..]) else 0
  }

  function PreviewPrefix(q: Queue): (n: nat)
    ensures n <= |q|
    ensures forall i :: 0 <= i < n ==> q[i].IsPreview()
    ensures n < |q| ==> !q[n].IsPreview()
  {
    if q != [] && q[0].IsPreview() then 1 + PreviewPrefix(q[1..]) else 0
  }

  /** Previews at the front go to the back, in order. */
  function Deprioritize(q: Queue): Queue {
    q[PreviewPrefix(q)..] + q[..PreviewPrefix(q)]
  }

  /** Position i holds the first of the most urgent tiles among the plain tiles at the front. */
  predicate MostUrgent(q: Queue, views: Views, i: nat)
    requires views.Valid()
  {
    var n := PlainPrefix(q);
    && i < n
    && (forall k :: 0 <= k < i ==> views.Priority(q[k].tile) < views.Priority(q[i].tile))
    && (forall k :: i <= k < n ==> views.Priority(q[k].tile) <= views.Priority(q[i].tile))
  }

  /** The most urgent of the first n tiles. */
  function Choose(q: Queue, views: Views, n: nat): (i: nat)
    requires views.Valid() && 0 < n <= PlainPrefix(q)
    ensures i < n
    ensures forall k :: 0 <= k < i ==> views.Priority(q[k].tile) < views.Priority(q[i].tile)
    ensures forall k :: i <= k < n ==> views.Priority(q[k].tile) <= views.Priority(q[i].tile)
  {
    if n == 1 then 0
    else
      var i := Choose(q, views, n - 1);
      if views.Priority(q[n - 1].tile) > views.Priority(q[i].tile) then n - 1 else i
  }

  predicate AllTilesValid(q: Queue) {
    forall i :: 0 <= i < |q| ==> q[i].Valid()
  }

  /** Whether a queued message is rendered together with a tile. */
  predicate JoinsWith(first: Tile, m: Message)
    requires first.Valid() && m.Valid()
  {
    m.IsPlainTile() && first.CanCombine(m.tile)
  }

  /** The tiles taken along with the first one, and the messages left. */
  function Companions(first: Tile, q: Queue): (tiles: seq<Tile>)
    requires first.Valid() && AllTilesValid(q)
    ensures forall i :: 0 <= i < |tiles| ==> tiles[i].SameKind(first)
  {
    if q == [] then [] else (if JoinsWith(first, q[0]) then [q[0].tile] else []) + Companions(first, q[1..])
  }

  function Leftover(first: Tile, q: Queue): (keep: seq<bool>)
    requires first.Valid() && AllTilesValid(q)
    ensures |keep| == |q|
    ensures forall i :: 0 <= i < |q| ==> (keep[i] <==> !JoinsWith(first, q[i]))
  {
    if q == [] then [] else [!JoinsWith(first, q[0])] + Leftover(first, q[1..])
  }

  /** All tiles but those at the place of a given one. */
  function Elsewhere(tiles: seq<Tile>, a: Tile): (r: seq<Tile>)
    ensures |r| <= |tiles|
    ensures forall t :: t in r ==> t in tiles && !t.SamePlace(a)
    ensures forall t :: t in tiles ==> t in r || t.SamePlace(a)
  {
    if tiles == [] then []
    else (if tiles[0].SamePlace(a) then [] else [tiles[0]]) + Elsewhere(tiles[1..], a)
  }

  /** The first tile at each place. */
  function Dedup(tiles: seq<Tile>): (r: seq<Tile>)
    ensures tiles != [] ==> r != [] && r[0] == tiles[0]
    ensures forall t :: t in r ==> t in tiles
    ensures forall i, j :: 0 <= i < j < |r| ==> !r[i].SamePlace(r[j])
    decreases |tiles|
  {
    if tiles == [] then []
    else
      var rest := Dedup(Elsewhere(tiles[1..], tiles[0]));
      assert forall j :: 0 <= j < |rest| ==> rest[j] in rest;
      [tiles[0]] + rest
  }

  /** What get hands out. */
  datatype Answer = Just(message: Message) | Tiles(tiles: seq<Tile>)

  function RemoveAt(q: Queue, i: nat): Queue
    requires i < |q|
  {
    q[..i] + q[i + 1..]
  }

  /** The tiles taken from the queue at once, duplicates included. */
  function Taken(q: Queue, views: Views): (tiles: seq<Tile>)
    requires q != [] && q[0].IsPlainTile() && views.Valid() && AllTilesValid(q)
    ensures tiles != []
  {
    var i := Choose(q, views, PlainPrefix(q));
    [q[i].tile] + Companions(q[i].tile, RemoveAt(q, i))
  }

  function Get(q: Queue, views: Views): (Answer, Queue)
    requires q != [] && views.Valid() && AllTilesValid(q)
  {
    if !q[0].TileRequest? then (Just(q[0]), q[1..])
    else if q[0].IsPreview() then (Just(q[0]), Deprioritize(q[1..]))
    else
      var i := Choose(q, views, PlainPrefix(q));
      var rest := RemoveAt(q, i);
      var tiles := Taken(q, views);
      (if |tiles| == 1 then Just(TileRequest(tiles[0])) else Tiles(Dedup(tiles)),
       Filter(rest, Leftover(q[i].tile, rest)))
  }
}
