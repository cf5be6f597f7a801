/** The cache of painted window hashes that server and client keep in step, so that an image
    the client still holds is not sent again. */
module PixmapCache {
  import opened Options

  type Hash = nat

  const SIZE := 100

  // ---- the server's list of hashes

  function IndexOf(s: seq<Hash>, h: Hash): (i: nat)
    ensures i <= |s| && forall j :: 0 <= j < i ==> s[j] != h
    ensures i < |s| ==> s[i] == h
    ensures h in s <==> i < |s|
  {
    if s == [] || s[0] == h then 0 else 1 + IndexOf(s[1..], h)
  }

  lemma FirstIs(s: seq<Hash>, h: Hash, i: nat)
    requires i <= |s| && (i < |s| ==> s[i] == h) && forall j :: 0 <= j < i ==> s[j] != h
    ensures IndexOf(s, h) == i
  {
    var k := IndexOf(s, h);
    assert k < |s| ==> s[k] == h;
  }

  /** The list after a window with this hash was painted. */
  function Touch(s: seq<Hash>, h: Hash): seq<Hash> {
    var i := IndexOf(s, h);
    if i < |s| then [h] + s[..i] + s[i + 1..]
    else if |s| == SIZE then [h] + s[..|s| - 1]
    else [h] + s
  }

  // ---- what the list means

  /** When a hash was last painted: the number of paints up to and including that one. */
  function LastUse(history: seq<Hash>, h: Hash): (n: nat)
    ensures n <= |history|
    ensures n > 0 <==> h in history
    ensures n > 0 ==> history[n - 1] == h
  {
    if history == [] then 0
    else if history[|history| - 1] == h then |history|
    else
      assert history == history[..|history| - 1] + [history[|history| - 1]];
      LastUse(history[..|history| - 1], h)
  }

  lemma {:induction false} LastUseIsLast(history: seq<Hash>, h: Hash, i: nat)
    requires LastUse(history, h) <= i < |history|
    ensures history[i] != h
  {
    if i < |history| - 1 {
      LastUseIsLast(history[..|history| - 1], h, i);
    }
  }

  lemma LastUseGrows(history: seq<Hash>, h: Hash, x: Hash)
    ensures LastUse(history + [h], x) == if x == h then |history| + 1 else LastUse(history, x)
  {
    assert (history + [h])[..|history|] == history;
  }

  ghost predicate NewestFirst(s: seq<Hash>, history: seq<Hash>) {
    forall i, j :: 0 <= i < j < |s| ==> LastUse(history, s[i]) > LastUse(history, s[j])
  }

  /** The hash is in the list, or the list is full of hashes used after it. */
  ghost predicate Accounted(s: seq<Hash>, history: seq<Hash>, h: Hash) {
    h in s || (|s| == SIZE && forall i :: 0 <= i < |s| ==> LastUse(history, h) < LastUse(history, s[i]))
  }

  /** The most recently used distinct hashes of a history, newest first, at most SIZE. */
  ghost predicate MostRecent(s: seq<Hash>, history: seq<Hash>) {
    && |s| <= SIZE
    && (forall h <- s :: h in history)
    && NewestFirst(s, history)
    && (forall h <- history :: Accounted(s, history, h))
  }

  /** Where an element of the touched list was. */
  function Before(k: nat, i: nat): nat
    requires i > 0
  {
    if i <= k then i - 1 else i
  }

  ghost predicate Touched(s: seq<Hash>, h: Hash, k: nat, t: seq<Hash>) {
    && k == IndexOf(s, h)
    && |t| == (if k < |s| || |s| == SIZE then |s| else |s| + 1)
    && t != [] && t[0] == h
    && forall i :: 0 < i < |t| ==> Before(k, i) < |s| && t[i] == s[Before(k, i)]
  }

  /** The touched list: the new hash first, the others in their old order. */
  lemma TouchShape(s: seq<Hash>, h: Hash)
    ensures Touched(s, h, IndexOf(s, h), Touch(s, h))
  {
  }

  lemma TouchedDiffers(s: seq<Hash>, history: seq<Hash>, h: Hash, k: nat, t: seq<Hash>, i: nat)
    requires NewestFirst(s, history) && Touched(s, h, k, t) && 0 < i < |t|
    ensures t[i] != h && t[i] in s
  {
    var b := Before(k, i);
    if k < b {
      assert LastUse(history, s[k]) > LastUse(history, s[b]);
    }
  }

  lemma TouchKeepsOrder(s: seq<Hash>, history: seq<Hash>, h: Hash, k: nat, t: seq<Hash>)
    requires NewestFirst(s, history) && Touched(s, h, k, t)
    ensures NewestFirst(t, history + [h])
  {
    hide LastUse, IndexOf;
    forall i, j | 0 <= i < j < |t| ensures LastUse(history + [h], t[i]) > LastUse(history + [h], t[j]) {
      TouchedDiffers(s, history, h, k, t, j);
      LastUseGrows(history, h, t[i]);
      LastUseGrows(history, h, t[j]);
      if i > 0 {
        TouchedDiffers(s, history, h, k, t, i);
        assert LastUse(history, s[Before(k, i)]) > LastUse(history, s[Before(k, j)]);
      }
    }
  }

  /** A hash other than the new one that was in the list stays, unless it was the last of a full list. */
  lemma StillThere(s: seq<Hash>, h: Hash, k: nat, t: seq<Hash>, j: nat)
    requires Touched(s, h, k, t) && j < |s| && s[j] != h
    ensures s[j] in t || (|t| == SIZE && j == |s| - 1)
  {
    if j < k && j + 1 < |t| {
      assert Before(k, j + 1) == j;
      assert t[j + 1] == s[j];
    } else if j > k {
      assert Before(k, j) == j;
      assert t[j] == s[j];
    }
  }

  lemma TouchAccounts(s: seq<Hash>, history: seq<Hash>, h: Hash, k: nat, t: seq<Hash>, x: Hash)
    requires |s| <= SIZE && NewestFirst(s, history) && Touched(s, h, k, t) && x != h && Accounted(s, history, x)
    ensures Accounted(t, history + [h], x)
  {
    hide LastUse, IndexOf;
    if x in s {
      var j :| 0 <= j < |s| && s[j] == x;
      StillThere(s, h, k, t, j);
    }
    if x !in t {
      LastUseGrows(history, h, x);
      forall i | 0 <= i < |t| ensures LastUse(history + [h], x) < LastUse(history + [h], t[i]) {
        LastUseGrows(history, h, t[i]);
        if i > 0 {
          TouchedDiffers(s, history, h, k, t, i);
          assert t[i] == s[Before(k, i)];
        }
      }
    }
  }

  lemma TouchKeepsMostRecent(s: seq<Hash>, history: seq<Hash>, h: Hash)
    requires MostRecent(s, history)
    ensures MostRecent(Touch(s, h), history + [h])
  {
    var t, k := Touch(s, h), IndexOf(s, h);
    TouchShape(s, h);
    assert |t| <= SIZE && t[0] == h;
    hide Touch, LastUse, IndexOf, Touched, Accounted;
    TouchKeepsOrder(s, history, h, k, t);
    forall x | x in t ensures x in history + [h] {
      var i :| 0 <= i < |t| && t[i] == x;
      if i > 0 {
        TouchedDiffers(s, history, h, k, t, i);
      }
    }
    forall x | x in history + [h] ensures Accounted(t, history + [h], x) {
      if x == h {
        FirstAccounted(t, history + [h], x);
      } else {
        TouchAccounts(s, history, h, k, t, x);
      }
    }
  }

  lemma FirstAccounted(t: seq<Hash>, history: seq<Hash>, h: Hash)
    requires t != [] && t[0] == h
    ensures Accounted(t, history, h)
  {
  }

  /** Being the most recent ones leaves no choice: the list is exactly that. */
  lemma MostRecentIsUnique(a: seq<Hash>, b: seq<Hash>, history: seq<Hash>)
    requires MostRecent(a, history) && MostRecent(b, history)
    ensures a == b
  {
    hide MostRecent;
    forall n | 0 <= n <= |a| && n <= |b| && a[..n] == b[..n]
      ensures n < |a| <==> n < |b|
      ensures n < |a| ==> a[n] == b[n]
    {
      SameNext(a, b, history, n);
    }
    Agree(a, b);
  }

  lemma {:induction false} Agree(a: seq<Hash>, b: seq<Hash>)
    requires forall n :: 0 <= n <= |a| && n <= |b| && a[..n] == b[..n] ==>
               (n < |a| <==> n < |b|) && (n < |a| ==> a[n] == b[n])
    ensures a == b
  {
    var n := 0;
    while n < |a| && n < |b|
      invariant n <= |a| && n <= |b| && a[..n] == b[..n]
    {
      assert a[..n + 1] == a[..n] + [a[n]] && b[..n + 1] == b[..n] + [b[n]];
      n := n + 1;
    }
    assert a[..|a|] == a && b[..|b|] == b;
  }

  /** Two lists that agree up to n agree on what comes next. */
  lemma SameNext(a: seq<Hash>, b: seq<Hash>, history: seq<Hash>, n: nat)
    requires MostRecent(a, history) && MostRecent(b, history)
    requires n <= |a| && n <= |b| && a[..n] == b[..n]
    ensures n < |a| <==> n < |b|
    ensures n < |a| ==> a[n] == b[n]
  {
    hide MostRecent;
    if n < |a| {
      NotBeaten(a, b, history, n);
    }
    if n < |b| {
      NotBeaten(b, a, history, n);
    }
    hide LastUse;
    if n < |a| && n < |b| {
      assert LastUse(history, a[n]) == LastUse(history, b[n]);
      InHistory(a, history, n);
      InHistory(b, history, n);
    }
  }

  lemma InHistory(a: seq<Hash>, history: seq<Hash>, n: nat)
    requires MostRecent(a, history) && n < |a|
    ensures var u := LastUse(history, a[n]); 0 < u <= |history| && history[u - 1] == a[n]
  {
  }

  /** The second list goes on too, and its next hash is at least as recent. */
  lemma NotBeaten(a: seq<Hash>, b: seq<Hash>, history: seq<Hash>, n: nat)
    requires MostRecent(a, history) && MostRecent(b, history)
    requires n < |a| && n <= |b| && a[..n] == b[..n]
    ensures n < |b| && LastUse(history, b[n]) >= LastUse(history, a[n])
  {
    var x := a[n];
    assert Accounted(b, history, x) && NewestFirst(a, history) && NewestFirst(b, history);
    hide LastUse;
    forall j | 0 <= j < n ensures b[j] != x {
      assert a[..n][j] == b[..n][j];
      assert LastUse(history, a[j]) > LastUse(history, a[n]);
    }
  }

  function TouchAll(history: seq<Hash>): seq<Hash> {
    if history == [] then [] else Touch(TouchAll(history[..|history| - 1]), history[|history| - 1])
  }

  /** After any history the list is the SIZE most recently used distinct hashes, newest first. */
  lemma {:induction false} CacheIsMostRecent(history: seq<Hash>)
    ensures MostRecent(TouchAll(history), history)
    ensures |TouchAll(history)| == 100 || (|TouchAll(history)| < 100 && forall h <- history :: h in TouchAll(history))
  {
    if history != [] {
      var front, last := history[..|history| - 1], history[|history| - 1];
      CacheIsMostRecent(front);
      TouchKeepsMostRecent(TouchAll(front), front, last);
      assert front + [last] == history;
    }
  }

  // ---- the client's cache of images

  /** The image of a hash; None where the client was told it had one and had not. */
  datatype Entry<Image> = Entry(hash: Hash, img: Option<Image>)

  /** The answer to a paint request: the image, or only the hash. */
  datatype Message<Image> = Png(hash: Hash, img: Image) | NoPng(hash: Hash)

  function Hashes<Image>(cache: seq<Entry<Image>>): (s: seq<Hash>)
    ensures |s| == |cache| && forall i :: 0 <= i < |s| ==> s[i] == cache[i].hash
  {
    seq(|cache|, i requires 0 <= i < |cache| => cache[i].hash)
  }

  function Received<Image>(cache: seq<Entry<Image>>, m: Message<Image>): Option<Image> {
    match m
    case Png(_, img) => Some(img)
    case NoPng(h) =>
      var i := IndexOf(Hashes(cache), h);
      if i < |cache| then cache[i].img else None
  }

  /** The client's cache after a message. */
  function Receive<Image>(cache: seq<Entry<Image>>, m: Message<Image>): seq<Entry<Image>> {
    var i := IndexOf(Hashes(cache), m.hash);
    var kept := if i < |cache| then cache[..i] + cache[i + 1..] else cache;
    var room := if |kept| == SIZE then kept[..SIZE - 1] else kept;
    [Entry(m.hash, Received(cache, m))] + room
  }

  /** A window painted: its hash, its pixels, and whether they can be encoded. */
  datatype Paint<Image> = Paint(hash: Hash, img: Image, encodes: bool)

  datatype Pair<Image> = Pair(server: seq<Hash>, client: seq<Entry<Image>>)

  predicate Fails<Image>(server: seq<Hash>, p: Paint<Image>) { p.hash !in server && !p.encodes }

  function Answer<Image>(server: seq<Hash>, p: Paint<Image>): Option<Message<Image>> {
    if p.hash in server then Some(NoPng(p.hash)) else if p.encodes then Some(Png(p.hash, p.img)) else None
  }

  function Step<Image>(s: Pair<Image>, p: Paint<Image>): Pair<Image> {
    var client := match Answer(s.server, p) case None => s.client case Some(m) => Receive(s.client, m);
    Pair(Touch(s.server, p.hash), client)
  }

  ghost predicate InStep<Image(!new)>(s: Pair<Image>) {
    |s.server| <= SIZE && Hashes(s.client) == s.server && forall e <- s.client :: e.img.Some?
  }

  lemma ReceiveIsTouch<Image(!new)>(cache: seq<Entry<Image>>, m: Message<Image>)
    requires |cache| <= SIZE
    ensures Hashes(Receive(cache, m)) == Touch(Hashes(cache), m.hash)
  {
    hide IndexOf;
  }

  lemma ReceivedHere<Image(!new)>(cache: seq<Entry<Image>>, m: Message<Image>)
    requires forall e <- cache :: e.img.Some?
    requires m.Png? || m.hash in Hashes(cache)
    ensures forall e <- Receive(cache, m) :: e.img.Some?
  {
    var i := IndexOf(Hashes(cache), m.hash);
    hide IndexOf;
    assert i < |cache| ==> cache[i] in cache;
    forall e | e in Receive(cache, m) ensures e.img.Some? {
      assert e in cache || e == Entry(m.hash, Received(cache, m));
    }
  }

  /** The two caches stay in step exactly if no image had to be encoded in vain. */
  lemma StepKeepsInStep<Image(!new)>(s: Pair<Image>, p: Paint<Image>)
    requires InStep(s)
    ensures InStep(Step(s, p)) <==> !Fails(s.server, p)
  {
    assert |Touch(s.server, p.hash)| <= SIZE && Touch(s.server, p.hash)[0] == p.hash;
    hide Touch;
    if Fails(s.server, p) {
      assert s.server == [] || s.server[0] != p.hash;
    } else {
      var m := Answer(s.server, p).value;
      ReceiveIsTouch(s.client, m);
      ReceivedHere(s.client, m);
    }
  }

  /** After a failed encoding, the same window painted again is answered with its hash alone,
      and the client has no image for it. */
  lemma FailureIsMissed<Image(!new)>(s: Pair<Image>, p: Paint<Image>)
    requires InStep(s) && Fails(s.server, p)
    ensures var next := Step(s, p);
      Answer(next.server, p) == Some(NoPng(p.hash)) && Received(next.client, NoPng(p.hash)) == None
  {
    assert Touch(s.server, p.hash)[0] == p.hash;
  }

  function Run<Image>(s: Pair<Image>, paints: seq<Paint<Image>>): Pair<Image> {
    if paints == [] then s else Step(Run(s, paints[..|paints| - 1]), paints[|paints| - 1])
  }

  /** What the client shows for the k-th paint of a run. */
  function Shown<Image>(s: Pair<Image>, paints: seq<Paint<Image>>, k: nat): Option<Image>
    requires k < |paints|
  {
    var before := Run(s, paints[..k]);
    match Answer(before.server, paints[k])
    case None => None
    case Some(m) => Received(before.client, m)
  }

  ghost predicate NoFailure<Image(!new)>(s: Pair<Image>, paints: seq<Paint<Image>>) {
    forall k :: 0 <= k < |paints| ==> !Fails(Run(s, paints[..k]).server, paints[k])
  }

  /** Equal hashes of painted windows mean equal images. */
  ghost predicate NoCollision<Image(!new)>(paints: seq<Paint<Image>>) {
    forall p, q :: p in paints && q in paints && p.hash == q.hash ==> p.img == q.img
  }

  /** Every image in the client's cache is that of a window painted with that hash. */
  ghost predicate Painted<Image(!new)>(client: seq<Entry<Image>>, paints: seq<Paint<Image>>) {
    forall e <- client :: e.img.Some? && exists p :: p in paints && p.hash == e.hash && e.img == Some(p.img)
  }

  lemma NoFailureBefore<Image(!new)>(paints: seq<Paint<Image>>, k: nat)
    requires NoFailure(Pair([], []), paints) && k <= |paints|
    ensures NoFailure(Pair([], []), paints[..k])
    ensures k < |paints| ==> !Fails(Run(Pair([], []), paints[..k]).server, paints[k])
  {
    hide Run, Fails;
    forall j | 0 <= j < k ensures !Fails(Run(Pair([], []), paints[..k][..j]).server, paints[..k][j]) {
      assert paints[..k][..j] == paints[..j];
    }
  }

  lemma NothingPainted<Image(!new)>()
    ensures InStep<Image>(Pair([], [])) && Painted<Image>([], [])
  {
    assert Hashes<Image>([]) == [];
  }

  lemma {:induction false} RunKeepsInStep<Image(!new)>(paints: seq<Paint<Image>>)
    requires NoFailure(Pair([], []), paints)
    ensures InStep(Run(Pair([], []), paints)) && Painted(Run(Pair([], []), paints).client, paints)
  {
    hide NoFailure, InStep, Painted, Fails, Step;
    if paints == [] {
      NothingPainted<Image>();
    } else {
      var n := |paints| - 1;
      var front, p := paints[..n], paints[n];
      NoFailureBefore(paints, n);
      RunKeepsInStep(front);
      assert paints == front + [p];
      var s := Run(Pair([], []), front);
      StepKeepsInStep(s, p);
      StepKeepsPainted(s, front, p);
    }
  }

  lemma StepKeepsPainted<Image(!new)>(s: Pair<Image>, paints: seq<Paint<Image>>, p: Paint<Image>)
    requires InStep(s) && Painted(s.client, paints) && !Fails(s.server, p)
    ensures Painted(Step(s, p).client, paints + [p])
  {
    var m, i := Answer(s.server, p).value, IndexOf(s.server, p.hash);
    assert i < |s.server| ==> s.client[i] in s.client;
    forall e | e in Step(s, p).client
      ensures e.img.Some? && exists q :: q in paints + [p] && q.hash == e.hash && e.img == Some(q.img)
    {
      if e == Entry(m.hash, Received(s.client, m)) {
        if m.Png? {
          assert p in paints + [p];
        } else {
          var q :| q in paints && q.hash == s.client[i].hash && s.client[i].img == Some(q.img);
          assert q in paints + [p];
        }
      } else {
        assert e in s.client;
        var q :| q in paints && q.hash == e.hash && e.img == Some(q.img);
        assert q in paints + [p];
      }
    }
  }

  /** Without failed encodings and hash collisions a window is shown as it was painted: an
      answer without an image finds it in the client's cache. */
  lemma PaintIsShown<Image(!new)>(paints: seq<Paint<Image>>, k: nat)
    requires NoFailure(Pair([], []), paints) && NoCollision(paints) && k < |paints|
    ensures Shown(Pair([], []), paints, k) == Some(paints[k].img)
  {
    var front := paints[..k];
    NoFailureBefore(paints, k);
    RunKeepsInStep(front);
    var s := Run(Pair([], []), front);
    hide Run, NoFailure;
    if paints[k].hash in s.server {
      var i := IndexOf(s.server, paints[k].hash);
      assert s.client[i] in s.client;
      var q :| q in front && q.hash == s.client[i].hash && s.client[i].img == Some(q.img);
      assert q in paints && paints[k] in paints;
      hide IndexOf, Painted, InStep;
      assert q.img == paints[k].img;
    }
  }

  /** Where equal hashes mean equal images, every window is shown as it was painted if and
      only if every image that had to be encoded could be. */
  lemma EveryPaintIsShown<Image(!new)>(paints: seq<Paint<Image>>)
    requires NoCollision(paints)
    ensures (forall k :: 0 <= k < |paints| ==> Shown(Pair([], []), paints, k) == Some(paints[k].img))
       <==> NoFailure(Pair([], []), paints)
  {
    if NoFailure(Pair([], []), paints) {
      forall k | 0 <= k < |paints| ensures Shown(Pair([], []), paints, k) == Some(paints[k].img) {
        PaintIsShown(paints, k);
      }
    } else {
      var k :| 0 <= k < |paints| && Fails(Run(Pair([], []), paints[..k]).server, paints[k]);
      assert Shown(Pair([], []), paints, k) == None;
    }
  }

  // ---- the server's side

  class ChildSession {
    var pixmapCache: seq<Hash>
    ghost var history: seq<Hash>

    ghost predicate Valid()
      reads this
    {
      MostRecent(pixmapCache, history)
    }

    constructor ()
      ensures Valid() && pixmapCache == [] && history == []
    {
      pixmapCache, history := [], [];
    }

    method Find(h: Hash) returns (found: nat)
      ensures found == IndexOf(pixmapCache, h)
    {
      found := 0;
      while found < |pixmapCache| && pixmapCache[found] != h
        invariant found <= |pixmapCache| && forall j :: 0 <= j < found ==> pixmapCache[j] != h
      {
        found := found + 1;
      }
      FirstIs(pixmapCache, h, found);
    }

    /** Whether the image must be sent; the hash becomes the most recent one. */
    method RenderWindow(pixmapHash: Hash) returns (doPng: bool)
      requires Valid()
      modifies this
      ensures Valid() && history == old(history) + [pixmapHash]
      ensures pixmapCache == Touch(old(pixmapCache), pixmapHash)
      ensures doPng <==> pixmapHash !in old(pixmapCache)
    {
      TouchKeepsMostRecent(pixmapCache, history, pixmapHash);
      var found := Find(pixmapHash);
      var end := |pixmapCache|;
      doPng := found == end;
      hide MostRecent, LastUse;
      if |pixmapCache| > 0 {
        if found != 0 {
          if found != end {
            pixmapCache := pixmapCache[..found] + pixmapCache[found + 1..];
          } else if |pixmapCache| == SIZE {
            pixmapCache := pixmapCache[..|pixmapCache| - 1];
          }
          pixmapCache := [pixmapHash] + pixmapCache;
        }
      } else {
        pixmapCache := [pixmapHash] + pixmapCache;
      }
      history := history + [pixmapHash];
      assert pixmapCache == Touch(old(pixmapCache), pixmapHash);
    }
  }

  // ---- the client's side

  class TileLayer<Image(!new)> {
    var pngCache: seq<Entry<Image>>

    constructor ()
      ensures pngCache == []
    {
      pngCache := [];
    }

    /** The image to show, if there is one. */
    method OnDialogPaint(m: Message<Image>) returns (img: Option<Image>)
      modifies this
      ensures img == Received(old(pngCache), m) && pngCache == Receive(old(pngCache), m)
    {
      img := if m.Png? then Some(m.img) else None;
      var i := 0;
      while i < |pngCache| && pngCache[i].hash != m.hash
        invariant i <= |pngCache|
        invariant forall j :: 0 <= j < i ==> pngCache[j].hash != m.hash
      {
        i := i + 1;
      }
      FirstIs(Hashes(pngCache), m.hash, i);
      hide IndexOf;
      if i < |pngCache| {
        if m.NoPng? {
          img := pngCache[i].img;
        }
        pngCache := pngCache[..i] + pngCache[i + 1..];
      }
      if |pngCache| == SIZE {
        pngCache := pngCache[..|pngCache| - 1];
      }
      pngCache := [Entry(m.hash, img)] + pngCache;
    }
  }
}
