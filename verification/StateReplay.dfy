/** What a session remembers for its client while the user is inactive, and the replay that
    brings the client up to date when the user becomes active again. */
module StateReplay {
  import opened Decimals
  import opened Options

  datatype Kind =
    | InvalidateTiles
    | InvalidateVisibleCursor | CursorVisible | TextSelection | TextSelectionStart | TextSelectionEnd
    | CellFormula | CellCursor | GraphicSelection | DocumentSizeChanged | InvalidateHeader
    | InvalidateSheetGeometry | CellAddress | ReferenceMarks
    | A11yFocusChanged | A11yCaretChanged | A11yTextSelectionChanged
    | InvalidateViewCursor | TextViewSelection | CellViewCursor | GraphicViewSelection
    | ViewCursorVisible | ViewLock
    | StateChanged
    | RedlineTableSizeChanged | RedlineTableEntryModified | Comment
    | UnoCommandResult
    | Other(id: int)

  predicate IsEvent(k: Kind) {
    || k.InvalidateVisibleCursor? || k.CursorVisible? || k.TextSelection? || k.TextSelectionStart?
    || k.TextSelectionEnd? || k.CellFormula? || k.CellCursor? || k.GraphicSelection?
    || k.DocumentSizeChanged? || k.InvalidateHeader? || k.InvalidateSheetGeometry? || k.CellAddress?
    || k.ReferenceMarks? || k.A11yFocusChanged? || k.A11yCaretChanged? || k.A11yTextSelectionChanged?
  }

  predicate IsViewEvent(k: Kind) {
    || k.InvalidateViewCursor? || k.TextViewSelection? || k.CellViewCursor? || k.GraphicViewSelection?
    || k.ViewCursorVisible? || k.ViewLock?
  }

  predicate IsLogged(k: Kind) {
    k.RedlineTableSizeChanged? || k.RedlineTableEntryModified? || k.Comment?
  }

  /** A callback's text, and the viewId its JSON carries if it is a view event. */
  datatype Payload = Payload(text: string, viewId: int)

  datatype RecordedEvent = RecordedEvent(kind: Kind, payload: Payload)

  function Get<K, V>(m: map<K, V>, k: K): Option<V> { if k in m then Some(m[k]) else None }

  predicate Contains(text: string, needle: string) {
    needle <= text || (text != "" && Contains(text[1..], needle))
  }

  /** The part of a state's text before the first '='. */
  function Name(text: string): string {
    if text == "" || text[0] == '=' then "" else [text[0]] + Name(text[1..])
  }

  /** Callbacks that reach an inactive client at once, whether remembered or not. */
  predicate PassesThrough(e: RecordedEvent) {
    || (e.kind.UnoCommandResult? && Contains(e.payload.text, ".uno:Save"))
    || Contains(e.payload.text, ".uno:ModifiedStatus")
  }

  /** The needle stands somewhere in the text. */
  lemma {:induction false} ContainsMeans(text: string, needle: string)
    ensures Contains(text, needle) <==> exists i :: 0 <= i <= |text| && needle <= text[i..]
  {
    assert text[0..] == text;
    if !(needle <= text) && text != "" {
      ContainsMeans(text[1..], needle);
      if i :| 0 <= i <= |text[1..]| && needle <= text[1..][i..] {
        assert text[i + 1..] == text[1..][i..];
      }
      if i :| 0 <= i <= |text| && needle <= text[i..] {
        assert text[1..][i - 1..] == text[i..];
      }
    }
  }

  /** Which callbacks are never held back: those that mention the modified status, and results
      of commands that mention saving. */
  lemma WhatPasses(e: RecordedEvent)
    ensures PassesThrough(e) <==>
      || (exists i :: 0 <= i <= |e.payload.text| && ".uno:ModifiedStatus" <= e.payload.text[i..])
      || (e.kind == UnoCommandResult && exists i :: 0 <= i <= |e.payload.text| && ".uno:Save" <= e.payload.text[i..])
  {
    ContainsMeans(e.payload.text, ".uno:ModifiedStatus");
    ContainsMeans(e.payload.text, ".uno:Save");
  }

  // ---- the client: the last value of every register, and everything logged, in order

  datatype Key = EventKey(kind: Kind) | ViewKey(viewId: int, kind: Kind) | StateKey(name: string)

  datatype Client = Client(registers: map<Key, RecordedEvent>, log: seq<RecordedEvent>, refresh: bool)

  function KeyOf(e: RecordedEvent): Option<Key> {
    if IsEvent(e.kind) then Some(EventKey(e.kind))
    else if IsViewEvent(e.kind) then Some(ViewKey(e.payload.viewId, e.kind))
    else if e.kind.StateChanged? && '=' in e.payload.text then Some(StateKey(Name(e.payload.text)))
    else None
  }

  function Deliver(c: Client, e: RecordedEvent): Client {
    match KeyOf(e)
    case Some(key) => c.(registers := c.registers[key := e])
    case None =>
      if IsLogged(e.kind) then c.(log := c.log + [e])
      else if e.kind.InvalidateTiles? then c.(refresh := true)
      else c
  }

  function DeliverAll(c: Client, s: seq<RecordedEvent>): Client {
    if s == [] then c else Deliver(DeliverAll(c, s[..|s| - 1]), s[|s| - 1])
  }

  // ---- the recorder as a value

  datatype Recorder = Recorder(
    invalidate: bool,
    states: map<string, Payload>,
    viewEvents: map<int, map<Kind, RecordedEvent>>,
    events: map<Kind, RecordedEvent>,
    sequence: seq<RecordedEvent>)

  const EMPTY := Recorder(false, map[], map[], map[], [])

  /** What a recorder will replay for a register. */
  function Lookup(r: Recorder, key: Key): Option<RecordedEvent> {
    match key
    case EventKey(k) => Get(r.events, k)
    case ViewKey(v, k) => if v in r.viewEvents then Get(r.viewEvents[v], k) else None
    case StateKey(n) => if n in r.states then Some(RecordedEvent(StateChanged, r.states[n])) else None
  }

  /** Every event is stored where its own key says. */
  ghost predicate InPlace(r: Recorder) {
    && (forall key :: Lookup(r, key).Some? ==> KeyOf(Lookup(r, key).value) == Some(key))
    && (forall e <- r.sequence :: IsLogged(e.kind))
  }

  function Remember(r: Recorder, e: RecordedEvent): Recorder {
    if e.kind.InvalidateTiles? then r.(invalidate := true)
    else if IsEvent(e.kind) then r.(events := r.events[e.kind := e])
    else if IsViewEvent(e.kind) then
      var v := e.payload.viewId;
      var perView := if v in r.viewEvents then r.viewEvents[v] else map[];
      r.(viewEvents := r.viewEvents[v := perView[e.kind := e]])
    else if e.kind.StateChanged? then
      if '=' in e.payload.text then r.(states := r.states[Name(e.payload.text) := e.payload]) else r
    else if IsLogged(e.kind) then r.(sequence := r.sequence + [e])
    else r
  }

  /** Remembering an event changes the one register the event is about. */
  lemma RememberLookup(r: Recorder, e: RecordedEvent, key: Key)
    ensures Lookup(Remember(r, e), key) == if KeyOf(e) == Some(key) then Some(e) else Lookup(r, key)
  {
  }

  /** Which callbacks are remembered at all: every one but command results, state changes without
      '=' and other kinds. */
  lemma WhatIsRemembered(e: RecordedEvent)
    ensures KeyOf(e).Some? || IsLogged(e.kind) || e.kind.InvalidateTiles?
       <==> !(e.kind.UnoCommandResult? || e.kind.Other? || (e.kind.StateChanged? && '=' !in e.payload.text))
  {
  }

  /** What is said about other views. */
  const ABOUT_OTHERS := {InvalidateViewCursor, TextViewSelection, CellViewCursor, GraphicViewSelection,
                         ViewCursorVisible, ViewLock}

  /** Which remembered callbacks a later one displaces: those of its kind, of its view if it is
      about another view, of its state if it is a state change; none if it is logged. */
  lemma WhatIsDisplaced(e: RecordedEvent, later: RecordedEvent)
    ensures KeyOf(e).Some? && KeyOf(e) == KeyOf(later) <==>
      && e.kind == later.kind
      && e.kind !in {InvalidateTiles, RedlineTableSizeChanged, RedlineTableEntryModified, Comment, UnoCommandResult}
      && !e.kind.Other?
      && (e.kind in ABOUT_OTHERS ==> e.payload.viewId == later.payload.viewId)
      && (e.kind.StateChanged? ==>
            '=' in e.payload.text && '=' in later.payload.text && Name(e.payload.text) == Name(later.payload.text))
  {
  }

  /** The name of a state is what stands before its first '='. */
  lemma {:induction false} NameEndsAtEquals(text: string)
    ensures '=' !in Name(text) && Name(text) <= text
    ensures '=' in text ==> |Name(text)| < |text| && text[|Name(text)|] == '='
    ensures '=' !in text ==> Name(text) == text
  {
    if text != "" && text[0] != '=' {
      NameEndsAtEquals(text[1..]);
      assert text == [text[0]] + text[1..];
    }
  }

  datatype Group = Views | Events | States

  function GroupOf(key: Key): Group {
    match key
    case EventKey(_) => Events
    case ViewKey(_, _) => Views
    case StateKey(_) => States
  }

  /** A list of everything recorded in one of the maps, each once, in some order. */
  ghost predicate Lists(r: Recorder, g: Group, s: seq<RecordedEvent>) {
    && (forall e <- s :: KeyOf(e).Some? && GroupOf(KeyOf(e).value) == g && Lookup(r, KeyOf(e).value) == Some(e))
    && (forall key :: GroupOf(key) == g && Lookup(r, key).Some? ==> Lookup(r, key).value in s)
    && (forall i, j :: 0 <= i < j < |s| ==> s[i] != s[j])
  }

  /** The same, of a map whose keys have been visited in part. */
  ghost predicate Listing(r: Recorder, g: Group, listed: set<Key>, s: seq<RecordedEvent>) {
    && (forall e <- s :: KeyOf(e).Some? && KeyOf(e).value in listed && Lookup(r, KeyOf(e).value) == Some(e))
    && (forall key <- listed :: GroupOf(key) == g && Lookup(r, key).Some? && Lookup(r, key).value in s)
    && (forall i, j :: 0 <= i < j < |s| ==> s[i] != s[j])
  }

  lemma ListNone(r: Recorder, g: Group)
    ensures Listing(r, g, {}, [])
  {
  }

  lemma ListMore(r: Recorder, g: Group, listed: set<Key>, s: seq<RecordedEvent>, key: Key)
    requires InPlace(r) && Listing(r, g, listed, s)
    requires key !in listed && GroupOf(key) == g && Lookup(r, key).Some?
    ensures Listing(r, g, listed + {key}, s + [Lookup(r, key).value])
  {
    var e := Lookup(r, key).value;
    assert KeyOf(e) == Some(key) && e !in s;
    hide KeyOf, Lookup, GroupOf, InPlace;
  }

  lemma ListAll(r: Recorder, g: Group, listed: set<Key>, s: seq<RecordedEvent>)
    requires Listing(r, g, listed, s)
    requires forall key :: GroupOf(key) == g && Lookup(r, key).Some? ==> key in listed
    ensures Lists(r, g, s)
  {
    hide KeyOf, Lookup, GroupOf;
  }

  lemma HasElement(s: set<int>)
    ensures s == {} || exists v :: v in s
  {
    if forall v :: v !in s {
      assert s == {};
    }
  }

  function WholePart(curPart: nat): RecordedEvent {
    RecordedEvent(InvalidateTiles, Payload("0, 0, 1000000000, 1000000000, " + Decimal(curPart), 0))
  }

  /** What the text is split into at every comma. */
  function Tokens(text: string, token: string): seq<string> {
    if text == "" then [token]
    else if text[0] == ',' then [token] + Tokens(text[1..], "")
    else Tokens(text[1..], token + [text[0]])
  }

  /** The number in a token, behind blanks. */
  function NumberIn(token: string): nat {
    if token != "" && token[0] == ' ' then NumberIn(token[1..]) else Value(token)
  }

  lemma {:induction false} TokensComma(a: string, rest: string, token: string)
    requires ',' !in a
    ensures Tokens(a + "," + rest, token) == [token + a] + Tokens(rest, "")
    decreases |a|
  {
    var text := a + "," + rest;
    if a == "" {
      assert text[1..] == rest && token + a == token;
    } else {
      assert text[1..] == a[1..] + "," + rest && (token + [a[0]]) + a[1..] == token + a;
      TokensComma(a[1..], rest, token + [a[0]]);
    }
  }

  lemma {:induction false} TokensEnd(a: string, token: string)
    requires ',' !in a
    ensures Tokens(a, token) == [token + a]
    decreases |a|
  {
    if a == "" {
      assert token + a == token;
    } else {
      assert (token + [a[0]]) + a[1..] == token + a;
      TokensEnd(a[1..], token + [a[0]]);
    }
  }

  lemma BlankBefore(digits: string)
    requires digits != "" && digits[0] != ' '
    ensures NumberIn(" " + digits) == Value(digits)
  {
    assert (" " + digits)[1..] == digits;
  }

  lemma Literals()
    ensures Value("0") == 0 && Value("1000000000") == 1_000_000_000
  {
    assert "0" == "" + ['0']; ValueMore("", '0');
    assert "1" == "" + ['1']; ValueMore("", '1');
    assert "10" == "1" + ['0']; ValueMore("1", '0');
    assert "100" == "10" + ['0']; ValueMore("10", '0');
    assert "1000" == "100" + ['0']; ValueMore("100", '0');
    assert "10000" == "1000" + ['0']; ValueMore("1000", '0');
    assert "100000" == "10000" + ['0']; ValueMore("10000", '0');
    assert "1000000" == "100000" + ['0']; ValueMore("100000", '0');
    assert "10000000" == "1000000" + ['0']; ValueMore("1000000", '0');
    assert "100000000" == "10000000" + ['0']; ValueMore("10000000", '0');
    assert "1000000000" == "100000000" + ['0']; ValueMore("100000000", '0');
  }

  lemma TokensFirst(a: string, rest: string)
    requires ',' !in a
    ensures Tokens(a, "") == [a] && Tokens(a + "," + rest, "") == [a] + Tokens(rest, "")
  {
    TokensComma(a, rest, "");
    TokensEnd(a, "");
    assert "" + a == a;
  }

  lemma FiveTokens(a: string, b: string, c: string, d: string, e: string)
    requires ',' !in a && ',' !in b && ',' !in c && ',' !in d && ',' !in e
    ensures Tokens(a + "," + (b + "," + (c + "," + (d + "," + e))), "") == [a, b, c, d, e]
  {
    hide Tokens;
    var four := d + "," + e;
    var three := c + "," + four;
    var two := b + "," + three;
    TokensFirst(a, two);
    TokensFirst(b, three);
    TokensFirst(c, four);
    TokensFirst(d, e);
    TokensFirst(e, "");
    assert [a] + ([b] + ([c] + ([d] + [e]))) == [a, b, c, d, e];
  }

  lemma WholePartText(curPart: nat)
    ensures WholePart(curPart).payload.text
         == "0" + "," + (" 0" + "," + (" 1000000000" + "," + (" 1000000000" + "," + (" " + Decimal(curPart)))))
  {
    hide Decimal;
    assert "0, 0, 1000000000, 1000000000, "
        == "0" + "," + (" 0" + "," + (" 1000000000" + "," + (" 1000000000" + "," + " ")));
  }

  /** The refresh that is replayed reads as the whole plane of the current part: x, y, width,
      height and part. */
  lemma WholePartReads(curPart: nat)
    ensures var tokens := Tokens(WholePart(curPart).payload.text, "");
      && |tokens| == 5
      && NumberIn(tokens[0]) == 0 && NumberIn(tokens[1]) == 0
      && NumberIn(tokens[2]) == NumberIn(tokens[3]) == 1_000_000_000
      && NumberIn(tokens[4]) == curPart
  {
    var part := Decimal(curPart);
    ValueOfDecimal(curPart);
    WholePartText(curPart);
    Literals();
    assert part[0] in part;
    hide Decimal, WholePart, Tokens, Value;
    FiveTokens("0", " 0", " 1000000000", " 1000000000", " " + part);
    BlankBefore(part);
    BlankBefore("0");
    BlankBefore("1000000000");
    assert NumberIn("0") == Value("0");
    assert " " + "0" == " 0" && " " + "1000000000" == " 1000000000";
  }

  function Replay(r: Recorder, curPart: nat,
                  views: seq<RecordedEvent>, events: seq<RecordedEvent>, states: seq<RecordedEvent>)
    : seq<RecordedEvent>
  {
    (if r.invalidate then [WholePart(curPart)] else []) + views + events + states + r.sequence
  }

  // ---- what delivering a replay does

  lemma DeliverOne(c: Client, e: RecordedEvent)
    ensures DeliverAll(c, [e]) == Deliver(c, e)
  {
    assert [e][..0] == [];
  }

  /** An event either sets one register or is logged or asks for a refresh, if anything. */
  lemma DeliverEffect(c: Client, e: RecordedEvent)
    ensures forall key :: Get(Deliver(c, e).registers, key)
              == if KeyOf(e) == Some(key) then Some(e) else Get(c.registers, key)
    ensures Deliver(c, e).log == c.log + if IsLogged(e.kind) then [e] else []
    ensures Deliver(c, e).refresh == (c.refresh || e.kind.InvalidateTiles?)
  {
    assert IsLogged(e.kind) || e.kind.InvalidateTiles? ==> KeyOf(e) == None;
  }

  lemma RememberEffect(r: Recorder, e: RecordedEvent)
    requires InPlace(r)
    ensures InPlace(Remember(r, e))
    ensures forall key :: Lookup(Remember(r, e), key) == if KeyOf(e) == Some(key) then Some(e) else Lookup(r, key)
    ensures Remember(r, e).sequence == r.sequence + if IsLogged(e.kind) then [e] else []
    ensures Remember(r, e).invalidate == (r.invalidate || e.kind.InvalidateTiles?)
  {
    forall key ensures Lookup(Remember(r, e), key) == if KeyOf(e) == Some(key) then Some(e) else Lookup(r, key) {
      RememberLookup(r, e, key);
    }
    assert IsLogged(e.kind) || e.kind.InvalidateTiles? ==> KeyOf(e) == None;
    hide KeyOf, Lookup;
  }

  lemma {:induction false} DeliverConcat(c: Client, a: seq<RecordedEvent>, b: seq<RecordedEvent>)
    ensures DeliverAll(c, a + b) == DeliverAll(DeliverAll(c, a), b)
  {
    hide Deliver;
    if b == [] {
      assert a + b == a;
    } else {
      DeliverConcat(c, a, b[..|b| - 1]);
      assert (a + b)[..|a + b| - 1] == a + b[..|b| - 1];
    }
  }

  /** Registers are last-value: listing a map in any order sets every register it holds. */
  lemma {:induction false} DeliverListed(c: Client, r: Recorder, s: seq<RecordedEvent>)
    requires forall e <- s :: KeyOf(e).Some? && Lookup(r, KeyOf(e).value) == Some(e)
    ensures var d := DeliverAll(c, s);
      && d.log == c.log && d.refresh == c.refresh
      && forall key :: Get(d.registers, key)
           == if Lookup(r, key).Some? && Lookup(r, key).value in s && KeyOf(Lookup(r, key).value) == Some(key)
              then Lookup(r, key) else Get(c.registers, key)
  {
    hide KeyOf, Lookup;
    if s != [] {
      var front, last := s[..|s| - 1], s[|s| - 1];
      assert s == front + [last];
      DeliverListed(c, r, front);
    }
  }

  lemma {:induction false} DeliverLogged(c: Client, s: seq<RecordedEvent>)
    requires forall e <- s :: IsLogged(e.kind)
    ensures DeliverAll(c, s) == c.(log := c.log + s)
  {
    if s != [] {
      var front, last := s[..|s| - 1], s[|s| - 1];
      assert s == front + [last];
      DeliverLogged(c, front);
      assert c.log + s == (c.log + front) + [last];
    }
  }

  /** What the client shows once the recorder has been replayed. */
  ghost predicate CatchesUp(c: Client, r: Recorder, d: Client) {
    && d.log == c.log + r.sequence
    && d.refresh == (c.refresh || r.invalidate)
    && forall key :: Get(d.registers, key) == if Lookup(r, key).Some? then Lookup(r, key) else Get(c.registers, key)
  }

  lemma RefreshFirst(c: Client, r: Recorder, curPart: nat)
    ensures DeliverAll(c, if r.invalidate then [WholePart(curPart)] else []) == c.(refresh := c.refresh || r.invalidate)
  {
    hide Decimal;
    DeliverOne(c, WholePart(curPart));
  }

  lemma AllListed(r: Recorder, views: seq<RecordedEvent>, events: seq<RecordedEvent>, states: seq<RecordedEvent>)
    requires Lists(r, Views, views) && Lists(r, Events, events) && Lists(r, States, states)
    ensures var all := views + events + states;
      && (forall e <- all :: KeyOf(e).Some? && Lookup(r, KeyOf(e).value) == Some(e))
      && (forall key :: Lookup(r, key).Some? ==> Lookup(r, key).value in all)
  {
    hide KeyOf, Lookup;
    forall key | Lookup(r, key).Some? ensures Lookup(r, key).value in views + events + states {
      assert GroupOf(key) in {Views, Events, States};
    }
  }

  lemma ReplayCatchesUp(c: Client, r: Recorder, curPart: nat,
                        views: seq<RecordedEvent>, events: seq<RecordedEvent>, states: seq<RecordedEvent>)
    requires InPlace(r) && Lists(r, Views, views) && Lists(r, Events, events) && Lists(r, States, states)
    ensures CatchesUp(c, r, DeliverAll(c, Replay(r, curPart, views, events, states)))
  {
    var first := if r.invalidate then [WholePart(curPart)] else [];
    var c1 := DeliverAll(c, first);
    RefreshFirst(c, r, curPart);
    var all := views + events + states;
    AllListed(r, views, events, states);
    assert Replay(r, curPart, views, events, states) == first + (all + r.sequence);
    hide KeyOf, Deliver, DeliverAll, Lookup, Lists, Replay, WholePart;
    DeliverConcat(c, first, all + r.sequence);
    DeliverConcat(c1, all, r.sequence);
    DeliverListed(c1, r, all);
    DeliverLogged(DeliverAll(c1, all), r.sequence);
  }

  // ---- runs of a session, beside a client that never goes inactive

  datatype Step =
    | Callback(e: RecordedEvent)
    | UserInactive
    | UserActive(curPart: nat, views: seq<RecordedEvent>, events: seq<RecordedEvent>, states: seq<RecordedEvent>)

  datatype World = World(active: bool, recorder: Recorder, client: Client, live: Client)

  ghost predicate Enabled(w: World, s: Step) {
    s.UserActive? ==>
      && Lists(w.recorder, Views, s.views)
      && Lists(w.recorder, Events, s.events)
      && Lists(w.recorder, States, s.states)
  }

  function Next(w: World, s: Step): World {
    match s
    case Callback(e) =>
      if w.active then w.(client := Deliver(w.client, e), live := Deliver(w.live, e))
      else w.(recorder := Remember(w.recorder, e),
              client := if PassesThrough(e) then Deliver(w.client, e) else w.client,
              live := Deliver(w.live, e))
    case UserInactive => w.(active := false)
    case UserActive(curPart, views, events, states) =>
      w.(active := true, recorder := EMPTY,
         client := DeliverAll(w.client, Replay(w.recorder, curPart, views, events, states)))
  }

  ghost predicate EnabledRun(w: World, steps: seq<Step>)
    decreases |steps|
  {
    steps == [] || (Enabled(w, steps[0]) && EnabledRun(Next(w, steps[0]), steps[1..]))
  }

  function Run(w: World, steps: seq<Step>): World
    decreases |steps|
  {
    if steps == [] then w else Run(Next(w, steps[0]), steps[1..])
  }

  /** Whether a logged event passes through while the user is inactive: then it is both
      delivered and remembered. */
  predicate Doubles(active: bool, s: Step) {
    !active && s.Callback? && IsLogged(s.e.kind) && PassesThrough(s.e)
  }

  predicate NoneDoubled(active: bool, steps: seq<Step>)
    decreases |steps|
  {
    steps == [] || (!Doubles(active, steps[0])
                    && NoneDoubled(if steps[0].Callback? then active else steps[0].UserActive?, steps[1..]))
  }

  /** Replaying now would give the client what live delivery gave the other one, up to the
      log if some event was doubled. */
  ghost predicate Inv(w: World, doubled: bool) {
    && InPlace(w.recorder)
    && (w.active ==> w.recorder == EMPTY)
    && (forall key :: Get(w.live.registers, key)
          == if Lookup(w.recorder, key).Some? then Lookup(w.recorder, key) else Get(w.client.registers, key))
    && w.live.refresh == (w.client.refresh || w.recorder.invalidate)
    && (if doubled then |w.client.log| + |w.recorder.sequence| > |w.live.log|
        else w.client.log + w.recorder.sequence == w.live.log)
  }

  lemma ActiveCallbackKeepsInv(w: World, doubled: bool, e: RecordedEvent)
    requires Inv(w, doubled) && w.active
    ensures Inv(Next(w, Callback(e)), doubled)
  {
    DeliverEffect(w.client, e);
    DeliverEffect(w.live, e);
    hide KeyOf, Deliver, InPlace, IsLogged;
  }

  lemma InactiveCallbackKeepsInv(w: World, doubled: bool, e: RecordedEvent)
    requires Inv(w, doubled) && !w.active
    ensures Inv(Next(w, Callback(e)), doubled || Doubles(w.active, Callback(e)))
  {
    DeliverEffect(w.client, e);
    DeliverEffect(w.live, e);
    RememberEffect(w.recorder, e);
    hide KeyOf, Lookup, Deliver, Remember, PassesThrough, InPlace, IsLogged;
    var log := if IsLogged(e.kind) then [e] else [];
    assert w.client.log + (w.recorder.sequence + log) == (w.client.log + w.recorder.sequence) + log;
  }

  lemma ActiveKeepsInv(w: World, doubled: bool, s: Step)
    requires Inv(w, doubled) && s.UserActive? && Enabled(w, s)
    ensures Inv(Next(w, s), doubled)
  {
    ReplayCatchesUp(w.client, w.recorder, s.curPart, s.views, s.events, s.states);
    hide Lists, DeliverAll, Replay, KeyOf;
  }

  lemma {:induction false} RunKeepsInv(w: World, doubled: bool, steps: seq<Step>)
    requires Inv(w, doubled) && EnabledRun(w, steps)
    ensures Inv(Run(w, steps), doubled || !NoneDoubled(w.active, steps))
    decreases |steps|
  {
    if steps != [] {
      var s := steps[0];
      assert Next(w, s).active == if s.Callback? then w.active else s.UserActive?;
      assert Inv(Next(w, s), doubled || Doubles(w.active, s)) by {
        match s {
          case Callback(e) =>
            if w.active {
              ActiveCallbackKeepsInv(w, doubled, e);
            } else {
              InactiveCallbackKeepsInv(w, doubled, e);
            }
          case UserInactive =>
          case UserActive(_, _, _, _) => ActiveKeepsInv(w, doubled, s);
        }
      }
      hide Inv, Next, Doubles, Enabled;
      RunKeepsInv(Next(w, s), doubled || Doubles(w.active, s), steps[1..]);
    }
  }

  /** Over any number of inactive spells, once the user is active again, every register shows
      what live delivery of all remembered callbacks would have left there, and tiles were
      invalidated if they would have been. The log is the same exactly if no logged event
      that arrived during an inactive spell passed through. */
  lemma ReplayMatchesLive(c: Client, steps: seq<Step>)
    requires EnabledRun(World(true, EMPTY, c, c), steps)
    ensures var w := Run(World(true, EMPTY, c, c), steps);
      w.active ==>
        && w.client.registers == w.live.registers
        && w.client.refresh == w.live.refresh
        && (w.client.log == w.live.log <==> NoneDoubled(true, steps))
  {
    var start := World(true, EMPTY, c, c);
    assert Inv(start, false) by {
      assert c.log + [] == c.log;
    }
    RunKeepsInv(start, false, steps);
    var w := Run(start, steps);
    hide Run, EnabledRun, NoneDoubled;
    if w.active {
      assert forall key :: Get(w.live.registers, key) == Get(w.client.registers, key);
      SameMap(w.client.registers, w.live.registers);
    }
  }

  lemma SameMap(a: map<Key, RecordedEvent>, b: map<Key, RecordedEvent>)
    requires forall key :: Get(b, key) == Get(a, key)
    ensures a == b
  {
    forall key: Key ensures key in a <==> key in b {
      assert Get(b, key) == Get(a, key);
    }
    forall key | key in a ensures a[key] == b[key] {
      assert Get(b, key) == Get(a, key);
    }
  }

  lemma NothingListed(r: Recorder, g: Group)
    requires r.states == map[] && r.viewEvents == map[] && r.events == map[]
    ensures Lists(r, g, [])
  {
  }

  /** Any logged event that passes through an inactive session is shown twice. */
  lemma LoggedShownTwice(e: RecordedEvent)
    requires IsLogged(e.kind) && PassesThrough(e)
    ensures var start := World(true, EMPTY, Client(map[], [], false), Client(map[], [], false));
      var steps := [UserInactive, Callback(e), UserActive(0, [], [], [])];
      && EnabledRun(start, steps)
      && Run(start, steps).client.log == [e, e]
      && Run(start, steps).live.log == [e]
  {
    var start := World(true, EMPTY, Client(map[], [], false), Client(map[], [], false));
    var last := UserActive(0, [], [], []);
    var one := Client(map[], [e], false);
    var w := World(false, EMPTY.(sequence := [e]), one, one);
    assert KeyOf(e) == None;
    hide PassesThrough, KeyOf;
    assert Next(start.(active := false), Callback(e)) == w;
    assert Next(w, last).client.log == [e, e] by {
      assert Replay(w.recorder, 0, [], [], []) == [e];
      DeliverOne(one, e);
      hide DeliverAll, WholePart;
    }
    assert Enabled(w, last) by {
      NothingListed(w.recorder, Views);
      NothingListed(w.recorder, Events);
      NothingListed(w.recorder, States);
      hide Lists;
    }
    hide Next, Enabled, Remember;
    RunStep(w, last, []);
    RunStep(start.(active := false), Callback(e), [last]);
    RunStep(start, UserInactive, [Callback(e)] + [last]);
    assert [UserInactive, Callback(e), last] == [UserInactive] + ([Callback(e)] + [last]);
  }

  /** Such as a comment that names the modified status. */
  lemma CommentPassesThrough()
    ensures var e := RecordedEvent(Comment, Payload(".uno:ModifiedStatus", 0)); IsLogged(e.kind) && PassesThrough(e)
  {
    ContainsItself(".uno:ModifiedStatus");
    hide Contains;
  }

  lemma ContainsItself(text: string)
    ensures Contains(text, text)
  {
  }

  lemma RunStep(w: World, s: Step, rest: seq<Step>)
    requires Enabled(w, s) && EnabledRun(Next(w, s), rest)
    ensures EnabledRun(w, [s] + rest) && Run(w, [s] + rest) == Run(Next(w, s), rest)
  {
    hide Enabled, Next;
    assert ([s] + rest)[1..] == rest;
  }

  /** What goes to a client: the views, told to each client in its own words, a part, or the
      message of a callback. */
  datatype Frame =
    | ViewInfo(client: string, views: string)
    | CurPart(part: nat)
    | SetPart(part: nat)
    | Delivered(event: RecordedEvent)

  function Frames(s: seq<RecordedEvent>): (frames: seq<Frame>)
    ensures |frames| == |s| && forall i :: 0 <= i < |s| ==> frames[i] == Delivered(s[i])
  {
    seq(|s|, i requires 0 <= i < |s| => Delivered(s[i]))
  }

  // ---- the session

  class StateRecorder {
    var invalidate: bool
    var recordedStates: map<string, Payload>
    var recordedViewEvents: map<int, map<Kind, RecordedEvent>>
    var recordedEvents: map<Kind, RecordedEvent>
    var recordedEventsVector: seq<RecordedEvent>

    function Value(): Recorder
      reads this
    {
      Recorder(invalidate, recordedStates, recordedViewEvents, recordedEvents, recordedEventsVector)
    }

    constructor ()
      ensures Value() == EMPTY
    {
      invalidate, recordedEventsVector := false, [];
      recordedStates, recordedViewEvents, recordedEvents := map[], map[], map[];
    }

    method RecordInvalidate()
      modifies this
      ensures Value() == old(Value()).(invalidate := true)
    {
      invalidate := true;
    }

    method RecordEvent(kind: Kind, payload: Payload)
      modifies this
      ensures Value() == old(Value()).(events := old(recordedEvents)[kind := RecordedEvent(kind, payload)])
    {
      recordedEvents := recordedEvents[kind := RecordedEvent(kind, payload)];
    }

    method RecordViewEvent(viewId: int, kind: Kind, payload: Payload)
      modifies this
      ensures var perView := if viewId in old(recordedViewEvents) then old(recordedViewEvents)[viewId] else map[];
        var after := perView[kind := RecordedEvent(kind, payload)];
        Value() == old(Value()).(viewEvents := old(recordedViewEvents)[viewId := after])
    {
      if viewId !in recordedViewEvents {
        recordedViewEvents := recordedViewEvents[viewId := map[]];
      }
      var perView := recordedViewEvents[viewId][kind := RecordedEvent(kind, payload)];
      recordedViewEvents := recordedViewEvents[viewId := perView];
    }

    method RecordState(name: string, value: Payload)
      modifies this
      ensures Value() == old(Value()).(states := old(recordedStates)[name := value])
    {
      recordedStates := recordedStates[name := value];
    }

    method RecordEventSequence(kind: Kind, payload: Payload)
      modifies this
      ensures Value() == old(Value()).(sequence := old(recordedEventsVector) + [RecordedEvent(kind, payload)])
    {
      recordedEventsVector := recordedEventsVector + [RecordedEvent(kind, payload)];
    }

    method Clear()
      modifies this
      ensures Value() == EMPTY
    {
      invalidate := false;
      recordedEvents := map[];
      recordedViewEvents := map[];
      recordedStates := map[];
      recordedEventsVector := [];
    }
  }

  /** What a session sends to its client, in order, are the out-parameters. */
  class ChildSession {
    const stateRecorder: StateRecorder
    var isActive: bool

    constructor ()
      ensures isActive && fresh(stateRecorder) && stateRecorder.Value() == EMPTY
    {
      stateRecorder := new StateRecorder();
      isActive := true;
    }

    method RememberEventsForInactiveUser(kind: Kind, payload: Payload)
      modifies stateRecorder
      ensures stateRecorder.Value() == Remember(old(stateRecorder.Value()), RecordedEvent(kind, payload))
    {
      if kind.InvalidateTiles? {
        stateRecorder.RecordInvalidate();
      } else if IsEvent(kind) {
        stateRecorder.RecordEvent(kind, payload);
      } else if IsViewEvent(kind) {
        stateRecorder.RecordViewEvent(payload.viewId, kind, payload);
      } else if kind.StateChanged? {
        if '=' in payload.text {
          stateRecorder.RecordState(Name(payload.text), payload);
        }
      } else if IsLogged(kind) {
        stateRecorder.RecordEventSequence(kind, payload);
      }
    }

    /** One callback: what Next says of the recorder, and of what reaches the client. */
    method LoKitCallback(e: RecordedEvent) returns (sent: seq<RecordedEvent>)
      modifies stateRecorder
      ensures forall c, l ::
        var w := World(isActive, old(stateRecorder.Value()), c, l);
        Next(w, Callback(e)).recorder == stateRecorder.Value() && Next(w, Callback(e)).client == DeliverAll(c, sent)
    {
      hide Contains, Name;
      if !isActive {
        RememberEventsForInactiveUser(e.kind, e.payload);
        if !e.kind.UnoCommandResult? || !Contains(e.payload.text, ".uno:Save") {
          if !Contains(e.payload.text, ".uno:ModifiedStatus") {
            return [];
          }
        }
      }
      sent := [e];
      assert sent[..0] == [];
    }

    method SetInactive()
      modifies this`isActive
      ensures !isActive
    {
      isActive := false;
    }

    /** Everything sent when the user becomes active: the views to every client, the current
        part of a document that has parts, then the replay. */
    method UserActive(isText: bool, part: nat, viewInfo: seq<Frame>)
      returns (sent: seq<Frame>, ghost views: seq<RecordedEvent>, ghost events: seq<RecordedEvent>,
               ghost states: seq<RecordedEvent>)
      requires InPlace(stateRecorder.Value()) && forall f <- viewInfo :: f.ViewInfo?
      modifies this`isActive, stateRecorder
      ensures isActive && stateRecorder.Value() == EMPTY
      ensures Lists(old(stateRecorder.Value()), Views, views)
      ensures Lists(old(stateRecorder.Value()), Events, events)
      ensures Lists(old(stateRecorder.Value()), States, states)
      ensures sent == viewInfo + (if isText then [] else [CurPart(part), SetPart(part)])
                      + Frames(Replay(old(stateRecorder.Value()), if isText then 0 else part, views, events, states))
    {
      isActive := true;
      var curPart := 0;
      if !isText {
        curPart := part;
      }
      sent := viewInfo;
      if !isText {
        sent := sent + [CurPart(curPart), SetPart(curPart)];
      }
      var invalidate := if stateRecorder.invalidate then [WholePart(curPart)] else [];
      var v := ViewEvents();
      var e := PlainEvents();
      var s := StateEvents();
      hide Lists;
      sent := sent + Frames(invalidate + v + e + s + stateRecorder.recordedEventsVector);
      views, events, states := v, e, s;
      stateRecorder.Clear();
    }

    method PlainEvents() returns (sent: seq<RecordedEvent>)
      requires InPlace(stateRecorder.Value())
      ensures Lists(stateRecorder.Value(), Events, sent)
    {
      sent := [];
      var m := stateRecorder.recordedEvents;
      ghost var r := stateRecorder.Value();
      ghost var listed: set<Key> := {};
      var left := m.Keys;
      hide InPlace, Lists, Listing;
      ListNone(r, Events);
      while left != {}
        invariant left <= m.Keys
        invariant Listing(r, Events, listed, sent)
        invariant forall k :: EventKey(k) in listed <==> k in m && k !in left
        decreases left
      {
        var k :| k in left;
        ListMore(r, Events, listed, sent, EventKey(k));
        sent := sent + [m[k]];
        left, listed := left - {k}, listed + {EventKey(k)};
      }
      ListAll(r, Events, listed, sent);
    }

    method StateEvents() returns (sent: seq<RecordedEvent>)
      requires InPlace(stateRecorder.Value())
      ensures Lists(stateRecorder.Value(), States, sent)
    {
      sent := [];
      var m := stateRecorder.recordedStates;
      ghost var r := stateRecorder.Value();
      ghost var listed: set<Key> := {};
      var left := m.Keys;
      hide InPlace, Lists, Listing;
      ListNone(r, States);
      while left != {}
        invariant left <= m.Keys
        invariant Listing(r, States, listed, sent)
        invariant forall n :: StateKey(n) in listed <==> n in m && n !in left
        decreases left
      {
        var n :| n in left;
        ListMore(r, States, listed, sent, StateKey(n));
        sent := sent + [RecordedEvent(StateChanged, m[n])];
        left, listed := left - {n}, listed + {StateKey(n)};
      }
      ListAll(r, States, listed, sent);
    }

    method ViewEvents() returns (sent: seq<RecordedEvent>)
      requires InPlace(stateRecorder.Value())
      ensures Lists(stateRecorder.Value(), Views, sent)
    {
      sent := [];
      var m := stateRecorder.recordedViewEvents;
      ghost var r := stateRecorder.Value();
      ghost var listed: set<Key> := {};
      var left := m.Keys;
      hide InPlace, Lists, Listing;
      ListNone(r, Views);
      while left != {}
        invariant left <= m.Keys
        invariant Listing(r, Views, listed, sent)
        invariant forall v, k :: ViewKey(v, k) in listed <==> v in m && k in m[v] && v !in left
        decreases left
      {
        HasElement(left);
        var v :| v in left;
        var events, kinds := m[v], m[v].Keys;
        while kinds != {}
          invariant kinds <= events.Keys
          invariant Listing(r, Views, listed, sent)
          invariant forall w, k ::
            ViewKey(w, k) in listed <==> w in m && k in m[w] && (w !in left || (w == v && k !in kinds))
          decreases kinds
        {
          var k :| k in kinds;
          ListMore(r, Views, listed, sent, ViewKey(v, k));
          sent := sent + [events[k]];
          kinds, listed := kinds - {k}, listed + {ViewKey(v, k)};
        }
        left := left - {v};
      }
      ListAll(r, Views, listed, sent);
    }
  }
}
