/** SpookyHash V2: the mixing functions, on 64-bit words that wrap around. */
module SpookyMix {
  import opened Words64
  import opened Rotations

  const NUM_VARS := 12
  const BLOCK_SIZE := 96          // bytes
  const BUF_SIZE := 192
  const CONST: bv64 := 0xdead_beef_dead_beef

  type State = s: seq<bv64> | |s| == NUM_VARS witness seq(NUM_VARS, _ => 0)
  type Block = b: seq<bv8> | |b| == BLOCK_SIZE witness seq(BLOCK_SIZE, _ => 0)

  /** A 64-bit word from 8 bytes, least significant first. */
  function Word(bytes: seq<bv8>): bv64
    decreases |bytes|
  {
    if bytes == [] then 0 else (Word(bytes[1..]) << 8) | (bytes[0] as bv64)
  }

  function BlockWord(block: Block, i: nat): bv64
    requires i < NUM_VARS
  {
    Word(block[8 * i..8 * i + 8])
  }

  // ---- in-place updates of the state words

  function AddTo(s: State, i: nat, v: bv64): State
    requires i < NUM_VARS
  {
    s[i := Plus(s[i], v)]
  }

  function XorTo(s: State, i: nat, v: bv64): State
    requires i < NUM_VARS
  {
    s[i := Xor(s[i], v)]
  }

  function RotIn(s: State, i: nat, k: Distance): State
    requires i < NUM_VARS
  {
    s[i := Rot64(s[i], k)]
  }

  /** Word number j after word i, around the state. */
  function After(i: nat, j: nat): (n: nat)
    ensures n < NUM_VARS
  {
    (i + j) % NUM_VARS
  }

  const MIX_ROT: seq<Distance> := [11, 32, 43, 31, 17, 28, 39, 57, 55, 54, 22, 46]
  const END_ROT: seq<Distance> := [44, 15, 34, 21, 38, 33, 10, 13, 38, 53, 42, 54]

  /** One of the twelve lines of Mix: absorbs one word of data. */
  function MixLine(s: State, i: nat, word: bv64): State
    requires i < NUM_VARS
  {
    Stir(AddTo(s, i, word), i)
  }

  /** The line without its word of data. */
  function Stir(s1: State, i: nat): State
    requires i < NUM_VARS
  {
    var s2 := XorTo(s1, After(i, 2), s1[After(i, 10)]);
    var s3 := XorTo(s2, After(i, 11), s2[i]);
    var s4 := RotIn(s3, i, MIX_ROT[i]);
    AddTo(s4, After(i, 11), s4[After(i, 1)])
  }

  function MixLines(s: State, block: Block, n: nat): State
    requires n <= NUM_VARS
  {
    if n == 0 then s else MixLine(MixLines(s, block, n - 1), n - 1, BlockWord(block, n - 1))
  }

  function Mix(s: State, block: Block): State {
    MixLines(s, block, NUM_VARS)
  }

  // ---- mixing loses nothing

  /** Two states that agree but for one word. */
  lemma OneWord(s: State, t: State, i: nat)
    requires i < NUM_VARS && s[i] == t[i] && forall k :: 0 <= k < NUM_VARS && k != i ==> s[k] == t[k]
    ensures s == t
  {
  }

  lemma AddToInjective(s: State, t: State, i: nat, j: nat)
    requires i < NUM_VARS && j < NUM_VARS && i != j && AddTo(s, i, s[j]) == AddTo(t, i, t[j])
    ensures s == t
  {
    hide Plus;
    var u := AddTo(s, i, s[j]);
    assert forall k :: 0 <= k < NUM_VARS && k != i ==> s[k] == u[k] && t[k] == u[k];
    assert u[i] == Plus(s[i], s[j]) && u[i] == Plus(t[i], t[j]);
    hide AddTo;
    AddInjective(s[i], t[i], s[j]);
    OneWord(s, t, i);
  }

  lemma XorToInjective(s: State, t: State, i: nat, j: nat)
    requires i < NUM_VARS && j < NUM_VARS && i != j && XorTo(s, i, s[j]) == XorTo(t, i, t[j])
    ensures s == t
  {
    hide Xor;
    var u := XorTo(s, i, s[j]);
    assert forall k :: 0 <= k < NUM_VARS && k != i ==> s[k] == u[k] && t[k] == u[k];
    assert u[i] == Xor(s[i], s[j]) && u[i] == Xor(t[i], t[j]);
    hide XorTo;
    XorInjective(s[i], t[i], s[j]);
    OneWord(s, t, i);
  }

  lemma AddWordInjective(s: State, t: State, i: nat, word: bv64)
    requires i < NUM_VARS && AddTo(s, i, word) == AddTo(t, i, word)
    ensures s == t
  {
    hide Plus;
    var u := AddTo(s, i, word);
    assert forall k :: 0 <= k < NUM_VARS && k != i ==> s[k] == u[k] && t[k] == u[k];
    assert u[i] == Plus(s[i], word) && u[i] == Plus(t[i], word);
    hide AddTo;
    AddInjective(s[i], t[i], word);
    OneWord(s, t, i);
  }

  lemma RotInInjective(s: State, t: State, i: nat, k: Distance)
    requires i < NUM_VARS && RotIn(s, i, k) == RotIn(t, i, k)
    ensures s == t
  {
    hide Rot64;
    assert forall j :: 0 <= j < NUM_VARS && j != i ==> s[j] == RotIn(s, i, k)[j] == t[j];
    assert Rot64(s[i], k) == RotIn(s, i, k)[i] == Rot64(t[i], k);
    RotInjective(s[i], t[i], k);
  }

  lemma StirInjective(s1: State, t1: State, i: nat)
    requires i < NUM_VARS && Stir(s1, i) == Stir(t1, i)
    ensures s1 == t1
  {
    assert After(i, 11) != After(i, 1) && After(i, 11) != i && After(i, 2) != After(i, 10);
    hide AddTo, XorTo, RotIn, Rot64, After;
    var s2, t2 := XorTo(s1, After(i, 2), s1[After(i, 10)]), XorTo(t1, After(i, 2), t1[After(i, 10)]);
    var s3, t3 := XorTo(s2, After(i, 11), s2[i]), XorTo(t2, After(i, 11), t2[i]);
    var s4, t4 := RotIn(s3, i, MIX_ROT[i]), RotIn(t3, i, MIX_ROT[i]);
    AddToInjective(s4, t4, After(i, 11), After(i, 1));
    RotInInjective(s3, t3, i, MIX_ROT[i]);
    XorToInjective(s2, t2, After(i, 11), i);
    XorToInjective(s1, t1, After(i, 2), After(i, 10));
  }

  /** A line keeps different states apart, and different words. */
  lemma MixLineMatters(s: State, t: State, i: nat, v: bv64, w: bv64)
    requires i < NUM_VARS && MixLine(s, i, v) == MixLine(t, i, w)
    ensures v == w ==> s == t
    ensures s == t ==> v == w
  {
    StirInjective(AddTo(s, i, v), AddTo(t, i, w), i);
    hide Stir, Plus;
    if v == w {
      AddWordInjective(s, t, i, v);
    } else if s == t {
      assert Plus(s[i], v) == AddTo(s, i, v)[i] == Plus(s[i], w);
      PlusCancels(s[i], v, w);
    }
  }

  lemma {:induction false} MixLinesInjective(s: State, t: State, block: Block, n: nat)
    requires n <= NUM_VARS && MixLines(s, block, n) == MixLines(t, block, n)
    ensures s == t
  {
    hide MixLine;
    if n > 0 {
      var word := BlockWord(block, n - 1);
      MixLineMatters(MixLines(s, block, n - 1), MixLines(t, block, n - 1), n - 1, word, word);
      MixLinesInjective(s, t, block, n - 1);
    }
  }

  /** Mixing in a block never makes two different states equal. */
  lemma MixInjective(s: State, t: State, block: Block)
    requires Mix(s, block) == Mix(t, block)
    ensures s == t
  {
    MixLinesInjective(s, t, block, NUM_VARS);
  }

  /** Nor does it make two blocks equal that differ in one word of data. */
  lemma {:induction false} MixWordMatters(s: State, a: Block, b: Block, k: nat, n: nat)
    requires n <= NUM_VARS && k < n && BlockWord(a, k) != BlockWord(b, k)
    requires forall j :: 0 <= j < NUM_VARS && j != k ==> BlockWord(a, j) == BlockWord(b, j)
    ensures MixLines(s, a, n) != MixLines(s, b, n)
  {
    hide MixLine, BlockWord;
    var s1, t1 := MixLines(s, a, n - 1), MixLines(s, b, n - 1);
    if MixLines(s, a, n) == MixLines(s, b, n) {
      MixLineMatters(s1, t1, n - 1, BlockWord(a, n - 1), BlockWord(b, n - 1));
      if k < n - 1 {
        MixWordMatters(s, a, b, k, n - 1);
      } else {
        SameWordsBefore(s, a, b, n - 1);
      }
    }
  }

  lemma {:induction false} SameWordsBefore(s: State, a: Block, b: Block, n: nat)
    requires n <= NUM_VARS && forall j :: 0 <= j < n ==> BlockWord(a, j) == BlockWord(b, j)
    ensures MixLines(s, a, n) == MixLines(s, b, n)
  {
    hide MixLine, BlockWord;
    if n > 0 {
      SameWordsBefore(s, a, b, n - 1);
    }
  }

  /** One of the twelve lines of EndPartial. */
  function EndLine(s: State, i: nat): State
    requires i < NUM_VARS
  {
    var s1 := AddTo(s, After(i, 11), s[After(i, 1)]);
    var s2 := XorTo(s1, After(i, 2), s1[After(i, 11)]);
    RotIn(s2, After(i, 1), END_ROT[i])
  }

  function EndLines(s: State, n: nat): State
    requires n <= NUM_VARS
  {
    if n == 0 then s else EndLine(EndLines(s, n - 1), n - 1)
  }

  function EndPartial(s: State): State { EndLines(s, NUM_VARS) }

  function AddBlock(s: State, block: Block, n: nat): State
    requires n <= NUM_VARS
  {
    if n == 0 then s else AddTo(AddBlock(s, block, n - 1), n - 1, BlockWord(block, n - 1))
  }

  /** The state a long message ends in. Its first two words are the hash. */
  function LastState(s: State, block: Block): State {
    EndPartial(EndPartial(EndPartial(AddBlock(s, block, NUM_VARS))))
  }

  function End(s: State, block: Block): (bv64, bv64) {
    var done := LastState(s, block);
    (done[0], done[1])
  }

  // ---- the end loses nothing

  lemma EndLineInjective(s: State, t: State, i: nat)
    requires i < NUM_VARS && EndLine(s, i) == EndLine(t, i)
    ensures s == t
  {
    hide AddTo, XorTo, RotIn;
    var s1, t1 := AddTo(s, After(i, 11), s[After(i, 1)]), AddTo(t, After(i, 11), t[After(i, 1)]);
    var s2, t2 := XorTo(s1, After(i, 2), s1[After(i, 11)]), XorTo(t1, After(i, 2), t1[After(i, 11)]);
    RotInInjective(s2, t2, After(i, 1), END_ROT[i]);
    XorToInjective(s1, t1, After(i, 2), After(i, 11));
    AddToInjective(s, t, After(i, 11), After(i, 1));
  }

  lemma {:induction false} EndLinesInjective(s: State, t: State, n: nat)
    requires n <= NUM_VARS && EndLines(s, n) == EndLines(t, n)
    ensures s == t
  {
    hide EndLine;
    if n > 0 {
      EndLineInjective(EndLines(s, n - 1), EndLines(t, n - 1), n - 1);
      EndLinesInjective(s, t, n - 1);
    }
  }

  lemma {:induction false} AddBlockInjective(s: State, t: State, block: Block, n: nat)
    requires n <= NUM_VARS && AddBlock(s, block, n) == AddBlock(t, block, n)
    ensures s == t
  {
    hide AddTo, BlockWord;
    if n > 0 {
      var word := BlockWord(block, n - 1);
      AddWordInjective(AddBlock(s, block, n - 1), AddBlock(t, block, n - 1), n - 1, word);
      AddBlockInjective(s, t, block, n - 1);
    }
  }

  /** Each of the first n words of a block is added to its own word of the state. */
  lemma {:induction false} AddBlockAt(s: State, block: Block, n: nat, k: nat)
    requires n <= NUM_VARS && k < NUM_VARS
    ensures AddBlock(s, block, n)[k] == if k < n then Plus(s[k], BlockWord(block, k)) else s[k]
  {
    hide Plus, BlockWord;
    if n > 0 {
      AddBlockAt(s, block, n - 1, k);
    }
  }

  lemma AddBlockKeepsApart(s: State, a: Block, b: Block)
    requires AddBlock(s, a, NUM_VARS) == AddBlock(s, b, NUM_VARS)
    ensures a == b
  {
    hide AddBlock, Plus, BlockWord;
    forall k | 0 <= k < NUM_VARS ensures BlockWord(a, k) == BlockWord(b, k) {
      AddBlockAt(s, a, NUM_VARS, k);
      AddBlockAt(s, b, NUM_VARS, k);
      PlusCancels(s[k], BlockWord(a, k), BlockWord(b, k));
    }
    BlockFromWords(a, b);
  }

  lemma EndPartialsInjective(s: State, t: State)
    requires EndPartial(EndPartial(EndPartial(s))) == EndPartial(EndPartial(EndPartial(t)))
    ensures s == t
  {
    hide EndLines;
    EndLinesInjective(EndPartial(EndPartial(s)), EndPartial(EndPartial(t)), NUM_VARS);
    EndLinesInjective(EndPartial(s), EndPartial(t), NUM_VARS);
    EndLinesInjective(s, t, NUM_VARS);
  }

  /** Behind equal states, different last blocks never end in the same state ... */
  lemma LastBlockMatters(s: State, a: Block, b: Block)
    requires LastState(s, a) == LastState(s, b)
    ensures a == b
  {
    hide AddBlock, EndPartial;
    EndPartialsInjective(AddBlock(s, a, NUM_VARS), AddBlock(s, b, NUM_VARS));
    AddBlockKeepsApart(s, a, b);
  }

  /** ... nor do different states in front of equal last blocks. */
  lemma StateBeforeMatters(s: State, t: State, block: Block)
    requires LastState(s, block) == LastState(t, block)
    ensures s == t
  {
    hide AddBlock, EndPartial;
    EndPartialsInjective(AddBlock(s, block, NUM_VARS), AddBlock(t, block, NUM_VARS));
    AddBlockInjective(s, t, block, NUM_VARS);
  }

  // ---- bytes and words

  /** One more than the largest word of so many bytes. */
  const LIMIT: seq<bv64> :=
    [1, 0x100, 0x1_0000, 0x100_0000, 0x1_0000_0000, 0x100_0000_0000, 0x1_0000_0000_0000, 0x100_0000_0000_0000]

  function Shift(w: bv64, b: bv8): bv64 { (w << 8) | (b as bv64) }

  lemma ShiftLimit(w: bv64, b: bv8, n: nat)
    requires n < 7 && w < LIMIT[n]
    ensures Shift(w, b) < LIMIT[n + 1]
  {
    if n == 0 {} else if n == 1 {} else if n == 2 {} else if n == 3 {} else if n == 4 {} else if n == 5 {} else {}
  }

  lemma ShiftInjective(v: bv64, b: bv8, w: bv64, c: bv8)
    requires v < 0x100_0000_0000_0000 && w < 0x100_0000_0000_0000 && Shift(v, b) == Shift(w, c)
    ensures v == w && b == c
  {
  }

  lemma WordOfNothing()
    ensures Word([]) < LIMIT[0]
  {
  }

  lemma WordFirst(bytes: seq<bv8>)
    requires bytes != []
    ensures Word(bytes) == Shift(Word(bytes[1..]), bytes[0])
  {
  }

  lemma {:induction false} WordLimit(bytes: seq<bv8>)
    requires |bytes| <= 7
    ensures Word(bytes) < LIMIT[|bytes|]
    decreases |bytes|
  {
    hide Word, Shift;
    if bytes == [] {
      WordOfNothing();
    } else {
      WordFirst(bytes);
      WordLimit(bytes[1..]);
      ShiftLimit(Word(bytes[1..]), bytes[0], |bytes| - 1);
    }
  }

  lemma LimitsGrow(n: nat)
    requires n <= 7
    ensures LIMIT[n] <= 0x100_0000_0000_0000
  {
  }

  /** A word has all its bytes. */
  lemma {:induction false} WordInjective(a: seq<bv8>, b: seq<bv8>)
    requires |a| == |b| <= 8 && Word(a) == Word(b)
    ensures a == b
    decreases |a|
  {
    if a != [] {
      WordLimit(a[1..]);
      WordLimit(b[1..]);
      LimitsGrow(|a| - 1);
      WordFirst(a);
      WordFirst(b);
      hide Word, Shift;
      ShiftInjective(Word(a[1..]), a[0], Word(b[1..]), b[0]);
      WordInjective(a[1..], b[1..]);
      assert a == [a[0]] + a[1..] && b == [b[0]] + b[1..];
    }
  }

  lemma BlockFromWords(a: Block, b: Block)
    requires forall k :: 0 <= k < NUM_VARS ==> BlockWord(a, k) == BlockWord(b, k)
    ensures a == b
  {
    hide Word;
    forall i | 0 <= i < BLOCK_SIZE ensures a[i] == b[i] {
      var k := i / 8;
      assert BlockWord(a, k) == BlockWord(b, k);
      WordInjective(a[8 * k..8 * k + 8], b[8 * k..8 * k + 8]);
      assert a[i] == a[8 * k..8 * k + 8][i % 8] && b[i] == b[8 * k..8 * k + 8][i % 8];
    }
  }

  // ---- the short form

  datatype Short4 = Short4(a: bv64, b: bv64, c: bv64, d: bv64) {
    /** The words renamed, so that the next line of a round works on the same names. */
    function Turned(): Short4 { Short4(b, c, d, a) }
  }

  const SHORT_MIX_ROT: seq<Distance> := [50, 52, 30, 41, 54, 48, 38, 37, 62, 34, 5, 36]
  const SHORT_END_ROT: seq<Distance> := [15, 52, 26, 51, 28, 9, 47, 54, 32, 25, 63]

  /** One of the twelve lines of ShortMix: rotates a word, adds the next and folds the sum into
      the one after. */
  function ShortMixLine(s: Short4, k: Distance): Short4 {
    var c := Plus(Rot64(s.c, k), s.d);
    Short4(Xor(s.a, c), s.b, c, s.d).Turned()
  }

  function ShortMixLines(s: Short4, n: nat): Short4
    requires n <= 12
  {
    if n == 0 then s else ShortMixLine(ShortMixLines(s, n - 1), SHORT_MIX_ROT[n - 1])
  }

  function ShortMix(s: Short4): Short4 { ShortMixLines(s, 12) }

  /** One of the eleven lines of ShortEnd. */
  function ShortEndLine(s: Short4, k: Distance): Short4 {
    var c := Rot64(s.c, k);
    Short4(s.a, s.b, c, Plus(Xor(s.d, s.c), c)).Turned()
  }

  function ShortEndLines(s: Short4, n: nat): Short4
    requires n <= 11
  {
    if n == 0 then s else ShortEndLine(ShortEndLines(s, n - 1), SHORT_END_ROT[n - 1])
  }

  /** After eleven lines one more turn gives the words their names back. */
  function ShortEnd(s: Short4): Short4 { ShortEndLines(s, 11).Turned() }

  /** The two words of sixteen bytes. */
  function TwoWords(bytes: seq<bv8>): (bv64, bv64)
    requires |bytes| >= 16
  {
    (Word(bytes[..8]), Word(bytes[8..16]))
  }

  /** Two words added to the first two or to the last two words of the state. */
  function AddFirst(s: Short4, w: (bv64, bv64)): Short4 { s.(a := Plus(s.a, w.0), b := Plus(s.b, w.1)) }
  function AddLast(s: Short4, w: (bv64, bv64)): Short4 { s.(c := Plus(s.c, w.0), d := Plus(s.d, w.1)) }

  /** A complete set of 32 bytes. */
  function ShortSet(s: Short4, bytes: seq<bv8>): Short4
    requires |bytes| >= 32
  {
    AddFirst(ShortMix(AddLast(s, TwoWords(bytes))), TwoWords(bytes[16..]))
  }

  /** The bytes behind all complete sets: sixteen more, if there are so many, then the length
      of the message and the last 0 to 15. */
  function ShortRest(s: Short4, rest: seq<bv8>, length: bv64): Short4
    requires |rest| < 32
  {
    if |rest| >= 16 then ShortTail(ShortMix(AddLast(s, TwoWords(rest))), rest[16..], length)
    else ShortTail(s, rest, length)
  }

  /** The first eight of the last bytes go into c, the others into d. */
  function TailWords(tail: seq<bv8>): (bv64, bv64)
    requires |tail| < 16
  {
    if tail == [] then (CONST, CONST)
    else if |tail| <= 8 then (Word(tail), 0)
    else (Word(tail[..8]), Word(tail[8..]))
  }

  function ShortTail(s: Short4, tail: seq<bv8>, length: bv64): Short4
    requires |tail| < 16
  {
    AddLast(AddLast(s, (0, length << 56)), TailWords(tail))
  }

  /** All complete sets, then the rest. */
  function ShortSets(s: Short4, message: seq<bv8>, length: bv64): Short4
    decreases |message|
  {
    if |message| < 32 then ShortRest(s, message, length)
    else ShortSets(ShortSet(s, message), message[32..], length)
  }

  /** The lowest byte of a length. */
  function LengthByte(n: nat): bv8 { (n % 0x100) as bv8 }

  /** That byte as a word: it is all that the shift by 56 leaves of a length. */
  function LengthWord(n: nat): bv64 { LengthByte(n) as bv64 }

  /** The state a short message ends in. Its first two words are the hash. */
  function ShortState(message: seq<bv8>, seed1: bv64, seed2: bv64): Short4 {
    ShortEnd(ShortSets(Short4(seed1, seed2, CONST, CONST), message, LengthWord(|message|)))
  }

  function Short(message: seq<bv8>, seed1: bv64, seed2: bv64): (bv64, bv64) {
    var done := ShortState(message, seed1, seed2);
    (done.a, done.b)
  }

  // ---- the short form loses nothing

  lemma TurnInjective(x: bv64, y: bv64, k: Distance, v: bv64)
    requires Plus(Rot64(x, k), v) == Plus(Rot64(y, k), v)
    ensures x == y
  {
    hide Plus, Rot64;
    AddInjective(Rot64(x, k), Rot64(y, k), v);
    RotInjective(x, y, k);
  }

  lemma ShortMixLineInjective(s: Short4, t: Short4, k: Distance)
    requires ShortMixLine(s, k) == ShortMixLine(t, k)
    ensures s == t
  {
    hide Plus, Xor, Rot64;
    TurnInjective(s.c, t.c, k, s.d);
    XorInjective(s.a, t.a, Plus(Rot64(s.c, k), s.d));
  }

  lemma {:induction false} ShortMixInjective(s: Short4, t: Short4, n: nat)
    requires n <= 12 && ShortMixLines(s, n) == ShortMixLines(t, n)
    ensures s == t
  {
    hide ShortMixLine;
    if n > 0 {
      ShortMixLineInjective(ShortMixLines(s, n - 1), ShortMixLines(t, n - 1), SHORT_MIX_ROT[n - 1]);
      ShortMixInjective(s, t, n - 1);
    }
  }

  lemma ShortEndLineInjective(s: Short4, t: Short4, k: Distance)
    requires ShortEndLine(s, k) == ShortEndLine(t, k)
    ensures s == t
  {
    hide Plus, Xor, Rot64;
    RotInjective(s.c, t.c, k);
    AddInjective(Xor(s.d, s.c), Xor(t.d, t.c), Rot64(s.c, k));
    XorInjective(s.d, t.d, s.c);
  }

  lemma {:induction false} ShortEndInjective(s: Short4, t: Short4, n: nat)
    requires n <= 11 && ShortEndLines(s, n) == ShortEndLines(t, n)
    ensures s == t
  {
    hide ShortEndLine;
    if n > 0 {
      ShortEndLineInjective(ShortEndLines(s, n - 1), ShortEndLines(t, n - 1), SHORT_END_ROT[n - 1]);
      ShortEndInjective(s, t, n - 1);
    }
  }

  lemma AddLastMatters(s: Short4, t: Short4, v: (bv64, bv64), w: (bv64, bv64))
    requires AddLast(s, v) == AddLast(t, w)
    ensures s == t <==> v == w
  {
    hide Plus;
    if v == w {
      AddInjective(s.c, t.c, v.0);
      AddInjective(s.d, t.d, v.1);
    }
    if s == t {
      PlusCancels(s.c, v.0, w.0);
      PlusCancels(s.d, v.1, w.1);
    }
  }

  lemma AddFirstMatters(s: Short4, t: Short4, v: (bv64, bv64), w: (bv64, bv64))
    requires AddFirst(s, v) == AddFirst(t, w)
    ensures s == t <==> v == w
  {
    hide Plus;
    if v == w {
      AddInjective(s.a, t.a, v.0);
      AddInjective(s.b, t.b, v.1);
    }
    if s == t {
      PlusCancels(s.a, v.0, w.0);
      PlusCancels(s.b, v.1, w.1);
    }
  }

  lemma TwoWordsMatter(a: seq<bv8>, b: seq<bv8>)
    requires |a| >= 16 && |b| >= 16
    ensures TwoWords(a) == TwoWords(b) <==> a[..16] == b[..16]
  {
    hide Word;
    assert a[..16] == a[..8] + a[8..16] && b[..16] == b[..8] + b[8..16];
    if TwoWords(a) == TwoWords(b) {
      WordInjective(a[..8], b[..8]);
      WordInjective(a[8..16], b[8..16]);
    }
    if a[..16] == b[..16] {
      assert a[..8] == a[..16][..8] && b[..8] == b[..16][..8];
      assert a[8..16] == a[..16][8..] && b[8..16] == b[..16][8..];
    }
  }

  lemma TailWordsMatter(a: seq<bv8>, b: seq<bv8>)
    requires |a| == |b| < 16 && TailWords(a) == TailWords(b)
    ensures a == b
  {
    hide Word;
    if 0 < |a| <= 8 {
      WordInjective(a, b);
    } else if |a| > 8 {
      WordInjective(a[..8], b[..8]);
      WordInjective(a[8..], b[8..]);
      assert a == a[..8] + a[8..] && b == b[..8] + b[8..];
    }
  }

  lemma ShortTailMatters(s: Short4, t: Short4, a: seq<bv8>, b: seq<bv8>, length: bv64)
    requires |a| == |b| < 16 && ShortTail(s, a, length) == ShortTail(t, b, length)
    ensures s == t <==> a == b
  {
    hide AddLast, TailWords;
    AddLastMatters(AddLast(s, (0, length << 56)), AddLast(t, (0, length << 56)), TailWords(a), TailWords(b));
    if a == b {
      AddLastMatters(s, t, (0, length << 56), (0, length << 56));
    } else if s == t {
      TailWordsMatter(a, b);
    }
  }

  // ---- every byte of a short message matters

  /** The two messages differ in the piece of sixteen bytes at p, or in the tail there, and
      nowhere else. */
  predicate OnePiece(a: seq<bv8>, b: seq<bv8>, p: nat) {
    && |a| == |b| && a != b && p % 16 == 0 && p < |a|
    && a[..p] == b[..p]
    && (p + 16 <= |a| ==> a[p + 16..] == b[p + 16..])
  }

  /** Sixteen bytes mixed in, one more piece behind them: if one of three things differs, the
      result does. */
  lemma ShortSetMatters(s: Short4, t: Short4, a: seq<bv8>, b: seq<bv8>)
    requires |a| >= 32 && |b| >= 32 && ShortSet(s, a) == ShortSet(t, b)
    ensures a[16..32] == b[16..32] ==> (s == t <==> a[..16] == b[..16])
    ensures s == t && a[..16] == b[..16] ==> a[16..32] == b[16..32]
  {
    hide AddLast, AddFirst, TwoWords, ShortMixLines;
    var s1, t1 := AddLast(s, TwoWords(a)), AddLast(t, TwoWords(b));
    assert a[16..][..16] == a[16..32] && b[16..][..16] == b[16..32];
    AddFirstMatters(ShortMix(s1), ShortMix(t1), TwoWords(a[16..]), TwoWords(b[16..]));
    TwoWordsMatter(a[16..], b[16..]);
    TwoWordsMatter(a, b);
    if a[16..32] == b[16..32] {
      ShortMixInjective(s1, t1, 12);
      AddLastMatters(s, t, TwoWords(a), TwoWords(b));
    }
  }

  lemma ShortRestMatters(s: Short4, t: Short4, a: seq<bv8>, b: seq<bv8>, length: bv64)
    requires |a| == |b| < 32 && ShortRest(s, a, length) == ShortRest(t, b, length)
    ensures |a| < 16 ==> (s == t <==> a == b)
    ensures |a| >= 16 && a[16..] == b[16..] ==> (s == t <==> a[..16] == b[..16])
    ensures |a| >= 16 && s == t && a[..16] == b[..16] ==> a[16..] == b[16..]
  {
    hide AddLast, TwoWords, ShortMixLines, ShortTail;
    if |a| < 16 {
      ShortTailMatters(s, t, a, b, length);
    } else {
      var s1, t1 := AddLast(s, TwoWords(a)), AddLast(t, TwoWords(b));
      ShortTailMatters(ShortMix(s1), ShortMix(t1), a[16..], b[16..], length);
      TwoWordsMatter(a, b);
      if a[16..] == b[16..] {
        ShortMixInjective(s1, t1, 12);
        AddLastMatters(s, t, TwoWords(a), TwoWords(b));
      }
    }
  }

  /** Different states stay different, whatever the rest of the message. */
  lemma {:induction false} ShortSetsInjective(s: Short4, t: Short4, message: seq<bv8>, length: bv64)
    requires ShortSets(s, message, length) == ShortSets(t, message, length)
    ensures s == t
    decreases |message|
  {
    hide ShortSet, ShortRest;
    if |message| < 32 {
      ShortRestMatters(s, t, message, message, length);
    } else {
      ShortSetsInjective(ShortSet(s, message), ShortSet(t, message), message[32..], length);
      ShortSetMatters(s, t, message, message);
    }
  }

  lemma {:induction false} OnePieceMatters(s: Short4, a: seq<bv8>, b: seq<bv8>, p: nat, length: bv64)
    requires OnePiece(a, b, p)
    ensures ShortSets(s, a, length) != ShortSets(s, b, length)
    decreases |a|
  {
    hide ShortSet, ShortRest;
    if ShortSets(s, a, length) == ShortSets(s, b, length) {
      if |a| < 32 {
        ShortRestMatters(s, s, a, b, length);
        PieceOfRest(a, b, p);
      } else if p < 32 {
        PieceOfSet(a, b, p);
        ShortSetsInjective(ShortSet(s, a), ShortSet(s, b), a[32..], length);
        ShortSetMatters(s, s, a, b);
      } else {
        assert a[..32] == a[..p][..32] && b[..32] == b[..p][..32];
        PieceBehind(a, b, p);
        SetsAlike(s, a, b);
        OnePieceMatters(ShortSet(s, a), a[32..], b[32..], p - 32, length);
      }
    }
  }

  lemma SetsAlike(s: Short4, a: seq<bv8>, b: seq<bv8>)
    requires |a| >= 32 && |b| >= 32 && a[..32] == b[..32]
    ensures ShortSet(s, a) == ShortSet(s, b)
  {
    hide AddLast, AddFirst, TwoWords, ShortMixLines;
    assert a[..16] == a[..32][..16] && b[..16] == b[..32][..16];
    assert a[16..][..16] == a[..32][16..] && b[16..][..16] == b[..32][16..];
    TwoWordsMatter(a, b);
    TwoWordsMatter(a[16..], b[16..]);
  }

  lemma PieceBehind(a: seq<bv8>, b: seq<bv8>, p: nat)
    requires OnePiece(a, b, p) && p >= 32
    ensures OnePiece(a[32..], b[32..], p - 32)
  {
    assert a == a[..32] + a[32..] && b == b[..32] + b[32..];
    assert a[..32] == a[..p][..32] && b[..32] == b[..p][..32];
    assert a[32..][..p - 32] == a[..p][32..] && b[32..][..p - 32] == b[..p][32..];
    if p + 16 <= |a| {
      assert a[32..][p - 16..] == a[p + 16..] && b[32..][p - 16..] == b[p + 16..];
    }
  }

  lemma PieceOfSet(a: seq<bv8>, b: seq<bv8>, p: nat)
    requires OnePiece(a, b, p) && p < 32 <= |a|
    ensures a[32..] == b[32..]
    ensures if p == 0 then a[..16] != b[..16] && a[16..32] == b[16..32]
            else a[..16] == b[..16] && a[16..32] != b[16..32]
  {
    assert p == 0 || p == 16;
    assert a == a[..16] + a[16..32] + a[32..] && b == b[..16] + b[16..32] + b[32..];
    if p == 0 {
      assert a[16..32] == a[16..][..16] && b[16..32] == b[16..][..16];
      assert a[32..] == a[16..][16..] && b[32..] == b[16..][16..];
    }
  }

  lemma PieceOfRest(a: seq<bv8>, b: seq<bv8>, p: nat)
    requires OnePiece(a, b, p) && |a| < 32
    ensures |a| >= 16 ==> if p == 0 then a[..16] != b[..16] && a[16..] == b[16..]
                          else a[..16] == b[..16] && a[16..] != b[16..]
  {
    if |a| >= 16 {
      assert p == 0 || p == 16;
      assert a == a[..16] + a[16..] && b == b[..16] + b[16..];
    }
  }

  lemma EndsApart(s: Short4, t: Short4)
    requires ShortEnd(s) == ShortEnd(t)
    ensures s == t
  {
    hide ShortEndLines;
    ShortEndInjective(s, t, 11);
  }

  /** Short messages of one length that differ in one piece of sixteen bytes, or in the tail,
      never end in the same state. */
  lemma ShortPieceMatters(a: seq<bv8>, b: seq<bv8>, p: nat, seed1: bv64, seed2: bv64)
    requires OnePiece(a, b, p) && |a| < BUF_SIZE
    ensures ShortState(a, seed1, seed2) != ShortState(b, seed1, seed2)
  {
    hide ShortSets, ShortEnd, LengthWord;
    var s, length := Short4(seed1, seed2, CONST, CONST), LengthWord(|a|);
    OnePieceMatters(s, a, b, p, length);
    if ShortState(a, seed1, seed2) == ShortState(b, seed1, seed2) {
      EndsApart(ShortSets(s, a, length), ShortSets(s, b, length));
    }
  }

  /** Nor does one short message under different seeds. */
  lemma ShortSeedsMatter(a: seq<bv8>, s1: bv64, s2: bv64, t1: bv64, t2: bv64)
    requires |a| < BUF_SIZE && (s1, s2) != (t1, t2)
    ensures ShortState(a, s1, s2) != ShortState(a, t1, t2)
  {
    hide ShortSets, ShortEnd, LengthWord;
    var s, t, length := Short4(s1, s2, CONST, CONST), Short4(t1, t2, CONST, CONST), LengthWord(|a|);
    if ShortState(a, s1, s2) == ShortState(a, t1, t2) {
      EndsApart(ShortSets(s, a, length), ShortSets(t, a, length));
      ShortSetsInjective(s, t, a, length);
    }
  }

  // ---- the length matters

  function Zeros(n: nat): (z: seq<bv8>)
    ensures |z| == n
  {
    seq(n, _ => 0)
  }

  lemma TopByte(m: bv8, n: bv8)
    requires (m as bv64) << 56 == (n as bv64) << 56
    ensures m == n
  {
  }

  function NumberOf(b: bv8): int { b as int }

  lemma LengthBack(n: nat)
    requires n < 0x100
    ensures NumberOf(LengthByte(n)) == n
  {
  }

  lemma LengthByteInjective(m: nat, n: nat)
    requires m < 0x100 && n < 0x100 && LengthByte(m) == LengthByte(n)
    ensures m == n
  {
    hide LengthByte, NumberOf;
    LengthBack(m);
    LengthBack(n);
  }

  lemma LengthsApart(m: nat, n: nat)
    requires m < 0x100 && n < 0x100 && LengthWord(m) << 56 == LengthWord(n) << 56
    ensures m == n
  {
    hide LengthByte;
    TopByte(LengthByte(m), LengthByte(n));
    LengthByteInjective(m, n);
  }

  lemma {:induction false} WordOfZeros(n: nat)
    requires n <= 8
    ensures Word(Zeros(n)) == 0
  {
    if n > 0 {
      WordFirst(Zeros(n));
      assert Zeros(n)[1..] == Zeros(n - 1);
      hide Word;
      WordOfZeros(n - 1);
    } else {
      assert Zeros(0) == [];
    }
  }

  lemma {:induction false} WordPadded(a: seq<bv8>, n: nat)
    requires |a| + n <= 8
    ensures Word(a + Zeros(n)) == Word(a)
    decreases |a|
  {
    if a == [] {
      assert a + Zeros(n) == Zeros(n);
      WordOfZeros(n);
    } else {
      assert (a + Zeros(n))[1..] == a[1..] + Zeros(n);
      WordFirst(a);
      WordFirst(a + Zeros(n));
      hide Word, Shift;
      WordPadded(a[1..], n);
    }
  }

  lemma TailPadded(a: seq<bv8>, n: nat)
    requires 0 < |a| && |a| + n < 16
    ensures TailWords(a + Zeros(n)) == TailWords(a)
  {
    var all := a + Zeros(n);
    if |all| <= 8 {
      WordPadded(a, n);
    } else if |a| <= 8 {
      WordPadded(a, 8 - |a|);
      assert all[..8] == a + Zeros(8 - |a|) && all[8..] == Zeros(|all| - 8);
      WordOfZeros(|all| - 8);
    } else {
      WordPadded(a[8..], n);
      assert all[..8] == a[..8] && all[8..] == a[8..] + Zeros(n);
    }
  }

  lemma TailLengthMatters(s: Short4, a: seq<bv8>, n: nat, m: bv64, m': bv64)
    requires 0 < |a| && |a| + n < 16 && m << 56 != m' << 56
    ensures ShortTail(s, a, m) != ShortTail(s, a + Zeros(n), m')
  {
    TailPadded(a, n);
    hide AddLast, TailWords, Zeros;
    if ShortTail(s, a, m) == ShortTail(s, a + Zeros(n), m') {
      var w := TailWords(a);
      AddLastMatters(AddLast(s, (0, m << 56)), AddLast(s, (0, m' << 56)), w, w);
      AddLastMatters(s, s, (0, m << 56), (0, m' << 56));
    }
  }

  lemma {:induction false} SetsLengthMatters(s: Short4, a: seq<bv8>, n: nat, m: bv64, m': bv64)
    requires 0 < |a| % 16 && |a| % 16 + n < 16 && m << 56 != m' << 56
    ensures ShortSets(s, a, m) != ShortSets(s, a + Zeros(n), m')
    decreases |a|
  {
    hide ShortSet, ShortTail, Zeros, AddLast, TwoWords, ShortMixLines;
    var all := a + Zeros(n);
    if |a| >= 32 {
      assert all[..32] == a[..32] && all[32..] == a[32..] + Zeros(n);
      SetsAlike(s, a, all);
      SetsLengthMatters(ShortSet(s, a), a[32..], n, m, m');
    } else if |a| >= 16 {
      assert all[..16] == a[..16] && all[16..] == a[16..] + Zeros(n);
      TwoWordsMatter(a, all);
      TailLengthMatters(ShortMix(AddLast(s, TwoWords(a))), a[16..], n, m, m');
    } else {
      TailLengthMatters(s, a, n, m, m');
    }
  }

  /** Zeros behind a short message change the state it ends in, although they change no word. */
  lemma ShortLengthMatters(a: seq<bv8>, n: nat, seed1: bv64, seed2: bv64)
    requires 0 < |a| % 16 && 0 < n && |a| % 16 + n < 16 && |a| + n < BUF_SIZE
    ensures ShortState(a, seed1, seed2) != ShortState(a + Zeros(n), seed1, seed2)
  {
    hide ShortSets, ShortEnd, LengthWord, Zeros;
    var s, m, m' := Short4(seed1, seed2, CONST, CONST), LengthWord(|a|), LengthWord(|a| + n);
    if m << 56 == m' << 56 {
      LengthsApart(|a|, |a| + n);
    }
    SetsLengthMatters(s, a, n, m, m');
    if ShortState(a, seed1, seed2) == ShortState(a + Zeros(n), seed1, seed2) {
      EndsApart(ShortSets(s, a, m), ShortSets(s, a + Zeros(n), m'));
    }
  }
}
