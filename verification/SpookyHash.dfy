/** SpookyHash V2: hashing a message piece by piece gives the hash of the whole message.

    Nothing here depends on how blocks are mixed: the streaming class and the one-shot hash
    are parameterised by the mixing functions, and SpookyMix supplies the real ones. */
module SpookyHash {
  import opened Arithmetic
  import opened SpookyMix

  type Bytes = seq<bv8>

  datatype Hash = Hash(hash1: bv64, hash2: bv64)

  /** The three ways Spooky stirs its input. */
  datatype Kernel = Kernel(
    short: (Bytes, bv64, bv64) -> Hash,
    mix: (State, Block) -> State,
    end: (State, Block) -> Hash)

  function Spooky(): Kernel {
    Kernel((message: Bytes, seed1: bv64, seed2: bv64) =>
             if |message| < BUF_SIZE then var h := Short(message, seed1, seed2); Hash(h.0, h.1) else Hash(0, 0),
           Mix,
           (s: State, block: Block) => var h := End(s, block); Hash(h.0, h.1))
  }

  // ---- the one-shot hash

  /** The twelve state words a long message starts from. */
  function Seeded(seed1: bv64, seed2: bv64): State {
    [seed1, seed2, CONST, seed1, seed2, CONST, seed1, seed2, CONST, seed1, seed2, CONST]
  }

  /** Mixing in all whole blocks of some bytes. */
  function Absorb(k: Kernel, s: State, bytes: Bytes): State
    decreases |bytes|
  {
    if |bytes| < BLOCK_SIZE then s else Absorb(k, k.mix(s, bytes[..BLOCK_SIZE]), bytes[BLOCK_SIZE..])
  }

  /** The last partial block: padded with zeros, its length in the last byte. */
  function LastBlock(rest: Bytes): Block
    requires |rest| < BLOCK_SIZE
  {
    rest + seq(BLOCK_SIZE - 1 - |rest|, _ => 0) + [LengthByte(|rest|)]
  }

  function OneShot(k: Kernel, message: Bytes, seed1: bv64, seed2: bv64): Hash {
    if |message| < BUF_SIZE then k.short(message, seed1, seed2)
    else
      var whole := Whole(|message|);
      k.end(Absorb(k, Seeded(seed1, seed2), message[..whole]), LastBlock(message[whole..]))
  }

  lemma {:induction false} AbsorbAppend(k: Kernel, s: State, a: Bytes, b: Bytes)
    requires |a| % BLOCK_SIZE == 0
    ensures Absorb(k, s, a + b) == Absorb(k, Absorb(k, s, a), b)
    decreases |a|
  {
    if a == [] {
      assert a + b == b;
    } else {
      assert (a + b)[..BLOCK_SIZE] == a[..BLOCK_SIZE] && (a + b)[BLOCK_SIZE..] == a[BLOCK_SIZE..] + b;
      AbsorbAppend(k, k.mix(s, a[..BLOCK_SIZE]), a[BLOCK_SIZE..], b);
    }
  }

  /** Whatever is absorbed with Spooky's own mixing, different states stay different. */
  lemma {:induction false} AbsorbInjective(s: State, t: State, bytes: Bytes)
    requires Absorb(Spooky(), s, bytes) == Absorb(Spooky(), t, bytes)
    ensures s == t
    decreases |bytes|
  {
    hide Mix;
    if |bytes| >= BLOCK_SIZE {
      var block := bytes[..BLOCK_SIZE];
      AbsorbInjective(Spooky().mix(s, block), Spooky().mix(t, block), bytes[BLOCK_SIZE..]);
      assert Mix(s, block) == Mix(t, block);
      MixInjective(s, t, block);
    }
  }

  /** So a long message of whole blocks leaves different states for different seeds. */
  lemma SeedsStayApart(bytes: Bytes, a1: bv64, a2: bv64, b1: bv64, b2: bv64)
    requires (a1, a2) != (b1, b2)
    ensures Absorb(Spooky(), Seeded(a1, a2), bytes) != Absorb(Spooky(), Seeded(b1, b2), bytes)
  {
    assert Seeded(a1, a2)[0] == a1 && Seeded(a1, a2)[1] == a2;
    assert Seeded(b1, b2)[0] == b1 && Seeded(b1, b2)[1] == b2;
    hide Spooky, Seeded;
    if Absorb(Spooky(), Seeded(a1, a2), bytes) == Absorb(Spooky(), Seeded(b1, b2), bytes) {
      AbsorbInjective(Seeded(a1, a2), Seeded(b1, b2), bytes);
    }
  }

  lemma LastBlockInjective(a: Bytes, b: Bytes)
    requires |a| < BLOCK_SIZE && |b| < BLOCK_SIZE && LastBlock(a) == LastBlock(b)
    ensures a == b
  {
    hide LengthByte;
    assert LastBlock(a)[BLOCK_SIZE - 1] == LengthByte(|a|) && LastBlock(b)[BLOCK_SIZE - 1] == LengthByte(|b|);
    LengthByteInjective(|a|, |b|);
    assert a == LastBlock(a)[..|a|] && b == LastBlock(b)[..|b|];
  }

  /** The state a long message ends in under Spooky's own mixing. */
  function LongState(message: Bytes, seed1: bv64, seed2: bv64): State {
    var whole := Whole(|message|);
    LastState(Absorb(Spooky(), Seeded(seed1, seed2), message[..whole]), LastBlock(message[whole..]))
  }

  /** The hash is two words of the state that the message ends in. */
  lemma HashIsOfState(message: Bytes, seed1: bv64, seed2: bv64)
    ensures OneShot(Spooky(), message, seed1, seed2) ==
      if |message| < BUF_SIZE then Hash(ShortState(message, seed1, seed2).a, ShortState(message, seed1, seed2).b)
      else Hash(LongState(message, seed1, seed2)[0], LongState(message, seed1, seed2)[1])
  {
    hide Absorb, Seeded, ShortState, LastState, Mix, LastBlock, Whole;
  }

  /** Long messages with the same whole blocks end in one state only if they are the same: each
      byte behind the blocks matters, and so does how many there are. */
  lemma LongRestMatters(a: Bytes, b: Bytes, seed1: bv64, seed2: bv64)
    requires a[..Whole(|a|)] == b[..Whole(|b|)] && LongState(a, seed1, seed2) == LongState(b, seed1, seed2)
    ensures a == b
  {
    hide Absorb, Seeded, LastState, LastBlock, Spooky, Whole;
    var blocks := a[..Whole(|a|)];
    var s := Absorb(Spooky(), Seeded(seed1, seed2), blocks);
    LastBlockMatters(s, LastBlock(a[Whole(|a|)..]), LastBlock(b[Whole(|b|)..]));
    LastBlockInjective(a[Whole(|a|)..], b[Whole(|b|)..]);
    assert a == blocks + a[Whole(|a|)..] && b == blocks + b[Whole(|b|)..];
  }

  /** The two messages differ in the aligned word of eight bytes at p and nowhere else. */
  predicate OneWord(a: Bytes, b: Bytes, p: nat) {
    && |a| == |b| && a != b && p % 8 == 0 && p + 8 <= |a|
    && a[..p] == b[..p] && a[p + 8..] == b[p + 8..]
  }

  lemma OneWordOfBlock(a: Block, b: Block, p: nat)
    requires OneWord(a, b, p)
    ensures BlockWord(a, p / 8) != BlockWord(b, p / 8)
    ensures forall j :: 0 <= j < NUM_VARS && j != p / 8 ==> BlockWord(a, j) == BlockWord(b, j)
  {
    hide Word;
    forall j | 0 <= j < NUM_VARS && j != p / 8 ensures BlockWord(a, j) == BlockWord(b, j) {
      if 8 * j < p {
        assert a[8 * j..8 * j + 8] == a[..p][8 * j..8 * j + 8] == b[8 * j..8 * j + 8];
      } else {
        var q := p + 8;
        assert a[8 * j..8 * j + 8] == a[q..][8 * j - q..8 * j + 8 - q] == b[8 * j..8 * j + 8];
      }
    }
    assert a == a[..p] + a[p..p + 8] + a[p + 8..] && b == b[..p] + b[p..p + 8] + b[p + 8..];
    if BlockWord(a, p / 8) == BlockWord(b, p / 8) {
      WordInjective(a[p..p + 8], b[p..p + 8]);
    }
  }

  lemma OneWordBehind(a: Bytes, b: Bytes, p: nat, n: nat)
    requires OneWord(a, b, p) && n <= p && n % 8 == 0
    ensures a[..n] == b[..n] && OneWord(a[n..], b[n..], p - n)
  {
    assert a[..n] == a[..p][..n] && b[..n] == b[..p][..n];
    assert a == a[..n] + a[n..] && b == b[..n] + b[n..];
    assert a[n..][..p - n] == a[..p][n..] && b[n..][..p - n] == b[..p][n..];
    assert a[n..][p - n + 8..] == a[p + 8..] && b[n..][p - n + 8..] == b[p + 8..];
  }

  lemma OneWordFront(a: Bytes, b: Bytes, p: nat, n: nat)
    requires OneWord(a, b, p) && p + 8 <= n <= |a|
    ensures a[n..] == b[n..] && OneWord(a[..n], b[..n], p)
  {
    assert a[n..] == a[p + 8..][n - p - 8..] && b[n..] == b[p + 8..][n - p - 8..];
    assert a == a[..n] + a[n..] && b == b[..n] + b[n..];
    assert a[..n][..p] == a[..p] && b[..n][..p] == b[..p];
    assert a[..n][p + 8..] == a[p + 8..][..n - p - 8] && b[..n][p + 8..] == b[p + 8..][..n - p - 8];
  }

  lemma {:induction false} AbsorbWordMatters(s: State, a: Bytes, b: Bytes, p: nat)
    requires OneWord(a, b, p) && |a| % BLOCK_SIZE == 0
    ensures Absorb(Spooky(), s, a) != Absorb(Spooky(), s, b)
    decreases |a|
  {
    hide MixLines;
    assert Spooky().mix == Mix;
    if p < BLOCK_SIZE {
      OneWordFront(a, b, p, BLOCK_SIZE);
      OneWordOfBlock(a[..BLOCK_SIZE], b[..BLOCK_SIZE], p);
      MixWordMatters(s, a[..BLOCK_SIZE], b[..BLOCK_SIZE], p / 8, NUM_VARS);
      if Absorb(Spooky(), s, a) == Absorb(Spooky(), s, b) {
        AbsorbInjective(Mix(s, a[..BLOCK_SIZE]), Mix(s, b[..BLOCK_SIZE]), a[BLOCK_SIZE..]);
      }
    } else {
      OneWordBehind(a, b, p, BLOCK_SIZE);
      AbsorbWordMatters(Mix(s, a[..BLOCK_SIZE]), a[BLOCK_SIZE..], b[BLOCK_SIZE..], p - BLOCK_SIZE);
    }
  }

  lemma AbsorbedWordMatters(a: Bytes, b: Bytes, p: nat, seed1: bv64, seed2: bv64)
    requires OneWord(a, b, p) && p < Whole(|a|)
    ensures LongState(a, seed1, seed2) != LongState(b, seed1, seed2)
  {
    var w := Whole(|a|);
    hide Absorb, Seeded, LastState, LastBlock, Spooky, Whole;
    OneWordFront(a, b, p, w);
    var start, last := Seeded(seed1, seed2), LastBlock(a[w..]);
    hide OneWord;
    AbsorbWordMatters(start, a[..w], b[..w], p);
    var s, t := Absorb(Spooky(), start, a[..w]), Absorb(Spooky(), start, b[..w]);
    if LastState(s, last) == LastState(t, last) {
      StateBeforeMatters(s, t, last);
    }
  }

  /** Long messages that differ in one word of data never end in the same state. */
  lemma LongWordMatters(a: Bytes, b: Bytes, p: nat, seed1: bv64, seed2: bv64)
    requires OneWord(a, b, p) && |a| >= BUF_SIZE
    ensures LongState(a, seed1, seed2) != LongState(b, seed1, seed2)
  {
    if p < Whole(|a|) {
      AbsorbedWordMatters(a, b, p, seed1, seed2);
    } else {
      OneWordBehind(a, b, p, Whole(|a|));
      hide Absorb, Seeded, LastState, LastBlock, Spooky, Whole;
      if LongState(a, seed1, seed2) == LongState(b, seed1, seed2) {
        LongRestMatters(a, b, seed1, seed2);
      }
    }
  }

  /** One long message ends in different states for different seeds. */
  lemma LongSeedsMatter(a: Bytes, s1: bv64, s2: bv64, t1: bv64, t2: bv64)
    requires (s1, s2) != (t1, t2)
    ensures LongState(a, s1, s2) != LongState(a, t1, t2)
  {
    hide Absorb, Seeded, LastState, LastBlock, Spooky, Whole;
    var blocks := a[..Whole(|a|)];
    SeedsStayApart(blocks, s1, s2, t1, t2);
    if LongState(a, s1, s2) == LongState(a, t1, t2) {
      StateBeforeMatters(Absorb(Spooky(), Seeded(s1, s2), blocks), Absorb(Spooky(), Seeded(t1, t2), blocks),
                         LastBlock(a[Whole(|a|)..]));
    }
  }

  lemma AbsorbBlock(k: Kernel, s: State, a: Bytes, b: Bytes)
    requires |a| % BLOCK_SIZE == 0 && |b| == BLOCK_SIZE
    ensures Absorb(k, s, a + b) == k.mix(Absorb(k, s, a), b)
  {
    AbsorbAppend(k, s, a, b);
    assert b[..BLOCK_SIZE] == b && b[BLOCK_SIZE..] == [];
  }

  /** How many bytes of a number of bytes make up whole blocks. */
  function Whole(n: nat): (w: nat)
    ensures w <= n < w + BLOCK_SIZE && w % BLOCK_SIZE == 0
  {
    n / BLOCK_SIZE * BLOCK_SIZE
  }

  /** The loop over all whole blocks. */
  method MixBlocks(k: Kernel, s: State, bytes: Bytes) returns (h: State)
    ensures h == Absorb(k, s, bytes[..Whole(|bytes|)])
  {
    h := s;
    var end := Whole(|bytes|);
    var u := 0;
    while u < end
      invariant u <= end && u % BLOCK_SIZE == 0
      invariant h == Absorb(k, s, bytes[..u])
    {
      AbsorbBlock(k, s, bytes[..u], bytes[u..u + BLOCK_SIZE]);
      assert bytes[..u] + bytes[u..u + BLOCK_SIZE] == bytes[..u + BLOCK_SIZE];
      h := k.mix(h, bytes[u..u + BLOCK_SIZE]);
      u := u + BLOCK_SIZE;
    }
  }

  /** Hash128: the whole message in one call. */
  method Hash128(k: Kernel, message: Bytes, seed1: bv64, seed2: bv64) returns (h: Hash)
    ensures h == OneShot(k, message, seed1, seed2)
  {
    if |message| < BUF_SIZE {
      return k.short(message, seed1, seed2);
    }
    var s := MixBlocks(k, Seeded(seed1, seed2), message);
    var end := Whole(|message|);
    var remainder := |message| - end;
    var buf := message[end..] + seq(BLOCK_SIZE - remainder, _ => 0);
    buf := buf[BLOCK_SIZE - 1 := LengthByte(remainder)];
    assert buf == LastBlock(message[end..]);
    h := k.end(s, buf);
  }

  // ---- the streaming hash

  /** Whether a streaming state stands for a message: short messages are only buffered, of a
      long one all but the last bytes are absorbed, in whole blocks. */
  ghost predicate Represents(k: Kernel, state: seq<bv64>, buffered: Bytes, message: Bytes, seed1: bv64, seed2: bv64) {
    && |state| == NUM_VARS
    && |buffered| < BUF_SIZE && |buffered| <= |message|
    && var whole := |message| - |buffered|;
       && buffered == message[whole..]
       && whole % BLOCK_SIZE == 0
       && (|message| < BUF_SIZE ==> whole == 0 && state[0] == seed1 && state[1] == seed2)
       && (|message| >= BUF_SIZE ==> state == Absorb(k, Seeded(seed1, seed2), message[..whole]))
  }

  class Stream {
    const kernel: Kernel
    const data: array<bv8>     // m_data: unhashed bytes
    var state: seq<bv64>       // m_state
    var length: nat            // m_length
    var remainder: nat         // m_remainder

    ghost var Message: Bytes   // everything added since Init
    ghost var Seeds: (bv64, bv64)

    ghost predicate Valid()
      reads this, data
    {
      && data.Length == BUF_SIZE && remainder < BUF_SIZE && length == |Message|
      && Represents(kernel, state, data[..remainder], Message, Seeds.0, Seeds.1)
    }

    constructor (kernel: Kernel)
      ensures this.kernel == kernel && fresh(data) && data.Length == BUF_SIZE && |state| == NUM_VARS
    {
      this.kernel := kernel;
      data := new bv8[BUF_SIZE](_ => 0);
      state := seq(NUM_VARS, _ => 0);
      length, remainder := 0, 0;
    }

    method Init(seed1: bv64, seed2: bv64)
      requires data.Length == BUF_SIZE && |state| == NUM_VARS
      modifies this
      ensures Valid() && Message == [] && Seeds == (seed1, seed2)
    {
      length := 0;
      remainder := 0;
      state := state[0 := seed1];
      state := state[1 := seed2];
      Message, Seeds := [], (seed1, seed2);
    }

    /** Copies bytes into the buffer (memcpy). */
    method Stash(at: nat, bytes: Bytes)
      requires at + |bytes| <= data.Length
      modifies data
      ensures data[at..at + |bytes|] == bytes
      ensures data[..at] == old(data[..at])
    {
      forall i | 0 <= i < |bytes| {
        data[at + i] := bytes[i];
      }
    }

    /** Adds a fragment: one that leaves the buffer unfilled is only buffered. */
    method Update(message: Bytes)
      requires Valid()
      modifies this, data
      ensures Valid() && Message == old(Message) + message && Seeds == old(Seeds)
    {
      hide Represents, Absorb, Whole, Seeded;
      var newLength := |message| + remainder;
      ghost var buffered := data[..remainder];
      if newLength < BUF_SIZE {
        Stash(remainder, message);
        StashKeeps(kernel, state, buffered, Message, Seeds.0, Seeds.1, message);
        assert data[..newLength] == buffered + message;
        length := |message| + length;
        remainder := newLength;
        Message := Message + message;
        return;
      }
      UpdateLong(message);
    }

    /** Mixes in what is buffered, if anything, once the fragment's front has filled the buffer. */
    method MixBuffered(h: State, message: Bytes) returns (mixed: State, rest: Bytes)
      requires data.Length == BUF_SIZE && remainder < BUF_SIZE && |message| + remainder >= BUF_SIZE
      modifies data
      ensures var prefix := if remainder == 0 then 0 else BUF_SIZE - remainder;
        && rest == message[prefix..]
        && var full := old(data[..remainder]) + message[..prefix];
           mixed == if remainder == 0 then h else kernel.mix(kernel.mix(h, full[..BLOCK_SIZE]), full[BLOCK_SIZE..])
    {
      if remainder == 0 {
        return h, message;
      }
      var prefix := BUF_SIZE - remainder;
      ghost var buffered := data[..remainder];
      Stash(remainder, message[..prefix]);
      assert data[..BUF_SIZE] == buffered + message[..prefix];
      var full := data[..BUF_SIZE];
      mixed := kernel.mix(h, full[..BLOCK_SIZE]);
      mixed := kernel.mix(mixed, full[BLOCK_SIZE..]);
      rest := message[prefix..];
    }

    /** The rest of Update, for fragments that fill the buffer. */
    method UpdateLong(message: Bytes)
      requires Valid() && |message| + remainder >= BUF_SIZE
      modifies this, data
      ensures Valid() && Message == old(Message) + message && Seeds == old(Seeds)
    {
      hide Represents, Absorb, Whole, Seeded;
      ghost var buffered := data[..remainder];
      RepresentsSizes(kernel, state, buffered, Message, Seeds.0, Seeds.1);
      LongUpdate(kernel, state, buffered, Message, Seeds.0, Seeds.1, message);
      var h: State := if length < BUF_SIZE then Seeded(state[0], state[1]) else state;
      length := |message| + length;
      var rest;
      h, rest := MixBuffered(h, message);
      h := MixBlocks(kernel, h, rest);
      var tail := rest[Whole(|rest|)..];
      remainder := |tail|;
      Stash(0, tail);
      assert data[..remainder] == tail;
      state := h;
      Message := Message + message;
    }

    /** The hash of everything added so far. The buffer is padded in place behind the bytes
        it holds, so that more may be added afterwards. */
    method Final() returns (h: Hash)
      requires Valid()
      modifies data
      ensures Valid()
      ensures h == OneShot(kernel, Message, Seeds.0, Seeds.1)
    {
      hide Absorb, Whole, Seeded, OneShot, Represents;
      ghost var buffered := data[..remainder];
      RepresentsSizes(kernel, state, buffered, Message, Seeds.0, Seeds.1);
      if length < BUF_SIZE {
        ShortFinal(kernel, state, buffered, Message, Seeds.0, Seeds.1);
        return kernel.short(data[..length], state[0], state[1]);
      }
      LongFinal(kernel, state, buffered, Message, Seeds.0, Seeds.1);
      var s: State, at, rest := state, 0, remainder;
      if rest >= BLOCK_SIZE {
        assert data[..BLOCK_SIZE] == buffered[..BLOCK_SIZE];
        s := kernel.mix(s, data[..BLOCK_SIZE]);
        at := BLOCK_SIZE;
        rest := rest - BLOCK_SIZE;
      }
      Pad(at, rest);
      assert data[at..at + rest] == buffered[at..];
      assert data[..remainder] == buffered;
      h := kernel.end(s, data[at..at + BLOCK_SIZE]);
    }

    /** Pads the block at an offset behind its first bytes. */
    method Pad(at: nat, rest: nat)
      requires at + BLOCK_SIZE <= data.Length && rest < BLOCK_SIZE
      modifies data
      ensures data[at..at + BLOCK_SIZE] == LastBlock(old(data[at..at + rest]))
      ensures forall i :: 0 <= i < at + rest ==> data[i] == old(data[i])
    {
      hide LengthByte;
      ghost var front := data[at..at + rest];
      forall i | at + rest <= i < at + BLOCK_SIZE {
        data[i] := 0;
      }
      data[at + BLOCK_SIZE - 1] := LengthByte(rest);
      assert data[at..at + rest] == front;
      assert data[at..at + BLOCK_SIZE] == LastBlock(front);
    }
  }

  lemma RepresentsSizes(k: Kernel, state: seq<bv64>, buffered: Bytes, message: Bytes, seed1: bv64, seed2: bv64)
    requires Represents(k, state, buffered, message, seed1, seed2)
    ensures |state| == NUM_VARS && |buffered| < BUF_SIZE && |buffered| <= |message|
    ensures |message| < BUF_SIZE ==> buffered == message
  {
  }

  lemma ShortFinal(k: Kernel, state: seq<bv64>, buffered: Bytes, message: Bytes, seed1: bv64, seed2: bv64)
    requires Represents(k, state, buffered, message, seed1, seed2) && |message| < BUF_SIZE
    ensures |state| == NUM_VARS && buffered == message
    ensures OneShot(k, message, seed1, seed2) == k.short(message, state[0], state[1])
  {
  }

  lemma LongFinal(k: Kernel, state: seq<bv64>, buffered: Bytes, message: Bytes, seed1: bv64, seed2: bv64)
    requires Represents(k, state, buffered, message, seed1, seed2) && |message| >= BUF_SIZE
    ensures OneShot(k, message, seed1, seed2) ==
      if |buffered| < BLOCK_SIZE then k.end(state, LastBlock(buffered))
      else k.end(k.mix(state, buffered[..BLOCK_SIZE]), LastBlock(buffered[BLOCK_SIZE..]))
  {
    var start, whole := Seeded(seed1, seed2), |message| - |buffered|;
    if |buffered| < BLOCK_SIZE {
      assert Whole(|message|) == whole;
    } else {
      assert Whole(|message|) == whole + BLOCK_SIZE;
      AbsorbBlock(k, start, message[..whole], buffered[..BLOCK_SIZE]);
      assert message[..whole] + buffered[..BLOCK_SIZE] == message[..whole + BLOCK_SIZE];
      assert message[whole + BLOCK_SIZE..] == buffered[BLOCK_SIZE..];
    }
  }

  /** The bytes around the end of a message that grows. */
  lemma Straddle(message: Bytes, more: Bytes, whole: nat, prefix: nat)
    requires whole <= |message| && prefix <= |more|
    ensures message[whole..] + more[..prefix] == (message + more)[whole..|message| + prefix]
    ensures more[prefix..] == (message + more)[|message| + prefix..]
  {
  }

  /** What a stream holds after adding bytes that fill its buffer: the two buffered blocks are
      absorbed, then all whole blocks of what remains, and the tail is buffered. */
  lemma LongUpdate(k: Kernel, state: seq<bv64>, buffered: Bytes, message: Bytes, seed1: bv64, seed2: bv64, more: Bytes)
    requires Represents(k, state, buffered, message, seed1, seed2) && |buffered| + |more| >= BUF_SIZE
    ensures var h0: State := if |message| < BUF_SIZE then Seeded(state[0], state[1]) else state;
      var prefix := if buffered == [] then 0 else BUF_SIZE - |buffered|;
      var full, rest := buffered + more[..prefix], more[prefix..];
      var h2 := if buffered == [] then h0 else k.mix(k.mix(h0, full[..BLOCK_SIZE]), full[BLOCK_SIZE..]);
      Represents(k, Absorb(k, h2, rest[..Whole(|rest|)]), rest[Whole(|rest|)..], message + more, seed1, seed2)
  {
    var h0: State := if |message| < BUF_SIZE then Seeded(state[0], state[1]) else state;
    var start, all, whole := Seeded(seed1, seed2), message + more, |message| - |buffered|;
    assert all[..whole] == message[..whole];
    assert h0 == Absorb(k, start, all[..whole]);
    hide Absorb, Whole, Seeded;
    if buffered == [] {
      assert all[whole..] == more == more[0..];
      Settle(k, start, all, whole, h0, seed1, seed2);
    } else {
      var prefix := BUF_SIZE - |buffered|;
      var full := buffered + more[..prefix];
      Straddle(message, more, whole, prefix);
      TwoBlocks(k, start, all, whole, full);
      Settle(k, start, all, whole + BUF_SIZE, k.mix(k.mix(h0, full[..BLOCK_SIZE]), full[BLOCK_SIZE..]), seed1, seed2);
    }
  }

  /** All whole blocks behind an absorbed prefix are absorbed and the tail is buffered. */
  lemma Settle(k: Kernel, start: State, all: Bytes, from: nat, h: State, seed1: bv64, seed2: bv64)
    requires from <= |all| && from % BLOCK_SIZE == 0 && |all| >= BUF_SIZE
    requires start == Seeded(seed1, seed2) && h == Absorb(k, start, all[..from])
    ensures var rest := all[from..];
      Represents(k, Absorb(k, h, rest[..Whole(|rest|)]), rest[Whole(|rest|)..], all, seed1, seed2)
  {
    hide Absorb, Whole, Seeded;
    AbsorbTail(k, start, all, from);
  }

  /** Absorbing all whole blocks behind an absorbed prefix. */
  lemma AbsorbTail(k: Kernel, start: State, all: Bytes, from: nat)
    requires from <= |all| && from % BLOCK_SIZE == 0
    ensures var rest := all[from..];
      var whole := from + Whole(|rest|);
      && whole <= |all| && whole % BLOCK_SIZE == 0 && all[whole..] == rest[Whole(|rest|)..]
      && Absorb(k, Absorb(k, start, all[..from]), rest[..Whole(|rest|)]) == Absorb(k, start, all[..whole])
  {
    var rest := all[from..];
    var w := Whole(|rest|);
    AbsorbAppend(k, start, all[..from], rest[..w]);
    assert all[..from] + rest[..w] == all[..from + w];
  }

  /** Buffering bytes without filling the buffer. */
  lemma StashKeeps(k: Kernel, state: seq<bv64>, buffered: Bytes, message: Bytes, seed1: bv64, seed2: bv64, more: Bytes)
    requires Represents(k, state, buffered, message, seed1, seed2)
    requires |buffered| + |more| < BUF_SIZE
    ensures Represents(k, state, buffered + more, message + more, seed1, seed2)
  {
    var whole := |message| - |buffered|;
    assert (message + more)[whole..] == buffered + more;
    assert (message + more)[..whole] == message[..whole];
  }

  /** Absorbing a full buffer. */
  lemma TwoBlocks(k: Kernel, start: State, all: Bytes, whole: nat, buffer: Bytes)
    requires whole % BLOCK_SIZE == 0 && whole + BUF_SIZE <= |all| && |buffer| == BUF_SIZE
    requires buffer == all[whole..whole + BUF_SIZE]
    ensures Absorb(k, start, all[..whole + BUF_SIZE])
         == k.mix(k.mix(Absorb(k, start, all[..whole]), buffer[..BLOCK_SIZE]), buffer[BLOCK_SIZE..])
  {
    AbsorbBlock(k, start, all[..whole], buffer[..BLOCK_SIZE]);
    assert all[..whole] + buffer[..BLOCK_SIZE] == all[..whole + BLOCK_SIZE];
    AbsorbBlock(k, start, all[..whole + BLOCK_SIZE], buffer[BLOCK_SIZE..]);
    assert all[..whole + BLOCK_SIZE] + buffer[BLOCK_SIZE..] == all[..whole + BUF_SIZE];
  }

  // ---- the streaming contract

  function Join(fragments: seq<Bytes>): Bytes {
    if fragments == [] then [] else Join(fragments[..|fragments| - 1]) + fragments[|fragments| - 1]
  }

  /** However a message is cut into fragments, and wherever the hash is asked for in between,
      every answer is the one-shot hash of the fragments added so far. */
  method HashFragments(k: Kernel, fragments: seq<Bytes>, seed1: bv64, seed2: bv64) returns (hashes: seq<Hash>)
    ensures |hashes| == |fragments| + 1
    ensures forall n :: 0 <= n <= |fragments| ==> hashes[n] == OneShot(k, Join(fragments[..n]), seed1, seed2)
  {
    hide Stream.Valid, OneShot;
    var hash := new Stream(k);
    hash.Init(seed1, seed2);
    var h := hash.Final();
    hashes := [h];
    for i := 0 to |fragments|
      invariant fresh(hash) && fresh(hash.data) && hash.Valid() && hash.kernel == k
      invariant hash.Message == Join(fragments[..i]) && hash.Seeds == (seed1, seed2)
      invariant |hashes| == i + 1
      invariant forall n :: 0 <= n <= i ==> hashes[n] == OneShot(k, Join(fragments[..n]), seed1, seed2)
    {
      hash.Update(fragments[i]);
      assert fragments[..i + 1][..i] == fragments[..i];
      h := hash.Final();
      hashes := hashes + [h];
    }
  }

  // ---- hashing a rectangle of pixels

  /** The bytes of the first rows of a rectangle, row after row. */
  function RowBytes(pixmap: Bytes, startX: nat, startY: nat, width: nat, rows: nat,
                    bufferWidth: nat, bufferHeight: nat): Bytes
    requires |pixmap| == bufferHeight * bufferWidth * 4
    requires startX + width <= bufferWidth && startY + rows <= bufferHeight
  {
    if rows == 0 then []
    else RowBytes(pixmap, startX, startY, width, rows - 1, bufferWidth, bufferHeight)
         + Line(pixmap, startX, startY + rows - 1, width, bufferWidth, bufferHeight)
  }

  lemma RowBytesOneMore(pixmap: Bytes, startX: nat, startY: nat, width: nat, rows: nat,
                        bufferWidth: nat, bufferHeight: nat)
    requires |pixmap| == bufferHeight * bufferWidth * 4
    requires startX + width <= bufferWidth && startY + rows < bufferHeight
    ensures RowBytes(pixmap, startX, startY, width, rows + 1, bufferWidth, bufferHeight)
         == RowBytes(pixmap, startX, startY, width, rows, bufferWidth, bufferHeight)
            + Line(pixmap, startX, startY + rows, width, bufferWidth, bufferHeight)
  {
  }

  lemma LineInside(y: nat, bufferWidth: nat, bufferHeight: nat)
    requires y < bufferHeight
    ensures y * bufferWidth * 4 + bufferWidth * 4 <= bufferHeight * bufferWidth * 4
  {
    if bufferWidth > 0 {
      Monotone(y + 1, bufferHeight, bufferWidth);
      assert (y + 1) * bufferWidth == y * bufferWidth + bufferWidth;
    }
  }

  function Line(pixmap: Bytes, startX: nat, y: nat, width: nat, bufferWidth: nat, bufferHeight: nat): (line: Bytes)
    requires |pixmap| == bufferHeight * bufferWidth * 4
    requires startX + width <= bufferWidth && y < bufferHeight
    ensures |line| == 4 * width
  {
    LineInside(y, bufferWidth, bufferHeight);
    var position := y * bufferWidth * 4 + startX * 4;
    pixmap[position..position + width * 4]
  }

  /** Four bytes of each pixel: those of column x are the pixmap's of column startX + x. */
  lemma LinePixel(pixmap: Bytes, startX: nat, y: nat, width: nat, bufferWidth: nat, bufferHeight: nat, x: nat, i: nat)
    requires |pixmap| == bufferHeight * bufferWidth * 4 && x < width && i < 4
    requires startX + width <= bufferWidth && y < bufferHeight
    ensures 0 <= 4 * (y * bufferWidth + (startX + x)) + i < |pixmap|
    ensures Line(pixmap, startX, y, width, bufferWidth, bufferHeight)[4 * x + i]
         == pixmap[4 * (y * bufferWidth + (startX + x)) + i]
  {
    LineInside(y, bufferWidth, bufferHeight);
  }

  /** hashSubBuffer: the hash of a rectangle is that of its own bytes, wherever it lies. */
  method HashSubBuffer(pixmap: Bytes, startX: nat, startY: nat, width: nat, height: nat,
                       bufferWidth: nat, bufferHeight: nat)
    returns (hash1: bv64)
    requires |pixmap| == bufferHeight * bufferWidth * 4
    requires bufferWidth >= width && bufferHeight >= height ==>
               startX + width <= bufferWidth && startY + height <= bufferHeight
    ensures hash1 ==
      if bufferWidth < width || bufferHeight < height then 0
      else OneShot(Spooky(), RowBytes(pixmap, startX, startY, width, height, bufferWidth, bufferHeight),
                   1073741789, 1073741789).hash1
  {
    if bufferWidth < width || bufferHeight < height {
      return 0;
    }
    hide Stream.Valid, OneShot, Line, Spooky;
    var hash := new Stream(Spooky());
    hash.Init(1073741789, 1073741789);
    assert RowBytes(pixmap, startX, startY, width, 0, bufferWidth, bufferHeight) == [];
    hide RowBytes;
    for y := 0 to height
      invariant fresh(hash) && fresh(hash.data) && hash.Valid() && hash.kernel == Spooky()
      invariant hash.Message == RowBytes(pixmap, startX, startY, width, y, bufferWidth, bufferHeight)
      invariant hash.Seeds == (1073741789, 1073741789)
    {
      RowBytesOneMore(pixmap, startX, startY, width, y, bufferWidth, bufferHeight);
      hash.Update(Line(pixmap, startX, startY + y, width, bufferWidth, bufferHeight));
    }
    var h := hash.Final();
    hash1 := h.hash1;
  }
}
