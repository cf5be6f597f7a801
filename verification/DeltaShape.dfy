/** What a delta does not send: equal pixels, rows that a copy can take along, rows found
    elsewhere; and that the row hash sees every change of one word. */
module DeltaShape {
  import opened Arithmetic
  import opened Options
  import opened Pixels
  import opened DeltaCodec
  import opened DeltaEncoder

  // ---- pixel runs

  /** A run of row y starts at a changed pixel, bridges equal pixels among its first three only,
      and ends at the end of the row, at the next equal pixel, or when it is 254 long. */
  predicate Tight(p: seq<Pixel>, c: seq<Pixel>, y: byte, run: Command)
    requires |p| == |c|
  {
    && run.Run? && run.row == y && 0 < |run.pixels| <= 254 && run.col + |run.pixels| <= |p|
    && p[run.col] != c[run.col]
    && (forall k :: run.col + 3 <= k < run.col + |run.pixels| ==> p[k] != c[k])
    && var end := run.col + |run.pixels|;
       (end == |p| || |run.pixels| == 254 || (|run.pixels| >= 3 && p[end] == c[end]))
  }

  lemma {:induction false} DiffRunEnds(p: seq<Pixel>, c: seq<Pixel>, x: nat, diff: nat)
    requires |p| == |c| && x + diff <= |p| && diff <= 254
    requires forall k :: x + 3 <= k < x + diff ==> p[k] != c[k]
    ensures var n := DiffRun(p, c, x, diff);
      && (forall k :: x + 3 <= k < x + n ==> p[k] != c[k])
      && (x + n == |p| || n == 254 || (n >= 3 && p[x + n] == c[x + n]))
    decreases |p| - x - diff
  {
    if x + diff < |p| && (p[x + diff] != c[x + diff] || diff < 3) && diff < 254 {
      DiffRunEnds(p, c, x, diff + 1);
    }
  }

  lemma RunIsTight(p: seq<Pixel>, c: seq<Pixel>, y: byte, from: nat)
    requires |p| == |c| <= 256 && from < |p| && p[from] != c[from]
    ensures var n := DiffRun(p, c, from, 0);
      n > 0 && Tight(p, c, y, Run(y, from, UnpremultAll(c[from..from + n])))
  {
    hide Unpremult, DiffRun;
    DiffRunEnds(p, c, from, 0);
  }

  /** Every run of a changed row is as short as that. */
  lemma {:induction false} RunsAreTight(p: seq<Pixel>, c: seq<Pixel>, y: byte, x: nat)
    requires |p| == |c| <= 256 && x <= |p|
    ensures forall run :: run in Runs(p, c, y, x) ==> Tight(p, c, y, run)
    decreases |p| - x
  {
    RunsFirst(p, c, y, x);
    hide *;
    var from := x + SameRun(p, c, x);
    if from < |p| {
      RunIsTight(p, c, y, from);
      var n := DiffRun(p, c, from, 0);
      var first, rest := Run(y, from, UnpremultAll(c[from..from + n])), Runs(p, c, y, from + n);
      RunsAreTight(p, c, y, from + n);
      assert Runs(p, c, y, x) == [first] + rest && Tight(p, c, y, first);
    }
  }

  // ---- row copies

  /** Row k of the rotation that starts at a size_t offset from row y. */
  function Rotated(y: nat, offset: nat, k: nat, height: nat): nat
    requires height > 0
  {
    (y + offset + k) % 0x1_0000_0000_0000_0000 % height
  }

  /** The first matching row in the rotation is taken: the hunt starts where the last copy would
      go on. */
  lemma {:induction false} HuntTakesFirst(prev: Bitmap, line: seq<Pixel>, y: nat, offset: nat, yn: nat)
    requires prev.Valid() && yn <= prev.height
    ensures var m, h := Hunt(prev, line, y, offset, yn), prev.height;
      m.Some? ==> exists k :: yn <= k < h && m.value == Rotated(y, offset, k, h)
                    && forall j :: yn <= j < k ==> prev.rows[Rotated(y, offset, j, h)] != line
    decreases prev.height - yn
  {
    if yn < prev.height {
      assert Candidate(y, offset, yn, prev.height) == Rotated(y, offset, yn, prev.height);
      hide Rotated, Candidate, Crc;
      if prev.rows[Candidate(y, offset, yn, prev.height)] != line {
        HuntTakesFirst(prev, line, y, offset, yn + 1);
      }
    }
  }

  /** Below a row that starts a new copy, the hunt starts at the row behind the one copied. */
  lemma HuntGoesOn(signed: bool, prev: Bitmap, cur: Bitmap, y: nat, m: nat)
    requires Shape(prev, cur) && y < prev.height && prev.rows[y] != cur.rows[y] && m < prev.height
    requires var st := Plan(signed, prev, cur, y);
      && Hunt(prev, cur.rows[y], y, st.offset, 0) == Some(m)
      && !(st.last >= 0 && Extends(signed, st.commands[st.last], m, y))
    ensures Rotated(y + 1, Plan(signed, prev, cur, y + 1).offset, 0, prev.height) == (m + 1) % prev.height
  {
    hide Hunt, Runs, Crc;
    var offset := Plan(signed, prev, cur, y + 1).offset;
    assert offset == (m - y) % TWO64;
    hide Plan;
    if m >= y {
      RemainderOf(0, m - y, TWO64);
      RemainderOf(0, m + 1, TWO64);
    } else {
      RemainderOf(-1, m - y + TWO64, TWO64);
      RemainderOf(1, m + 1, TWO64);
    }
  }

  /** Counting on from a row number, where bytes of 128 and more are negative: the step from 127
      to 128 is not taken, and 255 is followed by 0. */
  predicate CountsOn(from: byte, count: byte, to: byte) {
    if from < 128 then to < 128 && from + count == to
    else if to < 128 then from + count == to + 256
    else from + count == to
  }

  /** Which rows join the last copy: the next ones, as far as char goes. */
  lemma ExtendsMeans(c: Command, source: byte, y: byte)
    requires c.Copy? && c.count < 128
    ensures Extends(false, c, source, y) <==> c.src + c.count == source && c.dest + c.count == y
    ensures Extends(true, c, source, y) <==> CountsOn(c.src, c.count, source) && CountsOn(c.dest, c.count, y)
  {
  }

  /** Where char is unsigned, a row adds no command if and only if it did not change or was found
      right behind the last row of a copy that ends right above it. */
  lemma CopyGrows(prev: Bitmap, cur: Bitmap, y: nat)
    requires Shape(prev, cur) && y < prev.height
    ensures var st, m := Plan(false, prev, cur, y), Hunt(prev, cur.rows[y], y, Plan(false, prev, cur, y).offset, 0);
      |Plan(false, prev, cur, y + 1).commands| == |st.commands| <==>
        || prev.rows[y] == cur.rows[y]
        || (m.Some? && st.last >= 0 && st.commands[st.last].src + st.commands[st.last].count == m.value
            && st.commands[st.last].dest + st.commands[st.last].count == y)
  {
    hide Hunt, Runs, Crc;
    var st := Plan(false, prev, cur, y);
    if prev.rows[y] != cur.rows[y] {
      assert prev.rows[y][0..] == prev.rows[y] && cur.rows[y][0..] == cur.rows[y];
      assert Runs(prev.rows[y], cur.rows[y], y, 0) != [];
    }
  }

  // ---- the row hash

  /** 129 times this is one more than a multiple of 2 to the 64. */
  const INVERSE := 0x80fe_03f8_0fe0_3f81
  const WRAPS := 65

  lemma TimesOdd(d: int)
    requires 129 * d % TWO64 == 0
    ensures d % TWO64 == 0
  {
    var t := 129 * d / TWO64;
    assert 129 * d == TWO64 * t;
    assert d == (INVERSE * t - WRAPS * d) * TWO64;
    Multiple(INVERSE * t - WRAPS * d, TWO64);
  }

  lemma SameRemainder(a: int, b: int)
    requires a % TWO64 == b % TWO64
    ensures (a - b) % TWO64 == 0
  {
    assert a - b == (a / TWO64 - b / TWO64) * TWO64;
    Multiple(a / TWO64 - b / TWO64, TWO64);
  }

  lemma SmallMultiple(d: int)
    requires -TWO64 < d < TWO64 && d % TWO64 == 0
    ensures d == 0
  {
  }

  /** One step of the hash keeps different hashes apart, and different words. */
  lemma CrcStep(x: int, y: int, v: int, w: int)
    requires 0 <= x < TWO64 && 0 <= y < TWO64 && 0 <= v < TWO64 && 0 <= w < TWO64
    requires (x * 128 + x + v) % TWO64 == (y * 128 + y + w) % TWO64
    ensures v == w ==> x == y
    ensures x == y ==> v == w
  {
    SameRemainder(x * 128 + x + v, y * 128 + y + w);
    if v == w {
      assert x * 128 + x + v - (y * 128 + y + w) == 129 * (x - y);
      TimesOdd(x - y);
      SmallMultiple(x - y);
    } else if x == y {
      SmallMultiple(v - w);
    }
  }

  lemma CrcRange(line: seq<Pixel>, n: nat)
    requires 2 * n <= |line|
    ensures 0 <= Crc(line, n) < TWO64
  {
  }

  lemma WordRange(a: Pixel, b: Pixel)
    ensures 0 <= Word(a, b) < TWO64
  {
  }

  lemma {:induction false} SameCrc(a: seq<Pixel>, b: seq<Pixel>, n: nat)
    requires |a| == |b| && 2 * n <= |a| && forall i :: 0 <= i < 2 * n ==> a[i] == b[i]
    ensures Crc(a, n) == Crc(b, n)
  {
    if n > 0 {
      SameCrc(a, b, n - 1);
    }
  }

  function PairAt(line: seq<Pixel>, k: nat): int
    requires 2 * k + 1 < |line|
  {
    Word(line[2 * k], line[2 * k + 1])
  }

  lemma CrcOneMore(a: seq<Pixel>, b: seq<Pixel>, n: nat)
    requires |a| == |b| && 2 * n + 1 < |a| && Crc(a, n + 1) == Crc(b, n + 1)
    ensures Crc(a, n) == Crc(b, n) <==> PairAt(a, n) == PairAt(b, n)
  {
    CrcRange(a, n);
    CrcRange(b, n);
    WordRange(a[2 * n], a[2 * n + 1]);
    WordRange(b[2 * n], b[2 * n + 1]);
    var x, y := Crc(a, n), Crc(b, n);
    assert (x * 128 + x + PairAt(a, n)) % TWO64 == (y * 128 + y + PairAt(b, n)) % TWO64;
    hide Crc, Word;
    CrcStep(x, y, PairAt(a, n), PairAt(b, n));
  }

  lemma PairsApart(a: seq<Pixel>, b: seq<Pixel>, k: nat)
    requires |a| == |b| && 2 * k + 1 < |a|
    ensures PairAt(a, k) == PairAt(b, k) <==> a[2 * k] == b[2 * k] && a[2 * k + 1] == b[2 * k + 1]
  {
  }

  /** Rows that differ in one pair of pixels only have different hashes, so that they are told
      apart without comparing their pixels. */
  lemma {:induction false} CrcSeesOneWord(a: seq<Pixel>, b: seq<Pixel>, k: nat, n: nat)
    requires |a| == |b| && 2 * n <= |a| && k < n
    requires a[2 * k] != b[2 * k] || a[2 * k + 1] != b[2 * k + 1]
    requires forall i :: 0 <= i < 2 * n && i / 2 != k ==> a[i] == b[i]
    ensures Crc(a, n) != Crc(b, n)
  {
    hide Crc, PairAt;
    PairsApart(a, b, n - 1);
    if Crc(a, n) == Crc(b, n) {
      CrcOneMore(a, b, n - 1);
      if k == n - 1 {
        SameCrc(a, b, n - 1);
      } else {
        CrcSeesOneWord(a, b, k, n - 1);
      }
    }
  }
}
