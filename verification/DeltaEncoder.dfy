/** The delta encoder: which commands it emits for a pair of bitmaps, and what a client
    that applies them ends up showing. */
module DeltaEncoder {
  import opened Arithmetic
  import opened Options
  import opened Pixels
  import opened DeltaCodec

  const TWO64 := 0x1_0000_0000_0000_0000

  datatype Bitmap = Bitmap(width: nat, height: nat, rows: seq<seq<Pixel>>) {
    predicate Valid() {
      && |rows| == height
      && forall y :: 0 <= y < height ==> |rows[y]| == width
    }

    /** What a client shows of this bitmap, row by row and as one image. */
    function ShownRows(): (shown: seq<seq<Rgba>>)
      ensures |shown| == |rows|
    {
      seq(|rows|, y requires 0 <= y < |rows| => UnpremultAll(rows[y]))
    }

    function Shown(): Image {
      Flatten(ShownRows())
    }
  }

  function Flatten(rows: seq<seq<Rgba>>): Image {
    if rows == [] then [] else rows[0] + Flatten(rows[1..])
  }

  lemma {:induction false} FlattenRows(rows: seq<seq<Rgba>>, width: nat)
    requires forall r :: 0 <= r < |rows| ==> |rows[r]| == width
    ensures RowsAre(Flatten(rows), width, rows)
  {
    if rows != [] {
      var rest := Flatten(rows[1..]);
      FlattenRows(rows[1..], width);
      assert |Flatten(rows)| == width + (|rows| - 1) * width == |rows| * width;
      forall r | 0 <= r < |rows|
        ensures Row(Flatten(rows), width, r) == rows[r]
      {
        if r == 0 {
          assert r * width == 0;
          forall x | 0 <= x < width
            ensures Row(Flatten(rows), width, 0)[x] == rows[0][x]
          {
            assert Row(Flatten(rows), width, 0)[x] == At(Flatten(rows), 0 * width + x);
          }
        } else {
          RowBehind(rows[0], rest, width, r - 1);
          assert Row(rest, width, r - 1) == rows[1..][r - 1];
        }
      }
    }
  }

  lemma RowBehind(first: seq<Rgba>, rest: Image, width: nat, r: nat)
    requires |first| == width
    ensures Row(first + rest, width, r + 1) == Row(rest, width, r)
  {
    assert (r + 1) * width == r * width + width;
    forall x | 0 <= x < width
      ensures Row(first + rest, width, r + 1)[x] == Row(rest, width, r)[x]
    {
      assert Row(first + rest, width, r + 1)[x] == At(first + rest, width + r * width + x) == At(rest, r * width + x);
    }
  }

  lemma RowBeyond(img: Image, width: nat, r: nat)
    requires |img| <= r * width
    ensures Row(img, width, r) == BlankRow(width)
  {
    forall x | 0 <= x < width
      ensures Row(img, width, r)[x] == BLANK
    {
      assert Row(img, width, r)[x] == At(img, r * width + x);
    }
  }

  /** Row numbers below the bitmap read as blank. */
  lemma ShownRow(b: Bitmap, r: nat)
    requires b.Valid()
    ensures RowsAre(b.Shown(), b.width, b.ShownRows())
    ensures Row(b.Shown(), b.width, r) == if r < b.height then UnpremultAll(b.rows[r]) else BlankRow(b.width)
  {
    hide Unpremult;
    FlattenRows(b.ShownRows(), b.width);
    if r >= b.height {
      assert (r - b.height) * b.width >= 0;
      RowBeyond(b.Shown(), b.width, r);
    }
  }

  // ---- comparing rows

  /** Two neighbouring pixels read as one little-endian 64-bit word. */
  function Word(lo: int, hi: int): int { lo + hi * 0x1_0000_0000 }

  /** The cheap row hash: pixels taken two at a time as one 64-bit word. */
  function Crc(line: seq<Pixel>, words: nat): nat
    requires 2 * words <= |line|
  {
    if words == 0 then 0x7fff_fffe
    else
      var crc := Crc(line, words - 1);
      (crc * 128 + crc + Word(line[2 * words - 2], line[2 * words - 1])) % TWO64
  }

  predicate Identical(a: seq<Pixel>, b: seq<Pixel>) {
    Crc(a, |a| / 2) == Crc(b, |b| / 2) && a == b
  }

  /** copyWithCrc: the row hash comes for free while copying. */
  method CopyWithCrc(from: seq<Pixel>) returns (to: seq<Pixel>, crc: nat)
    requires |from| % 2 == 0
    ensures to == from
    ensures crc == Crc(from, |from| / 2)
  {
    to, crc := [], 0x7fff_fffe;
    for x := 0 to |from| / 2
      invariant to == from[..2 * x]
      invariant crc == Crc(from, x)
    {
      crc := (crc * 128 + crc + Word(from[2 * x], from[2 * x + 1])) % TWO64;
      to := to + [from[2 * x], from[2 * x + 1]];
    }
  }

  // ---- which commands are emitted

  /** Sizes the encoder accepts: row and column numbers must fit a byte. */
  predicate Shape(prev: Bitmap, cur: Bitmap) {
    && prev.Valid() && cur.Valid()
    && prev.width == cur.width <= 256
    && prev.height == cur.height <= 256
  }

  /** A byte seen as a C++ char, whose sign depends on the platform. */
  function Char(signed: bool, b: byte): int {
    if signed && b >= 128 then b - 256 else b
  }

  /** The increment of a byte. */
  function Inc(b: byte): byte { if b == 255 then 0 else b + 1 }

  /** The encoder's progress: commands so far, where to start hunting for a matching row,
      and which command is the last row copy (-1 when there is none). */
  datatype Scan = Scan(commands: seq<Command>, offset: nat, last: int) {
    /** Index in the serialised commands of the count of the last row copy; 0 when there is none. */
    function CountAt(): nat
      requires Valid()
    {
      if last < 0 then 0 else |Serialize(commands[..last])| + 1
    }

    predicate Valid() {
      && AllValid(commands)
      && -1 <= last < |commands|
      && (last >= 0 ==> commands[last].Copy?)
    }
  }

  const START := Scan([], 0, -1)

  /** The test that lets row y join the last copy as one more row. */
  predicate Extends(signed: bool, c: Command, source: byte, y: byte)
    requires c.Copy?
  {
    && Char(signed, c.src) + Char(signed, c.count) == Char(signed, source)
    && Char(signed, c.dest) + Char(signed, c.count) == Char(signed, y)
  }

  function Candidate(y: nat, offset: nat, yn: nat, height: nat): (m: nat)
    requires height > 0
    ensures m < height
  {
    (y + offset + yn) % TWO64 % height
  }

  /** The rotating search for a row of the previous bitmap that equals a given row. */
  function Hunt(prev: Bitmap, line: seq<Pixel>, y: nat, offset: nat, yn: nat): (m: Option<nat>)
    requires prev.Valid() && yn <= prev.height
    ensures m.Some? ==> m.value < prev.height && prev.rows[m.value] == line
    decreases prev.height - yn
  {
    if yn == prev.height then None
    else
      var c := Candidate(y, offset, yn, prev.height);
      if Identical(prev.rows[c], line) then Some(c) else Hunt(prev, line, y, offset, yn + 1)
  }

  /** Length of the run of equal pixels starting at column x. */
  function SameRun(p: seq<Pixel>, c: seq<Pixel>, x: nat): (n: nat)
    requires |p| == |c| && x <= |p|
    ensures x + n <= |p| && p[x..x + n] == c[x..x + n]
    ensures x + n < |p| ==> p[x + n] != c[x + n]
    decreases |p| - x
  {
    if x < |p| && p[x] == c[x] then
      var n := SameRun(p, c, x + 1);
      assert p[x..x + 1 + n] == [p[x]] + p[x + 1..x + 1 + n];
      assert c[x..x + 1 + n] == [c[x]] + c[x + 1..x + 1 + n];
      n + 1
    else 0
  }

  /** Length of the pixel run sent from column x: up to 254 pixels, bridging equal pixels
      among its first three. */
  function DiffRun(p: seq<Pixel>, c: seq<Pixel>, x: nat, diff: nat): (n: nat)
    requires |p| == |c| && x + diff <= |p| && diff <= 254
    ensures diff <= n <= 254 && x + n <= |p|
    ensures diff == 0 && x < |p| ==> n > 0
    decreases |p| - x - diff
  {
    if x + diff < |p| && (p[x + diff] != c[x + diff] || diff < 3) && diff < 254
    then DiffRun(p, c, x, diff + 1)
    else diff
  }

  /** The runs that turn row p into row c from column x on. */
  function Runs(p: seq<Pixel>, c: seq<Pixel>, y: byte, x: nat): (runs: seq<Command>)
    requires |p| == |c| <= 256 && x <= |p|
    ensures AllValid(runs)
    ensures runs == [] ==> p[x..] == c[x..]
    decreases |p| - x
  {
    var from := x + SameRun(p, c, x);
    if from == |p| then
      assert p[x..] == p[x..from] && c[x..] == c[x..from];
      []
    else
      var n := DiffRun(p, c, from, 0);
      [Run(y, from, UnpremultAll(c[from..from + n]))] + Runs(p, c, y, from + n)
  }

  function Step(signed: bool, prev: Bitmap, cur: Bitmap, st: Scan, y: nat): (next: Scan)
    requires Shape(prev, cur) && y < prev.height && st.Valid()
    ensures next.Valid()
  {
    var line := cur.rows[y];
    if Identical(prev.rows[y], line) then st
    else match Hunt(prev, line, y, st.offset, 0)
      case Some(m) =>
        if st.last >= 0 && Extends(signed, st.commands[st.last], m, y) then
          var c := st.commands[st.last];
          st.(commands := st.commands[st.last := c.(count := Inc(c.count))])
        else
          Scan(st.commands + [Copy(1, m, y)], (m - y) % TWO64, |st.commands|)
      case None =>
        st.(commands := st.commands + Runs(prev.rows[y], line, y, 0))
  }

  /** The commands after the first y rows. */
  function Plan(signed: bool, prev: Bitmap, cur: Bitmap, y: nat): (st: Scan)
    requires Shape(prev, cur) && y <= prev.height
    ensures st.Valid()
  {
    if y == 0 then START else Step(signed, prev, cur, Plan(signed, prev, cur, y - 1), y - 1)
  }

  function Commands(signed: bool, prev: Bitmap, cur: Bitmap): (commands: seq<Command>)
    requires Shape(prev, cur)
    ensures AllValid(commands)
  {
    Plan(signed, prev, cur, prev.height).commands
  }

  /** The bytes of the delta before compression; none at all when nothing changed. */
  function DeltaBytes(signed: bool, prev: Bitmap, cur: Bitmap): seq<byte>
    requires Shape(prev, cur)
  {
    var commands := Commands(signed, prev, cur);
    if commands == [] then [] else Serialize(commands) + [END]
  }

  /** From this progress on, row y joins a copy whose next source row lies below the bitmap. */
  predicate RunsOff(signed: bool, prev: Bitmap, cur: Bitmap, st: Scan, y: nat)
    requires Shape(prev, cur) && y < prev.height && st.Valid()
  {
    && prev.rows[y] != cur.rows[y]
    && st.last >= 0
    && st.commands[st.last].src + st.commands[st.last].count >= prev.height
    && var m := Hunt(prev, cur.rows[y], y, st.offset, 0);
       m.Some? && Extends(signed, st.commands[st.last], m.value, y)
  }

  predicate Overshoots(signed: bool, prev: Bitmap, cur: Bitmap, y: nat)
    requires Shape(prev, cur) && y < prev.height
  {
    RunsOff(signed, prev, cur, Plan(signed, prev, cur, y), y)
  }

  // ---- what the commands do

  function BlankRow(width: nat): seq<Rgba> {
    seq(width, _ => BLANK)
  }

  /** The row a client shows for row r once the commands are applied. */
  function Outcome(signed: bool, prev: Bitmap, cur: Bitmap, r: nat): seq<Rgba>
    requires Shape(prev, cur) && r < prev.height
  {
    if Overshoots(signed, prev, cur, r) then BlankRow(prev.width) else UnpremultAll(cur.rows[r])
  }

  /** The rows a client shows when the first y rows have been dealt with. */
  function Outcomes(signed: bool, prev: Bitmap, cur: Bitmap, y: nat): (rows: seq<seq<Rgba>>)
    requires Shape(prev, cur) && y <= prev.height
    ensures |rows| == prev.height
  {
    if y == 0 then prev.ShownRows()
    else Outcomes(signed, prev, cur, y - 1)[y - 1 := Outcome(signed, prev, cur, y - 1)]
  }

  function Painted(prev: Bitmap, st: Scan): Image {
    ApplyAll(prev.Shown(), prev.Shown(), prev.width, st.commands)
  }

  /** Facts about the last copy that keep its counters within a byte. */
  ghost predicate LastCopyOk(signed: bool, height: nat, st: Scan, y: nat)
    requires st.Valid()
  {
    st.last >= 0 ==>
      var c := st.commands[st.last];
      && 1 <= c.count && c.src < height && c.src != c.dest
      && c.dest + c.count <= y
      && (c.dest + c.count == y ==> st.last == |st.commands| - 1)
      && (signed ==> c.count <= 128 && (c.count == 128 ==> c.src >= 128 || c.dest >= 128))
      && (!signed || height <= 255 ==> c.src + c.count <= height)
  }

  /** A row that may extend the last copy is the row right behind it, its byte counter does
      not overflow, and the source row is the one meant unless the copy runs off the bitmap. */
  lemma ExtensionIsNext(signed: bool, height: nat, st: Scan, m: byte, y: byte)
    requires st.Valid() && st.last >= 0 && LastCopyOk(signed, height, st, y)
    requires height <= 256 && m < height && y < height
    requires Extends(signed, st.commands[st.last], m, y)
    ensures var c := st.commands[st.last];
      && c.dest + c.count == y && c.count < 255
      && (c.src + c.count < height ==> c.src + c.count == m)
      && (!signed || height <= 255 ==> c.src + c.count < height)
      && (signed ==> c.count < 128 && (c.count == 127 ==> c.src >= 128 || c.dest >= 128))
  {
  }

  lemma RunsUnfold(p: seq<Pixel>, c: seq<Pixel>, y: byte, x: nat, img: Image, base: Image)
    requires |p| == |c| <= 256 && x <= |p|
    ensures x + SameRun(p, c, x) == |p| ==> ApplyAll(img, base, |p|, Runs(p, c, y, x)) == img
    ensures var from := x + SameRun(p, c, x);
      from < |p| ==>
        var n := DiffRun(p, c, from, 0);
        ApplyAll(img, base, |p|, Runs(p, c, y, x))
        == ApplyAll(Splice(img, Offset(|p|, y, from), UnpremultAll(c[from..from + n])), base, |p|,
                    Runs(p, c, y, from + n))
  {
    hide UnpremultAll, Splice, Offset, CopyRows, SameRun, DiffRun, ApplyAll;
    var from := x + SameRun(p, c, x);
    if from < |p| {
      var n := DiffRun(p, c, from, 0);
      ApplyFirst(img, base, |p|, Run(y, from, UnpremultAll(c[from..from + n])), Runs(p, c, y, from + n));
    } else {
      ApplyNothing(img, base, |p|);
    }
  }

  /** A row whose first x pixels are already the new ones. */
  function Mixed(p: seq<Pixel>, c: seq<Pixel>, x: nat): (line: seq<Pixel>)
    requires |p| == |c| && x <= |p|
    ensures |line| == |p|
  {
    c[..x] + p[x..]
  }

  lemma MixedSame(p: seq<Pixel>, c: seq<Pixel>, x: nat)
    requires |p| == |c| && x <= |p|
    ensures Mixed(p, c, x) == Mixed(p, c, x + SameRun(p, c, x))
  {
    hide SameRun;
    var from := x + SameRun(p, c, x);
    assert p[x..] == p[x..from] + p[from..];
    assert c[..from] == c[..x] + c[x..from];
  }

  lemma MixedSplice(p: seq<Pixel>, c: seq<Pixel>, x: nat, n: nat)
    requires |p| == |c| && x + n <= |p|
    ensures var line := UnpremultAll(Mixed(p, c, x));
      line[..x] + UnpremultAll(c[x..x + n]) + line[x + n..] == UnpremultAll(Mixed(p, c, x + n))
  {
    hide Unpremult;
  }

  /** Applying the runs of row y from column x on completes that row and touches no other. */
  lemma {:induction false} RunsPaint(p: seq<Pixel>, c: seq<Pixel>, y: byte, x: nat, base: Image, img: Image,
                                     rows: seq<seq<Rgba>>)
    requires |p| == |c| <= 256 && x <= |p| && y < |rows|
    requires RowsAre(img, |p|, rows) && rows[y] == UnpremultAll(Mixed(p, c, x))
    ensures RowsAre(ApplyAll(img, base, |p|, Runs(p, c, y, x)), |p|, rows[y := UnpremultAll(c)])
    decreases |p| - x
  {
    hide UnpremultAll, RowsAre, Row, Splice, Offset, SameRun, DiffRun, Runs, ApplyAll, Mixed;
    var width, from := |p|, x + SameRun(p, c, x);
    RunsUnfold(p, c, y, x, img, base);
    MixedSame(p, c, x);
    if from == width {
      MixedAll(p, c);
      assert rows[y := rows[y]] == rows;
    } else {
      var n := DiffRun(p, c, from, 0);
      var pixels := UnpremultAll(c[from..from + n]);
      SpliceRow(img, width, rows, y, from, pixels);
      MixedSplice(p, c, from, n);
      var next := rows[y := UnpremultAll(Mixed(p, c, from + n))];
      RunsPaint(p, c, y, from + n, base, Splice(img, Offset(width, y, from), pixels), next);
      assert next[y := UnpremultAll(c)] == rows[y := UnpremultAll(c)];
    }
  }

  lemma MixedAll(p: seq<Pixel>, c: seq<Pixel>)
    requires |p| == |c|
    ensures Mixed(p, c, 0) == p && Mixed(p, c, |p|) == c
  {
  }

  lemma StepCopy(prev: Bitmap, st: Scan, rows: seq<seq<Rgba>>, y: byte, m: byte)
    requires prev.Valid() && y < |rows| && m < prev.height
    requires RowsAre(Painted(prev, st), prev.width, rows)
    ensures RowsAre(Painted(prev, st.(commands := st.commands + [Copy(1, m, y)])), prev.width,
                    rows[y := UnpremultAll(prev.rows[m])])
  {
    hide Unpremult;
    var base := prev.Shown();
    ApplyAppend(base, base, prev.width, st.commands, [Copy(1, m, y)]);
    CopyOneRow(Painted(prev, st), base, prev.width, rows, m, y);
    ShownRow(prev, m);
  }

  lemma StepExtend(prev: Bitmap, st: Scan, rows: seq<seq<Rgba>>)
    requires prev.Valid() && st.Valid() && 0 <= st.last == |st.commands| - 1
    requires var c := st.commands[st.last]; c.count < 255 && c.dest + c.count < |rows|
    requires RowsAre(Painted(prev, st), prev.width, rows)
    ensures var c := st.commands[st.last];
      RowsAre(Painted(prev, st.(commands := st.commands[st.last := Copy(c.count + 1, c.src, c.dest)])), prev.width,
              rows[c.dest + c.count := Row(prev.Shown(), prev.width, c.src + c.count)])
  {
    hide Unpremult;
    var base, c, front := prev.Shown(), st.commands[st.last], st.commands[..st.last];
    var more := Copy(c.count + 1, c.src, c.dest);
    assert st.commands == front + [c];
    assert st.commands[st.last := more] == front + [more];
    ApplyAppend(base, base, prev.width, front, [c]);
    ApplyAppend(base, base, prev.width, front, [more]);
    CopyOneMoreRow(ApplyAll(base, base, prev.width, front), base, prev.width, rows, c.count, c.src, c.dest);
  }

  lemma StepRuns(prev: Bitmap, cur: Bitmap, st: Scan, rows: seq<seq<Rgba>>, y: byte)
    requires Shape(prev, cur) && y < |rows| && y < prev.height
    requires RowsAre(Painted(prev, st), prev.width, rows) && rows[y] == UnpremultAll(prev.rows[y])
    ensures RowsAre(Painted(prev, st.(commands := st.commands + Runs(prev.rows[y], cur.rows[y], y, 0))), prev.width,
                    rows[y := UnpremultAll(cur.rows[y])])
  {
    hide Unpremult;
    var base, p, c := prev.Shown(), prev.rows[y], cur.rows[y];
    ApplyAppend(base, base, prev.width, st.commands, Runs(p, c, y, 0));
    MixedAll(p, c);
    RunsPaint(p, c, y, 0, base, Painted(prev, st), rows);
  }

  lemma {:induction false} OutcomesRow(signed: bool, prev: Bitmap, cur: Bitmap, y: nat, r: nat)
    requires Shape(prev, cur) && y <= prev.height && r < prev.height
    ensures Outcomes(signed, prev, cur, y)[r]
         == if r < y then Outcome(signed, prev, cur, r) else UnpremultAll(prev.rows[r])
  {
    hide Unpremult, UnpremultAll, Outcome, Overshoots;
    if y > 0 {
      OutcomesRow(signed, prev, cur, y - 1, r);
    }
  }

  lemma PlanPaintsNothing(signed: bool, prev: Bitmap, cur: Bitmap)
    requires Shape(prev, cur)
    ensures LastCopyOk(signed, prev.height, Plan(signed, prev, cur, 0), 0)
    ensures RowsAre(Painted(prev, Plan(signed, prev, cur, 0)), prev.width, Outcomes(signed, prev, cur, 0))
  {
    hide Unpremult;
    ShownRow(prev, 0);
    assert Painted(prev, START) == prev.Shown();
  }

  lemma {:induction false} PlanPaints(signed: bool, prev: Bitmap, cur: Bitmap, y: nat)
    requires Shape(prev, cur) && y <= prev.height
    ensures LastCopyOk(signed, prev.height, Plan(signed, prev, cur, y), y)
    ensures RowsAre(Painted(prev, Plan(signed, prev, cur, y)), prev.width, Outcomes(signed, prev, cur, y))
  {
    hide *;
    if y == 0 {
      PlanPaintsNothing(signed, prev, cur);
    } else {
      PlanPaints(signed, prev, cur, y - 1);
      StepLastCopy(signed, prev, cur, Plan(signed, prev, cur, y - 1), y - 1);
      PlanStep(signed, prev, cur, y - 1);
      OutcomesRow(signed, prev, cur, y - 1, y - 1);
      StepPaints(signed, prev, cur, Plan(signed, prev, cur, y - 1), Outcomes(signed, prev, cur, y - 1), y - 1);
      OutcomesStep(signed, prev, cur, y - 1);
    }
  }

  lemma PlanStep(signed: bool, prev: Bitmap, cur: Bitmap, y: nat)
    requires Shape(prev, cur) && y < prev.height
    ensures Plan(signed, prev, cur, y + 1) == Step(signed, prev, cur, Plan(signed, prev, cur, y), y)
  {
    hide Unpremult;
  }

  lemma OutcomesStep(signed: bool, prev: Bitmap, cur: Bitmap, y: nat)
    requires Shape(prev, cur) && y < prev.height
    ensures Outcomes(signed, prev, cur, y + 1)
         == Outcomes(signed, prev, cur, y)[y := if RunsOff(signed, prev, cur, Plan(signed, prev, cur, y), y)
                                                then BlankRow(prev.width) else UnpremultAll(cur.rows[y])]
  {
    hide Unpremult;
  }

  lemma StepLastCopy(signed: bool, prev: Bitmap, cur: Bitmap, st: Scan, y: nat)
    requires Shape(prev, cur) && y < prev.height && st.Valid()
    requires LastCopyOk(signed, prev.height, st, y)
    ensures LastCopyOk(signed, prev.height, Step(signed, prev, cur, st, y), y + 1)
  {
    hide Unpremult;
    hide Hunt, Runs;
    if prev.rows[y] != cur.rows[y] {
      match Hunt(prev, cur.rows[y], y, st.offset, 0)
      case None =>
      case Some(m) =>
        if st.last >= 0 && Extends(signed, st.commands[st.last], m, y) {
          ExtensionIsNext(signed, prev.height, st, m, y);
        }
    }
  }

  lemma StepPaints(signed: bool, prev: Bitmap, cur: Bitmap, st: Scan, rows: seq<seq<Rgba>>, y: nat)
    requires Shape(prev, cur) && y < prev.height == |rows| && st.Valid()
    requires LastCopyOk(signed, prev.height, st, y)
    requires RowsAre(Painted(prev, st), prev.width, rows) && rows[y] == UnpremultAll(prev.rows[y])
    ensures RowsAre(Painted(prev, Step(signed, prev, cur, st, y)), prev.width,
                    rows[y := if RunsOff(signed, prev, cur, st, y) then BlankRow(prev.width)
                              else UnpremultAll(cur.rows[y])])
  {
    hide Unpremult;
    hide RowsAre, Row, Hunt, Runs, Flatten, BlankRow, ApplyAll;
    if prev.rows[y] == cur.rows[y] {
      assert rows[y := rows[y]] == rows;
    } else {
      match Hunt(prev, cur.rows[y], y, st.offset, 0)
      case None => StepRuns(prev, cur, st, rows, y);
      case Some(m) =>
        if st.last >= 0 && Extends(signed, st.commands[st.last], m, y) {
          ExtensionIsNext(signed, prev.height, st, m, y);
          StepExtend(prev, st, rows);
          ShownRow(prev, st.commands[st.last].src + st.commands[st.last].count);
        } else {
          StepCopy(prev, st, rows, y, m);
        }
    }
  }

  // ---- the main results

  /** A client that shows the previous bitmap and applies the delta shows the current one,
      exactly when every row read from below the bitmap was meant to be blank anyway. */
  lemma DeltaRoundTrip(signed: bool, prev: Bitmap, cur: Bitmap)
    requires Shape(prev, cur)
    ensures ApplyStream(DeltaBytes(signed, prev, cur), prev.Shown(), prev.width) == cur.Shown()
       <==> forall y :: 0 <= y < prev.height && Overshoots(signed, prev, cur, y) ==>
              UnpremultAll(cur.rows[y]) == BlankRow(prev.width)
  {
    hide Unpremult, RowsAre, Row, Plan, Overshoots, Outcomes, Flatten, ApplyAll, Serialize, ApplyStream, UnpremultAll;
    var got, rows := Painted(prev, Plan(signed, prev, cur, prev.height)), Outcomes(signed, prev, cur, prev.height);
    DeltaPaints(signed, prev, cur);
    PlanPaints(signed, prev, cur, prev.height);
    ShownRow(cur, 0);
    forall r | 0 <= r < prev.height
      ensures rows[r] == Outcome(signed, prev, cur, r)
    {
      OutcomesRow(signed, prev, cur, prev.height, r);
    }
    if rows == cur.ShownRows() {
      RowsDetermine(got, cur.Shown(), prev.width, rows);
    } else if got == cur.Shown() {
      RowsUnique(got, prev.width, rows, cur.ShownRows());
    }
    assert rows == cur.ShownRows() <==>
      forall r :: 0 <= r < prev.height ==> Outcome(signed, prev, cur, r) == UnpremultAll(cur.rows[r]);
  }

  lemma RowsUnique(img: Image, width: nat, a: seq<seq<Rgba>>, b: seq<seq<Rgba>>)
    requires RowsAre(img, width, a) && RowsAre(img, width, b) && |a| == |b|
    ensures a == b
  {
    forall r | 0 <= r < |a|
      ensures a[r] == b[r]
    {
      assert Row(img, width, r) == a[r];
    }
  }

  /** Reading the delta's bytes applies the planned commands. */
  lemma DeltaPaints(signed: bool, prev: Bitmap, cur: Bitmap)
    requires Shape(prev, cur)
    ensures ApplyStream(DeltaBytes(signed, prev, cur), prev.Shown(), prev.width)
         == Painted(prev, Plan(signed, prev, cur, prev.height))
  {
    hide Unpremult, Plan, Flatten;
    var commands := Commands(signed, prev, cur);
    StreamOfDeltas(commands, [], prev.Shown(), prev.width);
    assert Serialize(commands) + [END] + [] == Serialize(commands) + [END];
  }

  /** No row is read from below the bitmap where char is unsigned or the bitmap is under 256 rows high. */
  lemma NeverOvershoots(signed: bool, prev: Bitmap, cur: Bitmap, y: nat)
    requires Shape(prev, cur) && y < prev.height
    requires !signed || prev.height <= 255
    ensures !Overshoots(signed, prev, cur, y)
  {
    hide Unpremult, Plan, RowsAre;
    PlanPaints(signed, prev, cur, y);
    if Overshoots(signed, prev, cur, y) {
      var st := Plan(signed, prev, cur, y);
      ExtensionIsNext(signed, prev.height, st, Hunt(prev, cur.rows[y], y, st.offset, 0).value, y);
    }
  }

  lemma DeltaAlwaysRoundTrips(signed: bool, prev: Bitmap, cur: Bitmap)
    requires Shape(prev, cur)
    requires !signed || prev.height <= 255
    ensures ApplyStream(DeltaBytes(signed, prev, cur), prev.Shown(), prev.width) == cur.Shown()
  {
    hide *;
    forall y | 0 <= y < prev.height
      ensures !Overshoots(signed, prev, cur, y)
    {
      NeverOvershoots(signed, prev, cur, y);
    }
    DeltaRoundTrip(signed, prev, cur);
  }

  /** The delta is empty exactly when nothing changed. */
  lemma EmptyIffEqual(signed: bool, prev: Bitmap, cur: Bitmap)
    requires Shape(prev, cur)
    ensures DeltaBytes(signed, prev, cur) == [] <==> prev == cur
  {
    CommandsGrow(signed, prev, cur, prev.height);
    assert prev == cur <==> prev.rows == cur.rows;
  }

  lemma {:induction false} CommandsGrow(signed: bool, prev: Bitmap, cur: Bitmap, y: nat)
    requires Shape(prev, cur) && y <= prev.height
    ensures Plan(signed, prev, cur, y).commands == [] <==> prev.rows[..y] == cur.rows[..y]
  {
    hide Unpremult, UnpremultAll, Hunt, SameRun, DiffRun, Crc, Extends, Runs;
    if y > 0 {
      CommandsGrow(signed, prev, cur, y - 1);
      assert prev.rows[..y] == prev.rows[..y - 1] + [prev.rows[y - 1]];
      assert cur.rows[..y] == cur.rows[..y - 1] + [cur.rows[y - 1]];
    }
  }

  // ---- the hunt misses no row

  lemma {:induction false} HuntFinds(prev: Bitmap, line: seq<Pixel>, y: nat, offset: nat, yn: nat, k: nat)
    requires prev.Valid() && yn <= k < prev.height
    requires prev.rows[Candidate(y, offset, k, prev.height)] == line
    ensures Hunt(prev, line, y, offset, yn).Some?
    decreases k - yn
  {
    if yn < k {
      HuntFinds(prev, line, y, offset, yn + 1, k);
    }
  }

  /** How far the last copied row was moved, up or down, modulo 2^64. */
  predicate OffsetOk(offset: nat, y: nat, height: nat) {
    offset < height || TWO64 - y < offset < TWO64
  }

  lemma {:induction false} PlanOffset(signed: bool, prev: Bitmap, cur: Bitmap, y: nat)
    requires Shape(prev, cur) && y <= prev.height && prev.height > 0
    ensures OffsetOk(Plan(signed, prev, cur, y).offset, y, prev.height)
  {
    hide Hunt, Runs, Crc, Extends;
    if y > 0 {
      PlanOffset(signed, prev, cur, y - 1);
    }
  }

  /** The row a hunt starts from, before it is taken modulo the height. */
  function HuntBase(y: nat, offset: nat, height: nat): int {
    if offset < height then y + offset else y + offset - TWO64
  }

  /** The candidates of a hunt do not wrap around at 2^64 ... */
  lemma CandidateIs(y: nat, offset: nat, height: nat, yn: nat)
    requires y < height <= 256 && OffsetOk(offset, y, height) && yn < height
    ensures HuntBase(y, offset, height) >= 0
    ensures Candidate(y, offset, yn, height) == (HuntBase(y, offset, height) + yn) % height
  {
    assert (y + offset + yn) % TWO64 == HuntBase(y, offset, height) + yn;
  }

  lemma ReachRow(base: nat, height: nat, k: nat) returns (yn: nat)
    requires k < height
    ensures yn < height && (base + yn) % height == k
  {
    var q, b := base / height, base % height;
    assert base == q * height + b;
    if k >= b {
      yn := k - b;
      RemainderOf(q, k, height);
    } else {
      yn := k - b + height;
      RemainderOf(q + 1, k, height);
      assert (q + 1) * height == q * height + height;
    }
  }

  /** ... so they reach every row. */
  lemma CandidateReaches(y: nat, offset: nat, height: nat, k: nat) returns (yn: nat)
    requires y < height <= 256 && OffsetOk(offset, y, height) && k < height
    ensures yn < height && Candidate(y, offset, yn, height) == k
  {
    CandidateIs(y, offset, height, 0);
    hide Candidate, OffsetOk, HuntBase;
    yn := ReachRow(HuntBase(y, offset, height), height, k);
    CandidateIs(y, offset, height, yn);
  }

  /** A hunt that finds nothing has compared every row: none of them equals the line. */
  lemma HuntMissesNothing(signed: bool, prev: Bitmap, cur: Bitmap, y: nat, k: nat)
    requires Shape(prev, cur) && y < prev.height && k < prev.height
    requires Hunt(prev, cur.rows[y], y, Plan(signed, prev, cur, y).offset, 0).None?
    ensures prev.rows[k] != cur.rows[y]
  {
    var offset := Plan(signed, prev, cur, y).offset;
    PlanOffset(signed, prev, cur, y);
    hide Plan, Hunt, OffsetOk;
    var yn := CandidateReaches(y, offset, prev.height, k);
    if prev.rows[k] == cur.rows[y] {
      HuntFinds(prev, cur.rows[y], y, offset, 0, yn);
    }
  }

  /** So a changed row is sent as a copy exactly if it equals some row of the previous bitmap. */
  lemma HuntDecides(signed: bool, prev: Bitmap, cur: Bitmap, y: nat)
    requires Shape(prev, cur) && y < prev.height
    ensures Hunt(prev, cur.rows[y], y, Plan(signed, prev, cur, y).offset, 0).Some? <==> cur.rows[y] in prev.rows
  {
    hide Plan;
    var m := Hunt(prev, cur.rows[y], y, Plan(signed, prev, cur, y).offset, 0);
    hide Hunt;
    if m.None? && cur.rows[y] in prev.rows {
      var k :| 0 <= k < |prev.rows| && prev.rows[k] == cur.rows[y];
      HuntMissesNothing(signed, prev, cur, y, k);
    }
  }

  // ---- a bitmap of 256 rows where a signed char goes wrong

  /** Row 0, row 255 and all rows between have one opaque colour each. */
  function Bands(): Bitmap {
    Bitmap(2, 256, seq(256, y => if y == 0 then [0xff00_0001, 0xff00_0001]
                                 else if y == 255 then [0xff00_0002, 0xff00_0002]
                                 else [0xff00_0000, 0xff00_0000]))
  }

  /** The last row moved to row 1 and the first row to row 2. */
  function BandsMoved(): Bitmap {
    Bands().(rows := Bands().rows[1 := [0xff00_0002, 0xff00_0002]][2 := [0xff00_0001, 0xff00_0001]])
  }

  /** The client would show row 256 of the old bitmap, which does not exist, in row 2. */
  lemma TallBitmapGoesWrong()
    ensures Shape(Bands(), BandsMoved())
    ensures ApplyStream(DeltaBytes(true, Bands(), BandsMoved()), Bands().Shown(), 2) != BandsMoved().Shown()
  {
    hide ApplyStream, Flatten, Crc, Unpremult, Plan;
    var prev, cur := Bands(), BandsMoved();
    BandsOvershoot();
    OpaqueBlue();
    assert UnpremultAll(cur.rows[2])[0] != BLANK;
    DeltaRoundTrip(true, prev, cur);
  }

  lemma OpaqueBlue()
    ensures Unpremult(0xff00_0001) == Rgba(0, 0, 1, 255)
  {
  }

  lemma BandsOvershoot()
    ensures Shape(Bands(), BandsMoved()) && Overshoots(true, Bands(), BandsMoved(), 2)
  {
    hide Unpremult, UnpremultAll, Crc, Runs;
    var prev, cur := Bands(), BandsMoved();
    assert Plan(true, prev, cur, 1) == START;
    HuntFinds(prev, cur.rows[1], 1, 0, 0, 254);
    var m := Hunt(prev, cur.rows[1], 1, 0, 0).value;
    assert m == 255 by { assert prev.rows[m] == cur.rows[1]; }
    assert Plan(true, prev, cur, 2) == Scan([Copy(1, 255, 1)], 254, 0);
    HuntFinds(prev, cur.rows[2], 2, 254, 0, 0);
    assert Candidate(2, 254, 0, 256) == 0;
  }

  // ---- the encoder itself

  lemma SerializePatch(commands: seq<Command>, i: nat, count: byte)
    requires AllValid(commands) && i < |commands| && commands[i].Copy?
    ensures var at := |Serialize(commands[..i])| + 1;
      && at + 3 <= |Serialize(commands)|
      && Serialize(commands)[at] == commands[i].count
      && Serialize(commands)[at + 1] == commands[i].src
      && Serialize(commands)[at + 2] == commands[i].dest
      && AllValid(commands[i := commands[i].(count := count)])
      && Serialize(commands[i := commands[i].(count := count)]) == Serialize(commands)[at := count]
  {
    hide Wire;
    var c, patched := commands[i], commands[i := commands[i].(count := count)];
    var front, back := commands[..i], commands[i + 1..];
    assert commands == front + ([c] + back);
    assert patched == front + ([c.(count := count)] + back);
    SerializeAppend(front, [c] + back);
    SerializeAppend(front, [c.(count := count)] + back);
    SerializeFirst(c, back);
    SerializeFirst(c.(count := count), back);
    PatchMiddle(Serialize(front), COPY, c.count, c.src, c.dest, count, Serialize(back));
  }

  lemma PatchMiddle(a: seq<byte>, k: byte, count: byte, src: byte, dest: byte, after: byte, b: seq<byte>)
    ensures var all := a + ([k, count, src, dest] + b);
      && all[|a| + 1] == count && all[|a| + 2] == src && all[|a| + 3] == dest
      && all[|a| + 1 := after] == a + ([k, after, src, dest] + b)
  {
  }

  lemma SerializeFirst(c: Command, back: seq<Command>)
    requires c.Valid() && AllValid(back)
    ensures AllValid([c] + back) && Serialize([c] + back) == c.Bytes() + Serialize(back)
  {
    hide Wire;
    assert ([c] + back)[1..] == back;
  }

  lemma SerializeEmpty(commands: seq<Command>)
    requires AllValid(commands)
    ensures Serialize(commands) == [] <==> commands == []
  {
    if commands != [] {
      assert |commands[0].Bytes()| >= 4;
    }
  }

  /** The bytes of the last copy are where the encoder looks for them. */
  lemma LastCopyBytes(st: Scan)
    requires st.Valid() && st.last >= 0
    ensures var bytes, at, c := Serialize(st.commands), st.CountAt(), st.commands[st.last];
      && 0 < at && at + 3 <= |bytes|
      && bytes[at] == c.count && bytes[at + 1] == c.src && bytes[at + 2] == c.dest
  {
    hide Wire, Serialize;
    SerializePatch(st.commands, st.last, 0);
  }

  /** How the bytes grow when the hunt for row y found row m: in place ... */
  lemma ExtendBytes(signed: bool, prev: Bitmap, cur: Bitmap, st: Scan, y: nat, m: byte)
    requires Shape(prev, cur) && y < prev.height && st.Valid() && prev.rows[y] != cur.rows[y]
    requires Hunt(prev, cur.rows[y], y, st.offset, 0) == Some(m)
    requires st.last >= 0 && Extends(signed, st.commands[st.last], m, y)
    ensures var next, bytes, at := Step(signed, prev, cur, st, y), Serialize(st.commands), st.CountAt();
      && next.offset == st.offset && next.CountAt() == at
      && at < |bytes| && Serialize(next.commands) == bytes[at := Inc(bytes[at])]
  {
    hide Hunt, Runs, Crc, Wire, Serialize;
    LastCopyBytes(st);
    SerializePatch(st.commands, st.last, Inc(st.commands[st.last].count));
    var next := Step(signed, prev, cur, st, y);
    assert next.commands[..next.last] == st.commands[..st.last];
  }

  /** ... or by one more copy command. */
  lemma CopyBytes(signed: bool, prev: Bitmap, cur: Bitmap, st: Scan, y: nat, m: byte)
    requires Shape(prev, cur) && y < prev.height && st.Valid() && prev.rows[y] != cur.rows[y]
    requires Hunt(prev, cur.rows[y], y, st.offset, 0) == Some(m)
    requires !(st.last >= 0 && Extends(signed, st.commands[st.last], m, y))
    ensures var next, bytes := Step(signed, prev, cur, st, y), Serialize(st.commands);
      && next.offset == (m - y) % TWO64 && next.CountAt() == |bytes| + 1
      && Serialize(next.commands) == bytes + [COPY, 1, m, y]
  {
    hide Hunt, Runs, Crc, Wire;
    SerializeAppend(st.commands, [Copy(1, m, y)]);
    SerializeFirst(Copy(1, m, y), []);
    hide Serialize;
    assert [Copy(1, m, y)] + [] == [Copy(1, m, y)];
    assert Serialize([]) == [] by { SerializeEmpty([]); }
    var next := Step(signed, prev, cur, st, y);
    assert next.commands[..next.last] == st.commands;
  }

  /** How the bytes grow when no row matches. */
  lemma RunsBytes(signed: bool, prev: Bitmap, cur: Bitmap, st: Scan, y: nat)
    requires Shape(prev, cur) && y < prev.height && st.Valid() && prev.rows[y] != cur.rows[y]
    requires Hunt(prev, cur.rows[y], y, st.offset, 0) == None
    ensures var next := Step(signed, prev, cur, st, y);
      && next.offset == st.offset && next.CountAt() == st.CountAt()
      && Serialize(next.commands) == Serialize(st.commands) + Serialize(Runs(prev.rows[y], cur.rows[y], y, 0))
  {
    hide Hunt, Runs, Crc, Wire;
    var next := Step(signed, prev, cur, st, y);
    SerializeAppend(st.commands, Runs(prev.rows[y], cur.rows[y], y, 0));
    if st.last >= 0 {
      assert next.commands[..next.last] == st.commands[..st.last];
    }
  }

  /** The runs of a row start behind its equal pixels, if there are others. */
  lemma RunsFirst(p: seq<Pixel>, c: seq<Pixel>, y: byte, x: nat)
    requires |p| == |c| <= 256 && x <= |p|
    ensures var from := x + SameRun(p, c, x);
      if from == |p| then Runs(p, c, y, x) == []
      else
        var n := DiffRun(p, c, from, 0);
        Runs(p, c, y, x) == [Run(y, from, UnpremultAll(c[from..from + n]))] + Runs(p, c, y, from + n)
  {
    hide UnpremultAll, SameRun, DiffRun;
  }

  lemma RunBytes(p: seq<Pixel>, c: seq<Pixel>, y: byte, x: nat)
    requires |p| == |c| <= 256 && x <= |p|
    ensures var from := x + SameRun(p, c, x);
      if from == |p| then Serialize(Runs(p, c, y, x)) == []
      else
        var n := DiffRun(p, c, from, 0);
        Serialize(Runs(p, c, y, x))
        == [RUN, y, from, n] + Wire(UnpremultAll(c[from..from + n])) + Serialize(Runs(p, c, y, from + n))
  {
    hide Unpremult, UnpremultAll, Wire, SameRun, DiffRun, Serialize, Runs;
    RunsFirst(p, c, y, x);
    var from := x + SameRun(p, c, x);
    if from == |p| {
      SerializeEmpty([]);
    } else {
      var n := DiffRun(p, c, from, 0);
      SerializeFirst(Run(y, from, UnpremultAll(c[from..from + n])), Runs(p, c, y, from + n));
    }
  }

  method CountSame(p: seq<Pixel>, c: seq<Pixel>, x: nat) returns (same: nat)
    requires |p| == |c| && x <= |p|
    ensures same == SameRun(p, c, x)
  {
    same := 0;
    while same + x < |p| && p[x + same] == c[x + same]
      invariant x + same <= |p| && SameRun(p, c, x) == same + SameRun(p, c, x + same)
    {
      same := same + 1;
    }
  }

  method CountDiff(p: seq<Pixel>, c: seq<Pixel>, x: nat) returns (diff: nat)
    requires |p| == |c| && x <= |p|
    ensures diff == DiffRun(p, c, x, 0)
  {
    diff := 0;
    while diff + x < |p| && (p[x + diff] != c[x + diff] || diff < 3) && diff < 254
      invariant x + diff <= |p| && diff <= 254 && DiffRun(p, c, x, 0) == DiffRun(p, c, x, diff)
    {
      diff := diff + 1;
    }
  }

  /** The pixel runs of one changed row, found by scanning for equal and different stretches. */
  method EmitRuns(p: seq<Pixel>, c: seq<Pixel>, y: byte) returns (bytes: seq<byte>)
    requires |p| == |c| <= 256
    ensures bytes == Serialize(Runs(p, c, y, 0))
  {
    hide Unpremult, UnpremultAll, Wire, Runs, Serialize, SameRun, DiffRun;
    bytes := [];
    var x := 0;
    while x < |p|
      invariant x <= |p|
      invariant Serialize(Runs(p, c, y, 0)) == bytes + Serialize(Runs(p, c, y, x))
    {
      RunBytes(p, c, y, x);
      var same := CountSame(p, c, x);
      x := x + same;
      var diff := CountDiff(p, c, x);
      if diff > 0 {
        var header: seq<byte> := [RUN, y, x, diff];
        var pixels := UnpremultCopy(c[x..x + diff]);
        bytes := bytes + header + pixels;
        x := x + diff;
      } else {
        RunBytes(p, c, y, x);
      }
    }
    RunBytes(p, c, y, x);
  }

  /** The hunt for a row of the previous bitmap that equals row y of the current one. When it
      finds one, the last copy grows in place by one row or a new copy is appended. */
  method MatchRow(prev: Bitmap, cur: Bitmap, signed: bool, y: nat, ghost st: Scan,
                  output: seq<byte>, lastMatchOffset: nat, lastCopy: nat)
    returns (matched: bool, bytes: seq<byte>, offset: nat, copyAt: nat)
    requires Shape(prev, cur) && y < prev.height && prev.rows[y] != cur.rows[y] && st.Valid()
    requires output == Serialize(st.commands) && lastMatchOffset == st.offset && lastCopy == st.CountAt()
    ensures matched <==> Hunt(prev, cur.rows[y], y, st.offset, 0).Some?
    ensures var now := if matched then Step(signed, prev, cur, st, y) else st;
      bytes == Serialize(now.commands) && offset == now.offset && copyAt == now.CountAt()
  {
    hide Unpremult, Wire, Runs, Crc, Candidate, Serialize;
    bytes, offset, copyAt := output, lastMatchOffset, lastCopy;
    for yn := 0 to prev.height
      invariant Hunt(prev, cur.rows[y], y, st.offset, 0) == Hunt(prev, cur.rows[y], y, st.offset, yn)
    {
      var source := Candidate(y, lastMatchOffset, yn, prev.height);
      if Identical(prev.rows[source], cur.rows[y]) {
        if lastCopy > 0 {
          LastCopyBytes(st);
          var cnt := output[lastCopy];
          if Char(signed, output[lastCopy + 1]) + Char(signed, cnt) == Char(signed, source)
            && Char(signed, output[lastCopy + 2]) + Char(signed, cnt) == Char(signed, y)
          {
            ExtendBytes(signed, prev, cur, st, y, source);
            bytes := output[lastCopy := Inc(cnt)];
            return true, bytes, offset, copyAt;
          }
        }
        CopyBytes(signed, prev, cur, st, y, source);
        offset := (source - y) % TWO64;
        var copy: seq<byte> := [COPY, 1, source, y];
        copyAt := |output| + 1;
        bytes := output + copy;
        return true, bytes, offset, copyAt;
      }
    }
    matched := false;
  }

  /** makeDelta, before compression. */
  method MakeDelta(prev: Bitmap, cur: Bitmap, signed: bool) returns (ok: bool, output: seq<byte>)
    requires prev.Valid() && cur.Valid()
    requires prev.width == cur.width && prev.height == cur.height ==> prev.width <= 256 && prev.height <= 256
    ensures ok <==> prev.width == cur.width && prev.height == cur.height
    ensures !ok ==> output == []
    ensures ok ==> output == DeltaBytes(signed, prev, cur)
  {
    hide Unpremult, Wire, Runs, Crc, Serialize, Hunt;
    output := [];
    if prev.width != cur.width || prev.height != cur.height {
      return false, output;
    }
    var lastMatchOffset, lastCopy := 0, 0;
    ghost var st := START;
    SerializeEmpty(st.commands);
    for y := 0 to prev.height
      invariant st == Plan(signed, prev, cur, y)
      invariant output == Serialize(st.commands) && lastMatchOffset == st.offset && lastCopy == st.CountAt()
    {
      if !Identical(prev.rows[y], cur.rows[y]) {
        var matched;
        matched, output, lastMatchOffset, lastCopy :=
          MatchRow(prev, cur, signed, y, st, output, lastMatchOffset, lastCopy);
        if !matched {
          var runs := EmitRuns(prev.rows[y], cur.rows[y], y);
          RunsBytes(signed, prev, cur, st, y);
          output := output + runs;
        }
      }
      st := Step(signed, prev, cur, st, y);
    }
    ok := true;
    SerializeEmpty(st.commands);
    if output != [] {
      output := output + [END];
    }
  }
}
