/** The delta wire format and the client that applies it.

    A delta is a list of row copies (always read from the image as it was before the
    delta) and of pixel runs, closed by a terminator. Images are flat, row after row. */
module DeltaCodec {
  import opened Arithmetic
  import opened Pixels

  const COPY: byte := 99   // 'c'
  const RUN: byte := 100   // 'd'
  const END: byte := 116   // 't'

  type Image = seq<Rgba>

  datatype Command =
    | Copy(count: byte, src: byte, dest: byte)
    | Run(row: byte, col: byte, pixels: seq<Rgba>)
  {
    predicate Valid() {
      Run? ==> |pixels| < 0x100
    }

    function Bytes(): seq<byte>
      requires Valid()
    {
      match this
      case Copy(count, src, dest) => [COPY, count, src, dest]
      case Run(row, col, pixels) => [RUN, row, col, |pixels|] + Wire(pixels)
    }
  }

  predicate AllValid(commands: seq<Command>) {
    forall i :: 0 <= i < |commands| ==> commands[i].Valid()
  }

  function Serialize(commands: seq<Command>): seq<byte>
    requires AllValid(commands)
  {
    if commands == [] then [] else commands[0].Bytes() + Serialize(commands[1..])
  }

  /** Reading a typed array past its end gives nothing, which is stored as zero. */
  function At(base: Image, k: nat): Rgba {
    if k < |base| then base[k] else BLANK
  }

  function CopyRows(img: Image, base: Image, width: nat, count: nat, src: nat, dest: nat): (r: Image)
    ensures |r| == |img|
  {
    seq(|img|, k requires 0 <= k < |img| =>
      if dest * width <= k < dest * width + count * width
      then At(base, k - dest * width + src * width) else img[k])
  }

  /** Index of a pixel in a flat image. */
  function Offset(width: nat, row: nat, col: nat): nat { row * width + col }

  function Splice(img: Image, at: nat, pixels: seq<Rgba>): (r: Image)
    ensures |r| == |img|
  {
    seq(|img|, k requires 0 <= k < |img| =>
      if at <= k < at + |pixels| then pixels[k - at] else img[k])
  }

  function Apply(img: Image, base: Image, width: nat, c: Command): (r: Image)
    ensures |r| == |img|
  {
    match c
    case Copy(count, src, dest) => CopyRows(img, base, width, count, src, dest)
    case Run(row, col, pixels) => Splice(img, Offset(width, row, col), pixels)
  }

  function ApplyAll(img: Image, base: Image, width: nat, commands: seq<Command>): (r: Image)
    ensures |r| == |img|
    decreases |commands|
  {
    if commands == [] then img
    else ApplyAll(Apply(img, base, width, commands[0]), base, width, commands[1..])
  }

  /** Length in bytes of a run command of n pixels. */
  function RunSize(n: nat): nat { 4 + 4 * n }

  /** The client's loop over one delta: the image it leaves and the bytes it consumed. */
  function DecodeChunk(delta: seq<byte>, base: Image, img: Image, width: nat): (r: (Image, nat))
    ensures |r.0| == |img|
    ensures delta != [] ==> 0 < r.1 <= |delta|
    decreases |delta|
  {
    if delta == [] then (img, 0)
    else if delta[0] == COPY && |delta| >= 4 then
      var next := DecodeChunk(delta[4..], base, CopyRows(img, base, width, delta[1], delta[2], delta[3]), width);
      (next.0, next.1 + 4)
    else if delta[0] == RUN && |delta| >= 4 && |delta| >= RunSize(delta[3]) then
      var size := RunSize(delta[3]);
      var next := DecodeChunk(delta[size..], base,
                              Splice(img, Offset(width, delta[1], delta[2]), Unwire(delta[4..size])), width);
      (next.0, next.1 + size)
    else if delta[0] == END then (img, 1)
    else (img, |delta|)
  }

  /** The client's loop over a stream of deltas, each applied to the image left by the one before. */
  function ApplyStream(stream: seq<byte>, img: Image, width: nat): (r: Image)
    ensures |r| == |img|
    decreases |stream|
  {
    if stream == [] then img
    else
      var chunk := DecodeChunk(stream, img, img, width);
      ApplyStream(stream[chunk.1..], chunk.0, width)
  }

  // ---- the byte form is read back exactly

  lemma DecodeCommand(c: Command, rest: seq<byte>, base: Image, img: Image, width: nat)
    requires c.Valid()
    ensures var next := DecodeChunk(rest, base, Apply(img, base, width, c), width);
            DecodeChunk(c.Bytes() + rest, base, img, width) == (next.0, next.1 + |c.Bytes()|)
  {
    hide CopyRows, Splice, Offset;
    var delta := c.Bytes() + rest;
    match c
    case Copy(_, _, _) =>
      assert delta[4..] == rest;
    case Run(row, col, pixels) =>
      var size := RunSize(delta[3]);
      assert size == |c.Bytes()| && delta[size..] == rest;
      assert delta[4..size] == Wire(pixels);
      UnwireWire(pixels);
  }

  lemma DecodeEnd(rest: seq<byte>, base: Image, img: Image, width: nat)
    ensures DecodeChunk([END] + rest, base, img, width) == (img, 1)
  {
  }

  /** Decoding a terminated serialisation applies exactly its commands, in order, and stops
      right behind the terminator whatever follows it. */
  lemma {:induction false} DecodeSerialized(commands: seq<Command>, rest: seq<byte>, base: Image, img: Image,
                                            width: nat)
    requires AllValid(commands)
    ensures DecodeChunk(Serialize(commands) + [END] + rest, base, img, width)
         == (ApplyAll(img, base, width, commands), |Serialize(commands)| + 1)
    decreases |commands|
  {
    hide CopyRows, Splice, Wire, Unwire, DecodeChunk;
    if commands == [] {
      assert Serialize(commands) + [END] + rest == [END] + rest;
      DecodeEnd(rest, base, img, width);
    } else {
      var c := commands[0];
      var tail := Serialize(commands[1..]) + [END] + rest;
      assert Serialize(commands) + [END] + rest == c.Bytes() + tail;
      DecodeCommand(c, tail, base, img, width);
      DecodeSerialized(commands[1..], rest, base, Apply(img, base, width, c), width);
    }
  }

  /** Several deltas sent back to back are applied in turn. */
  lemma StreamOfDeltas(commands: seq<Command>, rest: seq<byte>, img: Image, width: nat)
    requires AllValid(commands)
    ensures ApplyStream(Serialize(commands) + [END] + rest, img, width)
         == ApplyStream(rest, ApplyAll(img, img, width, commands), width)
  {
    DecodeSerialized(commands, rest, img, img, width);
    var stream := Serialize(commands) + [END] + rest;
    assert stream[|Serialize(commands)| + 1..] == rest;
  }

  // ---- appending

  lemma {:induction false} SerializeAppend(a: seq<Command>, b: seq<Command>)
    requires AllValid(a) && AllValid(b)
    ensures AllValid(a + b) && Serialize(a + b) == Serialize(a) + Serialize(b)
    decreases |a|
  {
    if a == [] {
      assert a + b == b;
    } else {
      assert (a + b)[1..] == a[1..] + b;
      SerializeAppend(a[1..], b);
    }
  }

  lemma ApplyNothing(img: Image, base: Image, width: nat)
    ensures ApplyAll(img, base, width, []) == img
  {
  }

  lemma ApplyFirst(img: Image, base: Image, width: nat, c: Command, rest: seq<Command>)
    ensures ApplyAll(img, base, width, [c] + rest) == ApplyAll(Apply(img, base, width, c), base, width, rest)
  {
    hide Apply;
    assert ([c] + rest)[1..] == rest;
  }

  lemma {:induction false} ApplyAppend(img: Image, base: Image, width: nat, a: seq<Command>, b: seq<Command>)
    ensures ApplyAll(img, base, width, a + b) == ApplyAll(ApplyAll(img, base, width, a), base, width, b)
    decreases |a|
  {
    if a == [] {
      assert a + b == b;
    } else {
      assert (a + b)[1..] == a[1..] + b;
      ApplyAppend(Apply(img, base, width, a[0]), base, width, a[1..], b);
    }
  }

  // ---- the effect of a command, row by row

  /** Row r of an image, blank where the image does not reach. */
  function Row(img: Image, width: nat, r: nat): (row: seq<Rgba>)
    ensures |row| == width
  {
    seq(width, x requires 0 <= x < width => At(img, r * width + x))
  }

  lemma RowOrder(width: nat, a: nat, b: nat)
    requires a < b
    ensures a * width + width <= b * width
  {
    if width > 0 {
      Monotone(a + 1, b, width);
      assert (a + 1) * width == a * width + width;
    }
  }

  lemma RowBounds(width: nat, height: nat, r: nat, x: nat)
    requires r < height && x < width
    ensures r * width + x < height * width
  {
    RowOrder(width, r, height);
  }

  lemma InRows(width: nat, dest: nat, count: nat, r: nat, x: nat)
    requires x < width
    ensures dest * width <= r * width + x < dest * width + count * width <==> dest <= r < dest + count
  {
    assert dest * width + count * width == (dest + count) * width;
    if r < dest {
      RowOrder(width, r, dest);
    } else if r < dest + count {
      RowOrder(width, r, dest + count);
      assert (r - dest) * width >= 0;
    } else {
      assert (r - dest - count) * width >= 0;
    }
  }

  lemma CopyRowsAt(img: Image, base: Image, width: nat, count: nat, src: nat, dest: nat, r: nat, x: nat)
    requires x < width && r * width + x < |img|
    ensures CopyRows(img, base, width, count, src, dest)[r * width + x]
         == if dest <= r < dest + count then At(base, (r - dest + src) * width + x) else img[r * width + x]
  {
    InRows(width, dest, count, r, x);
    assert (r - dest + src) * width == r * width - dest * width + src * width;
  }

  lemma CopyRowsByRow(img: Image, base: Image, width: nat, height: nat, count: nat, src: nat, dest: nat, r: nat)
    requires |img| == height * width && r < height
    ensures Row(CopyRows(img, base, width, count, src, dest), width, r)
         == if dest <= r < dest + count then Row(base, width, r - dest + src) else Row(img, width, r)
  {
    var want := if dest <= r < dest + count then Row(base, width, r - dest + src) else Row(img, width, r);
    var got := Row(CopyRows(img, base, width, count, src, dest), width, r);
    forall x | 0 <= x < width
      ensures got[x] == want[x]
    {
      RowBounds(width, height, r, x);
      CopyRowsAt(img, base, width, count, src, dest, r, x);
    }
  }

  lemma InRun(width: nat, row: nat, col: nat, n: nat, r: nat, x: nat)
    requires x < width && col + n <= width
    ensures Offset(width, row, col) <= r * width + x < Offset(width, row, col) + n <==> r == row && col <= x < col + n
  {
    if r < row {
      RowOrder(width, r, row);
    } else if row < r {
      RowOrder(width, row, r);
    }
  }

  lemma SpliceByRow(img: Image, width: nat, height: nat, row: nat, col: nat, pixels: seq<Rgba>, r: nat)
    requires |img| == height * width && r < height
    requires col + |pixels| <= width
    ensures Row(Splice(img, Offset(width, row, col), pixels), width, r)
         == if r == row then Row(img, width, r)[..col] + pixels + Row(img, width, r)[col + |pixels|..]
            else Row(img, width, r)
  {
    var was := Row(img, width, r);
    var want := if r == row then was[..col] + pixels + was[col + |pixels|..] else was;
    var got := Row(Splice(img, Offset(width, row, col), pixels), width, r);
    forall x | 0 <= x < width
      ensures got[x] == want[x]
    {
      RowBounds(width, height, r, x);
      InRun(width, row, col, |pixels|, r, x);
      assert got[x] == Splice(img, Offset(width, row, col), pixels)[r * width + x];
    }
  }

  /** The image consists of exactly these rows. */
  ghost predicate RowsAre(img: Image, width: nat, rows: seq<seq<Rgba>>) {
    && |img| == |rows| * width
    && forall r :: 0 <= r < |rows| ==> Row(img, width, r) == rows[r]
  }

  lemma CopyOneRow(img: Image, base: Image, width: nat, rows: seq<seq<Rgba>>, src: nat, dest: nat)
    requires RowsAre(img, width, rows) && dest < |rows|
    ensures RowsAre(CopyRows(img, base, width, 1, src, dest), width, rows[dest := Row(base, width, src)])
  {
    forall r | 0 <= r < |rows| {
      CopyRowsByRow(img, base, width, |rows|, 1, src, dest, r);
    }
  }

  /** Raising the count of a copy by one paints one more row. */
  lemma CopyOneMoreRow(img: Image, base: Image, width: nat, rows: seq<seq<Rgba>>, count: nat, src: nat, dest: nat)
    requires RowsAre(CopyRows(img, base, width, count, src, dest), width, rows) && dest + count < |rows|
    ensures RowsAre(CopyRows(img, base, width, count + 1, src, dest), width,
                    rows[dest + count := Row(base, width, src + count)])
  {
    var next := rows[dest + count := Row(base, width, src + count)];
    forall r | 0 <= r < |rows|
      ensures Row(CopyRows(img, base, width, count + 1, src, dest), width, r) == next[r]
    {
      assert Row(CopyRows(img, base, width, count, src, dest), width, r) == rows[r];
      CopyRowsByRow(img, base, width, |rows|, count, src, dest, r);
      CopyRowsByRow(img, base, width, |rows|, count + 1, src, dest, r);
    }
  }

  lemma SpliceRow(img: Image, width: nat, rows: seq<seq<Rgba>>, row: nat, col: nat, pixels: seq<Rgba>)
    requires RowsAre(img, width, rows) && row < |rows| && col + |pixels| <= width == |rows[row]|
    ensures RowsAre(Splice(img, Offset(width, row, col), pixels), width,
                    rows[row := rows[row][..col] + pixels + rows[row][col + |pixels|..]])
  {
    forall r | 0 <= r < |rows| {
      SpliceByRow(img, width, |rows|, row, col, pixels, r);
    }
  }

  /** Its rows determine an image. */
  lemma RowsDetermine(a: Image, b: Image, width: nat, rows: seq<seq<Rgba>>)
    requires RowsAre(a, width, rows) && RowsAre(b, width, rows)
    ensures a == b
  {
    forall k | 0 <= k < |a|
      ensures a[k] == b[k]
    {
      assert width != 0;
      var r, x := k / width, k % width;
      assert r * width + x == k;
      assert (|rows| - r) * width > 0;
      assert Row(a, width, r) == rows[r] == Row(b, width, r);
      assert Row(a, width, r)[x] == At(a, k);
      assert Row(b, width, r)[x] == At(b, k);
    }
  }
}
