/** Pixels as the renderer hands them over (premultiplied ARGB in a native 32-bit word)
    and as the client shows them (straight-alpha RGBA bytes). */
module Pixels {
  import opened Arithmetic

  type byte = b: int | 0 <= b < 0x100

  /** A premultiplied ARGB pixel, one uint32_t. */
  type Pixel = p: int | 0 <= p < 0x1_0000_0000

  /** Four consecutive bytes of a client image. */
  datatype Rgba = Rgba(r: byte, g: byte, b: byte, a: byte)

  const BLANK := Rgba(0, 0, 0, 0)

  function Alpha(p: Pixel): byte { p / 0x100_0000 }
  function Red(p: Pixel): byte { p / 0x1_0000 % 0x100 }
  function Green(p: Pixel): byte { p / 0x100 % 0x100 }
  function Blue(p: Pixel): byte { p % 0x100 }

  /** One colour channel divided by alpha, rounded to nearest, then truncated to a byte. */
  function Unscale(c: byte, alpha: byte): byte
    requires alpha != 0
  {
    (c * 255 + alpha / 2) / alpha % 0x100
  }

  /** What the client must show for a rendered pixel. */
  function Unpremult(p: Pixel): Rgba {
    var alpha := Alpha(p);
    if alpha == 255 then Rgba(Red(p), Green(p), Blue(p), 255)
    else if alpha == 0 then BLANK
    else Rgba(Unscale(Red(p), alpha), Unscale(Green(p), alpha), Unscale(Blue(p), alpha), alpha)
  }

  function UnpremultAll(src: seq<Pixel>): (image: seq<Rgba>)
    ensures |image| == |src|
    ensures forall k :: 0 <= k < |src| ==> image[k] == Unpremult(src[k])
  {
    seq(|src|, k requires 0 <= k < |src| => Unpremult(src[k]))
  }

  /** A pixel in wire order. */
  function Quad(c: Rgba): (q: seq<byte>)
    ensures |q| == 4
  {
    [c.r, c.g, c.b, c.a]
  }

  function Wire(image: seq<Rgba>): (bytes: seq<byte>)
    ensures |bytes| == 4 * |image|
  {
    if image == [] then [] else Quad(image[0]) + Wire(image[1..])
  }

  function Unwire(bytes: seq<byte>): (image: seq<Rgba>)
    requires |bytes| % 4 == 0
    ensures |image| == |bytes| / 4
  {
    if bytes == [] then []
    else [Rgba(bytes[0], bytes[1], bytes[2], bytes[3])] + Unwire(bytes[4..])
  }

  lemma {:induction false} UnwireWire(image: seq<Rgba>)
    ensures Unwire(Wire(image)) == image
  {
    if image != [] {
      var w := Wire(image);
      assert w[4..] == Wire(image[1..]);
      UnwireWire(image[1..]);
    }
  }

  lemma {:induction false} WireAppend(image: seq<Rgba>, c: Rgba)
    ensures Wire(image + [c]) == Wire(image) + Quad(c)
  {
    if image == [] {
      assert Wire([c]) == Quad(c) + Wire([]);
    } else {
      assert (image + [c])[1..] == image[1..] + [c];
      WireAppend(image[1..], c);
    }
  }

  /** The four bytes of each pixel, in the order of a canvas: red, green, blue, alpha. */
  lemma {:induction false} WireAt(image: seq<Rgba>, k: nat)
    requires k < |image|
    ensures var w := Wire(image);
      w[4 * k] == image[k].r && w[4 * k + 1] == image[k].g && w[4 * k + 2] == image[k].b && w[4 * k + 3] == image[k].a
  {
    if k > 0 {
      WireAt(image[1..], k - 1);
      assert Wire(image)[4..] == Wire(image[1..]);
    }
  }

  /** unpremult_copy: a repeated source pixel is answered by repeating the last four bytes
      written instead of dividing again. */
  method UnpremultCopy(src: seq<Pixel>) returns (dest: seq<byte>)
    ensures dest == Wire(UnpremultAll(src))
    ensures forall k :: 0 <= k < |src| && Premultiplied(src[k]) ==>
      Premult(Rgba(dest[4 * k], dest[4 * k + 1], dest[4 * k + 2], dest[4 * k + 3])) == src[k]
  {
    hide Premult, Premultiplied;
    dest := [];
    for i := 0 to |src|
      invariant dest == Wire(UnpremultAll(src[..i]))
    {
      ghost var before := UnpremultAll(src[..i]);
      assert UnpremultAll(src[..i + 1]) == before + [Unpremult(src[i])];
      WireAppend(before, Unpremult(src[i]));
      if i > 0 && src[i - 1] == src[i] {
        ghost var earlier := UnpremultAll(src[..i - 1]);
        assert before == earlier + [Unpremult(src[i])];
        WireAppend(earlier, Unpremult(src[i]));
        dest := dest + dest[|dest| - 4..];
        continue;
      }
      var pix := src[i];
      var alpha := Alpha(pix);
      if alpha == 255 {
        dest := dest + [Red(pix), Green(pix), Blue(pix), 255];
      } else if alpha == 0 {
        dest := dest + [0, 0, 0, 0];
      } else {
        dest := dest + [Unscale(Red(pix), alpha), Unscale(Green(pix), alpha), Unscale(Blue(pix), alpha), alpha];
      }
    }
    assert src[..|src|] == src;
    forall k | 0 <= k < |src| && Premultiplied(src[k])
      ensures Premult(Rgba(dest[4 * k], dest[4 * k + 1], dest[4 * k + 2], dest[4 * k + 3])) == src[k]
    {
      WireAt(UnpremultAll(src), k);
      PremultUnpremult(src[k]);
    }
  }

  /** A pixel that can come from premultiplying: no channel exceeds alpha. */
  predicate Premultiplied(p: Pixel) {
    Red(p) <= Alpha(p) && Green(p) <= Alpha(p) && Blue(p) <= Alpha(p)
  }

  /** Multiplying a straight channel by alpha again, rounding to nearest. */
  function Rescale(u: byte, alpha: byte): int {
    (u * alpha + 127) / 255
  }

  /** The division needs no truncation when the channel does not exceed alpha ... */
  lemma UnscaleFits(c: byte, alpha: byte)
    requires alpha != 0 && c <= alpha
    ensures (c * 255 + alpha / 2) / alpha == Unscale(c, alpha)
  {
    SmallQuotient(c * 255 + alpha / 2, alpha, 256);
  }

  /** ... and loses nothing: multiplying back recovers the channel. */
  lemma UnscaleRescale(c: byte, alpha: byte)
    requires alpha != 0 && c <= alpha
    ensures Rescale(Unscale(c, alpha), alpha) == c
  {
    UnscaleFits(c, alpha);
    var u := (c * 255 + alpha / 2) / alpha;
    var r := (c * 255 + alpha / 2) % alpha;
    assert u * alpha == c * 255 + alpha / 2 - r;
    assert 255 * c <= u * alpha + 127 < 255 * (c + 1);
  }

  /** Eight bits of each channel, alpha uppermost and blue lowermost. */
  lemma PixelFromChannels(p: Pixel)
    ensures p == Alpha(p) * 0x100_0000 + Red(p) * 0x1_0000 + Green(p) * 0x100 + Blue(p)
  {
    assert p / 0x100 / 0x100 == p / 0x1_0000;
    assert p / 0x1_0000 / 0x100 == p / 0x100_0000;
  }

  /** The premultiplied ARGB word of a straight pixel. */
  function Premult(c: Rgba): int {
    c.a * 0x100_0000 + Rescale(c.r, c.a) * 0x1_0000 + Rescale(c.g, c.a) * 0x100 + Rescale(c.b, c.a)
  }

  /** Every channel of what the client shows is the rendered one: premultiplying it again gives
      the rendered pixel. */
  lemma PremultUnpremult(p: Pixel)
    requires Premultiplied(p)
    ensures Unpremult(p).a == Alpha(p) && Premult(Unpremult(p)) == p
  {
    var alpha := Alpha(p);
    PixelFromChannels(p);
    hide Unscale, Red, Green, Blue, Alpha;
    if alpha == 255 {
      RescaleOpaque(Red(p)); RescaleOpaque(Green(p)); RescaleOpaque(Blue(p));
    } else if alpha == 0 {
      assert Red(p) == Green(p) == Blue(p) == 0;
    } else {
      UnscaleRescale(Red(p), alpha); UnscaleRescale(Green(p), alpha); UnscaleRescale(Blue(p), alpha);
    }
  }

  lemma RescaleOpaque(u: byte)
    ensures Rescale(u, 255) == u
  {
  }

  /** Two rendered pixels the client shows alike were the same pixel. */
  lemma UnpremultInjective(p: Pixel, q: Pixel)
    requires Premultiplied(p) && Premultiplied(q)
    requires Unpremult(p) == Unpremult(q)
    ensures p == q
  {
    hide Unpremult, Premult, Premultiplied;
    PremultUnpremult(p);
    PremultUnpremult(q);
  }
}
