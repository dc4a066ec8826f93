/**
 The geometry of reading the output image back to the host: the size of the
 host buffer, the origin and region of the read, and the tightly packed,
 row-major RGBA layout the read leaves in the buffer (no row pitch is passed,
 so rows follow one another without padding).
 */
module Readback {
  import Arith

  /** RGBA channel order with one unsigned normalised byte per channel. */
  const BytesPerPixel: nat := 4

  /** A three-dimensional offset or extent, `(x, y, z)`. */
  datatype Extent3 = Extent3(x: nat, y: nat, z: nat)

  function Volume(e: Extent3): nat
  {
    e.x * e.y * e.z
  }

  /** The host buffer length, and the origin and region of the image read. */
  datatype ReadbackPlan = ReadbackPlan(bufferLength: nat, origin: Extent3, region: Extent3)

  /** The read-back of a `width` by `height` output image: the host buffer
      holds exactly one RGBA pixel per cell of the region, and the region
      starts at the image corner and spans the whole two-dimensional image. */
  function PlanReadback(width: nat, height: nat): (p: ReadbackPlan)
    ensures p.bufferLength == BytesPerPixel * Volume(p.region)
    ensures p.bufferLength == width * height * BytesPerPixel
    ensures p.origin == Extent3(0, 0, 0)
    ensures p.region == Extent3(width, height, 1)
  {
    ReadbackPlan(width * height * BytesPerPixel, Extent3(0, 0, 0), Extent3(width, height, 1))
  }

  /** One channel of one pixel of the image. */
  datatype Texel = Texel(x: nat, y: nat, channel: nat)

  /** The channels that the read of `p` transfers. */
  predicate InRegion(p: ReadbackPlan, t: Texel)
  {
    && p.origin.x <= t.x < p.origin.x + p.region.x
    && p.origin.y <= t.y < p.origin.y + p.region.y
    && t.channel < BytesPerPixel
  }

  /** Where the read puts a channel: rows of `width` pixels, one after another. */
  function Offset(width: nat, t: Texel): nat
  {
    (t.y * width + t.x) * BytesPerPixel + t.channel
  }

  /** Which channel the buffer byte at `o` holds. */
  function TexelAt(width: nat, o: nat): Texel
    requires width > 0
  {
    var pixel := o / BytesPerPixel;
    Texel(pixel % width, pixel / width, o % BytesPerPixel)
  }

  /** Every channel in the region lands inside the host buffer, and reading
      the buffer position back names the same channel. */
  lemma OffsetRoundTrip(width: nat, height: nat, t: Texel)
    requires InRegion(PlanReadback(width, height), t)
    ensures Offset(width, t) < PlanReadback(width, height).bufferLength
    ensures TexelAt(width, Offset(width, t)) == t
  {
    var pixel := t.y * width + t.x;
    assert t.y <= height - 1;
    Arith.MulNonneg(height - 1 - t.y, width);
    assert (height - 1) * width == t.y * width + (height - 1 - t.y) * width;
    assert pixel < height * width;
    Arith.DivModUnique(Offset(width, t), BytesPerPixel, pixel, t.channel);
    Arith.DivModUnique(pixel, width, t.y, t.x);
  }

  /** Every byte of the host buffer holds a channel of the region, at the
      position `Offset` gives it: the buffer is exactly filled. */
  lemma TexelRoundTrip(width: nat, height: nat, o: nat)
    requires o < PlanReadback(width, height).bufferLength
    ensures width > 0
    ensures InRegion(PlanReadback(width, height), TexelAt(width, o))
    ensures Offset(width, TexelAt(width, o)) == o
  {
    if width == 0 {
      assert false;
    }
    var pixel := o / BytesPerPixel;
    var t := TexelAt(width, o);
    assert o == BytesPerPixel * pixel + o % BytesPerPixel;
    assert pixel == width * t.y + t.x;
    if t.y >= height {
      Arith.MulNonneg(t.y - height, width);
      assert false;
    }
  }

  /** Distinct channels of the region occupy distinct buffer bytes. */
  lemma OffsetInjective(width: nat, height: nat, s: Texel, t: Texel)
    requires InRegion(PlanReadback(width, height), s)
    requires InRegion(PlanReadback(width, height), t)
    requires s != t
    ensures Offset(width, s) != Offset(width, t)
  {
    OffsetRoundTrip(width, height, s);
    OffsetRoundTrip(width, height, t);
  }
}
