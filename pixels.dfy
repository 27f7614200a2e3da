/** Pixel access on a browser ImageData: a row-major RGBA byte buffer. */
module Pixels {

  import opened Geometry

  /** Index of the red channel of pixel p in a row-major RGBA buffer whose rows
      are `width` pixels wide; green, blue and alpha follow it. */
  function Offset(width: int, p: Point): int
  {
    4 * (p.1 * width + p.0)
  }

  /** p lies inside a width x height image. */
  predicate InImage(width: int, height: int, p: Point)
  {
    0 <= p.0 < width && 0 <= p.1 < height
  }

  /** The buffer s after writing colour c at byte offset r. Bytes of the
      four-byte range that fall outside s are dropped, as a typed array drops
      writes past its ends. */
  function Written(s: seq<Byte>, r: int, c: Color): (t: seq<Byte>)
    ensures |t| == |s|
  {
    seq(|s|, k requires 0 <= k < |s| => if r <= k < r + 4 then c[k - r] else s[k])
  }

  lemma MulMonotone(a: int, b: int, w: nat)
    requires a <= b
    ensures a * w <= b * w
  {
  }

  /** Every byte that get or set touches at a pixel inside the image lies
      inside the buffer of 4 * width * height bytes. */
  lemma OffsetInBuffer(width: nat, height: nat, p: Point)
    requires InImage(width, height, p)
    ensures 0 <= Offset(width, p)
    ensures Offset(width, p) + 4 <= 4 * width * height
  {
    var (x, y) := p;
    MulMonotone(0, y, width);
    MulMonotone(y + 1, height, width);
    assert (y + 1) * width == y * width + width;
  }

  /** Distinct pixels of the image own disjoint four-byte ranges. */
  lemma DistinctPixelsDisjoint(width: nat, height: nat, p: Point, q: Point)
    requires InImage(width, height, p) && InImage(width, height, q)
    requires p != q
    ensures Offset(width, p) + 4 <= Offset(width, q) || Offset(width, q) + 4 <= Offset(width, p)
  {
    if p.1 < q.1 {
      MulMonotone(p.1 + 1, q.1, width);
      assert (p.1 + 1) * width == p.1 * width + width;
    } else if q.1 < p.1 {
      MulMonotone(q.1 + 1, p.1, width);
      assert (q.1 + 1) * width == q.1 * width + width;
    }
  }

  /** Reading back the range just written gives the colour written. */
  lemma ReadAfterWrite(s: seq<Byte>, r: int, c: Color)
    requires 0 <= r && r + 4 <= |s|
    ensures Written(s, r, c)[r..r + 4] == c
  {
    var t := Written(s, r, c);
    assert forall i :: 0 <= i < 4 ==> t[r..r + 4][i] == t[r + i] == c[i];
  }

  /** A write leaves every four-byte range disjoint from its own unchanged. */
  lemma WriteFrame(s: seq<Byte>, r: int, c: Color, r': int)
    requires 0 <= r' && r' + 4 <= |s|
    requires r + 4 <= r' || r' + 4 <= r
    ensures Written(s, r, c)[r'..r' + 4] == s[r'..r' + 4]
  {
  }

  /** Writing the same colour at the same place twice is the same as once. */
  lemma WriteIdempotent(s: seq<Byte>, r: int, c: Color)
    ensures Written(Written(s, r, c), r, c) == Written(s, r, c)
  {
  }

  /** Read-after-write at pixel level: after setting pixel p to c in an image
      buffer, reading pixel q gives c when q is p and the old colour otherwise. */
  lemma GetAfterSet(width: nat, height: nat, s: seq<Byte>, p: Point, q: Point, c: Color)
    requires |s| == 4 * width * height
    requires InImage(width, height, p) && InImage(width, height, q)
    ensures Offset(width, q) + 4 <= |s|
    ensures Written(s, Offset(width, p), c)[Offset(width, q)..Offset(width, q) + 4]
            == if p == q then c else s[Offset(width, q)..Offset(width, q) + 4]
  {
    OffsetInBuffer(width, height, p);
    OffsetInBuffer(width, height, q);
    if p == q {
      ReadAfterWrite(s, Offset(width, p), c);
    } else {
      DistinctPixelsDisjoint(width, height, p, q);
      WriteFrame(s, Offset(width, p), c, Offset(width, q));
    }
  }

  /** The pixel data of an image: `width` and `height` in pixels and a
      Uint8ClampedArray of 4 * width * height channel bytes. The three
      fields are read-only; the bytes of `data` are updated in place. */
  class ImageData {
    const width: nat
    const height: nat
    const data: array<Byte>

    ghost predicate Valid()
    {
      data.Length == 4 * width * height
    }

    /** A fresh, fully transparent black image, as the browser allocates it. */
    constructor (width: nat, height: nat)
      ensures Valid()
      ensures this.width == width && this.height == height
      ensures fresh(data)
      ensures forall k :: 0 <= k < data.Length ==> data[k] == 0
    {
      this.width := width;
      this.height := height;
      data := new Byte[4 * width * height](_ => 0);
    }

    /** The colour of pixel p: the four consecutive bytes at its offset. */
    function Get(p: Point): (c: Color)
      reads data
      requires 0 <= Offset(width, p) && Offset(width, p) + 4 <= data.Length
      ensures c == data[Offset(width, p)..Offset(width, p) + 4]
    {
      var r := Offset(width, p);
      [data[r], data[r + 1], data[r + 2], data[r + 3]]
    }

    /** Writes the four channels of `color` at the offset of pixel p, one
        byte per loop iteration. A byte whose index falls outside the buffer
        is dropped, as the typed array drops it. */
    method Set(p: Point, color: Color)
      modifies data
      ensures data[..] == Written(old(data[..]), Offset(width, p), color)
      ensures 0 <= Offset(width, p) && Offset(width, p) + 4 <= data.Length ==> Get(p) == color
      ensures forall q :: 0 <= Offset(width, q) && Offset(width, q) + 4 <= data.Length &&
                          (Offset(width, q) + 4 <= Offset(width, p) || Offset(width, p) + 4 <= Offset(width, q))
                          ==> Get(q) == old(Get(q))
    {
      var r := Offset(width, p);
      for i := 0 to 4
        invariant forall k :: 0 <= k < data.Length ==>
                    data[k] == if r <= k < r + i then color[k - r] else old(data[k])
      {
        if 0 <= r + i < data.Length {
          data[r + i] := color[i];
        }
      }
      assert data[..] == Written(old(data[..]), r, color);
      if 0 <= r && r + 4 <= data.Length {
        ReadAfterWrite(old(data[..]), r, color);
        assert data[..][r..r + 4] == data[r..r + 4];
      }
      forall q | 0 <= Offset(width, q) && Offset(width, q) + 4 <= data.Length &&
                 (Offset(width, q) + 4 <= r || r + 4 <= Offset(width, q))
        ensures Get(q) == old(Get(q))
      {
        WriteFrame(old(data[..]), r, color, Offset(width, q));
        assert data[..][Offset(width, q)..Offset(width, q) + 4] == data[Offset(width, q)..Offset(width, q) + 4];
      }
    }
  }
}
