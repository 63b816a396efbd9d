/**
 * The Android frame converter (FastYuvToRgbConverter.kt): it packs the three
 * planes of a YUV 4:2:0 camera image into one NV21 byte array (the luma rows
 * without their padding, then the chroma as V,U byte pairs) that it keeps and
 * reuses from frame to frame, and it sets up its RenderScript allocations on
 * the first frame only. The RenderScript colour conversion itself is not part
 * of this model.
 */
module Nv21 {
  import opened Wrappers
  import opened Planes

  /** Bytes taken by the luma rows of a `width` x `height` image: `width * height`. */
  function LumaEnd(width: nat, height: nat): nat
  {
    OffsetMono(0, height, width);
    Offset(height, width)
  }

  /** Size of the NV21 array: a full-size luma plane plus half as much chroma (Nv21SizeFormula). */
  function Nv21Size(width: nat, height: nat): nat
  {
    LumaEnd(width, height) + LumaEnd(width, height) / 2
  }

  /** Bytes taken by one row of chroma pairs: one V,U pair per two luma columns. */
  function ChromaRowBytes(width: nat): nat
  {
    2 * (width / 2)
  }

  /** Position just past the last chroma pair written for a `width` x `height` image. */
  function ChromaEnd(width: nat, height: nat): nat
  {
    OffsetMono(0, height / 2, ChromaRowBytes(width));
    LumaEnd(width, height) + Offset(height / 2, ChromaRowBytes(width))
  }

  /** Index of the V byte of chroma sample `col` in chroma row `row`; the U byte follows it. */
  function ChromaIndex(width: nat, height: nat, row: int, col: int): int
  {
    width * height + 2 * (row * (width / 2) + col)
  }

  /** The array holds `width * height + width * height / 2` bytes, as the converter computes it. */
  lemma Nv21SizeFormula(width: nat, height: nat)
    ensures LumaEnd(width, height) == width * height
    ensures Nv21Size(width, height) == width * height + width * height / 2
  {
    OffsetIsProduct(height, width);
  }

  /** Products of naturals grow with both factors. */
  lemma MulMono(x: nat, y: nat, x': nat, y': nat)
    requires x <= x' && y <= y'
    ensures x * y <= x' * y'
  {
    assert x * y <= x' * y by {
      assert x' * y - x * y == (x' - x) * y;
    }
    assert x' * y <= x' * y' by {
      assert x' * y' - x' * y == x' * (y' - y);
    }
  }

  /** The chroma pairs take `2 * (height / 2) * (width / 2)` bytes, at most half the luma and exactly half for even dimensions. */
  lemma ChromaBytes(width: nat, height: nat)
    ensures 2 * (2 * ((height / 2) * (width / 2))) <= width * height
    ensures width % 2 == 0 && height % 2 == 0 ==> 2 * (2 * ((height / 2) * (width / 2))) == width * height
  {
    var a, b := width / 2, height / 2;
    MulMono(2 * b, 2 * a, height, width);
    assert (2 * b) * (2 * a) == 2 * (2 * (b * a));
  }

  /** All the chroma pairs end inside the NV21 array; for even dimensions they fill it exactly. */
  lemma ChromaEndFits(width: nat, height: nat)
    ensures LumaEnd(width, height) <= ChromaEnd(width, height) <= Nv21Size(width, height)
    ensures width % 2 == 0 && height % 2 == 0 ==> ChromaEnd(width, height) == Nv21Size(width, height)
  {
    var chroma := Offset(height / 2, ChromaRowBytes(width));
    assert chroma == 2 * ((height / 2) * (width / 2)) by {
      OffsetIsProduct(height / 2, ChromaRowBytes(width));
    }
    assert LumaEnd(width, height) == width * height by {
      OffsetIsProduct(height, width);
    }
    ChromaBytes(width, height);
  }

  /** The chroma pairs end at `width * height + 2 * (height / 2) * (width / 2)`. */
  lemma ChromaEndFormula(width: nat, height: nat)
    ensures ChromaEnd(width, height) == width * height + 2 * (height / 2) * (width / 2)
  {
    Nv21SizeFormula(width, height);
    OffsetIsProduct(height / 2, ChromaRowBytes(width));
    assert (height / 2) * (2 * (width / 2)) == 2 * (height / 2) * (width / 2);
  }

  /** The luma rows and the chroma rows both fit in an NV21 array. */
  lemma Nv21Layout(width: nat, height: nat)
    ensures RowsWritable(Nv21Size(width, height), height, width, 0, width)
    ensures RowsWritable(Nv21Size(width, height), height / 2, 2 * (width / 2), LumaEnd(width, height), ChromaRowBytes(width))
  {
    ChromaEndFits(width, height);
    RowsFit(Nv21Size(width, height), height, width, width);
    var bpr := ChromaRowBytes(width);
    forall r | 0 <= r < height / 2
      ensures 0 <= LumaEnd(width, height) + Offset(r, bpr)
      ensures LumaEnd(width, height) + Offset(r, bpr) + 2 * (width / 2) <= Nv21Size(width, height)
    {
      OffsetMono(0, r, bpr);
      OffsetGap(r, height / 2, bpr);
    }
  }

  /** The planes hold every byte that packing a `width` x `height` frame reads. */
  predicate PlanesReadable(y: seq<Byte>, yRowStride: int, u: Plane, v: Plane, width: nat, height: nat)
  {
    RowsReadable(y, height, width, yRowStride) && u.Readable(height / 2, width / 2) && v.Readable(height / 2, width / 2)
  }

  /**
   * The NV21 array packed from planes `y`, `u` and `v`, starting from the
   * array's previous contents `start`: luma row `r` is copied to `r * width`,
   * then chroma row `r` is written from `width * height + r * 2 * (width / 2)`
   * as pairs of a V sample followed by a U sample.
   */
  function PackNv21(start: seq<Byte>, y: seq<Byte>, yRowStride: int, u: Plane, v: Plane, width: nat, height: nat): (r: seq<Byte>)
    requires |start| == Nv21Size(width, height)
    requires PlanesReadable(y, yRowStride, u, v, width, height)
    ensures |r| == |start|
  {
    Nv21Layout(width, height);
    var luma := CopyRows(start, y, height, width, yRowStride, width);
    InterleaveRows(luma, v, u, height / 2, width / 2, LumaEnd(width, height), ChromaRowBytes(width))
  }

  /** Writing the chroma pairs leaves every luma byte alone. */
  lemma ChromaKeepsLuma(luma: seq<Byte>, u: Plane, v: Plane, width: nat, height: nat, i: int)
    requires RowsWritable(|luma|, height / 2, 2 * (width / 2), LumaEnd(width, height), ChromaRowBytes(width))
    requires u.Readable(height / 2, width / 2) && v.Readable(height / 2, width / 2)
    requires 0 <= i < LumaEnd(width, height) <= |luma|
    ensures InterleaveRows(luma, v, u, height / 2, width / 2, LumaEnd(width, height), ChromaRowBytes(width))[i] == luma[i]
  {
    OutsideRowSpan(i, height / 2, 2 * (width / 2), LumaEnd(width, height), ChromaRowBytes(width));
    InterleaveRowsOutside(luma, v, u, height / 2, width / 2, LumaEnd(width, height), ChromaRowBytes(width), i);
  }

  /** Byte `c` of luma row `r`, with row offsets kept symbolic. */
  lemma LumaByte(start: seq<Byte>, y: seq<Byte>, yRowStride: int, u: Plane, v: Plane, width: nat, height: nat, r: nat, c: int)
    requires |start| == Nv21Size(width, height)
    requires PlanesReadable(y, yRowStride, u, v, width, height)
    requires r < height && 0 <= c < width
    ensures 0 <= Offset(r, width) + c < LumaEnd(width, height) <= Nv21Size(width, height)
    ensures PackNv21(start, y, yRowStride, u, v, width, height)[Offset(r, width) + c] == RowByte(y, yRowStride, r, c)
  {
    LumaIndexInRange(width, height, r, c);
    Nv21Layout(width, height);
    var luma := CopyRows(start, y, height, width, yRowStride, width);
    CopyRowsAt(start, y, height, width, yRowStride, width, r, c);
    ChromaKeepsLuma(luma, u, v, width, height, Offset(r, width) + c);
  }

  /** Byte `c` of luma row `r` lies in the luma part of the array. */
  lemma LumaIndexInRange(width: nat, height: nat, r: nat, c: int)
    requires r < height && 0 <= c < width
    ensures 0 <= Offset(r, width) + c < LumaEnd(width, height) <= Nv21Size(width, height)
  {
    OffsetMono(0, r, width);
    OffsetGap(r, height, width);
  }

  /** Chroma pair `c` of chroma row `r`, with row offsets kept symbolic. */
  lemma ChromaPair(start: seq<Byte>, y: seq<Byte>, yRowStride: int, u: Plane, v: Plane, width: nat, height: nat, r: nat, c: nat)
    requires |start| == Nv21Size(width, height)
    requires PlanesReadable(y, yRowStride, u, v, width, height)
    requires r < height / 2 && c < width / 2
    ensures 0 <= LumaEnd(width, height) + Offset(r, ChromaRowBytes(width)) + 2 * c
    ensures LumaEnd(width, height) + Offset(r, ChromaRowBytes(width)) + 2 * c + 1 < Nv21Size(width, height)
    ensures PackNv21(start, y, yRowStride, u, v, width, height)[LumaEnd(width, height) + Offset(r, ChromaRowBytes(width)) + 2 * c] == v.At(r, c)
    ensures PackNv21(start, y, yRowStride, u, v, width, height)[LumaEnd(width, height) + Offset(r, ChromaRowBytes(width)) + 2 * c + 1] == u.At(r, c)
  {
    Nv21Layout(width, height);
    var luma := CopyRows(start, y, height, width, yRowStride, width);
    InterleaveRowsAt(luma, v, u, height / 2, width / 2, LumaEnd(width, height), ChromaRowBytes(width), r, c);
  }

  /** Byte `c` of luma row `r` of the NV21 array is byte `c` of row `r` of the Y plane. */
  lemma Nv21LumaAt(start: seq<Byte>, y: seq<Byte>, yRowStride: int, u: Plane, v: Plane, width: nat, height: nat, r: nat, c: int)
    requires |start| == Nv21Size(width, height)
    requires PlanesReadable(y, yRowStride, u, v, width, height)
    requires r < height && 0 <= c < width
    ensures 0 <= r * width + c < Nv21Size(width, height)
    ensures 0 <= r * yRowStride + c < |y|
    ensures PackNv21(start, y, yRowStride, u, v, width, height)[r * width + c] == y[r * yRowStride + c]
  {
    LumaByte(start, y, yRowStride, u, v, width, height, r, c);
    OffsetIsProduct(r, width);
    OffsetIsProduct(r, yRowStride);
  }

  /**
   * Chroma sample `c` of chroma row `r` is written as a pair: first the V
   * sample at `r * vRowStride + c * vPixelStride`, then the U sample at
   * `r * uRowStride + c * uPixelStride`.
   */
  lemma Nv21ChromaAt(start: seq<Byte>, y: seq<Byte>, yRowStride: int, u: Plane, v: Plane, width: nat, height: nat, r: nat, c: nat)
    requires |start| == Nv21Size(width, height)
    requires PlanesReadable(y, yRowStride, u, v, width, height)
    requires r < height / 2 && c < width / 2
    ensures 0 <= ChromaIndex(width, height, r, c) && ChromaIndex(width, height, r, c) + 1 < Nv21Size(width, height)
    ensures 0 <= r * v.rowStride + c * v.pixelStride < |v.data| && 0 <= r * u.rowStride + c * u.pixelStride < |u.data|
    ensures PackNv21(start, y, yRowStride, u, v, width, height)[ChromaIndex(width, height, r, c)] == v.data[r * v.rowStride + c * v.pixelStride]
    ensures PackNv21(start, y, yRowStride, u, v, width, height)[ChromaIndex(width, height, r, c) + 1] == u.data[r * u.rowStride + c * u.pixelStride]
  {
    ChromaPair(start, y, yRowStride, u, v, width, height, r, c);
    ChromaIndexOffset(width, height, r, c);
    IndexIsProduct(v, r, c);
    IndexIsProduct(u, r, c);
  }

  /** The chroma index formula in terms of row offsets. */
  lemma ChromaIndexOffset(width: nat, height: nat, r: nat, c: nat)
    ensures ChromaIndex(width, height, r, c) == LumaEnd(width, height) + Offset(r, ChromaRowBytes(width)) + 2 * c
  {
    Nv21SizeFormula(width, height);
    OffsetIsProduct(r, ChromaRowBytes(width));
    assert r * (2 * (width / 2)) == 2 * (r * (width / 2));
  }

  /** Past the last chroma pair (only for an odd width or height) the array keeps its previous contents. */
  lemma Nv21TailKept(start: seq<Byte>, y: seq<Byte>, yRowStride: int, u: Plane, v: Plane, width: nat, height: nat, i: int)
    requires |start| == Nv21Size(width, height)
    requires PlanesReadable(y, yRowStride, u, v, width, height)
    requires ChromaEnd(width, height) <= i < Nv21Size(width, height)
    ensures PackNv21(start, y, yRowStride, u, v, width, height)[i] == start[i]
  {
    Nv21Layout(width, height);
    ChromaEndFits(width, height);
    OutsideRowSpan(i, height, width, 0, width);
    CopyRowsOutside(start, y, height, width, yRowStride, width, i);
    var luma := CopyRows(start, y, height, width, yRowStride, width);
    OutsideRowSpan(i, height / 2, 2 * (width / 2), LumaEnd(width, height), ChromaRowBytes(width));
    InterleaveRowsOutside(luma, v, u, height / 2, width / 2, LumaEnd(width, height), ChromaRowBytes(width), i);
  }

  /**
   * For even dimensions every byte of the array is written, so reusing the
   * previous frame's array cannot leak any of its bytes into this frame.
   */
  lemma Nv21OverwritesAll(start1: seq<Byte>, start2: seq<Byte>, y: seq<Byte>, yRowStride: int, u: Plane, v: Plane, width: nat, height: nat)
    requires |start1| == |start2| == Nv21Size(width, height)
    requires width % 2 == 0 && height % 2 == 0
    requires PlanesReadable(y, yRowStride, u, v, width, height)
    ensures PackNv21(start1, y, yRowStride, u, v, width, height) == PackNv21(start2, y, yRowStride, u, v, width, height)
  {
    var p1 := PackNv21(start1, y, yRowStride, u, v, width, height);
    var p2 := PackNv21(start2, y, yRowStride, u, v, width, height);
    forall i | 0 <= i < |p1|
      ensures p1[i] == p2[i]
    {
      Nv21ByteDetermined(start1, start2, y, yRowStride, u, v, width, height, i);
    }
  }

  /** Splits a position into a row of `width` bytes and a column within it. */
  lemma RowColumn(k: nat, width: nat) returns (r: nat, c: nat)
    requires 0 < width
    ensures k == Offset(r, width) + c && c < width
  {
    r, c := k / width, k % width;
    OffsetIsProduct(r, width);
  }

  /** One byte of the even-dimension case: each position is a luma byte or half of a chroma pair. */
  lemma Nv21ByteDetermined(start1: seq<Byte>, start2: seq<Byte>, y: seq<Byte>, yRowStride: int, u: Plane, v: Plane, width: nat, height: nat, i: int)
    requires |start1| == |start2| == Nv21Size(width, height)
    requires width % 2 == 0 && height % 2 == 0
    requires PlanesReadable(y, yRowStride, u, v, width, height)
    requires 0 <= i < Nv21Size(width, height)
    ensures PackNv21(start1, y, yRowStride, u, v, width, height)[i] == PackNv21(start2, y, yRowStride, u, v, width, height)[i]
  {
    if width == 0 {
      OffsetIsProduct(height, width);
      assert false;
    }
    if i < LumaEnd(width, height) {
      LumaDetermined(start1, start2, y, yRowStride, u, v, width, height, i);
    } else {
      ChromaDetermined(start1, start2, y, yRowStride, u, v, width, height, i);
    }
  }

  /** A luma byte of the packed array depends only on the planes. */
  lemma LumaDetermined(start1: seq<Byte>, start2: seq<Byte>, y: seq<Byte>, yRowStride: int, u: Plane, v: Plane, width: nat, height: nat, i: int)
    requires |start1| == |start2| == Nv21Size(width, height)
    requires 0 < width
    requires PlanesReadable(y, yRowStride, u, v, width, height)
    requires 0 <= i < LumaEnd(width, height)
    ensures PackNv21(start1, y, yRowStride, u, v, width, height)[i] == PackNv21(start2, y, yRowStride, u, v, width, height)[i]
  {
    var r, c := RowColumn(i, width);
    if r >= height {
      OffsetMono(height, r, width);
      assert false;
    }
    LumaByte(start1, y, yRowStride, u, v, width, height, r, c);
    LumaByte(start2, y, yRowStride, u, v, width, height, r, c);
  }

  /** For even dimensions, a position past the luma is one byte of a chroma pair. */
  lemma ChromaPosition(width: nat, height: nat, i: int) returns (r: nat, c: nat, b: nat)
    requires 0 < width && width % 2 == 0 && height % 2 == 0
    requires LumaEnd(width, height) <= i < Nv21Size(width, height)
    ensures r < height / 2 && c < width / 2 && b < 2
    ensures i == LumaEnd(width, height) + Offset(r, ChromaRowBytes(width)) + 2 * c + b
  {
    ChromaEndFits(width, height);
    assert ChromaRowBytes(width) == width;
    var m;
    r, m := RowColumn(i - LumaEnd(width, height), width);
    if r >= height / 2 {
      OffsetMono(height / 2, r, width);
      assert false;
    }
    c, b := m / 2, m % 2;
  }

  /** For even dimensions, a byte past the luma is a chroma byte, which depends only on the planes. */
  lemma ChromaDetermined(start1: seq<Byte>, start2: seq<Byte>, y: seq<Byte>, yRowStride: int, u: Plane, v: Plane, width: nat, height: nat, i: int)
    requires |start1| == |start2| == Nv21Size(width, height)
    requires 0 < width && width % 2 == 0 && height % 2 == 0
    requires PlanesReadable(y, yRowStride, u, v, width, height)
    requires LumaEnd(width, height) <= i < Nv21Size(width, height)
    ensures PackNv21(start1, y, yRowStride, u, v, width, height)[i] == PackNv21(start2, y, yRowStride, u, v, width, height)[i]
  {
    var r, c, b := ChromaPosition(width, height, i);
    ChromaPair(start1, y, yRowStride, u, v, width, height, r, c);
    ChromaPair(start2, y, yRowStride, u, v, width, height, r, c);
    SamePair(PackNv21(start1, y, yRowStride, u, v, width, height), PackNv21(start2, y, yRowStride, u, v, width, height),
             LumaEnd(width, height) + Offset(r, ChromaRowBytes(width)) + 2 * c, b);
  }

  /** Two arrays that agree on both bytes of a pair agree on either byte. */
  lemma SamePair(p1: seq<Byte>, p2: seq<Byte>, pair: int, b: nat)
    requires 0 <= pair && pair + 1 < |p1| && pair + 1 < |p2| && b < 2
    requires p1[pair] == p2[pair] && p1[pair + 1] == p2[pair + 1]
    ensures p1[pair + b] == p2[pair + b]
  {
  }

  /**
   * Planes that carry the same logical samples give the same NV21 bytes,
   * whatever padding their rows have and whatever lies between sampled
   * chroma bytes.
   */
  lemma Nv21IgnoresPadding(start: seq<Byte>, width: nat, height: nat,
                           y1: seq<Byte>, yRowStride1: int, u1: Plane, v1: Plane,
                           y2: seq<Byte>, yRowStride2: int, u2: Plane, v2: Plane)
    requires |start| == Nv21Size(width, height)
    requires RowsReadable(y1, height, width, yRowStride1) && RowsReadable(y2, height, width, yRowStride2)
    requires u1.Readable(height / 2, width / 2) && v1.Readable(height / 2, width / 2)
    requires u2.Readable(height / 2, width / 2) && v2.Readable(height / 2, width / 2)
    requires forall r: nat, c :: r < height && 0 <= c < width ==> RowByte(y1, yRowStride1, r, c) == RowByte(y2, yRowStride2, r, c)
    requires forall r: nat, c: nat :: r < height / 2 && c < width / 2 ==> u1.At(r, c) == u2.At(r, c)
    requires forall r: nat, c: nat :: r < height / 2 && c < width / 2 ==> v1.At(r, c) == v2.At(r, c)
    ensures PackNv21(start, y1, yRowStride1, u1, v1, width, height) == PackNv21(start, y2, yRowStride2, u2, v2, width, height)
  {
    Nv21Layout(width, height);
    CopyRowsIgnoresPadding(start, y1, yRowStride1, y2, yRowStride2, height, width, width);
    var luma := CopyRows(start, y1, height, width, yRowStride1, width);
    InterleaveRowsIgnoresPadding(luma, v1, u1, v2, u2, height / 2, width / 2, LumaEnd(width, height), ChromaRowBytes(width));
  }

  /** The Y plane holds `width` bytes of every row when its size reaches the start of the last row plus `width`. */
  lemma LumaReadable(y: seq<Byte>, height: nat, width: nat, yRowStride: int)
    requires 0 <= yRowStride && 0 < height
    requires (height - 1) * yRowStride + width <= |y|
    ensures RowsReadable(y, height, width, yRowStride)
  {
    OffsetIsProduct(height - 1, yRowStride);
    forall r | 0 <= r < height
      ensures 0 <= Offset(r, yRowStride) && Offset(r, yRowStride) + width <= |y|
    {
      OffsetMono(0, r, yRowStride);
      OffsetMono(r, height - 1, yRowStride);
    }
  }

  /** A chroma plane holds every sample when its size reaches one past the last sample's position. */
  lemma ChromaReadable(p: Plane, rows: nat, cols: nat)
    requires 0 <= p.rowStride && 0 <= p.pixelStride && 0 < rows && 0 < cols
    requires (rows - 1) * p.rowStride + (cols - 1) * p.pixelStride + 1 <= |p.data|
    ensures p.Readable(rows, cols)
  {
    OffsetIsProduct(rows - 1, p.rowStride);
    OffsetIsProduct(cols - 1, p.pixelStride);
    forall r: nat, c: nat | r < rows && c < cols
      ensures 0 <= p.Index(r, c) < |p.data|
    {
      OffsetMono(0, r, p.rowStride);
      OffsetMono(r, rows - 1, p.rowStride);
      OffsetMono(0, c, p.pixelStride);
      OffsetMono(c, cols - 1, p.pixelStride);
    }
  }

  /** The shape of a RenderScript allocation: a one-dimensional array of bytes, or a two-dimensional RGBA image. */
  datatype Allocation = ByteAllocation(count: nat) | RgbaAllocation(x: nat, y: nat)

  /** The array from the previous frame is kept when it already has the needed size. */
  predicate Reusable(buffer: array?<Byte>, size: nat)
  {
    buffer != null && buffer.Length == size
  }

  /** What the NV21 array holds before a frame is packed: the kept array's bytes, or zeros in a new one. */
  function StartContents(buffer: array?<Byte>, size: nat): (r: seq<Byte>)
    reads buffer
    ensures |r| == size
    ensures Reusable(buffer, size) ==> r == buffer[..]
    ensures !Reusable(buffer, size) ==> forall i :: 0 <= i < size ==> r[i] == 0
  {
    if Reusable(buffer, size) then buffer[..] else seq(size, _ => 0)
  }

  class FastYuvToRgbConverter {
    var yuvBuffer: array?<Byte>
    var inputAllocation: Option<Allocation>
    var outputAllocation: Option<Allocation>

    /** The allocations are made together, on the first frame. */
    ghost predicate Valid()
      reads this
    {
      inputAllocation.Some? <==> outputAllocation.Some?
    }

    constructor ()
      ensures Valid()
      ensures yuvBuffer == null && inputAllocation == None && outputAllocation == None
    {
      yuvBuffer := null;
      inputAllocation := None;
      outputAllocation := None;
    }

    /** Keeps the NV21 array when its size is right, and otherwise replaces it by a new zero-filled one. */
    method ReserveYuvBuffer(width: nat, height: nat) returns (nv21: array<Byte>)
      modifies this`yuvBuffer
      ensures yuvBuffer == nv21 && nv21.Length == Nv21Size(width, height)
      ensures Reusable(old(yuvBuffer), Nv21Size(width, height)) ==> nv21 == old(yuvBuffer)
      ensures !Reusable(old(yuvBuffer), Nv21Size(width, height)) ==> fresh(nv21) && nv21[..] == seq(Nv21Size(width, height), _ => 0)
    {
      var nv21Size := width * height + width * height / 2;
      Nv21SizeFormula(width, height);
      if yuvBuffer == null || yuvBuffer.Length != nv21Size {
        yuvBuffer := new Byte[nv21Size](_ => 0);
      }
      nv21 := yuvBuffer;
    }

    /**
     * Packs the three planes into the NV21 array and prepares the
     * allocations the colour conversion reads from and writes to.
     */
    method Yuv420ToBitmap(y: seq<Byte>, u: seq<Byte>, v: seq<Byte>, width: nat, height: nat,
                          yRowStride: int, uRowStride: int, vRowStride: int, uPixelStride: int, vPixelStride: int)
      requires Valid()
      requires RowsReadable(y, height, width, yRowStride)
      requires Plane(u, uRowStride, uPixelStride).Readable(height / 2, width / 2)
      requires Plane(v, vRowStride, vPixelStride).Readable(height / 2, width / 2)
      modifies this, yuvBuffer
      ensures Valid()
      ensures yuvBuffer != null && yuvBuffer.Length == Nv21Size(width, height)
      ensures Reusable(old(yuvBuffer), Nv21Size(width, height)) ==> yuvBuffer == old(yuvBuffer)
      ensures !Reusable(old(yuvBuffer), Nv21Size(width, height)) ==> fresh(yuvBuffer)
      ensures yuvBuffer[..] == PackNv21(old(StartContents(yuvBuffer, Nv21Size(width, height))), y, yRowStride,
                                        Plane(u, uRowStride, uPixelStride), Plane(v, vRowStride, vPixelStride), width, height)
      ensures old(inputAllocation).Some? ==> inputAllocation == old(inputAllocation) && outputAllocation == old(outputAllocation)
      ensures old(inputAllocation).None? ==> inputAllocation == Some(ByteAllocation(Nv21Size(width, height))) && outputAllocation == Some(RgbaAllocation(width, height))
    {
      var nv21 := ReserveYuvBuffer(width, height);
      ghost var start := nv21[..];
      Nv21Layout(width, height);
      var pos := CopyLumaRows(nv21, y, width, height, yRowStride);
      var uvPos := InterleaveChroma(nv21, u, v, width, height, uRowStride, vRowStride, uPixelStride, vPixelStride);
      Nv21Layout(width, height);
      assert nv21[..] == PackNv21(start, y, yRowStride, Plane(u, uRowStride, uPixelStride), Plane(v, vRowStride, vPixelStride), width, height);

      if inputAllocation.None? {
        inputAllocation := Some(ByteAllocation(nv21.Length));
        outputAllocation := Some(RgbaAllocation(width, height));
      }
    }
  }

  /** The Y-plane loop: row `row` of `y`, `width` bytes from `row * yRowStride`, goes to `row * width`. */
  method CopyLumaRows(nv21: array<Byte>, y: seq<Byte>, width: nat, height: nat, yRowStride: int) returns (pos: int)
    requires RowsReadable(y, height, width, yRowStride)
    requires RowsWritable(nv21.Length, height, width, 0, width)
    modifies nv21
    ensures nv21[..] == CopyRows(old(nv21[..]), y, height, width, yRowStride, width)
    ensures pos == LumaEnd(width, height)
  {
    ghost var start := nv21[..];
    pos := 0;
    var row := 0;
    while row < height
      invariant 0 <= row <= height && pos == Offset(row, width)
      invariant nv21[..] == CopyRows(start, y, row, width, yRowStride, width)
    {
      var srcRow := row * yRowStride;
      assert srcRow == Offset(row, yRowStride) by {
        OffsetIsProduct(row, yRowStride);
      }
      CopyRow(y, srcRow, nv21, pos, width, start, row, height, yRowStride, width);
      pos := pos + width;
      row := row + 1;
    }
  }

  /** The chroma loops: chroma row `row` becomes `width / 2` pairs of a V sample followed by a U sample. */
  method InterleaveChroma(nv21: array<Byte>, u: seq<Byte>, v: seq<Byte>, width: nat, height: nat,
                          uRowStride: int, vRowStride: int, uPixelStride: int, vPixelStride: int) returns (uvPos: int)
    requires nv21.Length == Nv21Size(width, height)
    requires Plane(u, uRowStride, uPixelStride).Readable(height / 2, width / 2)
    requires Plane(v, vRowStride, vPixelStride).Readable(height / 2, width / 2)
    modifies nv21
    ensures RowsWritable(nv21.Length, height / 2, 2 * (width / 2), LumaEnd(width, height), ChromaRowBytes(width))
    ensures nv21[..] == InterleaveRows(old(nv21[..]), Plane(v, vRowStride, vPixelStride), Plane(u, uRowStride, uPixelStride),
                                       height / 2, width / 2, LumaEnd(width, height), ChromaRowBytes(width))
    ensures uvPos == ChromaEnd(width, height)
  {
    Nv21Layout(width, height);
    ghost var luma := nv21[..];
    var uvHeight := height / 2;
    var uvWidth := width / 2;
    uvPos := width * height;
    Nv21SizeFormula(width, height);
    var row := 0;
    while row < uvHeight
      invariant 0 <= row <= uvHeight
      invariant uvPos == LumaEnd(width, height) + Offset(row, ChromaRowBytes(width))
      invariant nv21[..] == InterleaveRows(luma, Plane(v, vRowStride, vPixelStride), Plane(u, uRowStride, uPixelStride),
                                           row, uvWidth, LumaEnd(width, height), ChromaRowBytes(width))
    {
      var uRowStart := row * uRowStride;
      var vRowStart := row * vRowStride;
      OffsetIsProduct(row, uRowStride);
      OffsetIsProduct(row, vRowStride);
      uvPos := InterleaveChromaRow(nv21, u, v, row, uvWidth, uvPos, uRowStart, vRowStart,
                                   width, height, uRowStride, vRowStride, uPixelStride, vPixelStride);
      row := row + 1;
    }
  }

  /** One pass of the inner chroma loop, writing from `uvPos` and returning the position after the row. */
  method InterleaveChromaRow(nv21: array<Byte>, u: seq<Byte>, v: seq<Byte>, row: nat, uvWidth: nat, uvPos: int,
                             uRowStart: int, vRowStart: int, width: nat, height: nat,
                             uRowStride: int, vRowStride: int, uPixelStride: int, vPixelStride: int) returns (next: int)
    requires row < height / 2 && uvWidth == width / 2
    requires uRowStart == Offset(row, uRowStride) && vRowStart == Offset(row, vRowStride)
    requires uvPos == LumaEnd(width, height) + Offset(row, ChromaRowBytes(width))
    requires 0 <= uvPos && uvPos + 2 * uvWidth <= nv21.Length
    requires Plane(u, uRowStride, uPixelStride).Readable(height / 2, width / 2)
    requires Plane(v, vRowStride, vPixelStride).Readable(height / 2, width / 2)
    modifies nv21
    ensures next == uvPos + 2 * uvWidth
    ensures nv21[..] == InterleaveRow(old(nv21[..]), Plane(v, vRowStride, vPixelStride), Plane(u, uRowStride, uPixelStride),
                                      row, uvWidth, LumaEnd(width, height), ChromaRowBytes(width))
  {
    ghost var before := nv21[..];
    ghost var U, V := Plane(u, uRowStride, uPixelStride), Plane(v, vRowStride, vPixelStride);
    next := uvPos;
    var col := 0;
    while col < uvWidth
      invariant 0 <= col <= uvWidth
      invariant next == uvPos + 2 * col
      invariant nv21[..] == InterleaveRow(before, V, U, row, col, LumaEnd(width, height), ChromaRowBytes(width))
    {
      var uIndex := uRowStart + col * uPixelStride;
      var vIndex := vRowStart + col * vPixelStride;
      assert uIndex == U.Index(row, col) by { OffsetIsProduct(col, uPixelStride); }
      assert vIndex == V.Index(row, col) by { OffsetIsProduct(col, vPixelStride); }
      nv21[next] := v[vIndex];
      next := next + 1;
      nv21[next] := u[uIndex];
      next := next + 1;
      col := col + 1;
    }
  }
}
