/**
 * Byte planes of a YUV 4:2:0 camera frame, and the two copies that every
 * pixel-buffer builder of the app is made of:
 *  - CopyRows: a row-by-row copy of `width` bytes per row, which drops the
 *    padding at the end of each source row and lands each row at its own
 *    destination offset;
 *  - InterleaveRows: a row-by-row walk over two chroma planes that writes one
 *    sample of the first and then one sample of the second as a byte pair.
 * Both are specification functions over sequences; the builders are methods
 * over arrays proved equal to them, and the lemmas here say what they mean
 * byte by byte.
 */
module Planes {

  type Byte = bv8

  /**
   * Offset of the first byte of row `row` when rows are `stride` bytes apart,
   * that is `row * stride` (OffsetIsProduct); written as repeated addition so
   * that proofs about rows stay in linear arithmetic.
   */
  function Offset(row: nat, stride: int): int
  {
    if row == 0 then 0 else Offset(row - 1, stride) + stride
  }

  /** A plane as the camera hands it over: its bytes, the distance between rows and between samples of a row. */
  datatype Plane = Plane(data: seq<Byte>, rowStride: int, pixelStride: int)
  {
    /** Where sample `col` of row `row` sits. */
    function Index(row: nat, col: nat): int
    {
      Offset(row, rowStride) + Offset(col, pixelStride)
    }

    /** The samples of the first `rows` rows, `cols` per row, all lie inside the plane. */
    predicate Readable(rows: int, cols: int)
    {
      forall r, c :: 0 <= r < rows && 0 <= c < cols ==> 0 <= Index(r, c) < |data|
    }

    function At(row: nat, col: nat): Byte
      requires 0 <= Index(row, col) < |data|
    {
      data[Index(row, col)]
    }
  }

  /** The first `rows` rows of `src`, `width` bytes each and `stride` bytes apart, lie inside `src`. */
  predicate RowsReadable(src: seq<Byte>, rows: int, width: int, stride: int)
  {
    forall r :: 0 <= r < rows ==> 0 <= Offset(r, stride) && Offset(r, stride) + width <= |src|
  }

  /** Byte `col` of row `row` of a plane whose rows are `stride` bytes apart. */
  function RowByte(src: seq<Byte>, stride: int, row: nat, col: int): Byte
    requires 0 <= Offset(row, stride) + col < |src|
  {
    src[Offset(row, stride) + col]
  }

  /** Rows of `width` bytes that start at `base` and are `bpr` bytes apart fit in a buffer of `size` bytes. */
  predicate RowsWritable(size: int, rows: int, width: int, base: int, bpr: int)
  {
    forall r :: 0 <= r < rows ==> 0 <= base + Offset(r, bpr) && base + Offset(r, bpr) + width <= size
  }

  /** Position `i` lies in none of those rows. */
  predicate OutsideRows(i: int, rows: int, width: int, base: int, bpr: int)
  {
    forall r :: 0 <= r < rows ==> i < base + Offset(r, bpr) || base + Offset(r, bpr) + width <= i
  }

  /** `dst` after copying `width` bytes of each of the first `rows` rows of `src` to `row * bpr`. */
  function CopyRows(dst: seq<Byte>, src: seq<Byte>, rows: nat, width: nat, srcStride: int, bpr: int): (r: seq<Byte>)
    requires RowsReadable(src, rows, width, srcStride)
    requires RowsWritable(|dst|, rows, width, 0, bpr)
    ensures |r| == |dst|
    decreases rows
  {
    if rows == 0 then dst
    else
      var d := CopyRows(dst, src, rows - 1, width, srcStride, bpr);
      var s := Offset(rows - 1, srcStride);
      var o := Offset(rows - 1, bpr);
      d[..o] + src[s..s + width] + d[o + width..]
  }

  /** `dst` after writing, for each of the first `cols` samples of row `row`, the sample of `first` and then the sample of `second`. */
  function InterleaveRow(dst: seq<Byte>, first: Plane, second: Plane, row: nat, cols: nat, base: int, bpr: int): (r: seq<Byte>)
    requires first.Readable(row + 1, cols) && second.Readable(row + 1, cols)
    requires 0 <= base + Offset(row, bpr) && base + Offset(row, bpr) + 2 * cols <= |dst|
    ensures |r| == |dst|
    decreases cols
  {
    if cols == 0 then dst
    else
      var d := InterleaveRow(dst, first, second, row, cols - 1, base, bpr);
      var o := base + Offset(row, bpr) + 2 * (cols - 1);
      d[o := first.At(row, cols - 1)][o + 1 := second.At(row, cols - 1)]
  }

  /** `dst` after interleaving the first `rows` rows of two chroma planes, row `r` landing at `base + r * bpr`. */
  function InterleaveRows(dst: seq<Byte>, first: Plane, second: Plane, rows: nat, cols: nat, base: int, bpr: int): (r: seq<Byte>)
    requires first.Readable(rows, cols) && second.Readable(rows, cols)
    requires RowsWritable(|dst|, rows, 2 * cols, base, bpr)
    ensures |r| == |dst|
    decreases rows
  {
    if rows == 0 then dst
    else InterleaveRow(InterleaveRows(dst, first, second, rows - 1, cols, base, bpr), first, second, rows - 1, cols, base, bpr)
  }

  // ---------------------------------------------------------------------------
  // Row arithmetic

  lemma {:induction false} OffsetIsProduct(row: nat, stride: int)
    ensures Offset(row, stride) == row * stride
  {
    if row > 0 {
      OffsetIsProduct(row - 1, stride);
    }
  }

  /** A sample sits at `row * rowStride + col * pixelStride` in its plane. */
  lemma IndexIsProduct(p: Plane, row: nat, col: nat)
    ensures p.Index(row, col) == row * p.rowStride + col * p.pixelStride
  {
    OffsetIsProduct(row, p.rowStride);
    OffsetIsProduct(col, p.pixelStride);
  }

  lemma {:induction false} OffsetMono(a: nat, b: nat, stride: int)
    requires a <= b && 0 <= stride
    ensures Offset(a, stride) <= Offset(b, stride)
    decreases b
  {
    if a < b {
      OffsetMono(a, b - 1, stride);
    }
  }

  /** A whole row of `stride` bytes fits between the starts of two different rows. */
  lemma OffsetGap(a: nat, b: nat, stride: int)
    requires a < b && 0 <= stride
    ensures Offset(a, stride) + stride <= Offset(b, stride)
  {
    OffsetMono(a + 1, b, stride);
  }

  /** Rows no wider than their spacing, `rows` of them from offset 0, fit in any buffer holding `rows * bpr` bytes. */
  lemma RowsFit(size: int, rows: nat, width: nat, bpr: int)
    requires width <= bpr && Offset(rows, bpr) <= size
    ensures RowsWritable(size, rows, width, 0, bpr)
  {
    forall r | 0 <= r < rows
      ensures 0 <= Offset(r, bpr) && Offset(r, bpr) + width <= size
    {
      OffsetMono(0, r, bpr);
      OffsetGap(r, rows, bpr);
    }
  }

  /** A position before the first row or after the last lies outside every row. */
  lemma OutsideRowSpan(i: int, rows: nat, width: nat, base: int, bpr: int)
    requires width <= bpr
    requires i < base || base + Offset(rows, bpr) <= i
    ensures OutsideRows(i, rows, width, base, bpr)
  {
    forall r | 0 <= r < rows
      ensures i < base + Offset(r, bpr) || base + Offset(r, bpr) + width <= i
    {
      OffsetMono(0, r, bpr);
      OffsetGap(r, rows, bpr);
    }
  }

  /** A byte in the padding of a row, past its first `width` bytes, lies outside every row. */
  lemma OutsideRowPadding(rows: nat, width: nat, base: int, bpr: int, row: nat, col: int)
    requires 0 <= row < rows && width <= col < bpr
    ensures OutsideRows(base + Offset(row, bpr) + col, rows, width, base, bpr)
  {
    var i := base + Offset(row, bpr) + col;
    forall r | 0 <= r < rows
      ensures i < base + Offset(r, bpr) || base + Offset(r, bpr) + width <= i
    {
      if r < row {
        OffsetGap(r, row, bpr);
      } else if row < r {
        OffsetGap(row, r, bpr);
      }
    }
  }

  // ---------------------------------------------------------------------------
  // What CopyRows writes

  /** Byte `c` of destination row `r` is byte `c` of source row `r`. */
  lemma {:induction false} CopyRowsAt(dst: seq<Byte>, src: seq<Byte>, rows: nat, width: nat, srcStride: int, bpr: int, r: nat, c: int)
    requires RowsReadable(src, rows, width, srcStride)
    requires RowsWritable(|dst|, rows, width, 0, bpr)
    requires width <= bpr
    requires 0 <= r < rows && 0 <= c < width
    ensures 0 <= Offset(r, bpr) + c < |dst|
    ensures CopyRows(dst, src, rows, width, srcStride, bpr)[Offset(r, bpr) + c] == RowByte(src, srcStride, r, c)
    decreases rows
  {
    if r < rows - 1 {
      CopyRowsAt(dst, src, rows - 1, width, srcStride, bpr, r, c);
      OffsetGap(r, rows - 1, bpr);
    }
  }

  /** Every byte outside the copied rows keeps its value. */
  lemma {:induction false} CopyRowsOutside(dst: seq<Byte>, src: seq<Byte>, rows: nat, width: nat, srcStride: int, bpr: int, i: int)
    requires RowsReadable(src, rows, width, srcStride)
    requires RowsWritable(|dst|, rows, width, 0, bpr)
    requires 0 <= i < |dst| && OutsideRows(i, rows, width, 0, bpr)
    ensures CopyRows(dst, src, rows, width, srcStride, bpr)[i] == dst[i]
    decreases rows
  {
    if rows > 0 {
      CopyRowsOutside(dst, src, rows - 1, width, srcStride, bpr, i);
      assert i < Offset(rows - 1, bpr) || Offset(rows - 1, bpr) + width <= i;
    }
  }

  /** The padding at the end of each destination row is not written. */
  lemma CopyRowsPadding(dst: seq<Byte>, src: seq<Byte>, rows: nat, width: nat, srcStride: int, bpr: int, r: nat, c: int)
    requires RowsReadable(src, rows, width, srcStride)
    requires RowsWritable(|dst|, rows, width, 0, bpr)
    requires 0 <= r < rows && width <= c < bpr && Offset(r, bpr) + c < |dst|
    ensures CopyRows(dst, src, rows, width, srcStride, bpr)[Offset(r, bpr) + c] == dst[Offset(r, bpr) + c]
  {
    OutsideRowPadding(rows, width, 0, bpr, r, c);
    OffsetMono(0, r, bpr);
    CopyRowsOutside(dst, src, rows, width, srcStride, bpr, Offset(r, bpr) + c);
  }

  /** Source planes that hold the same logical rows give the same copy, whatever their padding. */
  lemma {:induction false} CopyRowsIgnoresPadding(dst: seq<Byte>, src1: seq<Byte>, stride1: int, src2: seq<Byte>, stride2: int, rows: nat, width: nat, bpr: int)
    requires RowsReadable(src1, rows, width, stride1) && RowsReadable(src2, rows, width, stride2)
    requires RowsWritable(|dst|, rows, width, 0, bpr)
    requires forall r, c :: 0 <= r < rows && 0 <= c < width ==> RowByte(src1, stride1, r, c) == RowByte(src2, stride2, r, c)
    ensures CopyRows(dst, src1, rows, width, stride1, bpr) == CopyRows(dst, src2, rows, width, stride2, bpr)
    decreases rows
  {
    if rows > 0 {
      CopyRowsIgnoresPadding(dst, src1, stride1, src2, stride2, rows - 1, width, bpr);
      var s1, s2 := Offset(rows - 1, stride1), Offset(rows - 1, stride2);
      var row1, row2 := src1[s1..s1 + width], src2[s2..s2 + width];
      forall c | 0 <= c < width
        ensures row1[c] == row2[c]
      {
        assert RowByte(src1, stride1, rows - 1, c) == RowByte(src2, stride2, rows - 1, c);
      }
      assert row1 == row2;
    }
  }

  // ---------------------------------------------------------------------------
  // What InterleaveRows writes

  lemma {:induction false} InterleaveRowAt(dst: seq<Byte>, first: Plane, second: Plane, row: nat, cols: nat, base: int, bpr: int, c: nat)
    requires first.Readable(row + 1, cols) && second.Readable(row + 1, cols)
    requires 0 <= base + Offset(row, bpr) && base + Offset(row, bpr) + 2 * cols <= |dst|
    requires 0 <= c < cols
    ensures InterleaveRow(dst, first, second, row, cols, base, bpr)[base + Offset(row, bpr) + 2 * c] == first.At(row, c)
    ensures InterleaveRow(dst, first, second, row, cols, base, bpr)[base + Offset(row, bpr) + 2 * c + 1] == second.At(row, c)
    decreases cols
  {
    if c < cols - 1 {
      InterleaveRowAt(dst, first, second, row, cols - 1, base, bpr, c);
    }
  }

  lemma {:induction false} InterleaveRowOutside(dst: seq<Byte>, first: Plane, second: Plane, row: nat, cols: nat, base: int, bpr: int, i: int)
    requires first.Readable(row + 1, cols) && second.Readable(row + 1, cols)
    requires 0 <= base + Offset(row, bpr) && base + Offset(row, bpr) + 2 * cols <= |dst|
    requires 0 <= i < |dst| && (i < base + Offset(row, bpr) || base + Offset(row, bpr) + 2 * cols <= i)
    ensures InterleaveRow(dst, first, second, row, cols, base, bpr)[i] == dst[i]
    decreases cols
  {
    if cols > 0 {
      InterleaveRowOutside(dst, first, second, row, cols - 1, base, bpr, i);
    }
  }

  /** Pair `c` of destination row `r` holds the sample of `first` and then the sample of `second` at row `r`, column `c`. */
  lemma {:induction false} InterleaveRowsAt(dst: seq<Byte>, first: Plane, second: Plane, rows: nat, cols: nat, base: int, bpr: int, r: nat, c: nat)
    requires first.Readable(rows, cols) && second.Readable(rows, cols)
    requires RowsWritable(|dst|, rows, 2 * cols, base, bpr)
    requires 2 * cols <= bpr
    requires 0 <= r < rows && 0 <= c < cols
    ensures 0 <= base + Offset(r, bpr) + 2 * c && base + Offset(r, bpr) + 2 * c + 1 < |dst|
    ensures InterleaveRows(dst, first, second, rows, cols, base, bpr)[base + Offset(r, bpr) + 2 * c] == first.At(r, c)
    ensures InterleaveRows(dst, first, second, rows, cols, base, bpr)[base + Offset(r, bpr) + 2 * c + 1] == second.At(r, c)
    decreases rows
  {
    var inner := InterleaveRows(dst, first, second, rows - 1, cols, base, bpr);
    if r == rows - 1 {
      InterleaveRowAt(inner, first, second, rows - 1, cols, base, bpr, c);
    } else {
      InterleaveRowsAt(dst, first, second, rows - 1, cols, base, bpr, r, c);
      InterleaveEarlierRowKept(inner, first, second, rows - 1, cols, base, bpr, r, c);
    }
  }

  /** Writing row `row` leaves the pairs of an earlier row `r` as they were. */
  lemma InterleaveEarlierRowKept(inner: seq<Byte>, first: Plane, second: Plane, row: nat, cols: nat, base: int, bpr: int, r: nat, c: nat)
    requires first.Readable(row + 1, cols) && second.Readable(row + 1, cols)
    requires 0 <= base + Offset(row, bpr) && base + Offset(row, bpr) + 2 * cols <= |inner|
    requires 2 * cols <= bpr && r < row && c < cols && 0 <= base + Offset(r, bpr)
    ensures base + Offset(r, bpr) + 2 * c + 1 < base + Offset(row, bpr)
    ensures InterleaveRow(inner, first, second, row, cols, base, bpr)[base + Offset(r, bpr) + 2 * c] == inner[base + Offset(r, bpr) + 2 * c]
    ensures InterleaveRow(inner, first, second, row, cols, base, bpr)[base + Offset(r, bpr) + 2 * c + 1] == inner[base + Offset(r, bpr) + 2 * c + 1]
  {
    OffsetGap(r, row, bpr);
    var i := base + Offset(r, bpr) + 2 * c;
    InterleaveRowOutside(inner, first, second, row, cols, base, bpr, i);
    InterleaveRowOutside(inner, first, second, row, cols, base, bpr, i + 1);
  }

  /** Every byte outside the interleaved rows keeps its value. */
  lemma {:induction false} InterleaveRowsOutside(dst: seq<Byte>, first: Plane, second: Plane, rows: nat, cols: nat, base: int, bpr: int, i: int)
    requires first.Readable(rows, cols) && second.Readable(rows, cols)
    requires RowsWritable(|dst|, rows, 2 * cols, base, bpr)
    requires 0 <= i < |dst| && OutsideRows(i, rows, 2 * cols, base, bpr)
    ensures InterleaveRows(dst, first, second, rows, cols, base, bpr)[i] == dst[i]
    decreases rows
  {
    if rows > 0 {
      InterleaveRowsOutside(dst, first, second, rows - 1, cols, base, bpr, i);
      var inner := InterleaveRows(dst, first, second, rows - 1, cols, base, bpr);
      assert i < base + Offset(rows - 1, bpr) || base + Offset(rows - 1, bpr) + 2 * cols <= i;
      InterleaveRowOutside(inner, first, second, rows - 1, cols, base, bpr, i);
    }
  }

  /** The padding at the end of each destination row, past its `cols` pairs, is not written. */
  lemma InterleaveRowsPadding(dst: seq<Byte>, first: Plane, second: Plane, rows: nat, cols: nat, bpr: int, r: nat, c: int)
    requires first.Readable(rows, cols) && second.Readable(rows, cols)
    requires RowsWritable(|dst|, rows, 2 * cols, 0, bpr)
    requires 0 <= r < rows && 2 * cols <= c < bpr && Offset(r, bpr) + c < |dst|
    ensures InterleaveRows(dst, first, second, rows, cols, 0, bpr)[Offset(r, bpr) + c] == dst[Offset(r, bpr) + c]
  {
    var i := Offset(r, bpr) + c;
    OffsetMono(0, r, bpr);
    OutsideRowPadding(rows, 2 * cols, 0, bpr, r, c);
    InterleaveRowsOutside(dst, first, second, rows, cols, 0, bpr, i);
  }

  lemma {:induction false} InterleaveRowIgnoresPadding(dst: seq<Byte>, first1: Plane, second1: Plane, first2: Plane, second2: Plane, row: nat, cols: nat, base: int, bpr: int)
    requires first1.Readable(row + 1, cols) && second1.Readable(row + 1, cols)
    requires first2.Readable(row + 1, cols) && second2.Readable(row + 1, cols)
    requires 0 <= base + Offset(row, bpr) && base + Offset(row, bpr) + 2 * cols <= |dst|
    requires forall c :: 0 <= c < cols ==> first1.At(row, c) == first2.At(row, c) && second1.At(row, c) == second2.At(row, c)
    ensures InterleaveRow(dst, first1, second1, row, cols, base, bpr) == InterleaveRow(dst, first2, second2, row, cols, base, bpr)
    decreases cols
  {
    if cols > 0 {
      InterleaveRowIgnoresPadding(dst, first1, second1, first2, second2, row, cols - 1, base, bpr);
    }
  }

  /** Chroma planes that hold the same samples give the same interleaving, whatever their row and pixel strides. */
  lemma {:induction false} InterleaveRowsIgnoresPadding(dst: seq<Byte>, first1: Plane, second1: Plane, first2: Plane, second2: Plane, rows: nat, cols: nat, base: int, bpr: int)
    requires first1.Readable(rows, cols) && second1.Readable(rows, cols)
    requires first2.Readable(rows, cols) && second2.Readable(rows, cols)
    requires RowsWritable(|dst|, rows, 2 * cols, base, bpr)
    requires forall r, c :: 0 <= r < rows && 0 <= c < cols ==> first1.At(r, c) == first2.At(r, c)
    requires forall r, c :: 0 <= r < rows && 0 <= c < cols ==> second1.At(r, c) == second2.At(r, c)
    ensures InterleaveRows(dst, first1, second1, rows, cols, base, bpr) == InterleaveRows(dst, first2, second2, rows, cols, base, bpr)
    decreases rows
  {
    if rows > 0 {
      InterleaveRowsIgnoresPadding(dst, first1, second1, first2, second2, rows - 1, cols, base, bpr);
      var inner := InterleaveRows(dst, first1, second1, rows - 1, cols, base, bpr);
      InterleaveRowIgnoresPadding(inner, first1, second1, first2, second2, rows - 1, cols, base, bpr);
    }
  }

  // ---------------------------------------------------------------------------
  // The bulk copy primitive

  /**
   * Copies `count` bytes of `src` from `srcPos` into `dst` at `dstPos`, as
   * `System.arraycopy` and `memcpy` do for buffers that do not overlap.
   */
  method CopyBytes(src: seq<Byte>, srcPos: int, dst: array<Byte>, dstPos: int, count: nat)
    requires 0 <= srcPos && srcPos + count <= |src|
    requires 0 <= dstPos && dstPos + count <= dst.Length
    modifies dst
    ensures dst[..] == old(dst[..])[..dstPos] + src[srcPos..srcPos + count] + old(dst[..])[dstPos + count..]
  {
    forall i | dstPos <= i < dstPos + count {
      dst[i] := src[srcPos + (i - dstPos)];
    }
  }

  /**
   * The body of a row-copy loop: one bulk copy of row `row` from `srcRow`
   * in `src` to `dstRow` in `dst`, extending the copy of the rows before it
   * by that row.
   */
  method CopyRow(src: seq<Byte>, srcRow: int, dst: array<Byte>, dstRow: int, width: nat,
                 ghost start: seq<Byte>, ghost row: nat, ghost rows: nat, ghost srcStride: int, ghost bpr: int)
    requires RowsReadable(src, rows, width, srcStride) && RowsWritable(|start|, rows, width, 0, bpr)
    requires row < rows && srcRow == Offset(row, srcStride) && dstRow == Offset(row, bpr)
    requires dst.Length == |start| && dst[..] == CopyRows(start, src, row, width, srcStride, bpr)
    modifies dst
    ensures dst[..] == CopyRows(start, src, row + 1, width, srcStride, bpr)
  {
    CopyBytes(src, srcRow, dst, dstRow, width);
  }
}
