/**
 * The iOS frame builders (AppDelegate.swift): they fill a bi-planar 4:2:0
 * pixel buffer (NV12: a luma plane, then one plane of U,V byte pairs) from
 * the planes a camera frame arrives in. Each destination plane has its own
 * bytes-per-row, chosen by the pixel buffer allocator, so rows are copied one
 * at a time. Two sources are handled: a frame that is already NV12 (Y plane
 * and UV plane) and a three-plane YUV 4:2:0 frame whose U and V planes are
 * interleaved here, U first.
 */
module Nv12 {
  import opened Wrappers
  import opened Planes

  /** `CVPixelBufferCreate` refuses a buffer with no pixels. */
  predicate CreateSucceeds(width: int, height: int)
  {
    0 < width && 0 < height
  }

  /** Rows of chroma in a 4:2:0 buffer: one per two luma rows, rounded up. */
  function ChromaRows(height: nat): nat
  {
    (height + 1) / 2
  }

  /** Bytes of U,V pairs in a chroma row: one pair per two luma columns, rounded up. */
  function ChromaRowWidth(width: nat): nat
  {
    2 * ((width + 1) / 2)
  }

  /**
   * A bi-planar 4:2:0 pixel buffer. Its planes are byte arrays that the
   * builders write in place; row `r` of a plane starts at `r` times that
   * plane's bytes-per-row.
   */
  class Nv12PixelBuffer {
    const width: nat
    const height: nat
    const lumaPlane: array<Byte>
    const lumaBytesPerRow: nat
    const chromaPlane: array<Byte>
    const chromaBytesPerRow: nat

    /** Both planes hold all their rows, and they do not share storage. */
    predicate Valid()
    {
      CreateSucceeds(width, height) &&
      width <= lumaBytesPerRow && Offset(height, lumaBytesPerRow) <= lumaPlane.Length &&
      ChromaRowWidth(width) <= chromaBytesPerRow && Offset(ChromaRows(height), chromaBytesPerRow) <= chromaPlane.Length &&
      lumaPlane != chromaPlane
    }

    /**
     * A buffer as the allocator lays it out: the bytes-per-row of each plane
     * are the allocator's choice, at least as wide as the plane's rows.
     */
    constructor (width: nat, height: nat, lumaBytesPerRow: nat, chromaBytesPerRow: nat)
      requires CreateSucceeds(width, height)
      requires width <= lumaBytesPerRow && ChromaRowWidth(width) <= chromaBytesPerRow
      ensures Valid()
      ensures this.width == width && this.height == height
      ensures this.lumaBytesPerRow == lumaBytesPerRow && this.chromaBytesPerRow == chromaBytesPerRow
      ensures fresh(lumaPlane) && fresh(chromaPlane)
    {
      this.width := width;
      this.height := height;
      this.lumaBytesPerRow := lumaBytesPerRow;
      this.chromaBytesPerRow := chromaBytesPerRow;
      OffsetMono(0, height, lumaBytesPerRow);
      OffsetMono(0, ChromaRows(height), chromaBytesPerRow);
      lumaPlane := new Byte[Offset(height, lumaBytesPerRow)](_ => 0);
      chromaPlane := new Byte[Offset(ChromaRows(height), chromaBytesPerRow)](_ => 0);
    }

    /** The rows the builders copy fit in the planes. */
    lemma Layout()
      requires Valid()
      ensures RowsWritable(lumaPlane.Length, height, width, 0, lumaBytesPerRow)
      ensures RowsWritable(chromaPlane.Length, height / 2, width, 0, chromaBytesPerRow)
      ensures RowsWritable(chromaPlane.Length, height / 2, 2 * (width / 2), 0, chromaBytesPerRow)
    {
      RowsFit(lumaPlane.Length, height, width, lumaBytesPerRow);
      OffsetMono(height / 2, ChromaRows(height), chromaBytesPerRow);
      RowsFit(chromaPlane.Length, height / 2, width, chromaBytesPerRow);
      RowsFit(chromaPlane.Length, height / 2, 2 * (width / 2), chromaBytesPerRow);
    }
  }

  // ---------------------------------------------------------------------------
  // The copy loops

  /** Copies `width` bytes of each of `rows` rows of `src`, `srcStride` apart, to rows of `dst` that are `dstBytesPerRow` apart. */
  method CopyPlaneRows(dst: array<Byte>, dstBytesPerRow: nat, src: seq<Byte>, srcStride: int, rows: nat, width: nat)
    requires RowsReadable(src, rows, width, srcStride)
    requires RowsWritable(dst.Length, rows, width, 0, dstBytesPerRow)
    modifies dst
    ensures dst[..] == CopyRows(old(dst[..]), src, rows, width, srcStride, dstBytesPerRow)
  {
    ghost var start := dst[..];
    var row := 0;
    while row < rows
      invariant 0 <= row <= rows
      invariant dst[..] == CopyRows(start, src, row, width, srcStride, dstBytesPerRow)
    {
      var srcRow := row * srcStride;
      assert srcRow == Offset(row, srcStride) by {
        OffsetIsProduct(row, srcStride);
      }
      var dstRow := row * dstBytesPerRow;
      assert dstRow == Offset(row, dstBytesPerRow) by {
        OffsetIsProduct(row, dstBytesPerRow);
      }
      CopyRow(src, srcRow, dst, dstRow, width, start, row, rows, srcStride, dstBytesPerRow);
      row := row + 1;
    }
  }

  /**
   * The three-plane chroma loop: destination row `row` receives, for each
   * column `col`, byte `col` of row `row` of `u` and then byte `col` of row
   * `row` of `v`.
   */
  method InterleaveUvRows(dst: array<Byte>, dstBytesPerRow: nat, u: seq<Byte>, v: seq<Byte>, uStride: int, vStride: int, rows: nat, cols: nat)
    requires Plane(u, uStride, 1).Readable(rows, cols) && Plane(v, vStride, 1).Readable(rows, cols)
    requires RowsWritable(dst.Length, rows, 2 * cols, 0, dstBytesPerRow)
    modifies dst
    ensures dst[..] == InterleaveRows(old(dst[..]), Plane(u, uStride, 1), Plane(v, vStride, 1), rows, cols, 0, dstBytesPerRow)
  {
    ghost var start := dst[..];
    var row := 0;
    while row < rows
      invariant 0 <= row <= rows
      invariant dst[..] == InterleaveRows(start, Plane(u, uStride, 1), Plane(v, vStride, 1), row, cols, 0, dstBytesPerRow)
    {
      OffsetIsProduct(row, dstBytesPerRow);
      OffsetIsProduct(row, uStride);
      OffsetIsProduct(row, vStride);
      InterleaveUvRow(dst, dstBytesPerRow, u, v, uStride, vStride, rows, cols, row, row * dstBytesPerRow, row * uStride, row * vStride);
      row := row + 1;
    }
  }

  /** The inner loop of `InterleaveUvRows` for one row, given the starts of that row in each plane. */
  method InterleaveUvRow(dst: array<Byte>, dstBytesPerRow: nat, u: seq<Byte>, v: seq<Byte>, uStride: int, vStride: int,
                         rows: nat, cols: nat, row: nat, dstRow: int, uRow: int, vRow: int)
    requires row < rows
    requires Plane(u, uStride, 1).Readable(rows, cols) && Plane(v, vStride, 1).Readable(rows, cols)
    requires RowsWritable(dst.Length, rows, 2 * cols, 0, dstBytesPerRow)
    requires dstRow == Offset(row, dstBytesPerRow) && uRow == Offset(row, uStride) && vRow == Offset(row, vStride)
    modifies dst
    ensures dst[..] == InterleaveRow(old(dst[..]), Plane(u, uStride, 1), Plane(v, vStride, 1), row, cols, 0, dstBytesPerRow)
  {
    ghost var before := dst[..];
    ghost var U, V := Plane(u, uStride, 1), Plane(v, vStride, 1);
    assert 0 <= dstRow && dstRow + 2 * cols <= dst.Length;
    var col := 0;
    while col < cols
      invariant 0 <= col <= cols
      invariant dst[..] == InterleaveRow(before, U, V, row, col, 0, dstBytesPerRow)
    {
      InterleaveUvPair(dst, dstBytesPerRow, u, v, uStride, vStride, rows, cols, row, col, dstRow, uRow, vRow, before);
      col := col + 1;
    }
  }

  /** One step of the inner loop: the U and V bytes of column `col` land side by side, U first. */
  method InterleaveUvPair(dst: array<Byte>, dstBytesPerRow: nat, u: seq<Byte>, v: seq<Byte>, uStride: int, vStride: int,
                          rows: nat, cols: nat, row: nat, col: nat, dstRow: int, uRow: int, vRow: int, ghost before: seq<Byte>)
    requires row < rows && col < cols
    requires Plane(u, uStride, 1).Readable(rows, cols) && Plane(v, vStride, 1).Readable(rows, cols)
    requires RowsWritable(|before|, rows, 2 * cols, 0, dstBytesPerRow)
    requires dstRow == Offset(row, dstBytesPerRow) && uRow == Offset(row, uStride) && vRow == Offset(row, vStride)
    requires dst.Length == |before| && dst[..] == InterleaveRow(before, Plane(u, uStride, 1), Plane(v, vStride, 1), row, col, 0, dstBytesPerRow)
    modifies dst
    ensures dst[..] == InterleaveRow(before, Plane(u, uStride, 1), Plane(v, vStride, 1), row, col + 1, 0, dstBytesPerRow)
  {
    OffsetIsProduct(col, 1);
    assert uRow + col == Plane(u, uStride, 1).Index(row, col);
    assert vRow + col == Plane(v, vStride, 1).Index(row, col);
    dst[dstRow + col * 2] := u[uRow + col];
    dst[dstRow + col * 2 + 1] := v[vRow + col];
  }

  // ---------------------------------------------------------------------------
  // The builders

  /**
   * Builds an NV12 buffer from a frame that is already NV12: `width` bytes
   * of each luma row and `width` bytes of each of the `height / 2` UV rows
   * are copied verbatim. `created` is the buffer the allocator hands out
   * when creation succeeds; when it fails the builder throws (`None`).
   */
  method CreateNv12PixelBufferFromNv12Planes(y: seq<Byte>, uv: seq<Byte>, width: int, height: int, yStride: int, uvStride: int,
                                             created: Nv12PixelBuffer) returns (r: Option<Nv12PixelBuffer>)
    requires created.Valid()
    requires CreateSucceeds(width, height) ==>
               created.width == width && created.height == height &&
               RowsReadable(y, height, width, yStride) && RowsReadable(uv, height / 2, width, uvStride)
    modifies created.lumaPlane, created.chromaPlane
    ensures r.Some? <==> CreateSucceeds(width, height)
    ensures r.None? ==> unchanged(created.lumaPlane) && unchanged(created.chromaPlane)
    ensures r.Some? ==>
              r.value == created &&
              RowsWritable(created.lumaPlane.Length, height, width, 0, created.lumaBytesPerRow) &&
              RowsWritable(created.chromaPlane.Length, height / 2, width, 0, created.chromaBytesPerRow) &&
              created.lumaPlane[..] == CopyRows(old(created.lumaPlane[..]), y, height, width, yStride, created.lumaBytesPerRow) &&
              created.chromaPlane[..] == CopyRows(old(created.chromaPlane[..]), uv, height / 2, width, uvStride, created.chromaBytesPerRow)
  {
    if !CreateSucceeds(width, height) {
      return None;
    }
    var buffer := created;
    buffer.Layout();
    CopyPlaneRows(buffer.lumaPlane, buffer.lumaBytesPerRow, y, yStride, height, width);
    var uvHeight := height / 2;
    CopyPlaneRows(buffer.chromaPlane, buffer.chromaBytesPerRow, uv, uvStride, uvHeight, width);
    r := Some(buffer);
  }

  /**
   * Builds an NV12 buffer from a three-plane frame: the luma rows are copied
   * as above, and chroma row `r` is written as `width / 2` pairs of byte `c`
   * of U row `r` followed by byte `c` of V row `r`. The chroma planes are
   * read one byte per sample, whatever their pixel stride.
   */
  method CreateNv12PixelBufferFromYUV420(y: seq<Byte>, u: seq<Byte>, v: seq<Byte>, width: int, height: int,
                                         yStride: int, uStride: int, vStride: int,
                                         created: Nv12PixelBuffer) returns (r: Option<Nv12PixelBuffer>)
    requires created.Valid()
    requires CreateSucceeds(width, height) ==>
               created.width == width && created.height == height &&
               RowsReadable(y, height, width, yStride) &&
               Plane(u, uStride, 1).Readable(height / 2, width / 2) && Plane(v, vStride, 1).Readable(height / 2, width / 2)
    modifies created.lumaPlane, created.chromaPlane
    ensures r.Some? <==> CreateSucceeds(width, height)
    ensures r.None? ==> unchanged(created.lumaPlane) && unchanged(created.chromaPlane)
    ensures r.Some? ==>
              r.value == created &&
              RowsWritable(created.lumaPlane.Length, height, width, 0, created.lumaBytesPerRow) &&
              RowsWritable(created.chromaPlane.Length, height / 2, 2 * (width / 2), 0, created.chromaBytesPerRow) &&
              created.lumaPlane[..] == CopyRows(old(created.lumaPlane[..]), y, height, width, yStride, created.lumaBytesPerRow) &&
              created.chromaPlane[..] == InterleaveRows(old(created.chromaPlane[..]), Plane(u, uStride, 1), Plane(v, vStride, 1),
                                                          height / 2, width / 2, 0, created.chromaBytesPerRow)
  {
    if !CreateSucceeds(width, height) {
      return None;
    }
    var buffer := created;
    buffer.Layout();
    CopyPlaneRows(buffer.lumaPlane, buffer.lumaBytesPerRow, y, yStride, height, width);
    var uvHeight := height / 2;
    InterleaveUvRows(buffer.chromaPlane, buffer.chromaBytesPerRow, u, v, uStride, vStride, uvHeight, width / 2);
    r := Some(buffer);
  }

  // ---------------------------------------------------------------------------
  // What the builders write

  /** A plane copy puts byte `c` of source row `r` at byte `c` of destination row `r`. */
  lemma PlaneCopyAt(dst: seq<Byte>, src: seq<Byte>, rows: nat, width: nat, srcStride: int, dstBytesPerRow: int, r: nat, c: int)
    requires RowsReadable(src, rows, width, srcStride)
    requires RowsWritable(|dst|, rows, width, 0, dstBytesPerRow)
    requires width <= dstBytesPerRow
    requires r < rows && 0 <= c < width
    ensures 0 <= r * dstBytesPerRow + c < |dst| && 0 <= r * srcStride + c < |src|
    ensures CopyRows(dst, src, rows, width, srcStride, dstBytesPerRow)[r * dstBytesPerRow + c] == src[r * srcStride + c]
  {
    CopyRowsAt(dst, src, rows, width, srcStride, dstBytesPerRow, r, c);
    OffsetIsProduct(r, dstBytesPerRow);
    OffsetIsProduct(r, srcStride);
  }

  /** A plane copy leaves the bytes past `width` in each destination row as they were. */
  lemma PlaneCopyKeepsPadding(dst: seq<Byte>, src: seq<Byte>, rows: nat, width: nat, srcStride: int, dstBytesPerRow: int, r: nat, c: int)
    requires RowsReadable(src, rows, width, srcStride)
    requires RowsWritable(|dst|, rows, width, 0, dstBytesPerRow)
    requires r < rows && width <= c < dstBytesPerRow && r * dstBytesPerRow + c < |dst|
    ensures CopyRows(dst, src, rows, width, srcStride, dstBytesPerRow)[r * dstBytesPerRow + c] == dst[r * dstBytesPerRow + c]
  {
    OffsetIsProduct(r, dstBytesPerRow);
    CopyRowsPadding(dst, src, rows, width, srcStride, dstBytesPerRow, r, c);
  }

  /**
   * In the three-plane builder, pair `c` of chroma row `r` is the U byte at
   * `r * uStride + c` followed by the V byte at `r * vStride + c`.
   */
  lemma UvPairAt(dst: seq<Byte>, u: seq<Byte>, v: seq<Byte>, uStride: int, vStride: int, rows: nat, cols: nat, dstBytesPerRow: int, r: nat, c: nat)
    requires Plane(u, uStride, 1).Readable(rows, cols) && Plane(v, vStride, 1).Readable(rows, cols)
    requires RowsWritable(|dst|, rows, 2 * cols, 0, dstBytesPerRow)
    requires 2 * cols <= dstBytesPerRow
    requires r < rows && c < cols
    ensures 0 <= r * dstBytesPerRow + 2 * c && r * dstBytesPerRow + 2 * c + 1 < |dst|
    ensures 0 <= r * uStride + c < |u| && 0 <= r * vStride + c < |v|
    ensures InterleaveRows(dst, Plane(u, uStride, 1), Plane(v, vStride, 1), rows, cols, 0, dstBytesPerRow)[r * dstBytesPerRow + 2 * c] == u[r * uStride + c]
    ensures InterleaveRows(dst, Plane(u, uStride, 1), Plane(v, vStride, 1), rows, cols, 0, dstBytesPerRow)[r * dstBytesPerRow + 2 * c + 1] == v[r * vStride + c]
  {
    OffsetIsProduct(r, dstBytesPerRow);
    IndexIsProduct(Plane(u, uStride, 1), r, c);
    IndexIsProduct(Plane(v, vStride, 1), r, c);
    InterleaveRowsAt(dst, Plane(u, uStride, 1), Plane(v, vStride, 1), rows, cols, 0, dstBytesPerRow, r, c);
  }

  /** In the three-plane builder the bytes past the `cols` pairs of each chroma row are not written. */
  lemma UvRowKeepsPadding(dst: seq<Byte>, u: seq<Byte>, v: seq<Byte>, uStride: int, vStride: int, rows: nat, cols: nat, dstBytesPerRow: int, r: nat, c: int)
    requires Plane(u, uStride, 1).Readable(rows, cols) && Plane(v, vStride, 1).Readable(rows, cols)
    requires RowsWritable(|dst|, rows, 2 * cols, 0, dstBytesPerRow)
    requires r < rows && 2 * cols <= c < dstBytesPerRow && r * dstBytesPerRow + c < |dst|
    ensures InterleaveRows(dst, Plane(u, uStride, 1), Plane(v, vStride, 1), rows, cols, 0, dstBytesPerRow)[r * dstBytesPerRow + c] == dst[r * dstBytesPerRow + c]
  {
    OffsetIsProduct(r, dstBytesPerRow);
    InterleaveRowsPadding(dst, Plane(u, uStride, 1), Plane(v, vStride, 1), rows, cols, dstBytesPerRow, r, c);
  }
}
