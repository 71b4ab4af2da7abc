/** The tile arithmetic and the missing-data repair of the aligner
    (`inference/aligner.py`). A bounding box is given by its ranges at the
    mip in use, as `BoundingBox.x_range(mip=...)` returns them. Images are 2-D
    arrays of `uint8`, indexed `[x, y]`. */
module Aligner {
  import opened Arith
  import opened Slices
  import opened Boxes

  /** `[start, stop)` of one axis at one mip. */
  datatype Extent = Extent(lo: int, hi: int)

  // Chunk grid

  /** The storage grid of one axis: the points `offset + q * chunk`. */
  predicate OnGrid(p: int, offset: int, chunk: int)
    requires chunk > 0
  {
    (p - offset) % chunk == 0
  }

  /** Subtracting the remainder from a point, or the remainder and one more
      chunk, lands on the grid. */
  lemma GridBelow(a: int, chunk: int)
    requires chunk > 0
    ensures (a - a % chunk) % chunk == 0 && (a - a % chunk - chunk) % chunk == 0
  {
    var q := a / chunk;
    assert a - a % chunk == q * chunk + 0;
    DivModUnique(a - a % chunk, chunk, q, 0);
    assert a - a % chunk - chunk == (q - 1) * chunk + 0;
    DivModUnique(a - a % chunk - chunk, chunk, q - 1, 0);
  }

  /** `start - (start - offset) % chunk` (Python's `%`, which for a positive
      chunk is Dafny's): the storage grid point at or below start. */
  function AlignDown(start: int, offset: int, chunk: int): (r: int)
    requires chunk > 0
    ensures r <= start < r + chunk
    ensures OnGrid(r, offset, chunk)
  {
    GridBelow(start - offset, chunk);
    start - (start - offset) % chunk
  }

  /** The start `get_upchunked_bbox` computes on one axis: with
      `delta = chunk - remainder` for a non-zero remainder, `start + delta -
      chunk`. It is the largest storage grid point strictly below start. */
  function UpchunkStart(start: int, offset: int, chunk: int): (r: int)
    requires chunk > 0
    ensures r < start <= r + chunk
    ensures OnGrid(r, offset, chunk)
  {
    var remainder := (start - offset) % chunk;
    var delta := if remainder != 0 then chunk - remainder else 0;
    GridBelow(start - offset, chunk);
    start + delta - chunk
  }

  /** `get_upchunked_bbox`: the box moved to the mip-0 image of the upchunked
      start on each axis, with its mip-0 size unchanged. */
  function UpchunkedBBox(x: Extent, y: Extent, chunk: (int, int), offset: (int, int), mip: nat,
                         xSize0: int, ySize0: int): (r: BBox)
    requires chunk.0 > 0 && chunk.1 > 0
    ensures r.xStart == UpchunkStart(x.lo, offset.0, chunk.0) * Pow2(mip)
    ensures r.yStart == UpchunkStart(y.lo, offset.1, chunk.1) * Pow2(mip)
    ensures r.xStop - r.xStart == xSize0 && r.yStop - r.yStart == ySize0 && r.mip == 0
  {
    var xs := UpchunkStart(x.lo, offset.0, chunk.0) * Pow2(mip);
    var ys := UpchunkStart(y.lo, offset.1, chunk.1) * Pow2(mip);
    BBox(xs, xs + xSize0, ys, ys + ySize0, 0)
  }

  /** The processing chunk of `break_into_chunks`: the high-mip chunk scaled
      by `2 ** (process_high_mip - mip)` (by 1 at or above that mip), replaced
      wholesale by the applicable cap when either side exceeds it. */
  function ProcessingChunk(highMipChunk: (int, int), processHighMip: int, mip: nat,
                           maxChunk: (int, int), maxRenderChunk: (int, int), render: bool): (int, int) {
    var scale := if processHighMip > mip then Pow2(processHighMip - mip) else 1;
    var pc := (highMipChunk.0 * scale, highMipChunk.1 * scale);
    if !render && (pc.0 > maxChunk.0 || pc.1 > maxChunk.1) then maxChunk
    else if render && (pc.0 > maxRenderChunk.0 || pc.1 > maxRenderChunk.1) then maxRenderChunk
    else pc
  }

  /** The processing chunk never exceeds the cap in force, is the scaled
      chunk whenever that fits, and is positive for a positive configuration. */
  lemma ProcessingChunkCapped(highMipChunk: (int, int), processHighMip: int, mip: nat,
                              maxChunk: (int, int), maxRenderChunk: (int, int), render: bool)
    ensures var pc := ProcessingChunk(highMipChunk, processHighMip, mip, maxChunk, maxRenderChunk, render);
      var cap := if render then maxRenderChunk else maxChunk;
      var scale := if processHighMip > mip then Pow2(processHighMip - mip) else 1;
      var scaled := (highMipChunk.0 * scale, highMipChunk.1 * scale);
      && pc.0 <= cap.0 && pc.1 <= cap.1
      && (scaled.0 <= cap.0 && scaled.1 <= cap.1 ==> pc == scaled)
      && (mip >= processHighMip ==> scale == 1)
      && (highMipChunk.0 > 0 && highMipChunk.1 > 0 && cap.0 > 0 && cap.1 > 0 ==> pc.0 > 0 && pc.1 > 0)
  {
    var scale := if processHighMip > mip then Pow2(processHighMip - mip) else 1;
    assert highMipChunk.0 > 0 ==> highMipChunk.0 * scale > 0;
    assert highMipChunk.1 > 0 ==> highMipChunk.1 * scale > 0;
  }

  /** One row of tiles: x-start xs, every y-start, each tile `pc0` on a side
      (the source uses the x size for the y extent too). */
  function Column(xs: int, ys: seq<int>, pc0: int, mip: int): (r: seq<BBox>)
    ensures |r| == |ys|
    ensures forall b :: 0 <= b < |ys| ==> r[b] == BBox(xs, xs + pc0, ys[b], ys[b] + pc0, mip)
  {
    seq(|ys|, b requires 0 <= b < |ys| => BBox(xs, xs + pc0, ys[b], ys[b] + pc0, mip))
  }

  /** The tiles of the nested loops: x outer, y inner. */
  function Grid(xss: seq<int>, ys: seq<int>, pc0: int, mip: int): seq<BBox> {
    if xss == [] then [] else Grid(xss[..|xss| - 1], ys, pc0, mip) + Column(xss[|xss| - 1], ys, pc0, mip)
  }

  /** Tile `a * |ys| + b` is x-start a and y-start b. */
  lemma {:induction false} GridIndex(xss: seq<int>, ys: seq<int>, pc0: int, mip: int)
    decreases |xss|
    ensures |Grid(xss, ys, pc0, mip)| == |xss| * |ys|
    ensures forall a, b :: 0 <= a < |xss| && 0 <= b < |ys| ==>
      0 <= a * |ys| + b < |xss| * |ys| &&
      Grid(xss, ys, pc0, mip)[a * |ys| + b] == BBox(xss[a], xss[a] + pc0, ys[b], ys[b] + pc0, mip)
  {
    if xss != [] {
      var init := xss[..|xss| - 1];
      var g0 := Grid(init, ys, pc0, mip);
      var col := Column(xss[|xss| - 1], ys, pc0, mip);
      GridIndex(init, ys, pc0, mip);
      assert |xss| * |ys| == |init| * |ys| + |ys|;
      forall a, b | 0 <= a < |xss| && 0 <= b < |ys|
        ensures 0 <= a * |ys| + b < |xss| * |ys|
        ensures Grid(xss, ys, pc0, mip)[a * |ys| + b] == BBox(xss[a], xss[a] + pc0, ys[b], ys[b] + pc0, mip)
      {
        IndexBound(a, b, |xss|, |ys|);
        if a < |init| {
          assert xss[a] == init[a];
          IndexBound(a, b, |init|, |ys|);
          assert (g0 + col)[a * |ys| + b] == g0[a * |ys| + b];
        } else {
          assert a * |ys| == |init| * |ys|;
          assert (g0 + col)[a * |ys| + b] == col[b];
        }
      }
    }
  }

  lemma IndexBound(a: int, b: int, n: int, m: int)
    requires 0 <= a < n && 0 <= b < m
    ensures 0 <= a * m + b < n * m
  {
    assert a * m <= (n - 1) * m;
  }

  /** `break_into_chunks`: the range on each axis starts at the storage grid
      point at or below the raw start and runs to the raw end; tiles are laid
      every processing chunk from there. */
  method BreakIntoChunks(x: Extent, y: Extent, chunk: (int, int), offset: (int, int), mip: int, pc: (int, int))
    returns (chunks: seq<BBox>)
    requires chunk.0 > 0 && chunk.1 > 0 && pc.0 > 0 && pc.1 > 0
    ensures chunks == Grid(StepRange(AlignDown(x.lo, offset.0, chunk.0), x.hi, pc.0),
                           StepRange(AlignDown(y.lo, offset.1, chunk.1), y.hi, pc.1), pc.0, mip)
  {
    var xss := StepRange(AlignDown(x.lo, offset.0, chunk.0), x.hi, pc.0);
    var ys := StepRange(AlignDown(y.lo, offset.1, chunk.1), y.hi, pc.1);
    chunks := [];
    var a := 0;
    while a < |xss|
      invariant 0 <= a <= |xss|
      invariant chunks == Grid(xss[..a], ys, pc.0, mip)
    {
      var row: seq<BBox> := [];
      var b := 0;
      while b < |ys|
        invariant 0 <= b <= |ys|
        invariant row == Column(xss[a], ys[..b], pc.0, mip)
      {
        row := row + [BBox(xss[a], xss[a] + pc.0, ys[b], ys[b] + pc.0, mip)];
        b := b + 1;
      }
      assert ys[..b] == ys;
      assert xss[..a + 1][..a] == xss[..a];
      chunks := chunks + row;
      a := a + 1;
    }
    assert xss[..a] == xss;
  }

  /** `range(lo, hi, step)` has `ceil((hi - lo) / step)` elements and its
      steps cover `[lo, hi)` without a gap: every point lies in the step of
      exactly one element. */
  lemma {:induction false} StepRangeCovers(lo: int, hi: int, step: int, p: int)
    requires step > 0
    decreases hi - lo
    ensures var r := StepRange(lo, hi, step);
      && (lo < hi ==> |r| == CeilDiv(hi - lo, step))
      && (lo <= p < hi ==> exists i :: 0 <= i < |r| && r[i] <= p < r[i] + step)
  {
    if lo < hi {
      var r, t := StepRange(lo, hi, step), StepRange(lo + step, hi, step);
      assert r == [lo] + t;
      StepRangeCovers(lo + step, hi, step, p);
      if lo + step < hi {
        CeilDivStep(hi - lo, step);
      } else {
        assert |r| == 1;
        CeilDivUnique(hi - lo, step, 1);
      }
      if lo + step <= p < hi {
        var i :| 0 <= i < |t| && t[i] <= p < t[i] + step;
        assert r[i + 1] == t[i];
      }
    }
  }

  lemma CeilDivStep(a: int, step: int)
    requires step > 0 && a > step
    ensures CeilDiv(a, step) == CeilDiv(a - step, step) + 1
  {
    var s := CeilDiv(a - step, step);
    assert (s + 1) * step == s * step + step;
    assert (s + 1 - 1) * step == s * step;
    CeilDivUnique(a, step, s + 1);
  }

  // Residuals

  /** `abs_to_rel_residual` at one pixel: channel 0 over half the mip-0 x size,
      channel 1 over half the mip-0 y size. */
  function AbsToRel(v: (real, real), xSize0: real, ySize0: real): (real, real)
    requires xSize0 != 0.0 && ySize0 != 0.0
  {
    (v.0 / (xSize0 * 0.5), v.1 / (ySize0 * 0.5))
  }

  /** The scaling of `save_residual_patch` at one pixel: `res * (side / 2) *
      2 ** mip`. */
  function RelToAbs(v: (real, real), side: real, mip: nat): (real, real) {
    (v.0 * (side / 2.0) * Pow2(mip) as real, v.1 * (side / 2.0) * Pow2(mip) as real)
  }

  /** For a square tile whose side at mip m is the mip-0 size over `2 ** m`,
      saving undoes the relative scaling exactly. */
  lemma ResidualRoundTrip(v: (real, real), side: real, mip: nat, size0: real)
    requires side * Pow2(mip) as real == size0 && size0 != 0.0
    ensures RelToAbs(AbsToRel(v, size0, size0), side, mip) == v
  {
    var p := Pow2(mip) as real;
    var h := size0 * 0.5;
    assert (side / 2.0) * p == h by {
      assert side / 2.0 == side * 0.5;
      assert side * 0.5 * p == side * p * 0.5;
    }
    var rel := AbsToRel(v, size0, size0);
    assert rel.0 == v.0 / h && rel.1 == v.1 / h;
    Undo(v.0, h, side / 2.0, p);
    Undo(v.1, h, side / 2.0, p);
    var r := RelToAbs(rel, side, mip);
    assert r.0 == v.0 / h * (side / 2.0) * p;
    assert r.1 == v.1 / h * (side / 2.0) * p;
  }

  lemma Undo(x: real, h: real, s: real, p: real)
    requires h != 0.0 && s * p == h
    ensures x / h * s * p == x
  {
    assert x / h * s * p == x / h * (s * p);
  }

  // Missing data

  type Byte = x: int | 0 <= x < 256

  /** A pixel is missing when it is black or saturated (`0` or `>= 253`). */
  predicate MissingValue(v: Byte) {
    v == 0 || v >= 253
  }

  /** The insets of an image box against the run's total box, at one mip. */
  datatype Window = Window(imgX: Extent, imgY: Extent, totalX: Extent, totalY: Extent)

  function Max0(a: int): nat {
    if a > 0 then a else 0
  }

  /** `fov_mask` at `[i, j]` of an `X` by `Y` array: cleared in the first
      `xs_inset` rows, the last `xe_inset` rows (Python's `[-n:]`), and the same
      for columns. */
  predicate InView(i: int, j: int, nx: int, ny: int, w: Window) {
    var xsInset, xeInset := Max0(w.totalX.lo - w.imgX.lo), Max0(w.imgX.hi - w.totalX.hi);
    var ysInset, yeInset := Max0(w.totalY.lo - w.imgY.lo), Max0(w.imgY.hi - w.totalY.hi);
    xsInset <= i < nx - xeInset && ysInset <= j < ny - yeInset
  }

  /** `missing_data_mask` at `[i, j]`. */
  predicate MaskAt(v: Byte, i: int, j: int, nx: int, ny: int, w: Window) {
    InView(i, j, nx, ny, w) && MissingValue(v)
  }

  /** For an array as large as its box, a pixel is flagged exactly when it is
      missing and its coordinates lie inside the total box. */
  lemma MaskMeansInside(v: Byte, i: int, j: int, w: Window)
    requires w.imgX.lo <= w.imgX.hi && w.imgY.lo <= w.imgY.hi
    requires 0 <= i < w.imgX.hi - w.imgX.lo && 0 <= j < w.imgY.hi - w.imgY.lo
    ensures MaskAt(v, i, j, w.imgX.hi - w.imgX.lo, w.imgY.hi - w.imgY.lo, w) <==>
      && MissingValue(v)
      && w.totalX.lo <= w.imgX.lo + i < w.totalX.hi
      && w.totalY.lo <= w.imgY.lo + j < w.totalY.hi
  {
  }

  /** `missing_data_mask(img, bbox, mip)`. */
  method MissingDataMask(img: array2<Byte>, w: Window) returns (mask: array2<bool>)
    ensures fresh(mask) && mask.Length0 == img.Length0 && mask.Length1 == img.Length1
    ensures forall i, j :: 0 <= i < img.Length0 && 0 <= j < img.Length1 ==>
      mask[i, j] == MaskAt(img[i, j], i, j, img.Length0, img.Length1, w)
  {
    mask := new bool[img.Length0, img.Length1];
    var i := 0;
    while i < img.Length0
      invariant 0 <= i <= img.Length0
      invariant forall a, b :: 0 <= a < i && 0 <= b < img.Length1 ==>
        mask[a, b] == MaskAt(img[a, b], a, b, img.Length0, img.Length1, w)
    {
      var j := 0;
      while j < img.Length1
        invariant 0 <= j <= img.Length1
        invariant forall a, b :: 0 <= a < i && 0 <= b < img.Length1 ==>
          mask[a, b] == MaskAt(img[a, b], a, b, img.Length0, img.Length1, w)
        invariant forall b :: 0 <= b < j ==> mask[i, b] == MaskAt(img[i, b], i, b, img.Length0, img.Length1, w)
      {
        mask[i, j] := MaskAt(img[i, j], i, j, img.Length0, img.Length1, w);
        j := j + 1;
      }
      i := i + 1;
    }
  }

  /** The new value of a target pixel: the backup's where the target is still
      missing and the backup is not (`backup_missing_mask < still_missing_mask`). */
  function FillPixel(t: Byte, stillMissing: bool, b: Byte, backupMissing: bool): Byte {
    if stillMissing && !backupMissing then b else t
  }

  /** `supplement_target_with_backup`, in place on `target`. */
  method SupplementTargetWithBackup(target: array2<Byte>, stillMissing: array2<bool>, backup: array2<Byte>, w: Window)
    requires stillMissing.Length0 == target.Length0 && stillMissing.Length1 == target.Length1
    requires backup.Length0 == target.Length0 && backup.Length1 == target.Length1
    requires target != backup
    modifies target
    ensures forall i, j :: 0 <= i < target.Length0 && 0 <= j < target.Length1 ==>
      target[i, j] == FillPixel(old(target[i, j]), stillMissing[i, j], backup[i, j],
                                MaskAt(backup[i, j], i, j, backup.Length0, backup.Length1, w))
  {
    var backupMissing := MissingDataMask(backup, w);
    var i := 0;
    while i < target.Length0
      invariant 0 <= i <= target.Length0
      invariant forall a, b :: 0 <= a < target.Length0 && 0 <= b < target.Length1 ==>
        backupMissing[a, b] == MaskAt(backup[a, b], a, b, backup.Length0, backup.Length1, w)
      invariant forall a, b :: 0 <= a < i && 0 <= b < target.Length1 ==>
        target[a, b] == FillPixel(old(target[a, b]), stillMissing[a, b], backup[a, b], backupMissing[a, b])
      invariant forall a, b :: i <= a < target.Length0 && 0 <= b < target.Length1 ==> target[a, b] == old(target[a, b])
    {
      var j := 0;
      while j < target.Length1
        invariant 0 <= j <= target.Length1
        invariant forall a, b :: 0 <= a < target.Length0 && 0 <= b < target.Length1 ==>
          backupMissing[a, b] == MaskAt(backup[a, b], a, b, backup.Length0, backup.Length1, w)
        invariant forall a, b :: 0 <= a < i && 0 <= b < target.Length1 ==>
          target[a, b] == FillPixel(old(target[a, b]), stillMissing[a, b], backup[a, b], backupMissing[a, b])
        invariant forall b :: 0 <= b < j ==>
          target[i, b] == FillPixel(old(target[i, b]), stillMissing[i, b], backup[i, b], backupMissing[i, b])
        invariant forall a, b :: 0 <= a < target.Length0 && 0 <= b < target.Length1 && (a > i || (a == i && b >= j)) ==>
          target[a, b] == old(target[a, b])
      {
        if stillMissing[i, j] && !backupMissing[i, j] {
          target[i, j] := backup[i, j];
        }
        j := j + 1;
      }
      i := i + 1;
    }
  }

  // Backtracking, on values

  /** An image as rows of pixels, `img[x][y]`. */
  type Image = seq<seq<Byte>>

  ghost predicate Shaped(img: Image, nx: nat, ny: nat) {
    |img| == nx && forall i :: 0 <= i < nx ==> |img[i]| == ny
  }

  function Contents(a: array2<Byte>): (r: Image)
    reads a
    ensures Shaped(r, a.Length0, a.Length1)
  {
    seq(a.Length0, i requires 0 <= i < a.Length0 reads a => seq(a.Length1, j requires 0 <= j < a.Length1 reads a => a[i, j]))
  }

  /** The image of an array holds its pixels. */
  lemma ContentsAt(a: array2<Byte>)
    ensures forall i, j :: 0 <= i < a.Length0 && 0 <= j < a.Length1 ==> Contents(a)[i][j] == a[i, j]
  {
  }

  /** Some pixel of an `nx` by `ny` image is flagged. */
  ghost predicate AnyMissing(img: Image, nx: nat, ny: nat, w: Window)
    requires Shaped(img, nx, ny)
  {
    exists i, j :: 0 <= i < nx && 0 <= j < ny && MaskAt(img[i][j], i, j, nx, ny, w)
  }

  /** The target with every still-missing pixel taken from the backup where
      the backup has it. */
  ghost function Filled(target: Image, backup: Image, nx: nat, ny: nat, w: Window): (r: Image)
    requires Shaped(target, nx, ny) && Shaped(backup, nx, ny)
    ensures Shaped(r, nx, ny)
  {
    seq(nx, i requires 0 <= i < nx =>
      seq(ny, j requires 0 <= j < ny =>
        FillPixel(target[i][j], MaskAt(target[i][j], i, j, nx, ny, w), backup[i][j], MaskAt(backup[i][j], i, j, nx, ny, w))))
  }

  lemma FilledAt(target: Image, backup: Image, nx: nat, ny: nat, w: Window)
    requires Shaped(target, nx, ny) && Shaped(backup, nx, ny)
    ensures var r := Filled(target, backup, nx, ny, w);
      forall i, j :: 0 <= i < nx && 0 <= j < ny ==>
        r[i][j] == FillPixel(target[i][j], MaskAt(target[i][j], i, j, nx, ny, w), backup[i][j], MaskAt(backup[i][j], i, j, nx, ny, w))
  {
  }

  /** A supplement only repairs: a pixel is missing afterwards exactly when it
      was missing in both the target and the backup, and a pixel that was not
      missing keeps its value. */
  lemma FilledRepairs(target: Image, backup: Image, nx: nat, ny: nat, w: Window, i: int, j: int)
    requires Shaped(target, nx, ny) && Shaped(backup, nx, ny) && 0 <= i < nx && 0 <= j < ny
    ensures var r := Filled(target, backup, nx, ny, w);
      && (MaskAt(r[i][j], i, j, nx, ny, w) <==> MaskAt(target[i][j], i, j, nx, ny, w) && MaskAt(backup[i][j], i, j, nx, ny, w))
      && (!MaskAt(target[i][j], i, j, nx, ny, w) ==> r[i][j] == target[i][j])
  {
    FilledAt(target, backup, nx, ny, w);
  }

  /** The loop of `get_image_data` from `backtrack = b`: returns the repaired
      image and the sections it read, in order. */
  ghost function Backtrack(data: Image, sections: int -> Image, z: int, zs: int, numTargets: int,
                           nx: nat, ny: nat, w: Window, b: nat): (Image, seq<int>)
    requires Shaped(data, nx, ny) && forall s :: Shaped(sections(s), nx, ny)
    decreases numTargets - b
  {
    if b >= numTargets || z - b < zs || !AnyMissing(data, nx, ny, w) then (data, [])
    else
      var rest := Backtrack(Filled(data, sections(z - b), nx, ny, w), sections, z, zs, numTargets, nx, ny, w, b + 1);
      (rest.0, [z - b] + rest.1)
  }

  /** The backtracking reads sections `z - b, z - b - 1, ...` in turn, at most
      up to `backtrack = num_targets - 1`, and never one below `zs`. */
  lemma {:induction false} BacktrackReads(data: Image, sections: int -> Image, z: int, zs: int, numTargets: int,
                                          nx: nat, ny: nat, w: Window, b: nat)
    requires Shaped(data, nx, ny) && forall s :: Shaped(sections(s), nx, ny)
    requires b >= 1
    decreases numTargets - b
    ensures var log := Backtrack(data, sections, z, zs, numTargets, nx, ny, w, b).1;
      && |log| <= Max0(numTargets - b)
      && (forall n :: 0 <= n < |log| ==> log[n] == z - b - n && log[n] >= zs && b + n <= numTargets - 1)
      && (!AnyMissing(data, nx, ny, w) ==> log == [])
  {
    if !(b >= numTargets || z - b < zs || !AnyMissing(data, nx, ny, w)) {
      var next := Filled(data, sections(z - b), nx, ny, w);
      BacktrackReads(next, sections, z, zs, numTargets, nx, ny, w, b + 1);
    }
  }

  /** The image `get_image_data` returns before the conversion to floats,
      with the sections read after the first. */
  ghost function ImageData(sections: int -> Image, z: int, zs: int, numTargets: int, shouldBacktrack: bool,
                           nx: nat, ny: nat, w: Window): (Image, seq<int>)
    requires forall s :: Shaped(sections(s), nx, ny)
  {
    if numTargets > 1 && shouldBacktrack then Backtrack(sections(z), sections, z, zs, numTargets, nx, ny, w, 1)
    else (sections(z), [])
  }

  /** Reads a section into a fresh array. */
  method Load(sections: int -> Image, s: int, nx: nat, ny: nat) returns (a: array2<Byte>)
    requires forall s :: Shaped(sections(s), nx, ny)
    ensures fresh(a) && a.Length0 == nx && a.Length1 == ny && Contents(a) == sections(s)
  {
    var img := sections(s);
    a := new Byte[nx, ny]((i, j) requires 0 <= i < nx && 0 <= j < ny => img[i][j]);
    ContentsAt(a);
    SameImage(Contents(a), img, nx, ny);
  }

  /** Whether any flag in the mask is set (`np.any`). */
  method AnyFlag(mask: array2<bool>) returns (r: bool)
    ensures r <==> exists i, j :: 0 <= i < mask.Length0 && 0 <= j < mask.Length1 && mask[i, j]
  {
    r := false;
    var i := 0;
    while i < mask.Length0
      invariant 0 <= i <= mask.Length0
      invariant !r ==> forall a, b :: 0 <= a < i && 0 <= b < mask.Length1 ==> !mask[a, b]
      invariant r ==> exists a, b :: 0 <= a < mask.Length0 && 0 <= b < mask.Length1 && mask[a, b]
    {
      var j := 0;
      while j < mask.Length1
        invariant 0 <= j <= mask.Length1
        invariant !r ==> forall a, b :: 0 <= a < i && 0 <= b < mask.Length1 ==> !mask[a, b]
        invariant !r ==> forall b :: 0 <= b < j ==> !mask[i, b]
        invariant r ==> exists a, b :: 0 <= a < mask.Length0 && 0 <= b < mask.Length1 && mask[a, b]
      {
        if mask[i, j] {
          r := true;
        }
        j := j + 1;
      }
      i := i + 1;
    }
  }

  /** Two images of the same shape with the same pixels are equal. */
  lemma SameImage(a: Image, b: Image, nx: nat, ny: nat)
    requires Shaped(a, nx, ny) && Shaped(b, nx, ny)
    requires forall i, j :: 0 <= i < nx && 0 <= j < ny ==> a[i][j] == b[i][j]
    ensures a == b
  {
    forall i | 0 <= i < nx
      ensures a[i] == b[i]
    {
      assert |a[i]| == ny == |b[i]|;
    }
  }

  /** One step of the loop: the mask is taken, then the backup fills it. */
  method Supplement(data: array2<Byte>, backup: array2<Byte>, ghost src: Image, w: Window) returns (any: bool)
    requires backup.Length0 == data.Length0 && backup.Length1 == data.Length1 && data != backup
    requires Contents(backup) == src
    modifies data
    ensures any <==> AnyMissing(old(Contents(data)), data.Length0, data.Length1, w)
    ensures !any ==> Contents(data) == old(Contents(data))
    ensures any ==> Contents(data) == Filled(old(Contents(data)), src, data.Length0, data.Length1, w)
  {
    ghost var prev := Contents(data);
    ContentsAt(data);
    ContentsAt(backup);
    var still := MissingDataMask(data, w);
    any := AnyFlag(still);
    assert any ==> AnyMissing(prev, data.Length0, data.Length1, w);
    assert AnyMissing(prev, data.Length0, data.Length1, w) ==> any by {
      if AnyMissing(prev, data.Length0, data.Length1, w) {
        var i, j :| 0 <= i < data.Length0 && 0 <= j < data.Length1 && MaskAt(prev[i][j], i, j, data.Length0, data.Length1, w);
        assert still[i, j];
      }
    }
    if any {
      SupplementTargetWithBackup(data, still, backup, w);
      FilledAt(prev, src, data.Length0, data.Length1, w);
      ContentsAt(data);
      SameImage(Contents(data), Filled(prev, src, data.Length0, data.Length1, w), data.Length0, data.Length1);
    }
  }

  /** One pass of the loop at `backtrack = b < num_targets`: stop below `zs`
      or when nothing is missing, otherwise read section `z - b` and fill.
      `img` is the image before the pass and `img'` after it, `whole` the
      outcome of the loop and `log` the sections read so far. */
  method BacktrackOnce(data: array2<Byte>, sections: int -> Image, z: int, zs: int, numTargets: int,
                       nx: nat, ny: nat, w: Window, b: nat, ghost img: Image, ghost whole: (Image, seq<int>),
                       ghost log: seq<int>)
    returns (stop: bool, ghost img': Image)
    requires forall s :: Shaped(sections(s), nx, ny)
    requires data.Length0 == nx && data.Length1 == ny && 1 <= b < numTargets
    requires Contents(data) == img && Shaped(img, nx, ny)
    requires var rest := Backtrack(img, sections, z, zs, numTargets, nx, ny, w, b);
      whole == (rest.0, log + rest.1)
    modifies data
    ensures Contents(data) == img' && Shaped(img', nx, ny)
    ensures stop ==> whole == (img', log)
    ensures !stop ==> var rest := Backtrack(img', sections, z, zs, numTargets, nx, ny, w, b + 1);
      whole == (rest.0, (log + [z - b]) + rest.1)
  {
    img' := img;
    if z - b < zs {
      assert log + [] == log;
      return true, img';
    }
    var backup := Load(sections, z - b, nx, ny);
    var any := Supplement(data, backup, sections(z - b), w);
    img' := Contents(data);
    stop := !any;
    if stop {
      assert log + [] == log;
    } else {
      ghost var next := Backtrack(img', sections, z, zs, numTargets, nx, ny, w, b + 1);
      assert Backtrack(img, sections, z, zs, numTargets, nx, ny, w, b) == (next.0, [z - b] + next.1);
      assert log + ([z - b] + next.1) == (log + [z - b]) + next.1;
    }
  }

  /** The loop `for backtrack in range(1, num_targets)` on the section read
      into `data`; `whole` is its outcome. */
  method Backtracking(data: array2<Byte>, sections: int -> Image, z: int, zs: int, numTargets: int,
                      nx: nat, ny: nat, w: Window, ghost whole: (Image, seq<int>)) returns (log: seq<int>)
    requires forall s :: Shaped(sections(s), nx, ny)
    requires data.Length0 == nx && data.Length1 == ny
    requires whole == Backtrack(Contents(data), sections, z, zs, numTargets, nx, ny, w, 1)
    modifies data
    ensures (Contents(data), log) == whole
  {
    log := [];
    ghost var img := Contents(data);
    assert log + whole.1 == whole.1;
    var b := 1;
    while b < numTargets
      invariant 1 <= b
      invariant data.Length0 == nx && data.Length1 == ny
      invariant Contents(data) == img && Shaped(img, nx, ny)
      invariant var rest := Backtrack(img, sections, z, zs, numTargets, nx, ny, w, b);
        whole == (rest.0, log + rest.1)
      decreases numTargets - b
    {
      var stop;
      stop, img := BacktrackOnce(data, sections, z, zs, numTargets, nx, ny, w, b, img, whole, log);
      if stop {
        return;
      }
      log := log + [z - b];
      b := b + 1;
    }
    BacktrackDone(img, sections, z, zs, numTargets, nx, ny, w, b);
    assert log + [] == log;
  }

  /** `get_image_data` after the section is read: for `backtrack` in
      `1 .. num_targets - 1`, stop below `zs` or once nothing is missing,
      otherwise fill the target from section `z - backtrack`. */
  method GetImageData(sections: int -> Image, z: int, zs: int, numTargets: int, shouldBacktrack: bool,
                      nx: nat, ny: nat, w: Window) returns (data: array2<Byte>, log: seq<int>)
    requires forall s :: Shaped(sections(s), nx, ny)
    ensures data.Length0 == nx && data.Length1 == ny
    ensures (Contents(data), log) == ImageData(sections, z, zs, numTargets, shouldBacktrack, nx, ny, w)
  {
    data := Load(sections, z, nx, ny);
    log := [];
    if numTargets > 1 && shouldBacktrack {
      log := Backtracking(data, sections, z, zs, numTargets, nx, ny, w, ImageData(sections, z, zs, numTargets, shouldBacktrack, nx, ny, w));
    }
  }

  lemma BacktrackDone(data: Image, sections: int -> Image, z: int, zs: int, numTargets: int,
                      nx: nat, ny: nat, w: Window, b: nat)
    requires Shaped(data, nx, ny) && forall s :: Shaped(sections(s), nx, ny)
    requires b >= numTargets
    ensures Backtrack(data, sections, z, zs, numTargets, nx, ny, w, b) == (data, [])
  {
  }
}
