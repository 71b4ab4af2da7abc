/** The single-machine aligner (`inference/aligner_single.py`): placing the
    stored mip-8 vector field into a box, the chunk id of a tile, the
    normalisation and crop of `warp_patch`, and the order of work in
    `align_ng_stack`. Fields are 2-D sequences of vectors, indexed `[x][y]`. */
module AlignerSingle {
  import opened Wrappers
  import opened Slices
  import opened Arith
  import opened Helpers
  import opened Aligner

  // get_field_from_h5

  /** The stored field covers mip-8 coordinates `[351, 351 + 1152)` on each
      axis; its cell k is coordinate `351 + k`. */
  const H5Offset := 351
  const H5End := 1152

  /** One axis of the copy: the source window in the stored field and the
      destination slice of a box-sized field, before Python clips them. */
  datatype Plan = Plan(srcLo: int, srcHi: int, dstLo: int, dstHi: int)

  /** The three cases the source distinguishes on each axis. Before Python
      clips them, the two windows always have the same length and destination
      cell i faces stored cell `lo + i - 351`: the failures of the slice
      assignment come from the clipping alone (`AsWrittenCases`). */
  function AsWrittenPlan(r: Extent): (p: Plan)
    ensures p.srcHi - p.srcLo == p.dstHi - p.dstLo
    ensures p.srcLo - p.dstLo == r.lo - H5Offset
  {
    if r.lo < H5Offset then Plan(0, r.hi - H5Offset, H5Offset - r.lo, r.hi - r.lo)
    else if r.hi > H5Offset + H5End then Plan(r.lo - H5Offset, H5End, 0, H5Offset + H5End - r.lo)
    else Plan(r.lo - H5Offset, r.hi - H5Offset, 0, r.hi - r.lo)
  }

  /** The plan clipped as Python slicing clips it: the source window against
      the stored extent, the destination against the box width. */
  function Clipped(p: Plan, width: nat): Plan {
    Plan(Bound(p.srcLo, H5End), Bound(p.srcHi, H5End), Bound(p.dstLo, width), Bound(p.dstHi, width))
  }

  function Len(lo: int, hi: int): nat {
    if lo <= hi then hi - lo else 0
  }

  /** The slice assignment succeeds when the clipped windows agree in length. */
  predicate Fits(p: Plan) {
    Len(p.srcLo, p.srcHi) == Len(p.dstLo, p.dstHi)
  }

  /** Whether the as-written copy of one axis succeeds, for every box. In the
      interior, left-clipped and right-clipped cases of a box that meets the
      stored extent the two windows agree in length, and destination cell i
      receives stored cell `lo + i - 351`: the cell of its own mip-8
      coordinate. A box wholly below the stored extent fits only when Python's
      negative slice bound `hi - 351` reaches past the field's start; one
      wholly above fits only when the destination's negative bound
      `1503 - lo` reaches past the box's start; a box overhanging both ends
      never fits. */
  lemma AsWrittenCases(r: Extent)
    requires r.lo <= r.hi
    ensures var c := Clipped(AsWrittenPlan(r), r.hi - r.lo);
      && (H5Offset <= r.hi && r.lo <= H5Offset + H5End && (r.lo >= H5Offset || r.hi <= H5Offset + H5End) ==>
            && Fits(c)
            && c.srcLo - c.dstLo == r.lo - H5Offset
            && (r.lo < H5Offset ==> c == Plan(0, r.hi - H5Offset, H5Offset - r.lo, r.hi - r.lo))
            && (r.lo >= H5Offset && r.hi > H5Offset + H5End ==> c == Plan(r.lo - H5Offset, H5End, 0, H5Offset + H5End - r.lo))
            && (r.lo >= H5Offset && r.hi <= H5Offset + H5End ==> c == Plan(r.lo - H5Offset, r.hi - H5Offset, 0, r.hi - r.lo)))
      && (r.hi < H5Offset ==> (Fits(c) <==> r.hi <= H5Offset - H5End))
      && (r.lo > H5Offset + H5End ==> (Fits(c) <==> r.hi <= 2 * r.lo - (H5Offset + H5End)))
      && (r.lo < H5Offset && r.hi > H5Offset + H5End ==> !Fits(c))
  {
  }

  /** A box that overhangs the stored field on both sides of an axis: the
      source window is clipped to the 1152 stored cells while the destination
      slice is wider, so the slice assignment fails. */
  lemma AsWrittenOverhang()
    ensures var r := Extent(300, 1600);
      !Fits(Clipped(AsWrittenPlan(r), r.hi - r.lo))
  {
    var c := Clipped(AsWrittenPlan(Extent(300, 1600)), 1300);
    assert c == Plan(0, 1152, 51, 1300);
  }

  /** Boxes wholly outside the stored extent: above it, `[1600, 1700)` copies
      no stored cell into a 3-cell destination `[0:-97]`; below it,
      `[100, 200)` copies 1001 stored cells `[0:-151]` into an empty
      destination. Both slice assignments fail. */
  lemma AsWrittenOutside()
    ensures Clipped(AsWrittenPlan(Extent(1600, 1700)), 100) == Plan(1152, 1152, 0, 3)
    ensures Clipped(AsWrittenPlan(Extent(100, 200)), 100) == Plan(0, 1001, 100, 100)
    ensures !Fits(Clipped(AsWrittenPlan(Extent(1600, 1700)), 100))
    ensures !Fits(Clipped(AsWrittenPlan(Extent(100, 200)), 100))
  {
  }

  /** The plan clipped on both sides at once: the source window lies in the
      stored extent and the destination in the box, and the two face each
      other cell by cell. */
  function CorrectedPlan(r: Extent): (p: Plan)
    ensures 0 <= p.srcLo && p.srcHi <= H5End
    ensures 0 <= p.dstLo && p.dstHi <= r.hi - r.lo
    ensures p.srcHi - p.srcLo == p.dstHi - p.dstLo
    ensures p.srcLo - p.dstLo == r.lo - H5Offset
  {
    var lo := if r.lo < H5Offset then H5Offset else r.lo;
    var hi := if r.hi > H5Offset + H5End then H5Offset + H5End else r.hi;
    Plan(lo - H5Offset, hi - H5Offset, lo - r.lo, hi - r.lo)
  }

  /** For every box, destination cell i lies in the corrected slice exactly
      when its mip-8 coordinate is stored; the windows agree in length, and
      cell i receives stored cell `lo + i - 351`. For a box that meets the
      stored extent Python's clipping leaves the plan alone, and on the cases
      where the source's copy succeeds the corrected plan is the source's. */
  lemma CorrectedPlanSound(r: Extent, i: int)
    requires r.lo <= r.hi
    ensures var p := CorrectedPlan(r);
      && Fits(p)
      && p.srcLo - p.dstLo == r.lo - H5Offset
      && (p.dstLo <= i < p.dstHi <==> 0 <= i < r.hi - r.lo && H5Offset <= r.lo + i < H5Offset + H5End)
      && (H5Offset <= r.hi && r.lo <= H5Offset + H5End ==> Clipped(p, r.hi - r.lo) == p)
      && (H5Offset <= r.hi && r.lo <= H5Offset + H5End && (r.lo >= H5Offset || r.hi <= H5Offset + H5End) ==>
            p == Clipped(AsWrittenPlan(r), r.hi - r.lo))
  {
  }

  /** A vector of the field; the zero vector outside the stored extent. */
  const Zero := Vec(0.0, 0.0)

  /** Cell `[i, j]` of the field `get_field_from_h5` fills before upsampling:
      the stored vector of its mip-8 coordinate where there is one, zero
      elsewhere. */
  function FieldCell(plane: seq<seq<Vec>>, x: Extent, y: Extent, i: int, j: int): Vec
    requires |plane| == H5End && forall k :: 0 <= k < H5End ==> |plane[k]| == H5End
  {
    var a, b := x.lo + i - H5Offset, y.lo + j - H5Offset;
    if 0 <= a < H5End && 0 <= b < H5End then plane[a][b] else Zero
  }

  /** `get_field_from_h5` up to the upsampling: a zero field the size of the
      box, with the stored window copied into the corrected destination slice
      (see `CorrectedPlanSound`). */
  method FieldFromH5(plane: seq<seq<Vec>>, x: Extent, y: Extent) returns (field: array2<Vec>)
    requires |plane| == H5End && forall k :: 0 <= k < H5End ==> |plane[k]| == H5End
    requires x.lo <= x.hi && y.lo <= y.hi
    ensures fresh(field) && field.Length0 == x.hi - x.lo && field.Length1 == y.hi - y.lo
    ensures forall i, j :: 0 <= i < field.Length0 && 0 <= j < field.Length1 ==> field[i, j] == FieldCell(plane, x, y, i, j)
  {
    var px, py := CorrectedPlan(x), CorrectedPlan(y);
    field := new Vec[x.hi - x.lo, y.hi - y.lo]((i, j) => Zero);
    var i := 0;
    while i < field.Length0
      invariant 0 <= i <= field.Length0
      invariant forall a, b :: 0 <= a < i && 0 <= b < field.Length1 ==> field[a, b] == FieldCell(plane, x, y, a, b)
      invariant forall a, b :: i <= a < field.Length0 && 0 <= b < field.Length1 ==> field[a, b] == Zero
    {
      var j := 0;
      while j < field.Length1
        invariant 0 <= j <= field.Length1
        invariant forall a, b :: 0 <= a < i && 0 <= b < field.Length1 ==> field[a, b] == FieldCell(plane, x, y, a, b)
        invariant forall b :: 0 <= b < j ==> field[i, b] == FieldCell(plane, x, y, i, b)
        invariant forall a, b :: 0 <= a < field.Length0 && 0 <= b < field.Length1 && (a > i || (a == i && b >= j)) ==>
          field[a, b] == Zero
      {
        if px.dstLo <= i < px.dstHi && py.dstLo <= j < py.dstHi {
          field[i, j] := plane[px.srcLo + i - px.dstLo][py.srcLo + j - py.dstLo];
        }
        j := j + 1;
      }
      i := i + 1;
    }
  }

  /** `mip_field * 2 ** (8 - render_low_mip)` at one vector, for a render
      mip at or below 8; the bilinear upsampling by the same factor is
      `UpsampleBy(8 - render_low_mip)`. */
  function ToRenderMip(v: Vec, renderLowMip: nat): (r: Vec)
    requires renderLowMip <= 8
    ensures r.c0 / Pow2(8 - renderLowMip) as real == v.c0 && r.c1 / Pow2(8 - renderLowMip) as real == v.c1
    ensures renderLowMip == 8 ==> r == v
  {
    var f := Pow2(8 - renderLowMip) as real;
    Vec(v.c0 * f, v.c1 * f)
  }

  // get_bbox_id

  datatype IdError = ZeroDivisionError

  /** `get_bbox_id`: tiles are numbered row by row over the total box,
      aligned down to the storage grid, each row holding
      `(aligned_width + tile_w - 1) // tile_w` tiles. An empty tile divides
      by zero. */
  function BBoxId(totalX: Extent, totalY: Extent, chunk: (int, int), offset: (int, int), inX: Extent, inY: Extent): (r: Result<int, IdError>)
    requires chunk.0 > 0 && chunk.1 > 0
    requires inX.lo <= inX.hi && inY.lo <= inY.hi
    ensures r.Err? <==> inX.lo == inX.hi || inY.lo == inY.hi
  {
    var alignX, alignY := AlignDown(totalX.lo, offset.0, chunk.0), AlignDown(totalY.lo, offset.1, chunk.1);
    var alignedWidth := totalX.hi - alignX;
    var w, h := inX.hi - inX.lo, inY.hi - inY.lo;
    if w == 0 || h == 0 then Err(IdError.ZeroDivisionError)
    else
      var perRow := (alignedWidth + w - 1) / w;
      Ok(((inY.lo - alignY) / h) * perRow + (inX.lo - alignX) / w)
  }

  /** `(a + w - 1) // w` is the ceiling of `a / w`. */
  lemma PerRowIsCeil(a: int, w: int)
    requires w > 0
    ensures (a + w - 1) / w == CeilDiv(a, w)
  {
    var q := (a + w - 1) / w;
    assert a + w - 1 == q * w + (a + w - 1) % w;
    assert (q - 1) * w == q * w - w;
    CeilDivUnique(a, w, q);
  }

  /** A tile in row `row` and column `col` of the lattice, `0 <= col <
      ceil(aligned_width / tile_w)`, gets id `row * per_row + col`. */
  lemma LatticeId(totalX: Extent, totalY: Extent, chunk: (int, int), offset: (int, int),
                  w: int, h: int, row: int, col: int)
    requires chunk.0 > 0 && chunk.1 > 0 && w > 0 && h > 0
    ensures var alignX, alignY := AlignDown(totalX.lo, offset.0, chunk.0), AlignDown(totalY.lo, offset.1, chunk.1);
      var inX, inY := Extent(alignX + col * w, alignX + col * w + w), Extent(alignY + row * h, alignY + row * h + h);
      BBoxId(totalX, totalY, chunk, offset, inX, inY) == Ok(row * CeilDiv(totalX.hi - alignX, w) + col)
  {
    var alignX, alignY := AlignDown(totalX.lo, offset.0, chunk.0), AlignDown(totalY.lo, offset.1, chunk.1);
    PerRowIsCeil(totalX.hi - alignX, w);
    DivModUnique(col * w, w, col, 0);
    DivModUnique(row * h, h, row, 0);
    var inX, inY := Extent(alignX + col * w, alignX + col * w + w), Extent(alignY + row * h, alignY + row * h + h);
    assert inX.hi - inX.lo == w && inY.hi - inY.lo == h;
    assert inX.lo - alignX == col * w;
    assert inY.lo - alignY == row * h;
  }

  /** Distinct lattice tiles get distinct ids. */
  lemma LatticeIdsDistinct(perRow: int, row1: int, col1: int, row2: int, col2: int)
    requires 0 <= col1 < perRow && 0 <= col2 < perRow
    requires row1 * perRow + col1 == row2 * perRow + col2
    ensures row1 == row2 && col1 == col2
  {
    var id := row1 * perRow + col1;
    DivModUnique(id, perRow, row1, col1);
    DivModUnique(id, perRow, row2, col2);
  }

  // warp_patch

  /** `int(max_displacement / 2 ** mip)`: the crop on each side at this mip,
      the displacement in whole pixels at this mip, rounded down. */
  function MipDisp(maxDisplacement: nat, mip: nat): (r: nat)
    ensures r * Pow2(mip) <= maxDisplacement < (r + 1) * Pow2(mip)
  {
    FloorDiv(maxDisplacement, Pow2(mip))
  }

  function FloorDiv(a: nat, p: int): (r: nat)
    requires p > 0
    ensures r * p <= a < (r + 1) * p
  {
    DivBounds(a, p);
    a / p
  }

  /** `2 * agg_flow / width`: displacements in pixels to the `[-1, 1]`
      convention of the sampler. */
  function ScaleFlow(flow: seq<seq<Vec>>, width: int): (r: seq<seq<Vec>>)
    requires width != 0
    ensures |r| == |flow|
    ensures forall i :: 0 <= i < |flow| ==> |r[i]| == |flow[i]|
    ensures forall i, j :: 0 <= i < |flow| && 0 <= j < |flow[i]| ==>
      r[i][j] == Vec(2.0 * flow[i][j].c0 / width as real, 2.0 * flow[i][j].c1 / width as real)
  {
    seq(|flow|, i requires 0 <= i < |flow| =>
      seq(|flow[i]|, j requires 0 <= j < |flow[i]| =>
        Vec(2.0 * flow[i][j].c0 / width as real, 2.0 * flow[i][j].c1 / width as real)))
  }

  /** Every component of the field, row by row. */
  function Entries(flow: seq<seq<Vec>>): seq<real> {
    if flow == [] then [] else RowEntries(flow[0]) + Entries(flow[1..])
  }

  function RowEntries(row: seq<Vec>): seq<real> {
    if row == [] then [] else [row[0].c0, row[0].c1] + RowEntries(row[1..])
  }

  ghost predicate AllZero(flow: seq<seq<Vec>>) {
    forall i, j :: 0 <= i < |flow| && 0 <= j < |flow[i]| ==> flow[i][j] == Zero
  }

  lemma {:induction false} RowEntriesZero(row: seq<Vec>)
    ensures (forall k :: 0 <= k < |RowEntries(row)| ==> RowEntries(row)[k] == 0.0) <==>
      (forall j :: 0 <= j < |row| ==> row[j] == Zero)
    ensures |RowEntries(row)| == 2 * |row|
  {
    if row != [] {
      var rest := RowEntries(row[1..]);
      RowEntriesZero(row[1..]);
      assert RowEntries(row) == [row[0].c0, row[0].c1] + rest;
      if forall j :: 0 <= j < |row| ==> row[j] == Zero {
        assert forall j :: 0 <= j < |row[1..]| ==> row[1..][j] == row[j + 1];
      }
      if forall k :: 0 <= k < |RowEntries(row)| ==> RowEntries(row)[k] == 0.0 {
        assert forall k :: 0 <= k < |rest| ==> rest[k] == RowEntries(row)[k + 2];
        forall j | 0 <= j < |row| ensures row[j] == Zero {
          if j > 0 {
            assert row[j] == row[1..][j - 1];
          } else {
            assert RowEntries(row)[0] == row[0].c0 && RowEntries(row)[1] == row[0].c1;
          }
        }
      }
    }
  }

  /** The components are all zero exactly when every vector is. */
  lemma {:induction false} EntriesZero(flow: seq<seq<Vec>>)
    ensures (forall k :: 0 <= k < |Entries(flow)| ==> Entries(flow)[k] == 0.0) <==> AllZero(flow)
  {
    if flow != [] {
      var head, rest := RowEntries(flow[0]), Entries(flow[1..]);
      RowEntriesZero(flow[0]);
      EntriesZero(flow[1..]);
      var e := Entries(flow);
      assert e == head + rest;
      if AllZero(flow) {
        assert forall i, j :: 0 <= i < |flow[1..]| && 0 <= j < |flow[1..][i]| ==> flow[1..][i][j] == flow[i + 1][j];
        assert forall k :: 0 <= k < |e| ==> e[k] == if k < |head| then head[k] else rest[k - |head|];
      }
      if forall k :: 0 <= k < |e| ==> e[k] == 0.0 {
        assert forall k :: 0 <= k < |head| ==> head[k] == e[k];
        assert forall k :: 0 <= k < |rest| ==> rest[k] == e[k + |head|];
        forall i, j | 0 <= i < |flow| && 0 <= j < |flow[i]| ensures flow[i][j] == Zero {
          if i > 0 {
            assert flow[i] == flow[1..][i - 1];
          }
        }
      }
    }
  }

  function SeqMin(s: seq<real>): (r: real)
    requires s != []
    ensures r in s && forall k :: 0 <= k < |s| ==> r <= s[k]
  {
    if |s| == 1 then s[0]
    else
      var m := SeqMin(s[1..]);
      assert forall k :: 1 <= k < |s| ==> s[k] == s[1..][k - 1];
      if s[0] <= m then s[0] else m
  }

  function SeqMax(s: seq<real>): (r: real)
    requires s != []
    ensures r in s && forall k :: 0 <= k < |s| ==> s[k] <= r
  {
    if |s| == 1 then s[0]
    else
      var m := SeqMax(s[1..]);
      assert forall k :: 1 <= k < |s| ==> s[k] == s[1..][k - 1];
      if s[0] >= m then s[0] else m
  }

  /** `torch.min(f) != 0 or torch.max(f) != 0`: the test for a flow that
      moves anything. */
  function Moves(e: seq<real>): bool
    requires e != []
  {
    SeqMin(e) != 0.0 || SeqMax(e) != 0.0
  }

  /** The min-max test holds exactly when some component is non-zero. */
  lemma MovesIffNonZero(e: seq<real>)
    requires e != []
    ensures Moves(e) <==> exists k :: 0 <= k < |e| && e[k] != 0.0
  {
    var lo, hi := SeqMin(e), SeqMax(e);
    if exists k :: 0 <= k < |e| && e[k] != 0.0 {
      var k :| 0 <= k < |e| && e[k] != 0.0;
      assert lo <= e[k] <= hi;
    }
  }

  /** Scaling by `2 / width` neither creates nor removes motion. */
  lemma ScaleKeepsZero(flow: seq<seq<Vec>>, width: int)
    requires width != 0
    ensures AllZero(ScaleFlow(flow, width)) <==> AllZero(flow)
  {
    var r := ScaleFlow(flow, width);
    var w := width as real;
    if AllZero(r) {
      forall i, j | 0 <= i < |flow| && 0 <= j < |flow[i]| ensures flow[i][j] == Zero {
        assert r[i][j] == Zero;
        ZeroQuotient(flow[i][j].c0, w);
        ZeroQuotient(flow[i][j].c1, w);
      }
    }
  }

  lemma ZeroQuotient(x: real, w: real)
    requires w != 0.0
    ensures 2.0 * x / w == 0.0 <==> x == 0.0
  {
    if 2.0 * x / w == 0.0 {
      assert 2.0 * x == 2.0 * x / w * w;
    }
  }

  /** `image[c:-c, c:-c]` with `c = mip_disp`, as written. */
  function WarpCropAsWritten(image: seq<seq<real>>, c: int): seq<seq<real>> {
    Crop(image, c)
  }

  /** When the displacement is under one pixel at this mip, `mip_disp` is 0
      and the slices `[0:-0]` keep nothing: `warp_patch` returns an empty
      patch. */
  lemma WarpCropEmpty(image: seq<seq<real>>, maxDisplacement: nat, mip: nat)
    requires Rectangular2(image) && maxDisplacement < Pow2(mip)
    ensures WarpCropAsWritten(image, MipDisp(maxDisplacement, mip)) == []
  {
    var c := MipDisp(maxDisplacement, mip);
    if c >= 1 {
      MulMonotone(1, c, Pow2(mip));
    }
    CropWindow(image, c);
  }

  /** `image[c:len-c, c:len-c]`: c cells off each side, none for c == 0. */
  function WarpCrop(image: seq<seq<real>>, c: nat): (r: seq<seq<real>>)
    requires Rectangular2(image) && 2 * c <= |image| && (image != [] ==> 2 * c <= |image[0]|)
    ensures |r| == |image| - 2 * c
    ensures forall i :: 0 <= i < |r| ==> r[i] == image[i + c][c..|image[i + c]| - c]
  {
    seq(|image| - 2 * c, i requires 0 <= i < |image| - 2 * c => image[i + c][c..|image[i + c]| - c])
  }

  /** The corrected crop keeps the whole patch for c == 0 and agrees with the
      source's crop for every c >= 1. */
  lemma WarpCropAgrees(image: seq<seq<real>>, c: nat)
    requires Rectangular2(image) && 2 * c <= |image| && (image != [] ==> 2 * c <= |image[0]|)
    ensures c == 0 ==> WarpCrop(image, c) == image
    ensures c >= 1 ==> WarpCrop(image, c) == WarpCropAsWritten(image, c)
  {
    CropWindow(image, c);
    if c == 0 {
      assert forall i :: 0 <= i < |image| ==> image[i][0..|image[i]|] == image[i];
    }
  }

  /** The sampler returns an image of its input's shape. */
  ghost predicate SameShape(out: seq<seq<real>>, im: seq<seq<real>>) {
    Rectangular2(out) && |out| == |im| && (im != [] ==> out != [] && |out[0]| == |im[0]|)
  }

  /** `warp_patch` on a loaded image and flow (the stored field of the
      influence box): the flow scaled by `2 / width`, the image resampled
      only when the flow moves something, and the displacement margin cut
      off each side. */
  function WarpPatch(image: seq<seq<real>>, flow: seq<seq<Vec>>, maxDisplacement: nat, mip: nat,
                     resample: (seq<seq<real>>, seq<seq<Vec>>) -> seq<seq<real>>): (r: seq<seq<real>>)
    requires image != [] && |image[0]| > 0 && Entries(flow) != []
    requires forall im, f :: SameShape(resample(im, f), im)
    requires Rectangular2(image) && 2 * MipDisp(maxDisplacement, mip) <= |image| && 2 * MipDisp(maxDisplacement, mip) <= |image[0]|
    ensures |r| == |image| - 2 * MipDisp(maxDisplacement, mip)
    ensures forall i :: 0 <= i < |r| ==> |r[i]| == |image[0]| - 2 * MipDisp(maxDisplacement, mip)
  {
    var scaled := ScaleFlow(flow, |image[0]|);
    EntriesNonEmpty(flow, |image[0]|);
    var warped := if Moves(Entries(scaled)) then resample(image, scaled) else image;
    assert SameShape(resample(image, scaled), image);
    assert |warped| == |image| && |warped[0]| == |image[0]| && Rectangular2(warped);
    WarpCrop(warped, MipDisp(maxDisplacement, mip))
  }

  lemma EntriesNonEmpty(flow: seq<seq<Vec>>, width: int)
    requires width != 0 && Entries(flow) != []
    ensures Entries(ScaleFlow(flow, width)) != []
  {
    var r := ScaleFlow(flow, width);
    EntriesZero(flow);
    EntriesZero(r);
    EntriesLength(flow);
    EntriesLength(r);
  }

  lemma {:induction false} EntriesLength(flow: seq<seq<Vec>>)
    ensures Entries(flow) == [] <==> forall i :: 0 <= i < |flow| ==> flow[i] == []
  {
    if flow != [] {
      RowEntriesZero(flow[0]);
      EntriesLength(flow[1..]);
      assert forall i :: 1 <= i < |flow| ==> flow[i] == flow[1..][i - 1];
    }
  }

  /** A flow that moves nothing leaves the image unresampled; one that moves
      something resamples it with the scaled flow. */
  lemma WarpPatchSkips(image: seq<seq<real>>, flow: seq<seq<Vec>>, maxDisplacement: nat, mip: nat,
                       resample: (seq<seq<real>>, seq<seq<Vec>>) -> seq<seq<real>>)
    requires image != [] && |image[0]| > 0 && Entries(flow) != []
    requires forall im, f :: SameShape(resample(im, f), im)
    requires Rectangular2(image) && 2 * MipDisp(maxDisplacement, mip) <= |image| && 2 * MipDisp(maxDisplacement, mip) <= |image[0]|
    ensures var c := MipDisp(maxDisplacement, mip);
      && (AllZero(flow) ==> WarpPatch(image, flow, maxDisplacement, mip, resample) == WarpCrop(image, c))
      && (!AllZero(flow) ==> WarpPatch(image, flow, maxDisplacement, mip, resample) ==
                              WarpCrop(resample(image, ScaleFlow(flow, |image[0]|)), c))
  {
    var scaled := ScaleFlow(flow, |image[0]|);
    EntriesNonEmpty(flow, |image[0]|);
    ScaleKeepsZero(flow, |image[0]|);
    EntriesZero(scaled);
    MovesIffNonZero(Entries(scaled));
  }

  // align_ng_stack

  /** The work `align_ng_stack` does, in order. */
  datatype Step = CopySection(z: int, mip: int) | RenderAllMips(z: int, startZ: int)

  datatype StackError = NotAllParamsSet

  /** `copy_section(src, dst, start_section, bbox, mip=m)` for m from
      `render_low_mip` to `high_mip`. */
  function Copies(start: int, lowMip: int, highMip: int): (r: seq<Step>)
    ensures |r| == Len(lowMip, highMip + 1)
    ensures forall n :: 0 <= n < |r| ==> r[n] == CopySection(start, lowMip + n)
  {
    seq(Len(lowMip, highMip + 1), n => CopySection(start, lowMip + n))
  }

  /** `render_section_all_mips(z - 1, bbox, start_section - 1)` for z from
      the start section down to `end_section + 1`. */
  function Renders(start: int, end: int): (r: seq<Step>)
    ensures |r| == Len(end, start)
    ensures forall n :: 0 <= n < |r| ==> r[n] == RenderAllMips(start - 1 - n, start - 1)
  {
    seq(Len(end, start), n => RenderAllMips(start - 1 - n, start - 1))
  }

  /** `align_ng_stack`: an exception without every parameter set; otherwise
      the anchor copies (with `move_anchor`) and then one render per section
      from `start_section - 1` down to `end_section`. */
  method AlignNgStack(paramsSet: bool, start: int, end: int, lowMip: int, highMip: int, moveAnchor: bool)
    returns (r: Result<seq<Step>, StackError>)
    ensures !paramsSet <==> r == Err(NotAllParamsSet)
    ensures paramsSet ==> r == Ok((if moveAnchor then Copies(start, lowMip, highMip) else []) + Renders(start, end))
  {
    if !paramsSet {
      return Err(NotAllParamsSet);
    }
    var steps: seq<Step> := [];
    if moveAnchor {
      var m := lowMip;
      while m < highMip + 1
        invariant lowMip <= m && (m == lowMip || m <= highMip + 1)
        invariant steps == Copies(start, lowMip, m - 1)
      {
        steps := steps + [CopySection(start, m)];
        m := m + 1;
      }
      if m != highMip + 1 {
        assert |steps| == 0 == |Copies(start, lowMip, highMip)|;
      }
    }
    ghost var copies := steps;
    var z := start;
    while z > end
      invariant z <= start && (z == start || end <= z)
      invariant steps == copies + Renders(start, z)
    {
      steps := steps + [RenderAllMips(z - 1, start - 1)];
      z := z - 1;
    }
    if z != end {
      assert |Renders(start, z)| == 0 == |Renders(start, end)|;
    }
    return Ok(steps);
  }

  /** Every section from `end_section` to `start_section - 1` is rendered
      exactly once, in descending order, against the start section. */
  lemma RenderOrder(start: int, end: int, z: int)
    ensures var r := Renders(start, end);
      && (exists n :: 0 <= n < |r| && r[n].z == z) <==> end <= z < start
    ensures var r := Renders(start, end);
      forall n, m :: 0 <= n < m < |r| ==> r[n].z > r[m].z
  {
    var r := Renders(start, end);
    if end <= z < start {
      assert r[start - 1 - z].z == z;
    }
  }
}
