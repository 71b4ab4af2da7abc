/** Planning in `inference/new_align_blocks.py`, the serial variant of block
    alignment: the blocks start every `block_size` sections, alternate between
    an even and an odd destination, and may be restricted to the blocks that
    overlap the z pairs of a CSV file. Per-section bounding boxes and models
    come from a second CSV. */
module NewAlignBlocks {
  import opened Wrappers
  import opened Slices
  import opened Lookup
  import opened Boxes

  // ---------------------------------------------------------------------------
  // Interval overlap

  /** `ranges_overlap(a_pair, b_pair)`, written as its three disjuncts. For
      well-formed pairs it is the intersection test of two closed intervals. */
  predicate RangesOverlap(a: (int, int), b: (int, int))
    ensures a.0 <= a.1 && b.0 <= b.1 ==> (RangesOverlap(a, b) <==> b.0 <= a.1 && a.0 <= b.1)
  {
    || (b.0 <= a.0 && b.1 >= a.0)
    || (b.0 >= a.0 && b.1 <= a.1)
    || (b.0 <= a.1 && b.1 >= a.1)
  }

  lemma RangesOverlapSymmetric(a: (int, int), b: (int, int))
    requires a.0 <= a.1 && b.0 <= b.1
    ensures RangesOverlap(a, b) <==> RangesOverlap(b, a)
  {
  }

  // ---------------------------------------------------------------------------
  // Block range and its even/odd tags

  /** `range(z_start, z_stop, block_size)`: the block starts. */
  function BlockRange(zStart: int, zStop: int, blockSize: int): seq<int>
    requires blockSize >= 1
  {
    StepRange(zStart, zStop, blockSize)
  }

  /** `[i % 2 for i in range(n)]`. */
  function EvenOdd(n: nat): (r: seq<int>)
    ensures |r| == n
    ensures forall i :: 0 <= i < n ==> r[i] == i % 2
  {
    seq(n, i => i % 2)
  }

  /** `list(zip(xs[:-1], xs[1:]))`: each element paired with its successor. */
  function Successive(xs: seq<int>): (r: seq<(int, int)>)
    ensures |r| == if xs == [] then 0 else |xs| - 1
    ensures forall k :: 0 <= k < |r| ==> r[k] == (xs[k], xs[k + 1])
  {
    if xs == [] then [] else seq(|xs| - 1, k requires 0 <= k < |xs| - 1 => (xs[k], xs[k + 1]))
  }

  /** `block_pairs`: the consecutive points of
      `range(z_start, z_stop + block_size, block_size)`. */
  function BlockPairs(zStart: int, zStop: int, blockSize: int): seq<(int, int)>
    requires blockSize >= 1
  {
    Successive(StepRange(zStart, zStop + blockSize, blockSize))
  }

  lemma StepRangeCons(lo: int, hi: int, step: int)
    requires step >= 1 && lo < hi
    ensures StepRange(lo, hi, step) == [lo] + StepRange(lo + step, hi, step)
  {
  }

  /** The end points run one block further than the block starts ... */
  lemma {:induction false} EndLength(lo: int, hi: int, step: int)
    requires step >= 1
    ensures var e, b := StepRange(lo, hi + step, step), StepRange(lo, hi, step);
      if lo < hi then |e| == |b| + 1 else |e| <= 1
    decreases hi - lo
  {
    if lo < hi {
      StepRangeCons(lo, hi + step, step);
      StepRangeCons(lo, hi, step);
      EndLength(lo + step, hi, step);
      if lo + step >= hi {
        assert StepRange(lo + step, hi + step, step) != [];
      }
    }
  }

  /** ... and agree with them on the common prefix. */
  lemma {:induction false} EndPrefix(lo: int, hi: int, step: int, k: int)
    requires step >= 1
    requires 0 <= k < |StepRange(lo, hi, step)|
    ensures k < |StepRange(lo, hi + step, step)| && StepRange(lo, hi + step, step)[k] == StepRange(lo, hi, step)[k]
    decreases k
  {
    StepRangeCons(lo, hi + step, step);
    StepRangeCons(lo, hi, step);
    if k > 0 {
      EndPrefix(lo + step, hi, step, k - 1);
    }
  }

  lemma EndPointCount(zStart: int, zStop: int, blockSize: int)
    requires blockSize >= 1
    ensures |Successive(StepRange(zStart, zStop + blockSize, blockSize))| == |StepRange(zStart, zStop, blockSize)|
  {
    EndLength(zStart, zStop, blockSize);
  }

  lemma EndPointStep(zStart: int, zStop: int, blockSize: int, k: int)
    requires blockSize >= 1
    requires 0 <= k < |StepRange(zStart, zStop, blockSize)|
    ensures var e, br := StepRange(zStart, zStop + blockSize, blockSize), StepRange(zStart, zStop, blockSize);
      k < |Successive(e)| && Successive(e)[k] == (br[k], br[k] + blockSize)
  {
    var e, br := StepRange(zStart, zStop + blockSize, blockSize), StepRange(zStart, zStop, blockSize);
    EndLength(zStart, zStop, blockSize);
    EndPrefix(zStart, zStop, blockSize, k);
    StepRangeShape(zStart, zStop + blockSize, blockSize);
    assert e[k + 1] == e[k] + blockSize;
  }

  /** There is one pair per block, and pair k is
      `(block_range[k], block_range[k] + block_size)`. */
  lemma {:induction false} BlockPairsShape(zStart: int, zStop: int, blockSize: int, k: int)
    requires blockSize >= 1
    ensures var br, pairs := BlockRange(zStart, zStop, blockSize), BlockPairs(zStart, zStop, blockSize);
      && |pairs| == |br|
      && (0 <= k < |br| ==> pairs[k] == (br[k], br[k] + blockSize))
  {
    EndPointCount(zStart, zStop, blockSize);
    if 0 <= k < |BlockRange(zStart, zStop, blockSize)| {
      EndPointStep(zStart, zStop, blockSize, k);
    }
  }

  /** `itertools.compress(xs, flags)`: the elements whose flag is set, in
      order, stopping at the shorter input. */
  function Compress<T>(xs: seq<T>, flags: seq<bool>): (r: seq<T>)
    ensures |r| <= |xs|
  {
    if xs == [] || flags == [] then []
    else (if flags[0] then [xs[0]] else []) + Compress(xs[1..], flags[1..])
  }

  /** Compressing two equally long lists with the same flags keeps the same
      positions of both: each kept pair of elements comes from one flagged
      position k, and every flagged position is kept. */
  lemma {:induction false} CompressTogether<T, U>(xs: seq<T>, ys: seq<U>, flags: seq<bool>, n: int)
    requires |xs| == |ys| == |flags|
    ensures |Compress(xs, flags)| == |Compress(ys, flags)|
    ensures 0 <= n < |Compress(xs, flags)| ==>
      exists k :: 0 <= k < |xs| && flags[k] && Compress(xs, flags)[n] == xs[k] && Compress(ys, flags)[n] == ys[k]
  {
    if xs != [] {
      var h := if flags[0] then 1 else 0;
      CompressTogether(xs[1..], ys[1..], flags[1..], n - h);
      if 0 <= n < |Compress(xs, flags)| && !(flags[0] && n == 0) {
        var k :| 0 <= k < |xs[1..]| && flags[1..][k] && Compress(xs[1..], flags[1..])[n - h] == xs[1..][k]
          && Compress(ys[1..], flags[1..])[n - h] == ys[1..][k];
        assert flags[k + 1] && xs[k + 1] == xs[1..][k] && ys[k + 1] == ys[1..][k];
      }
    }
  }

  /** Every flagged position of xs is kept by `compress`. */
  lemma {:induction false} CompressKeeps<T>(xs: seq<T>, flags: seq<bool>, k: int)
    requires |xs| == |flags| && 0 <= k < |xs| && flags[k]
    ensures xs[k] in Compress(xs, flags)
  {
    if k > 0 {
      CompressKeeps(xs[1..], flags[1..], k - 1);
    }
  }

  /** `[ranges_overlap(z_pair, b_pair) for b_pair in block_pairs]`. */
  function BlockFilter(zPair: (int, int), pairs: seq<(int, int)>): (r: seq<bool>)
    ensures |r| == |pairs|
    ensures forall k :: 0 <= k < |pairs| ==> r[k] == RangesOverlap(zPair, pairs[k])
  {
    seq(|pairs|, k requires 0 <= k < |pairs| => RangesOverlap(zPair, pairs[k]))
  }

  /** `tmp_block_range` (or `tmp_even_odd_range` when xs is the tag list)
      after the rows of the z-range CSV: each row extends it by the elements
      of xs at the blocks the row overlaps. */
  function Affected<T>(rows: seq<(int, int)>, xs: seq<T>, pairs: seq<(int, int)>): seq<T> {
    if rows == [] then []
    else Affected(rows[..|rows| - 1], xs, pairs) + Compress(xs, BlockFilter(rows[|rows| - 1], pairs))
  }

  /** The rows are used in file order: the blocks of the first rows come
      before those of the later ones. */
  lemma {:induction false} AffectedRowOrder<T>(rows1: seq<(int, int)>, rows2: seq<(int, int)>, xs: seq<T>, pairs: seq<(int, int)>)
    ensures Affected(rows1 + rows2, xs, pairs) == Affected(rows1, xs, pairs) + Affected(rows2, xs, pairs)
    decreases |rows2|
  {
    if rows2 == [] {
      assert rows1 + rows2 == rows1;
    } else {
      var all := rows1 + rows2;
      assert all[..|all| - 1] == rows1 + rows2[..|rows2| - 1];
      assert all[|all| - 1] == rows2[|rows2| - 1];
      AffectedRowOrder(rows1, rows2[..|rows2| - 1], xs, pairs);
    }
  }

  /** The kept blocks and their tags: each kept block is block k of
      `block_range` for some k overlapped by some row, its tag is `k % 2`, and
      the block and tag lists stay equally long. */
  lemma {:induction false} AffectedSound(rows: seq<(int, int)>, zStart: int, zStop: int, blockSize: int, n: int)
    requires blockSize >= 1
    ensures var br, pairs := BlockRange(zStart, zStop, blockSize), BlockPairs(zStart, zStop, blockSize);
      var blocks, tags := Affected(rows, br, pairs), Affected(rows, EvenOdd(|br|), pairs);
      && |blocks| == |tags|
      && (0 <= n < |blocks| ==>
        exists r, k :: 0 <= r < |rows| && 0 <= k < |br| && blocks[n] == br[k] && tags[n] == k % 2
          && RangesOverlap(rows[r], (br[k], br[k] + blockSize)))
    decreases |rows|
  {
    BlockPairsShape(zStart, zStop, blockSize, 0);
    var br, pairs := BlockRange(zStart, zStop, blockSize), BlockPairs(zStart, zStop, blockSize);
    var eo := EvenOdd(|br|);
    if rows != [] {
      var init, last := rows[..|rows| - 1], rows[|rows| - 1];
      var flags := BlockFilter(last, pairs);
      var b0, t0 := Affected(init, br, pairs), Affected(init, eo, pairs);
      AffectedSound(init, zStart, zStop, blockSize, n);
      CompressTogether(br, eo, flags, n - |b0|);
      var blocks, tags := Affected(rows, br, pairs), Affected(rows, eo, pairs);
      assert blocks == b0 + Compress(br, flags) && tags == t0 + Compress(eo, flags);
      if 0 <= n < |b0| {
        var r, k :| 0 <= r < |init| && 0 <= k < |br| && b0[n] == br[k] && t0[n] == k % 2
          && RangesOverlap(init[r], (br[k], br[k] + blockSize));
        assert rows[r] == init[r];
        assert blocks[n] == br[k] && tags[n] == k % 2;
      } else if |b0| <= n < |blocks| {
        var k :| 0 <= k < |br| && flags[k] && Compress(br, flags)[n - |b0|] == br[k]
          && Compress(eo, flags)[n - |b0|] == eo[k];
        BlockPairsShape(zStart, zStop, blockSize, k);
        assert rows[|rows| - 1] == last;
        assert blocks[n] == br[k] && tags[n] == k % 2;
      }
    }
  }

  /** Every block overlapped by some row is kept. */
  lemma {:induction false} AffectedComplete(rows: seq<(int, int)>, zStart: int, zStop: int, blockSize: int, r: int, k: int)
    requires blockSize >= 1
    requires 0 <= r < |rows| && 0 <= k < |BlockRange(zStart, zStop, blockSize)|
    requires var br := BlockRange(zStart, zStop, blockSize); RangesOverlap(rows[r], (br[k], br[k] + blockSize))
    ensures var br := BlockRange(zStart, zStop, blockSize);
      br[k] in Affected(rows, br, BlockPairs(zStart, zStop, blockSize))
    decreases |rows|
  {
    BlockPairsShape(zStart, zStop, blockSize, k);
    var br, pairs := BlockRange(zStart, zStop, blockSize), BlockPairs(zStart, zStop, blockSize);
    var init := rows[..|rows| - 1];
    if r < |rows| - 1 {
      assert init[r] == rows[r];
      AffectedComplete(init, zStart, zStop, blockSize, r, k);
    } else {
      CompressKeeps(br, BlockFilter(rows[r], pairs), k);
    }
  }

  /** The compile step: `block_range` and `even_odd_range`, restricted by
      the z pairs of the CSV when one is given. */
  method CompileBlockRange(zStart: int, zStop: int, blockSize: int, zPairs: Option<seq<(int, int)>>)
    returns (blocks: seq<int>, tags: seq<int>)
    requires blockSize >= 1
    ensures var br := BlockRange(zStart, zStop, blockSize);
      match zPairs
      case None => blocks == br && tags == EvenOdd(|br|)
      case Some(rows) =>
        var pairs := BlockPairs(zStart, zStop, blockSize);
        blocks == Affected(rows, br, pairs) && tags == Affected(rows, EvenOdd(|br|), pairs)
  {
    var br := StepRange(zStart, zStop, blockSize);
    var eo := seq(|br|, i => i % 2);
    blocks, tags := br, eo;
    if zPairs.Some? {
      var rows := zPairs.value;
      var endpoints := StepRange(zStart, zStop + blockSize, blockSize);
      var pairs := Successive(endpoints);
      var tmpBlocks, tmpTags := [], [];
      var k := 0;
      while k < |rows|
        invariant 0 <= k <= |rows|
        invariant tmpBlocks == Affected(rows[..k], br, pairs)
        invariant tmpTags == Affected(rows[..k], eo, pairs)
      {
        var filter := BlockFilter(rows[k], pairs);
        assert rows[..k + 1][..k] == rows[..k];
        tmpBlocks := tmpBlocks + Compress(br, filter);
        tmpTags := tmpTags + Compress(eo, filter);
        k := k + 1;
      }
      assert rows[..k] == rows;
      blocks, tags := tmpBlocks, tmpTags;
    }
  }

  /** Without a z-range CSV, block i of `block_range` is tagged `i % 2`. */
  lemma BlockTags(zStart: int, zStop: int, blockSize: int, i: int)
    requires blockSize >= 1
    requires 0 <= i < |BlockRange(zStart, zStop, blockSize)|
    ensures EvenOdd(|BlockRange(zStart, zStop, blockSize)|)[i] == i % 2
    ensures BlockRange(zStart, zStop, blockSize)[i] == zStart + i * blockSize
  {
    BlockStarts(zStart, zStop, blockSize, i);
  }

  lemma {:induction false} BlockStarts(lo: int, hi: int, step: int, i: int)
    requires step >= 1 && 0 <= i < |StepRange(lo, hi, step)|
    ensures StepRange(lo, hi, step)[i] == lo + i * step
    decreases hi - lo
  {
    if i > 0 {
      BlockStarts(lo + step, hi, step, i - 1);
      assert (i - 1) * step + step == i * step;
      assert StepRange(lo, hi, step)[i] == StepRange(lo + step, hi, step)[i - 1];
    }
  }

  // ---------------------------------------------------------------------------
  // Model lookup CSV

  /** One row of the model lookup CSV: `[z_start, z_stop)`, the box and the
      model's file name. */
  datatype ModelRow = ModelRow(zStart: int, zStop: int, bbox: BBox, model: string)

  /** `join('..', 'models', r[7])`. */
  function ModelPath(name: string): string {
    "../models/" + name
  }

  function Spans(rows: seq<ModelRow>): (r: seq<Span<(BBox, string)>>)
    ensures |r| == |rows|
    ensures forall i :: 0 <= i < |rows| ==> r[i] == Span(rows[i].zStart, rows[i].zStop, (rows[i].bbox, ModelPath(rows[i].model)))
  {
    seq(|rows|, i requires 0 <= i < |rows| => Span(rows[i].zStart, rows[i].zStop, (rows[i].bbox, ModelPath(rows[i].model))))
  }

  function BoxPart(v: Option<(BBox, string)>): Option<BBox> {
    if v.Some? then Some(v.value.0) else None
  }

  function ModelPart(v: Option<(BBox, string)>): Option<string> {
    if v.Some? then Some(v.value.1) else None
  }

  /** `bbox_lookup` and `model_lookup`: both have the sections of the rows as
      keys, and a section gets the box and model of the last row that covers
      it (see `Lookup.LastCover` and `Lookup.LastCoverIsLast`). */
  method CompileModelLookup(rows: seq<ModelRow>) returns (bboxes: map<int, BBox>, models: map<int, string>)
    ensures forall z :: z in bboxes <==> z in models
    ensures forall z :: Get(bboxes, z) == BoxPart(LastCover(Spans(rows), z))
    ensures forall z :: Get(models, z) == ModelPart(LastCover(Spans(rows), z))
  {
    var m, keys := Compile(Spans(rows));
    bboxes := map z | z in m :: m[z].0;
    models := map z | z in m :: m[z].1;
  }

  /** A section covered by row i and by no later row gets row i's box and
      model; a section no row covers is in neither lookup. */
  lemma ModelLookupLastRow(rows: seq<ModelRow>, z: int, i: int)
    requires 0 <= i < |rows| && rows[i].zStart <= z < rows[i].zStop
    requires forall j :: i < j < |rows| ==> !(rows[j].zStart <= z < rows[j].zStop)
    ensures BoxPart(LastCover(Spans(rows), z)) == Some(rows[i].bbox)
    ensures ModelPart(LastCover(Spans(rows), z)) == Some(ModelPath(rows[i].model))
  {
    var spans := Spans(rows);
    assert forall j :: i < j < |spans| ==> !Covers(spans[j], z);
    LastCoverIsLast(spans, z, i);
  }

  lemma ModelLookupUncovered(rows: seq<ModelRow>, z: int)
    requires forall j :: 0 <= j < |rows| ==> !(rows[j].zStart <= z < rows[j].zStop)
    ensures BoxPart(LastCover(Spans(rows), z)).None? && ModelPart(LastCover(Spans(rows), z)).None?
  {
    var spans := Spans(rows);
    assert forall j :: 0 <= j < |spans| ==> !Covers(spans[j], z);
  }
}
