/** The within-block offset ranges of serial block alignment, computed the
    same way in `inference/new_align_blocks.py` and
    `inference/serial_block_alignment.py`: out of `range(block_size + overlap)`
    (with `overlap = tgt_radius`), offset `overlap - 1` is copied, the
    offsets below it are aligned one by one towards it, and the offsets above
    it are aligned by vector voting over their `overlap` predecessors. */
module OffsetRanges {
  import opened Slices
  import opened AlignBlocks

  function FullRange(blockSize: int, overlap: int): seq<int> {
    Range(0, blockSize + overlap)
  }

  /** `full_range[overlap-1:overlap]`. */
  function CopyOffsets(blockSize: int, overlap: int): seq<int> {
    Slice(FullRange(blockSize, overlap), overlap - 1, overlap)
  }

  /** `full_range[:overlap-1][::-1]`. */
  function SerialOffsets(blockSize: int, overlap: int): seq<int> {
    Reverse(Upto(FullRange(blockSize, overlap), overlap - 1))
  }

  /** `full_range[overlap:]`. */
  function VoteRange(blockSize: int, overlap: int): seq<int> {
    From(FullRange(blockSize, overlap), overlap)
  }

  /** `{serial_range[i]: i+1 for i in range(overlap-1)}`: the field offset
      each serial offset is aligned with (empty when `overlap < 1`, where
      `range(overlap-1)` is empty). */
  function SerialFieldOffsets(blockSize: int, overlap: int): (m: map<int, int>)
    requires blockSize >= 0
  {
    var serial := SerialOffsets(blockSize, overlap);
    if overlap >= 1 then
      SerialShape(blockSize, overlap);
      map i | 0 <= i < overlap - 1 :: serial[i] := i + 1
    else
      map[]
  }

  lemma SerialShape(blockSize: int, overlap: int)
    requires blockSize >= 0 && overlap >= 1
    ensures var serial := SerialOffsets(blockSize, overlap);
      && |serial| == overlap - 1
      && forall i :: 0 <= i < |serial| ==> serial[i] == overlap - 2 - i
  {
    var full := FullRange(blockSize, overlap);
    assert Upto(full, overlap - 1) == full[..overlap - 1];
  }

  /** With `tgt_radius >= 1`: the copy range is `[overlap-1]`, the serial range
      is `overlap-2, ..., 0` descending, and the vote range is
      `overlap, ..., block_size+overlap-1` ascending. */
  lemma OffsetRangeValues(blockSize: int, overlap: int)
    requires blockSize >= 0 && overlap >= 1
    ensures CopyOffsets(blockSize, overlap) == [overlap - 1]
    ensures var serial := SerialOffsets(blockSize, overlap);
      |serial| == overlap - 1 && forall i :: 0 <= i < |serial| ==> serial[i] == overlap - 2 - i
    ensures var vote := VoteRange(blockSize, overlap);
      |vote| == blockSize && forall i :: 0 <= i < |vote| ==> vote[i] == overlap + i
  {
    SerialShape(blockSize, overlap);
    var full := FullRange(blockSize, overlap);
    assert Slice(full, overlap - 1, overlap) == full[overlap - 1..overlap];
  }

  /** The three ranges are disjoint and together are `range(block_size + overlap)`. */
  lemma OffsetRangesPartition(blockSize: int, overlap: int, x: int)
    requires blockSize >= 0 && overlap >= 1
    ensures var copy, serial, vote := CopyOffsets(blockSize, overlap), SerialOffsets(blockSize, overlap), VoteRange(blockSize, overlap);
      && ((x in copy || x in serial || x in vote) <==> 0 <= x < blockSize + overlap)
      && !(x in copy && x in serial) && !(x in copy && x in vote) && !(x in serial && x in vote)
  {
    OffsetRangeValues(blockSize, overlap);
    var serial, vote := SerialOffsets(blockSize, overlap), VoteRange(blockSize, overlap);
    if 0 <= x < overlap - 1 {
      assert serial[overlap - 2 - x] == x;
    } else if overlap <= x < blockSize + overlap {
      assert vote[x - overlap] == x;
    }
  }

  /** Every serial offset is aligned to a section whose offset is the copied
      one: `o + serial_offsets[o] == overlap - 1`, and the serial offsets are
      the keys. */
  lemma SerialFieldsReachCopy(blockSize: int, overlap: int)
    requires blockSize >= 0 && overlap >= 1
    ensures var m := SerialFieldOffsets(blockSize, overlap);
      && (forall o :: o in m ==> o + m[o] == overlap - 1 && 1 <= m[o] <= overlap - 1)
      && (forall o :: o in m <==> o in SerialOffsets(blockSize, overlap))
  {
    var m := SerialFieldOffsets(blockSize, overlap);
    var serial := SerialOffsets(blockSize, overlap);
    SerialShape(blockSize, overlap);
    forall o | o in m ensures o + m[o] == overlap - 1 && 1 <= m[o] <= overlap - 1 && o in serial {
      var i :| 0 <= i < overlap - 1 && serial[i] == o;
    }
    forall o | o in serial ensures o in m {
      var i :| 0 <= i < |serial| && serial[i] == o;
    }
  }

  /** The vote offsets `[-1, ..., -overlap]`: each vote section uses exactly
      its `overlap` predecessors. */
  lemma VoteFieldOffsets(overlap: int)
    requires overlap >= 0
    ensures var v := VoteOffsets(overlap);
      |v| == overlap && forall o :: o in v <==> -overlap <= o <= -1
  {
    var v := VoteOffsets(overlap);
    forall o | -overlap <= o <= -1 ensures o in v {
      assert v[-o - 1] == o;
    }
  }

  /** The restart filter `[r for r in xs if r >= args.restart]` on the three
      ranges keeps exactly their offsets at or above the restart, in order:
      the serial range stays descending and the vote range ascending. */
  lemma RestartKeepsOrder(blockSize: int, overlap: int, restart: int)
    requires blockSize >= 0 && overlap >= 1
    ensures StrictlyDecreasing(AtLeast(SerialOffsets(blockSize, overlap), restart))
    ensures StrictlyIncreasing(AtLeast(VoteRange(blockSize, overlap), restart))
    ensures forall x :: x in AtLeast(CopyOffsets(blockSize, overlap), restart) <==> x == overlap - 1 && x >= restart
  {
    OffsetRangeValues(blockSize, overlap);
    AtLeastDecreasing(SerialOffsets(blockSize, overlap), restart);
    AtLeastIncreasing(VoteRange(blockSize, overlap), restart);
  }
}
