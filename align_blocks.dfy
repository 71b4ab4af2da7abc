/** Planning of block-wise alignment (`inference/align_blocks.py`): the section
    stack is cut into blocks, each block is aligned by vector voting over its
    `tgt_radius` predecessors, and neighbouring blocks are then stitched. All
    of it is integer, list, dict and set bookkeeping done before any task is
    sent. */
module AlignBlocks {
  import opened Wrappers
  import opened Slices
  import opened Lookup
  import opened Boxes

  /** The values one row of the parameter CSV gives to its sections. */
  datatype Params = Params(bbox: BBox, model: string, tgtRadius: int, skip: bool)

  /** Why the planning stops: the source's `KeyError`s and its `assert`s. */
  datatype PlanError =
    | EmptyStack                 // `initial_block_starts[-1]` on an empty range
    | BlockSkipped(start: int)   // `assert(bs < be)`: a whole initial block is skipped
    | MissingParams(z: int)      // `vvote_lookup[z]` or `tgt_radius_lookup[z]` on an unlisted section
    | BlockOffsetKey(i: int)     // `block_offset_to_z_range[i]` past `block_size + 10`
    | StitchOffsetKey(i: int)    // `stitch_offset_to_z_range[i]` past `block_size`
    | EvenStitchCount(start: int) // `assert(len(v) % 2 == 1)`
    | FirstVotesEmpty(z: int)    // `r + offset` while `r` is still the last CSV row (a list): TypeError

  // ---------------------------------------------------------------------------
  // Parameter CSV

  predicate SkipRowCovers(rows: seq<Span<Params>>, z: int) {
    exists i :: 0 <= i < |rows| && rows[i].value.skip && Covers(rows[i], z)
  }

  /** `skip_list`: the sections of every row whose skip flag is set, in row
      order, followed by the lines of the optional skip-list file. */
  method SkipList(rows: seq<Span<Params>>, extra: seq<int>) returns (skip: seq<int>)
    ensures forall z :: z in skip <==> (SkipRowCovers(rows, z) || z in extra)
  {
    skip := [];
    var k := 0;
    while k < |rows|
      invariant 0 <= k <= |rows|
      invariant forall z :: z in skip <==> SkipRowCovers(rows[..k], z)
    {
      var row := rows[k];
      var z := row.lo;
      while z < row.hi
        invariant row.lo < row.hi ==> row.lo <= z <= row.hi
        invariant row.hi <= row.lo ==> z == row.lo
        invariant forall y :: y in skip <==> (SkipRowCovers(rows[..k], y) || (row.value.skip && row.lo <= y < z))
      {
        if row.value.skip {
          skip := skip + [z];
        }
        z := z + 1;
      }
      assert forall y :: SkipRowCovers(rows[..k + 1], y) <==> (SkipRowCovers(rows[..k], y) || (row.value.skip && Covers(row, y))) by {
        assert forall i :: 0 <= i < k ==> rows[..k + 1][i] == rows[..k][i];
        assert rows[..k + 1][k] == row;
      }
      k := k + 1;
    }
    assert rows[..k] == rows;
    skip := skip + extra;
  }

  /** `vvote_lookup[z]` as first built: `[-1, -2, ..., -tgt_radius]`. */
  function VoteOffsets(radius: int): (r: seq<int>)
    ensures |r| == if radius > 0 then radius else 0
    ensures forall i :: 0 <= i < |r| ==> r[i] == -(i + 1)
  {
    seq(if radius > 0 then radius else 0, i => -(i + 1))
  }

  // ---------------------------------------------------------------------------
  // Skip-list adjustment of the vote offsets

  /** A lower bound of the skip list (its least element, or 0 when empty). */
  function Lowest(skip: seq<int>): (m: int)
    ensures forall x :: x in skip ==> m <= x
  {
    if skip == [] then 0
    else
      var t := Lowest(skip[1..]);
      assert forall x :: x in skip ==> x == skip[0] || x in skip[1..];
      if skip[0] < t then skip[0] else t
  }

  /** Where `while c in skip_list: c -= 1` ends: the largest section at or
      below c that is not skipped. */
  function FreeBelow(c: int, skip: seq<int>): (r: int)
    ensures r <= c && r !in skip
    decreases if c in skip then c - Lowest(skip) + 1 else 0
  {
    if c in skip then FreeBelow(c - 1, skip) else c
  }

  /** Every section strictly between `FreeBelow(c)` and c is skipped, so it
      is the largest free one. */
  lemma {:induction false} FreeBelowIsLargest(c: int, skip: seq<int>)
    ensures forall x :: FreeBelow(c, skip) < x <= c ==> x in skip
    decreases if c in skip then c - Lowest(skip) + 1 else 0
  {
    if c in skip {
      FreeBelowIsLargest(c - 1, skip);
    }
  }

  /** The adjusted offsets of one section z when the running shift is `shift`:
      each offset is moved down past skipped sections, and the shift carries
      over to the following offsets. */
  function Shifted(z: int, offs: seq<int>, shift: int, skip: seq<int>): (r: seq<int>)
    ensures |r| == |offs|
  {
    if offs == [] then []
    else
      var a := FreeBelow(z + offs[0] + shift, skip) - z;
      [a] + Shifted(z, offs[1..], a - offs[0], skip)
  }

  /** `vvote_lookup[z]` after the adjustment loop; the shift starts at 0 for every z. */
  function Adjusted(z: int, offs: seq<int>, skip: seq<int>): (r: seq<int>)
    ensures |r| == |offs|
  {
    Shifted(z, offs, 0, skip)
  }

  predicate StrictlyDecreasing(s: seq<int>) {
    forall i, j :: 0 <= i < j < |s| ==> s[i] > s[j]
  }

  /** Each entry moves down by at least the shift it starts with. */
  lemma {:induction false} ShiftedBelow(z: int, offs: seq<int>, shift: int, skip: seq<int>, i: int)
    requires 0 <= i < |offs|
    ensures Shifted(z, offs, shift, skip)[i] <= offs[i] + shift
    decreases i
  {
    var a := FreeBelow(z + offs[0] + shift, skip) - z;
    if i > 0 {
      ShiftedBelow(z, offs[1..], a - offs[0], skip, i - 1);
    }
  }

  lemma {:induction false} ShiftedProperties(z: int, offs: seq<int>, shift: int, skip: seq<int>)
    requires shift <= 0 && StrictlyDecreasing(offs)
    ensures var r := Shifted(z, offs, shift, skip);
      && (forall i :: 0 <= i < |r| ==> r[i] <= offs[i] + shift && z + r[i] !in skip)
      && StrictlyDecreasing(r)
    decreases |offs|
  {
    if offs != [] {
      var a := FreeBelow(z + offs[0] + shift, skip) - z;
      var tail := offs[1..];
      var shift' := a - offs[0];
      assert shift' <= shift;
      assert StrictlyDecreasing(tail);
      ShiftedProperties(z, tail, shift', skip);
      var rest := Shifted(z, tail, shift', skip);
      var r := Shifted(z, offs, shift, skip);
      assert r == [a] + rest;
      forall i | 0 <= i < |r| ensures r[i] <= offs[i] + shift && z + r[i] !in skip {
        if i > 0 {
          assert r[i] == rest[i - 1] && offs[i] == tail[i - 1];
        }
      }
      forall i, j | 0 <= i < j < |r| ensures r[i] > r[j] {
        assert r[j] == rest[j - 1];
        if i == 0 {
          assert tail[j - 1] < offs[0];
        } else {
          assert r[i] == rest[i - 1];
        }
      }
    }
  }

  /** The properties the adjustment promises about one section's offsets: each
      adjusted offset is at or below the original one, lands on a section that
      is not skipped, and the list stays strictly decreasing (so the targets of
      one section stay distinct). With originals `-1, ..., -R` every adjusted
      offset is negative. */
  lemma AdjustedProperties(z: int, offs: seq<int>, skip: seq<int>)
    requires StrictlyDecreasing(offs)
    ensures var r := Adjusted(z, offs, skip);
      && (forall i :: 0 <= i < |r| ==> r[i] <= offs[i] && z + r[i] !in skip)
      && StrictlyDecreasing(r)
      && ((forall i :: 0 <= i < |offs| ==> offs[i] < 0) ==> forall i :: 0 <= i < |r| ==> r[i] < 0)
  {
    ShiftedProperties(z, offs, 0, skip);
  }

  lemma VoteOffsetsDecreasing(radius: int)
    ensures StrictlyDecreasing(VoteOffsets(radius))
    ensures forall i :: 0 <= i < |VoteOffsets(radius)| ==> VoteOffsets(radius)[i] < 0
  {
  }

  predicate IsLastMin(adj: map<int, seq<int>>, minOffset: int) {
    && minOffset <= 0
    && (forall z :: z in adj && adj[z] != [] ==> minOffset <= adj[z][|adj[z]| - 1])
    && (minOffset == 0 || exists z :: z in adj && adj[z] != [] && minOffset == adj[z][|adj[z]| - 1])
  }

  /** The adjustment loop over `vvote_lookup`, in the dict's order `keys`:
      every list is rewritten in place, the running `offset` is reset per
      section, and `min_offset` follows the last adjusted offset of each
      section. The update of `min_offset` reads the inner loop's variable `r`:
      after an empty list that is still the value an earlier section left, its
      last original offset, which is at or above the minimum already taken, so
      the minimum is unchanged; for an empty list at the first section it is
      still the last row of the CSV reader, a list, and adding an int to it
      raises TypeError. */
  method AdjustVotes(votes: map<int, seq<int>>, keys: seq<int>, skip: seq<int>)
    returns (res: Result<(map<int, seq<int>>, int), PlanError>)
    requires Distinct(keys) && forall z :: z in keys <==> z in votes
    ensures res.Err? <==> |keys| > 0 && keys[0] in votes && votes[keys[0]] == []
    ensures res.Err? ==> res.error == FirstVotesEmpty(keys[0])
    ensures res.Ok? ==> var (adj, minOffset) := res.value;
      && (forall z :: z in adj <==> z in votes)
      && (forall z :: z in adj ==> adj[z] == Adjusted(z, votes[z], skip))
      && IsLastMin(adj, minOffset)
  {
    var adj := map[];
    var minOffset := 0;
    var last := 0;  // `r` once it has been bound to an offset
    var n := 0;
    while n < |keys|
      invariant 0 <= n <= |keys|
      invariant n > 0 ==> keys[0] in votes && votes[keys[0]] != [] && minOffset <= last
      invariant AdjustedUpTo(adj, votes, keys, n, skip)
      invariant IsLastMin(adj, minOffset)
    {
      var z := keys[n];
      var lst := AdjustSection(z, votes[z], skip);
      if n == 0 && votes[z] == [] {
        return Err(FirstVotesEmpty(z));
      }
      // `r + offset`: the last adjusted offset, or `r` itself after an empty list
      var cand := if votes[z] == [] then last else lst[|lst| - 1];
      var newMin := if cand < minOffset then cand else minOffset;
      if votes[z] != [] {
        ShiftedBelow(z, votes[z], 0, skip, |lst| - 1);
        last := votes[z][|votes[z]| - 1];
      }
      AdjustedUpToStep(adj, votes, keys, n, skip, lst);
      LastMinStep(adj, minOffset, z, lst, newMin);
      adj, minOffset := adj[z := lst], newMin;
      n := n + 1;
    }
    assert keys[..n] == keys;
    return Ok((adj, minOffset));
  }

  /** The sections `keys[..n]` have been adjusted. */
  ghost predicate AdjustedUpTo(adj: map<int, seq<int>>, votes: map<int, seq<int>>, keys: seq<int>, n: int, skip: seq<int>)
    requires 0 <= n <= |keys|
  {
    && (forall z :: z in adj <==> z in keys[..n])
    && (forall z :: z in adj ==> z in votes && adj[z] == Adjusted(z, votes[z], skip))
  }

  lemma AdjustedUpToStep(adj: map<int, seq<int>>, votes: map<int, seq<int>>, keys: seq<int>, n: int, skip: seq<int>, lst: seq<int>)
    requires Distinct(keys) && 0 <= n < |keys| && keys[n] in votes
    requires AdjustedUpTo(adj, votes, keys, n, skip)
    requires lst == Adjusted(keys[n], votes[keys[n]], skip)
    ensures keys[n] !in adj
    ensures AdjustedUpTo(adj[keys[n] := lst], votes, keys, n + 1, skip)
  {
    assert keys[..n + 1] == keys[..n] + [keys[n]];
  }

  lemma LastMinStep(adj: map<int, seq<int>>, minOffset: int, z: int, lst: seq<int>, newMin: int)
    requires IsLastMin(adj, minOffset) && z !in adj
    requires newMin == if |lst| > 0 && lst[|lst| - 1] < minOffset then lst[|lst| - 1] else minOffset
    ensures IsLastMin(adj[z := lst], newMin)
  {
    var adj' := adj[z := lst];
    if newMin != 0 {
      if newMin == minOffset {
        var w :| w in adj && adj[w] != [] && minOffset == adj[w][|adj[w]| - 1];
        assert w in adj' && adj'[w] == adj[w];
      } else {
        assert z in adj' && adj'[z] == lst;
      }
    }
    forall y | y in adj' && adj'[y] != [] ensures newMin <= adj'[y][|adj'[y]| - 1] {
      if y != z { assert adj'[y] == adj[y]; }
    }
  }

  /** The inner loops for one section z: each entry of its list is moved down
      past skipped sections; the shift accumulates along the list. */
  method AdjustSection(z: int, offs: seq<int>, skip: seq<int>) returns (lst: seq<int>)
    ensures lst == Adjusted(z, offs, skip)
  {
    ghost var goal := Adjusted(z, offs, skip);
    lst := offs;
    var offset := 0;
    var i := 0;
    while i < |lst|
      invariant 0 <= i <= |lst| == |offs| == |goal|
      invariant forall k :: 0 <= k < i ==> lst[k] == goal[k]
      invariant Shifted(z, offs[i..], offset, skip) == goal[i..]
    {
      var r := offs[i];  // the entry at i is not yet rewritten
      var offset2 := SkipDown(z, r, offset, skip);
      AdjustStep(z, offs, i, offset, offset2, skip, goal);
      lst := lst[i := r + offset2];
      offset := offset2;
      i := i + 1;
    }
  }

  /** `while r + offset + z in skip_list: offset -= 1`. */
  method SkipDown(z: int, r: int, offset: int, skip: seq<int>) returns (offset2: int)
    ensures r + offset2 + z == FreeBelow(z + r + offset, skip)
  {
    offset2 := offset;
    while r + offset2 + z in skip
      invariant FreeBelow(r + offset2 + z, skip) == FreeBelow(z + r + offset, skip)
      decreases r + offset2 + z - Lowest(skip)
    {
      offset2 := offset2 - 1;
    }
  }

  lemma AdjustStep(z: int, offs: seq<int>, i: int, offset: int, offset2: int, skip: seq<int>, goal: seq<int>)
    requires 0 <= i < |offs| == |goal|
    requires Shifted(z, offs[i..], offset, skip) == goal[i..]
    requires offs[i] + offset2 + z == FreeBelow(z + offs[i] + offset, skip)
    ensures goal[i] == offs[i] + offset2 && Shifted(z, offs[i + 1..], offset2, skip) == goal[i + 1..]
  {
    assert offs[i..][1..] == offs[i + 1..];
    assert goal[i..][1..] == goal[i + 1..];
    assert Shifted(z, offs[i..], offset, skip) == [offs[i] + offset2] + Shifted(z, offs[i + 1..], offset2, skip);
  }

  /** `offset_range` covers every adjusted offset of every section: the minimum
      over the LAST offsets is the overall minimum because each list is
      strictly decreasing. */
  lemma MinOffsetBelowAll(votes: map<int, seq<int>>, skip: seq<int>, adj: map<int, seq<int>>, minOffset: int)
    requires forall z :: z in votes ==> StrictlyDecreasing(votes[z])
    requires forall z, i :: z in votes && 0 <= i < |votes[z]| ==> votes[z][i] < 0
    requires forall z :: z in adj <==> z in votes
    requires forall z :: z in adj ==> adj[z] == Adjusted(z, votes[z], skip)
    requires IsLastMin(adj, minOffset)
    ensures forall z, i :: z in adj && 0 <= i < |adj[z]| ==> minOffset <= adj[z][i] && adj[z][i] in Range(minOffset, -minOffset + 1)
  {
    forall z, i | z in adj && 0 <= i < |adj[z]| ensures minOffset <= adj[z][i] && adj[z][i] in Range(minOffset, -minOffset + 1) {
      AdjustedProperties(z, votes[z], skip);
      var r := adj[z];
      assert r[i] >= r[|r| - 1];
      assert r[i] < 0;
      assert Range(minOffset, -minOffset + 1)[r[i] - minOffset] == r[i];
    }
  }
  // ---------------------------------------------------------------------------
  // Block starts and stops

  /** An upper bound of the skip list (its greatest element, or 0 when empty). */
  function Highest(skip: seq<int>): (m: int)
    ensures forall x :: x in skip ==> x <= m
  {
    if skip == [] then 0
    else
      var t := Highest(skip[1..]);
      assert forall x :: x in skip ==> x == skip[0] || x in skip[1..];
      if skip[0] > t then skip[0] else t
  }

  /** Where `while bs in skip_list: bs += 1` ends: the first section at or
      above c that is not skipped. */
  function FreeAbove(c: int, skip: seq<int>): (r: int)
    ensures c <= r && r !in skip
    decreases if c in skip then Highest(skip) - c + 1 else 0
  {
    if c in skip then FreeAbove(c + 1, skip) else c
  }

  /** Every section from c up to `FreeAbove(c)` is skipped, so it is the
      smallest free one. */
  lemma {:induction false} FreeAboveIsSmallest(c: int, skip: seq<int>)
    ensures forall x :: c <= x < FreeAbove(c, skip) ==> x in skip
    decreases if c in skip then Highest(skip) - c + 1 else 0
  {
    if c in skip {
      FreeAboveIsSmallest(c + 1, skip);
    }
  }

  predicate StrictlyIncreasing(s: seq<int>) {
    forall i, j :: 0 <= i < j < |s| ==> s[i] < s[j]
  }

  /** `initial_block_starts`: every `block_size`-th section from `z_start`,
      closed by `z_stop`; `None` where the source indexes an empty list. */
  function InitialStarts(zStart: int, zStop: int, blockSize: int): (r: Option<seq<int>>)
    requires blockSize >= 1
    ensures r.None? <==> zStart >= zStop
    ensures r.Some? ==> |r.value| >= 2 && r.value[0] == zStart && r.value[|r.value| - 1] == zStop
    ensures r.Some? ==> forall k :: 0 <= k < |r.value| - 1 ==> 0 < r.value[k + 1] - r.value[k] <= blockSize
  {
    var base := StepRange(zStart, zStop, blockSize);
    StepRangeShape(zStart, zStop, blockSize);
    if base == [] then None
    else if base[|base| - 1] != zStop then Some(base + [zStop])
    else Some(base)
  }

  /** Increasing steps make a strictly increasing sequence. */
  lemma {:induction false} ChainIncreasing(s: seq<int>)
    requires forall k :: 0 <= k < |s| - 1 ==> s[k] < s[k + 1]
    ensures StrictlyIncreasing(s)
    decreases |s|
  {
    if |s| > 1 {
      var p := s[..|s| - 1];
      assert forall k :: 0 <= k < |p| - 1 ==> p[k] < p[k + 1] by {
        forall k | 0 <= k < |p| - 1 ensures p[k] < p[k + 1] {
          assert p[k] == s[k] && p[k + 1] == s[k + 1];
        }
      }
      ChainIncreasing(p);
      forall i, j | 0 <= i < j < |s| ensures s[i] < s[j] {
        if j < |s| - 1 {
          assert p[i] < p[j];
        } else if i < j - 1 {
          assert p[i] < p[j - 1];
        }
      }
    }
  }

  /** The start adjustment: every block start is moved up past skipped
      sections, and the source's `assert(bs < be)` fails when that reaches the
      next initial start. `block_stops` is `block_starts[1:]` closed by
      `z_stop`. */
  method BlockBounds(zStart: int, zStop: int, blockSize: int, skip: seq<int>)
    returns (res: Result<(seq<int>, seq<int>), PlanError>)
    requires blockSize >= 1
    ensures zStart >= zStop ==> res == Err(EmptyStack)
    ensures zStart < zStop ==> var init := InitialStarts(zStart, zStop, blockSize).value;
      && (res.Ok? <==> forall k :: 0 <= k < |init| - 1 ==> FreeAbove(init[k], skip) < init[k + 1])
      && (res.Err? ==> exists k :: 0 <= k < |init| - 1 && res == Err(BlockSkipped(init[k])) && FreeAbove(init[k], skip) >= init[k + 1])
      && (res.Ok? ==> var (starts, stops) := res.value;
           && |starts| == |init| - 1
           && (forall k :: 0 <= k < |starts| ==> starts[k] == FreeAbove(init[k], skip))
           && stops == starts[1..] + [zStop])
  {
    var initOpt := InitialStarts(zStart, zStop, blockSize);
    if initOpt.None? {
      return Err(EmptyStack);
    }
    var adjusted := AdjustStarts(initOpt.value, skip);
    if adjusted.Err? {
      return Err(adjusted.error);
    }
    var starts := adjusted.value;
    var stops := starts[1..];
    if starts[|starts| - 1] != zStop {
      stops := stops + [zStop];
    }
    res := Ok((starts, stops));
  }

  /** The loop over `zip(initial_block_starts[:-1], initial_block_starts[1:])`. */
  method AdjustStarts(init: seq<int>, skip: seq<int>) returns (res: Result<seq<int>, PlanError>)
    requires |init| >= 2 && forall k :: 0 <= k < |init| - 1 ==> init[k] < init[k + 1]
    ensures res.Ok? <==> forall k :: 0 <= k < |init| - 1 ==> FreeAbove(init[k], skip) < init[k + 1]
    ensures res.Err? ==> exists k :: 0 <= k < |init| - 1 && res.error == BlockSkipped(init[k]) && FreeAbove(init[k], skip) >= init[k + 1]
    ensures res.Ok? ==> |res.value| == |init| - 1 && res.value[|res.value| - 1] < init[|init| - 1]
    ensures res.Ok? ==> forall k :: 0 <= k < |res.value| ==> res.value[k] == FreeAbove(init[k], skip)
  {
    var starts := [];
    var k := 0;
    while k < |init| - 1
      invariant 0 <= k <= |init| - 1
      invariant |starts| == k
      invariant forall j :: 0 <= j < k ==> starts[j] == FreeAbove(init[j], skip) < init[j + 1]
    {
      var bs := SkipUp(init[k], init[k + 1], skip);
      if bs.None? {
        return Err(BlockSkipped(init[k]));
      }
      starts := starts + [bs.value];
      k := k + 1;
    }
    return Ok(starts);
  }

  /** `while bs in skip_list: bs += 1; assert(bs < be)` for one block. */
  method SkipUp(bs0: int, be: int, skip: seq<int>) returns (r: Option<int>)
    requires bs0 < be
    ensures r.Some? <==> FreeAbove(bs0, skip) < be
    ensures r.Some? ==> r.value == FreeAbove(bs0, skip)
  {
    var bs := bs0;
    while bs in skip
      invariant bs0 <= bs < be
      invariant FreeAbove(bs, skip) == FreeAbove(bs0, skip)
      decreases Highest(skip) - bs
    {
      bs := bs + 1;
      if !(bs < be) {
        return None;
      }
    }
    return Some(bs);
  }

  /** What the block bounds promise: the starts are strictly increasing, never
      skipped, and each lies in `[initial_start, next_initial_start)`; the stop
      of a block is the start of the next one. */
  lemma BlockBoundsProperties(init: seq<int>, skip: seq<int>, starts: seq<int>)
    requires forall k :: 0 <= k < |init| - 1 ==> init[k] < init[k + 1]
    requires |starts| == |init| - 1
    requires forall k :: 0 <= k < |starts| ==> starts[k] == FreeAbove(init[k], skip) < init[k + 1]
    ensures StrictlyIncreasing(starts)
    ensures forall k :: 0 <= k < |starts| ==> starts[k] !in skip && init[k] <= starts[k] < init[k + 1]
  {
    ChainIncreasing(init);
    forall i, j | 0 <= i < j < |starts| ensures starts[i] < starts[j] {
      assert starts[i] < init[i + 1] <= init[j] <= starts[j];
    }
  }
  // ---------------------------------------------------------------------------
  // z -> block and starter lookups

  /** The block side of the lookups. A destination is the index into
      `block_dsts` (0 for the even volume, 1 for the odd one). Python sets are
      kept as duplicate-free sequences in insertion order. */
  datatype BlockLookups = BlockLookups(
    start: map<int, int>,             // block_start_lookup
    dst: map<int, int>,               // block_dst_lookup
    byOffset: map<int, seq<int>>)     // block_offset_to_z_range

  /** The starter side of the lookups. */
  datatype StarterLookups = StarterLookups(
    dst: map<int, int>,               // starter_dst_lookup
    overlapCopy: seq<int>,            // overlap_copy_range
    offset: map<int, int>,            // starter_z_to_offset
    byOffset: map<int, seq<int>>)     // starter_offset_to_z_range

  /** `s.add(x)` on a set kept as a duplicate-free sequence. */
  function AddTo(s: seq<int>, x: int): (r: seq<int>)
    ensures forall y :: y in r <==> y in s || y == x
  {
    if x in s then s else s + [x]
  }

  /** `{k: set() for k in keys}`. */
  function Buckets(keys: seq<int>): (m: map<int, seq<int>>)
    ensures forall k :: k in m <==> k in keys
    ensures forall k :: k in m ==> m[k] == []
  {
    if keys == [] then map[] else Buckets(keys[1..])[keys[0] := []]
  }

  /** The lookups before the first block: empty buckets with keys
      `range(1, block_size + 10)` and `range(min_offset, 0)`. */
  function EmptyBlocks(blockSize: int): (B: BlockLookups)
    ensures forall i :: i in B.byOffset <==> 1 <= i < blockSize + 10
    ensures forall i :: i in B.byOffset ==> B.byOffset[i] == []
    ensures forall z :: z !in B.start
  {
    BlockLookups(map[], map[], Buckets(Range(1, blockSize + 10)))
  }

  function EmptyStarters(minOffset: int): (S: StarterLookups)
    ensures forall o :: o in S.byOffset <==> minOffset <= o < 0
    ensures forall o :: o in S.byOffset ==> S.byOffset[o] == []
    ensures forall t :: t !in S.offset && t !in S.overlapCopy
  {
    StarterLookups(map[], [], map[], Buckets(Range(minOffset, 0)))
  }

  // Facts that hold of the lookups at every stage, one predicate per field.

  ghost predicate BlockKeys(m: map<int, seq<int>>, blockSize: int) {
    forall i :: i in m <==> 1 <= i < blockSize + 10
  }

  /** Only sections below `bound` have been assigned, each to a block start. */
  ghost predicate StartsSound(start: map<int, int>, dst: map<int, int>, starts: seq<int>, bound: int) {
    && (forall x :: x in start ==> x < bound && start[x] in starts && x in dst && 0 <= dst[x] <= 1)
    && (forall x :: x in dst ==> x < bound)
  }

  /** A block bucket i holds only non-skipped sections i after their start. */
  ghost predicate BucketsSound(m: map<int, seq<int>>, start: map<int, int>, skip: seq<int>) {
    forall i, x :: i in m && x in m[i] ==> x !in skip && x in start && x - start[x] == i
  }

  ghost predicate BlockSound(B: BlockLookups, starts: seq<int>, skip: seq<int>, blockSize: int, bound: int) {
    && BlockKeys(B.byOffset, blockSize)
    && StartsSound(B.start, B.dst, starts, bound)
    && BucketsSound(B.byOffset, B.start, skip)
  }

  /** Every offset of `range(min_offset, 0)` has a starter bucket. */
  ghost predicate StarterKeys(m: map<int, seq<int>>, minOffset: int) {
    forall o :: minOffset <= o < 0 ==> o in m
  }

  /** A starter is aligned to a block start at most `-min_offset` after it. */
  ghost predicate StarterOffsetsSound(m: map<int, int>, starts: seq<int>, minOffset: int) {
    forall t :: t in m ==> 0 < m[t] <= -minOffset && t + m[t] in starts
  }

  /** A starter bucket o holds starters t with `t - o` a block start. */
  ghost predicate StarterBucketsSound(m: map<int, seq<int>>, offset: map<int, int>, starts: seq<int>) {
    forall o, t :: o in m && t in m[o] ==> t - o in starts && t in offset
  }

  /** Overlap copies exist only when there is a second block, and lie at or
      before the last block start. */
  ghost predicate OverlapSound(s: seq<int>, starts: seq<int>) {
    forall t :: t in s ==> |starts| > 1 && t <= starts[|starts| - 1]
  }

  ghost predicate StarterSound(S: StarterLookups, starts: seq<int>, minOffset: int) {
    && StarterKeys(S.byOffset, minOffset)
    && StarterOffsetsSound(S.offset, starts, minOffset)
    && StarterBucketsSound(S.byOffset, S.offset, starts)
    && OverlapSound(S.overlapCopy, starts)
  }

  /** One vote target t of a section of block j (start bs): the body of the
      innermost loop. */
  function VisitTarget(S: StarterLookups, j: int, bs: int, t: int): (S2: StarterLookups)
    requires t < bs ==> t - bs in S.byOffset
    ensures t <= bs ==> t in S2.dst && S2.dst[t] == j % 2
    ensures t < bs ==> t in S2.offset && S2.offset[t] == bs - t && t - bs in S2.byOffset && t in S2.byOffset[t - bs]
    ensures t <= bs && j > 0 ==> t in S2.overlapCopy
    ensures bs < t ==> S2 == S
    ensures forall o :: o in S2.byOffset <==> o in S.byOffset
  {
    var S1 := if t <= bs then S.(dst := S.dst[t := j % 2]) else S;
    var S2 := if t <= bs && j > 0 then S1.(overlapCopy := AddTo(S1.overlapCopy, t)) else S1;
    if t < bs then
      S2.(offset := S2.offset[t := bs - t], byOffset := S2.byOffset[t - bs := AddTo(S2.byOffset[t - bs], t)])
    else S2
  }

  /** Nothing else changes: other sections keep their entries, and bucket
      `t - bs` and the overlap copies gain t only as stated above. */
  lemma VisitTargetFrame(S: StarterLookups, j: int, bs: int, t: int, x: int, o: int)
    requires t < bs ==> t - bs in S.byOffset
    ensures var S2 := VisitTarget(S, j, bs, t);
      && (x != t ==> (x in S2.dst <==> x in S.dst) && (x in S.dst ==> S2.dst[x] == S.dst[x]))
      && (x != t || bs <= t ==> (x in S2.offset <==> x in S.offset) && (x in S.offset ==> S2.offset[x] == S.offset[x]))
      && (o in S.byOffset ==> (x in S2.byOffset[o] <==> x in S.byOffset[o] || (x == t && t < bs && o == t - bs)))
      && (x in S2.overlapCopy <==> x in S.overlapCopy || (x == t && t <= bs && j > 0))
  {
  }

  // The starter loops as a fold over the vote targets they visit, in order.

  /** A vote target t of a non-skipped section of block j, whose start is bs. */
  datatype Visit = Visit(j: int, bs: int, t: int)

  /** The targets `z + tgt_offset` of section z in the order of its list. */
  function SectionVisits(j: int, bs: int, z: int, offs: seq<int>): seq<Visit>
    decreases |offs|
  {
    if offs == [] then []
    else SectionVisits(j, bs, z, offs[..|offs| - 1]) + [Visit(j, bs, z + offs[|offs| - 1])]
  }

  /** The targets section z of block j visits: none when z is skipped. */
  function SectionVisitsOf(j: int, bs: int, z: int, skip: seq<int>, votes: map<int, seq<int>>): seq<Visit> {
    if z in skip || z !in votes then [] else SectionVisits(j, bs, z, votes[z])
  }

  /** The targets sections `lo` to `hi - 1` of block j visit, in order. */
  function BlockVisits(j: int, bs: int, lo: int, hi: int, skip: seq<int>, votes: map<int, seq<int>>): seq<Visit>
    decreases hi - lo
  {
    if hi <= lo then [] else BlockVisits(j, bs, lo, hi - 1, skip, votes) + SectionVisitsOf(j, bs, hi - 1, skip, votes)
  }

  /** The targets the first k blocks visit, in order. */
  function AllVisits(starts: seq<int>, stops: seq<int>, skip: seq<int>, votes: map<int, seq<int>>, k: int): seq<Visit>
    requires 0 <= k <= |starts| == |stops|
  {
    if k == 0 then []
    else AllVisits(starts, stops, skip, votes, k - 1) + BlockVisits(k - 1, starts[k - 1], starts[k - 1] + 1, stops[k - 1] + 1, skip, votes)
  }

  /** Every bucket a visit of vs adds to exists in b. */
  ghost predicate Keyed(b: map<int, seq<int>>, vs: seq<Visit>) {
    forall v :: v in vs && v.t < v.bs ==> v.t - v.bs in b
  }

  /** The starter lookups after the visits vs, one `VisitTarget` each. */
  function Visited(S: StarterLookups, vs: seq<Visit>): (R: StarterLookups)
    requires Keyed(S.byOffset, vs)
    ensures forall o :: o in R.byOffset <==> o in S.byOffset
    decreases |vs|
  {
    if vs == [] then S
    else
      var v := vs[|vs| - 1];
      assert v in vs;
      assert Keyed(S.byOffset, vs[..|vs| - 1]) by {
        forall w | w in vs[..|vs| - 1] ensures w in vs {
        }
      }
      VisitTarget(Visited(S, vs[..|vs| - 1]), v.j, v.bs, v.t)
  }

  lemma VisitedSnoc(S: StarterLookups, vs: seq<Visit>, v: Visit)
    requires Keyed(S.byOffset, vs) && (v.t < v.bs ==> v.t - v.bs in S.byOffset)
    ensures Keyed(S.byOffset, vs + [v])
    ensures Visited(S, vs + [v]) == VisitTarget(Visited(S, vs), v.j, v.bs, v.t)
  {
    assert (vs + [v])[..|vs|] == vs;
  }

  lemma SectionVisitsStep(S: StarterLookups, S2: StarterLookups, j: int, bs: int, z: int, offs: seq<int>, n: int, minOffset: int)
    requires 0 <= n < |offs| && Walked(S, SectionVisits(j, bs, z, offs[..n]), S2)
    requires StarterKeys(S.byOffset, minOffset) && bs < z && minOffset <= offs[n]
    ensures z + offs[n] < bs ==> z + offs[n] - bs in S2.byOffset
    ensures Walked(S, SectionVisits(j, bs, z, offs[..n + 1]), VisitTarget(S2, j, bs, z + offs[n]))
  {
    assert z + offs[n] < bs ==> z + offs[n] - bs in S.byOffset;
    var vs, v := SectionVisits(j, bs, z, offs[..n]), Visit(j, bs, z + offs[n]);
    SectionVisitsSnoc(j, bs, z, offs, n);
    WalkedSnoc(S, vs, S2, v);
    WalkedSame(S, vs + [v], SectionVisits(j, bs, z, offs[..n + 1]), VisitTarget(S2, j, bs, z + offs[n]));
  }

  lemma WalkedSame(S: StarterLookups, a: seq<Visit>, b: seq<Visit>, S2: StarterLookups)
    requires a == b && Walked(S, a, S2)
    ensures Walked(S, b, S2)
  { }

  lemma WalkedSnoc(S: StarterLookups, vs: seq<Visit>, S2: StarterLookups, v: Visit)
    requires Walked(S, vs, S2) && (v.t < v.bs ==> v.t - v.bs in S.byOffset)
    ensures v.t < v.bs ==> v.t - v.bs in S2.byOffset
    ensures Walked(S, vs + [v], VisitTarget(S2, v.j, v.bs, v.t))
  {
    VisitedSnoc(S, vs, v);
  }

  lemma SectionVisitsSnoc(j: int, bs: int, z: int, offs: seq<int>, n: int)
    requires 0 <= n < |offs|
    ensures SectionVisits(j, bs, z, offs[..n + 1]) == SectionVisits(j, bs, z, offs[..n]) + [Visit(j, bs, z + offs[n])]
  {
    assert offs[..n + 1][..n] == offs[..n];
  }

  /** The visits vs take the starter lookups from S to S2. */
  ghost predicate Walked(S: StarterLookups, vs: seq<Visit>, S2: StarterLookups) {
    Keyed(S.byOffset, vs) && S2 == Visited(S, vs)
  }

  lemma {:induction false} VisitedConcat(S: StarterLookups, a: seq<Visit>, b: seq<Visit>)
    requires Keyed(S.byOffset, a) && Keyed(S.byOffset, b)
    ensures Keyed(S.byOffset, a + b) && Keyed(Visited(S, a).byOffset, b)
    ensures Visited(S, a + b) == Visited(Visited(S, a), b)
    decreases |b|
  {
    if b == [] {
      assert a + b == a;
    } else {
      assert (a + b)[..|a + b| - 1] == a + b[..|b| - 1];
      assert Keyed(S.byOffset, b[..|b| - 1]) by {
        forall w | w in b[..|b| - 1] ensures w in b {
        }
      }
      VisitedConcat(S, a, b[..|b| - 1]);
    }
  }

  /** The last visit that writes `starter_dst_lookup[t]` (a target at or
      before its block start), or -1 when none does. */
  function LastDst(vs: seq<Visit>, t: int): (i: int)
    ensures -1 <= i < |vs|
    ensures i >= 0 ==> vs[i].t == t && t <= vs[i].bs
    ensures forall n :: i < n < |vs| ==> !(vs[n].t == t && t <= vs[n].bs)
    decreases |vs|
  {
    if vs == [] then -1
    else if vs[|vs| - 1].t == t && t <= vs[|vs| - 1].bs then |vs| - 1
    else LastDst(vs[..|vs| - 1], t)
  }

  /** The last visit that writes `starter_z_to_offset[t]` (a target strictly
      before its block start), or -1 when none does. */
  function LastOffset(vs: seq<Visit>, t: int): (i: int)
    ensures -1 <= i < |vs|
    ensures i >= 0 ==> vs[i].t == t && t < vs[i].bs
    ensures forall n :: i < n < |vs| ==> !(vs[n].t == t && t < vs[n].bs)
    decreases |vs|
  {
    if vs == [] then -1
    else if vs[|vs| - 1].t == t && t < vs[|vs| - 1].bs then |vs| - 1
    else LastOffset(vs[..|vs| - 1], t)
  }

  lemma KeyedPrefix(b: map<int, seq<int>>, vs: seq<Visit>)
    requires Keyed(b, vs) && vs != []
    ensures Keyed(b, vs[..|vs| - 1])
  {
    forall w | w in vs[..|vs| - 1] ensures w in vs {
    }
  }

  /** `starter_dst_lookup[t]` after the visits: the block parity of the last
      visit that reaches t, and the old entry when none does. */
  lemma {:induction false} VisitedDst(S: StarterLookups, vs: seq<Visit>, t: int)
    requires Keyed(S.byOffset, vs)
    ensures var R := Visited(S, vs); var i := LastDst(vs, t);
      && (i >= 0 ==> t in R.dst && R.dst[t] == vs[i].j % 2)
      && (i < 0 ==> (t in R.dst <==> t in S.dst) && (t in S.dst ==> R.dst[t] == S.dst[t]))
    decreases |vs|
  {
    if vs != [] {
      KeyedPrefix(S.byOffset, vs);
      VisitedDst(S, vs[..|vs| - 1], t);
      var v := vs[|vs| - 1];
      VisitTargetFrame(Visited(S, vs[..|vs| - 1]), v.j, v.bs, v.t, t, 0);
    }
  }

  /** `starter_z_to_offset[t]` after the visits: the distance to the block
      start of the last visit strictly before it, and the old entry when none. */
  lemma {:induction false} VisitedOffset(S: StarterLookups, vs: seq<Visit>, t: int)
    requires Keyed(S.byOffset, vs)
    ensures var R := Visited(S, vs); var i := LastOffset(vs, t);
      && (i >= 0 ==> t in R.offset && R.offset[t] == vs[i].bs - t)
      && (i < 0 ==> (t in R.offset <==> t in S.offset) && (t in S.offset ==> R.offset[t] == S.offset[t]))
    decreases |vs|
  {
    if vs != [] {
      KeyedPrefix(S.byOffset, vs);
      VisitedOffset(S, vs[..|vs| - 1], t);
      var v := vs[|vs| - 1];
      VisitTargetFrame(Visited(S, vs[..|vs| - 1]), v.j, v.bs, v.t, t, 0);
    }
  }

  /** Bucket o of `starter_offset_to_z_range` gains exactly the targets lying
      `-o` before the start of their block. */
  lemma {:induction false} VisitedBucket(S: StarterLookups, vs: seq<Visit>, o: int, x: int)
    requires Keyed(S.byOffset, vs) && o in S.byOffset
    ensures x in Visited(S, vs).byOffset[o] <==>
      x in S.byOffset[o] || exists v :: v in vs && v.t == x && x < v.bs && x - v.bs == o
    decreases |vs|
  {
    if vs != [] {
      var p, v := vs[..|vs| - 1], vs[|vs| - 1];
      assert vs == p + [v];
      KeyedPrefix(S.byOffset, vs);
      VisitedBucket(S, p, o, x);
      VisitTargetFrame(Visited(S, p), v.j, v.bs, v.t, x, o);
    }
  }

  /** `overlap_copy_range` gains exactly the targets at or before the start of
      a block other than the first. */
  lemma {:induction false} VisitedOverlap(S: StarterLookups, vs: seq<Visit>, x: int)
    requires Keyed(S.byOffset, vs)
    ensures x in Visited(S, vs).overlapCopy <==>
      x in S.overlapCopy || exists v :: v in vs && v.t == x && x <= v.bs && v.j > 0
    decreases |vs|
  {
    if vs != [] {
      var p, v := vs[..|vs| - 1], vs[|vs| - 1];
      assert vs == p + [v];
      KeyedPrefix(S.byOffset, vs);
      VisitedOverlap(S, p, x);
      VisitTargetFrame(Visited(S, p), v.j, v.bs, v.t, x, 0);
    }
  }

  /** v is a visit of the first k blocks: a target `z + tgt_offset` of a
      non-skipped section z of block `v.j`, with `v.bs` that block's start. */
  ghost predicate IsVisit(starts: seq<int>, stops: seq<int>, skip: seq<int>, votes: map<int, seq<int>>, k: int, v: Visit)
    requires 0 <= k <= |starts| == |stops|
  {
    && 0 <= v.j < k && v.bs == starts[v.j]
    && exists z :: starts[v.j] < z <= stops[v.j] && z !in skip && z in votes && v.t - z in votes[z]
  }

  lemma {:induction false} SectionVisitsMember(j: int, bs: int, z: int, offs: seq<int>, v: Visit)
    ensures v in SectionVisits(j, bs, z, offs) <==> v.j == j && v.bs == bs && v.t - z in offs
    decreases |offs|
  {
    if offs != [] {
      var p := offs[..|offs| - 1];
      assert offs == p + [offs[|offs| - 1]];
      SectionVisitsMember(j, bs, z, p, v);
    }
  }

  /** v is a target of a non-skipped section `lo` to `hi - 1` of block j. */
  ghost predicate InBlock(j: int, bs: int, lo: int, hi: int, skip: seq<int>, votes: map<int, seq<int>>, v: Visit) {
    v.j == j && v.bs == bs && exists z :: lo <= z < hi && z !in skip && z in votes && v.t - z in votes[z]
  }

  lemma {:induction false} BlockVisitsMember(j: int, bs: int, lo: int, hi: int, skip: seq<int>, votes: map<int, seq<int>>, v: Visit)
    ensures v in BlockVisits(j, bs, lo, hi, skip, votes) <==> InBlock(j, bs, lo, hi, skip, votes, v)
    decreases hi - lo
  {
    if lo < hi {
      var z := hi - 1;
      var p, q := BlockVisits(j, bs, lo, z, skip, votes), SectionVisitsOf(j, bs, z, skip, votes);
      assert BlockVisits(j, bs, lo, hi, skip, votes) == p + q;
      BlockVisitsMember(j, bs, lo, z, skip, votes, v);
      if z !in skip && z in votes {
        SectionVisitsMember(j, bs, z, votes[z], v);
      }
      InBlockStep(j, bs, lo, hi, skip, votes, v);
      ConcatMember(p, q, v);
    }
  }

  /** The targets of sections `lo` to `hi - 1` are those of `lo` to `hi - 2` and those of `hi - 1`. */
  lemma InBlockStep(j: int, bs: int, lo: int, hi: int, skip: seq<int>, votes: map<int, seq<int>>, v: Visit)
    requires lo < hi
    ensures var z := hi - 1;
      InBlock(j, bs, lo, hi, skip, votes, v) <==>
      InBlock(j, bs, lo, z, skip, votes, v) || (v.j == j && v.bs == bs && z !in skip && z in votes && v.t - z in votes[z])
  {
    var z := hi - 1;
    if InBlock(j, bs, lo, hi, skip, votes, v) && !(z !in skip && z in votes && v.t - z in votes[z]) {
      var y :| lo <= y < hi && y !in skip && y in votes && v.t - y in votes[y];
      assert y != z;
    }
  }

  lemma {:induction false} AllVisitsMember(starts: seq<int>, stops: seq<int>, skip: seq<int>, votes: map<int, seq<int>>, k: int, v: Visit)
    requires 0 <= k <= |starts| == |stops|
    ensures v in AllVisits(starts, stops, skip, votes, k) <==> IsVisit(starts, stops, skip, votes, k, v)
  {
    if k > 0 {
      var p := AllVisits(starts, stops, skip, votes, k - 1);
      var q := BlockVisits(k - 1, starts[k - 1], starts[k - 1] + 1, stops[k - 1] + 1, skip, votes);
      assert AllVisits(starts, stops, skip, votes, k) == p + q;
      AllVisitsMember(starts, stops, skip, votes, k - 1, v);
      BlockVisitsMember(k - 1, starts[k - 1], starts[k - 1] + 1, stops[k - 1] + 1, skip, votes, v);
      IsVisitStep(starts, stops, skip, votes, k, v);
      ConcatMember(p, q, v);
    }
  }

  lemma ConcatMember(p: seq<Visit>, q: seq<Visit>, v: Visit)
    ensures v in p + q <==> v in p || v in q
  { }

  /** A visit of the first k blocks is one of the first k - 1 or one of block k - 1. */
  lemma IsVisitStep(starts: seq<int>, stops: seq<int>, skip: seq<int>, votes: map<int, seq<int>>, k: int, v: Visit)
    requires 0 < k <= |starts| == |stops|
    ensures IsVisit(starts, stops, skip, votes, k, v) <==>
      || IsVisit(starts, stops, skip, votes, k - 1, v)
      || InBlock(k - 1, starts[k - 1], starts[k - 1] + 1, stops[k - 1] + 1, skip, votes, v)
  {
    if IsVisit(starts, stops, skip, votes, k, v) && v.j < k - 1 {
      assert IsVisit(starts, stops, skip, votes, k - 1, v);
    }
  }

  /** The visits come block by block. */
  lemma {:induction false} AllVisitsOrdered(starts: seq<int>, stops: seq<int>, skip: seq<int>, votes: map<int, seq<int>>, k: int)
    requires 0 <= k <= |starts| == |stops|
    ensures forall a, b :: 0 <= a < b < |AllVisits(starts, stops, skip, votes, k)| ==>
      AllVisits(starts, stops, skip, votes, k)[a].j <= AllVisits(starts, stops, skip, votes, k)[b].j
  {
    if k > 0 {
      AllVisitsOrdered(starts, stops, skip, votes, k - 1);
      var p := AllVisits(starts, stops, skip, votes, k - 1);
      var q := BlockVisits(k - 1, starts[k - 1], starts[k - 1] + 1, stops[k - 1] + 1, skip, votes);
      forall v | v in p ensures v.j < k - 1 {
        AllVisitsMember(starts, stops, skip, votes, k - 1, v);
      }
      forall v | v in q ensures v.j == k - 1 {
        BlockVisitsMember(k - 1, starts[k - 1], starts[k - 1] + 1, stops[k - 1] + 1, skip, votes, v);
      }
      OrderedConcat(p, q, k - 1);
      assert p + q == AllVisits(starts, stops, skip, votes, k);
    }
  }

  /** Visits of earlier blocks followed by visits of block m stay in block order. */
  lemma OrderedConcat(p: seq<Visit>, q: seq<Visit>, m: int)
    requires forall a, b :: 0 <= a < b < |p| ==> p[a].j <= p[b].j
    requires forall v :: v in p ==> v.j < m
    requires forall v :: v in q ==> v.j == m
    ensures forall a, b :: 0 <= a < b < |p + q| ==> (p + q)[a].j <= (p + q)[b].j
  {
    var vs := p + q;
    forall a, b | 0 <= a < b < |vs| ensures vs[a].j <= vs[b].j {
      if b >= |p| {
        assert vs[b] == q[b - |p|];
        assert q[b - |p|] in q;
        if a < |p| {
          assert vs[a] == p[a] && p[a] in p;
        } else {
          assert vs[a] == q[a - |p|] && q[a - |p|] in q;
        }
      } else {
        assert vs[a] == p[a] && vs[b] == p[b];
      }
    }
  }

  /** The visits of the main lookup loop are exactly the `IsVisit` ones, and
      come block by block. */
  lemma AllVisitsExact(starts: seq<int>, stops: seq<int>, skip: seq<int>, votes: map<int, seq<int>>)
    requires |starts| == |stops|
    ensures forall v :: v in AllVisits(starts, stops, skip, votes, |starts|) <==> IsVisit(starts, stops, skip, votes, |starts|, v)
    ensures forall a, b :: 0 <= a < b < |AllVisits(starts, stops, skip, votes, |starts|)| ==>
      AllVisits(starts, stops, skip, votes, |starts|)[a].j <= AllVisits(starts, stops, skip, votes, |starts|)[b].j
  {
    AllVisitsOrdered(starts, stops, skip, votes, |starts|);
    forall v ensures v in AllVisits(starts, stops, skip, votes, |starts|) <==> IsVisit(starts, stops, skip, votes, |starts|, v) {
      AllVisitsMember(starts, stops, skip, votes, |starts|, v);
    }
  }

  /** The dst entry of t after visits in block order: the latest visit reaching t decides it. */
  lemma DstFromVisits(S0: StarterLookups, vs: seq<Visit>, S: StarterLookups, t: int)
    requires Walked(S0, vs, S) && S0.dst == map[]
    requires forall a, b :: 0 <= a < b < |vs| ==> vs[a].j <= vs[b].j
    ensures t in S.dst <==> exists v :: v in vs && v.t == t && t <= v.bs
    ensures t in S.dst ==> exists v :: (v in vs && v.t == t && t <= v.bs && S.dst[t] == v.j % 2
      && forall w :: w in vs && w.t == t && t <= w.bs ==> w.j <= v.j)
  {
    VisitedDst(S0, vs, t);
    var i := LastDst(vs, t);
    if i >= 0 {
      assert vs[i] in vs;
      forall w | w in vs && w.t == t && t <= w.bs ensures w.j <= vs[i].j {
        var n :| 0 <= n < |vs| && vs[n] == w;
      }
    } else {
      forall w | w in vs ensures !(w.t == t && t <= w.bs) {
        var n :| 0 <= n < |vs| && vs[n] == w;
      }
    }
  }

  /** `starter_dst_lookup` after the main lookup loop: target t has an entry
      exactly when some visit reaches it at or before its block start, and
      the entry is the parity of the latest such block, since later blocks
      overwrite earlier ones. */
  lemma StarterDstExact(starts: seq<int>, stops: seq<int>, skip: seq<int>, votes: map<int, seq<int>>,
                        minOffset: int, S: StarterLookups, t: int)
    requires |starts| == |stops|
    requires Walked(EmptyStarters(minOffset), AllVisits(starts, stops, skip, votes, |starts|), S)
    ensures t in S.dst <==> exists v :: IsVisit(starts, stops, skip, votes, |starts|, v) && v.t == t && t <= v.bs
    ensures t in S.dst ==> exists v :: (IsVisit(starts, stops, skip, votes, |starts|, v) && v.t == t && t <= v.bs
      && S.dst[t] == v.j % 2
      && forall w :: IsVisit(starts, stops, skip, votes, |starts|, w) && w.t == t && t <= w.bs ==> w.j <= v.j)
  {
    AllVisitsExact(starts, stops, skip, votes);
    DstFromVisits(EmptyStarters(minOffset), AllVisits(starts, stops, skip, votes, |starts|), S, t);
  }

  /** The offset entry of t after visits in block order: the latest visit strictly before its block start decides it. */
  lemma OffsetFromVisits(S0: StarterLookups, vs: seq<Visit>, S: StarterLookups, t: int)
    requires Walked(S0, vs, S) && S0.offset == map[]
    requires forall a, b :: 0 <= a < b < |vs| ==> vs[a].j <= vs[b].j
    ensures t in S.offset <==> exists v :: v in vs && v.t == t && t < v.bs
    ensures t in S.offset ==> exists v :: (v in vs && v.t == t && t < v.bs && S.offset[t] == v.bs - t
      && forall w :: w in vs && w.t == t && t < w.bs ==> w.j <= v.j)
  {
    VisitedOffset(S0, vs, t);
    var i := LastOffset(vs, t);
    if i >= 0 {
      assert vs[i] in vs;
      forall w | w in vs && w.t == t && t < w.bs ensures w.j <= vs[i].j {
        var n :| 0 <= n < |vs| && vs[n] == w;
      }
    } else {
      forall w | w in vs ensures !(w.t == t && t < w.bs) {
        var n :| 0 <= n < |vs| && vs[n] == w;
      }
    }
  }

  /** `starter_z_to_offset` after the main lookup loop: target t has an entry
      exactly when some visit lies strictly before its block start, and the
      entry is the distance to the latest such block start. */
  lemma StarterOffsetExact(starts: seq<int>, stops: seq<int>, skip: seq<int>, votes: map<int, seq<int>>,
                           minOffset: int, S: StarterLookups, t: int)
    requires |starts| == |stops|
    requires Walked(EmptyStarters(minOffset), AllVisits(starts, stops, skip, votes, |starts|), S)
    ensures t in S.offset <==> exists v :: IsVisit(starts, stops, skip, votes, |starts|, v) && v.t == t && t < v.bs
    ensures t in S.offset ==> exists v :: (IsVisit(starts, stops, skip, votes, |starts|, v) && v.t == t && t < v.bs
      && S.offset[t] == v.bs - t
      && forall w :: IsVisit(starts, stops, skip, votes, |starts|, w) && w.t == t && t < w.bs ==> w.j <= v.j)
  {
    AllVisitsExact(starts, stops, skip, votes);
    OffsetFromVisits(EmptyStarters(minOffset), AllVisits(starts, stops, skip, votes, |starts|), S, t);
  }

  /** `starter_offset_to_z_range` after the main lookup loop: one bucket per
      offset of `range(min_offset, 0)`, bucket o holding exactly the targets
      `-o` before their block start. */
  lemma StarterBucketsExact(starts: seq<int>, stops: seq<int>, skip: seq<int>, votes: map<int, seq<int>>,
                            minOffset: int, S: StarterLookups, o: int, t: int)
    requires |starts| == |stops|
    requires Walked(EmptyStarters(minOffset), AllVisits(starts, stops, skip, votes, |starts|), S)
    ensures o in S.byOffset <==> minOffset <= o < 0
    ensures o in S.byOffset ==>
      (t in S.byOffset[o] <==> exists v :: IsVisit(starts, stops, skip, votes, |starts|, v) && v.t == t && t < v.bs && t - v.bs == o)
  {
    var vs := AllVisits(starts, stops, skip, votes, |starts|);
    AllVisitsExact(starts, stops, skip, votes);
    if o in S.byOffset {
      VisitedBucket(EmptyStarters(minOffset), vs, o, t);
    }
  }

  /** `overlap_copy_range` after the main lookup loop: exactly the targets at
      or before the start of a block other than the first. */
  lemma OverlapCopyExact(starts: seq<int>, stops: seq<int>, skip: seq<int>, votes: map<int, seq<int>>,
                         minOffset: int, S: StarterLookups, t: int)
    requires |starts| == |stops|
    requires Walked(EmptyStarters(minOffset), AllVisits(starts, stops, skip, votes, |starts|), S)
    ensures t in S.overlapCopy <==> exists v :: IsVisit(starts, stops, skip, votes, |starts|, v) && v.t == t && t <= v.bs && v.j > 0
  {
    var vs := AllVisits(starts, stops, skip, votes, |starts|);
    AllVisitsExact(starts, stops, skip, votes);
    VisitedOverlap(EmptyStarters(minOffset), vs, t);
  }

  lemma StarterStep(m: map<int, int>, b: map<int, seq<int>>, starts: seq<int>, minOffset: int, bs: int, t: int)
    requires StarterKeys(b, minOffset) && StarterOffsetsSound(m, starts, minOffset) && StarterBucketsSound(b, m, starts)
    requires bs in starts && minOffset <= t - bs < 0
    ensures var m2 := m[t := bs - t];
      var b2 := b[t - bs := AddTo(b[t - bs], t)];
      StarterKeys(b2, minOffset) && StarterOffsetsSound(m2, starts, minOffset) && StarterBucketsSound(b2, m2, starts)
  {
    var m2 := m[t := bs - t];
    var b2 := b[t - bs := AddTo(b[t - bs], t)];
    forall o, x {:trigger x in b2[o]} | o in b2 && x in b2[o] ensures x - o in starts && x in m2 {
      if o == t - bs {
        assert x in AddTo(b[t - bs], t);
        if x == t {
          assert x - o == bs;
        } else {
          assert x in b[o];
          assert x - o in starts && x in m;
        }
      } else {
        assert x in b[o];
        assert x - o in starts && x in m;
      }
    }
  }

  lemma OverlapStep(s: seq<int>, starts: seq<int>, j: int, t: int)
    requires OverlapSound(s, starts)
    requires StrictlyIncreasing(starts) && 0 < j < |starts| && t <= starts[j]
    ensures OverlapSound(AddTo(s, t), starts)
  {
    if j < |starts| - 1 {
      assert starts[j] < starts[|starts| - 1];
    }
  }

  /** The key `tgt_z - bs` of `starter_offset_to_z_range` always exists: a
      target of a section after bs lies less than `-min_offset` before bs. */
  lemma VisitTargetSound(S: StarterLookups, j: int, bs: int, z: int, off: int, starts: seq<int>, minOffset: int)
    requires StrictlyIncreasing(starts) && 0 <= j < |starts| && starts[j] == bs && bs < z && minOffset <= off
    requires StarterSound(S, starts, minOffset)
    ensures z + off < bs ==> z + off - bs in S.byOffset
    ensures StarterSound(VisitTarget(S, j, bs, z + off), starts, minOffset)
  {
    var t := z + off;
    var S1 := if t <= bs then S.(dst := S.dst[t := j % 2]) else S;
    var S2 := if t <= bs && j > 0 then S1.(overlapCopy := AddTo(S1.overlapCopy, t)) else S1;
    if t <= bs && j > 0 {
      OverlapStep(S.overlapCopy, starts, j, t);
    }
    assert StarterSound(S2, starts, minOffset);
    if t < bs {
      assert bs in starts;
      StarterStep(S2.offset, S2.byOffset, starts, minOffset, bs, t);
    }
  }

  /** Every visit of vs is a target after `min_offset` of a block start. */
  ghost predicate VisitsFrom(vs: seq<Visit>, starts: seq<int>, minOffset: int) {
    forall v :: v in vs ==> 0 <= v.j < |starts| && starts[v.j] == v.bs && minOffset < v.t - v.bs
  }

  lemma SectionVisitsFrom(j: int, bs: int, z: int, offs: seq<int>, starts: seq<int>, minOffset: int)
    requires 0 <= j < |starts| && starts[j] == bs && bs < z
    requires forall n :: 0 <= n < |offs| ==> minOffset <= offs[n]
    ensures VisitsFrom(SectionVisits(j, bs, z, offs), starts, minOffset)
  {
    var vs := SectionVisits(j, bs, z, offs);
    forall v | v in vs ensures 0 <= v.j < |starts| && starts[v.j] == v.bs && minOffset < v.t - v.bs {
      SectionVisitsMember(j, bs, z, offs, v);
      var n :| 0 <= n < |offs| && offs[n] == v.t - z;
    }
  }

  lemma WalkedSound(S: StarterLookups, vs: seq<Visit>, S2: StarterLookups, starts: seq<int>, minOffset: int)
    requires StrictlyIncreasing(starts) && StarterSound(S, starts, minOffset) && VisitsFrom(vs, starts, minOffset)
    requires Walked(S, vs, S2)
    ensures StarterSound(S2, starts, minOffset)
  {
    VisitedSound(S, vs, starts, minOffset);
  }

  /** The starter lookups the main loop builds are sound. */
  lemma StartersSound(starts: seq<int>, stops: seq<int>, skip: seq<int>, votes: map<int, seq<int>>, minOffset: int, S: StarterLookups)
    requires Consecutive(starts, stops) && VotesAbove(votes, minOffset)
    requires Walked(EmptyStarters(minOffset), AllVisits(starts, stops, skip, votes, |starts|), S)
    ensures StarterSound(S, starts, minOffset)
  {
    var vs := AllVisits(starts, stops, skip, votes, |starts|);
    forall v | v in vs ensures 0 <= v.j < |starts| && starts[v.j] == v.bs && minOffset < v.t - v.bs {
      AllVisitsMember(starts, stops, skip, votes, |starts|, v);
      var z :| starts[v.j] < z <= stops[v.j] && z !in skip && z in votes && v.t - z in votes[z];
      var n :| 0 <= n < |votes[z]| && votes[z][n] == v.t - z;
    }
    WalkedSound(EmptyStarters(minOffset), vs, S, starts, minOffset);
  }

  /** Visits of such targets keep the starter lookups sound. */
  lemma {:induction false} VisitedSound(S: StarterLookups, vs: seq<Visit>, starts: seq<int>, minOffset: int)
    requires StrictlyIncreasing(starts) && StarterSound(S, starts, minOffset) && VisitsFrom(vs, starts, minOffset)
    ensures Keyed(S.byOffset, vs) && StarterSound(Visited(S, vs), starts, minOffset)
    decreases |vs|
  {
    if vs != [] {
      var p, v := vs[..|vs| - 1], vs[|vs| - 1];
      assert v in vs;
      assert VisitsFrom(p, starts, minOffset) by {
        forall w | w in p ensures w in vs {
        }
      }
      VisitedSound(S, p, starts, minOffset);
      VisitTargetSound(Visited(S, p), v.j, v.bs, v.bs + 1, v.t - v.bs - 1, starts, minOffset);
    }
  }

  /** The innermost loop: the vote targets of one non-skipped section z of
      block j. */
  method VisitTargets(S: StarterLookups, j: int, bs: int, z: int, offs: seq<int>, ghost minOffset: int)
    returns (S2: StarterLookups)
    requires bs < z && forall n :: 0 <= n < |offs| ==> minOffset <= offs[n]
    requires StarterKeys(S.byOffset, minOffset)
    ensures Walked(S, SectionVisits(j, bs, z, offs), S2)
  {
    S2 := S;
    var n := 0;
    assert SectionVisits(j, bs, z, offs[..0]) == [];
    while n < |offs|
      invariant 0 <= n <= |offs|
      invariant Walked(S, SectionVisits(j, bs, z, offs[..n]), S2)
    {
      SectionVisitsStep(S, S2, j, bs, z, offs, n, minOffset);
      S2 := VisitTarget(S2, j, bs, z + offs[n]);
      n := n + 1;
    }
    assert offs[..n] == offs;
  }



  // Growth of the block side: what is added stays.

  ghost predicate KeepsValues(m: map<int, int>, m2: map<int, int>) {
    forall x :: x in m ==> x in m2 && m2[x] == m[x]
  }

  ghost predicate KeepsBuckets(b: map<int, seq<int>>, b2: map<int, seq<int>>) {
    forall i, x :: i in b && x in b[i] ==> i in b2 && x in b2[i]
  }

  ghost predicate BlockGrows(B: BlockLookups, B2: BlockLookups) {
    && KeepsValues(B.start, B2.start)
    && KeepsValues(B.dst, B2.dst)
    && KeepsBuckets(B.byOffset, B2.byOffset)
  }

  /** Section z was assigned to block j starting at bs. */
  ghost predicate SectionDone(B: BlockLookups, j: int, bs: int, z: int, skip: seq<int>) {
    && z in B.start && B.start[z] == bs
    && z in B.dst && B.dst[z] == j % 2
    && (z !in skip ==> z - bs in B.byOffset && z in B.byOffset[z - bs])
  }

  /** Section z after the start bs can be visited without a `KeyError`. */
  predicate SectionOk(z: int, bs: int, skip: seq<int>, votes: map<int, seq<int>>, blockSize: int) {
    z in skip || (z - bs < blockSize + 10 && z in votes)
  }

  /** The `KeyError` visiting section z raises otherwise: the block bucket is
      looked up before the votes. */
  function SectionError(z: int, bs: int, blockSize: int): PlanError {
    if z - bs >= blockSize + 10 then BlockOffsetKey(z - bs) else MissingParams(z)
  }

  ghost predicate VotesAbove(votes: map<int, seq<int>>, minOffset: int) {
    forall x, n :: x in votes && 0 <= n < |votes[x]| ==> minOffset <= votes[x][n]
  }

  /** One section z of block j (start bs), `i = z - bs > 0`. */
  method VisitSection(B: BlockLookups, S: StarterLookups, j: int, bs: int, z: int, votes: map<int, seq<int>>,
                      skip: seq<int>, blockSize: int, ghost starts: seq<int>, ghost minOffset: int)
    returns (res: Result<(BlockLookups, StarterLookups), PlanError>)
    requires StrictlyIncreasing(starts) && 0 <= j < |starts| && starts[j] == bs && bs < z
    requires VotesAbove(votes, minOffset)
    requires BlockSound(B, starts, skip, blockSize, z) && StarterKeys(S.byOffset, minOffset)
    ensures res.Ok? <==> SectionOk(z, bs, skip, votes, blockSize)
    ensures res.Err? ==> res.error == SectionError(z, bs, blockSize)
    ensures res.Ok? ==> var (B2, S2) := res.value;
      && BlockSound(B2, starts, skip, blockSize, z + 1)
      && BlockGrows(B, B2) && SectionDone(B2, j, bs, z, skip)
      && Walked(S, SectionVisitsOf(j, bs, z, skip, votes), S2)
  {
    var B2 := AssignSection(B, j, bs, z, skip, blockSize, starts);
    if z in skip {
      return Ok((B2, S));
    }
    var i := z - bs;
    if i !in B2.byOffset {
      return Err(BlockOffsetKey(i));
    }
    var B3 := B2.(byOffset := B2.byOffset[i := AddTo(B2.byOffset[i], z)]);
    BucketStep(B2.byOffset, B2.start, skip, z, bs);
    if z !in votes {
      return Err(MissingParams(z));
    }
    var S2 := VisitTargets(S, j, bs, z, votes[z], minOffset);
    res := Ok((B3, S2));
  }

  /** `block_start_lookup[z] = bs` and `block_dst_lookup[z] = block_dsts[k % 2]`. */
  function AssignSection(B: BlockLookups, j: int, bs: int, z: int, ghost skip: seq<int>, ghost blockSize: int, ghost starts: seq<int>): (B2: BlockLookups)
    requires 0 <= j < |starts| && starts[j] == bs && BlockSound(B, starts, skip, blockSize, z)
    ensures BlockSound(B2, starts, skip, blockSize, z + 1) && BlockGrows(B, B2)
    ensures z in B2.start && B2.start[z] == bs && z in B2.dst && B2.dst[z] == j % 2 && B2.byOffset == B.byOffset
  {
    assert bs in starts;
    var B2 := B.(start := B.start[z := bs], dst := B.dst[z := j % 2]);
    assert BucketsSound(B2.byOffset, B2.start, skip) by {
      forall i, x {:trigger x in B2.byOffset[i]} | i in B2.byOffset && x in B2.byOffset[i]
        ensures x !in skip && x in B2.start && x - B2.start[x] == i
      {
        assert x in B.start && x < z;
      }
    }
    B2
  }

  /** `block_offset_to_z_range[z - bs].add(z)` keeps the buckets sound. */
  lemma BucketStep(m: map<int, seq<int>>, start: map<int, int>, skip: seq<int>, z: int, bs: int)
    requires BucketsSound(m, start, skip) && z - bs in m && z !in skip && z in start && start[z] == bs
    ensures var m2 := m[z - bs := AddTo(m[z - bs], z)];
      BucketsSound(m2, start, skip) && KeepsBuckets(m, m2) && z in m2[z - bs]
  {
    var m2 := m[z - bs := AddTo(m[z - bs], z)];
    forall k, x {:trigger x in m2[k]} | k in m2 && x in m2[k] ensures x !in skip && x in start && x - start[x] == k {
      if k == z - bs && x == z {
      } else {
        assert x in m[k];
      }
    }
  }

  /** Sections `(bs, z)` of block j are done. */
  ghost predicate PrefixDone(B: BlockLookups, j: int, bs: int, z: int, skip: seq<int>) {
    forall x :: bs < x < z ==> SectionDone(B, j, bs, x, skip)
  }

  predicate PrefixOk(bs: int, z: int, skip: seq<int>, votes: map<int, seq<int>>, blockSize: int) {
    forall x :: bs < x < z ==> SectionOk(x, bs, skip, votes, blockSize)
  }

  lemma PrefixDoneGrows(B: BlockLookups, B2: BlockLookups, j: int, bs: int, z: int, skip: seq<int>)
    requires PrefixDone(B, j, bs, z, skip) && BlockGrows(B, B2)
    ensures PrefixDone(B2, j, bs, z, skip)
  {
    forall x | bs < x < z ensures SectionDone(B2, j, bs, x, skip) {
      assert SectionDone(B, j, bs, x, skip);
    }
  }

  /** `for i, z in enumerate(range(bs, be + 1)): if i > 0: ...` for block j. */
  method VisitBlock(B: BlockLookups, S: StarterLookups, j: int, bs: int, be: int, votes: map<int, seq<int>>,
                    skip: seq<int>, blockSize: int, ghost starts: seq<int>, ghost minOffset: int)
    returns (res: Result<(BlockLookups, StarterLookups), PlanError>)
    requires StrictlyIncreasing(starts) && 0 <= j < |starts| && starts[j] == bs < be
    requires VotesAbove(votes, minOffset)
    requires BlockSound(B, starts, skip, blockSize, bs + 1) && StarterKeys(S.byOffset, minOffset)
    ensures res.Ok? <==> PrefixOk(bs, be + 1, skip, votes, blockSize)
    ensures res.Err? ==> exists z :: bs < z <= be && !SectionOk(z, bs, skip, votes, blockSize) && res.error == SectionError(z, bs, blockSize)
    ensures res.Ok? ==> var (B2, S2) := res.value;
      && BlockSound(B2, starts, skip, blockSize, be + 1)
      && BlockGrows(B, B2) && PrefixDone(B2, j, bs, be + 1, skip)
      && Walked(S, BlockVisits(j, bs, bs + 1, be + 1, skip, votes), S2)
  {
    var B2, S2 := B, S;
    var z := bs + 1;
    while z <= be
      invariant bs < z <= be + 1
      invariant BlockProgress(B, S, B2, S2, j, bs, z, skip, votes, blockSize, starts)
      invariant PrefixOk(bs, z, skip, votes, blockSize)
    {
      WalkedStarterKeys(S, BlockVisits(j, bs, bs + 1, z, skip, votes), S2, minOffset);
      var r := VisitSection(B2, S2, j, bs, z, votes, skip, blockSize, starts, minOffset);
      if r.Err? {
        assert !SectionOk(z, bs, skip, votes, blockSize) && r.error == SectionError(z, bs, blockSize);
        assert !PrefixOk(bs, be + 1, skip, votes, blockSize);
        return Err(r.error);
      }
      BlockProgressStep(B, S, B2, S2, r.value.0, r.value.1, j, bs, z, skip, votes, blockSize, starts);
      B2, S2 := r.value.0, r.value.1;
      z := z + 1;
    }
    assert z == be + 1;
    res := Ok((B2, S2));
  }

  /** Block j's sections `(bs, z)` are visited: the block lookups are sound
      and grown, those sections are done, and the starter lookups have
      advanced by their target visits. */
  ghost predicate BlockProgress(B: BlockLookups, S: StarterLookups, B2: BlockLookups, S2: StarterLookups, j: int, bs: int, z: int,
                                skip: seq<int>, votes: map<int, seq<int>>, blockSize: int, starts: seq<int>) {
    && BlockSound(B2, starts, skip, blockSize, z)
    && BlockGrows(B, B2) && PrefixDone(B2, j, bs, z, skip)
    && Walked(S, BlockVisits(j, bs, bs + 1, z, skip, votes), S2)
  }

  lemma BlockProgressStep(B: BlockLookups, S: StarterLookups, B2: BlockLookups, S2: StarterLookups, B3: BlockLookups, S3: StarterLookups,
                          j: int, bs: int, z: int, skip: seq<int>, votes: map<int, seq<int>>, blockSize: int, starts: seq<int>)
    requires bs < z && BlockProgress(B, S, B2, S2, j, bs, z, skip, votes, blockSize, starts)
    requires BlockSound(B3, starts, skip, blockSize, z + 1) && BlockGrows(B2, B3) && SectionDone(B3, j, bs, z, skip)
    requires Walked(S2, SectionVisitsOf(j, bs, z, skip, votes), S3)
    ensures BlockProgress(B, S, B3, S3, j, bs, z + 1, skip, votes, blockSize, starts)
  {
    PrefixDoneGrows(B2, B3, j, bs, z, skip);
    BlockVisitsStep(S, S2, S3, j, bs, z, skip, votes);
  }

  /** Visits keep the starter bucket keys. */
  lemma WalkedStarterKeys(S: StarterLookups, vs: seq<Visit>, S2: StarterLookups, minOffset: int)
    requires Walked(S, vs, S2) && StarterKeys(S.byOffset, minOffset)
    ensures StarterKeys(S2.byOffset, minOffset)
  {
  }

  lemma BlockVisitsStep(S: StarterLookups, S2: StarterLookups, S3: StarterLookups, j: int, bs: int, z: int, skip: seq<int>, votes: map<int, seq<int>>)
    requires bs < z
    requires Walked(S, BlockVisits(j, bs, bs + 1, z, skip, votes), S2)
    requires Walked(S2, SectionVisitsOf(j, bs, z, skip, votes), S3)
    ensures Walked(S, BlockVisits(j, bs, bs + 1, z + 1, skip, votes), S3)
  {
    var a := BlockVisits(j, bs, bs + 1, z, skip, votes);
    var b := SectionVisitsOf(j, bs, z, skip, votes);
    assert Keyed(S.byOffset, b) by {
      forall v | v in b && v.t < v.bs ensures v.t - v.bs in S.byOffset {
        assert v.t - v.bs in S2.byOffset;
      }
    }
    VisitedConcat(S, a, b);
    assert BlockVisits(j, bs, bs + 1, z + 1, skip, votes) == a + b;
  }

  /** The first k blocks are done. */
  ghost predicate BlocksDone(B: BlockLookups, starts: seq<int>, stops: seq<int>, skip: seq<int>, k: int)
    requires 0 <= k <= |starts| == |stops|
  {
    forall j, z :: 0 <= j < k && starts[j] < z <= stops[j] ==> SectionDone(B, j, starts[j], z, skip)
  }

  /** No section of the first k blocks raises a `KeyError`. */
  predicate BlocksOk(starts: seq<int>, stops: seq<int>, skip: seq<int>, votes: map<int, seq<int>>, blockSize: int, k: int)
    requires 0 <= k <= |starts| == |stops|
  {
    forall j, z :: 0 <= j < k && starts[j] < z <= stops[j] ==> SectionOk(z, starts[j], skip, votes, blockSize)
  }

  /** Block starts and stops as `BlockBounds` produces them. */
  predicate Consecutive(starts: seq<int>, stops: seq<int>) {
    && |starts| == |stops| >= 1
    && StrictlyIncreasing(starts)
    && (forall k :: 0 <= k < |starts| - 1 ==> stops[k] == starts[k + 1])
    && starts[|starts| - 1] < stops[|stops| - 1]
  }

  lemma BlocksDoneStep(B: BlockLookups, B2: BlockLookups, starts: seq<int>, stops: seq<int>, skip: seq<int>, k: int)
    requires 0 <= k < |starts| == |stops|
    requires BlocksDone(B, starts, stops, skip, k) && BlockGrows(B, B2)
    requires PrefixDone(B2, k, starts[k], stops[k] + 1, skip)
    ensures BlocksDone(B2, starts, stops, skip, k + 1)
  {
    forall j, z | 0 <= j < k + 1 && starts[j] < z <= stops[j] ensures SectionDone(B2, j, starts[j], z, skip) {
      if j < k {
        assert SectionDone(B, j, starts[j], z, skip);
      }
    }
  }

  /** The bound below which sections are assigned once k blocks are done. */
  function DoneBound(starts: seq<int>, stops: seq<int>, k: int): int
    requires 0 <= k <= |starts| == |stops| && |starts| >= 1
  {
    if k < |starts| then starts[k] + 1 else stops[k - 1] + 1
  }

  /** The main lookup loop over `zip(block_starts, block_stops)`, with the
      (already adjusted) `vvote_lookup`. */
  method BuildLookups(starts: seq<int>, stops: seq<int>, votes: map<int, seq<int>>, skip: seq<int>,
                      minOffset: int, blockSize: int)
    returns (res: Result<(BlockLookups, StarterLookups), PlanError>)
    requires Consecutive(starts, stops) && VotesAbove(votes, minOffset)
    ensures res.Ok? <==> BlocksOk(starts, stops, skip, votes, blockSize, |starts|)
    ensures res.Err? ==> exists j, z :: (0 <= j < |starts| && starts[j] < z <= stops[j]
      && !SectionOk(z, starts[j], skip, votes, blockSize) && res.error == SectionError(z, starts[j], blockSize))
    ensures res.Ok? ==> var (B, S) := res.value;
      && BlockSound(B, starts, skip, blockSize, stops[|stops| - 1] + 1) && StarterSound(S, starts, minOffset)
      && BlocksDone(B, starts, stops, skip, |starts|)
      && Walked(EmptyStarters(minOffset), AllVisits(starts, stops, skip, votes, |starts|), S)
  {
    var B, S := EmptyBlocks(blockSize), EmptyStarters(minOffset);
    var k := 0;
    while k < |starts|
      invariant 0 <= k <= |starts|
      invariant BlockSound(B, starts, skip, blockSize, DoneBound(starts, stops, k))
      invariant BlocksDone(B, starts, stops, skip, k)
      invariant BlocksOk(starts, stops, skip, votes, blockSize, k)
      invariant Walked(EmptyStarters(minOffset), AllVisits(starts, stops, skip, votes, k), S)
    {
      WalkedKeys(minOffset, AllVisits(starts, stops, skip, votes, k), S);
      var r := BlockStep(B, S, k, starts, stops, votes, skip, minOffset, blockSize);
      if r.Err? {
        return Err(r.error);
      }
      AllVisitsStep(EmptyStarters(minOffset), S, r.value.1, starts, stops, skip, votes, k);
      B, S := r.value.0, r.value.1;
      k := k + 1;
    }
    StartersSound(starts, stops, skip, votes, minOffset, S);
    res := Ok((B, S));
  }

  /** One pass of the main lookup loop, with the facts it keeps. */
  method BlockStep(B: BlockLookups, S: StarterLookups, k: int, starts: seq<int>, stops: seq<int>,
                   votes: map<int, seq<int>>, skip: seq<int>, ghost minOffset: int, blockSize: int)
    returns (res: Result<(BlockLookups, StarterLookups), PlanError>)
    requires Consecutive(starts, stops) && VotesAbove(votes, minOffset) && 0 <= k < |starts|
    requires BlockSound(B, starts, skip, blockSize, DoneBound(starts, stops, k)) && StarterKeys(S.byOffset, minOffset)
    requires BlocksDone(B, starts, stops, skip, k) && BlocksOk(starts, stops, skip, votes, blockSize, k)
    ensures res.Ok? <==> BlocksOk(starts, stops, skip, votes, blockSize, k + 1)
    ensures res.Err? ==> exists z :: (starts[k] < z <= stops[k]
      && !SectionOk(z, starts[k], skip, votes, blockSize) && res.error == SectionError(z, starts[k], blockSize))
    ensures res.Ok? ==> var (B2, S2) := res.value;
      && BlockSound(B2, starts, skip, blockSize, DoneBound(starts, stops, k + 1))
      && BlocksDone(B2, starts, stops, skip, k + 1)
      && Walked(S, BlockVisits(k, starts[k], starts[k] + 1, stops[k] + 1, skip, votes), S2)
  {
    res := VisitBlock(B, S, k, starts[k], stops[k], votes, skip, blockSize, starts, minOffset);
    BlocksOkStep(starts, stops, skip, votes, blockSize, k);
    if res.Ok? {
      BlocksDoneStep(B, res.value.0, starts, stops, skip, k);
    }
  }

  /** The visits keep the buckets `range(min_offset, 0)`. */
  lemma WalkedKeys(minOffset: int, vs: seq<Visit>, S: StarterLookups)
    requires Walked(EmptyStarters(minOffset), vs, S)
    ensures StarterKeys(S.byOffset, minOffset)
  {
  }

  lemma AllVisitsStep(S0: StarterLookups, S: StarterLookups, S2: StarterLookups, starts: seq<int>, stops: seq<int>,
                      skip: seq<int>, votes: map<int, seq<int>>, k: int)
    requires 0 <= k < |starts| == |stops|
    requires Walked(S0, AllVisits(starts, stops, skip, votes, k), S)
    requires Walked(S, BlockVisits(k, starts[k], starts[k] + 1, stops[k] + 1, skip, votes), S2)
    ensures Walked(S0, AllVisits(starts, stops, skip, votes, k + 1), S2)
  {
    var a := AllVisits(starts, stops, skip, votes, k);
    var b := BlockVisits(k, starts[k], starts[k] + 1, stops[k] + 1, skip, votes);
    assert Keyed(S0.byOffset, b) by {
      forall v | v in b && v.t < v.bs ensures v.t - v.bs in S0.byOffset {
        assert v.t - v.bs in S.byOffset;
      }
    }
    VisitedConcat(S0, a, b);
  }

  lemma BlocksOkStep(starts: seq<int>, stops: seq<int>, skip: seq<int>, votes: map<int, seq<int>>, blockSize: int, k: int)
    requires 0 <= k < |starts| == |stops| && BlocksOk(starts, stops, skip, votes, blockSize, k)
    ensures BlocksOk(starts, stops, skip, votes, blockSize, k + 1) <==> PrefixOk(starts[k], stops[k] + 1, skip, votes, blockSize)
  {
    if PrefixOk(starts[k], stops[k] + 1, skip, votes, blockSize) {
      forall j, z | 0 <= j < k + 1 && starts[j] < z <= stops[j] ensures SectionOk(z, starts[j], skip, votes, blockSize) {
        if j == k {
          assert starts[k] < z < stops[k] + 1;
        }
      }
    }
  }

  /** Every section of block k is looked up under that block's start, and
      neighbouring blocks write to different destinations. */
  lemma AdjacentBlocksDiffer(B: BlockLookups, starts: seq<int>, stops: seq<int>, skip: seq<int>)
    requires Consecutive(starts, stops) && BlocksDone(B, starts, stops, skip, |starts|)
    ensures forall k, z :: 0 <= k < |starts| && starts[k] < z <= stops[k] ==> z in B.dst && B.dst[z] == k % 2
    ensures forall k, z1, z2 :: (0 <= k < |starts| - 1 && starts[k] < z1 <= stops[k] && starts[k + 1] < z2 <= stops[k + 1]
      ==> B.dst[z1] != B.dst[z2])
  {
    forall k, z | 0 <= k < |starts| && starts[k] < z <= stops[k] ensures z in B.dst && B.dst[z] == k % 2 {
      assert SectionDone(B, k, starts[k], z, skip);
    }
  }

  // ---------------------------------------------------------------------------
  // Restart filtering

  /** `starter_restart`: the restart offset itself when it is not positive,
      otherwise the sentinel -100. */
  function StarterRestart(restart: int): int {
    if restart <= 0 then restart else -100
  }

  /** `{k: v for k, v in d.items() if k >= restart}` on the dict's key order,
      and `[r for r in xs if r >= restart]` on a list. */
  function AtLeast(keys: seq<int>, restart: int): (r: seq<int>)
    ensures forall x :: x in r <==> x in keys && x >= restart
    ensures forall n :: 0 <= n < |r| ==> r[n] in keys && r[n] >= restart
    ensures |r| <= |keys|
  {
    if keys == [] then []
    else if keys[0] >= restart then [keys[0]] + AtLeast(keys[1..], restart)
    else AtLeast(keys[1..], restart)
  }

  /** The filter keeps the order of an increasing key list: `sorted(...)` of
      the kept block offsets is their order in `range(1, block_size + 10)`. */
  lemma {:induction false} AtLeastIncreasing(keys: seq<int>, restart: int)
    requires StrictlyIncreasing(keys)
    decreases |keys|
    ensures StrictlyIncreasing(AtLeast(keys, restart))
  {
    if keys != [] {
      var rest := keys[1..];
      assert StrictlyIncreasing(rest) by {
        forall i, j | 0 <= i < j < |rest| ensures rest[i] < rest[j] {
          assert rest[i] == keys[i + 1] && rest[j] == keys[j + 1];
        }
      }
      AtLeastIncreasing(rest, restart);
      if keys[0] >= restart {
        var r := [keys[0]] + AtLeast(rest, restart);
        forall i, j | 0 <= i < j < |r| ensures r[i] < r[j] {
          if i == 0 {
            assert r[j] in rest;
            var m :| 0 <= m < |rest| && rest[m] == r[j];
            assert keys[0] < keys[m + 1];
          }
        }
      }
    }
  }

  /** The filter keeps the order of a decreasing list too. */
  lemma {:induction false} AtLeastDecreasing(keys: seq<int>, restart: int)
    requires StrictlyDecreasing(keys)
    decreases |keys|
    ensures StrictlyDecreasing(AtLeast(keys, restart))
  {
    if keys != [] {
      var rest := keys[1..];
      assert StrictlyDecreasing(rest) by {
        forall i, j | 0 <= i < j < |rest| ensures rest[i] > rest[j] {
          assert rest[i] == keys[i + 1] && rest[j] == keys[j + 1];
        }
      }
      AtLeastDecreasing(rest, restart);
      if keys[0] >= restart {
        var r := [keys[0]] + AtLeast(rest, restart);
        forall i, j | 0 <= i < j < |r| ensures r[i] > r[j] {
          if i == 0 {
            assert r[j] in rest;
            var m :| 0 <= m < |rest| && rest[m] == r[j];
            assert keys[0] > keys[m + 1];
          }
        }
      }
    }
  }

  /** `{k: v for k, v in d.items() if k <= restart}`, on the dict's key order. */
  function AtMost(keys: seq<int>, restart: int): (r: seq<int>)
    ensures forall x :: x in r <==> x in keys && x <= restart
    ensures forall n :: 0 <= n < |r| ==> r[n] in keys && r[n] <= restart
    ensures |r| <= |keys|
  {
    if keys == [] then []
    else if keys[0] <= restart then [keys[0]] + AtMost(keys[1..], restart)
    else AtMost(keys[1..], restart)
  }

  /** `[z for z_range in d.values() for z in z_range]` over the kept keys. */
  function Gather(buckets: map<int, seq<int>>, keys: seq<int>): (r: seq<int>)
    requires forall n :: 0 <= n < |keys| ==> keys[n] in buckets
    ensures forall z :: z in r ==> exists n :: 0 <= n < |keys| && z in buckets[keys[n]]
    ensures forall n, z :: 0 <= n < |keys| && z in buckets[keys[n]] ==> z in r
  {
    if keys == [] then []
    else
      var rest := Gather(buckets, keys[1..]);
      assert forall n, z :: 1 <= n < |keys| && z in buckets[keys[n]] ==> z in rest by {
        forall n, z | 1 <= n < |keys| && z in buckets[keys[n]] ensures z in rest {
          assert keys[1..][n - 1] == keys[n];
        }
      }
      assert forall z :: z in rest ==> exists n :: 0 <= n < |keys| && z in buckets[keys[n]] by {
        forall z | z in rest ensures exists n :: 0 <= n < |keys| && z in buckets[keys[n]] {
          var m :| 0 <= m < |keys| - 1 && z in buckets[keys[1..][m]];
          assert keys[1..][m] == keys[m + 1];
        }
      }
      buckets[keys[0]] + rest
  }

  /** `copy_range`: the block starts when restarting at offset 0, else nothing. */
  function CopyRange(starts: seq<int>, restart: int): (r: seq<int>)
    ensures restart == 0 ==> r == starts
    ensures restart != 0 ==> r == []
  {
    if restart == 0 then starts else []
  }

  /** Restarting at offset r re-aligns only non-skipped sections whose offset
      from their block start is at least r ... */
  lemma RestartBlockRangeSound(B: BlockLookups, starts: seq<int>, skip: seq<int>, blockSize: int, bound: int, restart: int)
    requires BlockSound(B, starts, skip, blockSize, bound)
    ensures var r := Gather(B.byOffset, AtLeast(Range(1, blockSize + 10), restart));
      forall z :: z in r ==> z !in skip && z in B.start && z - B.start[z] >= restart
  {
    var keys := AtLeast(Range(1, blockSize + 10), restart);
    var r := Gather(B.byOffset, keys);
    forall z | z in r ensures z !in skip && z in B.start && z - B.start[z] >= restart {
      var n :| 0 <= n < |keys| && z in B.byOffset[keys[n]];
      var i := keys[n];
      assert i >= restart && i in B.byOffset;
      assert z - B.start[z] == i;
    }
  }

  /** ... and all of them. */
  lemma RestartBlockRangeComplete(B: BlockLookups, starts: seq<int>, stops: seq<int>, skip: seq<int>, votes: map<int, seq<int>>,
                                  blockSize: int, restart: int, j: int, z: int)
    requires 0 <= j < |starts| == |stops| && starts[j] < z <= stops[j] && z !in skip
    requires BlockKeys(B.byOffset, blockSize)
    requires BlocksDone(B, starts, stops, skip, |starts|) && BlocksOk(starts, stops, skip, votes, blockSize, |starts|)
    ensures z - starts[j] >= restart ==> z in Gather(B.byOffset, AtLeast(Range(1, blockSize + 10), restart))
  {
    assert SectionDone(B, j, starts[j], z, skip);
    assert SectionOk(z, starts[j], skip, votes, blockSize);
    var keys := AtLeast(Range(1, blockSize + 10), restart);
    if z - starts[j] >= restart {
      assert z - starts[j] in keys;
    }
  }

  /** The starter sections kept on restart are starters aligned to a block
      start; with a positive restart only offsets at or below -100 are kept,
      so none once `min_offset > -100`. */
  lemma RestartStarterRange(S: StarterLookups, starts: seq<int>, minOffset: int, restart: int)
    requires StarterSound(S, starts, minOffset)
    ensures var keys := AtMost(Range(minOffset, 0), StarterRestart(restart));
      && (forall n :: 0 <= n < |keys| ==> minOffset <= keys[n] <= StarterRestart(restart) && keys[n] < 0)
      && (forall t :: t in Gather(S.byOffset, keys) ==> t in S.offset && t + S.offset[t] in starts)
      && (restart > 0 && minOffset > -100 ==> keys == [])
  {
    if restart > 0 && minOffset > -100 {
      AtMostNone(Range(minOffset, 0), StarterRestart(restart));
    }
  }

  lemma {:induction false} AtMostNone(keys: seq<int>, bound: int)
    requires forall n :: 0 <= n < |keys| ==> keys[n] > bound
    ensures AtMost(keys, bound) == []
  {
    if keys != [] {
      AtMostNone(keys[1..], bound);
    }
  }
}
