/** Stitch-section selection of block-wise alignment
    (`inference/align_blocks.py`): every block after the first is stitched to
    its predecessor through the leading non-skipped sections after its start,
    as many as the largest `tgt_radius` seen so far allows. */
module AlignStitch {
  import opened Wrappers
  import opened Slices
  import opened AlignBlocks

  function Max(a: int, b: int): (r: int)
    ensures r >= a && r >= b && (r == a || r == b)
  {
    if a >= b then a else b
  }

  /** The sections block `bs` stitches from `z` on, when `count` sections are
      already taken and the running maximum of `tgt_radius` is `maxOff`: the
      walk skips listed sections, fails on a section without parameters or
      whose offset is not a key of `stitch_offset_to_z_range`, and stops at the
      first section the running maximum no longer allows. */
  function Taken(bs: int, z: int, be: int, skip: seq<int>, radius: map<int, int>, blockSize: int,
                 maxOff: int, count: nat): Result<seq<int>, PlanError>
    decreases be + 1 - z
  {
    if z > be then Ok([])
    else if z in skip then Taken(bs, z + 1, be, skip, radius, blockSize, maxOff, count)
    else if z !in radius then Err(MissingParams(z))
    else
      var m := Max(maxOff, radius[z]);
      if count < m then
        if z - bs > blockSize then Err(StitchOffsetKey(z - bs))
        else Prepend([z], Taken(bs, z + 1, be, skip, radius, blockSize, m, count + 1))
      else Ok([])
  }

  /** Sections taken so far in front of the rest of a walk. */
  function Prepend(acc: seq<int>, r: Result<seq<int>, PlanError>): (p: Result<seq<int>, PlanError>)
    ensures p.Ok? <==> r.Ok?
    ensures p.Ok? ==> p.value == acc + r.value
    ensures p.Err? ==> p.error == r.error
  {
    match r
    case Ok(rest) => Ok(acc + rest)
    case Err(e) => Err(e)
  }

  /** The largest `tgt_radius` over `xs`, starting from `m`. */
  function RunMax(m: int, radius: map<int, int>, xs: seq<int>): int
    decreases |xs|
  {
    if xs == [] then m
    else if xs[0] in radius then RunMax(Max(m, radius[xs[0]]), radius, xs[1..])
    else RunMax(m, radius, xs[1..])
  }

  /** The running maximum once the `n`-th taken section is reached. */
  function RunMaxAt(m: int, radius: map<int, int>, t: seq<int>, n: int): int
    requires 0 <= n < |t|
  {
    RunMax(m, radius, t[..n + 1])
  }

  /** A successful walk takes listed, non-skipped sections of `[z, be]` within
      `block_size` of the start. */
  lemma {:induction false} TakenWithin(bs: int, z: int, be: int, skip: seq<int>, radius: map<int, int>,
                                       blockSize: int, maxOff: int, count: nat)
    decreases be + 1 - z
    ensures var r := Taken(bs, z, be, skip, radius, blockSize, maxOff, count);
      r.Ok? ==> forall n :: 0 <= n < |r.value| ==>
        z <= r.value[n] <= be && r.value[n] !in skip && r.value[n] in radius && r.value[n] - bs <= blockSize
  {
    if z <= be && z !in skip && z in radius {
      var m := Max(maxOff, radius[z]);
      if count < m && z - bs <= blockSize {
        var rr := Taken(bs, z + 1, be, skip, radius, blockSize, m, count + 1);
        TakenWithin(bs, z + 1, be, skip, radius, blockSize, m, count + 1);
        if rr.Ok? {
          var t := [z] + rr.value;
          forall n | 0 <= n < |t| ensures z <= t[n] <= be && t[n] !in skip && t[n] in radius && t[n] - bs <= blockSize {
            if n > 0 {
              assert t[n] == rr.value[n - 1];
            }
          }
        }
      }
    } else if z <= be && z in skip {
      TakenWithin(bs, z + 1, be, skip, radius, blockSize, maxOff, count);
    }
  }

  /** The taken sections increase, and no non-skipped section before the last
      one taken is left out. */
  lemma {:induction false} TakenOrdered(bs: int, z: int, be: int, skip: seq<int>, radius: map<int, int>,
                                        blockSize: int, maxOff: int, count: nat)
    decreases be + 1 - z
    ensures var r := Taken(bs, z, be, skip, radius, blockSize, maxOff, count);
      r.Ok? ==> var t := r.value;
        && (forall n :: 0 <= n < |t| - 1 ==> t[n] < t[n + 1])
        && (forall x :: z <= x && t != [] && x <= t[|t| - 1] && x !in skip ==> x in t)
  {
    if z <= be && z !in skip && z in radius {
      var m := Max(maxOff, radius[z]);
      if count < m && z - bs <= blockSize {
        var rr := Taken(bs, z + 1, be, skip, radius, blockSize, m, count + 1);
        TakenOrdered(bs, z + 1, be, skip, radius, blockSize, m, count + 1);
        TakenWithin(bs, z + 1, be, skip, radius, blockSize, m, count + 1);
        if rr.Ok? {
          var rest := rr.value;
          var t := [z] + rest;
          forall n | 0 <= n < |t| - 1 ensures t[n] < t[n + 1] {
            if n > 0 {
              assert t[n] == rest[n - 1] && t[n + 1] == rest[n];
            } else {
              assert t[1] == rest[0];
            }
          }
          forall x | z <= x && x <= t[|t| - 1] && x !in skip ensures x in t {
            if x != z {
              assert rest != [] && rest[|rest| - 1] == t[|t| - 1];
            }
          }
        }
      }
    } else if z <= be && z in skip {
      TakenOrdered(bs, z + 1, be, skip, radius, blockSize, maxOff, count);
    }
  }

  /** Each taken section is allowed by the running maximum of `tgt_radius` at
      it, and a walk stops short of the block's end only at a section that
      maximum no longer allows. */
  lemma {:induction false} TakenCapped(bs: int, z: int, be: int, skip: seq<int>, radius: map<int, int>,
                                       blockSize: int, maxOff: int, count: nat)
    decreases be + 1 - z
    ensures var r := Taken(bs, z, be, skip, radius, blockSize, maxOff, count);
      r.Ok? ==> var t := r.value;
        && (forall n :: 0 <= n < |t| ==> count + n < RunMaxAt(maxOff, radius, t, n))
        && (forall x :: (z <= x <= be && x !in skip && x !in t && (forall y :: z <= y < x && y !in skip ==> y in t)) ==>
              count + |t| >= RunMax(maxOff, radius, t + [x]))
  {
    if z <= be && z !in skip && z in radius {
      var m := Max(maxOff, radius[z]);
      if count < m && z - bs <= blockSize {
        var rr := Taken(bs, z + 1, be, skip, radius, blockSize, m, count + 1);
        TakenCapped(bs, z + 1, be, skip, radius, blockSize, m, count + 1);
        if rr.Ok? {
          var rest := rr.value;
          var t := [z] + rest;
          forall n | 0 <= n < |t| ensures count + n < RunMaxAt(maxOff, radius, t, n) {
            assert t[..n + 1][0] == z && t[..n + 1][1..] == rest[..n];
            assert RunMaxAt(maxOff, radius, t, n) == RunMax(m, radius, rest[..n]);
            if n > 0 {
              assert RunMax(m, radius, rest[..n]) == RunMaxAt(m, radius, rest, n - 1);
            }
          }
          forall x | z <= x <= be && x !in skip && x !in t && (forall y :: z <= y < x && y !in skip ==> y in t)
            ensures count + |t| >= RunMax(maxOff, radius, t + [x])
          {
            assert forall y :: z + 1 <= y < x && y !in skip ==> y in rest;
            assert (t + [x])[0] == z && (t + [x])[1..] == rest + [x];
          }
        }
      } else {
        assert [z][0] == z && [z][1..] == [];
      }
    } else if z <= be && z in skip {
      TakenCapped(bs, z + 1, be, skip, radius, blockSize, maxOff, count);
    }
  }

  /** The offsets `bs - z` a block records for its stitch sections. */
  function Offsets(bs: int, t: seq<int>): (r: seq<int>)
    ensures |r| == |t|
    ensures forall n :: 0 <= n < |t| ==> r[n] == bs - t[n]
  {
    if t == [] then [] else [bs - t[0]] + Offsets(bs, t[1..])
  }

  /** The recorded stitch offsets are negative and strictly decreasing. */
  lemma OffsetsDecreasing(bs: int, be: int, skip: seq<int>, radius: map<int, int>, blockSize: int)
    ensures var r := Taken(bs, bs + 1, be, skip, radius, blockSize, 0, 0);
      r.Ok? ==> var o := Offsets(bs, r.value);
        (forall n :: 0 <= n < |o| ==> -blockSize <= o[n] < 0) && StrictlyDecreasing(o)
  {
    var r := Taken(bs, bs + 1, be, skip, radius, blockSize, 0, 0);
    TakenWithin(bs, bs + 1, be, skip, radius, blockSize, 0, 0);
    TakenOrdered(bs, bs + 1, be, skip, radius, blockSize, 0, 0);
    if r.Ok? {
      var o := Offsets(bs, r.value);
      ChainIncreasing(r.value);
      assert forall i, j :: 0 <= i < j < |o| ==> o[i] > o[j] by {
        forall i, j | 0 <= i < j < |o| ensures o[i] > o[j] {
          assert r.value[i] < r.value[j];
        }
      }
    }
  }

  /** `stitch_offset_to_z_range` after appending each section of `t` to the
      list of its offset from `bs`. */
  function AddAll(m: map<int, seq<int>>, bs: int, t: seq<int>): (m2: map<int, seq<int>>)
    decreases |t|
  {
    if t == [] then m
    else
      var m1 := AddAll(m, bs, t[..|t| - 1]);
      var x := t[|t| - 1];
      m1[x - bs := (if x - bs in m1 then m1[x - bs] else []) + [x]]
  }

  /** A section is in a list after the appends iff it was there before or it
      was appended under that offset. */
  lemma {:induction false} AddAllMembers(m: map<int, seq<int>>, bs: int, t: seq<int>, i: int, x: int)
    requires forall n :: 0 <= n < |t| ==> t[n] - bs in m
    decreases |t|
    ensures forall k :: k in AddAll(m, bs, t) <==> k in m
    ensures i in m ==> (x in AddAll(m, bs, t)[i] <==> x in m[i] || (x in t && x - bs == i))
  {
    if t != [] {
      var p := t[..|t| - 1];
      AddAllMembers(m, bs, p, i, x);
      assert t == p + [t[|t| - 1]];
    }
  }

  lemma AddAllKeys(m: map<int, seq<int>>, bs: int, t: seq<int>, blockSize: int)
    requires StitchKeys(m, blockSize)
    requires forall n :: 0 <= n < |t| ==> t[n] - bs in m
    ensures StitchKeys(AddAll(m, bs, t), blockSize)
  {
    AddAllMembers(m, bs, t, 0, 0);
  }

  ghost predicate StitchKeys(m: map<int, seq<int>>, blockSize: int) {
    forall i :: i in m <==> 1 <= i <= blockSize
  }

  /** `{i: [] for i in range(1, block_size+1)}`. */
  function EmptyStitch(blockSize: int): (m: map<int, seq<int>>)
    ensures StitchKeys(m, blockSize)
    ensures forall i :: i in m ==> m[i] == []
  {
    Buckets(Range(1, blockSize + 1))
  }

  /** The stitch walk of one block `(bs, be]`, appending to the stitch buckets
      and returning the block's offsets. */
  method StitchBlock(stitch: map<int, seq<int>>, bs: int, be: int, skip: seq<int>, radius: map<int, int>, blockSize: int)
    returns (res: Result<(map<int, seq<int>>, seq<int>), PlanError>)
    requires StitchKeys(stitch, blockSize)
    ensures var r := Taken(bs, bs + 1, be, skip, radius, blockSize, 0, 0);
      && (res.Ok? <==> r.Ok?)
      && (res.Err? ==> res.error == r.error)
      && (res.Ok? ==> res.value.0 == AddAll(stitch, bs, r.value) && res.value.1 == Offsets(bs, r.value))
  {
    ghost var whole := Taken(bs, bs + 1, be, skip, radius, blockSize, 0, 0);
    var st := stitch;
    var offsets := [];
    var maxOff := 0;
    ghost var acc: seq<int> := [];
    PrependEmpty(whole);
    // the source's enumeration starts at `bs` itself, which it never takes
    var z := bs + 1;
    while z <= be
      invariant bs < z
      invariant whole == Prepend(acc, Taken(bs, z, be, skip, radius, blockSize, maxOff, |acc|))
      invariant st == AddAll(stitch, bs, acc) && StitchKeys(st, blockSize)
      invariant offsets == Offsets(bs, acc)
      decreases be + 1 - z
    {
      ghost var rest := Taken(bs, z, be, skip, radius, blockSize, maxOff, |acc|);
      TakenAt(bs, z, be, skip, radius, blockSize, maxOff, |acc|);
      if z !in skip {
        if z !in radius {
          return Err(MissingParams(z));
        }
        maxOff := Max(maxOff, radius[z]);
        if |offsets| < maxOff {
          if z - bs !in st {
            return Err(StitchOffsetKey(z - bs));
          }
          Append(stitch, bs, acc, z, st, blockSize);
          KeysKept(st, z - bs, st[z - bs] + [z], blockSize);
          Prepended(acc, z, Taken(bs, z + 1, be, skip, radius, blockSize, maxOff, |acc| + 1));
          st := st[z - bs := st[z - bs] + [z]];
          offsets := offsets + [bs - z];
          acc := acc + [z];
        } else {
          assert rest == Ok([]) && acc + [] == acc;
          break;
        }
      }
      z := z + 1;
    }
    assert whole == Ok(acc) by {
      assert acc + [] == acc;
    }
    return Ok((st, offsets));
  }

  /** One step of the walk at a section z of `(bs, be]`. */
  lemma TakenAt(bs: int, z: int, be: int, skip: seq<int>, radius: map<int, int>, blockSize: int, maxOff: int, count: nat)
    requires z <= be
    ensures var r := Taken(bs, z, be, skip, radius, blockSize, maxOff, count);
      && (z in skip ==> r == Taken(bs, z + 1, be, skip, radius, blockSize, maxOff, count))
      && (z !in skip && z !in radius ==> r == Err(MissingParams(z)))
      && (z !in skip && z in radius ==>
            var m := Max(maxOff, radius[z]);
            && (count < m && z - bs > blockSize ==> r == Err(StitchOffsetKey(z - bs)))
            && (count < m && z - bs <= blockSize ==> r == Prepend([z], Taken(bs, z + 1, be, skip, radius, blockSize, m, count + 1)))
            && (count >= m ==> r == Ok([])))
  {
  }

  lemma Append(stitch: map<int, seq<int>>, bs: int, acc: seq<int>, z: int, st: map<int, seq<int>>, blockSize: int)
    requires st == AddAll(stitch, bs, acc) && z - bs in st
    ensures AddAll(stitch, bs, acc + [z]) == st[z - bs := st[z - bs] + [z]]
    ensures Offsets(bs, acc + [z]) == Offsets(bs, acc) + [bs - z]
  {
    AppendStitch(stitch, bs, acc, z);
    AppendOffsets(bs, acc, z);
  }

  lemma AppendStitch(stitch: map<int, seq<int>>, bs: int, acc: seq<int>, z: int)
    ensures var st := AddAll(stitch, bs, acc);
      AddAll(stitch, bs, acc + [z]) == st[z - bs := (if z - bs in st then st[z - bs] else []) + [z]]
  {
    assert (acc + [z])[..|acc|] == acc;
  }

  lemma AppendOffsets(bs: int, acc: seq<int>, z: int)
    ensures Offsets(bs, acc + [z]) == Offsets(bs, acc) + [bs - z]
  {
    var l, r := Offsets(bs, acc + [z]), Offsets(bs, acc) + [bs - z];
    assert |l| == |r|;
    forall n | 0 <= n < |l| ensures l[n] == r[n] {
      if n < |acc| {
        assert (acc + [z])[n] == acc[n];
      }
    }
  }

  lemma KeysKept(st: map<int, seq<int>>, i: int, v: seq<int>, blockSize: int)
    requires StitchKeys(st, blockSize) && i in st
    ensures StitchKeys(st[i := v], blockSize)
  {
  }

  lemma PrependEmpty(r: Result<seq<int>, PlanError>)
    ensures Prepend([], r) == r
  {
    if r.Ok? {
      assert [] + r.value == r.value;
    }
  }

  lemma Prepended(acc: seq<int>, z: int, r: Result<seq<int>, PlanError>)
    ensures Prepend(acc, Prepend([z], r)) == Prepend(acc + [z], r)
  {
    if r.Ok? {
      assert acc + ([z] + r.value) == (acc + [z]) + r.value;
    }
  }

  // ---------------------------------------------------------------------------
  // All blocks after the first

  /** The walk of block k. */
  function BlockTaken(starts: seq<int>, stops: seq<int>, k: int, skip: seq<int>, radius: map<int, int>,
                      blockSize: int): Result<seq<int>, PlanError>
    requires 0 <= k < |starts| == |stops|
  {
    Taken(starts[k], starts[k] + 1, stops[k], skip, radius, blockSize, 0, 0)
  }

  /** The walks of blocks 1 to k - 1 succeed. */
  predicate BlocksTaken(starts: seq<int>, stops: seq<int>, skip: seq<int>, radius: map<int, int>, blockSize: int, k: int)
    requires k <= |starts| == |stops|
  {
    forall m :: 1 <= m < k ==> BlockTaken(starts, stops, m, skip, radius, blockSize).Ok?
  }

  /** Blocks 1 to k - 1 record an odd number of offsets. */
  predicate OddUpTo(starts: seq<int>, stops: seq<int>, skip: seq<int>, radius: map<int, int>, blockSize: int, k: int)
    requires k <= |starts| == |stops| && BlocksTaken(starts, stops, skip, radius, blockSize, k)
  {
    forall m :: 1 <= m < k ==> |BlockTaken(starts, stops, m, skip, radius, blockSize).value| % 2 == 1
  }

  /** `stitch_offset_to_z_range` once blocks 1 to k - 1 are walked. */
  function StitchAll(starts: seq<int>, stops: seq<int>, skip: seq<int>, radius: map<int, int>, blockSize: int, k: int)
    : (m: map<int, seq<int>>)
    requires 1 <= k <= |starts| == |stops| && BlocksTaken(starts, stops, skip, radius, blockSize, k)
    decreases k
    ensures StitchKeys(m, blockSize)
  {
    if k == 1 then EmptyStitch(blockSize)
    else
      var prev := StitchAll(starts, stops, skip, radius, blockSize, k - 1);
      var t := BlockTaken(starts, stops, k - 1, skip, radius, blockSize).value;
      TakenKeys(starts, stops, skip, radius, blockSize, k - 1, prev);
      AddAllKeys(prev, starts[k - 1], t, blockSize);
      AddAll(prev, starts[k - 1], t)
  }

  /** Every section block m takes has its offset among the stitch keys. */
  lemma TakenKeys(starts: seq<int>, stops: seq<int>, skip: seq<int>, radius: map<int, int>, blockSize: int, m: int,
                  st: map<int, seq<int>>)
    requires 0 <= m < |starts| == |stops| && BlockTaken(starts, stops, m, skip, radius, blockSize).Ok?
    requires StitchKeys(st, blockSize)
    ensures var t := BlockTaken(starts, stops, m, skip, radius, blockSize).value;
      forall n :: 0 <= n < |t| ==> t[n] - starts[m] in st
  {
    TakenWithin(starts[m], starts[m] + 1, stops[m], skip, radius, blockSize, 0, 0);
  }

  /** Stitch selection over `block_starts[1:]`: the stitch sections gathered
      over offsets `1..block_size`, and each block start's offsets. The walks
      run block by block and the first failing one is reported; then the
      offset counts are checked in the same order. */
  method StitchPlan(starts: seq<int>, stops: seq<int>, skip: seq<int>, radius: map<int, int>, blockSize: int)
    returns (res: Result<(seq<int>, map<int, seq<int>>), PlanError>)
    requires |starts| == |stops| >= 1 && StrictlyIncreasing(starts)
    ensures res.Ok? <==> (BlocksTaken(starts, stops, skip, radius, blockSize, |starts|) &&
                          OddUpTo(starts, stops, skip, radius, blockSize, |starts|))
    ensures res.Err? ==> exists k ::
      WalkFailsAt(starts, stops, skip, radius, blockSize, k, res.error) || EvenAt(starts, stops, skip, radius, blockSize, k, res.error)
    ensures res.Ok? ==>
      && res.value.0 == Gather(StitchAll(starts, stops, skip, radius, blockSize, |starts|), Range(1, blockSize + 1))
      && RecordedOffsets(res.value.1, starts, stops, skip, radius, blockSize, |starts|)
  {
    var walked := WalkBlocks(starts, stops, skip, radius, blockSize);
    if walked.Err? {
      return Err(walked.error);
    }
    var (st, offs) := walked.value;
    var k := 1;
    while k < |starts|
      invariant 1 <= k <= |starts|
      invariant OddUpTo(starts, stops, skip, radius, blockSize, k)
    {
      if |offs[starts[k]]| % 2 == 0 {
        assert EvenAt(starts, stops, skip, radius, blockSize, k, EvenStitchCount(starts[k]));
        return Err(EvenStitchCount(starts[k]));
      }
      k := k + 1;
    }
    Gathered(st, blockSize);
    return Ok((Gather(st, Range(1, blockSize + 1)), offs));
  }

  /** Every walk succeeds, blocks 1 to k - 1 record an odd number of offsets
      and block k an even one, reported as `e`. */
  predicate EvenAt(starts: seq<int>, stops: seq<int>, skip: seq<int>, radius: map<int, int>, blockSize: int, k: int, e: PlanError)
  {
    && 1 <= k < |starts| == |stops| && BlocksTaken(starts, stops, skip, radius, blockSize, |starts|)
    && OddUpTo(starts, stops, skip, radius, blockSize, k)
    && |BlockTaken(starts, stops, k, skip, radius, blockSize).value| % 2 == 0
    && e == EvenStitchCount(starts[k])
  }

  /** Every block k' < k has its offsets recorded under its start. */
  ghost predicate RecordedOffsets(offs: map<int, seq<int>>, starts: seq<int>, stops: seq<int>, skip: seq<int>,
                                  radius: map<int, int>, blockSize: int, k: int)
    requires k <= |starts| == |stops| && BlocksTaken(starts, stops, skip, radius, blockSize, k)
  {
    forall m :: 1 <= m < k ==> (starts[m] in offs &&
      offs[starts[m]] == Offsets(starts[m], BlockTaken(starts, stops, m, skip, radius, blockSize).value))
  }

  /** The walks of blocks 1.. in order, stopping at the first failure. */
  method WalkBlocks(starts: seq<int>, stops: seq<int>, skip: seq<int>, radius: map<int, int>, blockSize: int)
    returns (res: Result<(map<int, seq<int>>, map<int, seq<int>>), PlanError>)
    requires |starts| == |stops| >= 1 && StrictlyIncreasing(starts)
    ensures res.Ok? <==> BlocksTaken(starts, stops, skip, radius, blockSize, |starts|)
    ensures res.Err? ==> exists k :: WalkFailsAt(starts, stops, skip, radius, blockSize, k, res.error)
    ensures res.Ok? ==>
      && res.value.0 == StitchAll(starts, stops, skip, radius, blockSize, |starts|)
      && RecordedOffsets(res.value.1, starts, stops, skip, radius, blockSize, |starts|)
  {
    var st := EmptyStitch(blockSize);
    var offs := Buckets(starts[1..]);
    var k := 1;
    WalkStart(starts, stops, skip, radius, blockSize, offs);
    while k < |starts|
      invariant 1 <= k <= |starts|
      invariant BlocksTaken(starts, stops, skip, radius, blockSize, k)
      invariant st == StitchAll(starts, stops, skip, radius, blockSize, k)
      invariant RecordedOffsets(offs, starts, stops, skip, radius, blockSize, k)
    {
      var r := StitchBlock(st, starts[k], stops[k], skip, radius, blockSize);
      if r.Err? {
        WalkFails(starts, stops, skip, radius, blockSize, k, r.error);
        return Err(r.error);
      }
      WalkAdvance(st, offs, starts, stops, skip, radius, blockSize, k, r);
      st := r.value.0;
      offs := offs[starts[k] := r.value.1];
      k := k + 1;
    }
    return Ok((st, offs));
  }

  /** Before the first walk nothing is taken, stitched or recorded. */
  lemma WalkStart(starts: seq<int>, stops: seq<int>, skip: seq<int>, radius: map<int, int>, blockSize: int,
                  offs: map<int, seq<int>>)
    requires |starts| == |stops| >= 1
    ensures BlocksTaken(starts, stops, skip, radius, blockSize, 1)
    ensures StitchAll(starts, stops, skip, radius, blockSize, 1) == EmptyStitch(blockSize)
    ensures RecordedOffsets(offs, starts, stops, skip, radius, blockSize, 1)
  {
  }

  lemma WalkFails(starts: seq<int>, stops: seq<int>, skip: seq<int>, radius: map<int, int>, blockSize: int, k: int, e: PlanError)
    requires 1 <= k < |starts| == |stops| && BlocksTaken(starts, stops, skip, radius, blockSize, k)
    requires var r := BlockTaken(starts, stops, k, skip, radius, blockSize); r.Err? && r.error == e
    ensures !BlocksTaken(starts, stops, skip, radius, blockSize, |starts|)
    ensures WalkFailsAt(starts, stops, skip, radius, blockSize, k, e)
  {
  }

  /** The walks before block k succeed and block k's fails with `e`. */
  predicate WalkFailsAt(starts: seq<int>, stops: seq<int>, skip: seq<int>, radius: map<int, int>, blockSize: int, k: int, e: PlanError)
  {
    && 1 <= k < |starts| == |stops| && BlocksTaken(starts, stops, skip, radius, blockSize, k)
    && BlockTaken(starts, stops, k, skip, radius, blockSize).Err?
    && e == BlockTaken(starts, stops, k, skip, radius, blockSize).error
  }

  /** One more block walked: its sections join the stitch buckets and its
      offsets are recorded under its start. */
  lemma WalkAdvance(st: map<int, seq<int>>, offs: map<int, seq<int>>, starts: seq<int>, stops: seq<int>, skip: seq<int>,
                    radius: map<int, int>, blockSize: int, k: int, res: Result<(map<int, seq<int>>, seq<int>), PlanError>)
    requires 1 <= k < |starts| == |stops| && StrictlyIncreasing(starts)
    requires BlocksTaken(starts, stops, skip, radius, blockSize, k)
    requires st == StitchAll(starts, stops, skip, radius, blockSize, k)
    requires RecordedOffsets(offs, starts, stops, skip, radius, blockSize, k)
    requires res.Ok?
    requires var r := Taken(starts[k], starts[k] + 1, stops[k], skip, radius, blockSize, 0, 0);
      && (res.Ok? <==> r.Ok?)
      && (res.Ok? ==> res.value.0 == AddAll(st, starts[k], r.value) && res.value.1 == Offsets(starts[k], r.value))
    ensures BlocksTaken(starts, stops, skip, radius, blockSize, k + 1)
    ensures res.value.0 == StitchAll(starts, stops, skip, radius, blockSize, k + 1)
    ensures RecordedOffsets(offs[starts[k] := res.value.1], starts, stops, skip, radius, blockSize, k + 1)
  {
    WalkStep(st, starts, stops, skip, radius, blockSize, k);
    RecordStep(offs, starts, stops, skip, radius, blockSize, k, res.value.1);
  }

  lemma WalkStep(st: map<int, seq<int>>, starts: seq<int>, stops: seq<int>, skip: seq<int>,
                 radius: map<int, int>, blockSize: int, k: int)
    requires 1 <= k < |starts| == |stops| && BlocksTaken(starts, stops, skip, radius, blockSize, k)
    requires st == StitchAll(starts, stops, skip, radius, blockSize, k)
    requires BlockTaken(starts, stops, k, skip, radius, blockSize).Ok?
    ensures BlocksTaken(starts, stops, skip, radius, blockSize, k + 1)
    ensures StitchAll(starts, stops, skip, radius, blockSize, k + 1) ==
            AddAll(st, starts[k], BlockTaken(starts, stops, k, skip, radius, blockSize).value)
  {
  }

  lemma RecordStep(offs: map<int, seq<int>>, starts: seq<int>, stops: seq<int>, skip: seq<int>,
                   radius: map<int, int>, blockSize: int, k: int, o: seq<int>)
    requires 1 <= k < |starts| == |stops| && StrictlyIncreasing(starts)
    requires BlocksTaken(starts, stops, skip, radius, blockSize, k + 1)
    requires RecordedOffsets(offs, starts, stops, skip, radius, blockSize, k)
    requires o == Offsets(starts[k], BlockTaken(starts, stops, k, skip, radius, blockSize).value)
    ensures RecordedOffsets(offs[starts[k] := o], starts, stops, skip, radius, blockSize, k + 1)
  {
    forall m | 1 <= m < k ensures starts[m] != starts[k] {
      assert starts[m] < starts[k];
    }
  }

  lemma Gathered(st: map<int, seq<int>>, blockSize: int)
    requires StitchKeys(st, blockSize)
    ensures var keys := Range(1, blockSize + 1); forall n :: 0 <= n < |keys| ==> keys[n] in st
  {
  }

  /** Bucket i of the stitch lookups holds exactly the sections some block
      took at offset i from its start. */
  lemma {:induction false} StitchAllMembers(starts: seq<int>, stops: seq<int>, skip: seq<int>, radius: map<int, int>,
                                            blockSize: int, k: int, i: int, x: int)
    requires 1 <= k <= |starts| == |stops| && BlocksTaken(starts, stops, skip, radius, blockSize, k)
    requires 1 <= i <= blockSize
    decreases k
    ensures x in StitchAll(starts, stops, skip, radius, blockSize, k)[i] <==>
      exists m :: 1 <= m < k && x in BlockTaken(starts, stops, m, skip, radius, blockSize).value && x - starts[m] == i
  {
    if k > 1 {
      var prev := StitchAll(starts, stops, skip, radius, blockSize, k - 1);
      var t := BlockTaken(starts, stops, k - 1, skip, radius, blockSize).value;
      TakenKeys(starts, stops, skip, radius, blockSize, k - 1, prev);
      AddAllMembers(prev, starts[k - 1], t, i, x);
      StitchAllMembers(starts, stops, skip, radius, blockSize, k - 1, i, x);
    }
  }

  /** `stitch_range` holds exactly the sections taken by the stitch walks of
      the blocks after the first. */
  lemma StitchRangeMembers(starts: seq<int>, stops: seq<int>, skip: seq<int>, radius: map<int, int>, blockSize: int, z: int)
    requires |starts| == |stops| >= 1 && BlocksTaken(starts, stops, skip, radius, blockSize, |starts|)
    ensures var all := StitchAll(starts, stops, skip, radius, blockSize, |starts|);
      z in Gather(all, Range(1, blockSize + 1)) <==>
        exists m :: 1 <= m < |starts| && z in BlockTaken(starts, stops, m, skip, radius, blockSize).value
  {
    var all := StitchAll(starts, stops, skip, radius, blockSize, |starts|);
    var keys := Range(1, blockSize + 1);
    Gathered(all, blockSize);
    if z in Gather(all, keys) {
      var n :| 0 <= n < |keys| && z in all[keys[n]];
      StitchAllMembers(starts, stops, skip, radius, blockSize, |starts|, keys[n], z);
    }
    if exists m :: 1 <= m < |starts| && z in BlockTaken(starts, stops, m, skip, radius, blockSize).value {
      var m :| 1 <= m < |starts| && z in BlockTaken(starts, stops, m, skip, radius, blockSize).value;
      TakenWithin(starts[m], starts[m] + 1, stops[m], skip, radius, blockSize, 0, 0);
      var i := z - starts[m];
      StitchAllMembers(starts, stops, skip, radius, blockSize, |starts|, i, z);
      assert keys[i - 1] == i;
    }
  }

  // ---------------------------------------------------------------------------
  // The stitch fields

  /** The keys `stitch_fields` gets from `offset_range`:
      `range(min_offset, abs(min_offset) + 1)`, with `min_offset <= 0`. */
  function StitchFieldKeysAsWritten(minOffset: int): (r: seq<int>)
    requires minOffset <= 0
    ensures forall x :: x in r <==> minOffset <= x <= -minOffset
  {
    Range(minOffset, -minOffset + 1)
  }

  /** A parameter table for sections 0 to 8: `tgt_radius` 1, except 3 at
      section 5. */
  const ExampleRadius: map<int, int> := map[0 := 1, 1 := 1, 2 := 1, 3 := 1, 4 := 1, 5 := 3, 6 := 1, 7 := 1, 8 := 1]

  /** `vvote_lookup` of `ExampleRadius` after the adjustment for skip list [6]. */
  const ExampleVotes: map<int, seq<int>> :=
    map[0 := [-1], 1 := [-1], 2 := [-1], 3 := [-1], 4 := [-1], 5 := [-1, -2, -3], 6 := [-1], 7 := [-2], 8 := [-1]]

  /** The skip-list adjustment of `ExampleRadius` for skip list [6]: section 7
      votes past the skipped section 6, and the lowest adjusted offset is
      section 5's -3, so `min_offset == -3`. */
  lemma ExampleVotesAdjusted()
    ensures forall z :: z in ExampleRadius ==> z in ExampleVotes && ExampleVotes[z] == Adjusted(z, VoteOffsets(ExampleRadius[z]), [6])
    ensures IsLastMin(ExampleVotes, -3)
  {
    forall z | z in ExampleRadius ensures z in ExampleVotes && ExampleVotes[z] == Adjusted(z, VoteOffsets(ExampleRadius[z]), [6]) {
      ExampleAdjustedAt(z);
    }
    forall z | z in ExampleVotes ensures ExampleVotes[z] != [] && -3 <= ExampleVotes[z][|ExampleVotes[z]| - 1] {
      assert z == 5 || ExampleVotes[z] == [-1] || ExampleVotes[z] == [-2];
    }
    assert ExampleVotes[5][2] == -3;
  }

  lemma ExampleAdjustedAt(z: int)
    requires z in ExampleRadius
    ensures z in ExampleVotes && ExampleVotes[z] == Adjusted(z, VoteOffsets(ExampleRadius[z]), [6])
  {
    if z == 5 {
      assert VoteOffsets(3) == [-1, -2, -3];
      assert Shifted(5, [-3], 0, [6]) == [-3];
      assert Shifted(5, [-2, -3], 0, [6]) == [-2, -3];
    } else {
      assert ExampleRadius[z] == 1;
      assert VoteOffsets(1) == [-1];
      if z == 7 {
        assert FreeBelow(6, [6]) == 5;
      } else {
        assert FreeBelow(z - 1, [6]) == z - 1;
      }
    }
  }

  /** A parameter table on which the stitch walk asks for a field that
      `offset_range` never created: `ExampleRadius` with section 6 skipped,
      and blocks of 4 from 0 to 8 (starts 0 and 4, stops 4 and 8). Block 4
      stitches sections 5, 7 and 8 (an odd count, so the assert on the counts
      passes) at offsets -1, -3 and -4, while the adjusted vote offsets
      bottom out at `min_offset == -3` (`ExampleVotesAdjusted`):
      `stitch_fields[-4]` raises `KeyError`. */
  lemma StitchFieldMissing()
    ensures BlockTaken([0, 4], [4, 8], 1, [6], ExampleRadius, 4) == Ok([5, 7, 8])
    ensures Offsets(4, [5, 7, 8]) == [-1, -3, -4]
    ensures IsLastMin(ExampleVotes, -3)
    ensures -4 !in StitchFieldKeysAsWritten(-3)
  {
    var radius := ExampleRadius;
    assert radius[5] == 3 && radius[7] == 1 && radius[8] == 1 && 5 !in [6] && 7 !in [6] && 8 !in [6] && 6 in [6];
    assert Taken(4, 9, 8, [6], radius, 4, 3, 3) == Ok([]);
    assert Taken(4, 8, 8, [6], radius, 4, 3, 2) == Prepend([8], Ok([]));
    assert [8] + [] == [8] && [7] + [8] == [7, 8] && [5] + [7, 8] == [5, 7, 8];
    assert Taken(4, 7, 8, [6], radius, 4, 3, 1) == Prepend([7], Ok([8]));
    assert Taken(4, 6, 8, [6], radius, 4, 3, 1) == Ok([7, 8]);
    assert Taken(4, 5, 8, [6], radius, 4, 0, 0) == Prepend([5], Ok([7, 8]));
    ExampleVotesAdjusted();
  }

  /** The keys the stitch fields need: `offset_range` together with every
      stitch offset `-block_size..-1`. */
  function StitchFieldKeys(minOffset: int, blockSize: int): (r: seq<int>)
    requires minOffset <= 0
    ensures forall x :: x in r <==> x in StitchFieldKeysAsWritten(minOffset) || -blockSize <= x < 0
  {
    Range(if minOffset < -blockSize then minOffset else -blockSize, -minOffset + 1)
  }

  /** With the corrected keys every offset a stitch walk records names a
      stitch field, and so does every offset of `offset_range`. */
  lemma StitchFieldsCover(bs: int, be: int, skip: seq<int>, radius: map<int, int>, blockSize: int, minOffset: int)
    requires minOffset <= 0
    ensures var r := Taken(bs, bs + 1, be, skip, radius, blockSize, 0, 0);
      r.Ok? ==> forall n :: 0 <= n < |r.value| ==> bs - r.value[n] in StitchFieldKeys(minOffset, blockSize)
    ensures forall x :: x in StitchFieldKeysAsWritten(minOffset) ==> x in StitchFieldKeys(minOffset, blockSize)
  {
    var r := Taken(bs, bs + 1, be, skip, radius, blockSize, 0, 0);
    OffsetsDecreasing(bs, be, skip, radius, blockSize);
    if r.Ok? {
      forall n | 0 <= n < |r.value| ensures bs - r.value[n] in StitchFieldKeys(minOffset, blockSize) {
        assert Offsets(bs, r.value)[n] == bs - r.value[n];
      }
    }
  }
}
