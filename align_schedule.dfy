/** Dispatch of block-wise alignment (`inference/align_blocks.py`): the plan's
    section lists are sent phase by phase through `execute`, which splits a
    list across the worker threads. Dispatch is an append-only log of tasks,
    each recording its phase, the offset whose loop iteration sent it (0
    outside the offset loops) and its section. */
module AlignSchedule {
  import opened Slices
  import opened Partition
  import opened AlignBlocks

  datatype Phase =
    | StarterCopy | StarterCompute | StarterRender
    | BlockCompute | BlockVote | BlockRender
    | OverlapCopy
    | StitchCompute | StitchVote | StitchRender
    | BroadcastCopy | BroadcastVote

  datatype Task = Task(phase: Phase, offset: int, z: int)

  /** The position of a phase in the script's order; the three phases of one
      offset share a stage and are told apart by `Step`. */
  function Stage(p: Phase): nat {
    match p
    case StarterCopy => 0
    case StarterCompute => 1
    case StarterRender => 2
    case BlockCompute | BlockVote | BlockRender => 3
    case OverlapCopy => 4
    case StitchCompute | StitchVote | StitchRender => 5
    case BroadcastCopy => 6
    case BroadcastVote => 7
  }

  function Step(p: Phase): nat {
    match p
    case BlockVote | StitchVote => 1
    case BlockRender | StitchRender => 2
    case _ => 0
  }

  /** Task a may be sent no later than task b: an earlier stage, or the same
      stage at a smaller offset, or the same offset at an earlier step. */
  predicate NotAfter(a: Task, b: Task) {
    || Stage(a.phase) < Stage(b.phase)
    || (Stage(a.phase) == Stage(b.phase) && a.offset < b.offset)
    || (Stage(a.phase) == Stage(b.phase) && a.offset == b.offset && Step(a.phase) <= Step(b.phase))
  }

  predicate InOrder(s: seq<Task>) {
    forall i, j :: 0 <= i < j < |s| ==> NotAfter(s[i], s[j])
  }

  /** The tasks one `execute(iterator, z_range)` call sends, in order. */
  function Tasks(phase: Phase, offset: int, zs: seq<int>): (r: seq<Task>)
    ensures |r| == |zs|
  {
    if zs == [] then [] else [Task(phase, offset, zs[0])] + Tasks(phase, offset, zs[1..])
  }

  /** What the script sends: the copy, starter, overlap-copy and stitch
      section lists, and the section lists of each block and stitch offset
      with their keys in the order they are visited. */
  datatype Plan = Plan(copyRange: seq<int>, starterRange: seq<int>,
                       blockKeys: seq<int>, blockRanges: map<int, seq<int>>,
                       overlapCopyRange: seq<int>,
                       stitchKeys: seq<int>, stitchRanges: map<int, seq<int>>,
                       stitchRange: seq<int>, broadcastStarts: seq<int>)

  predicate KeysListed(keys: seq<int>, ranges: map<int, seq<int>>) {
    forall n :: 0 <= n < |keys| ==> keys[n] in ranges
  }

  predicate WellFormed(p: Plan) {
    KeysListed(p.blockKeys, p.blockRanges) && KeysListed(p.stitchKeys, p.stitchRanges)
  }

  /** One `for z_offset in sorted(...)` loop: compute, vote and render for
      every offset in turn. */
  function OffsetLoop(c: Phase, v: Phase, r: Phase, keys: seq<int>, ranges: map<int, seq<int>>): seq<Task>
    requires KeysListed(keys, ranges)
    decreases |keys|
  {
    if keys == [] then []
    else
      var k := keys[|keys| - 1];
      OffsetLoop(c, v, r, keys[..|keys| - 1], ranges)
        + (Tasks(c, k, ranges[k]) + Tasks(v, k, ranges[k]) + Tasks(r, k, ranges[k]))
  }

  /** The tasks of the whole script, phase after phase. */
  function Schedule(p: Plan): seq<Task>
    requires WellFormed(p)
  {
    Tasks(StarterCopy, 0, p.copyRange)
      + Tasks(StarterCompute, 0, p.starterRange)
      + Tasks(StarterRender, 0, p.starterRange)
      + OffsetLoop(BlockCompute, BlockVote, BlockRender, p.blockKeys, p.blockRanges)
      + Tasks(OverlapCopy, 0, p.overlapCopyRange)
      + OffsetLoop(StitchCompute, StitchVote, StitchRender, p.stitchKeys, p.stitchRanges)
      + Tasks(BroadcastCopy, 0, p.stitchRange)
      + Tasks(BroadcastVote, 0, p.broadcastStarts)
  }

  /** The dispatcher of the script: `execute` with its thread count, and the
      log of every task sent so far. */
  class Dispatcher {
    const threads: int
    var log: seq<Task>

    constructor (threads: int)
      ensures this.threads == threads && log == []
    {
      this.threads := threads;
      log := [];
    }

    /** `execute(task_iterator, z_range)`: nothing for an empty list;
        otherwise the list is cut by `make_range` and every piece's tasks are
        sent, so the log grows by the list's tasks in order. */
    method Execute(phase: Phase, offset: int, zRange: seq<int>)
      requires threads >= 1
      modifies this
      ensures log == old(log) + Tasks(phase, offset, zRange)
    {
      if |zRange| > 0 {
        var pieces := MakeRange(zRange, threads);
        ghost var base := log;
        ghost var sent: seq<int> := [];
        var k := 0;
        while k < |pieces|
          invariant 0 <= k <= |pieces|
          invariant sent == Flatten(pieces[..k])
          invariant log == base + Tasks(phase, offset, sent)
        {
          var piece := pieces[k];
          SendPiece(phase, offset, piece);
          SendAll(base, phase, offset, sent, piece);
          sent := sent + piece;
          FlattenSnoc(pieces[..k], piece);
          assert pieces[..k + 1] == pieces[..k] + [piece];
          k := k + 1;
        }
        assert pieces[..|pieces|] == pieces;
      }
    }

    /** The `apply_async` calls of one piece, in order. */
    method SendPiece(phase: Phase, offset: int, piece: seq<int>)
      modifies this
      ensures log == old(log) + Tasks(phase, offset, piece)
    {
      ghost var base := log;
      var i := 0;
      while i < |piece|
        invariant 0 <= i <= |piece|
        invariant log == base + Tasks(phase, offset, piece[..i])
      {
        SendOne(base, phase, offset, piece[..i], piece[i]);
        log := log + [Task(phase, offset, piece[i])];
        assert piece[..i + 1] == piece[..i] + [piece[i]];
        i := i + 1;
      }
      assert piece[..|piece|] == piece;
    }

    /** The script's dispatch from `execute(StarterCopy, copy_range)` to
        `execute(StitchBroadcastVectorVote, block_starts[1:])`. */
    method Run(p: Plan)
      requires threads >= 1 && WellFormed(p)
      modifies this
      ensures log == old(log) + Schedule(p)
    {
      ghost var l0 := log;
      Execute(StarterCopy, 0, p.copyRange);
      ghost var acc := Tasks(StarterCopy, 0, p.copyRange);
      Execute(StarterCompute, 0, p.starterRange);
      Assoc(l0, acc, Tasks(StarterCompute, 0, p.starterRange));
      acc := acc + Tasks(StarterCompute, 0, p.starterRange);
      Execute(StarterRender, 0, p.starterRange);
      Assoc(l0, acc, Tasks(StarterRender, 0, p.starterRange));
      acc := acc + Tasks(StarterRender, 0, p.starterRange);
      RunOffsets(BlockCompute, BlockVote, BlockRender, p.blockKeys, p.blockRanges);
      Assoc(l0, acc, OffsetLoop(BlockCompute, BlockVote, BlockRender, p.blockKeys, p.blockRanges));
      acc := acc + OffsetLoop(BlockCompute, BlockVote, BlockRender, p.blockKeys, p.blockRanges);
      Execute(OverlapCopy, 0, p.overlapCopyRange);
      Assoc(l0, acc, Tasks(OverlapCopy, 0, p.overlapCopyRange));
      acc := acc + Tasks(OverlapCopy, 0, p.overlapCopyRange);
      RunOffsets(StitchCompute, StitchVote, StitchRender, p.stitchKeys, p.stitchRanges);
      Assoc(l0, acc, OffsetLoop(StitchCompute, StitchVote, StitchRender, p.stitchKeys, p.stitchRanges));
      acc := acc + OffsetLoop(StitchCompute, StitchVote, StitchRender, p.stitchKeys, p.stitchRanges);
      Execute(BroadcastCopy, 0, p.stitchRange);
      Assoc(l0, acc, Tasks(BroadcastCopy, 0, p.stitchRange));
      acc := acc + Tasks(BroadcastCopy, 0, p.stitchRange);
      Execute(BroadcastVote, 0, p.broadcastStarts);
      Assoc(l0, acc, Tasks(BroadcastVote, 0, p.broadcastStarts));
    }

    /** One offset loop of the script. */
    method RunOffsets(c: Phase, v: Phase, r: Phase, keys: seq<int>, ranges: map<int, seq<int>>)
      requires threads >= 1 && KeysListed(keys, ranges)
      modifies this
      ensures log == old(log) + OffsetLoop(c, v, r, keys, ranges)
    {
      var n := 0;
      while n < |keys|
        invariant 0 <= n <= |keys|
        invariant log == old(log) + OffsetLoop(c, v, r, keys[..n], ranges)
      {
        ghost var before := log;
        RunOffset(c, v, r, keys[n], ranges[keys[n]]);
        LoopStep(old(log), c, v, r, keys, n, ranges);
        n := n + 1;
      }
      assert keys[..|keys|] == keys;
    }

    /** Compute, vote and render of one offset. */
    method RunOffset(c: Phase, v: Phase, r: Phase, k: int, zRange: seq<int>)
      requires threads >= 1
      modifies this
      ensures log == old(log) + (Tasks(c, k, zRange) + Tasks(v, k, zRange) + Tasks(r, k, zRange))
    {
      ghost var l0 := log;
      Execute(c, k, zRange);
      Execute(v, k, zRange);
      Assoc(l0, Tasks(c, k, zRange), Tasks(v, k, zRange));
      Execute(r, k, zRange);
      Assoc(l0, Tasks(c, k, zRange) + Tasks(v, k, zRange), Tasks(r, k, zRange));
    }
  }

  lemma Assoc(a: seq<Task>, b: seq<Task>, c: seq<Task>)
    ensures (a + b) + c == a + (b + c)
  {
  }

  lemma LoopStep(l0: seq<Task>, c: Phase, v: Phase, r: Phase, keys: seq<int>, n: int, ranges: map<int, seq<int>>)
    requires 0 <= n < |keys| && KeysListed(keys, ranges)
    ensures var k := keys[n];
      (l0 + OffsetLoop(c, v, r, keys[..n], ranges)) + (Tasks(c, k, ranges[k]) + Tasks(v, k, ranges[k]) + Tasks(r, k, ranges[k]))
      == l0 + OffsetLoop(c, v, r, keys[..n + 1], ranges)
  {
    assert keys[..n + 1][..n] == keys[..n];
    var k := keys[n];
    Assoc(l0, OffsetLoop(c, v, r, keys[..n], ranges), Tasks(c, k, ranges[k]) + Tasks(v, k, ranges[k]) + Tasks(r, k, ranges[k]));
  }

  lemma {:induction false} TasksSnoc(phase: Phase, offset: int, zs: seq<int>, z: int)
    decreases |zs|
    ensures Tasks(phase, offset, zs + [z]) == Tasks(phase, offset, zs) + [Task(phase, offset, z)]
  {
    if zs != [] {
      assert (zs + [z])[1..] == zs[1..] + [z];
      TasksSnoc(phase, offset, zs[1..], z);
    } else {
      assert [z][1..] == [];
    }
  }

  lemma {:induction false} TasksConcat(phase: Phase, offset: int, a: seq<int>, b: seq<int>)
    decreases |a|
    ensures Tasks(phase, offset, a + b) == Tasks(phase, offset, a) + Tasks(phase, offset, b)
  {
    if a != [] {
      assert (a + b)[1..] == a[1..] + b;
      TasksConcat(phase, offset, a[1..], b);
      Assoc([Task(phase, offset, a[0])], Tasks(phase, offset, a[1..]), Tasks(phase, offset, b));
    } else {
      assert a + b == b;
    }
  }

  lemma SendAll(base: seq<Task>, phase: Phase, offset: int, sent: seq<int>, piece: seq<int>)
    ensures (base + Tasks(phase, offset, sent)) + Tasks(phase, offset, piece) == base + Tasks(phase, offset, sent + piece)
  {
    TasksConcat(phase, offset, sent, piece);
  }

  lemma SendOne(base: seq<Task>, phase: Phase, offset: int, sent: seq<int>, z: int)
    ensures (base + Tasks(phase, offset, sent)) + [Task(phase, offset, z)] == base + Tasks(phase, offset, sent + [z])
  {
    TasksSnoc(phase, offset, sent, z);
  }

  /** Every task of one `execute` call carries its phase, offset and section. */
  lemma {:induction false} TasksAre(phase: Phase, offset: int, zs: seq<int>)
    decreases |zs|
    ensures forall i :: 0 <= i < |zs| ==> Tasks(phase, offset, zs)[i] == Task(phase, offset, zs[i])
  {
    if zs != [] {
      TasksAre(phase, offset, zs[1..]);
    }
  }

  // ---------------------------------------------------------------------------
  // The phase order

  /** Two runs in order, each task of the first not after any of the second,
      are in order together. */
  lemma InOrderConcat(a: seq<Task>, b: seq<Task>)
    requires InOrder(a) && InOrder(b)
    requires forall i, j :: 0 <= i < |a| && 0 <= j < |b| ==> NotAfter(a[i], b[j])
    ensures InOrder(a + b)
  {
    var s := a + b;
    forall i, j | 0 <= i < j < |s| ensures NotAfter(s[i], s[j]) {
      if j < |a| {
        assert s[i] == a[i] && s[j] == a[j];
      } else if i >= |a| {
        assert s[i] == b[i - |a|] && s[j] == b[j - |a|];
      } else {
        assert s[i] == a[i] && s[j] == b[j - |a|];
      }
    }
  }

  predicate AllAt(s: seq<Task>, stage: nat) {
    forall i :: 0 <= i < |s| ==> Stage(s[i].phase) == stage
  }

  predicate AllBelow(s: seq<Task>, stage: nat) {
    forall i :: 0 <= i < |s| ==> Stage(s[i].phase) < stage
  }

  /** A run in order, all below a stage, followed by a run in order at that
      stage. */
  lemma Extend(a: seq<Task>, b: seq<Task>, stage: nat)
    requires InOrder(a) && AllBelow(a, stage)
    requires InOrder(b) && AllAt(b, stage)
    ensures InOrder(a + b) && AllBelow(a + b, stage + 1)
  {
    InOrderConcat(a, b);
    var s := a + b;
    forall i | 0 <= i < |s| ensures Stage(s[i].phase) < stage + 1 {
      if i < |a| {
        assert s[i] == a[i];
      } else {
        assert s[i] == b[i - |a|];
      }
    }
  }

  lemma TasksAt(phase: Phase, offset: int, zs: seq<int>)
    ensures InOrder(Tasks(phase, offset, zs)) && AllAt(Tasks(phase, offset, zs), Stage(phase))
  {
    TasksAre(phase, offset, zs);
  }

  /** Every task of s is sent at the given stage, step and offset. */
  predicate Uniform(s: seq<Task>, stage: nat, step: nat, offset: int) {
    forall i :: 0 <= i < |s| ==> Stage(s[i].phase) == stage && Step(s[i].phase) == step && s[i].offset == offset
  }

  lemma TasksUniform(phase: Phase, offset: int, zs: seq<int>)
    ensures Uniform(Tasks(phase, offset, zs), Stage(phase), Step(phase), offset)
  {
    TasksAre(phase, offset, zs);
  }

  /** The three phases of one offset, in order, at that offset. */
  lemma {:induction false} TripleInOrder(c: Phase, v: Phase, r: Phase, k: int, zs: seq<int>)
    requires Stage(c) == Stage(v) == Stage(r) && Step(c) == 0 && Step(v) == 1 && Step(r) == 2
    ensures var t := Tasks(c, k, zs) + Tasks(v, k, zs) + Tasks(r, k, zs);
      InOrder(t) && AllAt(t, Stage(c)) && forall i :: 0 <= i < |t| ==> t[i].offset == k
  {
    var tc, tv, tr := Tasks(c, k, zs), Tasks(v, k, zs), Tasks(r, k, zs);
    TasksUniform(c, k, zs);
    TasksUniform(v, k, zs);
    TasksUniform(r, k, zs);
    var t := tc + tv + tr;
    forall i | 0 <= i < |t|
      ensures Stage(t[i].phase) == Stage(c) && t[i].offset == k
      ensures Step(t[i].phase) == if i < |tc| then 0 else if i < |tc| + |tv| then 1 else 2
    {
      if i < |tc| {
        assert t[i] == tc[i];
      } else if i < |tc| + |tv| {
        assert t[i] == tv[i - |tc|];
      } else {
        assert t[i] == tr[i - |tc| - |tv|];
      }
    }
  }

  /** The tasks of an offset loop are in order when its keys increase, and
      are sent at offsets no larger than the last key. */
  lemma {:induction false} OffsetLoopInOrder(c: Phase, v: Phase, r: Phase, keys: seq<int>, ranges: map<int, seq<int>>)
    requires KeysListed(keys, ranges) && StrictlyIncreasing(keys)
    requires Stage(c) == Stage(v) == Stage(r) && Step(c) == 0 && Step(v) == 1 && Step(r) == 2
    decreases |keys|
    ensures var s := OffsetLoop(c, v, r, keys, ranges);
      && InOrder(s) && AllAt(s, Stage(c))
      && (keys != [] ==> forall i :: 0 <= i < |s| ==> s[i].offset <= keys[|keys| - 1])
  {
    if keys != [] {
      var k := keys[|keys| - 1];
      var p := keys[..|keys| - 1];
      assert KeysListed(p, ranges) && StrictlyIncreasing(p) by {
        forall n | 0 <= n < |p| ensures p[n] == keys[n] { }
      }
      OffsetLoopInOrder(c, v, r, p, ranges);
      var pre := OffsetLoop(c, v, r, p, ranges);
      var t := Tasks(c, k, ranges[k]) + Tasks(v, k, ranges[k]) + Tasks(r, k, ranges[k]);
      TripleInOrder(c, v, r, k, ranges[k]);
      if p != [] {
        assert p[|p| - 1] == keys[|keys| - 2] < k;
      }
      assert forall i :: 0 <= i < |pre| ==> pre[i].offset < k;
      InOrderConcat(pre, t);
      AllAtConcat(pre, t, Stage(c));
      var s := pre + t;
      forall i | 0 <= i < |s| ensures s[i].offset <= k {
        if i < |pre| {
          assert s[i] == pre[i];
        } else {
          assert s[i] == t[i - |pre|];
        }
      }
    }
  }

  lemma AllAtConcat(a: seq<Task>, b: seq<Task>, stage: nat)
    requires AllAt(a, stage) && AllAt(b, stage)
    ensures AllAt(a + b, stage)
  {
    var s := a + b;
    forall i | 0 <= i < |s| ensures Stage(s[i].phase) == stage {
      if i < |a| {
        assert s[i] == a[i];
      } else {
        assert s[i] == b[i - |a|];
      }
    }
  }

  /** The script's strict phase order: starter copy, compute and render; then
      per block offset in ascending order compute, vote and render; then the
      overlap copy; then per stitch offset in ascending order compute, vote
      and render; then the broadcast copy and vote. */
  lemma ScheduleInOrder(p: Plan)
    requires WellFormed(p) && StrictlyIncreasing(p.blockKeys) && StrictlyIncreasing(p.stitchKeys)
    ensures InOrder(Schedule(p))
  {
    AlignmentInOrder(p);
    StitchingInOrder(Tasks(StarterCopy, 0, p.copyRange)
      + Tasks(StarterCompute, 0, p.starterRange)
      + Tasks(StarterRender, 0, p.starterRange)
      + OffsetLoop(BlockCompute, BlockVote, BlockRender, p.blockKeys, p.blockRanges), p);
  }

  /** The overlap copy, the stitch offsets and the broadcast after any run in
      order that ends with the block offsets. */
  lemma StitchingInOrder(s3: seq<Task>, p: Plan)
    requires WellFormed(p) && StrictlyIncreasing(p.stitchKeys)
    requires InOrder(s3) && AllBelow(s3, 4)
    ensures InOrder(s3 + Tasks(OverlapCopy, 0, p.overlapCopyRange)
      + OffsetLoop(StitchCompute, StitchVote, StitchRender, p.stitchKeys, p.stitchRanges)
      + Tasks(BroadcastCopy, 0, p.stitchRange)
      + Tasks(BroadcastVote, 0, p.broadcastStarts))
  {
    TasksAt(OverlapCopy, 0, p.overlapCopyRange);
    OffsetLoopInOrder(StitchCompute, StitchVote, StitchRender, p.stitchKeys, p.stitchRanges);
    TasksAt(BroadcastCopy, 0, p.stitchRange);
    TasksAt(BroadcastVote, 0, p.broadcastStarts);
    var s4 := s3 + Tasks(OverlapCopy, 0, p.overlapCopyRange);
    var s5 := s4 + OffsetLoop(StitchCompute, StitchVote, StitchRender, p.stitchKeys, p.stitchRanges);
    var s6 := s5 + Tasks(BroadcastCopy, 0, p.stitchRange);
    Extend(s3, Tasks(OverlapCopy, 0, p.overlapCopyRange), 4);
    Extend(s4, OffsetLoop(StitchCompute, StitchVote, StitchRender, p.stitchKeys, p.stitchRanges), 5);
    Extend(s5, Tasks(BroadcastCopy, 0, p.stitchRange), 6);
    Extend(s6, Tasks(BroadcastVote, 0, p.broadcastStarts), 7);
  }

  /** The starter phases and the block offsets. */
  lemma AlignmentInOrder(p: Plan)
    requires WellFormed(p) && StrictlyIncreasing(p.blockKeys)
    ensures var s := Tasks(StarterCopy, 0, p.copyRange)
      + Tasks(StarterCompute, 0, p.starterRange)
      + Tasks(StarterRender, 0, p.starterRange)
      + OffsetLoop(BlockCompute, BlockVote, BlockRender, p.blockKeys, p.blockRanges);
      InOrder(s) && AllBelow(s, 4)
  {
    TasksAt(StarterCopy, 0, p.copyRange);
    TasksAt(StarterCompute, 0, p.starterRange);
    TasksAt(StarterRender, 0, p.starterRange);
    OffsetLoopInOrder(BlockCompute, BlockVote, BlockRender, p.blockKeys, p.blockRanges);
    var s0 := Tasks(StarterCopy, 0, p.copyRange);
    var s1 := s0 + Tasks(StarterCompute, 0, p.starterRange);
    var s2 := s1 + Tasks(StarterRender, 0, p.starterRange);
    Extend([], s0, 0);
    assert [] + s0 == s0;
    Extend(s0, Tasks(StarterCompute, 0, p.starterRange), 1);
    Extend(s1, Tasks(StarterRender, 0, p.starterRange), 2);
    Extend(s2, OffsetLoop(BlockCompute, BlockVote, BlockRender, p.blockKeys, p.blockRanges), 3);
  }

  /** The plan the script dispatches after the restart filter: the copy
      range, the kept starter offsets' sections, the kept block offsets in
      sorted order with their sections, the overlap copies, the stitch
      offsets `1..block_size` with their sections, the stitch range, and the
      block starts after the first for the broadcast vote. */
  function AlignPlan(starts: seq<int>, B: BlockLookups, S: StarterLookups, stitch: map<int, seq<int>>,
                     stitchRange: seq<int>, minOffset: int, blockSize: int, restart: int): (p: Plan)
    requires |starts| >= 1
    requires BlockKeys(B.byOffset, blockSize) && StarterKeys(S.byOffset, minOffset)
    requires forall i :: 1 <= i <= blockSize ==> i in stitch
    ensures WellFormed(p) && StrictlyIncreasing(p.blockKeys) && StrictlyIncreasing(p.stitchKeys)
    ensures forall n :: 0 <= n < |p.blockKeys| ==> restart <= p.blockKeys[n] < blockSize + 10
    ensures p.broadcastStarts == starts[1..]
  {
    var starterKeys := AtMost(Range(minOffset, 0), StarterRestart(restart));
    var blockKeys := AtLeast(Range(1, blockSize + 10), restart);
    RangeIncreasing(1, blockSize + 10);
    AtLeastIncreasing(Range(1, blockSize + 10), restart);
    RangeIncreasing(1, blockSize + 1);
    Plan(CopyRange(starts, restart), Gather(S.byOffset, starterKeys), blockKeys, B.byOffset,
         S.overlapCopy, Range(1, blockSize + 1), stitch, stitchRange, starts[1..])
  }

  lemma RangeIncreasing(lo: int, hi: int)
    ensures StrictlyIncreasing(Range(lo, hi))
  {
  }
}
